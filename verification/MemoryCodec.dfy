/** What `MemoryWriter` and `MemoryReader` do to a buffer, field by field, and how they undo each other. */
module MemoryCodecSpec {
  import opened Bytes

  datatype Order = Big | Little

  /** Something written in one call. */
  datatype Field =
    | Word16(order: Order, v16: bv16)
    | Word32(order: Order, v32: bv32)
    | Word64(order: Order, v64: bv64)
    | Span(bytes: seq<bv8>)

  /** What the reader has to know of a field to ask for it. */
  datatype Shape = Shape16(order: Order) | Shape32(order: Order) | Shape64(order: Order) | ShapeSpan(length: nat)

  function ShapeOf(f: Field): Shape {
    match f
    case Word16(order, _) => Shape16(order)
    case Word32(order, _) => Shape32(order)
    case Word64(order, _) => Shape64(order)
    case Span(bytes) => ShapeSpan(|bytes|)
  }

  function SizeOf(s: Shape): nat {
    match s case Shape16(_) => 2 case Shape32(_) => 4 case Shape64(_) => 8 case ShapeSpan(length) => length
  }

  /** The bytes of a word, most significant first. */
  function Bytes16(v: bv16): (b: seq<bv8>)
    ensures |b| == 2
  {
    [((v >> 8) & 0xff) as bv8, (v & 0xff) as bv8]
  }

  function Bytes32(v: bv32): (b: seq<bv8>)
    ensures |b| == 4
  {
    [((v >> 24) & 0xff) as bv8, ((v >> 16) & 0xff) as bv8, ((v >> 8) & 0xff) as bv8, (v & 0xff) as bv8]
  }

  function Bytes64(v: bv64): (b: seq<bv8>)
    ensures |b| == 8
  {
    [((v >> 56) & 0xff) as bv8, ((v >> 48) & 0xff) as bv8, ((v >> 40) & 0xff) as bv8, ((v >> 32) & 0xff) as bv8,
     ((v >> 24) & 0xff) as bv8, ((v >> 16) & 0xff) as bv8, ((v >> 8) & 0xff) as bv8, (v & 0xff) as bv8]
  }

  function Join16(b0: bv8, b1: bv8): bv16 {
    ((b0 as bv16) << 8) + b1 as bv16
  }

  function Join32(b0: bv8, b1: bv8, b2: bv8, b3: bv8): bv32 {
    ((b0 as bv32) << 24) + ((b1 as bv32) << 16) + ((b2 as bv32) << 8) + b3 as bv32
  }

  function Join64(b0: bv8, b1: bv8, b2: bv8, b3: bv8, b4: bv8, b5: bv8, b6: bv8, b7: bv8): bv64 {
    ((b0 as bv64) << 56) + ((b1 as bv64) << 48) + ((b2 as bv64) << 40) + ((b3 as bv64) << 32)
    + ((b4 as bv64) << 24) + ((b5 as bv64) << 16) + ((b6 as bv64) << 8) + b7 as bv64
  }

  function InOrder(order: Order, b: seq<bv8>): (r: seq<bv8>)
    ensures |r| == |b|
  {
    if order.Big? then b else Reversed(b)
  }

  function Encode(f: Field): (b: seq<bv8>)
    ensures |b| == SizeOf(ShapeOf(f))
  {
    match f
    case Word16(order, v) => InOrder(order, Bytes16(v))
    case Word32(order, v) => InOrder(order, Bytes32(v))
    case Word64(order, v) => InOrder(order, Bytes64(v))
    case Span(bytes) => bytes
  }

  lemma BytesOf16(order: Order, v: bv16)
    ensures var b := Bytes16(v); Encode(Word16(order, v)) == if order.Big? then b else [b[1], b[0]]
  {
    hide Bytes16;
  }

  lemma BytesOf32(order: Order, v: bv32)
    ensures var b := Bytes32(v); Encode(Word32(order, v)) == if order.Big? then b else [b[3], b[2], b[1], b[0]]
  {
    hide Bytes32;
  }

  lemma BytesOf64(order: Order, v: bv64)
    ensures var b := Bytes64(v);
            Encode(Word64(order, v)) == if order.Big? then b else [b[7], b[6], b[5], b[4], b[3], b[2], b[1], b[0]]
  {
    hide Bytes64;
  }

  function Decode(s: Shape, b: seq<bv8>): (f: Field)
    requires |b| == SizeOf(s)
    ensures ShapeOf(f) == s
  {
    match s
    case Shape16(order) => var c := InOrder(order, b); Word16(order, Join16(c[0], c[1]))
    case Shape32(order) => var c := InOrder(order, b); Word32(order, Join32(c[0], c[1], c[2], c[3]))
    case Shape64(order) =>
      var c := InOrder(order, b);
      Word64(order, Join64(c[0], c[1], c[2], c[3], c[4], c[5], c[6], c[7]))
    case ShapeSpan(_) => Span(b)
  }

  lemma JoinsBytes16(v: bv16)
    ensures var b := Bytes16(v); Join16(b[0], b[1]) == v
  {
  }

  lemma JoinsBytes32(v: bv32)
    ensures var b := Bytes32(v); Join32(b[0], b[1], b[2], b[3]) == v
  {
  }

  lemma JoinsBytes64(v: bv64)
    ensures var b := Bytes64(v); Join64(b[0], b[1], b[2], b[3], b[4], b[5], b[6], b[7]) == v
  {
  }

  lemma OrderInverts(order: Order, b: seq<bv8>)
    ensures InOrder(order, InOrder(order, b)) == b
  {
  }

  /** One field survives. */
  lemma DecodeInverts(f: Field)
    ensures Decode(ShapeOf(f), Encode(f)) == f
  {
    hide Join16, Join32, Join64, InOrder;
    match f
    case Word16(order, v) => JoinsBytes16(v); hide Bytes16; OrderInverts(order, Bytes16(v));
    case Word32(order, v) => JoinsBytes32(v); hide Bytes32; OrderInverts(order, Bytes32(v));
    case Word64(order, v) => JoinsBytes64(v); hide Bytes64; OrderInverts(order, Bytes64(v));
    case Span(_) =>
  }

  /** What a word is worth. */
  function ValueOf(f: Field): nat
    requires !f.Span?
  {
    match f case Word16(_, v) => Number16(v) case Word32(_, v) => Number32(v) case Word64(_, v) => Number(v)
  }

  lemma JoinDigits16(b0: bv8, b1: bv8)
    ensures Number16(Join16(b0, b1)) == 256 * Digit(b0) + Digit(b1)
  {
  }

  lemma JoinDigits32(b0: bv8, b1: bv8, b2: bv8, b3: bv8)
    ensures Number32(Join32(b0, b1, b2, b3)) == Horner(b0, b1, b2, b3)
  {
  }

  lemma JoinDigits64(b0: bv8, b1: bv8, b2: bv8, b3: bv8, b4: bv8, b5: bv8, b6: bv8, b7: bv8)
    ensures Number(Join64(b0, b1, b2, b3, b4, b5, b6, b7))
         == TWO32 * Horner(b0, b1, b2, b3) + Horner(b4, b5, b6, b7)
  {
  }

  /** Joining bytes gives the number they spell, the first being the most significant. */
  lemma JoinIs16(b: seq<bv8>)
    requires |b| == 2
    ensures Number16(Join16(b[0], b[1])) == BigValue(b)
  {
    hide Number16, Join16, Digit, BigValue;
    JoinDigits16(b[0], b[1]);
    OneDigit(b[0]);
    BigGrows([b[0]], b[1]);
    assert b == [b[0]] + [b[1]];
  }

  lemma JoinIs32(b: seq<bv8>)
    requires |b| == 4
    ensures Number32(Join32(b[0], b[1], b[2], b[3])) == BigValue(b)
  {
    hide Number32, Join32, Digit, BigValue, LittleValue;
    JoinDigits32(b[0], b[1], b[2], b[3]);
    FourDigits(b[0], b[1], b[2], b[3]);
    assert b == [b[0], b[1], b[2], b[3]];
  }

  lemma JoinIs64(b: seq<bv8>)
    requires |b| == 8
    ensures Number(Join64(b[0], b[1], b[2], b[3], b[4], b[5], b[6], b[7])) == BigValue(b)
  {
    hide Number, Join64, Digit, BigValue, LittleValue, Weight, Horner;
    JoinDigits64(b[0], b[1], b[2], b[3], b[4], b[5], b[6], b[7]);
    FourDigits(b[0], b[1], b[2], b[3]);
    FourDigits(b[4], b[5], b[6], b[7]);
    BigConcat([b[0], b[1], b[2], b[3]], [b[4], b[5], b[6], b[7]]);
    WeightOf4();
    assert b == [b[0], b[1], b[2], b[3]] + [b[4], b[5], b[6], b[7]];
  }

  lemma OrderedValue(order: Order, b: seq<bv8>)
    ensures BigValue(b) == if order.Big? then BigValue(InOrder(order, b)) else LittleValue(InOrder(order, b))
  {
    hide BigValue, LittleValue;
    if order.Little? {
      OrderInverts(order, b);
      ReversedValue(Reversed(b));
    }
  }

  /** A word read is the number its bytes spell: from the high end in `BE` calls, from the low end in `LE` ones. */
  lemma DecodesDigits(s: Shape, b: seq<bv8>)
    requires |b| == SizeOf(s) && !s.ShapeSpan?
    ensures ValueOf(Decode(s, b)) == if s.order.Big? then BigValue(b) else LittleValue(b)
  {
    hide BigValue, LittleValue, InOrder, Join16, Join32, Join64, Number16, Number32, Number;
    var c := InOrder(s.order, b);
    OrderInverts(s.order, b);
    OrderedValue(s.order, c);
    match s
    case Shape16(_) => JoinIs16(c);
    case Shape32(_) => JoinIs32(c);
    case Shape64(_) => JoinIs64(c);
  }

  /** ... and so is a word written. */
  lemma EncodesDigits(f: Field)
    requires !f.Span?
    ensures ValueOf(f) == if f.order.Big? then BigValue(Encode(f)) else LittleValue(Encode(f))
  {
    hide BigValue, LittleValue, Encode, Decode;
    DecodeInverts(f);
    DecodesDigits(ShapeOf(f), Encode(f));
  }

  // ---------------------------------------------------------------------------------------------
  // Lists of fields

  /** The guard of every call: the field fits between the offset and the end. */
  predicate Fits(size: nat, at: nat, s: Shape) {
    at + SizeOf(s) <= size
  }

  /** The writer seeks to any offset up to the end, so every field that fits meets its assertion. */
  predicate WriterSeeks(size: nat, at: nat) {
    at <= size
  }

  /** The reader seeks only to offsets before the end. */
  predicate ReaderSeeks(size: nat, at: nat) {
    at < size
  }

  /** The two assertions differ on exactly one field: an empty span at the end can be written and not read. */
  lemma SeeksDiffer(size: nat, at: nat, s: Shape)
    requires Fits(size, at, s)
    ensures WriterSeeks(size, at)
    ensures ReaderSeeks(size, at) <==> !(SizeOf(s) == 0 && at == size)
  {
  }

  /** The reader's assertion, reached when a field fits. */
  predicate SeekAllowed(size: nat, at: nat, s: Shape) {
    Fits(size, at, s) ==> ReaderSeeks(size, at)
  }

  function Next(size: nat, at: nat, s: Shape): nat {
    if Fits(size, at, s) then at + SizeOf(s) else at
  }

  function WriteField(mem: seq<bv8>, at: nat, f: Field): (r: seq<bv8>)
    ensures |r| == |mem|
  {
    if Fits(|mem|, at, ShapeOf(f)) then mem[..at] + Encode(f) + mem[at + SizeOf(ShapeOf(f))..] else mem
  }

  lemma WritesItsBytes(mem: seq<bv8>, at: nat, f: Field)
    ensures WriteField(mem, at, f) == WriteField(mem, at, Span(Encode(f)))
  {
  }

  /** What a reader returns when the field does not fit. */
  function Zero(s: Shape): Field {
    match s
    case Shape16(order) => Word16(order, 0)
    case Shape32(order) => Word32(order, 0)
    case Shape64(order) => Word64(order, 0)
    case ShapeSpan(_) => Span([])
  }

  function ReadField(mem: seq<bv8>, at: nat, s: Shape): Field {
    if Fits(|mem|, at, s) then Decode(s, mem[at..at + SizeOf(s)]) else Zero(s)
  }

  function WriteAll(mem: seq<bv8>, at: nat, fields: seq<Field>): (r: (seq<bv8>, nat))
    ensures |r.0| == |mem| && at <= r.1
    decreases |fields|
  {
    if fields == [] then (mem, at)
    else WriteAll(WriteField(mem, at, fields[0]), Next(|mem|, at, ShapeOf(fields[0])), fields[1..])
  }

  function ReadAll(mem: seq<bv8>, at: nat, shapes: seq<Shape>): (seq<Field>, nat)
    decreases |shapes|
  {
    if shapes == [] then ([], at)
    else
      var (later, end) := ReadAll(mem, Next(|mem|, at, shapes[0]), shapes[1..]);
      ([ReadField(mem, at, shapes[0])] + later, end)
  }

  function Shapes(fields: seq<Field>): (r: seq<Shape>)
    ensures |r| == |fields|
  {
    seq(|fields|, i requires 0 <= i < |fields| => ShapeOf(fields[i]))
  }

  /** The fields, with those that did not fit replaced by zeros. */
  function Kept(size: nat, at: nat, fields: seq<Field>): (r: seq<Field>)
    ensures |r| == |fields|
    decreases |fields|
  {
    if fields == [] then []
    else
      var s := ShapeOf(fields[0]);
      [if Fits(size, at, s) then fields[0] else Zero(s)] + Kept(size, Next(size, at, s), fields[1..])
  }

  /** Writing touches only the bytes between the two offsets. */
  lemma {:induction false} WritesInside(mem: seq<bv8>, at: nat, fields: seq<Field>)
    requires at <= |mem|
    ensures var (mem', end) := WriteAll(mem, at, fields);
            end <= |mem| && mem'[..at] == mem[..at] && mem'[end..] == mem[end..]
    decreases |fields|
  {
    hide Encode;
    if fields != [] {
      var next, mem1 := Next(|mem|, at, ShapeOf(fields[0])), WriteField(mem, at, fields[0]);
      WritesInside(mem1, next, fields[1..]);
      var (mem', end) := WriteAll(mem1, next, fields[1..]);
      assert mem1[..at] == mem[..at] && mem1[next..] == mem[next..];
      assert mem'[..at] == mem'[..next][..at] && mem1[..at] == mem1[..next][..at];
      assert mem1[end..] == mem1[next..][end - next..] && mem[end..] == mem[next..][end - next..];
    }
  }

  /**
   * Reading back, with the reader's no-offset calls, whatever list was written: the fields that fitted
   * come back as they were, the others as zeros, and the reader ends where the writer did.
   */
  lemma {:induction false} ReadsBack(mem: seq<bv8>, at: nat, fields: seq<Field>)
    requires at <= |mem|
    ensures var (mem', end) := WriteAll(mem, at, fields);
            ReadAll(mem', at, Shapes(fields)) == (Kept(|mem|, at, fields), end)
    decreases |fields|
  {
    if fields != [] {
      hide Encode, Decode, WriteField, ReadField;
      var s := ShapeOf(fields[0]);
      var next, mem1 := Next(|mem|, at, s), WriteField(mem, at, fields[0]);
      ReadsBack(mem1, next, fields[1..]);
      ReadsFirst(mem, at, fields);
      assert Shapes(fields)[1..] == Shapes(fields[1..]);
    }
  }

  lemma ReadsFirst(mem: seq<bv8>, at: nat, fields: seq<Field>)
    requires at <= |mem| && fields != []
    ensures var s := ShapeOf(fields[0]);
            ReadField(WriteAll(mem, at, fields).0, at, s) == if Fits(|mem|, at, s) then fields[0] else Zero(s)
  {
    hide Encode, Decode, WriteField;
    var s := ShapeOf(fields[0]);
    var next, mem1 := Next(|mem|, at, s), WriteField(mem, at, fields[0]);
    var mem' := WriteAll(mem, at, fields).0;
    assert mem' == WriteAll(mem1, next, fields[1..]).0;
    if Fits(|mem|, at, s) {
      WritesInside(mem1, next, fields[1..]);
      hide WriteAll;
      FieldIsThere(mem, at, fields[0]);
      SamePart(mem', mem1, at, next);
      DecodeInverts(fields[0]);
    }
  }

  lemma SamePart(a: seq<bv8>, b: seq<bv8>, at: nat, end: nat)
    requires at <= end <= |a| == |b| && a[..end] == b[..end]
    ensures a[at..end] == b[at..end]
  {
    assert a[at..end] == a[..end][at..] && b[at..end] == b[..end][at..];
  }

  lemma FieldIsThere(mem: seq<bv8>, at: nat, f: Field)
    requires Fits(|mem|, at, ShapeOf(f))
    ensures WriteField(mem, at, f)[at..at + SizeOf(ShapeOf(f))] == Encode(f)
  {
  }

  /** Every field fits where its turn comes, or is a zero already. */
  predicate Survives(size: nat, at: nat, fields: seq<Field>)
    decreases |fields|
  {
    fields == [] ||
    var s := ShapeOf(fields[0]);
    (Fits(size, at, s) || fields[0] == Zero(s)) && Survives(size, Next(size, at, s), fields[1..])
  }

  lemma {:induction false} KeptIffSurvives(size: nat, at: nat, fields: seq<Field>)
    ensures Kept(size, at, fields) == fields <==> Survives(size, at, fields)
    decreases |fields|
  {
    if fields != [] {
      var s := ShapeOf(fields[0]);
      var later := Kept(size, Next(size, at, s), fields[1..]);
      KeptIffSurvives(size, Next(size, at, s), fields[1..]);
      var first := if Fits(size, at, s) then fields[0] else Zero(s);
      assert fields == [fields[0]] + fields[1..];
      assert ([first] + later)[0] == first && ([first] + later)[1..] == later;
    }
  }

  /** The round trip is exact if and only if every field fits, or was a zero and lost nothing. */
  lemma RoundTripIff(mem: seq<bv8>, at: nat, fields: seq<Field>)
    requires at <= |mem|
    ensures var (mem', end) := WriteAll(mem, at, fields);
            ReadAll(mem', at, Shapes(fields)) == (fields, end) <==> Survives(|mem|, at, fields)
  {
    ReadsBack(mem, at, fields);
    KeptIffSurvives(|mem|, at, fields);
  }

  function TotalSize(fields: seq<Field>): nat {
    if fields == [] then 0 else SizeOf(ShapeOf(fields[0])) + TotalSize(fields[1..])
  }

  predicate HasEmptySpan(fields: seq<Field>) {
    exists i :: 0 <= i < |fields| && fields[i] == Span([])
  }

  /** No read of the list trips the assertion. */
  predicate ReadsAllowed(size: nat, at: nat, shapes: seq<Shape>)
    decreases |shapes|
  {
    shapes == [] || (SeekAllowed(size, at, shapes[0]) && ReadsAllowed(size, Next(size, at, shapes[0]), shapes[1..]))
  }

  /** Where the reader stands when the turn of shape `i` comes. */
  function OffsetAt(size: nat, at: nat, shapes: seq<Shape>, i: nat): nat
    requires i < |shapes|
    decreases i
  {
    if i == 0 then at else OffsetAt(size, Next(size, at, shapes[0]), shapes[1..], i - 1)
  }

  /** An empty span comes up for reading when the reader is at the end of the buffer. */
  ghost predicate ReadsNothingAtEnd(size: nat, at: nat, shapes: seq<Shape>) {
    exists i :: 0 <= i < |shapes| && SizeOf(shapes[i]) == 0 && OffsetAt(size, at, shapes, i) == size
  }

  /** The assertion is tripped exactly then; the writer's never is. */
  lemma {:induction false} ReadsAllowedIff(size: nat, at: nat, shapes: seq<Shape>)
    ensures ReadsAllowed(size, at, shapes) <==> !ReadsNothingAtEnd(size, at, shapes)
    decreases |shapes|
  {
    if shapes != [] {
      var next, rest := Next(size, at, shapes[0]), shapes[1..];
      ReadsAllowedIff(size, next, rest);
      if Fits(size, at, shapes[0]) {
        SeeksDiffer(size, at, shapes[0]);
      }
      assert OffsetAt(size, at, shapes, 0) == at;
      if ReadsNothingAtEnd(size, next, rest) {
        var i :| 0 <= i < |rest| && SizeOf(rest[i]) == 0 && OffsetAt(size, next, rest, i) == size;
        assert shapes[i + 1] == rest[i] && OffsetAt(size, at, shapes, i + 1) == size;
      }
      if ReadsNothingAtEnd(size, at, shapes) {
        var i :| 0 <= i < |shapes| && SizeOf(shapes[i]) == 0 && OffsetAt(size, at, shapes, i) == size;
        if i > 0 {
          assert rest[i - 1] == shapes[i] && OffsetAt(size, next, rest, i - 1) == size;
        }
      }
    }
  }

  lemma {:induction false} ReadsWithoutEmptySpans(size: nat, at: nat, fields: seq<Field>)
    requires !HasEmptySpan(fields)
    ensures ReadsAllowed(size, at, Shapes(fields))
    decreases |fields|
  {
    if fields != [] {
      assert fields[0] != Span([]) && Shapes(fields)[1..] == Shapes(fields[1..]);
      assert forall i :: 0 <= i < |fields[1..]| ==> fields[1..][i] == fields[i + 1];
      ReadsWithoutEmptySpans(size, Next(size, at, ShapeOf(fields[0])), fields[1..]);
    }
  }

  lemma {:induction false} FittingSurvives(size: nat, at: nat, fields: seq<Field>)
    requires at + TotalSize(fields) <= size
    ensures Survives(size, at, fields)
    decreases |fields|
  {
    if fields != [] {
      FittingSurvives(size, Next(size, at, ShapeOf(fields[0])), fields[1..]);
    }
  }

  lemma {:induction false} FittingEnd(mem: seq<bv8>, at: nat, fields: seq<Field>)
    requires at + TotalSize(fields) <= |mem|
    ensures WriteAll(mem, at, fields).1 == at + TotalSize(fields)
    decreases |fields|
  {
    hide Encode;
    if fields != [] {
      FittingEnd(WriteField(mem, at, fields[0]), Next(|mem|, at, ShapeOf(fields[0])), fields[1..]);
    }
  }

  /** Every list of words and nonempty spans that fits the buffer is written and read back without loss. */
  lemma RoundTrip(mem: seq<bv8>, at: nat, fields: seq<Field>)
    requires at + TotalSize(fields) <= |mem| && !HasEmptySpan(fields)
    ensures ReadsAllowed(|mem|, at, Shapes(fields))
    ensures var (mem', end) := WriteAll(mem, at, fields);
      && end == at + TotalSize(fields)
      && ReadAll(mem', at, Shapes(fields)) == (fields, end)
      && mem'[..at] == mem[..at] && mem'[end..] == mem[end..]
  {
    ReadsWithoutEmptySpans(|mem|, at, fields);
    FittingSurvives(|mem|, at, fields);
    FittingEnd(mem, at, fields);
    RoundTripIff(mem, at, fields);
    WritesInside(mem, at, fields);
  }
}

/** The two objects over one buffer. */
module MemoryCodec {
  import opened ByteCopy
  import opened MemoryCodecSpec

  class MemoryWriter {
    const data: array<bv8>
    var offset: nat

    constructor (data: array<bv8>)
      ensures this.data == data && offset == 0
    {
      this.data, offset := data, 0;
    }

    /** `Put` at an offset: all the bytes or, if they do not fit, nothing. */
    method Put(at: nat, bytes: seq<bv8>)
      modifies this, data
      ensures data[..] == WriteField(old(data[..]), at, Span(bytes))
      ensures offset == if Fits(data.Length, at, ShapeSpan(|bytes|)) then at + |bytes| else old(offset)
    {
      if at + |bytes| <= data.Length {
        assert WriterSeeks(data.Length, at);
        offset := at;
        CopyInto(bytes, data, offset);
        offset := offset + |bytes|;
      }
    }

    /** `Put16_BE` and `Put16_LE`. */
    method Put16(at: nat, order: Order, value: bv16)
      modifies this, data
      ensures data[..] == WriteField(old(data[..]), at, Word16(order, value))
      ensures offset == if at + 2 <= data.Length then at + 2 else old(offset)
    {
      hide Bytes16, WriteField, Encode;
      var b := Bytes16(value);
      var values := if order.Big? then b else [b[1], b[0]];
      BytesOf16(order, value);
      WritesItsBytes(data[..], at, Word16(order, value));
      Put(at, values);
    }

    /** `Put32_BE` and `Put32_LE`. */
    method Put32(at: nat, order: Order, value: bv32)
      modifies this, data
      ensures data[..] == WriteField(old(data[..]), at, Word32(order, value))
      ensures offset == if at + 4 <= data.Length then at + 4 else old(offset)
    {
      hide Bytes32, WriteField, Encode;
      var b := Bytes32(value);
      var values := if order.Big? then b else [b[3], b[2], b[1], b[0]];
      BytesOf32(order, value);
      WritesItsBytes(data[..], at, Word32(order, value));
      Put(at, values);
    }

    /** `Put64_BE` and `Put64_LE`. */
    method Put64(at: nat, order: Order, value: bv64)
      modifies this, data
      ensures data[..] == WriteField(old(data[..]), at, Word64(order, value))
      ensures offset == if at + 8 <= data.Length then at + 8 else old(offset)
    {
      hide Bytes64, WriteField, Encode;
      var b := Bytes64(value);
      var values := if order.Big? then b else [b[7], b[6], b[5], b[4], b[3], b[2], b[1], b[0]];
      BytesOf64(order, value);
      WritesItsBytes(data[..], at, Word64(order, value));
      Put(at, values);
    }

    /** The calls without an offset, in order, over a list of fields. */
    method PutAll(fields: seq<Field>)
      modifies this, data
      ensures (data[..], offset) == WriteAll(old(data[..]), old(offset), fields)
    {
      hide Encode, WriteField;
      var rest := fields;
      while rest != []
        invariant WriteAll(data[..], offset, rest) == WriteAll(old(data[..]), old(offset), fields)
        decreases |rest|
      {
        match rest[0] {
          case Word16(order, v) => Put16(offset, order, v);
          case Word32(order, v) => Put32(offset, order, v);
          case Word64(order, v) => Put64(offset, order, v);
          case Span(bytes) => Put(offset, bytes);
        }
        rest := rest[1..];
      }
    }
  }

  class MemoryReader {
    const data: array<bv8>
    var offset: nat

    constructor (data: array<bv8>)
      ensures this.data == data && offset == 0
    {
      this.data, offset := data, 0;
    }

    /** `Read16_BE` and `Read16_LE`. */
    method Read16(order: Order) returns (value: bv16)
      modifies this
      ensures Word16(order, value) == ReadField(data[..], old(offset), Shape16(order))
      ensures offset == Next(data.Length, old(offset), Shape16(order))
    {
      hide Join16;
      if offset + 2 <= data.Length {
        var b := data[offset..offset + 2];
        value := if order.Big? then Join16(b[0], b[1]) else Join16(b[1], b[0]);
        offset := offset + 2;
      } else {
        value := 0;
      }
    }

    /** `Read32_BE` and `Read32_LE`. */
    method Read32(order: Order) returns (value: bv32)
      modifies this
      ensures Word32(order, value) == ReadField(data[..], old(offset), Shape32(order))
      ensures offset == Next(data.Length, old(offset), Shape32(order))
    {
      hide Join32;
      if offset + 4 <= data.Length {
        var b := data[offset..offset + 4];
        value := if order.Big? then Join32(b[0], b[1], b[2], b[3]) else Join32(b[3], b[2], b[1], b[0]);
        offset := offset + 4;
      } else {
        value := 0;
      }
    }

    /** `Read64_BE` and `Read64_LE`. */
    method Read64(order: Order) returns (value: bv64)
      modifies this
      ensures Word64(order, value) == ReadField(data[..], old(offset), Shape64(order))
      ensures offset == Next(data.Length, old(offset), Shape64(order))
    {
      hide Join64;
      if offset + 8 <= data.Length {
        var b := data[offset..offset + 8];
        value := if order.Big? then Join64(b[0], b[1], b[2], b[3], b[4], b[5], b[6], b[7])
        else Join64(b[7], b[6], b[5], b[4], b[3], b[2], b[1], b[0]);
        offset := offset + 8;
      } else {
        value := 0;
      }
    }

    /** `ReadSpan` without an offset. */
    method ReadSpan(length: nat) returns (bytes: seq<bv8>)
      requires SeekAllowed(data.Length, offset, ShapeSpan(length))
      modifies this
      ensures Span(bytes) == ReadField(data[..], old(offset), ShapeSpan(length))
      ensures offset == Next(data.Length, old(offset), ShapeSpan(length))
    {
      if offset + length <= data.Length {
        bytes := data[offset..offset + length];
        offset := offset + length;
      } else {
        bytes := [];
      }
    }
  }

  /** The no-offset call for a shape. */
  method Get(reader: MemoryReader, shape: Shape) returns (field: Field)
    requires SeekAllowed(reader.data.Length, reader.offset, shape)
    modifies reader
    ensures field == ReadField(reader.data[..], old(reader.offset), shape)
    ensures reader.offset == Next(reader.data.Length, old(reader.offset), shape)
  {
    hide ReadField;
    match shape {
      case Shape16(order) => var v := reader.Read16(order); field := Word16(order, v);
      case Shape32(order) => var v := reader.Read32(order); field := Word32(order, v);
      case Shape64(order) => var v := reader.Read64(order); field := Word64(order, v);
      case ShapeSpan(length) => var b := reader.ReadSpan(length); field := Span(b);
    }
  }

  /** The no-offset calls, in order, over a list of shapes. */
  method GetAll(reader: MemoryReader, shapes: seq<Shape>) returns (read: seq<Field>)
    requires ReadsAllowed(reader.data.Length, reader.offset, shapes)
    modifies reader
    ensures read == ReadAll(reader.data[..], old(reader.offset), shapes).0
    ensures reader.offset == ReadAll(reader.data[..], old(reader.offset), shapes).1
  {
    hide Decode, ReadField;
    read := [];
    var rest := shapes;
    while rest != []
      invariant ReadsAllowed(reader.data.Length, reader.offset, rest)
      invariant read + ReadAll(reader.data[..], reader.offset, rest).0
             == ReadAll(reader.data[..], old(reader.offset), shapes).0
      invariant ReadAll(reader.data[..], reader.offset, rest).1
             == ReadAll(reader.data[..], old(reader.offset), shapes).1
      decreases |rest|
    {
      var field := Get(reader, rest[0]);
      read := read + [field];
      rest := rest[1..];
    }
  }

  /**
   * Writing a list with one object and reading it back with another, over the same buffer: what fitted
   * comes back, both objects end at the same offset, and the bytes beyond it are untouched.
   */
  method WriteThenRead(data: array<bv8>, fields: seq<Field>) returns (read: seq<Field>, written: nat, consumed: nat)
    requires ReadsAllowed(data.Length, 0, Shapes(fields))
    modifies data
    ensures read == Kept(data.Length, 0, fields)
    ensures read == fields <==> Survives(data.Length, 0, fields)
    ensures (data[..], written) == WriteAll(old(data[..]), 0, fields)
    ensures written == consumed <= data.Length && data[written..] == old(data[written..])
  {
    hide Encode, Decode, WriteField, ReadField, ReadsAllowed, WriteAll, ReadAll, Survives, Kept;
    var writer := new MemoryWriter(data);
    writer.PutAll(fields);
    written := writer.offset;
    ReadsBack(old(data[..]), 0, fields);
    WritesInside(old(data[..]), 0, fields);
    KeptIffSurvives(data.Length, 0, fields);
    var reader := new MemoryReader(data);
    read := GetAll(reader, Shapes(fields));
    consumed := reader.offset;
  }
}
