/** Every run of a generator comes back to where it started: a bijection on finitely many states. */
module RandomCycles {
  import opened Bytes
  import opened RandomSpec

  // ---------------------------------------------------------------------------------------------
  // Numbering the states

  function Numbered(n: nat): bv64
    requires n < TWO64
  {
    n as bv64
  }

  lemma NumberedInverts(x: bv64)
    ensures Numbered(Number(x)) == x
  {
  }

  lemma NumberInjective(x: bv64, y: bv64)
    requires Number(x) == Number(y)
    ensures x == y
  {
    hide Number, Numbered;
    NumberedInverts(x);
    NumberedInverts(y);
  }

  function Numbered32(n: nat): bv32
    requires n < TWO32
  {
    n as bv32
  }

  lemma NumberedInverts32(x: bv32)
    ensures Numbered32(Number32(x)) == x
  {
  }

  lemma NumberInjective32(x: bv32, y: bv32)
    requires Number32(x) == Number32(y)
    ensures x == y
  {
    hide Number32, Numbered32;
    NumberedInverts32(x);
    NumberedInverts32(y);
  }

  /** How many lists of `n` words there are. */
  function Lists(n: nat): (r: nat)
    ensures r > 0
  {
    if n == 0 then 1 else TWO64 * Lists(n - 1)
  }

  function ListNumber(words: seq<bv64>): nat {
    if words == [] then 0 else Number(words[0]) + TWO64 * ListNumber(words[1..])
  }

  lemma {:induction false} ListNumberBounded(words: seq<bv64>)
    ensures ListNumber(words) < Lists(|words|)
  {
    hide Number;
    if words != [] {
      ListNumberBounded(words[1..]);
    }
  }

  lemma {:induction false} ListNumberInjective(a: seq<bv64>, b: seq<bv64>)
    requires |a| == |b| && ListNumber(a) == ListNumber(b)
    ensures a == b
  {
    hide Number;
    if a != [] {
      Digits(Number(a[0]), ListNumber(a[1..]), Number(b[0]), ListNumber(b[1..]));
      NumberInjective(a[0], b[0]);
      ListNumberInjective(a[1..], b[1..]);
      assert a == [a[0]] + a[1..] && b == [b[0]] + b[1..];
    }
  }

  lemma Digits(x: nat, m: nat, y: nat, n: nat)
    requires x < TWO64 && y < TWO64 && x + TWO64 * m == y + TWO64 * n
    ensures x == y && m == n
  {
  }

  function StateNumber(g: Generator): nat {
    match g
    case XorShift32(s) => Number32(s)
    case XorShift128(s0, s1) => ListNumber([s0, s1])
    case XorShift1024(words, p) => p + 16 * ListNumber(words)
  }

  /** How many states a generator of this kind has. */
  function States(g: Generator): (n: nat)
    ensures n > 0
  {
    match g
    case XorShift32(_) => TWO32
    case XorShift128(_, _) => Lists(2)
    case XorShift1024(_, _) => 16 * Lists(16)
  }

  lemma StateNumberBounded(g: Generator)
    ensures StateNumber(g) < States(g)
  {
    hide Number, Number32, ListNumber, Lists;
    match g
    case XorShift32(_) =>
    case XorShift128(s0, s1) => ListNumberBounded([s0, s1]);
    case XorShift1024(words, _) => ListNumberBounded(words);
  }

  lemma StateNumberInjective(g: Generator, h: Generator)
    requires SameKind(g, h) && StateNumber(g) == StateNumber(h)
    ensures g == h
  {
    hide Number, Number32, ListNumber;
    match g
    case XorShift32(s) =>
      NumberInjective32(s, h.s);
    case XorShift128(s0, s1) =>
      ListNumberInjective([s0, s1], [h.s0, h.s1]);
      assert [s0, s1][0] == s0 && [s0, s1][1] == s1;
      assert [h.s0, h.s1][0] == h.s0 && [h.s0, h.s1][1] == h.s1;
    case XorShift1024(words, p) =>
      ListNumberInjective(words, h.words);
  }

  // ---------------------------------------------------------------------------------------------
  // Two of too many numbers are equal

  lemma {:induction false} Pigeonhole(s: seq<nat>, m: nat) returns (i: nat, j: nat)
    requires |s| > m && forall k :: 0 <= k < |s| ==> s[k] < m
    ensures i < j < |s| && s[i] == s[j]
    decreases m
  {
    var last := |s| - 1;
    if k :| 0 <= k < last && s[k] == s[last] {
      i, j := k, last;
    } else {
      // Every earlier number differs from the last one: close the gap it leaves.
      var t: seq<nat> := seq(last, k requires 0 <= k < last => if s[k] < s[last] then s[k] else s[k] - 1);
      i, j := Pigeonhole(t, m - 1);
    }
  }

  lemma {:induction false} RunKeepsKind(g: Generator, n: nat)
    ensures SameKind(g, Run(g, n)) && States(Run(g, n)) == States(g)
    decreases n
  {
    hide Lists;
    if n > 0 {
      RunKeepsKind(Step(g), n - 1);
    }
  }

  /** From every state, some number of outputs leads back to that state. */
  lemma RunsAreCycles(g: Generator) returns (period: nat)
    ensures 0 < period <= States(g) && Run(g, period) == g
  {
    hide Run, Step, States, StateNumber;
    var m := States(g);
    forall n: nat
      ensures SameKind(g, Run(g, n)) && StateNumber(Run(g, n)) < m
    {
      RunKeepsKind(g, n);
      StateNumberBounded(Run(g, n));
    }
    var numbers: seq<nat> := seq(m + 1, n requires 0 <= n => StateNumber(Run(g, n)));
    var i, j := Pigeonhole(numbers, m);
    StateNumberInjective(Run(g, i), Run(g, j));
    period := j - i;
    RunConcat(g, period, i);
    RunsStayApart(Run(g, period), g, i);
  }
}
