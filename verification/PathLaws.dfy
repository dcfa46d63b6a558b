/** What callers may rely on from path normalization, and exactly where backslashes break it. */
module PathLaws {
  import opened PathSpec

  /** The separators are gone: a root slash, then nonempty names with single slashes between them. */
  predicate IsCanonical(path: string) {
    IsAbsolute(path) && (path == [SLASH] || IsClean(Split(path[1..])))
  }

  predicate EndsInBackslash(path: string) {
    path != "" && path[|path| - 1] == BACKSLASH
  }

  predicate IsRelativeText(path: string) {
    path != "" && !IsAbsolute(path)
  }

  // ---------------------------------------------------------------------------------------------
  // Stacks and the strings that spell them

  lemma SplitWhole(s: string)
    requires forall i :: 0 <= i < |s| ==> s[i] != SLASH
    ensures Split(s) == [s]
  {
  }

  /** Splitting undoes spelling. */
  lemma {:induction false} SplitTerminated(stack: seq<string>, last: string)
    requires forall i :: 0 <= i < |stack| ==> IsSegment(stack[i])
    requires forall i :: 0 <= i < |last| ==> last[i] != SLASH
    ensures Split(Terminated(stack) + last) == stack + [last]
  {
    SplitWhole(last);
    if stack == [] {
      assert Terminated(stack) + last == last;
    } else {
      var init, name := stack[..|stack| - 1], stack[|stack| - 1];
      SplitTerminated(init, name);
      assert Terminated(stack) + last == Terminated(init) + name + [SLASH] + last;
      SplitConcat(Terminated(init) + name, last);
      assert stack == init + [name];
    }
  }

  lemma SplitRender(stack: seq<string>)
    requires stack != [] && forall i :: 0 <= i < |stack| ==> IsSegment(stack[i])
    ensures Split(Render(false, stack)) == stack
    ensures Render(true, stack)[1..] == Render(false, stack)
  {
    SplitTerminated(stack[..|stack| - 1], stack[|stack| - 1]);
    assert stack == stack[..|stack| - 1] + [stack[|stack| - 1]];
  }

  /** Names only pile up. */
  lemma {:induction false} ResolveNames(absolute: bool, stack: seq<string>, names: seq<string>)
    requires IsClean(names)
    ensures Resolve(absolute, stack, names) == stack + names
    decreases |names|
  {
    if names == [] {
      assert stack + names == stack;
    } else {
      ResolveNames(absolute, stack + [names[0]], names[1..]);
      assert stack + [names[0]] + names[1..] == stack + names;
    }
  }

  /** The leading slash contributes nothing to the stack. */
  lemma SegmentsRooted(rest: string)
    ensures Segments([SLASH] + rest) == Resolve(true, [], Split(rest))
  {
  }

  /** A clean stack survives being written out and read back. */
  lemma SegmentsRender(stack: seq<string>)
    requires IsClean(stack)
    ensures Segments(Render(true, stack)) == stack
  {
    if stack == [] {
      SegmentsRooted("");
      SplitWhole("");
      assert Render(true, stack) == [SLASH] + "";
    } else {
      SplitRender(stack);
      SegmentsRooted(Render(false, stack));
      assert Render(true, stack) == [SLASH] + Render(false, stack);
      ResolveNames(true, [], stack);
    }
  }

  lemma RenderInjective(a: seq<string>, b: seq<string>)
    requires IsClean(a) && IsClean(b)
    ensures Render(true, a) == Render(true, b) <==> a == b
  {
    SegmentsRender(a);
    SegmentsRender(b);
  }

  lemma SegmentsClean(path: string)
    requires IsAbsolute(path)
    ensures IsClean(Segments(path))
  {
    SplitPieces(path);
    ResolveClean([], Split(path));
  }

  /** Appending after a slash resolves from where the left part ended. */
  lemma SegmentsAppend(a: string, b: string)
    requires a != ""
    ensures Segments(a + [SLASH] + b) == Resolve(IsAbsolute(a), Segments(a), Split(b))
  {
    SplitConcat(a, b);
    ResolveConcat(IsAbsolute(a), [], Split(a), Split(b));
  }

  /** Trailing slashes do not matter. */
  lemma {:induction false} TrimIrrelevant(path: string)
    requires path != ""
    ensures NormalizePlain(TrimSlashes(path)) == NormalizePlain(path)
    decreases |path|
  {
    if |path| > 1 && path[|path| - 1] == SLASH {
      var q := path[..|path| - 1];
      TrimIrrelevant(q);
      assert path == q + [SLASH] + "";
      assert TrimSlashes(path) == TrimSlashes(q);
      hide Split, Resolve, Render, TrimSlashes;
      SegmentsAppend(q, "");
      SplitWhole("");
      ResolveNothing(IsAbsolute(q), Segments(q));
      assert Segments(path) == Segments(q);
    }
  }

  lemma ResolveNothing(absolute: bool, stack: seq<string>)
    ensures Resolve(absolute, stack, [""]) == stack
  {
  }

  /** For an absolute path the environment plays no part. */
  lemma NormalizeAbsolute(env: Environment, path: string)
    requires IsAbsolute(path)
    ensures Normalize(env, path) == Render(true, Segments(path))
  {
    TrimIrrelevant(path);
  }

  // ---------------------------------------------------------------------------------------------
  // Canonical results

  /** The result of normalizing an absolute path is canonical. */
  lemma NormalizeIsCanonical(env: Environment, path: string)
    requires IsAbsolute(path)
    ensures IsCanonical(Normalize(env, path))
    ensures Segments(Normalize(env, path)) == Segments(path)
  {
    NormalizeAbsolute(env, path);
    SegmentsClean(path);
    var stack := Segments(path);
    SegmentsRender(stack);
    if stack != [] {
      SplitRender(stack);
    }
  }

  /** A canonical path spells its own stack. */
  lemma CanonicalSpells(path: string)
    requires IsCanonical(path)
    ensures Render(true, Segments(path)) == path
  {
    hide Resolve, Split, Terminated, Segments;
    var rest := path[1..];
    assert path == [SLASH] + rest;
    SegmentsRooted(rest);
    if rest == "" {
      SplitWhole("");
      DropEmpty();
    } else {
      ResolveNames(true, [], Split(rest));
      assert [] + Split(rest) == Split(rest);
      RenderSplit(rest);
      assert Render(true, Split(rest)) == [SLASH] + Render(false, Split(rest));
    }
  }

  lemma DropEmpty()
    ensures Resolve(true, [], [""]) == []
  {
  }

  /** Among absolute paths the canonical ones are exactly the fixed points. */
  lemma CanonicalIffFixed(env: Environment, path: string)
    requires IsAbsolute(path)
    ensures IsCanonical(path) <==> Normalize(env, path) == path
  {
    hide Resolve, Split, Terminated, Segments, IsCanonical, Normalize, Render;
    NormalizeIsCanonical(env, path);
    if IsCanonical(path) {
      NormalizeAbsolute(env, path);
      CanonicalSpells(path);
    }
  }

  /** Spelling undoes splitting when no piece is empty. */
  lemma {:induction false} RenderSplit(s: string)
    ensures Render(false, Split(s)) == s
    decreases |s|
  {
    SplitUnfolds(s);
    hide Render, Split, FindSlash;
    var k := FindSlash(s, 0);
    if k == -1 {
      RenderOne(s);
    } else {
      RenderSplit(s[k + 1..]);
      RenderCons(s[..k], Split(s[k + 1..]));
      assert s == s[..k] + [SLASH] + s[k + 1..];
    }
  }

  lemma RenderOne(s: string)
    ensures Render(false, [s]) == s
  {
  }

  lemma {:induction false} RenderCons(x: string, stack: seq<string>)
    requires stack != []
    ensures Render(false, [x] + stack) == x + [SLASH] + Render(false, stack)
  {
    var init, name := stack[..|stack| - 1], stack[|stack| - 1];
    assert ([x] + stack)[..|stack|] == [x] + init;
    TerminatedCons(x, init);
  }

  lemma {:induction false} TerminatedCons(x: string, stack: seq<string>)
    ensures Terminated([x] + stack) == x + [SLASH] + Terminated(stack)
  {
    if stack == [] {
      assert [x] + stack == [x];
    } else {
      var init := stack[..|stack| - 1];
      assert ([x] + stack)[..|stack|] == [x] + init;
      TerminatedCons(x, init);
    }
  }

  lemma NormalizeIdempotent(env: Environment, path: string)
    requires IsAbsolute(path)
    ensures Normalize(env, Normalize(env, path)) == Normalize(env, path)
  {
    NormalizeIsCanonical(env, path);
    CanonicalIffFixed(env, Normalize(env, path));
  }

  // ---------------------------------------------------------------------------------------------
  // Join

  lemma ResolveName(stack: seq<string>, name: string)
    requires IsSegment(name) && name != ".."
    ensures Resolve(true, stack, [name]) == stack + [name]
  {
    assert [name][1..] == [];
  }

  /** What follows the last slash of an absolute path is resolved on top of what precedes it. */
  lemma SegmentsAfter(init: string, rest: string)
    requires IsAbsolute(init + [SLASH] + rest)
    ensures Segments(init + [SLASH] + rest) == Resolve(true, Resolve(true, [], Split(init)), Split(rest))
  {
    hide Split, Resolve;
    SplitConcat(init, rest);
    ResolveConcat(true, [], Split(init), Split(rest));
  }

  /** The stack of an absolute path that ends in a backslash has the last piece on top. */
  lemma BackslashName(path: string) returns (stack: seq<string>, name: string)
    requires IsAbsolute(path) && EndsInBackslash(path)
    ensures IsClean(stack) && IsSegment(name) && name != ".." && EndsInBackslash(name)
    ensures Segments(path) == stack + [name]
    ensures forall b: string :: Segments(path + b) == Resolve(true, stack, Split(name + b))
  {
    hide Split, Resolve, Segments, IsClean;
    var init: string;
    init, name := LastPiece(path);
    assert name[|name| - 1] == BACKSLASH;
    stack := Resolve(true, [], Split(init));
    assert IsClean(stack) by {
      CleanBelow(init);
    }
    SegmentsAfter(init, name);
    SplitWhole(name);
    ResolveName(stack, name);
    forall b: string ensures Segments(path + b) == Resolve(true, stack, Split(name + b)) {
      assert path + b == init + [SLASH] + (name + b);
      SegmentsAfter(init, name + b);
    }
  }

  lemma CleanBelow(path: string)
    ensures IsClean(Resolve(true, [], Split(path)))
  {
    hide Split, Resolve;
    SplitPieces(path);
    ResolveClean([], Split(path));
  }

  /** An absolute path is cut at its last slash. */
  lemma {:induction false} LastPiece(path: string) returns (init: string, name: string)
    requires exists i :: 0 <= i < |path| && path[i] == SLASH
    ensures path == init + [SLASH] + name
    ensures forall i :: 0 <= i < |name| ==> name[i] != SLASH
    decreases |path|
  {
    var n := |path| - 1;
    if path[n] == SLASH {
      init, name := path[..n], "";
    } else {
      init, name := LastPiece(path[..n]);
      name := name + [path[n]];
      assert path == init + [SLASH] + name;
    }
  }

  /** `Join` behaves as though a slash stood between its arguments. */
  ghost predicate JoinsWithSlash(env: Environment, left: string) {
    forall right :: IsRelativeText(right) ==> Join(env, left, right) == Normalize(env, left + [SLASH] + right)
  }

  /** Without a backslash at the end, joining is appending after a slash. */
  lemma JoinAppends(env: Environment, left: string, right: string)
    requires IsAbsolute(left) && !EndsInBackslash(left) && IsRelativeText(right)
    ensures Join(env, left, right) == Normalize(env, left + [SLASH] + right)
    ensures Segments(Join(env, left, right)) == Resolve(true, Segments(left), Split(right))
  {
    hide Resolve, Split, Render, Normalize, Terminated;
    var text := JoinText(left, right);
    SegmentsAppend(left, right);
    if left[|left| - 1] == SLASH {
      TrailingSlash(left, right);
    }
    NormalizeAbsolute(env, text);
    NormalizeAbsolute(env, left + [SLASH] + right);
    NormalizeIsCanonical(env, text);
  }

  /** Segments of `left + right` when `left` already ends in a slash. */
  lemma TrailingSlash(left: string, right: string)
    requires IsAbsolute(left) && left[|left| - 1] == SLASH
    ensures Segments(left + right) == Resolve(true, Segments(left), Split(right))
  {
    var init := left[..|left| - 1];
    assert left == init + [SLASH] + "" && left + right == init + [SLASH] + right;
    SplitConcat(init, "");
    SplitConcat(init, right);
    SplitWhole("");
    ResolveConcat(true, [], Split(init), [""]);
    ResolveConcat(true, [], Split(init), Split(right));
  }

  /**
   * Exactly the left operands that do not end in a backslash are joined with a slash. Elsewhere the
   * first segment of the right operand is glued to the last one of the left.
   */
  lemma JoinsWithSlashIff(env: Environment, left: string)
    requires IsAbsolute(left)
    ensures JoinsWithSlash(env, left) <==> !EndsInBackslash(left)
  {
    hide Resolve, Split, Render, Normalize, Terminated, Join;
    if EndsInBackslash(left) {
      JoinGlues(env, left);
      assert IsRelativeText("b");
    } else {
      forall right | IsRelativeText(right)
        ensures Join(env, left, right) == Normalize(env, left + [SLASH] + right)
      {
        JoinAppends(env, left, right);
      }
    }
  }

  lemma JoinGlues(env: Environment, left: string)
    requires IsAbsolute(left) && EndsInBackslash(left)
    ensures Join(env, left, "b") != Normalize(env, left + [SLASH] + "b")
  {
    hide Resolve, Split, Render, Normalize, Terminated, Segments, Join, IsClean;
    var stack, last := GluedB(env, left);
    AppendB(env, left);
    RenderInjective(stack + [last], Segments(left) + ["b"]);
    assert |stack + [last]| != |Segments(left) + ["b"]|;
  }

  /** Normalizing early does not change what a second join gives. */
  ghost predicate JoinAssociates(env: Environment, a: string, b: string) {
    forall c :: IsRelativeText(c) ==>
      Join(env, Join(env, a, b), c) == Normalize(env, a + [SLASH] + b + [SLASH] + c)
  }

  /**
   * For an absolute `a` and a relative `b`, even when `..` crosses the join: two joins are one
   * normalization for every `c` exactly when the first join does not end in a backslash.
   */
  lemma JoinAssociatesIff(env: Environment, a: string, b: string)
    requires IsAbsolute(a) && !EndsInBackslash(a) && IsRelativeText(b)
    ensures JoinAssociates(env, a, b) <==> !EndsInBackslash(Join(env, a, b))
  {
    hide Resolve, Split, Render, Normalize, Terminated, Join, Segments, JoinAssociates;
    JoinAssociatesWhenJoined(env, a, b);
    JoinAppends(env, a, b);
  }

  // ---------------------------------------------------------------------------------------------
  // A left operand that ends in a backslash

  /** What segments do to any stack of names: climb so many times, then push these names. */
  function Effect(segments: seq<string>): (nat, seq<string>) {
    if segments == [] then (0, [])
    else
      var (ups, names) := Effect(segments[..|segments| - 1]);
      EffectOf(ups, names, segments[|segments| - 1])
  }

  function EffectOf(ups: nat, names: seq<string>, x: string): (nat, seq<string>) {
    if Dropped(x) then (ups, names)
    else if x != ".." then (ups, names + [x])
    else if names == [] then (ups + 1, []) else (ups, names[..|names| - 1])
  }

  /** What is left of a stack after so many climbs. */
  function Climbed(stack: seq<string>, ups: nat): seq<string> {
    stack[..if ups < |stack| then |stack| - ups else 0]
  }

  lemma {:induction false} ResolveByEffect(stack: seq<string>, segments: seq<string>)
    requires ".." !in stack
    ensures var (ups, names) := Effect(segments);
            ".." !in names && Resolve(true, stack, segments) == Climbed(stack, ups) + names
  {
    if segments != [] {
      var init, x := segments[..|segments| - 1], segments[|segments| - 1];
      ResolveByEffect(stack, init);
      ResolveConcat(true, stack, init, [x]);
      assert segments == init + [x];
      var before := Resolve(true, stack, init);
      assert Resolve(true, before, [x]) == Push(true, before, x) by { assert [x][1..] == []; }
      var (ups, names) := Effect(init);
      assert Effect(segments) == EffectOf(ups, names, x);
      hide Resolve, Effect, EffectOf, Push, Climbed;
      PushByEffect(stack, ups, names, x);
    } else {
      assert Climbed(stack, 0) + [] == stack;
    }
  }

  lemma PushByEffect(stack: seq<string>, ups: nat, names: seq<string>, x: string)
    requires ".." !in stack && ".." !in names
    ensures var (ups', names') := EffectOf(ups, names, x);
            ".." !in names' && Push(true, Climbed(stack, ups) + names, x) == Climbed(stack, ups') + names'
  {
    var below := Climbed(stack, ups);
    var before := below + names;
    if Dropped(x) {
    } else if x != ".." {
      assert before + [x] == below + (names + [x]);
    } else if names != [] {
      assert before[|before| - 1] == names[|names| - 1];
      assert before[..|before| - 1] == below + names[..|names| - 1];
    } else {
      ClimbOne(stack, ups);
      assert before == below && Climbed(stack, ups + 1) + [] == Climbed(stack, ups + 1);
    }
  }

  lemma ClimbOne(stack: seq<string>, ups: nat)
    requires ".." !in stack
    ensures Push(true, Climbed(stack, ups), "..") == Climbed(stack, ups + 1)
  {
  }

  /**
   * `b` does to `a` glued together what it does to `a` with a slash in between. After its first piece it
   * must climb past everything the gluing changed: past the glued name if that piece names nothing, and
   * else past all of `a`, where a climb stops at the root either way.
   */
  predicate Absorbs(a: string, b: string) {
    var pieces, height := Split(b), |Segments(a)|;
    var ups := Effect(pieces[1..]).0;
    if Dropped(pieces[0]) then ups >= 1 else if pieces[0] == ".." then ups >= height else ups > height
  }

  /** Text in front of the first slash goes to the first piece. */
  lemma SplitGlued(name: string, b: string)
    requires forall i :: 0 <= i < |name| ==> name[i] != SLASH
    ensures Split(name + b) == [name + Split(b)[0]] + Split(b)[1..]
  {
    SplitUnfolds(b);
    SplitUnfolds(name + b);
    hide Split, FindSlash;
    var k := FindSlash(b, 0);
    if k == -1 {
      assert forall i :: 0 <= i < |name + b| ==> (name + b)[i] != SLASH;
    } else {
      FindSlashIs(name + b, |name| + k);
      assert (name + b)[..|name| + k] == name + b[..k];
      assert (name + b)[|name| + k + 1..] == b[k + 1..];
    }
  }

  lemma FirstPiece(b: string)
    requires IsRelativeText(b)
    ensures Split(b)[0] != ""
  {
    SplitUnfolds(b);
    hide Split;
    var k := FindSlash(b, 0);
  }

  /** The stacks of the glued and of the separated text, as climbs from a common bottom. */
  lemma AbsorbsIff(a: string, b: string)
    requires IsAbsolute(a) && EndsInBackslash(a) && IsRelativeText(b)
    ensures Segments(a + b) == Segments(a + [SLASH] + b) <==> Absorbs(a, b)
  {
    hide Resolve, Split, Segments, Effect, IsSegment;
    var stack, name := BackslashName(a);
    var f, rest := Split(b)[0], Split(b)[1..];
    FirstPiece(b);
    GluedStack(a, b, stack, name);
    SlashedStack(a, b, stack, name);
    var (ups, names) := Effect(rest);
    ClimbsAgree(stack, name, f, ups, names);
  }

  lemma GluedStack(a: string, b: string, stack: seq<string>, name: string)
    requires IsClean(stack) && IsSegment(name) && EndsInBackslash(name)
    requires Segments(a + b) == Resolve(true, stack, Split(name + b))
    ensures var (ups, names) := Effect(Split(b)[1..]);
            Segments(a + b) == Climbed(stack + [name + Split(b)[0]], ups) + names
  {
    hide Split, Segments, Effect;
    SplitGlued(name, b);
    var glued, rest := name + Split(b)[0], Split(b)[1..];
    assert glued[|name| - 1] == BACKSLASH;
    assert !Dropped(glued) && glued != "..";
    ResolveConcat(true, stack, [glued], rest);
    assert Resolve(true, stack, [glued]) == stack + [glued] by { assert [glued][1..] == []; }
    hide Resolve;
    ResolveByEffect(stack + [glued], rest);
  }

  lemma SlashedStack(a: string, b: string, stack: seq<string>, name: string)
    requires IsAbsolute(a) && IsClean(stack) && IsSegment(name) && name != ".." && Segments(a) == stack + [name]
    ensures var (ups, names) := Effect(Split(b)[1..]);
            Segments(a + [SLASH] + b) == Climbed(Push(true, stack + [name], Split(b)[0]), ups) + names
  {
    hide Split, Segments, Effect;
    SegmentsAppend(a, b);
    var f, rest := Split(b)[0], Split(b)[1..];
    assert Split(b) == [f] + rest;
    ResolveConcat(true, stack + [name], [f], rest);
    assert Resolve(true, stack + [name], [f]) == Push(true, stack + [name], f) by { assert [f][1..] == []; }
    hide Resolve;
    ResolveByEffect(Push(true, stack + [name], f), rest);
  }

  lemma ClimbsAgree(stack: seq<string>, name: string, f: string, ups: nat, names: seq<string>)
    requires f != "" && name != ".."
    ensures Climbed(stack + [name + f], ups) + names == Climbed(Push(true, stack + [name], f), ups) + names
       <==> if Dropped(f) then ups >= 1 else if f == ".." then ups >= |stack| + 1 else ups > |stack| + 1
  {
    var x, y := Climbed(stack + [name + f], ups), Climbed(Push(true, stack + [name], f), ups);
    assert x + names == y + names <==> x == y by {
      if x + names == y + names {
        assert |x| == |y|;
        assert x == (x + names)[..|x|] && y == (y + names)[..|y|];
      }
    }
    if Dropped(f) && ups == 0 {
      assert x[|stack|] == name + f && y[|stack|] == name;
    }
  }

  /**
   * Whatever `a` ends in: two joins are one normalization for every `c` exactly when the first join does
   * not end in a backslash and `a` does not either, or `b` climbs out of what was glued.
   */
  lemma JoinAssociatesFromAnywhere(env: Environment, a: string, b: string)
    requires IsAbsolute(a) && IsRelativeText(b)
    ensures JoinAssociates(env, a, b) <==> (EndsInBackslash(a) ==> Absorbs(a, b)) && !EndsInBackslash(Join(env, a, b))
  {
    hide Resolve, Split, Render, Normalize, Terminated, Segments, Join, JoinAssociates, Absorbs;
    JoinAssociatesWhenJoined(env, a, b);
    if EndsInBackslash(a) {
      JoinedIffAbsorbs(env, a, b);
    } else {
      JoinAppends(env, a, b);
    }
  }

  lemma JoinedIffAbsorbs(env: Environment, a: string, b: string)
    requires IsAbsolute(a) && EndsInBackslash(a) && IsRelativeText(b)
    ensures Join(env, a, b) == Normalize(env, a + [SLASH] + b) <==> Absorbs(a, b)
  {
    hide Resolve, Split, Render, Normalize, Terminated, Segments, Absorbs;
    AbsorbsIff(a, b);
    NormalizeAbsolute(env, a + b);
    NormalizeAbsolute(env, a + [SLASH] + b);
    SegmentsClean(a + b);
    SegmentsClean(a + [SLASH] + b);
    RenderInjective(Segments(a + b), Segments(a + [SLASH] + b));
  }

  lemma JoinAssociatesWhenJoined(env: Environment, a: string, b: string)
    requires IsAbsolute(a) && IsRelativeText(b)
    ensures JoinAssociates(env, a, b)
       <==> Join(env, a, b) == Normalize(env, a + [SLASH] + b) && !EndsInBackslash(Join(env, a, b))
  {
    hide Resolve, Split, Render, Normalize, Terminated, Segments, Join;
    var n, whole := Join(env, a, b), a + [SLASH] + b;
    JoinSpells(env, a, b);
    NormalizeIsCanonical(env, whole);
    if n == Normalize(env, whole) && !EndsInBackslash(n) {
      forall c | IsRelativeText(c)
        ensures Join(env, n, c) == Normalize(env, whole + [SLASH] + c)
      {
        JoinAppends(env, n, c);
        NormalizeEarly(env, whole, n, c);
      }
    } else {
      assert IsRelativeText("b");
      SecondJoinDiffers(env, n, whole);
    }
  }

  /** The result of a join below an absolute path spells its own stack. */
  lemma JoinSpells(env: Environment, a: string, b: string)
    requires IsAbsolute(a) && IsRelativeText(b)
    ensures var n := Join(env, a, b); IsAbsolute(n) && n == Render(true, Segments(n))
  {
    hide Resolve, Split, Render, Normalize, Terminated, Segments;
    NormalizeIsCanonical(env, JoinText(a, b));
    NormalizeAbsolute(env, JoinText(a, b));
  }

  lemma SecondJoinDiffers(env: Environment, n: string, whole: string)
    requires IsAbsolute(n) && IsAbsolute(whole) && n == Render(true, Segments(n))
    requires n != Normalize(env, whole) || EndsInBackslash(n)
    ensures Join(env, n, "b") != Normalize(env, whole + [SLASH] + "b")
  {
    hide Resolve, Split, Render, Normalize, Terminated, Segments, Join, IsClean;
    AppendB(env, whole);
    NormalizeAbsolute(env, whole);
    if EndsInBackslash(n) {
      var stack, last := GluedB(env, n);
      RenderInjective(stack + [last], Segments(whole) + ["b"]);
      assert (stack + [last])[|stack|] == last;
      assert (Segments(whole) + ["b"])[|Segments(whole)|] == "b";
    } else {
      AppendB(env, n);
      JoinAppends(env, n, "b");
      RenderInjective(Segments(n) + ["b"], Segments(whole) + ["b"]);
      assert (Segments(n) + ["b"])[..|Segments(n)|] == Segments(n);
      assert (Segments(whole) + ["b"])[..|Segments(whole)|] == Segments(whole);
    }
  }

  lemma AppendB(env: Environment, path: string)
    requires IsAbsolute(path)
    ensures Normalize(env, path + [SLASH] + "b") == Render(true, Segments(path) + ["b"])
    ensures IsClean(Segments(path) + ["b"])
  {
    hide Resolve, Split, Render, Normalize, Terminated, Segments;
    SegmentsClean(path);
    NormalizeAbsolute(env, path + [SLASH] + "b");
    SegmentsAppend(path, "b");
    SplitWhole("b");
    ResolveNames(true, Segments(path), ["b"]);
  }

  lemma GluedB(env: Environment, left: string) returns (stack: seq<string>, last: string)
    requires IsAbsolute(left) && EndsInBackslash(left)
    ensures Join(env, left, "b") == Render(true, stack + [last]) && IsClean(stack + [last]) && last != "b"
    ensures |stack| + 1 == |Segments(left)|
  {
    hide Resolve, Split, Render, Normalize, Terminated, Segments;
    var name;
    stack, name := BackslashName(left);
    last := name + "b";
    NormalizeAbsolute(env, left + "b");
    SplitWhole(last);
    assert last[|name| - 1] == BACKSLASH;
    assert IsClean([last]);
    ResolveNames(true, stack, [last]);
  }

  /** Two absolute paths with the same stack are the same as far as what follows is concerned. */
  lemma NormalizeEarly(env: Environment, a: string, n: string, c: string)
    requires IsAbsolute(a) && IsAbsolute(n) && Segments(a) == Segments(n)
    ensures Normalize(env, n + [SLASH] + c) == Normalize(env, a + [SLASH] + c)
  {
    hide Resolve, Split, Render, Normalize, Terminated, Segments;
    SegmentsAppend(a, c);
    SegmentsAppend(n, c);
    NormalizeAbsolute(env, a + [SLASH] + c);
    NormalizeAbsolute(env, n + [SLASH] + c);
  }

  // ---------------------------------------------------------------------------------------------
  // Dirname, Basename, IsRelative

  /** `std::string::rfind('/')`, or -1. */
  function LastSlash(s: string): int {
    if s == "" then -1 else RFindSlash(s, |s| - 1)
  }

  function Basename(env: Environment, path: string): string {
    var normalized := Normalize(env, path);
    if IsNormalizedRoot(normalized) then ""
    else normalized[LastSlash(normalized) + 1..]
  }

  function Dirname(env: Environment, path: string): string {
    var normalized := Normalize(env, path);
    if IsNormalizedRoot(normalized) then normalized
    else
      var separator := LastSlash(normalized);
      if separator == -1 then ""
      else
        var dir := normalized[..separator];
        if dir == "" || IsNormalizedRoot(dir) then dir + [SLASH] else dir
  }

  predicate IsRelative(env: Environment, child: string, parent: string) {
    var p := Normalize(env, parent);
    var c := Normalize(env, child);
    |p| < |c| && p <= c && (c[|p|] == SLASH || IsNormalizedRoot(p))
  }

  /** The last slash of a spelled stack stands in front of its top. */
  lemma LastSlashOfRender(stack: seq<string>)
    requires IsClean(stack) && stack != []
    ensures var k := LastSlash(Render(true, stack));
            var init := stack[..|stack| - 1];
            && 0 <= k < |Render(true, stack)|
            && Render(true, stack)[..k + 1] == [SLASH] + Terminated(init)
            && Render(true, stack)[k + 1..] == stack[|stack| - 1]
  {
    var init, name := stack[..|stack| - 1], stack[|stack| - 1];
    var n, before := Render(true, stack), [SLASH] + Terminated(init);
    assert n == before + name;
    TerminatedEnds(init);
    hide Terminated, Render;
    assert before[|before| - 1] == SLASH;
    assert forall i :: |before| <= i < |n| ==> n[i] == name[i - |before|];
    assert n[|before| - 1] == SLASH;
    assert IsSegment(name);
    assert LastSlash(n) == |before| - 1;
  }

  /** Below the root, `Dirname` is the stack without its top and `Basename` is the top. */
  lemma DirnameBasename(env: Environment, path: string)
    requires IsAbsolute(path) && Segments(path) != []
    ensures var stack := Segments(path);
            && Dirname(env, path) == Render(true, stack[..|stack| - 1])
            && Basename(env, path) == stack[|stack| - 1]
  {
    hide Resolve, Split, Normalize, Segments, LastSlash;
    NormalizeAbsolute(env, path);
    SegmentsClean(path);
    var stack := Segments(path);
    var init := stack[..|stack| - 1];
    LastSlashOfRender(stack);
    var n := Render(true, stack);
    var k := LastSlash(n);
    assert n[..k] == n[..k + 1][..k];
    if init == [] {
      assert n[..k] == "";
    } else {
      assert n[..k] == Render(true, init);
      assert |init[|init| - 1]| > 0;
    }
  }

  /** The same for a relative result, whose directory may be nothing at all. */
  lemma RelativeDirnameBasename(env: Environment, path: string)
    requires IsPlain(path) && !IsAbsolute(path) && Segments(path) != []
    ensures var stack := Segments(path);
            && Dirname(env, path) == Render(false, stack[..|stack| - 1])
            && Basename(env, path) == stack[|stack| - 1]
  {
    hide Resolve, Split, Normalize, Segments, LastSlash;
    NormalizesPlainly(env, path);
    var stack := Segments(path);
    SegmentsStacked(path);
    var init, name, n := stack[..|stack| - 1], stack[|stack| - 1], Render(false, stack);
    RenderEnds(stack);
    TerminatedEnds(init);
    assert n == Terminated(init) + name;
    LastSlashOf(Terminated(init), name);
    if init != [] {
      assert Terminated(init)[..|Terminated(init)| - 1] == Render(false, init);
      RenderEnds(init);
    }
  }

  lemma SegmentsStacked(path: string)
    requires !IsAbsolute(path)
    ensures forall i :: 0 <= i < |Segments(path)| ==> IsSegment(Segments(path)[i])
  {
    SplitPieces(path);
    var ups := ResolveStacked([], 0, Split(path));
  }

  lemma LastSlashOf(before: string, name: string)
    requires forall i :: 0 <= i < |name| ==> name[i] != SLASH
    requires before == "" || before[|before| - 1] == SLASH
    ensures LastSlash(before + name) == |before| - 1
  {
    var n := before + name;
    assert forall i :: |before| <= i < |n| ==> n[i] == name[i - |before|];
    if before != "" {
      assert n[|before| - 1] == SLASH;
    }
  }

  /** Taking a path apart and joining it again gives it back, exactly when the directory does not end in a backslash. */
  lemma DirnameBasenameJoinIff(env: Environment, path: string)
    requires IsAbsolute(path)
    ensures Join(env, Dirname(env, path), Basename(env, path)) == Normalize(env, path)
            <==> !EndsInBackslash(Dirname(env, path))
  {
    hide Resolve, Split, Normalize, Segments, Terminated, Dirname, Basename, Render;
    NormalizeAbsolute(env, path);
    SegmentsClean(path);
    var stack := Segments(path);
    if stack == [] {
      RootParts(env, path);
    } else {
      DirnameBasename(env, path);
      RejoinIff(env, stack[..|stack| - 1], stack[|stack| - 1]);
      assert stack == stack[..|stack| - 1] + [stack[|stack| - 1]];
    }
  }

  lemma RootParts(env: Environment, path: string)
    requires IsAbsolute(path) && Segments(path) == []
    ensures Dirname(env, path) == [SLASH] && Basename(env, path) == ""
    ensures Join(env, [SLASH], "") == Normalize(env, path) == [SLASH]
  {
    NormalizeAbsolute(env, path);
    NormalizeAbsolute(env, [SLASH]);
    SegmentsRender([]);
  }

  lemma RejoinIff(env: Environment, init: seq<string>, name: string)
    requires IsClean(init) && IsSegment(name) && name != ".."
    ensures Join(env, Render(true, init), name) == Render(true, init + [name])
            <==> !EndsInBackslash(Render(true, init))
  {
    hide Resolve, Split, Normalize, Segments, Terminated, Render;
    var dir := Render(true, init);
    assert IsAbsolute(dir) by { RenderRooted(init); }
    assert IsRelativeText(name);
    SegmentsRender(init);
    SplitWhole(name);
    assert IsClean([name]);
    if EndsInBackslash(dir) {
      var stack, top := BackslashName(dir);
      SplitWhole(top + name);
      NormalizeAbsolute(env, dir + name);
      assert (top + name)[|top| - 1] == BACKSLASH;
      assert IsClean([top + name]);
      ResolveNames(true, stack, [top + name]);
      RenderInjective(stack + [top + name], init + [name]);
    } else {
      JoinAppends(env, dir, name);
      NormalizeAbsolute(env, dir + [SLASH] + name);
      SegmentsAppend(dir, name);
      ResolveNames(true, init, [name]);
    }
  }

  lemma RenderRooted(stack: seq<string>)
    ensures IsAbsolute(Render(true, stack))
  {
  }

  /** For absolute paths `IsRelative` says that the parent's stack is a strict prefix of the child's. */
  lemma IsRelativeIffPrefix(env: Environment, child: string, parent: string)
    requires IsAbsolute(child) && IsAbsolute(parent)
    ensures IsRelative(env, child, parent) <==> Segments(parent) < Segments(child)
  {
    hide Resolve, Split, Normalize, Segments, Terminated, Render;
    NormalizeAbsolute(env, child);
    NormalizeAbsolute(env, parent);
    SegmentsClean(child);
    SegmentsClean(parent);
    PrefixIff(Segments(parent), Segments(child));
  }

  lemma PrefixIff(a: seq<string>, b: seq<string>)
    requires IsClean(a) && IsClean(b)
    ensures var p := Render(true, a); var c := Render(true, b);
            (|p| < |c| && p <= c && (c[|p|] == SLASH || IsNormalizedRoot(p))) <==> a < b
  {
    hide Render, IsClean;
    var p, c := Render(true, a), Render(true, b);
    RenderLength(a);
    RenderLength(b);
    if a != [] {
      if a < b {
        RenderPrefix(a, b);
        assert c[|p|] == (p + [SLASH])[|p|];
      } else if |p| < |c| && p <= c && c[|p|] == SLASH {
        PrefixBack(a, b);
      }
    }
  }

  /** Only the root is spelled with one character. */
  lemma RenderLength(stack: seq<string>)
    requires IsClean(stack)
    ensures var r := Render(true, stack);
      r != "" && r[0] == SLASH && (stack == [] ==> r == [SLASH]) && (stack != [] ==> |r| > 1)
  {
    hide Terminated;
    if stack != [] {
      assert |stack[|stack| - 1]| > 0;
    }
  }

  lemma PrefixBack(a: seq<string>, b: seq<string>)
    requires IsClean(a) && IsClean(b) && a != [] && b != []
    requires var p, c := Render(true, a), Render(true, b); |p| < |c| && p <= c && c[|p|] == SLASH
    ensures a < b
  {
    hide Render, IsSegment, Split;
    var p, c := Render(true, a), Render(true, b);
    RenderLength(a);
    SplitRender(a);
    SplitRender(b);
    var t := c[|p| + 1..];
    assert c[1..] == p[1..] + [SLASH] + t;
    SplitConcat(p[1..], t);
  }

  /** A longer stack is spelled as the shorter one, a slash, and more. */
  lemma {:induction false} RenderPrefix(a: seq<string>, b: seq<string>)
    requires a != [] && a < b
    ensures Render(true, a) + [SLASH] <= Render(true, b)
  {
    var init := b[..|b| - 1];
    assert Render(true, init) + [SLASH] == Lead(true) + Terminated(init);
    if a != init {
      RenderPrefix(a, init);
    }
  }

  // ---------------------------------------------------------------------------------------------
  // What normalizing leaves out

  /** No tilde in front, and no dot that stands alone or before a slash or another dot. */
  predicate IsPlain(path: string) {
    path != "" && path[0] != '~' && (path[0] != '.' || (|path| > 1 && path[1] != '.' && path[1] != SLASH))
  }

  lemma NormalizesPlainly(env: Environment, path: string)
    requires IsPlain(path)
    ensures Normalize(env, path) == Render(IsAbsolute(path), Segments(path))
  {
    hide Resolve, Split, Render, Segments;
    TrimIrrelevant(path);
    if !IsAbsolute(path) {
      TrimKeepsFront(path);
    }
  }

  lemma StaysPlain(a: string, b: string)
    requires IsPlain(a)
    ensures IsPlain(a + [SLASH] + b) && IsAbsolute(a + [SLASH] + b) == IsAbsolute(a)
  {
  }

  /** `a/x/b`, by what `x` does to the stack of `a`. */
  lemma SegmentsThrough(a: string, x: string, b: string)
    requires a != "" && forall i :: 0 <= i < |x| ==> x[i] != SLASH
    ensures Segments(a + [SLASH] + x + [SLASH] + b)
         == Resolve(IsAbsolute(a), Push(IsAbsolute(a), Segments(a), x), Split(b))
  {
    hide Split, Segments, Push;
    SegmentsAppend(a + [SLASH] + x, b);
    SegmentsAppend(a, x);
    SplitWhole(x);
    ResolveOne(IsAbsolute(a), Segments(a), x);
  }

  lemma ResolveOne(absolute: bool, stack: seq<string>, x: string)
    ensures Resolve(absolute, stack, [x]) == Push(absolute, stack, x)
  {
    assert [x][1..] == [];
  }

  /** An empty piece, a single dot and a single tilde inside a path name nothing. */
  lemma DropsNothings(env: Environment, a: string, x: string, b: string)
    requires IsPlain(a) && (x == "" || x == "." || x == "~")
    ensures Normalize(env, a + [SLASH] + x + [SLASH] + b) == Normalize(env, a + [SLASH] + b)
  {
    hide Split, Segments, Resolve, Render, Normalize, IsPlain;
    ThroughPlain(env, a, x, b);
  }

  /** A name and the climb that follows it cancel out. */
  lemma NameAndBack(env: Environment, a: string, x: string, b: string)
    requires IsPlain(a) && x != "" && x != "." && x != "~" && x != ".."
    requires forall i :: 0 <= i < |x| ==> x[i] != SLASH
    ensures Normalize(env, a + [SLASH] + x + [SLASH] + ".." + [SLASH] + b) == Normalize(env, a + [SLASH] + b)
  {
    hide Split, Segments, Resolve, Render, Normalize, IsPlain;
    var c := a + [SLASH] + x;
    StaysPlain(a, x);
    ThroughPlain(env, c, "..", b);
    ThroughPlain(env, a, "", b);
    SegmentsAppend(a, x);
    SplitWhole(x);
    ResolveOne(IsAbsolute(a), Segments(a), x);
    assert Push(IsAbsolute(a), Segments(a) + [x], "..") == Segments(a);
  }

  /** At the root a climb goes nowhere. */
  lemma RootStays(env: Environment, b: string)
    ensures Normalize(env, "/../" + b) == Normalize(env, "/" + b)
  {
    hide Split, Segments, Resolve, Render, Normalize;
    assert "/../" + b == [SLASH] + (".." + [SLASH] + b) && "/" + b == [SLASH] + b;
    NormalizeAbsolute(env, "/../" + b);
    NormalizeAbsolute(env, "/" + b);
    SegmentsRooted(".." + [SLASH] + b);
    SegmentsRooted(b);
    SplitConcat("..", b);
    SplitWhole("..");
    ResolveHead(true, [], "..", Split(b));
    assert Push(true, [], "..") == [];
  }

  /** Below nothing else, a climb too many stays: the path then starts with it. */
  lemma ClimbTooMany(env: Environment, x: string, b: string)
    requires IsPlain(x) && !IsAbsolute(x) && x != "." && x != "~" && x != ".."
    requires forall i :: 0 <= i < |x| ==> x[i] != SLASH
    ensures Normalize(env, x + [SLASH] + ".." + [SLASH] + ".." + [SLASH] + b)
         == Render(false, Resolve(false, [".."], Split(b)))
  {
    hide Split, Segments, Resolve, Render, Normalize, IsPlain;
    var c := x + [SLASH] + "..";
    StaysPlain(x, "..");
    ThroughPlain(env, c, "..", b);
    SegmentsAppend(x, "..");
    SplitWhole("..");
    SplitWhole(x);
    SegmentsOfName(x);
    ResolveOne(false, [x], "..");
    assert Push(false, [x], "..") == [] && Push(false, [], "..") == [".."];
  }

  lemma SegmentsOfName(x: string)
    requires x != "" && x != "." && x != "~" && x != ".." && forall i :: 0 <= i < |x| ==> x[i] != SLASH
    ensures Segments(x) == [x]
  {
    hide Split, Resolve;
    SplitWhole(x);
    ResolveOne(false, [], x);
    assert [] + [x] == [x];
  }

  lemma ThroughPlain(env: Environment, a: string, x: string, b: string)
    requires IsPlain(a) && forall i :: 0 <= i < |x| ==> x[i] != SLASH
    ensures Normalize(env, a + [SLASH] + x + [SLASH] + b)
         == Render(IsAbsolute(a), Resolve(IsAbsolute(a), Push(IsAbsolute(a), Segments(a), x), Split(b)))
    ensures Normalize(env, a + [SLASH] + b) == Render(IsAbsolute(a), Resolve(IsAbsolute(a), Segments(a), Split(b)))
  {
    hide Split, Segments, Resolve, Render, Normalize, Push;
    SegmentsThrough(a, x, b);
    SegmentsAppend(a, b);
    StaysPlain(a, b);
    StaysPlain(a, x);
    StaysPlain(a + [SLASH] + x, b);
    NormalizesPlainly(env, a + [SLASH] + b);
    NormalizesPlainly(env, a + [SLASH] + x + [SLASH] + b);
  }

  /** A slash at the end of any path at all makes no difference. */
  lemma TrailingSlashDrops(env: Environment, path: string)
    requires path != ""
    ensures Normalize(env, path + [SLASH]) == Normalize(env, path)
  {
    assert (path + [SLASH])[..|path|] == path;
  }

  /** Joining to an absolute path leaves only that, and joining to or with nothing changes nothing. */
  lemma JoinEnds(env: Environment, left: string, right: string)
    ensures IsAbsolute(right) ==> Join(env, left, right) == Normalize(env, right) == Render(true, Segments(right))
    ensures left == "" ==> Join(env, left, right) == Normalize(env, right)
    ensures right == "" ==> Join(env, left, right) == Normalize(env, left)
  {
    hide Split, Segments, Resolve, Render, Normalize;
    if IsAbsolute(right) {
      NormalizeAbsolute(env, right);
    }
  }

  // ---------------------------------------------------------------------------------------------
  // Paths that start at the current or the home directory

  /** The directory that `path` starts at. */
  function Base(env: Environment, path: string): string
    requires path != ""
  {
    if path[0] == '~' then env.home else env.cwd
  }

  /** Alone, the two signs stand for the directories as the environment gives them. */
  lemma BareStart(env: Environment)
    ensures Normalize(env, ".") == env.cwd && Normalize(env, "~") == env.home
  {
  }

  /**
   * Anything longer goes on from there, just as though the directory and a slash stood in front of it,
   * exactly when that directory does not end in a backslash or the path climbs out of what was glued.
   */
  lemma DetourIff(env: Environment, path: string)
    requires ValidEnvironment(env) && path != "" && !IsAbsolute(path) && !IsPlain(path)
    requires TrimSlashes(path) != "." && TrimSlashes(path) != "~"
    ensures var base, p := Base(env, path), TrimSlashes(path);
      Normalize(env, path) == Normalize(env, base + [SLASH] + p) <==> (EndsInBackslash(base) ==> Absorbs(base, p))
  {
    hide Split, Segments, Resolve, Render, Absorbs;
    var base, p := Base(env, path), TrimSlashes(path);
    DetourJoins(env, path);
    hide Normalize, Join;
    if EndsInBackslash(base) {
      JoinedIffAbsorbs(env, base, p);
    } else {
      JoinAppends(env, base, p);
    }
  }

  lemma DetourJoins(env: Environment, path: string)
    requires ValidEnvironment(env) && path != "" && !IsAbsolute(path) && !IsPlain(path)
    requires TrimSlashes(path) != "." && TrimSlashes(path) != "~"
    ensures var base, p := Base(env, path), TrimSlashes(path);
      IsRelativeText(p) && Normalize(env, path) == Join(env, base, p)
  {
    hide Split, Segments, Resolve, Render, NormalizePlain;
    var base, p := Base(env, path), TrimSlashes(path);
    TrimKeepsFront(path);
    var text := JoinText(base, p);
    assert IsAbsolute(text);
    TrimIrrelevant(text);
  }

  /** Its stack: that of the directory, and then what the pieces of the path do to it. */
  lemma DetourStack(env: Environment, path: string)
    requires ValidEnvironment(env) && path != "" && !IsAbsolute(path) && !IsPlain(path)
    requires TrimSlashes(path) != "." && TrimSlashes(path) != "~" && !EndsInBackslash(Base(env, path))
    ensures var stack := Resolve(true, Segments(Base(env, path)), Split(path));
            Segments(Normalize(env, path)) == stack && Normalize(env, path) == Render(true, stack)
  {
    hide Split, Segments, Resolve, Render, Normalize, Join;
    var base, p := Base(env, path), TrimSlashes(path);
    DetourJoins(env, path);
    JoinAppends(env, base, p);
    NormalizeAbsolute(env, base + [SLASH] + p);
    SegmentsAppend(base, p);
    TrimKeepsPieces(Segments(base), path);
  }

  lemma TrimUnfolds(path: string)
    ensures TrimSlashes(path)
         == if |path| > 1 && path[|path| - 1] == SLASH then TrimSlashes(path[..|path| - 1]) else path
  {
  }

  /** Trailing slashes do nothing to a stack. */
  lemma {:induction false} TrimKeepsPieces(stack: seq<string>, path: string)
    ensures Resolve(true, stack, Split(TrimSlashes(path))) == Resolve(true, stack, Split(path))
    decreases |path|
  {
    hide Split, Resolve, TrimSlashes;
    TrimUnfolds(path);
    if |path| > 1 && path[|path| - 1] == SLASH {
      var q := path[..|path| - 1];
      TrimKeepsPieces(stack, q);
      assert path == q + [SLASH] + "";
      SplitConcat(q, "");
      SplitWhole("");
      ResolveConcat(true, stack, Split(q), [""]);
      ResolveNothing(true, Resolve(true, stack, Split(q)));
    }
  }

  /** `~/b` is `b` below the home directory and `./b` is `b` below the current one, ... */
  lemma DetourBelow(env: Environment, sign: char, b: string)
    requires CanonicalEnvironment(env) && (sign == '~' || sign == '.')
    requires !EndsInBackslash(if sign == '~' then env.home else env.cwd)
    ensures Normalize(env, [sign, SLASH] + b)
         == Normalize(env, (if sign == '~' then env.home else env.cwd) + [SLASH] + b)
  {
    hide Split, Segments, Resolve, Render, IsCanonical;
    var base, path := if sign == '~' then env.home else env.cwd, [sign, SLASH] + b;
    CanonicalIsAbsolute(env.home);
    CanonicalIsAbsolute(env.cwd);
    NormalizeAbsolute(env, base + [SLASH] + b);
    SegmentsAppend(base, b);
    assert path == [sign] + [SLASH] + b;
    SplitConcat([sign], b);
    SplitWhole([sign]);
    ResolveHead(true, Segments(base), [sign], Split(b));
    assert Push(true, Segments(base), [sign]) == Segments(base);
    if TrimSlashes(path) == "." || TrimSlashes(path) == "~" {
      TrimKeepsPieces(Segments(base), path);
      SplitWhole(TrimSlashes(path));
      ResolveOne(true, Segments(base), TrimSlashes(path));
      CanonicalSpells(base);
      assert TrimSlashes(path)[0] == sign;
    } else {
      DetourStack(env, path);
    }
  }

  /** ... and `..` is the parent of the current directory. */
  lemma ParentOfCwd(env: Environment)
    requires ValidEnvironment(env) && !EndsInBackslash(env.cwd)
    ensures Normalize(env, "..") == Dirname(env, env.cwd)
  {
    hide Split, Segments, Resolve, Render, Normalize, Dirname;
    assert TrimSlashes("..") == "..";
    DetourStack(env, "..");
    SplitWhole("..");
    var stack := Segments(env.cwd);
    SegmentsClean(env.cwd);
    ResolveOne(true, stack, "..");
    if stack == [] {
      RootParts(env, env.cwd);
      NormalizeAbsolute(env, env.cwd);
    } else {
      DirnameBasename(env, env.cwd);
    }
  }

  // ---------------------------------------------------------------------------------------------
  // Relative results

  /** The first and last characters of a relative result belong to names or climbs. */
  lemma RenderEnds(stack: seq<string>)
    requires stack != [] && forall i :: 0 <= i < |stack| ==> IsSegment(stack[i])
    ensures var r := Render(false, stack);
            |r| >= |stack[0]| > 0 && r[..|stack[0]|] == stack[0] && r[|r| - 1] != SLASH
  {
    var last := stack[|stack| - 1];
    var r := Render(false, stack);
    assert r[|r| - 1] == last[|last| - 1];
    if |stack| > 1 {
      assert stack == [stack[0]] + stack[1..];
      RenderCons(stack[0], stack[1..]);
    }
  }

  /** A bottom segment that reads like the current or the home directory when it stands in front. */
  predicate Misleads(segment: string) {
    segment != "" && (segment[0] == '~' || (|segment| >= 2 && segment[..2] == ".."))
  }

  /** The result for a plain relative path is a fixed point exactly when its bottom segment does not mislead. */
  lemma RelativeFixedIff(env: Environment, path: string)
    requires ValidEnvironment(env) && IsRelativeText(path) && !StartsAtCwd(path) && !StartsAtHome(path)
    ensures var r := NormalizePlain(path);
            Normalize(env, r) == r <==> Segments(path) == [] || !Misleads(Segments(path)[0])
  {
    hide Resolve, Split, Render, Terminated;
    var stack := Segments(path);
    SplitPieces(path);
    var ups := ResolveStacked([], 0, Split(path));
    var r := NormalizePlain(path);
    if stack == [] {
      assert r == "" by { RenderNothing(); }
    } else {
      RenderEnds(stack);
      FrontOf(r, stack[0]);
      assert TrimSlashes(r) == r;
      if Misleads(stack[0]) {
        DetourIsAbsolute(env, r);
      } else {
        assert ups == 0;
        SplitRender(stack);
        ResolveNames(false, [], stack);
        assert [] + stack == stack;
      }
    }
  }

  /** What a text that begins with a segment begins like. */
  lemma FrontOf(text: string, segment: string)
    requires IsSegment(segment) && |text| >= |segment| > 0 && text[..|segment|] == segment
    ensures StartsAtCwd(text) || StartsAtHome(text) <==> Misleads(segment)
    ensures !IsAbsolute(text)
  {
    assert text[0] == segment[0];
    if |segment| == 1 {
      assert segment == [segment[0]];
    } else {
      assert text[1] == segment[1] && segment[..2] == [segment[0], segment[1]];
    }
  }

  lemma RenderNothing()
    ensures Render(false, []) == ""
  {
  }

  /** A detour through the environment ends at an absolute path. */
  lemma DetourIsAbsolute(env: Environment, path: string)
    requires ValidEnvironment(env) && TrimSlashes(path) == path && (StartsAtCwd(path) || StartsAtHome(path))
    ensures IsAbsolute(Normalize(env, path))
  {
  }

  /** The directories the environment supplies are normalized. */
  predicate CanonicalEnvironment(env: Environment) {
    IsCanonical(env.cwd) && IsCanonical(env.home)
  }

  /** The paths that come out relative with a misleading bottom segment. */
  predicate Wanders(path: string) {
    && IsRelativeText(path) && !StartsAtCwd(path) && !StartsAtHome(path)
    && Segments(path) != [] && Misleads(Segments(path)[0])
  }

  /** For every path at all: normalizing twice is normalizing once exactly when the path does not wander. */
  lemma NormalizeTwiceIff(env: Environment, path: string)
    requires CanonicalEnvironment(env)
    ensures Normalize(env, Normalize(env, path)) == Normalize(env, path) <==> !Wanders(path)
  {
    hide Resolve, Split, Render, Terminated, Segments, IsCanonical, NormalizePlain;
    assert ValidEnvironment(env) by { CanonicalIsAbsolute(env.cwd); CanonicalIsAbsolute(env.home); }
    if IsAbsolute(path) {
      NormalizeIdempotent(env, path);
    } else if path != "" {
      TrimKeepsFront(path);
      if StartsAtCwd(path) || StartsAtHome(path) {
        DetourIsFixed(env, TrimSlashes(path));
      } else {
        TrimIrrelevant(path);
        assert Normalize(env, path) == NormalizePlain(path);
        RelativeFixedIff(env, path);
      }
    }
  }

  lemma CanonicalIsAbsolute(path: string)
    requires IsCanonical(path)
    ensures IsAbsolute(path)
  {
  }

  lemma {:induction false} TrimKeepsFront(path: string)
    requires path != "" && !IsAbsolute(path)
    ensures StartsAtCwd(TrimSlashes(path)) <==> StartsAtCwd(path)
    ensures StartsAtHome(TrimSlashes(path)) <==> StartsAtHome(path)
    ensures TrimSlashes(TrimSlashes(path)) == TrimSlashes(path)
    decreases |path|
  {
    if |path| > 1 && path[|path| - 1] == SLASH {
      TrimKeepsFront(path[..|path| - 1]);
    }
  }

  lemma DetourIsFixed(env: Environment, path: string)
    requires CanonicalEnvironment(env) && TrimSlashes(path) == path && (StartsAtCwd(path) || StartsAtHome(path))
    ensures Normalize(env, Normalize(env, path)) == Normalize(env, path)
  {
    hide Resolve, Split, Render, Terminated, Segments, IsCanonical;
    var base := if StartsAtHome(path) then env.home else env.cwd;
    CanonicalIsAbsolute(base);
    if path == "." || path == "~" {
      CanonicalIffFixed(env, base);
    } else {
      var text := JoinText(base, path);
      NormalizeAbsolute(env, text);
      assert Normalize(env, path) == Normalize(env, text);
      NormalizeIdempotent(env, text);
    }
  }

  /** Such a path: one climb too many leaves `..`, which then means the parent of the current directory. */
  lemma NotAlwaysIdempotent(env: Environment)
    requires CanonicalEnvironment(env)
    ensures Normalize(env, "a/../..") == ".." && Normalize(env, "..") != ".."
  {
    ClimbsOut();
    hide Split, Resolve, Render, Terminated, Segments, IsCanonical;
    assert Wanders("a/../..") && TrimSlashes("a/../..") == "a/../..";
    assert NormalizePlain("a/../..") == "..";
    NormalizeTwiceIff(env, "a/../..");
  }

  lemma ClimbsOut()
    ensures Segments("a/../..") == [".."] && Render(false, [".."]) == ".."
  {
    hide Split, Resolve, Render;
    PiecesOfWitness("a", "..");
    assert "a/../.." == "a" + [SLASH] + (".." + [SLASH] + "..");
    ResolveWitness("a", "..");
    RenderOne("..");
  }

  lemma ResolveWitness(x: string, up: string)
    requires IsSegment(x) && x != ".." && up == ".."
    ensures Resolve(false, [], [x] + ([up] + [up])) == [up]
  {
    PushWitness(x, up);
    hide Resolve, Push, IsSegment;
    ResolveHead(false, [], x, [up] + [up]);
    ResolveHead(false, [x], up, [up]);
    assert [up] == [up] + [];
    ResolveHead(false, [], up, []);
    ResolveHead(false, [up], up, []);
  }

  lemma PushWitness(x: string, up: string)
    requires IsSegment(x) && x != ".." && up == ".."
    ensures Push(false, [], x) == [x] && Push(false, [x], up) == [] && Push(false, [], up) == [up]
  {
  }

  lemma PiecesOfWitness(x: string, y: string)
    requires forall i :: 0 <= i < |x| ==> x[i] != SLASH
    requires forall i :: 0 <= i < |y| ==> y[i] != SLASH
    ensures Split(x + [SLASH] + (y + [SLASH] + y)) == [x] + ([y] + [y])
  {
    hide Split;
    SplitWhole(x);
    SplitWhole(y);
    SplitConcat(y, y);
    SplitConcat(x, y + [SLASH] + y);
  }
}
