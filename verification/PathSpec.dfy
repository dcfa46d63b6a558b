/** POSIX path normalization as a stack of segments. */
module PathSpec {

  const SLASH: char := '/'
  const BACKSLASH: char := '\\'

  /** Index of the first slash at or after `from`, or -1. */
  function FindSlash(s: string, from: nat): (k: int)
    requires from <= |s|
    ensures k == -1 ==> forall i :: from <= i < |s| ==> s[i] != SLASH
    ensures k != -1 ==> from <= k < |s| && s[k] == SLASH && forall i :: from <= i < k ==> s[i] != SLASH
    decreases |s| - from
  {
    if from == |s| then -1 else if s[from] == SLASH then from else FindSlash(s, from + 1)
  }

  /** `std::string::rfind('/', last)`, or -1. */
  function RFindSlash(s: string, last: nat): (k: int)
    requires last < |s|
    ensures k == -1 ==> forall i :: 0 <= i <= last ==> s[i] != SLASH
    ensures k != -1 ==> 0 <= k <= last && s[k] == SLASH && forall i :: k < i <= last ==> s[i] != SLASH
  {
    if s[last] == SLASH then last else if last == 0 then -1 else RFindSlash(s, last - 1)
  }

  /** The pieces between slashes: always at least one, possibly empty. */
  function Split(s: string): (r: seq<string>)
    ensures |r| > 0
    decreases |s|
  {
    var k := FindSlash(s, 0);
    if k == -1 then [s] else [s[..k]] + Split(s[k + 1..])
  }

  /** A segment that names nothing. */
  predicate Dropped(segment: string) {
    segment == "" || segment == "." || segment == "~"
  }

  /** What one segment does to the stack: be dropped, climb, or be pushed. */
  function Push(absolute: bool, stack: seq<string>, segment: string): seq<string> {
    if Dropped(segment) then stack
    else if segment != ".." then stack + [segment]
    else if stack == [] || stack[|stack| - 1] == ".." then
      if absolute then stack else stack + [".."]
    else stack[..|stack| - 1]
  }

  function Resolve(absolute: bool, stack: seq<string>, segments: seq<string>): seq<string>
    decreases |segments|
  {
    if segments == [] then stack
    else Resolve(absolute, Push(absolute, stack, segments[0]), segments[1..])
  }

  /** Every segment followed by a slash. */
  function Terminated(stack: seq<string>): string {
    if stack == [] then ""
    else Terminated(stack[..|stack| - 1]) + stack[|stack| - 1] + [SLASH]
  }

  function Lead(absolute: bool): string {
    if absolute then [SLASH] else ""
  }

  /** The path a stack stands for. */
  function Render(absolute: bool, stack: seq<string>): string {
    Lead(absolute) +
    if stack == [] then "" else Terminated(stack[..|stack| - 1]) + stack[|stack| - 1]
  }

  predicate IsAbsolute(path: string) {
    path != "" && path[0] == SLASH
  }

  predicate IsNormalizedRoot(path: string) {
    path == [SLASH]
  }

  function Segments(path: string): seq<string> {
    Resolve(IsAbsolute(path), [], Split(path))
  }

  /** The result for a path that does not start at the current or the home directory. */
  function NormalizePlain(path: string): string {
    Render(IsAbsolute(path), Segments(path))
  }

  /** The two directories the environment supplies. */
  datatype Environment = Environment(cwd: string, home: string)

  predicate ValidEnvironment(env: Environment) {
    IsAbsolute(env.cwd) && IsAbsolute(env.home)
  }

  function TrimSlashes(path: string): (r: string)
    ensures path != "" ==> r != "" && r[0] == path[0]
    ensures |r| > 1 ==> r[|r| - 1] != SLASH
    decreases |path|
  {
    if |path| > 1 && path[|path| - 1] == SLASH then TrimSlashes(path[..|path| - 1]) else path
  }

  /** `Join` before it normalizes. A backslash at the end of `left` counts as a separator too. */
  function JoinText(left: string, right: string): string {
    if IsAbsolute(right) || left == "" then right
    else if right == "" then left
    else if left[|left| - 1] == SLASH || left[|left| - 1] == BACKSLASH then left + right
    else left + [SLASH] + right
  }

  /** `.` or `..` at the front: relative to the current directory. */
  predicate StartsAtCwd(path: string) {
    path != "" && path[0] == '.' && (|path| == 1 || path[1] == SLASH || path[1] == '.')
  }

  predicate StartsAtHome(path: string) {
    path != "" && path[0] == '~'
  }

  function Normalize(env: Environment, path: string): string {
    var p := TrimSlashes(path);
    if p == "." then env.cwd
    else if StartsAtCwd(p) then NormalizePlain(JoinText(env.cwd, p))
    else if p == "~" then env.home
    else if StartsAtHome(p) then NormalizePlain(JoinText(env.home, p))
    else if p == "" then ""
    else NormalizePlain(p)
  }

  function Join(env: Environment, left: string, right: string): string {
    Normalize(env, JoinText(left, right))
  }

  // ---------------------------------------------------------------------------------------------
  // Splitting and resolving

  /** A segment: no slash in it, and it names something. */
  predicate IsSegment(s: string) {
    !Dropped(s) && forall i :: 0 <= i < |s| ==> s[i] != SLASH
  }

  /** A stack of names below the root. */
  predicate IsClean(stack: seq<string>) {
    forall i :: 0 <= i < |stack| ==> IsSegment(stack[i]) && stack[i] != ".."
  }

  /** The shape of a stack: `ups` climbs, none of them below the root, then names. */
  ghost predicate Stacked(absolute: bool, stack: seq<string>, ups: nat) {
    && ups <= |stack|
    && (absolute ==> ups == 0)
    && (forall i :: 0 <= i < ups ==> stack[i] == "..")
    && (forall i :: ups <= i < |stack| ==> IsSegment(stack[i]) && stack[i] != "..")
  }

  lemma TerminatedEnds(stack: seq<string>)
    ensures Terminated(stack) == "" || Terminated(stack)[|Terminated(stack)| - 1] == SLASH
    ensures Terminated(stack) == "" <==> stack == []
  {
  }

  lemma {:induction false} SplitPieces(s: string)
    ensures forall i :: 0 <= i < |Split(s)| ==> forall j :: 0 <= j < |Split(s)[i]| ==> Split(s)[i][j] != SLASH
    decreases |s|
  {
    var k := FindSlash(s, 0);
    if k != -1 {
      SplitPieces(s[k + 1..]);
    }
  }

  /** A slash separates: the pieces of the two sides, side by side. */
  lemma {:induction false} SplitConcat(a: string, b: string)
    ensures Split(a + [SLASH] + b) == Split(a) + Split(b)
    decreases |a|
  {
    var s := a + [SLASH] + b;
    SplitUnfolds(s);
    SplitUnfolds(a);
    hide Split, FindSlash;
    var k := FindSlash(a, 0);
    FindSlashIs(s, if k == -1 then |a| else k);
    if k == -1 {
      assert s[..|a|] == a && s[|a| + 1..] == b;
    } else {
      assert s[..k] == a[..k] && s[k + 1..] == a[k + 1..] + [SLASH] + b;
      SplitConcat(a[k + 1..], b);
    }
  }

  lemma SplitUnfolds(s: string)
    ensures var k := FindSlash(s, 0); Split(s) == if k == -1 then [s] else [s[..k]] + Split(s[k + 1..])
  {
  }

  lemma FindSlashIs(s: string, k: nat)
    requires k < |s| && s[k] == SLASH && forall i :: 0 <= i < k ==> s[i] != SLASH
    ensures FindSlash(s, 0) == k
  {
  }

  lemma {:induction false} ResolveConcat(absolute: bool, stack: seq<string>, x: seq<string>, y: seq<string>)
    ensures Resolve(absolute, stack, x + y) == Resolve(absolute, Resolve(absolute, stack, x), y)
    decreases |x|
  {
    if x == [] {
      assert x + y == y;
    } else {
      assert (x + y)[1..] == x[1..] + y;
      ResolveConcat(absolute, Push(absolute, stack, x[0]), x[1..], y);
    }
  }

  lemma ResolveHead(absolute: bool, stack: seq<string>, segment: string, more: seq<string>)
    ensures Resolve(absolute, stack, [segment] + more) == Resolve(absolute, Push(absolute, stack, segment), more)
    ensures Resolve(absolute, stack, []) == stack
  {
  }

  /** An absolute stack only ever holds names. */
  lemma {:induction false} ResolveClean(stack: seq<string>, segments: seq<string>)
    requires IsClean(stack)
    requires forall i :: 0 <= i < |segments| ==> forall j :: 0 <= j < |segments[i]| ==> segments[i][j] != SLASH
    ensures IsClean(Resolve(true, stack, segments))
    decreases |segments|
  {
    if segments != [] {
      ResolveClean(Push(true, stack, segments[0]), segments[1..]);
    }
  }

  /** A relative stack keeps its climbs at the bottom. */
  lemma {:induction false} ResolveStacked(stack: seq<string>, ups: nat, segments: seq<string>) returns (ups': nat)
    requires Stacked(false, stack, ups)
    requires forall i :: 0 <= i < |segments| ==> forall j :: 0 <= j < |segments[i]| ==> segments[i][j] != SLASH
    ensures Stacked(false, Resolve(false, stack, segments), ups')
    decreases |segments|
  {
    if segments == [] {
      ups' := ups;
    } else {
      var next := Push(false, stack, segments[0]);
      ups' := ResolveStacked(next, if segments[0] == ".." && ups == |stack| then ups + 1 else ups, segments[1..]);
    }
  }
}
