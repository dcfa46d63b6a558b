/** `PathUtil` as the source writes it: one string, edited in place by moving offsets. */
module PathUtil {
  import opened PathSpec

  /** `std::string::erase`. */
  function Erase(s: string, at: nat, count: nat): string
    requires at + count <= |s|
  {
    s[..at] + s[at + count..]
  }

  /** The loop's state: the processed prefix spells the stack, and the rest resolves to the target. */
  ghost predicate LoopInv(path: string, prefixOffset: nat, currentOffset: nat,
                          absolute: bool, stack: seq<string>, ups: nat, target: seq<string>)
  {
    && Stacked(absolute, stack, ups)
    && prefixOffset <= currentOffset <= |path|
    && path[..currentOffset] == Lead(absolute) + Terminated(stack)
    && prefixOffset == |Lead(absolute) + Terminated(stack[..ups])|
    && Resolve(absolute, stack, Split(path[currentOffset..])) == target
  }

  /** The loop is over: the string spells the target, up to one trailing slash. */
  ghost predicate Spelled(path: string, absolute: bool, target: seq<string>) {
    path == Lead(absolute) + Terminated(target) || path == Render(absolute, target)
  }

  lemma FindInRest(path: string, from: nat)
    requires from <= |path|
    ensures var k := FindSlash(path, from); FindSlash(path[from..], 0) == if k == -1 then -1 else k - from
  {
    hide FindSlash;
    var k, rest := FindSlash(path, from), path[from..];
    var j := FindSlash(rest, 0);
    assert j != -1 ==> path[from + j] == rest[j];
    assert k != -1 ==> rest[k - from] == path[k];
  }

  /** The first piece of the unprocessed part, and what follows it. */
  lemma SplitAt(path: string, from: nat)
    requires from <= |path|
    ensures var k := FindSlash(path, from);
            Split(path[from..]) == if k == -1 then [path[from..]] else [path[from..k]] + Split(path[k + 1..])
  {
    var k, rest := FindSlash(path, from), path[from..];
    FindInRest(path, from);
    SplitUnfolds(rest);
    hide Split, FindSlash;
    if k != -1 {
      assert rest[..k - from] == path[from..k];
      assert rest[k - from + 1..] == path[k + 1..];
    }
  }

  /** The slash before the last segment of the processed part. */
  lemma PreviousSlash(path: string, currentOffset: nat, before: string, segment: string)
    requires currentOffset <= |path| && path[..currentOffset] == before + segment + [SLASH]
    requires IsSegment(segment) && (before == "" || before[|before| - 1] == SLASH)
    ensures |segment| > 0 && RFindSlash(path, currentOffset - 2) == |before| - 1
  {
    var k := RFindSlash(path, currentOffset - 2);
    assert forall i :: |before| <= i <= currentOffset - 2 ==> path[i] == segment[i - |before|];
    if before != "" {
      assert path[|before| - 1] == before[|before| - 1];
    }
  }

  /** State after one segment has been consumed, with `tail` still to come. */
  ghost predicate Consumed(path: string, prefixOffset: nat, currentOffset: nat, last: bool, tail: string,
                           absolute: bool, stack: seq<string>, ups: nat)
  {
    && Stacked(absolute, stack, ups)
    && currentOffset <= |path|
    && path == path[..currentOffset] + tail
    && (last ==> tail == "" && Spelled(path, absolute, stack))
    && (!last ==>
          && prefixOffset <= currentOffset
          && path[..currentOffset] == Lead(absolute) + Terminated(stack)
          && prefixOffset == |Lead(absolute) + Terminated(stack[..ups])|)
  }

  /** A shorter stack is spelled with fewer characters. */
  lemma {:induction false} TerminatedMonotone(stack: seq<string>, n: nat)
    requires n <= |stack|
    ensures |Terminated(stack[..n])| <= |Terminated(stack)|
    ensures n < |stack| ==> |Terminated(stack[..n])| < |Terminated(stack)|
  {
    if n == |stack| {
      assert stack[..n] == stack;
    } else {
      assert stack[..|stack| - 1][..n] == stack[..n];
      TerminatedMonotone(stack[..|stack| - 1], n);
    }
  }

  /** Where the last name of the processed part begins. */
  lemma LastName(path: string, prefixOffset: nat, currentOffset: nat, absolute: bool, stack: seq<string>, ups: nat)
    requires Stacked(absolute, stack, ups) && ups < |stack|
    requires prefixOffset <= currentOffset <= |path|
    requires path[..currentOffset] == Lead(absolute) + Terminated(stack)
    requires prefixOffset == |Lead(absolute) + Terminated(stack[..ups])|
    ensures var before := Lead(absolute) + Terminated(stack[..|stack| - 1]);
      && prefixOffset <= |before| <= currentOffset - 2 && path[..|before|] == before
      && RFindSlash(path, currentOffset - 2) == |before| - 1
  {
    hide IsSegment, RFindSlash;
    var rest, name := stack[..|stack| - 1], stack[|stack| - 1];
    var before := Lead(absolute) + Terminated(rest);
    TerminatedEnds(rest);
    TerminatedMonotone(rest, ups);
    assert rest[..ups] == stack[..ups];
    assert path[..currentOffset] == before + name + [SLASH];
    hide Terminated, Lead;
    PreviousSlash(path, currentOffset, before, name);
    assert path[..|before|] == path[..currentOffset][..|before|];
  }

  /** The `..` branch when there is a name to pop. */
  method PopSegment(path: string, prefixOffset: nat, currentOffset: nat, length: nat, ghost absolute: bool,
                    ghost stack: seq<string>, ghost ups: nat)
    returns (path': string, currentOffset': nat)
    requires Stacked(absolute, stack, ups) && ups < |stack|
    requires prefixOffset <= currentOffset && currentOffset + length <= |path|
    requires path[..currentOffset] == Lead(absolute) + Terminated(stack)
    requires prefixOffset == |Lead(absolute) + Terminated(stack[..ups])|
    ensures prefixOffset <= currentOffset' <= |path'|
    ensures path'[..currentOffset'] == Lead(absolute) + Terminated(stack[..|stack| - 1])
    ensures path'[currentOffset'..] == path[currentOffset + length..]
  {
    hide Stacked, Terminated, Lead, RFindSlash;
    LastName(path, prefixOffset, currentOffset, absolute, stack, ups);
    var prevSeparator := RFindSlash(path, currentOffset - 2);
    if prevSeparator != -1 {
      var index := prevSeparator + 1;
      path' := Erase(path, index, (currentOffset - index) + length);
      currentOffset' := index;
    } else {
      path' := Erase(path, prefixOffset, (currentOffset - prefixOffset) + length);
      currentOffset' := prefixOffset;
    }
  }

  /** The current segment, read from the unprocessed part. */
  lemma NextSegment(path: string, prefixOffset: nat, currentOffset: nat, absolute: bool,
                    stack: seq<string>, ups: nat, target: seq<string>)
    requires LoopInv(path, prefixOffset, currentOffset, absolute, stack, ups, target)
    ensures var k := FindSlash(path, currentOffset);
            var segment := path[currentOffset..if k == -1 then |path| else k];
            && (Dropped(segment) || IsSegment(segment))
            && (k == -1 ==> Push(absolute, stack, segment) == target)
            && (k != -1 ==> Resolve(absolute, Push(absolute, stack, segment), Split(path[k + 1..])) == target)
  {
    hide Resolve, Split, Push, Stacked;
    var k := FindSlash(path, currentOffset);
    SplitAt(path, currentOffset);
    if k == -1 {
      assert path[currentOffset..] == path[currentOffset..|path|];
      assert [path[currentOffset..]] == [path[currentOffset..]] + [];
      ResolveHead(absolute, stack, path[currentOffset..], []);
      ResolveHead(absolute, Push(absolute, stack, path[currentOffset..]), "", []);
    } else {
      ResolveHead(absolute, stack, path[currentOffset..k], Split(path[k + 1..]));
    }
  }

  /** Only climbs are left exactly when the processed part is the prefix. */
  lemma AtPrefix(absolute: bool, stack: seq<string>, ups: nat)
    requires Stacked(absolute, stack, ups)
    ensures |Lead(absolute) + Terminated(stack)| == |Lead(absolute) + Terminated(stack[..ups])| <==> ups == |stack|
    ensures ups == |stack| ==> stack[..ups] == stack
    ensures IsNormalizedRoot(Lead(absolute) + Terminated(stack)) <==> absolute && stack == []
  {
    TerminatedMonotone(stack, ups);
    TerminatedEnds(stack);
    if ups == |stack| {
      assert stack[..ups] == stack;
    }
    if stack != [] {
      assert |stack[|stack| - 1]| > 0;
    }
  }

  /** Appending the segment where it stands. */
  lemma KeepSegment(path: string, currentOffset: nat, segment: string, separated: bool,
                    absolute: bool, stack: seq<string>)
    requires currentOffset + |segment| + (if separated then 1 else 0) <= |path|
    requires path[currentOffset..currentOffset + |segment|] == segment
    requires separated ==> path[currentOffset + |segment|] == SLASH
    requires !separated ==> currentOffset + |segment| == |path|
    requires path[..currentOffset] == Lead(absolute) + Terminated(stack)
    ensures separated ==> path[..currentOffset + |segment| + 1] == Lead(absolute) + Terminated(stack + [segment])
    ensures !separated ==> path == Render(absolute, stack + [segment])
  {
    PushSpells(absolute, stack, segment);
    hide Terminated, Render, Lead;
    var before, end := path[..currentOffset], currentOffset + |segment|;
    assert path[..end] == before + segment;
    if separated {
      assert path[..end + 1] == path[..end] + [SLASH];
    } else {
      assert path == path[..end];
    }
  }

  lemma PushSpells(absolute: bool, stack: seq<string>, segment: string)
    ensures Lead(absolute) + Terminated(stack + [segment])
         == Lead(absolute) + Terminated(stack) + segment + [SLASH]
    ensures Render(absolute, stack + [segment]) == Lead(absolute) + Terminated(stack) + segment
  {
    assert (stack + [segment])[..|stack|] == stack;
    assert Terminated(stack + [segment]) == Terminated(stack) + segment + [SLASH];
    hide Terminated;
  }

  /** The segment is erased and the stack stays as it is. */
  lemma DropConsumes(path: string, prefixOffset: nat, currentOffset: nat, length: nat, last: bool,
                     absolute: bool, stack: seq<string>, ups: nat, target: seq<string>)
    requires LoopInv(path, prefixOffset, currentOffset, absolute, stack, ups, target)
    requires currentOffset + length <= |path| && (last ==> currentOffset + length == |path|)
    ensures Consumed(Erase(path, currentOffset, length), prefixOffset, currentOffset, last,
                     path[currentOffset + length..], absolute, stack, ups)
  {
  }

  /** The segment stays where it is, as a climb or as a name. */
  lemma KeepConsumes(path: string, prefixOffset: nat, currentOffset: nat, segment: string, last: bool,
                     absolute: bool, stack: seq<string>, ups: nat, target: seq<string>)
    requires LoopInv(path, prefixOffset, currentOffset, absolute, stack, ups, target)
    requires currentOffset + |segment| + (if last then 0 else 1) <= |path|
    requires path[currentOffset..currentOffset + |segment|] == segment
    requires !last ==> path[currentOffset + |segment|] == SLASH
    requires last ==> currentOffset + |segment| == |path|
    requires IsSegment(segment)
    requires segment == ".." ==> !absolute && ups == |stack|
    ensures
      var next := currentOffset + |segment| + (if last then 0 else 1);
      && (segment != ".." ==>
            Consumed(path, prefixOffset, next, last, path[next..], absolute, stack + [segment], ups))
      && (segment == ".." ==> Consumed(path, next, next, last, path[next..], absolute, stack + [segment], ups + 1))
  {
    hide Resolve, Split, Render, Terminated, IsSegment;
    KeepSegment(path, currentOffset, segment, !last, absolute, stack);
    assert ups <= |stack|;
    assert (stack + [segment])[..ups] == stack[..ups];
    assert segment == ".." ==> (stack + [segment])[..ups + 1] == stack + [segment];
  }

  lemma PopConsumes(path': string, prefixOffset: nat, currentOffset': nat, last: bool, tail: string,
                    absolute: bool, stack: seq<string>, ups: nat)
    requires Stacked(absolute, stack, ups) && ups < |stack|
    requires prefixOffset <= currentOffset' <= |path'|
    requires path'[..currentOffset'] == Lead(absolute) + Terminated(stack[..|stack| - 1])
    requires path'[currentOffset'..] == tail && (last ==> tail == "")
    requires prefixOffset == |Lead(absolute) + Terminated(stack[..ups])|
    ensures Consumed(path', prefixOffset, currentOffset', last, tail, absolute, stack[..|stack| - 1], ups)
  {
    hide Render, Terminated, IsSegment;
    assert stack[..|stack| - 1][..ups] == stack[..ups];
  }

  /** One pass over the body of the loop, up to the trailing separators. */
  method ConsumeSegment(path: string, prefixOffset: nat, currentOffset: nat, ghost absolute: bool,
                        ghost stack: seq<string>, ghost ups: nat, ghost target: seq<string>)
    returns (path': string, prefixOffset': nat, currentOffset': nat, separator: int,
             ghost stack': seq<string>, ghost ups': nat, ghost tail: string)
    requires LoopInv(path, prefixOffset, currentOffset, absolute, stack, ups, target)
    ensures Consumed(path', prefixOffset', currentOffset', separator == -1, tail, absolute, stack', ups')
    ensures separator == -1 ==> stack' == target
    ensures separator != -1 ==> Resolve(absolute, stack', Split(tail)) == target
    ensures separator == FindSlash(path, currentOffset)
    ensures stack' == Push(absolute, stack, path[currentOffset..if separator == -1 then |path| else separator])
    ensures tail == if separator == -1 then "" else path[separator + 1..]
  {
    hide Resolve, Split, Terminated, Render, Consumed, Lead, IsSegment, FindSlash;
    separator := FindSlash(path, currentOffset);
    var segmentLength := if separator == -1 then |path| - currentOffset else separator - currentOffset;
    var segmentOffset := if currentOffset + segmentLength < |path| then 1 else 0;
    var segment := path[currentOffset..currentOffset + segmentLength];
    var length := segmentLength + segmentOffset;
    tail := path[currentOffset + length..];
    NextSegment(path, prefixOffset, currentOffset, absolute, stack, ups, target);
    AtPrefix(absolute, stack, ups);
    stack' := Push(absolute, stack, segment);
    ups' := ups;
    path', prefixOffset', currentOffset' := path, prefixOffset, currentOffset;
    if segment == "" || segment == "." || segment == "~" {
      DropConsumes(path, prefixOffset, currentOffset, length, separator == -1, absolute, stack, ups, target);
      path' := Erase(path, currentOffset, length);
    } else if segment == ".." {
      var root := path[..currentOffset];
      if IsNormalizedRoot(root) {
        DropConsumes(path, prefixOffset, currentOffset, length, separator == -1, absolute, stack, ups, target);
        path' := Erase(path, currentOffset, length);
      } else if |root| == prefixOffset {
        KeepConsumes(path, prefixOffset, currentOffset, segment, separator == -1, absolute, stack, ups, target);
        prefixOffset' := prefixOffset + length;
        currentOffset' := currentOffset + length;
        ups' := ups + 1;
      } else {
        path', currentOffset' := PopSegment(path, prefixOffset, currentOffset, length, absolute, stack, ups);
        PopConsumes(path', prefixOffset, currentOffset', separator == -1, tail, absolute, stack, ups);
      }
    } else {
      KeepConsumes(path, prefixOffset, currentOffset, segment, separator == -1, absolute, stack, ups, target);
      currentOffset' := currentOffset + length;
    }
  }

  /** Dropping separators in front of the rest changes nothing. */
  lemma {:induction false} SkipSlashes(absolute: bool, stack: seq<string>, tail: string, n: nat)
    requires n <= |tail| && forall i :: 0 <= i < n ==> tail[i] == SLASH
    ensures Resolve(absolute, stack, Split(tail[n..])) == Resolve(absolute, stack, Split(tail))
  {
    if n == 0 {
      assert tail[0..] == tail;
    } else {
      SplitUnfolds(tail);
      FindSlashIs(tail, 0);
      hide Split, FindSlash;
      assert tail[..0] == "" && tail[1..][n - 1..] == tail[n..];
      SkipSlashes(absolute, stack, tail[1..], n - 1);
      ResolveHead(absolute, stack, "", Split(tail[1..]));
      hide Resolve;
    }
  }

  lemma NothingLeft(absolute: bool, stack: seq<string>)
    ensures Resolve(absolute, stack, Split("")) == stack
  {
  }

  /** The loop and the final trim: the in-place edit computes the stack's result. */
  method NormalizeSegments(p: string) returns (path: string)
    requires p != ""
    ensures path == NormalizePlain(p)
  {
    hide Resolve, Split, Terminated, Render, Consumed, Segments, LoopInv;
    path := p;
    ghost var absolute := IsAbsolute(p);
    ghost var target := Segments(p);
    ghost var stack: seq<string>, ups: nat := [], 0;
    var prefixOffset: nat := if path[0] == SLASH then 1 else 0;
    var currentOffset: nat := prefixOffset;
    LoopStarts(p);
    var done := false;
    while !done
      invariant !done ==> LoopInv(path, prefixOffset, currentOffset, absolute, stack, ups, target)
      invariant currentOffset <= |path|
      invariant done ==> Spelled(path, absolute, target) && Stacked(absolute, target, ups)
      decreases if done then 0 else 1 + |path| - currentOffset
    {
      var separator;
      ghost var tail;
      path, prefixOffset, currentOffset, separator, stack, ups, tail :=
        ConsumeSegment(path, prefixOffset, currentOffset, absolute, stack, ups, target);
      ConsumedOffsets(path, prefixOffset, currentOffset, separator == -1, tail, absolute, stack, ups);
      var end := currentOffset;
      while end < |path| && path[end] == SLASH
        invariant currentOffset <= end <= |path|
        invariant forall i :: currentOffset <= i < end ==> path[i] == SLASH
      {
        end := end + 1;
      }
      AfterSkipping(path, prefixOffset, currentOffset, end, separator == -1, tail, absolute, stack, ups, target);
      path := Erase(path, currentOffset, end - currentOffset);
      done := separator == -1 || currentOffset == |path|;
    }
    FinalTrim(path, absolute, target, ups);
    if path != "" && !IsNormalizedRoot(path) && path[|path| - 1] == SLASH {
      path := path[..|path| - 1];
    }
  }

  lemma LoopStarts(p: string)
    requires p != ""
    ensures var n := if p[0] == SLASH then 1 else 0;
            LoopInv(p, n, n, IsAbsolute(p), [], 0, Segments(p))
  {
    if p[0] == SLASH {
      SkipSlashes(true, [], p, 1);
    } else {
      assert p[0..] == p;
    }
  }

  lemma ConsumedOffsets(path: string, prefixOffset: nat, currentOffset: nat, last: bool, tail: string,
                        absolute: bool, stack: seq<string>, ups: nat)
    requires Consumed(path, prefixOffset, currentOffset, last, tail, absolute, stack, ups)
    ensures currentOffset <= |path| && path[currentOffset..] == tail && (last ==> tail == "")
  {
  }

  /** Erasing the separators leads to the loop's head or to its end. */
  lemma AfterSkipping(path: string, prefixOffset: nat, currentOffset: nat, end: nat, last: bool, tail: string,
                      absolute: bool, stack: seq<string>, ups: nat, target: seq<string>)
    requires Consumed(path, prefixOffset, currentOffset, last, tail, absolute, stack, ups)
    requires currentOffset <= end <= |path|
    requires forall i :: currentOffset <= i < end ==> path[i] == SLASH
    requires last ==> stack == target
    requires !last ==> Resolve(absolute, stack, Split(tail)) == target
    ensures var path' := Erase(path, currentOffset, end - currentOffset);
            && (last || currentOffset == |path'| ==> Spelled(path', absolute, target) && Stacked(absolute, target, ups))
            && (!last && currentOffset != |path'| ==>
                  LoopInv(path', prefixOffset, currentOffset, absolute, stack, ups, target))
  {
    hide Resolve, Split, Terminated, Render, IsSegment;
    var path' := Erase(path, currentOffset, end - currentOffset);
    var n := end - currentOffset;
    assert path[currentOffset..] == tail;
    assert path'[..currentOffset] == path[..currentOffset] && path'[currentOffset..] == tail[n..];
    if last {
      assert path' == path;
    } else {
      SkipSlashes(absolute, stack, tail, n);
      if currentOffset == |path'| {
        assert tail[n..] == "";
        NothingLeft(absolute, stack);
      }
    }
  }

  /** One trailing slash, unless it is the root, is all that can be left over. */
  lemma FinalTrim(path: string, absolute: bool, target: seq<string>, ups: nat)
    requires Spelled(path, absolute, target) && Stacked(absolute, target, ups)
    ensures if path != "" && !IsNormalizedRoot(path) && path[|path| - 1] == SLASH
            then path[..|path| - 1] == Render(absolute, target)
            else path == Render(absolute, target)
  {
  }

  // ---------------------------------------------------------------------------------------------
  // Normalize and Join

  /** One detour through the current or the home directory at most. */
  ghost function Detours(path: string): nat {
    if path != "" && (path[0] == '.' || path[0] == '~') then 1 else 0
  }

  method Normalize(env: Environment, p: string) returns (path: string)
    requires ValidEnvironment(env)
    ensures path == PathSpec.Normalize(env, p)
    decreases Detours(p), 0
  {
    hide NormalizePlain;
    path := p;
    if path == "" {
      return;
    }
    while |path| > 1 && path[|path| - 1] == SLASH
      invariant path != "" && path[0] == p[0]
      invariant TrimSlashes(path) == TrimSlashes(p)
    {
      path := path[..|path| - 1];
    }
    if path[0] == '.' {
      if |path| == 1 {
        path := env.cwd;
        return;
      } else if path[1] == SLASH || path[1] == '.' {
        TrimKeeps(JoinText(env.cwd, path));
        path := Join(env, env.cwd, path);
        return;
      }
    }
    if path[0] == '~' {
      if |path| == 1 {
        path := env.home;
        return;
      }
      TrimKeeps(JoinText(env.home, path));
      path := Join(env, env.home, path);
      return;
    }
    path := NormalizeSegments(path);
  }

  lemma TrimKeeps(path: string)
    requires |path| > 1 && path[|path| - 1] != SLASH
    ensures TrimSlashes(path) == path
  {
  }

  method Join(env: Environment, left: string, right: string) returns (existing: string)
    requires ValidEnvironment(env)
    ensures existing == PathSpec.Join(env, left, right)
    decreases Detours(JoinText(left, right)), 1
  {
    existing := left;
    if IsAbsolute(right) || existing == "" {
      existing := right;
    } else if right != "" {
      if existing[|existing| - 1] != SLASH && existing[|existing| - 1] != BACKSLASH {
        existing := existing + [SLASH];
      }
      existing := existing + right;
    }
    existing := Normalize(env, existing);
  }
}
