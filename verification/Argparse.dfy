/** `ArgumentParser`: the root object whose found-set and commands every nested parser updates. */
module Argparse {
  import opened ArgparseSpec
  import opened ArgparseLaws

  class ArgumentParser {
    const root: Parser
    const host: Host
    var found: set<string>
    var commands: map<Path, string>
    var log: seq<Event>

    ghost function View(): State
      reads this
    {
      State(found, commands, log)
    }

    constructor (root: Parser, host: Host)
      ensures this.root == root && this.host == host && View() == State({}, map[], [])
    {
      this.root, this.host := root, host;
      found, commands, log := {}, map[], [];
    }

    /** The closing checks. */
    method Close(p: Parser, rest: seq<string>) returns (status: Status)
      ensures ToOutcome(status, View(), rest) == ArgparseSpec.Close(p, rest, View())
    {
      var k := 0;
      while k < |p.args|
        invariant k <= |p.args|
        invariant forall i :: 0 <= i < k ==> p.args[i].required ==> p.args[i].name in found
      {
        if p.args[k].required && p.args[k].name !in found {
          assert FirstMissing(p.args, found) == k;
          return Failed(Missing(p.args[k].name));
        }
        k := k + 1;
      }
      return if rest != [] then Failed(Unrecognized(rest[0])) else Done;
    }

    /** The search over `m_args`. */
    method FindMatch(p: Parser, token: string) returns (k: nat)
      ensures k == FirstMatch(p.args, token, found)
    {
      k := 0;
      while k < |p.args| && !Matches(p.args[k], token, found)
        invariant k <= |p.args|
        invariant forall i :: 0 <= i < k ==> !Matches(p.args[i], token, found)
      {
        k := k + 1;
      }
    }

    /** `Parse` of an argument, option or positional, and the bookkeeping after it. */
    method ParseValue(arg: Arg, path: Path, k: nat, args: seq<string>) returns (status: Status, rest: seq<string>)
      requires arg.Value? && args != []
      modifies this
      ensures (status, rest, View()) == ValueStep(host, arg, path, k, args, old(View()))
      ensures status.Done? ==> |rest| < |args|
    {
      rest := args;
      var taken := TakeValue(arg, args);
      if taken.Lacking? {
        return Failed(NoValue(arg.name)), args;
      }
      if !host.accepts(log, arg.name, taken.text) {
        return Failed(Rejected(arg.name)), args;
      }
      var event := Parsed(path, k, arg.name, IsSequence(arg), args[..taken.count], taken.text);
      found, log := found + {arg.name}, log + [event];
      return Done, args[taken.count..];
    }

    /** `Process` of the parser at `path`: consumes tokens from the span until none matches. */
    method Process(p: Parser, path: Path, args: seq<string>) returns (status: Status, rest: seq<string>)
      modifies this
      ensures ToOutcome(status, View(), rest) == ArgparseSpec.Process(host, p, path, args, old(View()))
      decreases |args|
    {
      hide ArgparseSpec.Process, FirstMatch, TakeValue, ArgparseSpec.Close;
      rest := args;
      var matched := true;
      while rest != [] && matched
        invariant |rest| <= |args|
        invariant ArgparseSpec.Process(host, p, path, rest, View())
               == ArgparseSpec.Process(host, p, path, args, old(View()))
        invariant !matched ==> rest != [] && FirstMatch(p.args, rest[0], found) == |p.args|
        decreases |rest|, matched
      {
        ProcessUnfolds(host, p, path, rest, View());
        var k := FindMatch(p, rest[0]);
        if k == |p.args| {
          matched := false;
        } else {
          var arg := p.args[k];
          if arg.name in found && !IsSequence(arg) {
            return Failed(Duplicate(arg.name)), rest;
          }
          if arg.Command? {
            commands := commands[path := arg.name];
            log := log + [Entered(path, k, arg.name)];
            status, rest := Process(arg.parser, path + [k], rest[1..]);
            if status.Failed? {
              return;
            }
            if !host.executes(log, arg.name) {
              return Failed(Rejected(arg.name)), rest;
            }
            found, log := found + {arg.name}, log + [Executed(path, arg.name)];
          } else {
            status, rest := ParseValue(arg, path, k, rest);
            if status.Failed? {
              return;
            }
          }
        }
      }
      ProcessStops(host, p, path, rest, View());
      status := Close(p, rest);
    }

    /** Only parsers of the tree have a chosen command. */
    ghost predicate Valid()
      reads this
    {
      CommandsInTree(root, commands)
    }

    predicate IsClear()
      reads this
    {
      found == {} && commands == map[]
    }

    /** `Reset` of the parser at `path`; the found-set is the root's. */
    method Reset(p: Parser, path: Path)
      modifies this`found, this`commands
      ensures found == if path == [] then {} else old(found)
      ensures commands == Pruned(old(commands), p, path)
      decreases p
    {
      var k := 0;
      while k < |p.args|
        invariant k <= |p.args| && found == old(found)
        invariant commands == PrunedUpTo(old(commands), p, path, k)
      {
        if p.args[k].Command? {
          Reset(p.args[k].parser, path + [k]);
        }
        PruneNext(old(commands), p, path, k);
        k := k + 1;
      }
      if path == [] {
        found := {};
      }
      PruneLast(old(commands), p, path);
      commands := commands - {path};
    }

    /** What a call on `tokens` comes to: a failure leaves nothing behind. */
    ghost predicate ParsedFrom(status: Status, tokens: seq<string>, before: State)
      reads this
    {
      match ArgparseSpec.Process(host, root, [], tokens, before)
      case Success(st, _) => status == Done && View() == st
      case Failure(_, error) => status == Failed(error) && View() == CLEAR_STATE
    }

    /** The common end of both forms of `Parse`. */
    method ProcessOrReset(tokens: seq<string>) returns (status: Status)
      requires Valid()
      modifies this
      ensures Valid() && ParsedFrom(status, tokens, old(View()))
    {
      ProcessKeepsCommandsInTree(host, root, tokens, View());
      var rest;
      status, rest := Process(root, [], tokens);
      if status.Failed? {
        PruneAll(commands, root);
        Reset(root, []);
        log := [];
      }
    }

    /** `Parse` of a vector: an offset past the end leaves no tokens. */
    method Parse(args: seq<string>, offset: nat) returns (status: Status)
      requires Valid()
      modifies this
      ensures Valid()
      ensures args == [] ==> status == Failed(EmptyList) && View() == old(View())
      ensures args != [] ==> ParsedFrom(status, if offset <= |args| then args[offset..] else [], old(View()))
      ensures status.Failed? ==> (IsClear() <==> args != [] || old(IsClear()))
    {
      if args == [] {
        return Failed(EmptyList);
      }
      status := ProcessOrReset(if offset <= |args| then args[offset..] else []);
    }

    /** `Parse` of a span: an offset past the end is refused. */
    method ParseSpan(args: seq<string>, offset: nat) returns (status: Status)
      requires Valid()
      modifies this
      ensures Valid()
      ensures offset > |args| ==> status == Failed(InvalidOffset) && View() == old(View())
      ensures offset <= |args| ==> ParsedFrom(status, args[offset..], old(View()))
      ensures status.Failed? ==> (IsClear() <==> offset <= |args| || old(IsClear()))
    {
      if offset > |args| {
        return Failed(InvalidOffset);
      }
      status := ProcessOrReset(args[offset..]);
    }
  }

  /** `q` is the path of a parser at or below the parser `p` at `path`. */
  predicate Under(p: Parser, path: Path, q: Path) {
    path <= q && InTree(p, q[|path|..])
  }

  /** ... and below one of its first `k` arguments. */
  predicate UnderFirst(p: Parser, path: Path, k: nat, q: Path) {
    path < q && q[|path|] < k && Under(p, path, q)
  }

  function Pruned(commands: map<Path, string>, p: Parser, path: Path): map<Path, string> {
    map q | q in commands && !Under(p, path, q) :: commands[q]
  }

  function PrunedUpTo(commands: map<Path, string>, p: Parser, path: Path, k: nat): map<Path, string> {
    map q | q in commands && !UnderFirst(p, path, k, q) :: commands[q]
  }

  lemma PruneNext(commands: map<Path, string>, p: Parser, path: Path, k: nat)
    requires k < |p.args|
    ensures PrunedUpTo(commands, p, path, k + 1)
         == if p.args[k].Command? then Pruned(PrunedUpTo(commands, p, path, k), p.args[k].parser, path + [k])
            else PrunedUpTo(commands, p, path, k)
  {
  }

  lemma PruneLast(commands: map<Path, string>, p: Parser, path: Path)
    ensures PrunedUpTo(commands, p, path, |p.args|) - {path} == Pruned(commands, p, path)
  {
    forall q
      ensures Under(p, path, q) <==> q == path || UnderFirst(p, path, |p.args|, q)
    {
      if path <= q && q != path {
        assert q[|path|..][0] == q[|path|];
      } else if path <= q {
        assert q[|path|..] == [];
      }
    }
  }

  lemma PruneAll(commands: map<Path, string>, p: Parser)
    requires CommandsInTree(p, commands)
    ensures Pruned(commands, p, []) == map[]
  {
  }
}
