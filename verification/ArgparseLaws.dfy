/** What a run of the argument parser guarantees, for every parser tree, token list and host. */
module ArgparseLaws {
  import opened ArgparseSpec

  // ---------------------------------------------------------------------------------------------
  // What a list of events says about the tokens, the found-set, the chosen commands and the tree

  function PieceOf(e: Event): seq<string> {
    match e case Parsed(_, _, _, _, piece, _) => piece case Entered(_, _, name) => [name] case Executed(_, _) => []
  }

  function Pieces(events: seq<Event>): seq<string> {
    if events == [] then [] else PieceOf(events[0]) + Pieces(events[1..])
  }

  predicate NonemptyPieces(events: seq<Event>) {
    forall i :: 0 <= i < |events| && !events[i].Executed? ==> PieceOf(events[i]) != []
  }

  /** `events` consumed a front part of `tokens`, and all of it if the run is complete. */
  predicate Consumes(tokens: seq<string>, events: seq<Event>, complete: bool) {
    && NonemptyPieces(events)
    && Pieces(events) <= tokens
    && (complete ==> Pieces(events) == tokens)
  }

  /** A command is found once it has executed, every other argument once it has been parsed. */
  function FoundStep(found: set<string>, e: Event): set<string> {
    if e.Entered? then found else found + {e.name}
  }

  function FoundAfter(found: set<string>, events: seq<Event>): set<string>
    decreases |events|
  {
    if events == [] then found else FoundAfter(FoundStep(found, events[0]), events[1..])
  }

  function CommandsAfter(commands: map<Path, string>, events: seq<Event>): map<Path, string>
    decreases |events|
  {
    if events == [] then commands
    else CommandsAfter(if events[0].Entered? then commands[events[0].path := events[0].name] else commands, events[1..])
  }

  /** Nothing that must be new had been found before. */
  predicate Fresh(found: set<string>, events: seq<Event>)
    decreases |events|
  {
    events != [] ==>
      && ((events[0].Parsed? && !events[0].sequence) || events[0].Entered? ==> events[0].name !in found)
      && Fresh(FoundStep(found, events[0]), events[1..])
  }

  predicate RequiredFound(p: Parser, found: set<string>) {
    forall i :: 0 <= i < |p.args| && p.args[i].required ==> p.args[i].name in found
  }

  /** What lies between the first and the last event. */
  function Inside(events: seq<Event>): (r: seq<Event>)
    ensures events != [] ==> |r| < |events|
  {
    if |events| > 1 then events[1..|events| - 1] else []
  }

  lemma SplitsEnds(events: seq<Event>)
    requires |events| > 1
    ensures events == [events[0]] + Inside(events) + [events[|events| - 1]]
    ensures forall i :: 0 < i < |events| - 1 ==> events[i] == Inside(events)[i - 1]
  {
  }

  /** The first argument that answers to a token. */
  ghost predicate IsFirst(args: seq<Arg>, k: nat, token: string, found: set<string>) {
    k < |args| && Answers(args[k], token, found) && forall i :: 0 <= i < k ==> !Answers(args[i], token, found)
  }

  /** A value of this parser: the first argument that answers to the token, and the text that the tokens spell. */
  ghost predicate IsParsed(p: Parser, path: Path, e: Event, found: set<string>) {
    && e.Parsed? && e.path == path && e.index < |p.args| && p.args[e.index].Value?
    && e.name == p.args[e.index].name && e.sequence == p.args[e.index].sequence
    && e.piece != [] && IsFirst(p.args, e.index, e.piece[0], found)
    && Spells(p.args[e.index], e.piece, e.text)
  }

  ghost predicate IsEntered(p: Parser, path: Path, e: Event, found: set<string>) {
    && e.Entered? && e.path == path && e.index < |p.args| && p.args[e.index].Command?
    && e.name == p.args[e.index].name && IsFirst(p.args, e.index, e.name, found)
  }

  /** The host has agreed to every value and every command, given what had been accepted before. */
  predicate Agreed(host: Host, log: seq<Event>, events: seq<Event>) {
    forall i {:trigger events[i]} :: 0 <= i < |events| ==>
      && (events[i].Parsed? ==> host.accepts(log + events[..i], events[i].name, events[i].text))
      && (events[i].Executed? ==> host.executes(log + events[..i], events[i].name))
  }

  /**
   * The events of the parser at `path`: values, then at most one command, bracketed around the events
   * of its own parser. `before` is what had been found by then. A completed parser has all its required
   * arguments found in the end.
   */
  ghost predicate Nested(
      p: Parser, path: Path, events: seq<Event>, complete: bool, before: set<string>, found: set<string>)
    decreases |events|
  {
    if events == [] then complete ==> RequiredFound(p, found)
    else if events[0].Parsed? then
      && IsParsed(p, path, events[0], before)
      && Nested(p, path, events[1..], complete, before + {events[0].name}, found)
    else
      && IsEntered(p, path, events[0], before)
      && var parser, below := p.args[events[0].index].parser, path + [events[0].index];
         || (Closed(p, path, events, complete, found)
             && Nested(parser, below, Inside(events), true, before, found))
         || (!complete && Nested(parser, below, events[1..], false, before, found))
  }

  /** The command entered first is executed last. */
  predicate Closed(p: Parser, path: Path, events: seq<Event>, complete: bool, found: set<string>)
    requires events != [] && events[0].Entered?
  {
    && |events| > 1 && events[|events| - 1] == Executed(path, events[0].name)
    && (complete ==> RequiredFound(p, found))
  }

  // ---------------------------------------------------------------------------------------------
  // Appending events

  lemma {:induction false} PiecesConcat(a: seq<Event>, b: seq<Event>)
    ensures Pieces(a + b) == Pieces(a) + Pieces(b)
  {
    if a == [] {
      assert a + b == b;
    } else {
      assert (a + b)[1..] == a[1..] + b;
      PiecesConcat(a[1..], b);
    }
  }

  lemma {:induction false} ExecutedAppends(found: set<string>, commands: map<Path, string>, a: seq<Event>, e: Event)
    requires e.Executed?
    ensures FoundAfter(found, a + [e]) == FoundAfter(found, a) + {e.name}
    ensures CommandsAfter(commands, a + [e]) == CommandsAfter(commands, a)
    ensures Fresh(found, a) ==> Fresh(found, a + [e])
    decreases |a|
  {
    if a == [] {
      assert a + [e] == [e] && [e][1..] == [];
    } else {
      assert (a + [e])[1..] == a[1..] + [e];
      var commands' := if a[0].Entered? then commands[a[0].path := a[0].name] else commands;
      ExecutedAppends(FoundStep(found, a[0]), commands', a[1..], e);
    }
  }

  lemma {:induction false} NestedWeakens(
      p: Parser, path: Path, events: seq<Event>, complete: bool, before: set<string>, found: set<string>,
      complete': bool, found': set<string>)
    requires Nested(p, path, events, complete, before, found)
    requires found <= found' && (complete' ==> complete)
    ensures Nested(p, path, events, complete', before, found')
    decreases |events|
  {
    hide IsParsed, IsFirst;
    if events != [] {
      if events[0].Parsed? {
        NestedWeakens(p, path, events[1..], complete, before + {events[0].name}, found, complete', found');
      } else {
        var parser, below := p.args[events[0].index].parser, path + [events[0].index];
        var inside := Inside(events);
        if Closed(p, path, events, complete, found) && Nested(parser, below, inside, true, before, found) {
          NestedWeakens(parser, below, inside, true, before, found, true, found');
        } else {
          NestedWeakens(parser, below, events[1..], false, before, found, false, found');
        }
      }
    }
  }

  lemma AgreedBefore(host: Host, log: seq<Event>, e: Event, later: seq<Event>)
    requires Agreed(host, log + [e], later)
    requires e.Parsed? ==> host.accepts(log, e.name, e.text)
    requires !e.Executed?
    ensures Agreed(host, log, [e] + later)
  {
    var events := [e] + later;
    forall i | 0 <= i < |events|
      ensures events[i].Parsed? ==> host.accepts(log + events[..i], events[i].name, events[i].text)
      ensures events[i].Executed? ==> host.executes(log + events[..i], events[i].name)
    {
      if i == 0 {
        assert log + events[..0] == log;
      } else {
        assert events[i] == later[i - 1];
        assert log + events[..i] == log + [e] + later[..i - 1];
      }
    }
  }

  lemma AgreedAfter(host: Host, log: seq<Event>, events: seq<Event>, x: Event)
    requires Agreed(host, log, events) && x.Executed? && host.executes(log + events, x.name)
    ensures Agreed(host, log, events + [x])
  {
    forall i | 0 <= i < |events + [x]|
      ensures (events + [x])[i].Parsed? ==>
                host.accepts(log + (events + [x])[..i], (events + [x])[i].name, (events + [x])[i].text)
      ensures (events + [x])[i].Executed? ==> host.executes(log + (events + [x])[..i], (events + [x])[i].name)
    {
      if i < |events| {
        assert (events + [x])[..i] == events[..i] && (events + [x])[i] == events[i];
      } else {
        assert (events + [x])[..i] == events;
      }
    }
  }

  /** The search of `Process` finds the first argument that answers. */
  lemma FirstMatchIs(args: seq<Arg>, token: string, found: set<string>)
    ensures var k := FirstMatch(args, token, found);
            if k < |args| then IsFirst(args, k, token, found)
            else forall i :: 0 <= i < |args| ==> !Answers(args[i], token, found)
  {
    hide FirstMatch, Answers, Matches;
    forall i | 0 <= i < |args|
      ensures Matches(args[i], token, found) <==> Answers(args[i], token, found)
    {
      MatchesIff(args[i], token, found);
    }
  }

  // ---------------------------------------------------------------------------------------------
  // Every run is lawful

  /** The outcome is accounted for, in full, by the events the run added. */
  ghost predicate Lawful(host: Host, p: Parser, path: Path, tokens: seq<string>, st: State, r: Outcome) {
    && st.log <= r.state.log
    && var events := r.state.log[|st.log|..];
    && Consumes(tokens, events, r.Success?)
    && Fresh(st.found, events)
    && Agreed(host, st.log, events)
    && r.state.found == FoundAfter(st.found, events)
    && r.state.commands == CommandsAfter(st.commands, events)
    && Nested(p, path, events, r.Success?, st.found, r.state.found)
  }

  lemma LawfulStop(host: Host, p: Parser, path: Path, tokens: seq<string>, st: State, r: Outcome)
    requires r.state == st && (r.Success? ==> tokens == [] && RequiredFound(p, st.found))
    ensures Lawful(host, p, path, tokens, st, r)
  {
  }

  lemma LawfulValue(
      host: Host, p: Parser, path: Path, tokens: seq<string>, rest: seq<string>, st: State, e: Event, r: Outcome)
    requires IsParsed(p, path, e, st.found) && tokens == e.piece + rest && host.accepts(st.log, e.name, e.text)
    requires !e.sequence ==> e.name !in st.found
    requires Lawful(host, p, path, rest, Mark(st, e.name, e), r)
    ensures Lawful(host, p, path, tokens, st, r)
  {
    hide IsFirst, Agreed, Spells, RequiredFound;
    var later := r.state.log[|st.log| + 1..];
    assert r.state.log[|st.log|] == Mark(st, e.name, e).log[|st.log|] == e;
    assert r.state.log[|st.log|..] == [e] + later && ([e] + later)[1..] == later;
    AgreedBefore(host, st.log, e, later);
  }

  /** A command that was entered but not executed. */
  lemma LawfulEntered(
      host: Host, p: Parser, path: Path, k: nat, tokens: seq<string>, st: State, sub: Outcome, r: Outcome)
    requires MayEnter(p, k, tokens, st)
    requires Lawful(host, p.args[k].parser, path + [k], tokens[1..], Enter(st, path, k, p.args[k].name), sub)
    requires r.Failure? && r.state == sub.state
    ensures Lawful(host, p, path, tokens, st, r)
  {
    hide Agreed, IsFirst;
    var e := Entered(path, k, p.args[k].name);
    var inside := EnteredLog(host, p, path, k, tokens, st, sub);
    NestedWeakens(p.args[k].parser, path + [k], inside, sub.Success?, st.found, sub.state.found,
                  false, sub.state.found);
    assert ([e] + inside)[1..] == inside;
  }

  /** The next token is the name of a command that answers first and has not been executed. */
  ghost predicate MayEnter(p: Parser, k: nat, tokens: seq<string>, st: State) {
    && k < |p.args| && p.args[k].Command? && p.args[k].name !in st.found
    && tokens != [] && tokens[0] == p.args[k].name && IsFirst(p.args, k, tokens[0], st.found)
  }

  /** The events of a command that has been entered, up to and without its execution. */
  lemma EnteredLog(host: Host, p: Parser, path: Path, k: nat, tokens: seq<string>, st: State, sub: Outcome)
    returns (inside: seq<Event>)
    requires MayEnter(p, k, tokens, st)
    requires Lawful(host, p.args[k].parser, path + [k], tokens[1..], Enter(st, path, k, p.args[k].name), sub)
    ensures st.log <= sub.state.log
    ensures sub.state.log[|st.log|..] == [Entered(path, k, p.args[k].name)] + inside
    ensures Nested(p.args[k].parser, path + [k], inside, sub.Success?, st.found, sub.state.found)
    ensures var events := [Entered(path, k, p.args[k].name)] + inside;
      && Consumes(tokens, events, sub.Success?)
      && Fresh(st.found, events)
      && Agreed(host, st.log, events)
      && sub.state.found == FoundAfter(st.found, events)
      && sub.state.commands == CommandsAfter(st.commands, events)
  {
    hide Nested, Agreed, IsFirst;
    var e := Entered(path, k, p.args[k].name);
    inside := sub.state.log[|st.log| + 1..];
    assert sub.state.log[|st.log|] == Enter(st, path, k, p.args[k].name).log[|st.log|] == e;
    assert sub.state.log[|st.log|..] == [e] + inside && ([e] + inside)[1..] == inside;
    assert Pieces([e] + inside) == PieceOf(e) + Pieces(inside);
    assert tokens == [tokens[0]] + tokens[1..];
    AgreedBefore(host, st.log, e, inside);
  }

  /** A command that was executed. */
  lemma LawfulExecuted(
      host: Host, p: Parser, path: Path, k: nat, tokens: seq<string>, st: State, sub: Outcome, r: Outcome)
    requires MayEnter(p, k, tokens, st)
    requires Lawful(host, p.args[k].parser, path + [k], tokens[1..], Enter(st, path, k, p.args[k].name), sub)
    requires sub.Success? && host.executes(sub.state.log, p.args[k].name)
    requires r.state == Mark(sub.state, p.args[k].name, Executed(path, p.args[k].name))
    requires r.Success? ==> RequiredFound(p, r.state.found)
    ensures Lawful(host, p, path, tokens, st, r)
  {
    hide Lawful, Agreed, IsFirst, RequiredFound, Nested, Consumes, Fresh, FoundAfter, CommandsAfter;
    var e, x := Entered(path, k, p.args[k].name), Executed(path, p.args[k].name);
    var inside := EnteredLog(host, p, path, k, tokens, st, sub);
    var events := [e] + inside;
    assert r.state.log[|st.log|..] == events + [x];
    ExecutedAppends(st.found, st.commands, events, x);
    ExecutedConsumes(tokens, events, x, r.Success?);
    assert sub.state.log == st.log + events;
    AgreedAfter(host, st.log, events, x);
    NestedWeakens(p.args[k].parser, path + [k], inside, true, st.found, sub.state.found, true, r.state.found);
    ExecutedNests(p, path, k, inside, r.Success?, st.found, r.state.found);
    LawfulFrom(host, p, path, tokens, st, r, events + [x]);
  }

  lemma ExecutedConsumes(tokens: seq<string>, events: seq<Event>, x: Event, complete: bool)
    requires Consumes(tokens, events, true) && x.Executed?
    ensures Consumes(tokens, events + [x], complete)
  {
    PiecesConcat(events, [x]);
    assert Pieces([x]) == [];
  }

  lemma ExecutedNests(
      p: Parser, path: Path, k: nat, inside: seq<Event>, complete: bool, before: set<string>, found: set<string>)
    requires k < |p.args| && p.args[k].Command? && IsFirst(p.args, k, p.args[k].name, before)
    requires Nested(p.args[k].parser, path + [k], inside, true, before, found)
    requires complete ==> RequiredFound(p, found)
    ensures Nested(p, path, [Entered(path, k, p.args[k].name)] + inside + [Executed(path, p.args[k].name)],
                   complete, before, found)
  {
    hide IsFirst, RequiredFound;
    var events := [Entered(path, k, p.args[k].name)] + inside + [Executed(path, p.args[k].name)];
    assert Inside(events) == inside;
  }

  lemma LawfulFrom(
      host: Host, p: Parser, path: Path, tokens: seq<string>, st: State, r: Outcome, events: seq<Event>)
    requires st.log <= r.state.log && r.state.log[|st.log|..] == events
    requires Consumes(tokens, events, r.Success?) && Fresh(st.found, events) && Agreed(host, st.log, events)
    requires r.state.found == FoundAfter(st.found, events) && r.state.commands == CommandsAfter(st.commands, events)
    requires Nested(p, path, events, r.Success?, st.found, r.state.found)
    ensures Lawful(host, p, path, tokens, st, r)
  {
  }

  /**
   * A value argument uses up the tokens that spell its text, and its event records both; the host has
   * agreed to the text. A failure changes nothing.
   */
  lemma ValueConsumes(host: Host, arg: Arg, path: Path, k: nat, tokens: seq<string>, st: State)
    requires arg.Value? && tokens != [] && Matches(arg, tokens[0], st.found)
    ensures
      var (status, rest, st') := ValueStep(host, arg, path, k, tokens, st);
      && (status.Failed? ==> st' == st)
      && (status.Done? ==>
            && |rest| < |tokens| && |st'.log| == |st.log| + 1
            && var e := st'.log[|st.log|];
               && e.Parsed? && e.path == path && e.index == k && e.name == arg.name && e.sequence == arg.sequence
               && e.piece != [] && tokens == e.piece + rest && st' == Mark(st, arg.name, e)
               && Spells(arg, e.piece, e.text) && host.accepts(st.log, arg.name, e.text))
  {
    hide TakeValue, Matches;
    var taken := TakeValue(arg, tokens);
    if taken.Taken? {
      TakesIff(arg, tokens, st.found, taken.count, taken.text);
    }
  }

  /** The closing checks change nothing, and succeed only on no tokens and no missing argument. */
  lemma CloseKeeps(p: Parser, tokens: seq<string>, st: State)
    ensures var r := Close(p, tokens, st);
            r.state == st && (r.Success? <==> tokens == [] && RequiredFound(p, st.found))
  {
  }

  /** A command's own parser has used everything up, so nothing but the closing checks is left. */
  lemma CommandEnds(host: Host, p: Parser, path: Path, tokens: seq<string>, st: State)
    requires tokens != []
    requires var k := FirstMatch(p.args, tokens[0], st.found);
             k < |p.args| && p.args[k].Command? && p.args[k].name !in st.found
    ensures
      var k := FirstMatch(p.args, tokens[0], st.found);
      var arg := p.args[k];
      var r := Process(host, p, path, tokens, st);
      var sub := Process(host, arg.parser, path + [k], tokens[1..], Enter(st, path, k, arg.name));
      && tokens[0] == arg.name
      && if sub.Failure? then r == sub
         else if !host.executes(sub.state.log, arg.name) then r == Failure(sub.state, Rejected(arg.name))
         else r == Close(p, [], Mark(sub.state, arg.name, Executed(path, arg.name)))
  {
  }

  /** Every run of `Process`, whether it succeeds or fails, is lawful. */
  lemma {:induction false} ProcessIsLawful(host: Host, p: Parser, path: Path, tokens: seq<string>, st: State)
    ensures Lawful(host, p, path, tokens, st, Process(host, p, path, tokens, st))
    decreases |tokens|
  {
    hide FirstMatch, TakeValue, Lawful, Process, Close, IsFirst, Matches;
    var r := Process(host, p, path, tokens, st);
    if tokens == [] || FirstMatch(p.args, tokens[0], st.found) == |p.args| {
      ProcessStops(host, p, path, tokens, st);
      CloseKeeps(p, tokens, st);
      LawfulStop(host, p, path, tokens, st, r);
    } else {
      var k := FirstMatch(p.args, tokens[0], st.found);
      var arg := p.args[k];
      ProcessUnfolds(host, p, path, tokens, st);
      if arg.name in st.found && !IsSequence(arg) {
        LawfulStop(host, p, path, tokens, st, r);
      } else if arg.Command? {
        CommandIsLawful(host, p, path, tokens, st);
      } else {
        ValueConsumes(host, arg, path, k, tokens, st);
        var (status, rest, st') := ValueStep(host, arg, path, k, tokens, st);
        if status.Done? {
          FirstMatchIs(p.args, tokens[0], st.found);
          ProcessIsLawful(host, p, path, rest, st');
          LawfulValue(host, p, path, tokens, rest, st, st'.log[|st.log|], r);
        } else {
          LawfulStop(host, p, path, tokens, st, r);
        }
      }
    }
  }

  lemma {:induction false} CommandIsLawful(host: Host, p: Parser, path: Path, tokens: seq<string>, st: State)
    requires tokens != []
    requires var k := FirstMatch(p.args, tokens[0], st.found);
             k < |p.args| && p.args[k].Command? && p.args[k].name !in st.found
    ensures Lawful(host, p, path, tokens, st, Process(host, p, path, tokens, st))
    decreases |tokens|, 0
  {
    hide FirstMatch, TakeValue, Lawful, Process, Close, IsFirst;
    var k := FirstMatch(p.args, tokens[0], st.found);
    var arg := p.args[k];
    var inner := Enter(st, path, k, arg.name);
    var sub := Process(host, arg.parser, path + [k], tokens[1..], inner);
    var r := Process(host, p, path, tokens, st);
    ProcessIsLawful(host, arg.parser, path + [k], tokens[1..], inner);
    CommandEnds(host, p, path, tokens, st);
    FirstMatchIs(p.args, tokens[0], st.found);
    if sub.Failure? || !host.executes(sub.state.log, arg.name) {
      LawfulEntered(host, p, path, k, tokens, st, sub, r);
    } else {
      CloseKeeps(p, [], Mark(sub.state, arg.name, Executed(path, arg.name)));
      LawfulExecuted(host, p, path, k, tokens, st, sub, r);
    }
  }

  // ---------------------------------------------------------------------------------------------
  // What lawfulness means

  /** Commands nest: each one entered lies below those entered before it. */
  predicate Descends(events: seq<Event>) {
    forall i, j :: 0 <= i < j < |events| && events[i].Entered? && events[j].Entered?
                   ==> events[i].path + [events[i].index] <= events[j].path
  }

  /** Commands execute innermost first. */
  predicate Ascends(events: seq<Event>) {
    forall i, j :: 0 <= i < j < |events| && events[i].Executed? && events[j].Executed?
                   ==> events[j].path < events[i].path
  }

  predicate AllBelow(path: Path, events: seq<Event>) {
    forall i :: 0 <= i < |events| ==> path <= events[i].path
  }

  predicate InOrder(path: Path, events: seq<Event>) {
    AllBelow(path, events) && Descends(events) && Ascends(events)
  }

  lemma OrderAfterParsed(path: Path, e: Event, later: seq<Event>)
    requires e.Parsed? && e.path == path && InOrder(path, later)
    ensures InOrder(path, [e] + later)
  {
  }

  lemma OrderAfterEntered(path: Path, e: Event, inside: seq<Event>)
    requires e.Entered? && e.path == path && InOrder(path + [e.index], inside)
    ensures InOrder(path, [e] + inside)
  {
  }

  lemma OrderBeforeExecuted(path: Path, e: Event, inside: seq<Event>, x: Event)
    requires e.Entered? && e.path == path && InOrder(path + [e.index], inside)
    requires x.Executed? && x.path == path
    ensures InOrder(path, [e] + inside + [x])
  {
  }

  lemma {:induction false} NestedOrder(
      p: Parser, path: Path, events: seq<Event>, complete: bool, before: set<string>, found: set<string>)
    requires Nested(p, path, events, complete, before, found)
    ensures InOrder(path, events)
    decreases |events|
  {
    if events != [] {
      hide InOrder, IsFirst, Spells, RequiredFound;
      var e := events[0];
      if e.Parsed? {
        NestedOrder(p, path, events[1..], complete, before + {e.name}, found);
        OrderAfterParsed(path, e, events[1..]);
        assert events == [e] + events[1..];
      } else {
        var parser, below := p.args[e.index].parser, path + [e.index];
        var inside := Inside(events);
        if Closed(p, path, events, complete, found) && Nested(parser, below, inside, true, before, found) {
          var x := events[|events| - 1];
          NestedOrder(parser, below, inside, true, before, found);
          OrderBeforeExecuted(path, e, inside, x);
          SplitsEnds(events);
        } else {
          NestedOrder(parser, below, events[1..], false, before, found);
          OrderAfterEntered(path, e, events[1..]);
          assert events == [e] + events[1..];
        }
      }
    }
  }

  /** Every entered command is one of the tree, and if the run is complete its required arguments are found. */
  predicate Accounted(p: Parser, path: Path, e: Event, complete: bool, found: set<string>)
    requires e.Entered?
  {
    && path <= e.path
    && var q := e.path[|path|..] + [e.index];
    && InTree(p, q) && InTree(p, e.path[|path|..])
    && (complete ==> RequiredFound(ParserAt(p, q), found))
  }

  lemma {:induction false} NestedAccounts(
      p: Parser, path: Path, events: seq<Event>, complete: bool, before: set<string>, found: set<string>, i: nat)
    requires Nested(p, path, events, complete, before, found)
    requires i < |events| && events[i].Entered?
    ensures Accounted(p, path, events[i], complete, found)
    decreases |events|
  {
    hide IsFirst, Spells, RequiredFound;
    if events[0].Parsed? {
      NestedAccounts(p, path, events[1..], complete, before + {events[0].name}, found, i - 1);
    } else {
      var k := events[0].index;
      var parser, below, inside := p.args[k].parser, path + [k], Inside(events);
      if Closed(p, path, events, complete, found) && Nested(parser, below, inside, true, before, found) {
        if i == 0 {
          NestedRequires(parser, below, inside, before, found);
          AccountedHere(p, path, events[0], complete, before, found);
        } else {
          SplitsEnds(events);
          NestedAccounts(parser, below, inside, true, before, found, i - 1);
          AccountedDeeper(p, path, k, events[i], complete, found);
        }
      } else if i == 0 {
        AccountedHere(p, path, events[0], false, before, found);
      } else {
        NestedAccounts(parser, below, events[1..], false, before, found, i - 1);
        AccountedDeeper(p, path, k, events[i], false, found);
      }
    }
  }

  lemma AccountedHere(p: Parser, path: Path, e: Event, complete: bool, before: set<string>, found: set<string>)
    requires IsEntered(p, path, e, before)
    requires complete ==> RequiredFound(p.args[e.index].parser, found)
    ensures Accounted(p, path, e, complete, found)
  {
  }

  lemma AccountedDeeper(p: Parser, path: Path, k: nat, e: Event, complete: bool, found: set<string>)
    requires k < |p.args| && p.args[k].Command?
    requires e.Entered? && Accounted(p.args[k].parser, path + [k], e, complete, found)
    ensures Accounted(p, path, e, complete, found)
  {
    var inner := e.path[|path| + 1..];
    assert e.path[|path|] == (path + [k])[|path|] == k;
    assert e.path[|path|..] == [k] + inner && ([k] + inner)[1..] == inner;
    assert e.path[|path|..] + [e.index] == [k] + (inner + [e.index]);
    assert ([k] + (inner + [e.index]))[1..] == inner + [e.index];
  }

  /** Every value is one that its own parser reads off the tokens, given what had been found by then. */
  ghost predicate ReadBy(p: Parser, path: Path, e: Event, found: set<string>)
    requires e.Parsed?
  {
    path <= e.path && InTree(p, e.path[|path|..]) && IsParsed(ParserAt(p, e.path[|path|..]), e.path, e, found)
  }

  lemma ReadDeeper(p: Parser, path: Path, k: nat, e: Event, found: set<string>)
    requires k < |p.args| && p.args[k].Command? && e.Parsed?
    requires ReadBy(p.args[k].parser, path + [k], e, found)
    ensures ReadBy(p, path, e, found)
  {
    hide IsParsed;
    var inner := e.path[|path| + 1..];
    assert e.path[|path|] == (path + [k])[|path|] == k;
    assert e.path[|path|..] == [k] + inner && ([k] + inner)[1..] == inner;
  }

  lemma {:induction false} NestedReads(
      p: Parser, path: Path, events: seq<Event>, complete: bool, before: set<string>, found: set<string>, i: nat)
    requires Nested(p, path, events, complete, before, found)
    requires i < |events| && events[i].Parsed?
    ensures ReadBy(p, path, events[i], FoundAfter(before, events[..i]))
    decreases |events|
  {
    hide IsFirst, RequiredFound, Spells;
    if i == 0 {
      assert events[..0] == [] && path[|path|..] == [];
    } else {
      assert events[..i][0] == events[0] && events[..i][1..] == events[1..][..i - 1];
      if events[0].Parsed? {
        NestedReads(p, path, events[1..], complete, before + {events[0].name}, found, i - 1);
      } else {
        var k := events[0].index;
        var parser, below, inside := p.args[k].parser, path + [k], Inside(events);
        if Closed(p, path, events, complete, found) && Nested(parser, below, inside, true, before, found) {
          SplitsEnds(events);
          assert inside[..i - 1] == events[1..][..i - 1];
          NestedReads(parser, below, inside, true, before, found, i - 1);
        } else {
          NestedReads(parser, below, events[1..], false, before, found, i - 1);
        }
        ReadDeeper(p, path, k, events[i], FoundAfter(before, events[1..][..i - 1]));
      }
    }
  }

  lemma {:induction false} NestedRequires(
      p: Parser, path: Path, events: seq<Event>, before: set<string>, found: set<string>)
    requires Nested(p, path, events, true, before, found)
    ensures RequiredFound(p, found)
    decreases |events|
  {
    if events != [] && events[0].Parsed? {
      NestedRequires(p, path, events[1..], before + {events[0].name}, found);
    }
  }

  /** What must be new had not been found at the start, and had not been found since. */
  lemma {:induction false} FreshIsNew(found: set<string>, events: seq<Event>, j: nat)
    requires Fresh(found, events) && j < |events|
    requires (events[j].Parsed? && !events[j].sequence) || events[j].Entered?
    ensures events[j].name !in found
    ensures forall i :: 0 <= i < j && !events[i].Entered? ==> events[i].name != events[j].name
    decreases |events|
  {
    if j > 0 {
      FreshIsNew(FoundStep(found, events[0]), events[1..], j - 1);
      assert forall i :: 0 < i < j ==> events[i] == events[1..][i - 1];
    }
  }

  // ---------------------------------------------------------------------------------------------
  // Why a run fails

  ghost predicate IsMissing(args: seq<Arg>, k: nat, found: set<string>) {
    && k < |args| && args[k].required && args[k].name !in found
    && forall i :: 0 <= i < k && args[i].required ==> args[i].name in found
  }

  /** An argument that answers stops the run: found before, no text to take, or a text the host refuses. */
  ghost predicate Refuses(host: Host, arg: Arg, rest: seq<string>, st: State, error: Error) {
    if arg.name in st.found && !IsSequence(arg) then error == Duplicate(arg.name)
    else
      arg.Value? &&
      if arg.kind.Argument? && |rest| == 1 && !HasInline(rest[0]) then error == NoValue(arg.name)
      else
        && error == Rejected(arg.name)
        && exists count: nat, text ::
             count <= |rest| && Spells(arg, rest[..count], text) && !host.accepts(st.log, arg.name, text)
  }

  /** Why a parser cannot go on with `rest` and does not succeed either. */
  ghost predicate Blocked(host: Host, p: Parser, rest: seq<string>, st: State, error: Error) {
    if rest != [] && exists k: nat :: IsFirst(p.args, k, rest[0], st.found) then
      exists k: nat :: IsFirst(p.args, k, rest[0], st.found) && Refuses(host, p.args[k], rest, st, error)
    else if RequiredFound(p, st.found) then
      rest != [] && error == Unrecognized(rest[0])
    else
      exists k: nat :: IsMissing(p.args, k, st.found) && error == Missing(p.args[k].name)
  }

  /** The parser that the events have led to is blocked, or the host refuses to execute its command. */
  ghost predicate Fails(
      host: Host, p: Parser, path: Path, events: seq<Event>, rest: seq<string>, st: State, error: Error)
    decreases |events|
  {
    if events == [] then Blocked(host, p, rest, st, error)
    else if events[0].Parsed? then Fails(host, p, path, events[1..], rest, st, error)
    else
      && events[0].Entered? && events[0].index < |p.args| && p.args[events[0].index].Command?
      && var name := events[0].name;
         || (rest == [] && events[|events| - 1] == Executed(path, name) && Blocked(host, p, rest, st, error))
         || (rest == [] && error == Rejected(name) && !host.executes(st.log, name))
         || Fails(host, p.args[events[0].index].parser, path + [events[0].index], events[1..], rest, st, error)
  }

  /** The events of the run lead to the failure, with the tokens they have not used up. */
  ghost predicate HasCause(host: Host, p: Parser, path: Path, tokens: seq<string>, st: State, r: Outcome) {
    r.Failure? ==>
      && st.log <= r.state.log
      && var events := r.state.log[|st.log|..];
      && Pieces(events) <= tokens
      && Fails(host, p, path, events, tokens[|Pieces(events)|..], r.state, r.error)
  }

  lemma CloseHasCause(host: Host, p: Parser, tokens: seq<string>, st: State)
    requires tokens == [] || FirstMatch(p.args, tokens[0], st.found) == |p.args|
    ensures var r := Close(p, tokens, st); r.Failure? ==> Blocked(host, p, tokens, st, r.error)
  {
    hide FirstMatch, FirstMissing, Answers;
    if tokens != [] {
      FirstMatchIs(p.args, tokens[0], st.found);
    }
    var k := FirstMissing(p.args, st.found);
    if k < |p.args| {
      assert IsMissing(p.args, k, st.found);
    }
  }

  lemma BlockedAtOnce(host: Host, p: Parser, path: Path, tokens: seq<string>, st: State, r: Outcome)
    requires r.Failure? && r.state == st && Blocked(host, p, tokens, st, r.error)
    ensures HasCause(host, p, path, tokens, st, r)
  {
    hide Blocked;
    var events := r.state.log[|st.log|..];
    assert events == [] && Pieces(events) == [];
    assert tokens[0..] == tokens;
  }

  lemma CauseAfterValue(
      host: Host, p: Parser, path: Path, tokens: seq<string>, rest: seq<string>, st: State, e: Event, r: Outcome)
    requires e.Parsed? && tokens == e.piece + rest && HasCause(host, p, path, rest, Mark(st, e.name, e), r)
    ensures HasCause(host, p, path, tokens, st, r)
  {
    hide Blocked;
    if r.Failure? {
      var later := r.state.log[|st.log| + 1..];
      assert r.state.log[|st.log|] == Mark(st, e.name, e).log[|st.log|] == e;
      assert r.state.log[|st.log|..] == [e] + later && ([e] + later)[1..] == later;
      assert tokens[|e.piece| + |Pieces(later)|..] == rest[|Pieces(later)|..];
    }
  }

  lemma CauseInside(
      host: Host, p: Parser, path: Path, k: nat, tokens: seq<string>, st: State, r: Outcome)
    requires k < |p.args| && p.args[k].Command? && tokens != [] && tokens[0] == p.args[k].name
    requires HasCause(host, p.args[k].parser, path + [k], tokens[1..], Enter(st, path, k, p.args[k].name), r)
    ensures HasCause(host, p, path, tokens, st, r)
  {
    hide Blocked;
    if r.Failure? {
      var e := Entered(path, k, p.args[k].name);
      var later := r.state.log[|st.log| + 1..];
      assert r.state.log[|st.log|] == Enter(st, path, k, p.args[k].name).log[|st.log|] == e;
      assert r.state.log[|st.log|..] == [e] + later && ([e] + later)[1..] == later;
      assert Pieces([e] + later) == [tokens[0]] + Pieces(later);
      assert tokens[1 + |Pieces(later)|..] == tokens[1..][|Pieces(later)|..];
    }
  }

  /** A command whose own parser has succeeded, but which is not executed or leaves something missing. */
  lemma CauseAfterCommand(
      host: Host, p: Parser, path: Path, k: nat, tokens: seq<string>, st: State, sub: Outcome, r: Outcome)
    requires MayEnter(p, k, tokens, st) && sub.Success? && r.Failure?
    requires Lawful(host, p.args[k].parser, path + [k], tokens[1..], Enter(st, path, k, p.args[k].name), sub)
    requires
      var name := p.args[k].name;
      || (r == Failure(sub.state, Rejected(name)) && !host.executes(sub.state.log, name))
      || (r.state == Mark(sub.state, name, Executed(path, name)) && Blocked(host, p, [], r.state, r.error))
    ensures HasCause(host, p, path, tokens, st, r)
  {
    hide Blocked, Lawful, Agreed, Nested, IsFirst, Fresh, FoundAfter, CommandsAfter;
    var e, x := Entered(path, k, p.args[k].name), Executed(path, p.args[k].name);
    var inside := EnteredLog(host, p, path, k, tokens, st, sub);
    var events := r.state.log[|st.log|..];
    if r.state == sub.state {
      assert events == [e] + inside;
    } else {
      assert events == [e] + inside + [x];
      ExecutedConsumes(tokens, [e] + inside, x, true);
    }
    assert tokens[|Pieces(events)|..] == [];
  }

  /** A value argument that fails is why its parser is blocked. */
  lemma ValueHasCause(host: Host, p: Parser, k: nat, path: Path, tokens: seq<string>, st: State)
    requires k < |p.args| && tokens != [] && IsFirst(p.args, k, tokens[0], st.found) && p.args[k].Value?
    requires Matches(p.args[k], tokens[0], st.found)
    requires p.args[k].name !in st.found || IsSequence(p.args[k])
    ensures var (status, _, _) := ValueStep(host, p.args[k], path, k, tokens, st);
            status.Failed? ==> Blocked(host, p, tokens, st, status.error)
  {
    hide TakeValue, Matches, IsFirst, Spells, HasInline;
    var arg := p.args[k];
    var taken := TakeValue(arg, tokens);
    LacksIff(arg, tokens, st.found);
    if taken.Taken? {
      TakesIff(arg, tokens, st.found, taken.count, taken.text);
      if !host.accepts(st.log, arg.name, taken.text) {
        assert Refuses(host, arg, tokens, st, Rejected(arg.name));
      }
    }
  }

  /** Every failing run fails for one of these reasons, and reports it. */
  lemma {:induction false} FailureHasCause(host: Host, p: Parser, path: Path, tokens: seq<string>, st: State)
    ensures HasCause(host, p, path, tokens, st, Process(host, p, path, tokens, st))
    decreases |tokens|
  {
    hide FirstMatch, TakeValue, Lawful, Process, Close, IsFirst, Matches, Blocked, HasCause;
    var r := Process(host, p, path, tokens, st);
    if tokens == [] || FirstMatch(p.args, tokens[0], st.found) == |p.args| {
      ProcessStops(host, p, path, tokens, st);
      CloseKeeps(p, tokens, st);
      CloseHasCause(host, p, tokens, st);
      StopsForCause(host, p, path, tokens, st, r);
    } else {
      var k := FirstMatch(p.args, tokens[0], st.found);
      var arg := p.args[k];
      ProcessUnfolds(host, p, path, tokens, st);
      FirstMatchIs(p.args, tokens[0], st.found);
      if arg.name in st.found && !IsSequence(arg) {
        DuplicateBlocks(host, p, k, tokens, st);
        StopsForCause(host, p, path, tokens, st, r);
      } else if arg.Command? {
        CommandHasCause(host, p, path, tokens, st);
      } else {
        ValueConsumes(host, arg, path, k, tokens, st);
        ValueHasCause(host, p, k, path, tokens, st);
        var (status, rest, st') := ValueStep(host, arg, path, k, tokens, st);
        if status.Done? {
          FailureHasCause(host, p, path, rest, st');
          CauseAfterValue(host, p, path, tokens, rest, st, st'.log[|st.log|], r);
        } else {
          StopsForCause(host, p, path, tokens, st, r);
        }
      }
    }
  }

  lemma DuplicateBlocks(host: Host, p: Parser, k: nat, tokens: seq<string>, st: State)
    requires tokens != [] && IsFirst(p.args, k, tokens[0], st.found)
    requires p.args[k].name in st.found && !IsSequence(p.args[k])
    ensures Blocked(host, p, tokens, st, Duplicate(p.args[k].name))
  {
    hide IsFirst;
  }

  lemma StopsForCause(host: Host, p: Parser, path: Path, tokens: seq<string>, st: State, r: Outcome)
    requires r.state == st && (r.Failure? ==> Blocked(host, p, tokens, st, r.error))
    ensures HasCause(host, p, path, tokens, st, r)
  {
    hide Blocked, Fails;
    if r.Failure? {
      BlockedAtOnce(host, p, path, tokens, st, r);
    }
  }

  lemma {:induction false} CommandHasCause(host: Host, p: Parser, path: Path, tokens: seq<string>, st: State)
    requires tokens != []
    requires var k := FirstMatch(p.args, tokens[0], st.found);
             k < |p.args| && p.args[k].Command? && p.args[k].name !in st.found
    ensures HasCause(host, p, path, tokens, st, Process(host, p, path, tokens, st))
    decreases |tokens|, 0
  {
    hide FirstMatch, TakeValue, Lawful, Process, Close, IsFirst, Blocked, HasCause;
    var k := FirstMatch(p.args, tokens[0], st.found);
    var arg := p.args[k];
    var inner := Enter(st, path, k, arg.name);
    var sub := Process(host, arg.parser, path + [k], tokens[1..], inner);
    var r := Process(host, p, path, tokens, st);
    CommandEnds(host, p, path, tokens, st);
    FirstMatchIs(p.args, tokens[0], st.found);
    if sub.Failure? {
      FailureHasCause(host, arg.parser, path + [k], tokens[1..], inner);
      CauseInside(host, p, path, k, tokens, st, r);
    } else {
      ProcessIsLawful(host, arg.parser, path + [k], tokens[1..], inner);
      var after := Mark(sub.state, arg.name, Executed(path, arg.name));
      CloseKeeps(p, [], after);
      CloseHasCause(host, p, [], after);
      if r.Failure? {
        CauseAfterCommand(host, p, path, k, tokens, st, sub, r);
      } else {
        NoCause(host, p, path, tokens, st, r);
      }
    }
  }

  lemma NoCause(host: Host, p: Parser, path: Path, tokens: seq<string>, st: State, r: Outcome)
    requires r.Success?
    ensures HasCause(host, p, path, tokens, st, r)
  {
  }

  // ---------------------------------------------------------------------------------------------
  // The promises of a run from a reset parser

  const CLEAR_STATE: State := State({}, map[], [])

  /** Success consumes every token, in consecutive nonempty pieces. */
  lemma TokensAreConsumed(host: Host, p: Parser, tokens: seq<string>)
    ensures
      var r := Process(host, p, [], tokens, CLEAR_STATE);
      NonemptyPieces(r.state.log) && Pieces(r.state.log) <= tokens && (r.Success? ==> Pieces(r.state.log) == tokens)
  {
    ProcessIsLawful(host, p, [], tokens, CLEAR_STATE);
    var r := Process(host, p, [], tokens, CLEAR_STATE);
    assert r.state.log[0..] == r.state.log;
  }

  /**
   * Every value accepted, even in a failing run: its own parser reads it off the tokens, as the first
   * argument that answers, and the host has agreed to the text they spell.
   */
  lemma ValuesAreSpelled(host: Host, p: Parser, tokens: seq<string>, i: nat)
    requires var log := Process(host, p, [], tokens, CLEAR_STATE).state.log; i < |log| && log[i].Parsed?
    ensures var log := Process(host, p, [], tokens, CLEAR_STATE).state.log;
      && InTree(p, log[i].path)
      && IsParsed(ParserAt(p, log[i].path), log[i].path, log[i], FoundAfter({}, log[..i]))
      && host.accepts(log[..i], log[i].name, log[i].text)
  {
    hide Process, IsParsed;
    ProcessIsLawful(host, p, [], tokens, CLEAR_STATE);
    var r := Process(host, p, [], tokens, CLEAR_STATE);
    var log := r.state.log;
    assert log[0..] == log;
    NestedReads(p, [], log, r.Success?, {}, r.state.found, i);
    assert log[i].path[0..] == log[i].path && [] + log[..i] == log[..i];
  }

  /** Success finds every required argument of the root and of each command entered. */
  lemma RequiredAreFound(host: Host, p: Parser, tokens: seq<string>, e: Event)
    ensures
      var r := Process(host, p, [], tokens, CLEAR_STATE);
      r.Success? ==>
        && RequiredFound(p, r.state.found)
        && (e.Entered? && e in r.state.log ==>
              InTree(p, e.path + [e.index]) && RequiredFound(ParserAt(p, e.path + [e.index]), r.state.found))
  {
    hide Process;
    ProcessIsLawful(host, p, [], tokens, CLEAR_STATE);
    var r := Process(host, p, [], tokens, CLEAR_STATE);
    var log := r.state.log;
    assert log[0..] == log;
    if r.Success? {
      NestedRequires(p, [], log, {}, r.state.found);
      if e.Entered? && e in log {
        var i :| 0 <= i < |log| && log[i] == e;
        NestedAccounts(p, [], log, true, {}, r.state.found, i);
        assert e.path[0..] == e.path;
      }
    }
  }

  /** No argument, option or positional that is not a sequence is parsed twice, even in a failing run. */
  lemma ParsedOnce(host: Host, p: Parser, tokens: seq<string>, i: nat, j: nat)
    requires var log := Process(host, p, [], tokens, CLEAR_STATE).state.log;
             i < j < |log| && log[i].Parsed? && log[j].Parsed? && !log[j].sequence
    ensures var log := Process(host, p, [], tokens, CLEAR_STATE).state.log;
            log[i].name != log[j].name
  {
    hide Process;
    ProcessIsLawful(host, p, [], tokens, CLEAR_STATE);
    var log := Process(host, p, [], tokens, CLEAR_STATE).state.log;
    assert log[0..] == log;
    FreshIsNew({}, log, j);
  }

  /** At most one command per level is entered, and at most one executes: each below the one before, and back. */
  lemma OneCommandPerLevel(host: Host, p: Parser, tokens: seq<string>, i: nat, j: nat)
    requires i < j < |Process(host, p, [], tokens, CLEAR_STATE).state.log|
    ensures
      var log := Process(host, p, [], tokens, CLEAR_STATE).state.log;
      && (log[i].Entered? && log[j].Entered? ==> log[i].path + [log[i].index] <= log[j].path)
      && (log[i].Executed? && log[j].Executed? ==> log[j].path < log[i].path)
  {
    hide Process;
    ProcessIsLawful(host, p, [], tokens, CLEAR_STATE);
    var r := Process(host, p, [], tokens, CLEAR_STATE);
    assert r.state.log[0..] == r.state.log;
    NestedOrder(p, [], r.state.log, r.Success?, {}, r.state.found);
  }

  /** Every parser with a chosen command is in the tree. */
  predicate CommandsInTree(p: Parser, commands: map<Path, string>) {
    forall q :: q in commands ==> InTree(p, q)
  }

  lemma {:induction false} CommandsFrom(commands: map<Path, string>, events: seq<Event>, q: Path) returns (i: nat)
    requires q in CommandsAfter(commands, events) && q !in commands
    ensures i < |events| && events[i].Entered? && events[i].path == q
    decreases |events|
  {
    var e := events[0];
    if e.Entered? && e.path == q {
      i := 0;
    } else {
      i := CommandsFrom(if e.Entered? then commands[e.path := e.name] else commands, events[1..], q);
      i := i + 1;
    }
  }

  lemma ProcessKeepsCommandsInTree(host: Host, p: Parser, tokens: seq<string>, st: State)
    requires CommandsInTree(p, st.commands)
    ensures CommandsInTree(p, Process(host, p, [], tokens, st).state.commands)
  {
    hide Process;
    ProcessIsLawful(host, p, [], tokens, st);
    var r := Process(host, p, [], tokens, st);
    var events := r.state.log[|st.log|..];
    forall q | q in r.state.commands
      ensures InTree(p, q)
    {
      if q !in st.commands {
        var i := CommandsFrom(st.commands, events, q);
        NestedAccounts(p, [], events, r.Success?, st.found, r.state.found, i);
        assert q[0..] == q;
      }
    }
  }
}
