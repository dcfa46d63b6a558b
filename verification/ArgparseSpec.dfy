/**
 * `ArgumentParser` as a function of its tokens and of the state kept at the root: the set of found
 * names, the command chosen at each parser, and a log of what has been accepted.
 */
module ArgparseSpec {

  /** Arguments, options and positionals; commands are apart because they own a parser. */
  datatype ValueKind = Argument | Option | Positional

  datatype Arg =
    | Value(kind: ValueKind, name: string, alias: string, flag: char, required: bool, sequence: bool)
    | Command(name: string, required: bool, parser: Parser)

  /** A parser is its argument list. An inherited argument appears in the list of parent and child. */
  datatype Parser = Parser(args: seq<Arg>)

  /** No short form. */
  const NO_FLAG: char := '\0'

  /** Which parser of the tree: the positions of the commands that lead to it. */
  type Path = seq<nat>

  datatype Event =
    | Parsed(path: Path, index: nat, name: string, sequence: bool, piece: seq<string>, text: string)
    | Entered(path: Path, index: nat, name: string)
    | Executed(path: Path, name: string)

  datatype State = State(found: set<string>, commands: map<Path, string>, log: seq<Event>)

  /** Conversion, choices and actions: opaque, and free to depend on everything accepted so far. */
  datatype Host = Host(
    accepts: (seq<Event>, string, string) -> bool,
    executes: (seq<Event>, string) -> bool)

  datatype Error =
    | EmptyList | InvalidOffset
    | Duplicate(name: string) | NoValue(name: string) | Rejected(name: string)
    | Missing(name: string) | Unrecognized(token: string)

  /** `rest` is what the span still holds on return. */
  datatype Outcome = Success(state: State, rest: seq<string>) | Failure(state: State, error: Error)

  /** Index of the first `c` in `s`, or -1. */
  function FindChar(s: string, c: char): (k: int)
    ensures k == -1 ==> c !in s
    ensures k != -1 ==> 0 <= k < |s| && s[k] == c && c !in s[..k]
  {
    if s == "" then -1 else if s[0] == c then 0
    else
      var k := FindChar(s[1..], c);
      if k == -1 then -1 else
        assert s[..k + 1] == [s[0]] + s[1..][..k];
        k + 1
  }

  predicate IsLong(token: string) {
    |token| >= 2 && token[0] == '-' && token[1] == '-'
  }

  /** The long form of one name: `--name` or `--name=...`. */
  predicate MatchesLong(token: string, param: string) {
    param != "" && IsLong(token) &&
    var input := token[2..];
    var equal := FindChar(input, '=');
    param == input || (equal != -1 && param == input[..equal])
  }

  /** `ArgumentBase::Match`. */
  predicate MatchesFlags(arg: Arg, token: string)
    requires arg.Value?
  {
    && token != "" && token[0] == '-'
    && ((arg.flag != NO_FLAG && |token| == 2 && token[1] == arg.flag)
        || MatchesLong(token, arg.name) || MatchesLong(token, arg.alias))
  }

  predicate IsSequence(arg: Arg) {
    arg.Value? && arg.sequence
  }

  predicate Matches(arg: Arg, token: string, found: set<string>) {
    match arg
    case Command(name, _, _) => name == token
    case Value(Positional, name, _, _, _, sequence) => sequence || name !in found
    case Value(_, _, _, _, _, _) => MatchesFlags(arg, token)
  }

  /** The first argument that matches: the search in `Process`. */
  function FirstMatch(args: seq<Arg>, token: string, found: set<string>): (k: nat)
    ensures k <= |args|
    ensures k < |args| ==> Matches(args[k], token, found)
    ensures forall i :: 0 <= i < k ==> !Matches(args[i], token, found)
  {
    if args == [] || Matches(args[0], token, found) then 0
    else 1 + FirstMatch(args[1..], token, found)
  }

  /** What a value argument takes: its text and how many tokens it uses up; none if one is lacking. */
  datatype Taken = Lacking | Taken(text: string, count: nat)

  function TakeValue(arg: Arg, tokens: seq<string>): (t: Taken)
    requires arg.Value? && tokens != []
    ensures t.Taken? ==> 0 < t.count <= |tokens|
  {
    var token := tokens[0];
    var next := if |tokens| == 1 then Lacking else Taken(tokens[1], 2);
    match arg.kind
    case Option => Taken("", 1)
    case Positional => Taken(token, 1)
    case Argument =>
      if IsLong(token) then
        var equal := FindChar(token, '=');
        if equal != -1 then Taken(token[equal + 1..], 1) else next
      else if |token| > 2 then Taken(token[2..], 1)
      else next
  }

  // ---------------------------------------------------------------------------------------------
  // The same by how tokens are spelled

  /** `--param` or `--param=...`. */
  ghost predicate AnswersLong(token: string, param: string) {
    param != "" && (token == "--" + param || ('=' !in param && exists v :: token == "--" + param + "=" + v))
  }

  /** Which tokens an argument answers to. */
  ghost predicate Answers(arg: Arg, token: string, found: set<string>) {
    match arg
    case Command(name, _, _) => token == name
    case Value(Positional, name, _, _, _, sequence) => sequence || name !in found
    case Value(_, name, alias, flag, _, _) =>
      (flag != NO_FLAG && token == "-" + [flag]) || AnswersLong(token, name) || AnswersLong(token, alias)
  }

  /** `--param=text`, where `text` starts after the first equals sign. */
  ghost predicate Inline(token: string, text: string) {
    exists p :: '=' !in p && token == "--" + p + "=" + text
  }

  ghost predicate HasInline(token: string) {
    exists text :: Inline(token, text)
  }

  /** What a value argument is given by the tokens it uses up. */
  ghost predicate Spells(arg: Arg, piece: seq<string>, text: string)
    requires arg.Value?
  {
    match arg.kind
    case Option => |piece| == 1 && text == ""
    case Positional => piece == [text]
    case Argument =>
      || (|piece| == 1 && Inline(piece[0], text))
      || (|piece| == 2 && !HasInline(piece[0]) && piece[1] == text)
  }

  lemma FindCharIs(s: string, c: char, k: nat)
    requires k < |s| && s[k] == c && c !in s[..k]
    ensures FindChar(s, c) == k
  {
    hide FindChar;
  }

  lemma AnswersMatches(token: string, param: string)
    requires AnswersLong(token, param)
    ensures MatchesLong(token, param)
  {
    hide FindChar;
    if token == "--" + param {
      assert token[2..] == param;
    } else {
      var v :| token == "--" + param + "=" + v;
      var input := param + "=" + v;
      assert token[2..] == input;
      assert input[..|param|] == param;
      FindCharIs(input, '=', |param|);
    }
  }

  lemma MatchesAnswers(token: string, param: string)
    requires MatchesLong(token, param)
    ensures AnswersLong(token, param)
  {
    hide FindChar;
    var input := token[2..];
    assert token == "--" + input;
    if param != input {
      var k := FindChar(input, '=');
      assert input == param + "=" + input[k + 1..];
      assert token == "--" + param + "=" + input[k + 1..];
    }
  }

  lemma MatchesLongIff(token: string, param: string)
    ensures MatchesLong(token, param) <==> AnswersLong(token, param)
  {
    hide MatchesLong, AnswersLong;
    if AnswersLong(token, param) {
      AnswersMatches(token, param);
    }
    if MatchesLong(token, param) {
      MatchesAnswers(token, param);
    }
  }

  /** `Match` accepts exactly the tokens an argument answers to. */
  lemma MatchesIff(arg: Arg, token: string, found: set<string>)
    ensures Matches(arg, token, found) <==> Answers(arg, token, found)
  {
    hide MatchesLong, AnswersLong;
    if arg.Value? && !arg.kind.Positional? {
      MatchesLongIff(token, arg.name);
      MatchesLongIff(token, arg.alias);
      LongStarts(token, arg.name);
      LongStarts(token, arg.alias);
      assert |token| == 2 && token[0] == '-' ==> token == "-" + [token[1]];
    }
  }

  lemma LongStarts(token: string, param: string)
    ensures AnswersLong(token, param) ==> IsLong(token)
  {
  }

  lemma InlineIff(token: string, text: string)
    ensures Inline(token, text)
       <==> IsLong(token) && FindChar(token, '=') != -1 && text == token[FindChar(token, '=') + 1..]
  {
    hide FindChar;
    if Inline(token, text) {
      var p :| '=' !in p && token == "--" + p + "=" + text;
      assert token[..|p| + 2] == "--" + p;
      FindCharIs(token, '=', |p| + 2);
    }
    var k := FindChar(token, '=');
    if IsLong(token) && k != -1 && text == token[k + 1..] {
      assert k >= 2;
      var p := token[2..k];
      assert forall i :: 0 <= i < |p| ==> p[i] == token[..k][i + 2];
      assert token == "--" + p + "=" + text;
    }
  }

  lemma HasInlineIff(token: string)
    ensures HasInline(token) <==> IsLong(token) && FindChar(token, '=') != -1
  {
    hide FindChar, Inline;
    if HasInline(token) {
      var text :| Inline(token, text);
      InlineIff(token, text);
    }
    if IsLong(token) && FindChar(token, '=') != -1 {
      InlineIff(token, token[FindChar(token, '=') + 1..]);
    }
  }

  /** The tokens an argument with a value matches: a long form, or a dash and one more character. */
  lemma MatchIsShort(arg: Arg, token: string, found: set<string>)
    requires arg.Value? && arg.kind.Argument? && Matches(arg, token, found)
    ensures IsLong(token) || |token| == 2
  {
  }

  /** A value argument takes a text exactly when its tokens spell it, ... */
  lemma TakesIff(arg: Arg, tokens: seq<string>, found: set<string>, count: nat, text: string)
    requires arg.Value? && tokens != [] && Matches(arg, tokens[0], found)
    ensures TakeValue(arg, tokens) == Taken(text, count) <==> count <= |tokens| && Spells(arg, tokens[..count], text)
  {
    hide FindChar, Inline, HasInline, Matches;
    assert |tokens| > 0 ==> tokens[..1] == [tokens[0]];
    if arg.kind.Argument? {
      MatchIsShort(arg, tokens[0], found);
      HasInlineIff(tokens[0]);
      InlineIff(tokens[0], text);
    }
  }

  /** ... and lacks one exactly when it needs a further token and there is none. */
  lemma LacksIff(arg: Arg, tokens: seq<string>, found: set<string>)
    requires arg.Value? && tokens != [] && Matches(arg, tokens[0], found)
    ensures TakeValue(arg, tokens) == Lacking <==> arg.kind.Argument? && |tokens| == 1 && !HasInline(tokens[0])
  {
    hide FindChar, HasInline, Matches;
    if arg.kind.Argument? {
      MatchIsShort(arg, tokens[0], found);
      HasInlineIff(tokens[0]);
    }
  }

  /** The three ways to give an argument its text, for every name without an equals sign. */
  lemma ArgumentForms(arg: Arg, name: string, text: string, rest: seq<string>)
    requires arg.Value? && arg.kind.Argument? && '=' !in name
    ensures TakeValue(arg, ["--" + name + "=" + text] + rest) == Taken(text, 1)
    ensures TakeValue(arg, ["--" + name] + rest) == if rest == [] then Lacking else Taken(rest[0], 2)
    ensures TakeValue(arg, ["-" + [arg.flag]] + rest) == if rest == [] then Lacking else Taken(rest[0], 2)
  {
    hide FindChar, Inline;
    var token := "--" + name + "=" + text;
    assert Inline(token, text) by { NameIsInline(name, text); }
    InlineIff(token, text);
    NoEqualsInside(name);
    assert |"-" + [arg.flag]| == 2;
    if arg.flag == '-' {
      assert "-" + [arg.flag] == "--" + "";
      NoEqualsInside("");
    }
  }

  lemma NameIsInline(name: string, text: string)
    requires '=' !in name
    ensures Inline("--" + name + "=" + text, text)
  {
  }

  lemma NoEqualsInside(name: string)
    requires '=' !in name
    ensures FindChar("--" + name, '=') == -1
  {
    hide FindChar;
    assert '=' !in "--" + name;
  }

  /** The closing checks of `Process`. */
  function Close(p: Parser, tokens: seq<string>, st: State): Outcome {
    var k := FirstMissing(p.args, st.found);
    if k < |p.args| then Failure(st, Missing(p.args[k].name))
    else if tokens != [] then Failure(st, Unrecognized(tokens[0]))
    else Success(st, tokens)
  }

  function FirstMissing(args: seq<Arg>, found: set<string>): (k: nat)
    ensures k <= |args|
    ensures k < |args| ==> args[k].required && args[k].name !in found
    ensures forall i :: 0 <= i < k ==> args[i].required ==> args[i].name in found
  {
    if args == [] || (args[0].required && args[0].name !in found) then 0
    else 1 + FirstMissing(args[1..], found)
  }

  function Mark(st: State, name: string, event: Event): State {
    st.(found := st.found + {name}, log := st.log + [event])
  }

  /** `ArgumentParser::Process`, one token group at a time. */
  function Process(host: Host, p: Parser, path: Path, tokens: seq<string>, st: State): (r: Outcome)
    ensures r.Success? ==> r.rest == []
    decreases |tokens|
  {
    if tokens == [] then Close(p, tokens, st)
    else
      var k := FirstMatch(p.args, tokens[0], st.found);
      if k == |p.args| then Close(p, tokens, st)
      else
        var arg := p.args[k];
        if arg.name in st.found && !IsSequence(arg) then Failure(st, Duplicate(arg.name))
        else if arg.Command? then
          var sub := Process(host, arg.parser, path + [k], tokens[1..], Enter(st, path, k, arg.name));
          if sub.Failure? then sub
          else if !host.executes(sub.state.log, arg.name) then Failure(sub.state, Rejected(arg.name))
          else Process(host, p, path, sub.rest, Mark(sub.state, arg.name, Executed(path, arg.name)))
        else
          var taken := TakeValue(arg, tokens);
          if taken.Lacking? then Failure(st, NoValue(arg.name))
          else if !host.accepts(st.log, arg.name, taken.text) then Failure(st, Rejected(arg.name))
          else
            var event := Parsed(path, k, arg.name, IsSequence(arg), tokens[..taken.count], taken.text);
            Process(host, p, path, tokens[taken.count..], Mark(st, arg.name, event))
  }

  /** `ArgumentCommand::Parse` before it hands over to the command's own parser. */
  function Enter(st: State, path: Path, index: nat, name: string): State {
    st.(commands := st.commands[path := name], log := st.log + [Entered(path, index, name)])
  }

  /** How a call reports back, and the outcome it amounts to. */
  datatype Status = Done | Failed(error: Error)

  function ToOutcome(status: Status, st: State, rest: seq<string>): Outcome {
    match status case Done => Success(st, rest) case Failed(error) => Failure(st, error)
  }

  /** One value argument: how it leaves the span and the state. */
  function ValueStep(host: Host, arg: Arg, path: Path, k: nat, tokens: seq<string>, st: State)
    : (Status, seq<string>, State)
    requires arg.Value? && tokens != []
  {
    var taken := TakeValue(arg, tokens);
    if taken.Lacking? then (Failed(NoValue(arg.name)), tokens, st)
    else if !host.accepts(st.log, arg.name, taken.text) then (Failed(Rejected(arg.name)), tokens, st)
    else
      (Done, tokens[taken.count..],
       Mark(st, arg.name, Parsed(path, k, arg.name, IsSequence(arg), tokens[..taken.count], taken.text)))
  }

  lemma ProcessStops(host: Host, p: Parser, path: Path, tokens: seq<string>, st: State)
    requires tokens == [] || FirstMatch(p.args, tokens[0], st.found) == |p.args|
    ensures Process(host, p, path, tokens, st) == Close(p, tokens, st)
  {
  }

  /** One turn of the loop, case by case. */
  lemma ProcessUnfolds(host: Host, p: Parser, path: Path, tokens: seq<string>, st: State)
    requires tokens != []
    ensures
      var r := Process(host, p, path, tokens, st);
      var k := FirstMatch(p.args, tokens[0], st.found);
      k < |p.args| ==>
        var arg := p.args[k];
        if arg.name in st.found && !IsSequence(arg) then r == Failure(st, Duplicate(arg.name))
        else if arg.Command? then
          var sub := Process(host, arg.parser, path + [k], tokens[1..], Enter(st, path, k, arg.name));
          if sub.Failure? then r == sub
          else if !host.executes(sub.state.log, arg.name) then r == Failure(sub.state, Rejected(arg.name))
          else r == Process(host, p, path, sub.rest, Mark(sub.state, arg.name, Executed(path, arg.name)))
        else
          var (status, rest, st') := ValueStep(host, arg, path, k, tokens, st);
          r == if status.Failed? then Failure(st', status.error)
               else Process(host, p, path, rest, st')
  {
  }

  // ---------------------------------------------------------------------------------------------
  // The tree

  /** `path` leads to a parser below `p`. */
  predicate InTree(p: Parser, path: Path) {
    path == [] || (path[0] < |p.args| && p.args[path[0]].Command? && InTree(p.args[path[0]].parser, path[1..]))
  }

  function ParserAt(p: Parser, path: Path): Parser
    requires InTree(p, path)
  {
    if path == [] then p else ParserAt(p.args[path[0]].parser, path[1..])
  }
}
