// Command registration, dispatch, and the help command that lists what is registered.
module Cli {
  import opened Wrappers
  import opened CliScan

  const INCORRECT := "Incorrect command parameter(s).  Enter \"help\" to view a list of available commands.\r\n\r\n"
  const UNKNOWN := "Command not recognised.  Enter 'help' to view a list of available commands.\r\n\r\n"
  const HELP_TEXT := "\r\nhelp:\r\n Lists all the registered commands\r\n\r\n"

  /** A command: its word, its help text, how many parameters it takes (negative for any number). */
  datatype Definition = Definition(name: string, help: string, expected: int, isHelp: bool)

  const HELP := Definition("help", HELP_TEXT, 0, true)

  // ----- the interpreter on values -----

  /** The registered commands in order, and where dispatch and help stand in them. */
  datatype State = State(defs: seq<Definition>, current: Option<nat>, helpAt: Option<nat>)

  ghost predicate StateOk(s: State) {
    && s.defs != [] && s.defs[0] == HELP && (forall i :: 0 < i < |s.defs| ==> !s.defs[i].isHelp)
    && (s.current.Some? ==> s.current.value < |s.defs|)
    && (s.helpAt.Some? ==> s.helpAt.value < |s.defs|)
  }

  predicate Matches(input: string, name: string) {
    name <= input && (|input| == |name| || input[|name|] == ' ')
  }

  /** The first command from i on whose word the input starts with. */
  ghost function FirstMatch(defs: seq<Definition>, input: string, i: nat): (r: Option<nat>)
    requires i <= |defs|
    ensures r.Some? ==> i <= r.value < |defs| && Matches(input, defs[r.value].name)
                        && forall j :: i <= j < r.value ==> !Matches(input, defs[j].name)
    ensures r.None? ==> forall j :: i <= j < |defs| ==> !Matches(input, defs[j].name)
    decreases |defs| - i
  {
    if i == |defs| then None
    else if Matches(input, defs[i].name) then Some(i)
    else FirstMatch(defs, input, i + 1)
  }

  ghost predicate Accepts(d: Definition, input: string) {
    d.expected < 0 || Int8(Parameters(input)) == d.expected
  }

  /** What one call to the interpreter writes, whether more is to come, and where it leaves the state. */
  datatype Outcome = Outcome(state: State, text: string, more: bool)

  /** text and more are what the called command itself writes and returns. */
  ghost function Process(s: State, input: string, text: string, more: bool): Outcome
    requires StateOk(s)
  {
    var found := if s.current.Some? then s.current else FirstMatch(s.defs, input, 0);
    if found.None? then Outcome(s, UNKNOWN, false)
    else if s.current.None? && !Accepts(s.defs[found.value], input) then Outcome(s, INCORRECT, false)
    else if s.defs[found.value].isHelp then
      var k := if s.helpAt.Some? then s.helpAt.value else 0;
      var last := k + 1 == |s.defs|;
      Outcome(s.(current := if last then None else found, helpAt := if last then None else Some(k + 1)),
              s.defs[k].help, !last)
    else Outcome(s.(current := if more then found else None), text, more)
  }

  /** A line reaches a command by its characters: it starts with the whole name, and a space or nothing follows. */
  lemma MatchesIff(input: string, name: string)
    ensures Matches(input, name) <==>
            && |name| <= |input| && (forall i :: 0 <= i < |name| ==> input[i] == name[i])
            && (|input| == |name| || input[|name|] == ' ')
  {
  }

  /** A line made of a command's word and parameters reaches commands of that word only. */
  lemma LineMatches(word: string, params: seq<string>, name: string)
    requires Word(word) && Word(name)
    ensures Matches(Line(word, params), name) <==> name == word
  {
    LineStarts(word, params);
    hide Line;
    var line := Line(word, params);
    if Matches(line, name) {
      WordEnds(line, word, name);
    }
  }

  lemma WordEnds(line: string, a: string, b: string)
    requires Word(a) && Word(b) && Matches(line, a) && Matches(line, b)
    ensures a == b
  {
  }

  lemma {:induction false} LineStarts(word: string, params: seq<string>)
    ensures var line := Line(word, params);
            && |word| <= |line| && line[..|word|] == word
            && (|line| == |word| || line[|word|] == ' ')
  {
    if params != [] {
      LineStarts(word, params[..|params| - 1]);
    }
  }

  /** Which command a line at rest runs: the first one it reaches, if that takes as many parameters as the line has
      or any number. Otherwise it is refused, and the state stays. */
  lemma DispatchIs(s: State, input: string, text: string, more: bool, k: nat)
    requires StateOk(s) && s.current == None && k < |s.defs|
    requires Matches(input, s.defs[k].name) && forall j :: 0 <= j < k ==> !Matches(input, s.defs[j].name)
    requires Parameters(input) <= 127
    ensures var d, o := s.defs[k], Process(s, input, text, more);
            && (d.expected >= 0 && d.expected != Parameters(input) ==>
                  o.state == s && o.text == INCORRECT && !o.more)
            && ((d.expected < 0 || d.expected == Parameters(input)) && !d.isHelp ==>
                  && o.state == s.(current := if more then Some(k) else None) && o.text == text && o.more == more)
            && ((d.expected < 0 || d.expected == Parameters(input)) && d.isHelp ==>
                  var at := if s.helpAt.Some? then s.helpAt.value else 0;
                  o.text == s.defs[at].help && (o.more <==> at + 1 < |s.defs|))
  {
    hide Matches;
    Int8Is(Parameters(input));
    FirstIs(s.defs, input, 0, k);
  }

  lemma {:induction false} FirstIs(defs: seq<Definition>, input: string, i: nat, k: nat)
    requires i <= k < |defs| && Matches(input, defs[k].name) && forall j :: i <= j < k ==> !Matches(input, defs[j].name)
    ensures FirstMatch(defs, input, i) == Some(k)
    decreases k - i
  {
    hide Matches;
    if i < k {
      FirstIs(defs, input, i + 1, k);
    }
  }

  /** A line that reaches no command is unknown; a running command gets every line, whatever it says. */
  lemma DispatchElse(s: State, input: string, text: string, more: bool)
    requires StateOk(s)
    ensures s.current == None && (forall j :: 0 <= j < |s.defs| ==> !Matches(input, s.defs[j].name)) ==>
              var o := Process(s, input, text, more);
              o.state == s && o.text == UNKNOWN && !o.more
    ensures s.current.Some? && !s.defs[s.current.value].isHelp ==>
              var o := Process(s, input, text, more);
              o.state == s.(current := if more then s.current else None) && o.text == text && o.more == more
  {
    hide Matches;
  }

  /** A call first decides which command runs. */
  lemma Dispatched(s: State, input: string, text: string, more: bool)
    requires StateOk(s)
    ensures var found := if s.current.Some? then s.current else FirstMatch(s.defs, input, 0);
            if found.None? then Process(s, input, text, more) == Outcome(s, UNKNOWN, false)
            else if s.current.None? && !Accepts(s.defs[found.value], input) then
              Process(s, input, text, more) == Outcome(s, INCORRECT, false)
            else
              && StateOk(s.(current := found))
              && Process(s, input, text, more) == Process(s.(current := found), input, text, more)
  {
    hide FirstMatch, Accepts;
  }

  // ----- the interpreter on its linked list -----

  class Node {
    const def: Definition
    var next: Node?

    constructor (def: Definition)
      ensures this.def == def && next == null
    {
      this.def := def;
      next := null;
    }
  }

  ghost function DefsOf(nodes: seq<Node>): (d: seq<Definition>)
    ensures |d| == |nodes| && forall i :: 0 <= i < |nodes| ==> d[i] == nodes[i].def
  {
    seq(|nodes|, i requires 0 <= i < |nodes| => nodes[i].def)
  }

  /** Where a node first stands in the list, from position i on. */
  ghost function IndexFrom(nodes: seq<Node>, n: Node, i: nat): (r: nat)
    requires i <= |nodes| && n in nodes[i..]
    ensures i <= r < |nodes| && nodes[r] == n
    decreases |nodes| - i
  {
    if nodes[i] == n then i else IndexFrom(nodes, n, i + 1)
  }

  ghost function IndexOf(nodes: seq<Node>, n: Node?): (r: Option<nat>)
    requires n == null || n in nodes
    ensures n != null ==> r.Some? && r.value < |nodes| && nodes[r.value] == n
    ensures n == null ==> r.None?
  {
    if n == null then None else Some(IndexFrom(nodes, n, 0))
  }

  lemma {:induction false} IndexFromAppend(nodes: seq<Node>, item: Node, n: Node, i: nat)
    requires i <= |nodes| && n in nodes[i..]
    ensures n in (nodes + [item])[i..] && IndexFrom(nodes + [item], n, i) == IndexFrom(nodes, n, i)
    decreases |nodes| - i
  {
    assert (nodes + [item])[i..] == nodes[i..] + [item];
    if nodes[i] != n {
      IndexFromAppend(nodes, item, n, i + 1);
    }
  }

  /** Appending a node moves no other one. */
  lemma ListAppend(nodes: seq<Node>, item: Node, n: Node?)
    requires n == null || n in nodes
    ensures n == null || n in nodes + [item]
    ensures IndexOf(nodes + [item], n) == IndexOf(nodes, n)
    ensures DefsOf(nodes + [item]) == DefsOf(nodes) + [item.def]
  {
    hide IndexFrom;
    if n != null {
      assert nodes[0..] == nodes;
      IndexFromAppend(nodes, item, n, 0);
    }
  }

  class Interpreter {
    const first: Node
    var last: Node
    var current: Node?
    var helpAt: Node?
    ghost var nodes: seq<Node>

    ghost predicate Listed()
      reads this, nodes
    {
      && nodes != [] && nodes[0] == first && nodes[|nodes| - 1] == last
      && (forall i, j :: 0 <= i < j < |nodes| ==> nodes[i] != nodes[j])
      && (forall i :: 0 <= i < |nodes| - 1 ==> nodes[i].next == nodes[i + 1])
      && last.next == null
    }

    ghost predicate Valid()
      reads this, nodes
    {
      && Listed()
      && nodes[0].def == HELP && (forall i :: 0 < i < |nodes| ==> !nodes[i].def.isHelp)
      && (current == null || current in nodes) && (helpAt == null || helpAt in nodes)
    }

    ghost function View(): (s: State)
      requires Valid()
      reads this, nodes
      ensures StateOk(s)
    {
      State(DefsOf(nodes), IndexOf(nodes, current), IndexOf(nodes, helpAt))
    }

    constructor ()
      ensures Valid() && View() == State([HELP], None, None) && fresh(nodes)
    {
      var help := new Node(HELP);
      first, last, current, helpAt, nodes := help, help, null, null, [help];
    }

    /** Appends through the tail pointer. */
    method Register(def: Definition)
      requires Valid() && !def.isHelp
      modifies this, last
      ensures Valid() && View() == old(View()).(defs := old(View()).defs + [def])
      ensures fresh(last) && nodes == old(nodes) + [last]
    {
      hide IndexOf, DefsOf;
      var item := new Node(def);
      ListAppend(nodes, item, current);
      ListAppend(nodes, item, helpAt);
      last.next := item;
      last := item;
      nodes := nodes + [item];
    }

    /** Walks the list for the command the input starts with. */
    method Search(input: string) returns (found: Node?)
      requires Valid()
      ensures found == null || found in nodes
      ensures IndexOf(nodes, found) == FirstMatch(DefsOf(nodes), input, 0)
    {
      found := first;
      ghost var i: nat := 0;
      while found != null
        invariant i <= |nodes| && found == if i < |nodes| then nodes[i] else null
        invariant FirstMatch(DefsOf(nodes), input, 0) == FirstMatch(DefsOf(nodes), input, i)
        decreases |nodes| - i
      {
        if Matches(input, found.def.name) {
          assert DefsOf(nodes)[i] == found.def;
          return;
        }
        assert DefsOf(nodes)[i] == found.def;
        found := found.next;
        i := i + 1;
      }
    }

    /** prvHelpCommand: one help text per call. */
    method HelpCommand() returns (text: string, more: bool)
      requires Valid()
      modifies this`helpAt
      ensures Valid()
      ensures var k := if old(View()).helpAt.Some? then old(View()).helpAt.value else 0;
              var last := k + 1 == |old(View()).defs|;
              && text == old(View()).defs[k].help && more == !last
              && View() == old(View()).(helpAt := if last then None else Some(k + 1))
    {
      ghost var before := View();
      ghost var k := if before.helpAt.Some? then before.helpAt.value else 0;
      if helpAt == null {
        helpAt := first;
      }
      assert helpAt == nodes[k] && before.defs[k] == helpAt.def;
      text := helpAt.def.help;
      assert helpAt.next == if k + 1 < |nodes| then nodes[k + 1] else null;
      helpAt := helpAt.next;
      assert helpAt != null ==> nodes[k + 1] in nodes;
      more := helpAt != null;
    }

    /** cbText and cbMore are what a called command other than help writes and returns. */
    method ProcessCommand(input: string, cbText: string, cbMore: bool) returns (text: string, more: bool)
      requires Valid()
      modifies this`current, this`helpAt
      ensures Valid() && Outcome(View(), text, more) == Process(old(View()), input, cbText, cbMore)
    {
      hide Process, IndexOf, DefsOf, StateOk;
      Dispatched(View(), input, cbText, cbMore);
      more := Select(input);
      if current != null && !more {
        text := INCORRECT;
        current := null;
      } else if current != null {
        text, more := Call(input, cbText, cbMore);
      } else {
        text := UNKNOWN;
        more := false;
      }
    }

    /** Lets the running command write, and ends it when it has nothing more. */
    method Call(ghost input: string, cbText: string, cbMore: bool) returns (text: string, more: bool)
      requires Valid() && current != null
      modifies this`current, this`helpAt
      ensures Valid() && Outcome(View(), text, more) == Process(old(View()), input, cbText, cbMore)
    {
      hide FirstMatch, Accepts, IndexOf, DefsOf, StateOk;
      assert View().defs[View().current.value] == current.def;
      if current.def.isHelp {
        text, more := HelpCommand();
      } else {
        text, more := cbText, cbMore;
      }
      Release(more);
    }

    /** Finds the command to run, unless one is already running, and checks its parameter count. */
    method Select(input: string) returns (ok: bool)
      requires Valid()
      modifies this`current
      ensures Valid()
      ensures var before := old(View());
              var found := if before.current.Some? then before.current else FirstMatch(before.defs, input, 0);
              && View() == before.(current := found)
              && (ok <==> found.None? || before.current.Some? || Accepts(before.defs[found.value], input))
    {
      ghost var before := View();
      ok := true;
      if current == null {
        var found := Search(input);
        ghost var at := IndexOf(nodes, found);
        current := found;
        if current != null {
          assert before.defs[at.value] == current.def;
          if current.def.expected >= 0 {
            var count := NumberOfParameters(input);
            if count != current.def.expected {
              ok := false;
            }
          }
        }
      }
    }

    method Release(more: bool)
      requires Valid()
      modifies this`current
      ensures Valid() && View() == if more then old(View()) else old(View()).(current := None)
    {
      ghost var before := View();
      if !more {
        current := null;
      }
    }
  }

  // ----- listing the commands -----

  /** k calls of "help" in a row: the texts written and the state left. */
  ghost function Help(s: State, k: nat): (r: (State, seq<string>))
    requires StateOk(s)
    ensures StateOk(r.0)
  {
    if k == 0 then (s, [])
    else
      var (t, texts) := Help(s, k - 1);
      ProcessKeepsOk(t, "help", "", false);
      var o := Process(t, "help", "", false);
      (o.state, texts + [o.text])
  }

  lemma ProcessKeepsOk(s: State, input: string, text: string, more: bool)
    requires StateOk(s)
    ensures StateOk(Process(s, input, text, more).state)
  {
  }

  lemma HelpIsFirst(s: State)
    requires StateOk(s)
    ensures FirstMatch(s.defs, "help", 0) == Some(0) && Accepts(HELP, "help")
  {
    assert Matches("help", s.defs[0].name);
    NoStarts("help", 0, 4);
  }

  /** Dispatch and help stand at help text k: at rest before the first, within "help" before the others. */
  ghost predicate HelpAt(s: State, k: nat) {
    if k == 0 then s.current == None && s.helpAt == None else s.current == Some(0) && s.helpAt == Some(k)
  }

  lemma HelpOnce(s: State, k: nat)
    requires StateOk(s) && HelpAt(s, k) && k < |s.defs|
    ensures var o := Process(s, "help", "", false);
            && o.text == s.defs[k].help && o.state.defs == s.defs
            && HelpAt(o.state, if k + 1 == |s.defs| then 0 else k + 1)
  {
    hide FirstMatch, Accepts, Matches;
    HelpIsFirst(s);
  }

  /** Repeated help from rest: after k calls the first k help texts, each once and in order of
      registration, and after the last one both cursors are back at rest. */
  lemma {:induction false} HelpListsEachOnce(s: State, k: nat)
    requires StateOk(s) && s.current == None && s.helpAt == None && k <= |s.defs|
    ensures var (t, texts) := Help(s, k);
            && t.defs == s.defs
            && |texts| == k && (forall i :: 0 <= i < k ==> texts[i] == s.defs[i].help)
            && (if k == 0 || k == |s.defs| then t == s else t.current == Some(0) && t.helpAt == Some(k))
  {
    hide StateOk, Process;
    if k > 0 {
      HelpListsEachOnce(s, k - 1);
      HelpOnce(Help(s, k - 1).0, k - 1);
    }
  }
}
