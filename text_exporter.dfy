/** `TextExporter`: a story written as the text that `TextImporter` reads. The writer is the text
    written so far; the file it goes to and its path are not modelled. */
module TextExport {
  import opened Wrappers
  import opened JavaInt
  import opened Tables
  import opened IOUtils
  import opened Decisions
  import opened Choices
  import opened Games
  import opened Handles
  import opened Nodes
  import opened DecisionRoundTrip

  const NULL_STORY := "Story can't be null."

  /** `appendInQuotes`. */
  function Quoted(s: string): string {
    "\"" + s + "\""
  }

  /** One status line entry: the quoted name, its value, and a space after each. */
  function StatusEntry(t: Table<int32>, k: string): string
    requires k in t.values
  {
    Quoted(k) + " " + ToString(t.values[k] as int) + " "
  }

  /** The entries of the statuses from the `i`-th on, in iteration order. */
  function StatusText(t: Table<int32>, i: nat): string
    requires i <= |t.keys|
    decreases |t.keys| - i
  {
    if i == |t.keys| then "" else StatusEntry(t, t.keys[i]) + StatusText(t, i + 1)
  }

  /** The lines `[ <export> ]` of the listed decisions from the `i`-th on. The first decision
      whose export fails stops the writing with its error. */
  function DecisionText(ds: seq<Decision>, listed: seq<DecisionId>, ids: map<ChoiceId, string>, i: nat)
    : Result<string>
    requires Below(listed, |ds|) && i <= |listed|
    decreases |listed| - i
  {
    if i == |listed| then Success("")
    else
      match ExportDecision(ds[listed[i]], ids)
      case Failure(e) => Failure(e)
      case Success(text) => Prepend("[ " + text + " ]\n", DecisionText(ds, listed, ids, i + 1))
  }

  /** The text `s` written before what follows, unless what follows failed. */
  function Prepend(s: string, r: Result<string>): Result<string> {
    match r
    case Failure(e) => Failure(e)
    case Success(t) => Success(s + t)
  }

  /** The option strings of the listed choices from the `i`-th on, one per line. */
  function ChoiceText(order: seq<ChoiceId>, options: map<ChoiceId, string>, i: nat): string
    requires i <= |order| && forall c :: c in order ==> c in options
    decreases |order| - i
  {
    if i == |order| then "" else options[order[i]] + "\n" + ChoiceText(order, options, i + 1)
  }

  /** The id of a choice in the file: its option string up to the first space, `C<i>`. */
  function IdOf(option: string): string {
    option[..FirstSpace(option)]
  }

  /** `choiceIds`, as meant: every choice with an option string gets that string's id. */
  function FileIds(options: map<ChoiceId, string>): (ids: map<ChoiceId, string>)
    ensures ids.Keys == options.Keys
  {
    map c | c in options :: IdOf(options[c])
  }

  /** `choiceIds` as the exporter builds it: the first two characters of each option string. */
  function TruncatedIds(options: map<ChoiceId, string>): (ids: map<ChoiceId, string>)
    requires forall c :: c in options ==> |options[c]| >= 2
    ensures ids.Keys == options.Keys
  {
    map c | c in options :: options[c][..2]
  }

  /** The text written for a story named `name` with statuses `statuses`, from its nodes: the
      quoted name, the status block, the number of choices, the decision block, the option
      block and the id of `current`. */
  function StoryText(name: string, statuses: Table<int32>, nodes: StoryNodes, ds: seq<Decision>,
                     ids: map<ChoiceId, string>, current: ChoiceId): Result<string>
    requires Below(nodes.decisions, |ds|) && current in nodes.choices
    requires forall c :: c in nodes.choices ==> c in nodes.choiceOptions
  {
    match DecisionText(ds, nodes.decisions, ids, 0)
    case Failure(e) => Failure(e)
    case Success(decisions) =>
      Success(Quoted(name) + "\n" + "[ " + StatusText(statuses, 0) + "]\n"
              + ToString(|nodes.choices|) + "\n" + "{\n" + decisions + "}\n"
              + "{\n" + ChoiceText(nodes.choices, nodes.choiceOptions, 0) + "}\n"
              + "C" + ToString(IndexOf(nodes.choices, current)))
  }

  /** What `export(story, path)` writes for a story over the heap `g` whose current choice is
      `start`, with the choice ids as meant. */
  function Exported(g: Graph, name: string, statuses: Table<int32>, start: ChoiceId): Result<string>
    requires Closed(g) && start < |g.options|
  {
    WalkFromProperties(g, start);
    NodesOfStrings(g, start);
    var nodes := NodesOf(g, start);
    StoryText(name, statuses, nodes, g.decisions, FileIds(nodes.choiceOptions), start)
  }

  /** Option strings numbered by their position in `order`, as `StoryNodes` builds them. */
  ghost predicate Numbered(order: seq<ChoiceId>, options: map<ChoiceId, string>, labels: map<ChoiceId, seq<nat>>) {
    && (forall c :: c in options <==> c in order)
    && (forall k :: 0 <= k < |order| ==> order[k] in labels && options[order[k]] == OptionString(k, labels[order[k]]))
  }

  lemma NodesNumbered(g: Graph, start: ChoiceId)
    requires Closed(g) && start < |g.options|
    ensures Numbered(NodesOf(g, start).choices, NodesOf(g, start).choiceOptions, WalkFrom(g, start).ids)
  {
    NodesOfStrings(g, start);
    WalkFromProperties(g, start);
  }

  /** Every option string is `C`, a number and more, so its first two characters exist. */
  lemma NumberedLong(order: seq<ChoiceId>, options: map<ChoiceId, string>, labels: map<ChoiceId, seq<nat>>)
    requires Numbered(order, options, labels)
    ensures forall c :: c in options ==> |options[c]| >= 2
  {
    forall c | c in options
      ensures |options[c]| >= 2
    {
      var k := IndexOf(order, c);
      ToStringShape(k);
      assert options[c] == OptionString(k, labels[order[k]]);
    }
  }

  lemma OptionsLong(g: Graph, start: ChoiceId)
    requires Closed(g) && start < |g.options|
    ensures forall c :: c in NodesOf(g, start).choiceOptions ==> |NodesOf(g, start).choiceOptions[c]| >= 2
  {
    NodesNumbered(g, start);
    NumberedLong(NodesOf(g, start).choices, NodesOf(g, start).choiceOptions, WalkFrom(g, start).ids);
  }

  /** With at most ten positions, the first two characters of each option string are its id. */
  lemma NumberedAgree(order: seq<ChoiceId>, options: map<ChoiceId, string>, labels: map<ChoiceId, seq<nat>>)
    requires Numbered(order, options, labels) && |order| <= 10
    ensures forall c :: c in options ==> |options[c]| >= 2
    ensures TruncatedIds(options) == FileIds(options)
  {
    NumberedLong(order, options, labels);
    forall c | c in options
      ensures options[c][..2] == IdOf(options[c])
    {
      var k := IndexOf(order, c);
      assert options[c] == OptionString(k, labels[order[k]]);
      TruncatedIdsAgree(k, labels[order[k]]);
    }
  }

  /** What `export(story, path)` writes, with the ids the exporter builds: the first two
      characters of each option string. */
  function ExportedAsWritten(g: Graph, name: string, statuses: Table<int32>, start: ChoiceId): Result<string>
    requires Closed(g) && start < |g.options|
  {
    WalkFromProperties(g, start);
    NodesOfStrings(g, start);
    OptionsLong(g, start);
    var nodes := NodesOf(g, start);
    StoryText(name, statuses, nodes, g.decisions, TruncatedIds(nodes.choiceOptions), start)
  }

  /** While at most ten choices are listed, the exporter's ids are the ids as meant, so it writes
      the intended text. */
  lemma AsWrittenUpToTen(g: Graph, name: string, statuses: Table<int32>, start: ChoiceId)
    requires Closed(g) && start < |g.options| && |NodesOf(g, start).choices| <= 10
    ensures ExportedAsWritten(g, name, statuses, start) == Exported(g, name, statuses, start)
  {
    var nodes := NodesOf(g, start);
    NodesNumbered(g, start);
    NumberedAgree(nodes.choices, nodes.choiceOptions, WalkFrom(g, start).ids);
  }

  /** Once eleven positions are numbered, the first two characters of the eleventh option string
      are those of the second: both are `C1`, though the ids differ. */
  lemma NumberedCollide(order: seq<ChoiceId>, options: map<ChoiceId, string>, labels: map<ChoiceId, seq<nat>>)
    requires Numbered(order, options, labels) && |order| > 10
    ensures order[10] in options && order[1] in options
    ensures |options[order[10]]| >= 2 && |options[order[1]]| >= 2
    ensures options[order[10]][..2] == options[order[1]][..2] == "C1"
    ensures IdOf(options[order[10]]) == "C10" && IdOf(options[order[1]]) == "C1"
  {
    TruncatedIdsCollide(labels[order[10]], labels[order[1]]);
  }

  /** Once eleven choices are listed the exporter gives the eleventh the id of the second:
      both are written `C1`, though the intended ids differ. */
  lemma AsWrittenCollides(g: Graph, start: ChoiceId)
    requires Closed(g) && start < |g.options| && |NodesOf(g, start).choices| > 10
    ensures var nodes := NodesOf(g, start);
      && (forall c :: c in nodes.choiceOptions ==> |nodes.choiceOptions[c]| >= 2)
      && nodes.choices[10] != nodes.choices[1]
      && nodes.choices[10] in nodes.choiceOptions && nodes.choices[1] in nodes.choiceOptions
      && TruncatedIds(nodes.choiceOptions)[nodes.choices[10]] == TruncatedIds(nodes.choiceOptions)[nodes.choices[1]] == "C1"
      && FileIds(nodes.choiceOptions)[nodes.choices[10]] == "C10"
  {
    var nodes := NodesOf(g, start);
    NodesNumbered(g, start);
    WalkFromProperties(g, start);
    NumberedLong(nodes.choices, nodes.choiceOptions, WalkFrom(g, start).ids);
    NumberedCollide(nodes.choices, nodes.choiceOptions, WalkFrom(g, start).ids);
  }

  /** `export(story, filePath)`, with the text of the file as the result. Exporting writes the
      story's live statuses and starts the file at its current choice; the choice ids are the
      option strings' first two characters, as the exporter builds them. */
  method ExportStory(story: StoryGame?) returns (r: Result<string>)
    requires story != null ==> story.Valid()
    ensures story == null ==> r == Failure(IllegalArgument(NULL_STORY))
    ensures story != null ==>
      r == ExportedAsWritten(story.arena.graph, story.name, story.statuses.table, story.CurrentChoice())
  {
    if story == null {
      return Failure(IllegalArgument(NULL_STORY));
    }
    var statusLines := StatusLines(story.statuses.table);
    var first := story.CurrentChoice();
    var nodes := CreateNodes(story);
    WalkFromProperties(story.arena.graph, first);
    NodesOfStrings(story.arena.graph, first);
    OptionsLong(story.arena.graph, first);
    var ids := ChoiceIdsOf(nodes.choiceOptions);
    var decisionLines := DecisionLines(story.arena.graph.decisions, nodes.decisions, ids);
    if decisionLines.Failure? {
      return Failure(decisionLines.error);
    }
    var choiceLines := ChoiceLines(nodes.choices, nodes.choiceOptions);
    r := Success(Quoted(story.name) + "\n" + "[ " + statusLines + "]\n"
                 + ToString(|nodes.choices|) + "\n" + "{\n" + decisionLines.value + "}\n"
                 + "{\n" + choiceLines + "}\n"
                 + "C" + ToString(IndexOf(nodes.choices, first)));
  }

  /** The status loop of `export`. */
  method StatusLines(statuses: Table<int32>) returns (text: string)
    ensures text == StatusText(statuses, 0)
  {
    text := "";
    var i := 0;
    while i < |statuses.keys|
      invariant i <= |statuses.keys|
      invariant text + StatusText(statuses, i) == StatusText(statuses, 0)
    {
      text := StatusTurn(statuses, text, i);
      i := i + 1;
    }
    assert text + "" == text;
  }

  lemma StatusStep(t: Table<int32>, i: nat)
    requires i < |t.keys|
    ensures t.keys[i] in t.values && StatusText(t, i) == StatusEntry(t, t.keys[i]) + StatusText(t, i + 1)
  {
  }

  /** One turn of the status loop: the entry of the `i`-th key is written after `text`. */
  function StatusTurn(t: Table<int32>, text: string, i: nat): (r: string)
    requires i < |t.keys|
    ensures r + StatusText(t, i + 1) == text + StatusText(t, i)
  {
    var entry := StatusEntry(t, t.keys[i]);
    Associative(text, entry, StatusText(t, i + 1));
    text + entry
  }

  /** The decision loop of `export`: it stops at the first decision whose export fails. */
  method DecisionLines(ds: seq<Decision>, listed: seq<DecisionId>, ids: map<ChoiceId, string>)
    returns (r: Result<string>)
    requires Below(listed, |ds|)
    ensures r == DecisionText(ds, listed, ids, 0)
  {
    var text := "";
    var j := 0;
    PrependNothing(DecisionText(ds, listed, ids, 0));
    while j < |listed|
      invariant j <= |listed|
      invariant Prepend(text, DecisionText(ds, listed, ids, j)) == DecisionText(ds, listed, ids, 0)
    {
      var e := ExportDecision(ds[listed[j]], ids);
      if e.Failure? {
        return Failure(e.error);
      }
      var line := "[ " + e.value + " ]\n";
      PrependTwice(text, line, DecisionText(ds, listed, ids, j + 1));
      text := text + line;
      j := j + 1;
    }
    assert text + "" == text;
    return Success(text);
  }

  lemma PrependNothing(r: Result<string>)
    ensures Prepend("", r) == r
  {
    if r.Success? {
      assert "" + r.value == r.value;
    }
  }

  lemma PrependTwice(a: string, b: string, r: Result<string>)
    ensures Prepend(a, Prepend(b, r)) == Prepend(a + b, r)
  {
    if r.Success? {
      Associative(a, b, r.value);
    }
  }

  /** The choice loop of `export`: each listed choice's option string on a line. */
  method ChoiceLines(order: seq<ChoiceId>, options: map<ChoiceId, string>) returns (text: string)
    requires forall c :: c in order ==> c in options
    ensures text == ChoiceText(order, options, 0)
  {
    text := "";
    var k := 0;
    while k < |order|
      invariant k <= |order|
      invariant text + ChoiceText(order, options, k) == ChoiceText(order, options, 0)
    {
      var line := options[order[k]] + "\n";
      Associative(text, line, ChoiceText(order, options, k + 1));
      text := text + line;
      k := k + 1;
    }
  }

  /** The loop over `choiceOptions.keySet()` that fills `choiceIds` with the first two
      characters of each option string. */
  method ChoiceIdsOf(options: map<ChoiceId, string>) returns (ids: map<ChoiceId, string>)
    requires forall c :: c in options ==> |options[c]| >= 2
    ensures ids == TruncatedIds(options)
  {
    ids := map[];
    var left := options.Keys;
    while left != {}
      invariant left <= options.Keys
      invariant ids.Keys == options.Keys - left
      invariant forall c :: c in ids ==> ids[c] == options[c][..2]
      decreases left
    {
      var c :| c in left;
      ids := ids[c := options[c][..2]];
      left := left - {c};
    }
  }

  /** Every choice the listed decisions from the `i`-th on refer to has an id. */
  predicate HaveIds(ds: seq<Decision>, listed: seq<DecisionId>, ids: map<ChoiceId, string>, i: nat)
    requires Below(listed, |ds|) && i <= |listed|
  {
    forall j, c :: i <= j < |listed| && c in ReferencedChoices(ds[listed[j]]) ==> c in ids
  }

  lemma HaveIdsStep(ds: seq<Decision>, listed: seq<DecisionId>, ids: map<ChoiceId, string>, i: nat)
    requires Below(listed, |ds|) && i < |listed|
    ensures HaveIds(ds, listed, ids, i) <==>
      HaveIds(ds, listed, ids, i + 1) && forall c :: c in ReferencedChoices(ds[listed[i]]) ==> c in ids
  {
  }

  /** The decision block is written in full exactly when every choice each listed decision
      refers to has an id. */
  lemma {:induction false} DecisionTextSucceeds(ds: seq<Decision>, listed: seq<DecisionId>, ids: map<ChoiceId, string>, i: nat)
    requires Below(listed, |ds|) && i <= |listed|
    ensures DecisionText(ds, listed, ids, i).Success? <==> HaveIds(ds, listed, ids, i)
    decreases |listed| - i
  {
    if i < |listed| {
      DecisionTextSucceeds(ds, listed, ids, i + 1);
      ExportSucceeds(ds[listed[i]], ids);
      HaveIdsStep(ds, listed, ids, i);
    }
  }

  /** The number of an option string is its id: `C<i>` for the choice at position `i`. */
  lemma IdOfOption(index: nat, labels: seq<nat>)
    ensures IdOf(OptionString(index, labels)) == "C" + ToString(index)
  {
    var id := "C" + ToString(index);
    PrintedIntIsWord(index);
    assert IsWord(id) by {
      assert forall j :: 1 <= j < |id| ==> id[j] == ToString(index)[j - 1];
    }
    OptionLayout(id, Labelled(labels));
    IdOfWord(id, "[ " + Labelled(labels) + "]");
  }

  lemma OptionLayout(w: string, r: string)
    ensures w + " [ " + r + "]" == w + [' '] + ("[ " + r + "]")
  {
    var a, b := w + " [ " + r + "]", w + [' '] + ("[ " + r + "]");
    assert |a| == |b|;
    forall i | 0 <= i < |a|
      ensures a[i] == b[i]
    {
      if i < |w| {
      } else if i < |w| + 3 {
      } else {
      }
    }
  }

  /** The id of a text that starts with a word and a space is that word. */
  lemma IdOfWord(w: string, rest: string)
    requires IsWord(w)
    ensures IdOf(w + [' '] + rest) == w
  {
    var s := w + [' '] + rest;
    FirstSpaceAt(s, |w|);
    assert s[..|w|] == w;
  }

  lemma FirstSpaceAt(s: string, i: nat)
    requires i < |s| && s[i] == ' ' && forall j :: 0 <= j < i ==> s[j] != ' '
    ensures FirstSpace(s) == i
  {
  }

  /** With the ids as meant, every listed choice is written as `C` and its position. */
  lemma FileIdsAreChoiceIds(g: Graph, start: ChoiceId)
    requires Closed(g) && start < |g.options|
    ensures var nodes := NodesOf(g, start);
      FileIds(nodes.choiceOptions) == ChoiceIds(nodes.choices)
  {
    WalkFromProperties(g, start);
    NodesOfStrings(g, start);
    var w := WalkFrom(g, start);
    var nodes := NodesOf(g, start);
    forall c | c in nodes.choices
      ensures FileIds(nodes.choiceOptions)[c] == ChoiceIds(nodes.choices)[c]
    {
      var k := IndexOf(nodes.choices, c);
      IdOfOption(k, w.ids[c]);
    }
  }

  /** The decision block of the export from `start`. */
  function DecisionBlock(g: Graph, start: ChoiceId): Result<string>
    requires Closed(g) && start < |g.options|
  {
    WalkFromProperties(g, start);
    var nodes := NodesOf(g, start);
    DecisionText(g.decisions, nodes.decisions, FileIds(nodes.choiceOptions), 0)
  }

  /** Export fails only in the decision block. */
  lemma ExportedBlock(g: Graph, name: string, statuses: Table<int32>, start: ChoiceId)
    requires Closed(g) && start < |g.options|
    ensures Exported(g, name, statuses, start).Success? <==> DecisionBlock(g, start).Success?
  {
  }

  /** The current choice is listed first. */
  lemma StartListedFirst(g: Graph, start: ChoiceId)
    requires Closed(g) && start < |g.options|
    ensures start in NodesOf(g, start).choices && IndexOf(NodesOf(g, start).choices, start) == 0
  {
    WalkFromProperties(g, start);
  }

  /** Export succeeds exactly when every choice a listed decision refers to is itself listed,
      and then the file starts at `C0`: the current choice is listed first. */
  lemma ExportSucceedsWhen(g: Graph, name: string, statuses: Table<int32>, start: ChoiceId)
    requires Closed(g) && start < |g.options|
    ensures var nodes := NodesOf(g, start);
      Exported(g, name, statuses, start).Success? <==>
        forall x, c :: x in nodes.decisions && x < |g.decisions| && c in ReferencedChoices(g.decisions[x]) ==>
          c in nodes.choices
    ensures Exported(g, name, statuses, start).Success? ==>
      start in NodesOf(g, start).choices && IndexOf(NodesOf(g, start).choices, start) == 0
  {
    WalkFromProperties(g, start);
    NodesOfStrings(g, start);
    StartListedFirst(g, start);
    ExportedBlock(g, name, statuses, start);
    var nodes := NodesOf(g, start);
    var ids := FileIds(nodes.choiceOptions);
    DecisionTextSucceeds(g.decisions, nodes.decisions, ids, 0);
    HaveIdsOfMembers(g.decisions, nodes.decisions, ids);
  }

  /** `HaveIds` over the whole list, by member. */
  lemma HaveIdsOfMembers(ds: seq<Decision>, listed: seq<DecisionId>, ids: map<ChoiceId, string>)
    requires Below(listed, |ds|)
    ensures HaveIds(ds, listed, ids, 0) <==>
      forall x, c :: x in listed && x < |ds| && c in ReferencedChoices(ds[x]) ==> c in ids
  {
    if HaveIds(ds, listed, ids, 0) {
      forall x, c | x in listed && x < |ds| && c in ReferencedChoices(ds[x])
        ensures c in ids
      {
        var j := IndexOf(listed, x);
      }
    }
  }

  /** A story whose decisions refer only to their own possible outcomes, as every decision the
      creator builds does, always exports. */
  lemma OutcomesOnlyExport(g: Graph, name: string, statuses: Table<int32>, start: ChoiceId)
    requires Closed(g) && start < |g.options|
    requires forall x, c :: 0 <= x < |g.decisions| && c in ReferencedChoices(g.decisions[x]) ==>
      c in PossibleOutcomes(g.decisions[x])
    ensures Exported(g, name, statuses, start).Success?
  {
    WalkFromProperties(g, start);
    ExportSucceedsWhen(g, name, statuses, start);
  }

  /** The exporter's ids are the option strings' first two characters, which is the id only
      while the position has one digit: choice 10 gets `C1`, the id of choice 1. */
  lemma TruncatedIdsCollide(labels: seq<nat>, others: seq<nat>)
    ensures OptionString(10, labels)[..2] == OptionString(1, others)[..2] == "C1"
    ensures IdOf(OptionString(10, labels)) == "C10" && IdOf(OptionString(1, others)) == "C1"
  {
    assert ToString(10) == "10" by {
      assert NatToString(1) == "1";
      assert NatToString(10) == NatToString(1) + [DigitChar(0)];
    }
    assert ToString(1) == "1";
    IdOfOption(10, labels);
    IdOfOption(1, others);
  }

  /** Below ten choices the truncated ids are the ids as meant. */
  lemma TruncatedIdsAgree(index: nat, labels: seq<nat>)
    requires index < 10
    ensures |OptionString(index, labels)| >= 2
    ensures OptionString(index, labels)[..2] == IdOf(OptionString(index, labels))
  {
    IdOfOption(index, labels);
    assert ToString(index) == [DigitChar(index)];
  }
}
