/** `TextImporter`: a story file read token by token. The file holds, in order, the quoted story
    name, the status block `[ "<name>" <value> … ]`, the number of choices, the decision block
    `{ [ <decision> ] … }`, the option block `{ C<i> [ D<j> … ] … }` and the id of the initial
    choice. The file system is a map from paths to file contents. */
module TextImport {
  import opened Wrappers
  import opened JavaInt
  import opened Tables
  import opened IOUtils
  import opened Decisions
  import opened Choices
  import opened Games
  import opened DecisionReader
  import opened Handles

  const ILLEGAL_STORY := "Illegal format - not a valid story file"
  const FILE_NOT_FOUND := "File not found"
  const NULL_FILENAME := "Filename can't be null"

  /** What a story file describes: the name, the statuses, every choice's option list (by
      decision number), the decisions in file order, and the initial choice. */
  datatype StoryFile = StoryFile(name: string, statuses: Table<int32>, options: seq<seq<DecisionId>>,
                                 decisions: seq<Decision>, initial: ChoiceId)

  /** The choices `0 .. n-1` of a fresh heap, in creation order. */
  function Range(n: nat): (r: seq<nat>)
    ensures |r| == n && forall i :: 0 <= i < n ==> r[i] == i
  {
    seq(n, i => i)
  }

  /** The option lists of `n` new choices: all empty. */
  function Blank(n: nat): (r: seq<seq<DecisionId>>)
    ensures |r| == n && forall i :: 0 <= i < n ==> r[i] == []
  {
    seq(n, _ => [])
  }

  /** The status loop of `readStatuses`: until the name read is `]`, an int is read and stored
      under the name (a repeated name keeps its place and takes the last value). */
  function StatusEntries(next: string, ts: seq<string>, acc: Table<int32>): (r: Result<Parsed<Table<int32>>>)
    ensures r.Success? ==> |r.value.rest| <= |ts|
    decreases |ts|
  {
    if next == "]" then Success(Parsed(acc, ts))
    else
      match NextInt(ts, ILLEGAL_STORY)
      case Failure(e) => Failure(e)
      case Success(v) =>
        match QuotedToken(v.rest, ILLEGAL_STORY)
        case Failure(e) => Failure(e)
        case Success(n) => StatusEntries(n.value, n.rest, Put(acc, next, v.value))
  }

  /** `readStatuses`: an opening token that is not compared with anything, then the entries. */
  function ReadStatuses(ts: seq<string>): (r: Result<Parsed<Table<int32>>>)
    ensures r.Success? ==> |r.value.rest| < |ts|
  {
    match QuotedToken(ts, ILLEGAL_STORY)
    case Failure(e) => Failure(e)
    case Success(opener) =>
      match QuotedToken(opener.rest, ILLEGAL_STORY)
      case Failure(e) => Failure(e)
      case Success(next) => StatusEntries(next.value, next.rest, Empty())
  }

  /** Every choice the decisions refer to is one of `choices`. */
  predicate Refer(ds: seq<Decision>, choices: seq<ChoiceId>) {
    forall k, c :: 0 <= k < |ds| && c in ReferencedChoices(ds[k]) ==> c in choices
  }

  /** The two loops of `readDecisions`, from the token `next` just read. Between groups
      (`inner` false) `}` ends the block; inside a group only `]` ends it, and any other token
      stands before a decision, which is read and numbered in file order. */
  function DecisionEntries(next: string, ts: seq<string>, choices: seq<ChoiceId>, acc: seq<Decision>, inner: bool)
    : (r: Result<Parsed<seq<Decision>>>)
    ensures r.Success? ==> |r.value.rest| <= |ts| && acc <= r.value.value
    ensures r.Success? && Refer(acc, choices) ==> Refer(r.value.value, choices)
    decreases |ts|
  {
    if !inner && next == "}" then Success(Parsed(acc, ts))
    else if next == "]" then
      match QuotedToken(ts, ILLEGAL_STORY)
      case Failure(e) => Failure(e)
      case Success(n) => DecisionEntries(n.value, n.rest, choices, acc, false)
    else
      match ImportDecision(ts, choices)
      case Failure(e) => Failure(e)
      case Success(d) =>
        match QuotedToken(d.rest, ILLEGAL_STORY)
        case Failure(e) => Failure(e)
        case Success(n) => DecisionEntries(n.value, n.rest, choices, acc + [d.value], true)
  }

  /** The groups of `readDecisions` start after its two first tokens. */
  lemma ReadDecisionsOpen(ts: seq<string>, choices: seq<ChoiceId>)
    requires QuotedToken(ts, ILLEGAL_STORY).Success?
    requires QuotedToken(QuotedToken(ts, ILLEGAL_STORY).value.rest, ILLEGAL_STORY).Success?
    ensures var next := QuotedToken(QuotedToken(ts, ILLEGAL_STORY).value.rest, ILLEGAL_STORY).value;
      ReadDecisions(ts, choices) == DecisionEntries(next.value, next.rest, choices, [], false)
  {
  }

  /** `readDecisions`: an opening token, then the groups. */
  function ReadDecisions(ts: seq<string>, choices: seq<ChoiceId>): (r: Result<Parsed<seq<Decision>>>)
    ensures r.Success? ==> |r.value.rest| < |ts|
    ensures r.Success? ==> Refer(r.value.value, choices)
  {
    match QuotedToken(ts, ILLEGAL_STORY)
    case Failure(e) => Failure(e)
    case Success(opener) =>
      match QuotedToken(opener.rest, ILLEGAL_STORY)
      case Failure(e) => Failure(e)
      case Success(next) => DecisionEntries(next.value, next.rest, choices, [], false)
  }

  /** Every option list only names decisions below `m`. */
  predicate OptionsBelow(opts: seq<seq<DecisionId>>, m: nat) {
    forall c, k :: 0 <= c < |opts| && 0 <= k < |opts[c]| ==> opts[c][k] < m
  }

  /** The outer loop of `addOptions`, from the token `next` just read: `}` ends the block;
      otherwise `next` is a choice id, an opening token follows, and then that choice's
      decision ids. The id's letter is not checked. */
  function OptionEntries(next: string, ts: seq<string>, opts: seq<seq<DecisionId>>, m: nat)
    : (r: Result<Parsed<seq<seq<DecisionId>>>>)
    ensures r.Success? ==> |r.value.rest| <= |ts| && |r.value.value| == |opts|
    ensures r.Success? && OptionsBelow(opts, m) ==> OptionsBelow(r.value.value, m)
    decreases |ts|, 1
  {
    if next == "}" then Success(Parsed(opts, ts))
    else
      match GetNumId(next, ILLEGAL_STORY)
      case Failure(e) => Failure(e)
      case Success(c) =>
        match QuotedToken(ts, ILLEGAL_STORY)
        case Failure(e) => Failure(e)
        case Success(opener) =>
          match QuotedToken(opener.rest, ILLEGAL_STORY)
          case Failure(e) => Failure(e)
          case Success(first) => OptionList(c, first.value, first.rest, opts, m)
  }

  /** The inner loop of `addOptions` for choice number `c`: until `]`, each decision id's decision
      is appended to that choice's list. Neither number is range-checked before `List.get`, and
      the choice is looked up before the decision id is read. */
  function OptionList(c: int32, next: string, ts: seq<string>, opts: seq<seq<DecisionId>>, m: nat)
    : (r: Result<Parsed<seq<seq<DecisionId>>>>)
    ensures r.Success? ==> |r.value.rest| <= |ts| && |r.value.value| == |opts|
    ensures r.Success? && OptionsBelow(opts, m) ==> OptionsBelow(r.value.value, m)
    decreases |ts|, 0
  {
    if next == "]" then
      match QuotedToken(ts, ILLEGAL_STORY)
      case Failure(e) => Failure(e)
      case Success(n) => OptionEntries(n.value, n.rest, opts, m)
    else if c < 0 || c as int >= |opts| then Failure(IndexOutOfBounds)
    else
      match GetNumId(next, ILLEGAL_STORY)
      case Failure(e) => Failure(e)
      case Success(k) =>
        if k < 0 || k as int >= m then Failure(IndexOutOfBounds)
        else
          match QuotedToken(ts, ILLEGAL_STORY)
          case Failure(e) => Failure(e)
          case Success(n) => OptionList(c, n.value, n.rest, opts[c := opts[c] + [k as nat]], m)
  }

  /** `addOptions`: an opening token, then the entries. */
  function ReadOptions(ts: seq<string>, opts: seq<seq<DecisionId>>, m: nat): (r: Result<Parsed<seq<seq<DecisionId>>>>)
    ensures r.Success? ==> |r.value.rest| < |ts| && |r.value.value| == |opts|
    ensures r.Success? && OptionsBelow(opts, m) ==> OptionsBelow(r.value.value, m)
  {
    match QuotedToken(ts, ILLEGAL_STORY)
    case Failure(e) => Failure(e)
    case Success(opener) =>
      match QuotedToken(opener.rest, ILLEGAL_STORY)
      case Failure(e) => Failure(e)
      case Success(next) => OptionEntries(next.value, next.rest, opts, m)
  }

  /** The number of choices to create: the loop `for (i = 0; i < n; i++)` runs no time for a
      negative `n`. */
  function ChoiceCount(n: int32): nat {
    if n < 0 then 0 else n as nat
  }

  lemma BlankBelow(n: nat, m: nat)
    ensures OptionsBelow(Blank(n), m)
  {
  }

  /** Decisions that refer to the choices `0 .. n-1` and `n` option lists that name only those
      decisions make a closed heap. */
  lemma ReadClosed(options: seq<seq<DecisionId>>, decisions: seq<Decision>, n: nat)
    requires |options| == n && OptionsBelow(options, |decisions|) && Refer(decisions, Range(n))
    ensures Closed(Graph(options, decisions))
  {
    var g := Graph(options, decisions);
    forall d | 0 <= d < |decisions|
      ensures Points(g, decisions[d])
    {
      forall c | c in ReferencedChoices(decisions[d])
        ensures c < n
      {
        assert c in Range(n);
      }
    }
  }

  /** `importStory` on the tokens of a file: name, statuses, the choice count, decisions, options
      and the initial choice. A story read this way refers only to its own choices and decisions. */
  function ParseStory(ts: seq<string>): (r: Result<StoryFile>)
    ensures r.Success? ==> r.value.initial < |r.value.options|
    ensures r.Success? ==> Closed(Graph(r.value.options, r.value.decisions))
  {
    match QuotedToken(ts, ILLEGAL_STORY)
    case Failure(e) => Failure(e)
    case Success(name) =>
      match ReadStatuses(name.rest)
      case Failure(e) => Failure(e)
      case Success(statuses) =>
        match NextInt(statuses.rest, ILLEGAL_STORY)
        case Failure(e) => Failure(e)
        case Success(count) =>
          var n := ChoiceCount(count.value);
          match ReadDecisions(count.rest, Range(n))
          case Failure(e) => Failure(e)
          case Success(decisions) =>
            match ReadOptions(decisions.rest, Blank(n), |decisions.value|)
            case Failure(e) => Failure(e)
            case Success(options) =>
              match QuotedToken(options.rest, ILLEGAL_STORY)
              case Failure(e) => Failure(e)
              case Success(initial) =>
                match GetNumId(initial.value, ILLEGAL_STORY)
                case Failure(e) => Failure(e)
                case Success(k) =>
                  if k < 0 || k as int >= n then Failure(IndexOutOfBounds)
                  else
                    var f := StoryFile(name.value, statuses.value, options.value, decisions.value, k as nat);
                    BlankBelow(n, |decisions.value|);
                    ReadClosed(options.value, decisions.value, n);
                    Success(f)
  }

  /** The game a method made from the file `f`. */
  ghost predicate GameOf(story: StoryGame, f: StoryFile)
    reads story, story.arena, story.statuses
  {
    && story.name == f.name && story.arena.graph == Graph(f.options, f.decisions)
    && story.history == [f.initial] && !story.fixed
    && story.statuses.table == f.statuses && story.originalStatuses == f.statuses
  }

  /** `importStory(filePath)`. No story is made when any read fails. */
  method ImportStory(path: Option<string>, files: map<string, string>) returns (r: Result<StoryGame>)
    ensures path.None? ==> r == Failure(IllegalArgument(NULL_FILENAME))
    ensures path.Some? && path.value !in files ==> r == Failure(IllegalArgument(FILE_NOT_FOUND))
    ensures path.Some? && path.value in files ==>
      var f := ParseStory(Tokenize(files[path.value]));
      && (r.Success? <==> f.Success?)
      && (r.Failure? ==> r.error == f.error)
      && (r.Success? ==> fresh(r.value) && fresh(r.value.arena) && r.value.Valid() && GameOf(r.value, f.value))
  {
    if path.None? {
      return Failure(IllegalArgument(NULL_FILENAME));
    }
    if path.value !in files {
      return Failure(IllegalArgument(FILE_NOT_FOUND));
    }
    var sc := new Scanner(files[path.value]);
    ghost var ts := sc.tokens;
    var name := sc.TryNext(ILLEGAL_STORY);
    if name.Failure? {
      return Failure(name.error);
    }
    var statuses := ReadStatusesFrom(sc);
    if statuses.Failure? {
      return Failure(statuses.error);
    }
    var count := sc.TryNextInt(ILLEGAL_STORY);
    if count.Failure? {
      return Failure(count.error);
    }
    ghost var afterCount := sc.tokens;
    var arena := new Arena();
    var n := ChoiceCount(count.value);
    var choices := MakeChoices(arena, n);
    var decisions := ReadDecisionsFrom(sc, arena, choices);
    if decisions.Failure? {
      return Failure(decisions.error);
    }
    ghost var read := ReadDecisions(afterCount, Range(n)).value;
    assert arena.graph == Graph(Blank(n), read.value);
    var added := AddOptionsFrom(sc, arena, decisions.value, choices);
    if added.Failure? {
      return Failure(added.error);
    }
    var initial := sc.TryNext(ILLEGAL_STORY);
    if initial.Failure? {
      return Failure(initial.error);
    }
    var k := GetNumId(initial.value, ILLEGAL_STORY);
    if k.Failure? {
      return Failure(k.error);
    }
    if k.value < 0 || k.value as int >= |choices| {
      return Failure(IndexOutOfBounds);
    }
    var game := new StoryGame(name.value, arena, choices[k.value], Lift(statuses.value));
    DropNullsOfLift(statuses.value);
    return Success(game);
  }

  /** The choice loop: `n` choices, each holding a new empty option list. */
  method MakeChoices(arena: Arena, n: nat) returns (choices: seq<ChoiceId>)
    requires arena.Valid() && arena.graph == Graph([], [])
    modifies arena
    ensures arena.Valid() && arena.graph == Graph(Blank(n), [])
    ensures choices == Range(n)
  {
    choices := [];
    var i := 0;
    while i < n
      invariant 0 <= i <= n
      invariant arena.Valid() && arena.graph == Graph(Blank(i), [])
      invariant choices == Range(i)
    {
      var c := arena.NewChoice(Some([]));
      assert Blank(i) + [[]] == Blank(i + 1);
      choices := choices + [c.value];
      i := i + 1;
    }
  }

  /** `readStatuses(sc)`. */
  method ReadStatusesFrom(sc: Scanner) returns (r: Result<Table<int32>>)
    modifies sc
    ensures r == Value(ReadStatuses(old(sc.tokens)))
    ensures r.Success? ==> sc.tokens == ReadStatuses(old(sc.tokens)).value.rest
  {
    var opener := sc.TryNext(ILLEGAL_STORY);
    if opener.Failure? {
      return Failure(opener.error);
    }
    var next := sc.TryNext(ILLEGAL_STORY);
    if next.Failure? {
      return Failure(next.error);
    }
    var statuses: Table<int32> := Empty();
    var name := next.value;
    ghost var total := StatusEntries(name, sc.tokens, statuses);
    while name != "]"
      invariant StatusEntries(name, sc.tokens, statuses) == total
      decreases |sc.tokens|
    {
      var v := sc.TryNextInt(ILLEGAL_STORY);
      if v.Failure? {
        return Failure(v.error);
      }
      var following := sc.TryNext(ILLEGAL_STORY);
      if following.Failure? {
        return Failure(following.error);
      }
      statuses := Put(statuses, name, v.value);
      name := following.value;
    }
    return Success(statuses);
  }

  /** The handles `from .. from+n-1`. */
  function Numbers(from: nat, n: nat): (r: seq<nat>)
    ensures |r| == n
  {
    seq(n, k => from + k)
  }

  lemma NumbersStep(from: nat, n: nat)
    ensures Numbers(from, n) + [from + n] == Numbers(from, n + 1)
  {
  }

  lemma NumbersConcat(xs: seq<nat>, ys: seq<nat>, from: nat, a: nat, b: nat)
    requires xs == Numbers(from, a) && ys == Numbers(from + a, b)
    ensures xs + ys == Numbers(from, a + b)
  {
  }

  /** `readDecisions(sc, choices)`: each decision read becomes a new object of the heap, in file
      order. */
  method ReadDecisionsFrom(sc: Scanner, arena: Arena, choices: seq<ChoiceId>) returns (r: Result<seq<DecisionId>>)
    requires arena.Valid() && forall c :: c in choices ==> c < |arena.graph.options|
    modifies sc, arena
    ensures arena.Valid() && arena.graph.options == old(arena.graph.options)
    ensures r.Failure? <==> ReadDecisions(old(sc.tokens), choices).Failure?
    ensures r.Failure? ==> r.error == ReadDecisions(old(sc.tokens), choices).error
    ensures r.Success? ==>
      var read := ReadDecisions(old(sc.tokens), choices).value;
      && sc.tokens == read.rest
      && arena.graph.decisions == old(arena.graph.decisions) + read.value
      && r.value == Numbers(|old(arena.graph.decisions)|, |read.value|)
  {
    var opener := sc.TryNext(ILLEGAL_STORY);
    if opener.Failure? {
      return Failure(opener.error);
    }
    var first := sc.TryNext(ILLEGAL_STORY);
    if first.Failure? {
      return Failure(first.error);
    }
    ReadDecisionsOpen(old(sc.tokens), choices);
    r := ReadGroupsFrom(sc, arena, choices, first.value);
  }

  /** The outer loop of `readDecisions`, from the token `first` just read. */
  method ReadGroupsFrom(sc: Scanner, arena: Arena, choices: seq<ChoiceId>, first: string)
    returns (r: Result<seq<DecisionId>>)
    requires arena.Valid() && forall c :: c in choices ==> c < |arena.graph.options|
    modifies sc, arena
    ensures arena.Valid() && arena.graph.options == old(arena.graph.options)
    ensures var expected := DecisionEntries(first, old(sc.tokens), choices, [], false);
      && (r.Failure? <==> expected.Failure?)
      && (r.Failure? ==> r.error == expected.error)
      && (r.Success? ==>
            && sc.tokens == expected.value.rest
            && arena.graph.decisions == old(arena.graph.decisions) + expected.value.value
            && r.value == Numbers(|old(arena.graph.decisions)|, |expected.value.value|))
  {
    var next := first;
    var ids: seq<DecisionId> := [];
    ghost var base := arena.graph.decisions;
    ghost var read: seq<Decision> := [];
    ghost var total := DecisionEntries(next, sc.tokens, choices, [], false);
    while next != "}"
      invariant arena.Valid() && arena.graph.options == old(arena.graph.options)
      invariant arena.graph.decisions == base + read
      invariant ids == Numbers(|base|, |read|)
      invariant DecisionEntries(next, sc.tokens, choices, read, false) == total
      decreases |sc.tokens|
    {
      EntersGroup(next, sc.tokens, choices, read);
      var following, added, more := ReadGroup(sc, arena, choices, next, read);
      Associative(base, read, more);
      if following.Failure? {
        return Failure(following.error);
      }
      NumbersConcat(ids, added, |base|, |read|, |more|);
      ids := ids + added;
      read := read + more;
      next := following.value;
    }
    assert total == Success(Parsed(read, sc.tokens));
    return Success(ids);
  }

  /** One pass of the outer loop of `readDecisions`: the decisions up to `]`, and the token
      after it. */
  method ReadGroup(sc: Scanner, arena: Arena, choices: seq<ChoiceId>, first: string, ghost read: seq<Decision>)
    returns (r: Result<string>, ids: seq<DecisionId>, ghost more: seq<Decision>)
    requires arena.Valid() && forall c :: c in choices ==> c < |arena.graph.options|
    modifies sc, arena
    ensures arena.Valid() && arena.graph.options == old(arena.graph.options)
    ensures arena.graph.decisions == old(arena.graph.decisions) + more
    ensures ids == Numbers(|old(arena.graph.decisions)|, |more|)
    ensures r.Success? ==> |sc.tokens| < |old(sc.tokens)|
    ensures r.Success? ==>
      DecisionEntries(first, old(sc.tokens), choices, read, true) == DecisionEntries(r.value, sc.tokens, choices, read + more, false)
    ensures r.Failure? ==> DecisionEntries(first, old(sc.tokens), choices, read, true) == Failure(r.error)
  {
    var next := first;
    ids := [];
    more := [];
    ghost var base := arena.graph.decisions;
    ghost var total := DecisionEntries(first, sc.tokens, choices, read, true);
    assert read + more == read;
    while next != "]"
      invariant arena.Valid() && arena.graph.options == old(arena.graph.options)
      invariant arena.graph.decisions == base + more
      invariant ids == Numbers(|base|, |more|)
      invariant |sc.tokens| <= |old(sc.tokens)|
      invariant DecisionEntries(next, sc.tokens, choices, read + more, true) == total
      decreases |sc.tokens|
    {
      var following, added, got := ReadEntry(sc, arena, choices, next, read + more);
      NumbersConcat(ids, added, |base|, |more|, |got|);
      Associative(read, more, got);
      Associative(base, more, got);
      ids := ids + added;
      more := more + got;
      if following.Failure? {
        return Failure(following.error), ids, more;
      }
      next := following.value;
    }
    var following := sc.TryNext(ILLEGAL_STORY);
    if following.Failure? {
      return Failure(following.error), ids, more;
    }
    r := Success(following.value);
  }

  /** One decision of a group and the token after it. A decision that was read stays in the
      heap even when the token after it is missing. */
  method ReadEntry(sc: Scanner, arena: Arena, choices: seq<ChoiceId>, next: string, ghost acc: seq<Decision>)
    returns (r: Result<string>, ids: seq<DecisionId>, ghost more: seq<Decision>)
    requires next != "]"
    requires arena.Valid() && forall c :: c in choices ==> c < |arena.graph.options|
    modifies sc, arena
    ensures arena.Valid() && arena.graph.options == old(arena.graph.options)
    ensures arena.graph.decisions == old(arena.graph.decisions) + more
    ensures ids == Numbers(|old(arena.graph.decisions)|, |more|)
    ensures r.Success? ==> |sc.tokens| < |old(sc.tokens)|
    ensures r.Success? ==>
      DecisionEntries(next, old(sc.tokens), choices, acc, true) == DecisionEntries(r.value, sc.tokens, choices, acc + more, true)
    ensures r.Failure? ==> DecisionEntries(next, old(sc.tokens), choices, acc, true) == Failure(r.error)
  {
    ghost var ts := sc.tokens;
    var d := ImportDecisionFrom(sc, choices);
    if d.Failure? {
      assert DecisionEntries(next, ts, choices, acc, true) == Failure(d.error);
      return Failure(d.error), [], [];
    }
    var id := arena.NewDecision(d.value);
    GroupStep(next, ts, choices, acc);
    more := [d.value];
    ids := [id];
    assert ids == Numbers(|old(arena.graph.decisions)|, 1);
    var following := sc.TryNext(ILLEGAL_STORY);
    if following.Failure? {
      return Failure(following.error), ids, more;
    }
    r := Success(following.value);
  }

  /** Between groups, any token but `}` is read as it would be inside a group. */
  lemma EntersGroup(next: string, ts: seq<string>, choices: seq<ChoiceId>, acc: seq<Decision>)
    requires next != "}"
    ensures DecisionEntries(next, ts, choices, acc, false) == DecisionEntries(next, ts, choices, acc, true)
  {
  }

  /** One decision of a group, unfolded. */
  lemma GroupStep(next: string, ts: seq<string>, choices: seq<ChoiceId>, acc: seq<Decision>)
    requires next != "]" && ImportDecision(ts, choices).Success?
    ensures var d := ImportDecision(ts, choices).value;
      DecisionEntries(next, ts, choices, acc, true) ==
        match QuotedToken(d.rest, ILLEGAL_STORY)
        case Failure(e) => Failure(e)
        case Success(n) => DecisionEntries(n.value, n.rest, choices, acc + [d.value], true)
  {
  }

  /** `addOptions(sc, decisions, choiceDecisions)`: the choice lists are those of the heap's
      choices `0 .. n-1`, and the decisions are the heap's decisions in order. Each entry appends
      to a choice's own list, so the choice gains the options in place. */
  method AddOptionsFrom(sc: Scanner, arena: Arena, decisions: seq<DecisionId>, choices: seq<ChoiceId>)
    returns (r: Result<bool>)
    requires arena.Valid()
    requires choices == Range(|arena.graph.options|) && decisions == Range(|arena.graph.decisions|)
    modifies sc, arena
    ensures arena.Valid() && arena.graph.decisions == old(arena.graph.decisions)
    ensures var expected := ReadOptions(old(sc.tokens), old(arena.graph.options), |decisions|);
      && (r.Success? <==> expected.Success?)
      && (r.Failure? ==> r.error == expected.error)
      && (r.Success? ==> arena.graph.options == expected.value.value && sc.tokens == expected.value.rest)
  {
    var opener := sc.TryNext(ILLEGAL_STORY);
    if opener.Failure? {
      return Failure(opener.error);
    }
    var first := sc.TryNext(ILLEGAL_STORY);
    if first.Failure? {
      return Failure(first.error);
    }
    var next := first.value;
    ghost var m := |decisions|;
    ghost var total := OptionEntries(next, sc.tokens, arena.graph.options, m);
    while next != "}"
      invariant arena.Valid() && arena.graph.decisions == old(arena.graph.decisions)
      invariant |arena.graph.options| == |choices|
      invariant OptionEntries(next, sc.tokens, arena.graph.options, m) == total
      decreases |sc.tokens|
    {
      var c := GetNumId(next, ILLEGAL_STORY);
      if c.Failure? {
        return Failure(c.error);
      }
      var bracket := sc.TryNext(ILLEGAL_STORY);
      if bracket.Failure? {
        return Failure(bracket.error);
      }
      var item := sc.TryNext(ILLEGAL_STORY);
      if item.Failure? {
        return Failure(item.error);
      }
      var nextDecision := item.value;
      while nextDecision != "]"
        invariant arena.Valid() && arena.graph.decisions == old(arena.graph.decisions)
        invariant |arena.graph.options| == |choices|
        invariant OptionList(c.value, nextDecision, sc.tokens, arena.graph.options, m) == total
        decreases |sc.tokens|
      {
        if c.value < 0 || c.value as int >= |choices| {
          return Failure(IndexOutOfBounds);
        }
        var k := GetNumId(nextDecision, ILLEGAL_STORY);
        if k.Failure? {
          return Failure(k.error);
        }
        if k.value < 0 || k.value as int >= |decisions| {
          return Failure(IndexOutOfBounds);
        }
        arena.AppendOption(choices[c.value], decisions[k.value]);
        var following := sc.TryNext(ILLEGAL_STORY);
        if following.Failure? {
          return Failure(following.error);
        }
        nextDecision := following.value;
      }
      var following := sc.TryNext(ILLEGAL_STORY);
      if following.Failure? {
        return Failure(following.error);
      }
      next := following.value;
    }
    return Success(true);
  }
}
