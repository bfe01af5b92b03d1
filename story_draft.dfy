/** The state of a `StoryGameCreator` and its editing operations as functions of that state.

    A draft is the story's name, its initial statuses, the list of choices and the list of
    decisions (handles into the heap `graph`), the index of the initial choice, and the status
    names each decision depends on. Every operation either yields the new draft or the
    exception it throws; an operation that throws leaves the draft as it was. */
module Drafts {
  import opened Wrappers
  import opened JavaInt
  import opened Tables
  import opened Utils
  import opened IOUtils
  import opened StatusUpdates
  import opened Decisions
  import opened Choices
  import opened Handles
  import opened Nodes

  const UNTITLED := "Untitled"
  const NULL_NAME := "Name can't be null"
  const NULL_STATUS_NAME := "Status name can't be null"
  const STATUS_IN_USE := "At least one decision references this status."
  const NULL_DESCRIPTION := "Description can't be null"
  const NULL_DEPENDENCY := "Dependency can't be null"
  const CHOICE_IN_USE := "Choice is an outcome of an option or is the first choice"
  const INVALID_UPDATE := "Invalid status update format"

  function NoStatus(name: string): string {
    "No status " + name + " in the story"
  }

  function NoDependency(name: string): string {
    "Story has no status: " + name
  }

  function NotAStatus(name: string): string {
    name + " is not a story status"
  }

  /** Indices are shown counted from 1, with Java's `int` addition. */
  function NoChoiceAt(idx: int32): string {
    "No choice at " + ToString(Add(idx, 1) as int)
  }

  function NoDecisionAt(idx: int32): string {
    "No decision at " + ToString(Add(idx, 1) as int)
  }

  datatype Draft = Draft(name: string, statuses: Table<int32>, choices: seq<ChoiceId>, first: int,
                         decisions: seq<DecisionId>, dependencies: map<DecisionId, seq<string>>, graph: Graph)

  /** What every editing operation keeps: the heap is closed, the listed choices and decisions
      are distinct objects of the heap, exactly the listed decisions have a dependency record,
      and the lists refer to each other. */
  ghost predicate Sound(s: Draft) {
    && Closed(s.graph)
    && Unique(s.choices) && Below(s.choices, |s.graph.options|)
    && Unique(s.decisions) && Below(s.decisions, |s.graph.decisions|)
    && (forall d :: d in s.dependencies <==> d in s.decisions)
    && s.first >= -1
    && Linked(s) && Stocked(s)
  }

  /** Every possible outcome of a listed decision is a listed choice: what `removeChoice`
      protects. */
  ghost predicate Linked(s: Draft) {
    forall d, c :: d in s.decisions && d < |s.graph.decisions| && c in PossibleOutcomes(s.graph.decisions[d]) ==> c in s.choices
  }

  /** Every option of a listed choice is a listed decision. */
  ghost predicate Stocked(s: Draft) {
    forall c, d :: c in s.choices && c < |s.graph.options| && d in s.graph.options[c] ==> d in s.decisions
  }

  /** `List.remove(object)`: the list without the first occurrence of `x`. */
  function Erase(s: seq<nat>, x: nat): (r: seq<nat>)
    ensures |r| <= |s| && forall y :: y in r ==> y in s
    ensures Unique(s) ==> Unique(r) && (forall y :: y in r <==> y in s && y != x)
  {
    if x !in s then s
    else
      var i := IndexOf(s, x);
      var r := s[..i] + s[i + 1..];
      assert forall k :: 0 <= k < |r| ==> r[k] == if k < i then s[k] else s[k + 1];
      r
  }

  /** When `x` is at position `i` of a list without repeats, erasing it drops position `i`. */
  lemma EraseAt(s: seq<nat>, i: nat)
    requires Unique(s) && i < |s|
    ensures Erase(s, s[i]) == s[..i] + s[i + 1..]
  {
    IndexOfUnique(s, i);
  }

  /** `new StoryGameCreator(name)`: an empty story with a heap of its own and no initial
      choice. */
  function Blank(name: Option<string>): (r: Draft)
    ensures Sound(r) && r.first == -1
  {
    Draft(if name.None? then UNTITLED else name.value, Empty(), [], -1, [], map[], Graph([], []))
  }

  /** `new StoryGameCreator(story)`: the choices and decisions `StoryNodes` finds from the
      current choice, in its order, the story's own statuses, and an empty dependency record
      for every decision (`SimpleDecision`, and so `ConsequentialDecision`, report no
      dependencies; `DependentDecision` does not define the method, and the model gives it the
      same empty record). */
  function FromWalk(name: string, statuses: Table<int32>, g: Graph, start: ChoiceId): (r: Draft)
    requires Closed(g) && start < |g.options|
    ensures r.choices == WalkFrom(g, start).order && r.decisions == WalkFrom(g, start).decisions
    ensures Sound(r) && r.first == 0 && |r.choices| > 0 && r.choices[0] == start
  {
    var w := WalkFrom(g, start);
    WalkFromProperties(g, start);
    var r := Draft(name, statuses, w.order, 0, w.decisions, map d | d in w.decisions :: [], g);
    assert Stocked(r) by {
      forall c, d | c in r.choices && c < |g.options| && d in g.options[c]
        ensures d in r.decisions
      {
        assert Labels(g, c, w.decisions, w.ids[c]);
        var k :| 0 <= k < |g.options[c]| && g.options[c][k] == d;
        assert w.decisions[w.ids[c][k]] == d;
      }
    }
    r
  }

  /** `ensureChoiceExists(idx)`. */
  function ChoiceAt(s: Draft, idx: int32): (r: Result<ChoiceId>)
    ensures r.Success? <==> 0 <= idx as int < |s.choices|
    ensures r.Success? ==> r.value in s.choices && r.value == s.choices[idx]
    ensures r.Failure? ==> r.error == IllegalArgument(NoChoiceAt(idx))
  {
    if 0 <= idx as int < |s.choices| then Success(s.choices[idx]) else Failure(IllegalArgument(NoChoiceAt(idx)))
  }

  /** `ensureCanMakeDependentDecision(description, dependency)`. */
  function CanDepend(s: Draft, description: Option<string>, dependency: Option<string>): (r: Outcome)
    ensures r.Pass? <==> description.Some? && dependency.Some? && Has(s.statuses, dependency.value)
    ensures description.None? ==> r == Fail(IllegalArgument(NULL_DESCRIPTION))
    ensures description.Some? && dependency.None? ==> r == Fail(IllegalArgument(NULL_DEPENDENCY))
    ensures description.Some? && dependency.Some? && !Has(s.statuses, dependency.value) ==>
      r == Fail(IllegalArgument(NoDependency(dependency.value)))
  {
    if description.None? then Fail(IllegalArgument(NULL_DESCRIPTION))
    else if dependency.None? then Fail(IllegalArgument(NULL_DEPENDENCY))
    else if !Has(s.statuses, dependency.value) then Fail(IllegalArgument(NoDependency(dependency.value)))
    else Pass
  }

  /** `isAnOption(d)`: some listed choice offers `d`. */
  predicate IsAnOption(choices: seq<ChoiceId>, options: seq<seq<DecisionId>>, d: DecisionId) {
    exists c :: c in choices && c < |options| && d in options[c]
  }

  /** `isAnOutcome(c)`: `c` is a possible outcome of some listed decision. */
  predicate IsAnOutcome(s: Draft, c: ChoiceId) {
    exists d :: d in s.decisions && d < |s.graph.decisions| && c in PossibleOutcomes(s.graph.decisions[d])
  }

  /** `isUsedStatus(name)`: some dependency record names the status. */
  predicate IsUsedStatus(s: Draft, name: string) {
    exists d :: d in s.dependencies && name in s.dependencies[d]
  }

  // Consequence strings

  /** One consequence string, on a scanner of its own: `importSimple` reads the update, then
      `tryNext` the status name; any further tokens are ignored. */
  function ReadConsequence(text: string): Result<(string, StatusUpdate)> {
    ReadConsequenceTokens(Tokenize(text))
  }

  function ReadConsequenceTokens(ts: seq<string>): Result<(string, StatusUpdate)> {
    match ImportSimple(ts)
    case Failure(e) => Failure(e)
    case Success(u) =>
      match QuotedToken(u.rest, INVALID_UPDATE)
      case Failure(e) => Failure(e)
      case Success(name) => Success((name.value, u.value))
  }

  /** A consequence is `<ADD|SET> <int> <name>`: with plain tokens it reads exactly when the
      tag and the amount are valid, whatever follows the name; without a name it fails with the
      update format message of `getUpdates`. */
  lemma ConsequenceFormat(tag: string, amount: string, name: string, rest: seq<string>)
    requires |tag| > 0 && tag[0] != '"' && |name| > 0 && name[0] != '"'
    ensures var r := ReadConsequenceTokens([tag, amount, name] + rest);
      && (r.Success? <==> (tag == "ADD" || tag == "SET") && ParseInt(amount).Some?)
      && (r.Success? && tag == "ADD" ==> r.value == (name, StatusUpdate.AddStatus(ParseInt(amount).value)))
      && (r.Success? && tag == "SET" ==> r.value == (name, SetStatus(ParseInt(amount).value)))
      && (r.Failure? ==> r.error == IllegalArgument(ILLEGAL_FORMAT_MESSAGE))
    ensures (tag == "ADD" || tag == "SET") && ParseInt(amount).Some? ==>
      ReadConsequenceTokens([tag, amount]) == Failure(IllegalArgument(INVALID_UPDATE))
  {
    assert [tag, amount, name] + rest == [tag, amount] + ([name] + rest);
    ImportSimpleTokens(tag, amount, [name] + rest);
    UnquotedToken(name, rest, INVALID_UPDATE);
    assert [tag, amount] == [tag, amount] + [];
    ImportSimpleTokens(tag, amount, []);
  }

  /** Whether consequence `text` reads and names a status of the story. */
  predicate Readable(statuses: Table<int32>, text: string) {
    ReadConsequence(text).Success? && Has(statuses, ReadConsequence(text).value.0)
  }

  /** The status a readable consequence names, and its update. */
  function NameOf(text: string): string {
    if ReadConsequence(text).Success? then ReadConsequence(text).value.0 else ""
  }

  function UpdateOf(text: string): StatusUpdate {
    if ReadConsequence(text).Success? then ReadConsequence(text).value.1 else StatusUpdate.AddStatus(0)
  }

  /** The loop of `getUpdates`, from the first of `items` on, with the updates read so far. */
  function UpdatesFrom(statuses: Table<int32>, items: seq<string>, acc: Table<StatusUpdate>): Result<Table<StatusUpdate>>
    decreases |items|
  {
    if |items| == 0 then Success(acc)
    else
      match ReadConsequence(items[0])
      case Failure(e) => Failure(e)
      case Success(entry) =>
        if !Has(statuses, entry.0) then Failure(IllegalArgument(NotAStatus(entry.0)))
        else UpdatesFrom(statuses, items[1..], Put(acc, entry.0, entry.1))
  }

  /** One turn of the loop, from item `i` on. */
  lemma UpdatesFromStep(statuses: Table<int32>, items: seq<string>, i: nat, acc: Table<StatusUpdate>)
    requires i < |items|
    ensures ReadConsequence(items[i]).Failure? ==>
      UpdatesFrom(statuses, items[i..], acc) == Failure(ReadConsequence(items[i]).error)
    ensures ReadConsequence(items[i]).Success? ==> (
      var (name, update) := ReadConsequence(items[i]).value;
      UpdatesFrom(statuses, items[i..], acc) ==
        if !Has(statuses, name) then Failure(IllegalArgument(NotAStatus(name)))
        else UpdatesFrom(statuses, items[i + 1..], Put(acc, name, update)))
  {
    assert items[i..][1..] == items[i + 1..];
  }

  /** The first turn of the loop, in terms of `Readable`, `NameOf` and `UpdateOf`. */
  lemma UpdatesFromHead(statuses: Table<int32>, items: seq<string>, acc: Table<StatusUpdate>)
    requires |items| > 0
    ensures Readable(statuses, items[0]) ==>
      UpdatesFrom(statuses, items, acc) == UpdatesFrom(statuses, items[1..], Put(acc, NameOf(items[0]), UpdateOf(items[0])))
    ensures !Readable(statuses, items[0]) ==> UpdatesFrom(statuses, items, acc).Failure?
  {
  }

  /** `getUpdates(list)`: the `null` items are dropped first. */
  function Updates(statuses: Table<int32>, consequences: Option<seq<Option<string>>>): Result<Table<StatusUpdate>> {
    if consequences.None? then Failure(IllegalArgument(NULL_LIST_MESSAGE))
    else UpdatesFrom(statuses, Values(Compact(consequences.value)), Empty())
  }

  /** No later item names the same status as item `i`. */
  predicate LastOf(items: seq<string>, i: nat)
    requires i < |items|
  {
    forall j :: i < j < |items| ==> NameOf(items[j]) != NameOf(items[i])
  }

  predicate NamedIn(items: seq<string>, k: string) {
    exists j :: 0 <= j < |items| && NameOf(items[j]) == k
  }

  /** The loop reads on exactly while every item reads and names a status. */
  lemma {:induction false} UpdatesFromSucceeds(statuses: Table<int32>, items: seq<string>, acc: Table<StatusUpdate>)
    ensures UpdatesFrom(statuses, items, acc).Success? <==> forall i :: 0 <= i < |items| ==> Readable(statuses, items[i])
    decreases |items|
  {
    if |items| > 0 {
      var tail := items[1..];
      assert forall j :: 0 < j < |items| ==> items[j] == tail[j - 1];
      UpdatesFromHead(statuses, items, acc);
      if Readable(statuses, items[0]) {
        UpdatesFromSucceeds(statuses, tail, Put(acc, NameOf(items[0]), UpdateOf(items[0])));
        assert (forall i :: 0 <= i < |items| ==> Readable(statuses, items[i])) <==>
               (forall i :: 0 <= i < |tail| ==> Readable(statuses, tail[i]));
      }
    }
  }

  /** The keys the loop ends with: those it started with and the statuses the items name. */
  lemma {:induction false} UpdatesFromKeys(statuses: Table<int32>, items: seq<string>, acc: Table<StatusUpdate>)
    ensures var r := UpdatesFrom(statuses, items, acc);
      r.Success? ==> forall k :: k in r.value.values <==> k in acc.values || NamedIn(items, k)
    ensures var r := UpdatesFrom(statuses, items, acc);
      r.Success? ==> forall k :: k in r.value.values ==> k in acc.values || Has(statuses, k)
    decreases |items|
  {
    var r := UpdatesFrom(statuses, items, acc);
    if |items| > 0 && r.Success? {
      var tail := items[1..];
      var n := NameOf(items[0]);
      var next := Put(acc, n, UpdateOf(items[0]));
      assert r == UpdatesFrom(statuses, tail, next);
      UpdatesFromKeys(statuses, tail, next);
      NamedInTail(items);
    }
  }

  /** A status is named by the items exactly when the first names it or the rest do. */
  lemma NamedInTail(items: seq<string>)
    requires |items| > 0
    ensures forall k :: NamedIn(items, k) <==> k == NameOf(items[0]) || NamedIn(items[1..], k)
  {
    var tail := items[1..];
    forall k
      ensures NamedIn(items, k) <==> k == NameOf(items[0]) || NamedIn(tail, k)
    {
      if NamedIn(tail, k) {
        var j :| 0 <= j < |tail| && NameOf(tail[j]) == k;
        assert NameOf(items[j + 1]) == k;
      }
      if NamedIn(items, k) && k != NameOf(items[0]) {
        var j :| 0 <= j < |items| && NameOf(items[j]) == k;
        assert NameOf(tail[j - 1]) == k;
      }
    }
  }

  /** The values the loop ends with: a key no item names keeps its value, and a status takes
      the update of the last item that names it. */
  lemma UpdatesFromValues(statuses: Table<int32>, items: seq<string>, acc: Table<StatusUpdate>)
    ensures var r := UpdatesFrom(statuses, items, acc);
      r.Success? ==> forall k :: k in acc.values && !NamedIn(items, k) ==>
        k in r.value.values && r.value.values[k] == acc.values[k]
    ensures var r := UpdatesFrom(statuses, items, acc);
      r.Success? ==> forall i :: 0 <= i < |items| && LastOf(items, i) ==>
        NameOf(items[i]) in r.value.values && r.value.values[NameOf(items[i])] == UpdateOf(items[i])
  {
    UpdatesFromKept(statuses, items, acc);
    UpdatesFromLast(statuses, items, acc);
  }

  /** A key no item names keeps its value. */
  lemma {:induction false} UpdatesFromKept(statuses: Table<int32>, items: seq<string>, acc: Table<StatusUpdate>)
    ensures var r := UpdatesFrom(statuses, items, acc);
      r.Success? ==> forall k :: k in acc.values && !NamedIn(items, k) ==>
        k in r.value.values && r.value.values[k] == acc.values[k]
    decreases |items|
  {
    var r := UpdatesFrom(statuses, items, acc);
    if |items| > 0 && r.Success? {
      var tail := items[1..];
      var n := NameOf(items[0]);
      var next := Put(acc, n, UpdateOf(items[0]));
      assert r == UpdatesFrom(statuses, tail, next);
      UpdatesFromKept(statuses, tail, next);
      forall k | k in acc.values && !NamedIn(items, k)
        ensures k in r.value.values && r.value.values[k] == acc.values[k]
      {
        assert k != n && !NamedIn(tail, k);
      }
    }
  }

  /** A status takes the update of the last item that names it. */
  lemma {:induction false} UpdatesFromLast(statuses: Table<int32>, items: seq<string>, acc: Table<StatusUpdate>)
    ensures var r := UpdatesFrom(statuses, items, acc);
      r.Success? ==> forall i :: 0 <= i < |items| && LastOf(items, i) ==>
        NameOf(items[i]) in r.value.values && r.value.values[NameOf(items[i])] == UpdateOf(items[i])
    decreases |items|
  {
    var r := UpdatesFrom(statuses, items, acc);
    if |items| > 0 && r.Success? {
      var tail := items[1..];
      var n := NameOf(items[0]);
      var next := Put(acc, n, UpdateOf(items[0]));
      assert r == UpdatesFrom(statuses, tail, next);
      UpdatesFromLast(statuses, tail, next);
      forall i | 0 <= i < |items| && LastOf(items, i)
        ensures NameOf(items[i]) in r.value.values && r.value.values[NameOf(items[i])] == UpdateOf(items[i])
      {
        if i == 0 {
          assert !NamedIn(tail, n);
          UpdatesFromKept(statuses, tail, next);
        } else {
          LastOfTail(items, i);
        }
      }
    }
  }

  lemma LastOfTail(items: seq<string>, i: nat)
    requires 0 < i < |items| && LastOf(items, i)
    ensures items[1..][i - 1] == items[i] && LastOf(items[1..], i - 1)
  {
    var tail := items[1..];
    forall j | i - 1 < j < |tail|
      ensures NameOf(tail[j]) != NameOf(tail[i - 1])
    {
      assert tail[j] == items[j + 1];
    }
  }

  /** `getUpdates` succeeds exactly when every non-null consequence reads and names a status.
      Then it maps exactly the statuses named, each to the update of the last consequence
      naming it. */
  lemma UpdatesProperties(statuses: Table<int32>, consequences: Option<seq<Option<string>>>)
    ensures consequences.None? ==> Updates(statuses, consequences) == Failure(IllegalArgument(NULL_LIST_MESSAGE))
    ensures consequences.Some? ==> UpdatesMeaning(statuses, Values(Compact(consequences.value)), Updates(statuses, consequences))
  {
    if consequences.Some? {
      var items := Values(Compact(consequences.value));
      assert Updates(statuses, consequences) == UpdatesFrom(statuses, items, Empty());
      UpdatesFromSucceeds(statuses, items, Empty());
      UpdatesFromKeys(statuses, items, Empty());
      UpdatesFromValues(statuses, items, Empty());
    }
  }

  /** What `getUpdates` promises of its result `r` on the non-null consequences `items`. */
  ghost predicate UpdatesMeaning(statuses: Table<int32>, items: seq<string>, r: Result<Table<StatusUpdate>>) {
    && (r.Success? <==> forall i :: 0 <= i < |items| ==> Readable(statuses, items[i]))
    && (r.Success? ==> forall k :: k in r.value.values <==> NamedIn(items, k))
    && (r.Success? ==> forall k :: k in r.value.values ==> Has(statuses, k))
    && (r.Success? ==> forall i :: 0 <= i < |items| && LastOf(items, i) ==>
          NameOf(items[i]) in r.value.values && r.value.values[NameOf(items[i])] == UpdateOf(items[i]))
  }

  // Editing operations

  /** The whole new state once `addDecision(d, choiceIdx)` has put the new decision object
      `id` at the end of choice `c`'s options and of the decision list, and its dependency
      record is `deps`. */
  predicate Added(s: Draft, t: Draft, d: Decision, c: ChoiceId, deps: seq<string>)
    requires c < |s.graph.options|
  {
    var id := |s.graph.decisions|;
    && t.name == s.name && t.statuses == s.statuses && t.choices == s.choices && t.first == s.first
    && t.decisions == s.decisions + [id]
    && t.dependencies == s.dependencies[id := deps]
    && t.graph == Graph(s.graph.options[c := s.graph.options[c] + [id]], s.graph.decisions + [d])
  }

  /** `addDecision(decision, choiceIdx)`, `deps` being the record the caller leaves. */
  function AddDecisionTo(s: Draft, d: Decision, choiceIdx: int32, deps: seq<string>): (r: Result<Draft>)
    requires Sound(s)
    requires forall c :: c in ReferencedChoices(d) ==> c in s.choices
    ensures r.Success? <==> 0 <= choiceIdx as int < |s.choices|
    ensures r.Failure? ==> r.error == IllegalArgument(NoChoiceAt(choiceIdx))
    ensures r.Success? ==> Sound(r.value) && Added(s, r.value, d, s.choices[choiceIdx], deps)
  {
    match ChoiceAt(s, choiceIdx)
    case Failure(e) => Failure(e)
    case Success(c) =>
      var id := |s.graph.decisions|;
      var g := Graph(s.graph.options[c := s.graph.options[c] + [id]], s.graph.decisions + [d]);
      var t := s.(graph := g, decisions := s.decisions + [id], dependencies := s.dependencies[id := deps]);
      AddedSound(s, t, d, c, deps);
      Success(t)
  }

  lemma AddedSound(s: Draft, t: Draft, d: Decision, c: ChoiceId, deps: seq<string>)
    requires Sound(s) && c in s.choices
    requires forall x :: x in ReferencedChoices(d) ==> x in s.choices
    requires c < |s.graph.options| && Added(s, t, d, c, deps)
    ensures Sound(t)
  {
    var id := |s.graph.decisions|;
    assert forall x :: x in s.choices ==> x < |s.graph.options| by {
      forall x | x in s.choices ensures x < |s.graph.options| {
        var i :| 0 <= i < |s.choices| && s.choices[i] == x;
      }
    }
    assert id !in s.decisions;
    assert forall x :: 0 <= x < |s.graph.decisions| ==> t.graph.decisions[x] == s.graph.decisions[x];
    assert Closed(t.graph) by {
      forall x | 0 <= x < |t.graph.decisions|
        ensures Points(t.graph, t.graph.decisions[x])
      {
        if x < id {
          assert Points(s.graph, s.graph.decisions[x]);
        }
      }
    }
    assert Linked(t);
    assert Stocked(t);
  }

  /** `setStoryName(name)`. */
  function SetStoryName(s: Draft, name: Option<string>): (r: Result<Draft>)
    ensures r.Failure? <==> name.None?
    ensures r.Failure? ==> r.error == IllegalArgument(NULL_NAME)
    ensures r.Success? ==> r.value.name == name.value && r.value.(name := s.name) == s
  {
    if name.None? then Failure(IllegalArgument(NULL_NAME)) else Success(s.(name := name.value))
  }

  /** `addStatus(name, val)`: a new status goes last; an existing one gets the new initial
      value in its place. */
  function AddStatusEntry(s: Draft, name: Option<string>, val: int32): (r: Result<Draft>)
    ensures r.Failure? <==> name.None?
    ensures r.Failure? ==> r.error == IllegalArgument(NULL_STATUS_NAME)
    ensures r.Success? ==> r.value == s.(statuses := r.value.statuses)
    ensures r.Success? ==> Get(r.value.statuses, name.value) == Some(val)
    ensures r.Success? ==> forall k :: k != name.value ==> Get(r.value.statuses, k) == Get(s.statuses, k)
    ensures r.Success? && Has(s.statuses, name.value) ==> r.value.statuses.keys == s.statuses.keys
    ensures r.Success? && !Has(s.statuses, name.value) ==> r.value.statuses.keys == s.statuses.keys + [name.value]
  {
    if name.None? then Failure(IllegalArgument(NULL_STATUS_NAME))
    else Success(s.(statuses := Put(s.statuses, name.value, val)))
  }

  /** `removeStatus(name)`: only a status that exists and no dependency record names is
      removed, and nothing else changes. */
  function RemoveStatusEntry(s: Draft, name: Option<string>): (r: Result<Draft>)
    ensures name.None? ==> r == Failure(IllegalArgument(NULL_STATUS_NAME))
    ensures name.Some? ==> (r.Success? <==> Has(s.statuses, name.value) && !IsUsedStatus(s, name.value))
    ensures name.Some? && Has(s.statuses, name.value) && IsUsedStatus(s, name.value) ==>
      r == Failure(IllegalArgument(STATUS_IN_USE))
    ensures name.Some? && !Has(s.statuses, name.value) ==> r == Failure(IllegalArgument(NoStatus(name.value)))
    ensures r.Success? ==> r.value == s.(statuses := r.value.statuses)
    ensures r.Success? ==> !Has(r.value.statuses, name.value) && r.value.statuses.keys == Without(s.statuses.keys, name.value)
    ensures r.Success? ==> forall k :: k != name.value ==> Get(r.value.statuses, k) == Get(s.statuses, k)
  {
    if name.None? then Failure(IllegalArgument(NULL_STATUS_NAME))
    else if Has(s.statuses, name.value) && !IsUsedStatus(s, name.value) then
      Success(s.(statuses := Remove(s.statuses, name.value)))
    else if Has(s.statuses, name.value) then Failure(IllegalArgument(STATUS_IN_USE))
    else Failure(IllegalArgument(NoStatus(name.value)))
  }

  /** `addChoice()`: a new choice without options, listed last; the result is its index. */
  function AddChoice(s: Draft): (r: (Draft, nat))
    requires Sound(s)
    ensures Sound(r.0)
    ensures r.1 == |s.choices| && |r.0.choices| == |s.choices| + 1
    ensures r.0.choices[r.1] !in s.choices && r.0.graph.options[r.0.choices[r.1]] == []
    ensures r.0.choices == s.choices + [|s.graph.options|]
    ensures r.0.graph == Graph(s.graph.options + [[]], s.graph.decisions)
    ensures r.0 == s.(choices := r.0.choices, graph := r.0.graph)
  {
    var c := |s.graph.options|;
    var t := s.(choices := s.choices + [c], graph := Graph(s.graph.options + [[]], s.graph.decisions));
    assert c !in s.choices;
    assert forall x :: 0 <= x < |s.graph.options| ==> t.graph.options[x] == s.graph.options[x];
    assert Closed(t.graph) by {
      forall x | 0 <= x < |t.graph.decisions|
        ensures Points(t.graph, t.graph.decisions[x])
      {
        assert Points(s.graph, s.graph.decisions[x]);
      }
    }
    assert Stocked(t);
    (t, |s.choices|)
  }

  /** `setInitialChoice(idx)`. */
  function SetInitialChoice(s: Draft, idx: int32): (r: Result<Draft>)
    ensures r.Success? <==> 0 <= idx as int < |s.choices|
    ensures r.Failure? ==> r.error == IllegalArgument(NoChoiceAt(idx))
    ensures r.Success? ==> r.value == s.(first := idx as int)
  {
    match ChoiceAt(s, idx)
    case Failure(e) => Failure(e)
    case Success(_) => Success(s.(first := idx as int))
  }

  /** `addSimpleDecision(description, choiceIdx, outcomeIdx)`: the description, then the
      outcome, then the choice are checked. */
  function AddSimple(s: Draft, description: Option<string>, choiceIdx: int32, outcomeIdx: int32): (r: Result<Draft>)
    requires Sound(s)
    ensures r.Success? <==> description.Some? && 0 <= outcomeIdx as int < |s.choices| && 0 <= choiceIdx as int < |s.choices|
    ensures description.None? ==> r == Failure(IllegalArgument(NULL_DESCRIPTION))
    ensures description.Some? && !(0 <= outcomeIdx as int < |s.choices|) ==> r == Failure(IllegalArgument(NoChoiceAt(outcomeIdx)))
    ensures description.Some? && 0 <= outcomeIdx as int < |s.choices| && !(0 <= choiceIdx as int < |s.choices|) ==>
      r == Failure(IllegalArgument(NoChoiceAt(choiceIdx)))
    ensures r.Success? ==> Sound(r.value)
    ensures r.Success? ==> Added(s, r.value, Simple(description.value, s.choices[outcomeIdx]), s.choices[choiceIdx], [])
  {
    if description.None? then Failure(IllegalArgument(NULL_DESCRIPTION))
    else
      match ChoiceAt(s, outcomeIdx)
      case Failure(e) => Failure(e)
      case Success(outcome) => AddDecisionTo(s, Simple(description.value, outcome), choiceIdx, [])
  }

  /** `addConsequentialDecision(description, choiceIdx, outcomeIdx, consequences)`: without
      any update it adds a simple decision; otherwise the decision records the updated
      statuses as its dependencies. */
  function AddConsequential(s: Draft, description: Option<string>, choiceIdx: int32, outcomeIdx: int32,
                            consequences: Option<seq<Option<string>>>): (r: Result<Draft>)
    requires Sound(s)
    ensures r.Success? <==>
      && description.Some? && 0 <= outcomeIdx as int < |s.choices|
      && Updates(s.statuses, consequences).Success? && 0 <= choiceIdx as int < |s.choices|
    ensures description.None? ==> r == Failure(IllegalArgument(NULL_DESCRIPTION))
    ensures description.Some? && !(0 <= outcomeIdx as int < |s.choices|) ==> r == Failure(IllegalArgument(NoChoiceAt(outcomeIdx)))
    ensures description.Some? && 0 <= outcomeIdx as int < |s.choices| && Updates(s.statuses, consequences).Failure? ==>
      r == Failure(Updates(s.statuses, consequences).error)
    ensures r.Success? ==> Sound(r.value)
    ensures r.Success? ==> (
      var u, o, c := Updates(s.statuses, consequences).value, s.choices[outcomeIdx], s.choices[choiceIdx];
      if |u.keys| == 0 then Added(s, r.value, Simple(description.value, o), c, [])
      else Added(s, r.value, Consequential(description.value, o, u), c, u.keys))
  {
    if description.None? then Failure(IllegalArgument(NULL_DESCRIPTION))
    else
      match ChoiceAt(s, outcomeIdx)
      case Failure(e) => Failure(e)
      case Success(outcome) =>
        match Updates(s.statuses, consequences)
        case Failure(e) => Failure(e)
        case Success(u) =>
          if |u.keys| == 0 then AddDecisionTo(s, Simple(description.value, outcome), choiceIdx, [])
          else AddDecisionTo(s, Consequential(description.value, outcome, u), choiceIdx, u.keys)
  }

  /** The determiner and its checks, shared by both threshold operations: the description,
      the dependency, the below outcome, then the meets outcome. */
  function Threshold(s: Draft, description: Option<string>, dependency: Option<string>, threshold: int32,
                     belowIdx: int32, meetsIdx: int32): (r: Result<Determiner>)
    ensures r.Success? <==> (CanDepend(s, description, dependency).Pass?
      && 0 <= belowIdx as int < |s.choices| && 0 <= meetsIdx as int < |s.choices|)
    ensures r.Success? ==> r.value == TwoThreshold(dependency.value, threshold, s.choices[belowIdx], s.choices[meetsIdx])
  {
    match CanDepend(s, description, dependency)
    case Fail(e) => Failure(e)
    case Pass =>
      match ChoiceAt(s, belowIdx)
      case Failure(e) => Failure(e)
      case Success(below) =>
        match ChoiceAt(s, meetsIdx)
        case Failure(e) => Failure(e)
        case Success(meets) => Success(TwoThreshold(dependency.value, threshold, below, meets))
  }

  /** `addSimpleDependentThresholdDecision(...)`: a dependent decision whose delegate is a
      simple one leading to `below`; it records the dependency. */
  function AddThreshold(s: Draft, description: Option<string>, choiceIdx: int32, dependency: Option<string>,
                        threshold: int32, belowIdx: int32, meetsIdx: int32): (r: Result<Draft>)
    requires Sound(s)
    ensures r.Success? <==> (Threshold(s, description, dependency, threshold, belowIdx, meetsIdx).Success?
      && 0 <= choiceIdx as int < |s.choices|)
    ensures Threshold(s, description, dependency, threshold, belowIdx, meetsIdx).Failure? ==>
      r == Failure(Threshold(s, description, dependency, threshold, belowIdx, meetsIdx).error)
    ensures r.Success? ==> Sound(r.value)
    ensures r.Success? ==> (
      var det := Threshold(s, description, dependency, threshold, belowIdx, meetsIdx).value;
      Added(s, r.value, Dependent(Simple(description.value, det.below), det), s.choices[choiceIdx], [dependency.value]))
  {
    match Threshold(s, description, dependency, threshold, belowIdx, meetsIdx)
    case Failure(e) => Failure(e)
    case Success(det) =>
      AddDecisionTo(s, Dependent(Simple(description.value, det.below), det), choiceIdx, [dependency.value])
  }

  /** `addConsequentialThresholdDecision(...)`: without any update it adds the decision of
      `AddThreshold` but records no dependency; otherwise the delegate is consequential and
      the record is the dependency followed by the updated statuses. */
  function AddConsequentialThreshold(s: Draft, description: Option<string>, choiceIdx: int32,
                                     dependency: Option<string>, threshold: int32, belowIdx: int32,
                                     meetsIdx: int32, consequences: Option<seq<Option<string>>>): (r: Result<Draft>)
    requires Sound(s)
    ensures r.Success? <==> (Threshold(s, description, dependency, threshold, belowIdx, meetsIdx).Success?
      && Updates(s.statuses, consequences).Success? && 0 <= choiceIdx as int < |s.choices|)
    ensures Threshold(s, description, dependency, threshold, belowIdx, meetsIdx).Failure? ==>
      r == Failure(Threshold(s, description, dependency, threshold, belowIdx, meetsIdx).error)
    ensures r.Success? ==> Sound(r.value)
    ensures r.Success? ==> (
      var det, u := Threshold(s, description, dependency, threshold, belowIdx, meetsIdx).value,
                    Updates(s.statuses, consequences).value;
      if |u.keys| == 0 then
        Added(s, r.value, Dependent(Simple(description.value, det.below), det), s.choices[choiceIdx], [])
      else
        Added(s, r.value, Dependent(Consequential(description.value, det.below, u), det), s.choices[choiceIdx],
              [dependency.value] + u.keys))
  {
    match Threshold(s, description, dependency, threshold, belowIdx, meetsIdx)
    case Failure(e) => Failure(e)
    case Success(det) =>
      match Updates(s.statuses, consequences)
      case Failure(e) => Failure(e)
      case Success(u) =>
        if |u.keys| == 0 then
          AddDecisionTo(s, Dependent(Simple(description.value, det.below), det), choiceIdx, [])
        else
          AddDecisionTo(s, Dependent(Consequential(description.value, det.below, u), det), choiceIdx,
                        [dependency.value] + u.keys)
  }

  /** The option list of choice `c` once option `j` is removed. */
  function Dropped(g: Graph, c: ChoiceId, j: nat): Graph
    requires c < |g.options| && j < |g.options[c]|
  {
    Graph(g.options[c := g.options[c][..j] + g.options[c][j + 1..]], g.decisions)
  }

  /** `removeDecision(choiceIdx, decisionIdx)`: option `decisionIdx` of the choice goes, and
      the decision leaves the decision list and the dependency records unless another listed
      choice still offers it. */
  function RemoveDecision(s: Draft, choiceIdx: int32, decisionIdx: int32): (r: Result<Draft>)
    requires Sound(s)
    ensures r.Success? <==> 0 <= choiceIdx as int < |s.choices| && 0 <= decisionIdx as int < |s.graph.options[s.choices[choiceIdx]]|
    ensures !(0 <= choiceIdx as int < |s.choices|) ==> r == Failure(IllegalArgument(NoChoiceAt(choiceIdx)))
    ensures 0 <= choiceIdx as int < |s.choices| && !(0 <= decisionIdx as int < |s.graph.options[s.choices[choiceIdx]]|) ==>
      r == Failure(IllegalArgument(NoDecisionAt(decisionIdx)))
    ensures r.Success? ==> Sound(r.value)
    ensures r.Success? ==> (
      var c := s.choices[choiceIdx];
      var d := s.graph.options[c][decisionIdx];
      var g := Dropped(s.graph, c, decisionIdx as int);
      && r.value.graph == g
      && r.value.name == s.name && r.value.statuses == s.statuses && r.value.choices == s.choices && r.value.first == s.first
      && (IsAnOption(s.choices, g.options, d) ==> r.value.decisions == s.decisions && r.value.dependencies == s.dependencies)
      && (!IsAnOption(s.choices, g.options, d) ==>
           r.value.decisions == Erase(s.decisions, d) && r.value.dependencies == s.dependencies - {d}))
  {
    match ChoiceAt(s, choiceIdx)
    case Failure(e) => Failure(e)
    case Success(c) =>
      if 0 <= decisionIdx as int < |s.graph.options[c]| then
        var d := s.graph.options[c][decisionIdx];
        var g := Dropped(s.graph, c, decisionIdx as int);
        var t := if IsAnOption(s.choices, g.options, d) then s.(graph := g)
                 else s.(graph := g, decisions := Erase(s.decisions, d), dependencies := s.dependencies - {d});
        DroppedSound(s, t, c, decisionIdx as int);
        Success(t)
      else Failure(IllegalArgument(NoDecisionAt(decisionIdx)))
  }

  lemma DroppedSound(s: Draft, t: Draft, c: ChoiceId, j: nat)
    requires Sound(s) && c in s.choices && c < |s.graph.options| && j < |s.graph.options[c]|
    requires var g, d := Dropped(s.graph, c, j), s.graph.options[c][j];
      t == if IsAnOption(s.choices, g.options, d) then s.(graph := g)
           else s.(graph := g, decisions := Erase(s.decisions, d), dependencies := s.dependencies - {d})
    ensures Sound(t)
  {
    var g, d := Dropped(s.graph, c, j), s.graph.options[c][j];
    DroppedClosed(s.graph, c, j);
    if IsAnOption(s.choices, g.options, d) {
      DroppedStocked(s, s.(graph := g), c, j);
    } else {
      DroppedStocked(s, t, c, j);
      assert Linked(t);
    }
  }

  /** Dropping an option keeps the heap closed. */
  lemma DroppedClosed(g: Graph, c: ChoiceId, j: nat)
    requires Closed(g) && c < |g.options| && j < |g.options[c]|
    ensures Closed(Dropped(g, c, j))
  {
    var h := Dropped(g, c, j);
    forall x | 0 <= x < |h.decisions|
      ensures Points(h, h.decisions[x])
    {
      assert Points(g, g.decisions[x]);
    }
  }

  /** After option `j` of `c` goes, every remaining option of a listed choice is still listed,
      provided the dropped decision leaves the list only when no listed choice offers it. */
  lemma DroppedStocked(s: Draft, t: Draft, c: ChoiceId, j: nat)
    requires Stocked(s) && c < |s.graph.options| && j < |s.graph.options[c]|
    requires t.graph == Dropped(s.graph, c, j) && t.choices == s.choices
    requires var d := s.graph.options[c][j];
      || t.decisions == s.decisions
      || (Unique(s.decisions) && t.decisions == Erase(s.decisions, d) && !IsAnOption(s.choices, t.graph.options, d))
    ensures Stocked(t)
  {
    var opts := s.graph.options[c];
    assert forall x :: x in opts[..j] + opts[j + 1..] ==> x in opts;
    forall x, y | x in t.choices && x < |t.graph.options| && y in t.graph.options[x]
      ensures y in t.decisions
    {
      assert y in s.graph.options[x];
    }
  }

  /** `removeChoice(idx)`: a choice that no listed decision can lead to and that is not the
      initial one leaves the choice list; the stored initial index is left as it is. */
  function RemoveChoice(s: Draft, idx: int32): (r: Result<Draft>)
    requires Sound(s)
    ensures r.Success? <==> 0 <= idx as int < |s.choices| && !IsAnOutcome(s, s.choices[idx]) && s.first != idx as int
    ensures !(0 <= idx as int < |s.choices|) ==> r == Failure(IllegalArgument(NoChoiceAt(idx)))
    ensures 0 <= idx as int < |s.choices| && r.Failure? ==> r == Failure(IllegalArgument(CHOICE_IN_USE))
    ensures r.Success? ==> Sound(r.value) && r.value == s.(choices := s.choices[..idx] + s.choices[idx as int + 1..])
  {
    match ChoiceAt(s, idx)
    case Failure(e) => Failure(e)
    case Success(c) =>
      if !IsAnOutcome(s, c) && s.first != idx as int then
        var t := s.(choices := Erase(s.choices, c));
        EraseAt(s.choices, idx as int);
        assert Linked(t) by {
          forall d, o | d in t.decisions && d < |t.graph.decisions| && o in PossibleOutcomes(t.graph.decisions[d])
            ensures o in t.choices
          {
            assert o != c;
          }
        }
        Success(t)
      else Failure(IllegalArgument(CHOICE_IN_USE))
  }

  /** The choice `create()` starts at: a fresh end choice (`None`) while no initial choice is
      set, else the listed choice at the stored index, and `IndexOutOfBoundsException` once
      that index is past the end of the list. */
  function Start(s: Draft): (r: Result<Option<ChoiceId>>)
    ensures r == Success(None) <==> s.first == -1
    ensures r.Success? && r.value.Some? ==> 0 <= s.first < |s.choices| && r.value.value == s.choices[s.first]
    ensures r.Failure? <==> s.first != -1 && !(0 <= s.first < |s.choices|)
    ensures r.Failure? ==> r.error == IndexOutOfBounds
  {
    if s.first == -1 then Success(None)
    else if 0 <= s.first < |s.choices| then Success(Some(s.choices[s.first]))
    else Failure(IndexOutOfBounds)
  }

  // Properties relating several operations

  /** Adding a new status and removing it again gives back the statuses, order included. */
  lemma AddThenRemoveStatus(s: Draft, name: string, val: int32)
    requires !Has(s.statuses, name) && !IsUsedStatus(s, name)
    ensures AddStatusEntry(s, Some(name), val).Success?
    ensures RemoveStatusEntry(AddStatusEntry(s, Some(name), val).value, Some(name)) == Success(s)
  {
    var t := AddStatusEntry(s, Some(name), val).value;
    assert t.statuses.keys == s.statuses.keys + [name];
    WithoutAppended(s.statuses.keys, name);
    SameTable(Remove(t.statuses, name), s.statuses);
  }

  lemma {:induction false} WithoutAppended(keys: seq<string>, k: string)
    requires k !in keys
    ensures Without(keys + [k], k) == keys
  {
    if |keys| > 0 {
      assert (keys + [k])[1..] == keys[1..] + [k];
      WithoutAppended(keys[1..], k);
    } else {
      assert keys + [k] == [k];
    }
  }

  /** A threshold decision records its dependency, so that status can no longer be removed. */
  lemma ThresholdBlocksRemoval(s: Draft, description: Option<string>, choiceIdx: int32, dependency: Option<string>,
                               threshold: int32, belowIdx: int32, meetsIdx: int32)
    requires Sound(s)
    requires AddThreshold(s, description, choiceIdx, dependency, threshold, belowIdx, meetsIdx).Success?
    ensures RemoveStatusEntry(AddThreshold(s, description, choiceIdx, dependency, threshold, belowIdx, meetsIdx).value, dependency)
      == Failure(IllegalArgument(STATUS_IN_USE))
  {
    var t := AddThreshold(s, description, choiceIdx, dependency, threshold, belowIdx, meetsIdx).value;
    var id := |s.graph.decisions|;
    assert dependency.value in t.dependencies[id];
  }

  /** The statuses a consequential decision updates can no longer be removed. */
  lemma ConsequencesBlockRemoval(s: Draft, description: Option<string>, choiceIdx: int32, outcomeIdx: int32,
                                 consequences: Option<seq<Option<string>>>, name: string)
    requires Sound(s)
    requires AddConsequential(s, description, choiceIdx, outcomeIdx, consequences).Success?
    requires name in Updates(s.statuses, consequences).value.values
    ensures RemoveStatusEntry(AddConsequential(s, description, choiceIdx, outcomeIdx, consequences).value, Some(name))
      == Failure(IllegalArgument(STATUS_IN_USE))
  {
    var t := AddConsequential(s, description, choiceIdx, outcomeIdx, consequences).value;
    var u := Updates(s.statuses, consequences).value;
    var id := |s.graph.decisions|;
    UpdatesProperties(s.statuses, consequences);
    assert name in u.keys;
    assert Has(t.statuses, name);
    assert id in t.dependencies && name in t.dependencies[id];
    assert IsUsedStatus(t, name);
  }

  /** A consequential threshold decision without any update records nothing, so it blocks the
      removal of no status, its own dependency included. */
  lemma EmptyThresholdRecordsNothing(s: Draft, description: Option<string>, choiceIdx: int32,
                                     dependency: Option<string>, threshold: int32, belowIdx: int32,
                                     meetsIdx: int32, consequences: Option<seq<Option<string>>>, name: string)
    requires Sound(s)
    requires AddConsequentialThreshold(s, description, choiceIdx, dependency, threshold, belowIdx, meetsIdx, consequences).Success?
    requires |Updates(s.statuses, consequences).value.keys| == 0
    ensures var t := AddConsequentialThreshold(s, description, choiceIdx, dependency, threshold, belowIdx, meetsIdx, consequences).value;
      IsUsedStatus(t, name) == IsUsedStatus(s, name)
  {
    var t := AddConsequentialThreshold(s, description, choiceIdx, dependency, threshold, belowIdx, meetsIdx, consequences).value;
    var id := |s.graph.decisions|;
    assert id !in s.decisions;
    if IsUsedStatus(s, name) {
      var d :| d in s.dependencies && name in s.dependencies[d];
      assert d in t.dependencies && t.dependencies[d] == s.dependencies[d];
    }
    if IsUsedStatus(t, name) {
      var d :| d in t.dependencies && name in t.dependencies[d];
      assert d != id;
    }
  }

  /** Removing the choice just added gives back the choice list; the heap keeps the choice
      object. */
  lemma AddThenRemoveChoice(s: Draft)
    requires Sound(s) && s.first != |s.choices| && |s.choices| < MAX
    ensures var (t, i) := AddChoice(s);
      RemoveChoice(t, i as int32) == Success(t.(choices := s.choices))
  {
    var (t, i) := AddChoice(s);
    var c := |s.graph.options|;
    assert t.choices[..i] + t.choices[i + 1..] == s.choices;
  }

  /** Removing the option just added by `addSimpleDecision` gives back the choice lists and
      the decision records; the heap keeps the decision object. */
  lemma AddThenRemoveDecision(s: Draft, description: Option<string>, choiceIdx: int32, outcomeIdx: int32)
    requires Sound(s)
    requires AddSimple(s, description, choiceIdx, outcomeIdx).Success?
    requires |s.graph.options[s.choices[choiceIdx]]| < MAX
    ensures var t := AddSimple(s, description, choiceIdx, outcomeIdx).value;
      var n := |s.graph.options[s.choices[choiceIdx]]| as int32;
      RemoveDecision(t, choiceIdx, n) == Success(s.(graph := Graph(s.graph.options, t.graph.decisions)))
  {
    var t := AddSimple(s, description, choiceIdx, outcomeIdx).value;
    var c := s.choices[choiceIdx];
    var n := |s.graph.options[c]|;
    var id := |s.graph.decisions|;
    assert t.graph.options[c][n] == id;
    var g := Dropped(t.graph, c, n);
    assert t.graph.options[c][..n] + t.graph.options[c][n + 1..] == s.graph.options[c];
    assert g.options == s.graph.options;
    assert !IsAnOption(t.choices, g.options, id);
    EraseAt(t.decisions, |s.decisions|);
    assert t.decisions[..|s.decisions|] + t.decisions[|s.decisions| + 1..] == s.decisions;
    assert id !in s.dependencies;
    assert t.dependencies - {id} == s.dependencies;
  }

  /** `removeChoice` leaves the stored initial index as it is, so removing a choice listed
      before the initial one makes `create()` start at the next choice, or fail once the
      initial one was last; removing any other choice leaves the start alone. */
  lemma RemoveChoiceMovesStart(s: Draft, idx: int32)
    requires Sound(s) && RemoveChoice(s, idx).Success?
    ensures var t := RemoveChoice(s, idx).value;
      && (!(idx as int < s.first < |s.choices|) ==> Start(t) == Start(s))
      && (idx as int < s.first < |s.choices| - 1 ==> Start(t) == Success(Some(s.choices[s.first + 1])))
      && (idx as int < s.first == |s.choices| - 1 ==> Start(t) == Failure(IndexOutOfBounds))
  {
  }

  /** A new choice object in the heap that no list names (the end choice `create()` makes)
      keeps the draft sound. */
  lemma EndChoiceKeepsSound(s: Draft)
    requires Sound(s)
    ensures Sound(s.(graph := Graph(s.graph.options + [[]], s.graph.decisions)))
  {
    var t := s.(graph := Graph(s.graph.options + [[]], s.graph.decisions));
    assert forall x :: 0 <= x < |s.graph.options| ==> t.graph.options[x] == s.graph.options[x];
    assert Closed(t.graph) by {
      forall x | 0 <= x < |t.graph.decisions|
        ensures Points(t.graph, t.graph.decisions[x])
      {
        assert Points(s.graph, s.graph.decisions[x]);
      }
    }
    assert forall x :: x in s.choices ==> x < |s.graph.options| by {
      forall x | x in s.choices ensures x < |s.graph.options| {
        var i :| 0 <= i < |s.choices| && s.choices[i] == x;
      }
    }
  }

  /** Filling the empty record `addDecision` leaves gives the record the caller means. */
  lemma RecordAfterAdd(s: Draft, d: Decision, choiceIdx: int32, deps: seq<string>)
    requires Sound(s)
    requires forall c :: c in ReferencedChoices(d) ==> c in s.choices
    requires AddDecisionTo(s, d, choiceIdx, []).Success?
    ensures var t, id := AddDecisionTo(s, d, choiceIdx, []).value, |s.graph.decisions|;
      AddDecisionTo(s, d, choiceIdx, deps) == Success(t.(dependencies := t.dependencies[id := deps]))
  {
    var t, id := AddDecisionTo(s, d, choiceIdx, []).value, |s.graph.decisions|;
    var u := AddDecisionTo(s, d, choiceIdx, deps).value;
    assert t.dependencies[id := deps] == s.dependencies[id := deps];
    assert u == t.(dependencies := t.dependencies[id := deps]);
  }
}
