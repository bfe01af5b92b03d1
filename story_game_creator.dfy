/** `StoryGameCreator`, the object an author edits a story through. Its fields are those of
    the class; choices and decisions are handles into the story's heap `arena`, whose option
    lists stand for the lists the `options` map hands out. `State()` reads the fields and the
    heap as a `Draft`, and every editing method is proved to move that draft exactly as the
    matching function of `Drafts` does, so the properties proved there hold of the object. */
module Creator {
  import opened Wrappers
  import opened Tables
  import opened JavaInt
  import opened Utils
  import opened IOUtils
  import opened StatusUpdates
  import opened Decisions
  import opened Choices
  import opened Handles
  import opened Nodes
  import opened Games
  import opened Drafts

  const NULL_STORY := "Story can't be null"

  /** A method either completes the step its function describes, or throws the step's
      exception and leaves the draft as it was. */
  ghost predicate Performed(before: Draft, after: Draft, step: Result<Draft>, r: Outcome) {
    if step.Success? then after == step.value && r == Pass
    else after == before && r == Fail(step.error)
  }

  /** A `List<String>` argument that may be `null`, as the consequence functions take it. */
  ghost function ItemsOf(list: NullableList?<string>): Option<seq<Option<string>>>
    reads list
  {
    if list == null then None else Some(list.items)
  }

  /** The dependency records the story constructor builds: `getDependencies()` of each decision.
      `SimpleDecision`, and so `ConsequentialDecision`, report none; `DependentDecision` does not
      define the method, and the model gives it the same empty record. */
  method EmptyRecords(ds: seq<DecisionId>) returns (deps: map<DecisionId, seq<string>>)
    ensures deps == map d | d in ds :: []
  {
    deps := map[];
    var i := 0;
    while i < |ds|
      invariant 0 <= i <= |ds|
      invariant deps == map d | d in ds[..i] :: []
    {
      assert ds[..i + 1] == ds[..i] + [ds[i]];
      deps := deps[ds[i] := []];
      i := i + 1;
    }
    assert ds[..i] == ds;
  }

  /** `new StoryGameCreator(story)`, the `null` story included. */
  method FromStory(story: StoryGame?) returns (r: Result<StoryGameCreator>)
    requires story != null ==> story.Valid()
    ensures story == null ==> r == Failure(IllegalArgument(NULL_STORY))
    ensures story != null ==> r.Success? && fresh(r.value) && r.value.Valid()
    ensures story != null ==> r.value.arena == story.arena && r.value.statuses == story.statuses
    ensures story != null ==>
      r.value.State() == FromWalk(story.name, story.statuses.table, story.arena.graph, story.CurrentChoice())
  {
    if story == null {
      return Failure(IllegalArgument(NULL_STORY));
    }
    var creator := new StoryGameCreator.Of(story);
    r := Success(creator);
  }

  class StoryGameCreator {
    var storyName: string
    /** Shared with the game a creator is made from. */
    const statuses: StatusTable
    const arena: Arena
    var choices: seq<ChoiceId>
    var firstChoice: int
    var decisions: seq<DecisionId>
    var dependencies: map<DecisionId, seq<string>>

    /** The fields and the heap as a draft. */
    ghost function State(): Draft
      reads this, arena, statuses
    {
      Draft(storyName, statuses.table, choices, firstChoice, decisions, dependencies, arena.graph)
    }

    ghost predicate Valid()
      reads this, arena, statuses
    {
      Sound(State())
    }

    /** `new StoryGameCreator(storyName)`. */
    constructor (name: Option<string>)
      ensures Valid() && fresh(arena) && fresh(statuses)
      ensures State() == Blank(name)
    {
      storyName := if name.None? then UNTITLED else name.value;
      statuses := new StatusTable(Empty());
      arena := new Arena();
      choices := [];
      firstChoice := -1;
      decisions := [];
      dependencies := map[];
    }

    /** `new StoryGameCreator(story)` on a story: the choices and decisions `createNodes`
        finds, the story's own status object and heap, and the current choice, which the
        walk lists first, as the initial one. */
    constructor Of(story: StoryGame)
      requires story.Valid()
      ensures Valid() && arena == story.arena && statuses == story.statuses
      ensures State() == FromWalk(story.name, story.statuses.table, story.arena.graph, story.CurrentChoice())
    {
      var g, start := story.arena.graph, story.CurrentChoice();
      var nodes := CreateNodes(story);
      NodesOfStrings(g, start);
      var expected := FromWalk(story.name, story.statuses.table, g, start);
      IndexOfUnique(nodes.choices, 0);
      var deps := EmptyRecords(nodes.decisions);
      storyName := story.name;
      statuses := story.statuses;
      arena := story.arena;
      choices := nodes.choices;
      firstChoice := IndexOf(nodes.choices, start);
      decisions := nodes.decisions;
      dependencies := deps;
    }

    /** `create()`: the game starts at a fresh end choice while no initial choice is set, else
        at the initial choice, with a copy of the statuses; an initial index past the end of
        the list throws `IndexOutOfBoundsException` before anything is made. */
    method Create() returns (r: Result<StoryGame>)
      requires Valid()
      modifies arena
      ensures Valid()
      ensures var start := Start(old(State()));
        && (r.Success? <==> start.Success?)
        && (start.Failure? ==> r == Failure(start.error) && arena.graph == old(arena.graph))
        && (start == Success(None) ==>
             arena.graph == Graph(old(arena.graph.options) + [[]], old(arena.graph.decisions))
             && r.value.history == [|old(arena.graph.options)|])
        && (start.Success? && start.value.Some? ==>
             arena.graph == old(arena.graph) && r.value.history == [start.value.value])
      ensures r.Success? ==> fresh(r.value) && fresh(r.value.statuses) && r.value.Valid()
      ensures r.Success? ==> r.value.name == storyName && r.value.arena == arena && !r.value.fixed
      ensures r.Success? ==> r.value.statuses.table == statuses.table && r.value.originalStatuses == statuses.table
    {
      var first: ChoiceId;
      if firstChoice == -1 {
        EndChoiceKeepsSound(State());
        first := arena.EndChoice();
      } else if 0 <= firstChoice < |choices| {
        first := choices[firstChoice];
      } else {
        return Failure(IndexOutOfBounds);
      }
      var copy := CopyStatuses();
      DropNullsOfLift(copy);
      var game := new StoryGame(storyName, arena, first, Lift(copy));
      r := Success(game);
    }

    /** `setStoryName(name)`. */
    method SetStoryName(name: Option<string>) returns (r: Outcome)
      requires Valid()
      modifies this
      ensures Valid()
      ensures Performed(old(State()), State(), Drafts.SetStoryName(old(State()), name), r)
    {
      if name.None? {
        return Fail(IllegalArgument(NULL_NAME));
      }
      storyName := name.value;
      r := Pass;
    }

    /** `addStatus(name, val)`: `replace` and `put` both leave the key where it is. */
    method AddStatus(name: Option<string>, val: int32) returns (r: Outcome)
      requires Valid()
      modifies statuses
      ensures Valid()
      ensures Performed(old(State()), State(), AddStatusEntry(old(State()), name, val), r)
    {
      if name.None? {
        return Fail(IllegalArgument(NULL_STATUS_NAME));
      }
      statuses.Store(name.value, val);
      r := Pass;
    }

    /** `removeStatus(name)`. */
    method RemoveStatus(name: Option<string>) returns (r: Outcome)
      requires Valid()
      modifies statuses
      ensures Valid()
      ensures Performed(old(State()), State(), RemoveStatusEntry(old(State()), name), r)
    {
      if name.None? {
        return Fail(IllegalArgument(NULL_STATUS_NAME));
      }
      var used := IsUsedStatus(name.value);
      if Has(statuses.table, name.value) && !used {
        statuses.Discard(name.value);
        r := Pass;
      } else if Has(statuses.table, name.value) {
        r := Fail(IllegalArgument(STATUS_IN_USE));
      } else {
        r := Fail(IllegalArgument(NoStatus(name.value)));
      }
    }

    /** `addChoice()`: a choice made of a new empty option list, listed last. */
    method AddChoice() returns (i: nat)
      requires Valid()
      modifies this, arena
      ensures Valid()
      ensures (State(), i) == Drafts.AddChoice(old(State()))
    {
      var c := arena.NewChoice(Some([]));
      choices := choices + [c.value];
      i := |choices| - 1;
    }

    /** `setInitialChoice(idx)`. */
    method SetInitialChoice(idx: int32) returns (r: Outcome)
      requires Valid()
      modifies this
      ensures Valid()
      ensures Performed(old(State()), State(), Drafts.SetInitialChoice(old(State()), idx), r)
    {
      var choice := EnsureChoiceExists(idx);
      if choice.Failure? {
        return Fail(choice.error);
      }
      firstChoice := idx as int;
      r := Pass;
    }

    /** `addSimpleDecision(description, choiceIdx, outcomeIdx)`. */
    method AddSimpleDecision(description: Option<string>, choiceIdx: int32, outcomeIdx: int32) returns (r: Outcome)
      requires Valid()
      modifies this, arena
      ensures Valid()
      ensures Performed(old(State()), State(), AddSimple(old(State()), description, choiceIdx, outcomeIdx), r)
    {
      if description.None? {
        return Fail(IllegalArgument(NULL_DESCRIPTION));
      }
      var outcome := EnsureChoiceExists(outcomeIdx);
      if outcome.Failure? {
        return Fail(outcome.error);
      }
      r := AddRecorded(Simple(description.value, outcome.value), choiceIdx, []);
    }

    /** `addConsequentialDecision(description, choiceIdx, outcomeIdx, consequences)`. The
        nulls leave the caller's list once the description and the outcome have passed. */
    method AddConsequentialDecision(description: Option<string>, choiceIdx: int32, outcomeIdx: int32,
                                    consequences: NullableList?<string>) returns (r: Outcome)
      requires Valid()
      modifies this, arena, consequences
      ensures Valid()
      ensures Performed(old(State()), State(),
                        AddConsequential(old(State()), description, choiceIdx, outcomeIdx, old(ItemsOf(consequences))), r)
      ensures consequences != null ==>
                var passed := description.Some? && 0 <= outcomeIdx as int < |old(choices)|;
                consequences.items == (if passed then Compact(old(consequences.items)) else old(consequences.items))
    {
      ghost var s, items := State(), ItemsOf(consequences);
      if description.None? {
        return Fail(IllegalArgument(NULL_DESCRIPTION));
      }
      var outcome := EnsureChoiceExists(outcomeIdx);
      if outcome.Failure? {
        assert AddConsequential(s, description, choiceIdx, outcomeIdx, items) == Failure(outcome.error);
        return Fail(outcome.error);
      }
      var updates := GetUpdates(consequences);
      if updates.Failure? {
        assert AddConsequential(s, description, choiceIdx, outcomeIdx, items) == Failure(updates.error);
        return Fail(updates.error);
      }
      var u := updates.value;
      if |u.keys| == 0 {
        var d := Simple(description.value, outcome.value);
        assert AddConsequential(s, description, choiceIdx, outcomeIdx, items) == AddDecisionTo(s, d, choiceIdx, []);
        r := AddRecorded(d, choiceIdx, []);
      } else {
        var d := Consequential(description.value, outcome.value, u);
        assert AddConsequential(s, description, choiceIdx, outcomeIdx, items) == AddDecisionTo(s, d, choiceIdx, u.keys);
        r := AddRecorded(d, choiceIdx, u.keys);
      }
    }

    /** `addSimpleDependentThresholdDecision(...)`. */
    method AddSimpleDependentThresholdDecision(description: Option<string>, choiceIdx: int32,
                                               dependency: Option<string>, threshold: int32,
                                               belowIdx: int32, meetsIdx: int32) returns (r: Outcome)
      requires Valid()
      modifies this, arena
      ensures Valid()
      ensures Performed(old(State()), State(),
                        AddThreshold(old(State()), description, choiceIdx, dependency, threshold, belowIdx, meetsIdx), r)
    {
      ghost var s := State();
      var det := CheckThreshold(description, dependency, threshold, belowIdx, meetsIdx);
      if det.Failure? {
        return Fail(det.error);
      }
      var d := Dependent(Simple(description.value, det.value.below), det.value);
      assert AddThreshold(s, description, choiceIdx, dependency, threshold, belowIdx, meetsIdx)
        == AddDecisionTo(s, d, choiceIdx, [dependency.value]);
      r := AddRecorded(d, choiceIdx, [dependency.value]);
    }

    /** The checks both threshold methods make before their decision is built: the
        description and the dependency, then the two outcomes. */
    method CheckThreshold(description: Option<string>, dependency: Option<string>, threshold: int32,
                          belowIdx: int32, meetsIdx: int32) returns (r: Result<Determiner>)
      requires Valid()
      ensures r == Threshold(State(), description, dependency, threshold, belowIdx, meetsIdx)
    {
      var can := EnsureCanMakeDependentDecision(description, dependency);
      if can.Fail? {
        return Failure(can.error);
      }
      var below := EnsureChoiceExists(belowIdx);
      if below.Failure? {
        return Failure(below.error);
      }
      var meets := EnsureChoiceExists(meetsIdx);
      if meets.Failure? {
        return Failure(meets.error);
      }
      r := Success(TwoThreshold(dependency.value, threshold, below.value, meets.value));
    }

    /** `addConsequentialThresholdDecision(...)`. The nulls leave the caller's list once the
        description, the dependency and both outcomes have passed. */
    method AddConsequentialThresholdDecision(description: Option<string>, choiceIdx: int32,
                                             dependency: Option<string>, threshold: int32,
                                             belowIdx: int32, meetsIdx: int32,
                                             consequences: NullableList?<string>) returns (r: Outcome)
      requires Valid()
      modifies this, arena, consequences
      ensures Valid()
      ensures Performed(old(State()), State(),
                        AddConsequentialThreshold(old(State()), description, choiceIdx, dependency, threshold,
                                                  belowIdx, meetsIdx, old(ItemsOf(consequences))), r)
      ensures consequences != null ==>
                var passed := Threshold(old(State()), description, dependency, threshold, belowIdx, meetsIdx).Success?;
                consequences.items == (if passed then Compact(old(consequences.items)) else old(consequences.items))
    {
      ghost var s, items := State(), ItemsOf(consequences);
      var checked := CheckThreshold(description, dependency, threshold, belowIdx, meetsIdx);
      if checked.Failure? {
        return Fail(checked.error);
      }
      var det := checked.value;
      var updates := GetUpdates(consequences);
      if updates.Failure? {
        assert AddConsequentialThreshold(s, description, choiceIdx, dependency, threshold, belowIdx, meetsIdx, items)
          == Failure(updates.error);
        return Fail(updates.error);
      }
      var u := updates.value;
      assert State() == s;
      r := AddDependentWithUpdates(description.value, choiceIdx, dependency.value, det, u);
    }

    /** The tail of `addConsequentialThresholdDecision` once the updates are read: without
        updates a simple delegate and no record; otherwise a consequential delegate, and the
        dependency recorded before the updated statuses. */
    method AddDependentWithUpdates(description: string, choiceIdx: int32, dependency: string,
                                   det: Determiner, u: Table<StatusUpdate>) returns (r: Outcome)
      requires Valid()
      requires det.below in choices && det.meets in choices
      modifies this, arena
      ensures Valid()
      ensures Performed(old(State()), State(),
                        if |u.keys| == 0 then AddDecisionTo(old(State()), Dependent(Simple(description, det.below), det), choiceIdx, [])
                        else AddDecisionTo(old(State()), Dependent(Consequential(description, det.below, u), det), choiceIdx,
                                           [dependency] + u.keys), r)
    {
      if |u.keys| == 0 {
        r := AddRecorded(Dependent(Simple(description, det.below), det), choiceIdx, []);
      } else {
        r := AddRecorded(Dependent(Consequential(description, det.below, u), det), choiceIdx, [dependency] + u.keys);
      }
    }

    /** `removeDecision(choiceIdx, decisionIdx)`: the option goes first, then the decision
        leaves the lists unless another listed choice still offers it. */
    method RemoveDecision(choiceIdx: int32, decisionIdx: int32) returns (r: Outcome)
      requires Valid()
      modifies this, arena
      ensures Valid()
      ensures Performed(old(State()), State(), Drafts.RemoveDecision(old(State()), choiceIdx, decisionIdx), r)
    {
      ghost var s := State();
      var choice := EnsureChoiceExists(choiceIdx);
      if choice.Failure? {
        return Fail(choice.error);
      }
      var c := choice.value;
      assert c < |arena.graph.options|;
      if 0 <= decisionIdx as int < |arena.graph.options[c]| {
        ghost var step := Drafts.RemoveDecision(s, choiceIdx, decisionIdx);
        var d := arena.graph.options[c][decisionIdx];
        arena.RemoveOption(c, decisionIdx as nat);
        assert arena.graph == step.value.graph;
        var offered := IsAnOption(d);
        if !offered {
          decisions := Erase(decisions, d);
          dependencies := dependencies - {d};
        }
        assert State() == step.value;
        r := Pass;
      } else {
        r := Fail(IllegalArgument(NoDecisionAt(decisionIdx)));
      }
    }

    /** `removeChoice(choiceIdx)`. */
    method RemoveChoice(idx: int32) returns (r: Outcome)
      requires Valid()
      modifies this
      ensures Valid()
      ensures Performed(old(State()), State(), Drafts.RemoveChoice(old(State()), idx), r)
    {
      var choice := EnsureChoiceExists(idx);
      if choice.Failure? {
        return Fail(choice.error);
      }
      var outcome := IsAnOutcome(choice.value);
      if !outcome && firstChoice != idx as int {
        choices := Erase(choices, choice.value);
        r := Pass;
      } else {
        r := Fail(IllegalArgument(CHOICE_IN_USE));
      }
    }

    /** `getStatuses()`: a copy, so that the caller cannot change the creator's statuses. */
    method GetStatuses() returns (copy: Table<int32>)
      ensures copy == statuses.table
    {
      copy := CopyStatuses();
    }

    // The private validators and helpers

    /** `ensureChoiceExists(idx)`. */
    method EnsureChoiceExists(idx: int32) returns (r: Result<ChoiceId>)
      ensures r == ChoiceAt(State(), idx)
    {
      if 0 <= idx as int < |choices| {
        r := Success(choices[idx]);
      } else {
        r := Failure(IllegalArgument(NoChoiceAt(idx)));
      }
    }

    /** `ensureCanMakeDependentDecision(description, dependency)`. */
    method EnsureCanMakeDependentDecision(description: Option<string>, dependency: Option<string>) returns (r: Outcome)
      ensures r == CanDepend(State(), description, dependency)
    {
      if description.None? {
        return Fail(IllegalArgument(NULL_DESCRIPTION));
      }
      if dependency.None? {
        return Fail(IllegalArgument(NULL_DEPENDENCY));
      }
      if !Has(statuses.table, dependency.value) {
        return Fail(IllegalArgument(NoDependency(dependency.value)));
      }
      r := Pass;
    }

    /** `copyStatuses()`: a new table filled entry by entry in iteration order. */
    method CopyStatuses() returns (copy: Table<int32>)
      ensures copy == statuses.table
    {
      var t := statuses.table;
      copy := Empty();
      var i := 0;
      while i < |t.keys|
        invariant 0 <= i <= |t.keys|
        invariant copy.keys == t.keys[..i]
        invariant forall k :: k in copy.values ==> k in t.values && copy.values[k] == t.values[k]
      {
        var k := t.keys[i];
        assert k !in t.keys[..i];
        assert t.keys[..i + 1] == t.keys[..i] + [k];
        copy := Put(copy, k, t.values[k]);
        i := i + 1;
      }
      assert t.keys[..i] == t.keys;
      SameTable(copy, t);
    }

    /** `addDecision(decision, choiceIdx)`: the choice is checked before anything is added; the
        new decision gets an empty dependency record, which the callers then fill. */
    method AddDecision(d: Decision, choiceIdx: int32) returns (r: Result<DecisionId>)
      requires Valid()
      requires forall c :: c in ReferencedChoices(d) ==> c in choices
      modifies this, arena
      ensures Valid()
      ensures var step := AddDecisionTo(old(State()), d, choiceIdx, []);
        && (r.Success? <==> step.Success?)
        && (step.Success? ==> State() == step.value && r.value == |old(arena.graph.decisions)|)
        && (step.Failure? ==> State() == old(State()) && r == Failure(step.error))
    {
      ghost var s := State();
      var choice := EnsureChoiceExists(choiceIdx);
      if choice.Failure? {
        assert AddDecisionTo(s, d, choiceIdx, []) == Failure(choice.error);
        return Failure(choice.error);
      }
      assert Points(arena.graph, d) by {
        forall c | c in ReferencedChoices(d)
          ensures c < |arena.graph.options|
        {
          var i :| 0 <= i < |choices| && choices[i] == c;
        }
      }
      ghost var t := AddDecisionTo(s, d, choiceIdx, []).value;
      var id := arena.NewDecision(d);
      arena.AppendOption(choice.value, id);
      decisions := decisions + [id];
      dependencies := dependencies[id := []];
      assert arena.graph == t.graph;
      r := Success(id);
    }

    /** `addDecision(decision, choiceIdx)` followed by the caller's `addAll` of `deps` to the
        decision's dependency record. */
    method AddRecorded(d: Decision, choiceIdx: int32, deps: seq<string>) returns (r: Outcome)
      requires Valid()
      requires forall c :: c in ReferencedChoices(d) ==> c in choices
      modifies this, arena
      ensures Valid()
      ensures Performed(old(State()), State(), AddDecisionTo(old(State()), d, choiceIdx, deps), r)
    {
      ghost var s := State();
      var added := AddDecision(d, choiceIdx);
      if added.Failure? {
        return Fail(added.error);
      }
      ghost var t := State();
      RecordAfterAdd(s, d, choiceIdx, deps);
      assert t.dependencies[added.value] == [] && [] + deps == deps;
      dependencies := dependencies[added.value := dependencies[added.value] + deps];
      assert State() == t.(dependencies := t.dependencies[added.value := deps]);
      r := Pass;
    }

    /** `getUpdates(consequences)`: the nulls are removed from the caller's list in place, then
        each string is read on a scanner of its own. */
    method GetUpdates(consequences: NullableList?<string>) returns (r: Result<Table<StatusUpdate>>)
      modifies consequences
      ensures r == Updates(statuses.table, old(ItemsOf(consequences)))
      ensures consequences != null ==> consequences.items == Compact(old(consequences.items))
    {
      var list := RemoveNulls(consequences);
      if list.Failure? {
        return Failure(list.error);
      }
      var items := Values(list.value.items);
      var updates: Table<StatusUpdate> := Empty();
      var i := 0;
      while i < |items|
        invariant 0 <= i <= |items|
        invariant UpdatesFrom(statuses.table, items[i..], updates) == UpdatesFrom(statuses.table, items, Empty())
        invariant consequences != null && consequences.items == Compact(old(consequences.items))
      {
        UpdatesFromStep(statuses.table, items, i, updates);
        var entry := ReadUpdate(items[i]);
        if entry.Failure? {
          return Failure(entry.error);
        }
        var (name, update) := entry.value;
        if !Has(statuses.table, name) {
          return Failure(IllegalArgument(NotAStatus(name)));
        }
        updates := Put(updates, name, update);
        i := i + 1;
      }
      r := Success(updates);
    }

    /** The body of the `getUpdates` loop: a scanner over one string, `importSimple`, then the
        status name. */
    static method ReadUpdate(text: string) returns (r: Result<(string, StatusUpdate)>)
      ensures r == ReadConsequence(text)
    {
      var sc := new Scanner(text);
      var update := ImportSimple(sc.tokens);
      if update.Failure? {
        return Failure(update.error);
      }
      sc.tokens := update.value.rest;
      var name := sc.TryNext(INVALID_UPDATE);
      if name.Failure? {
        return Failure(name.error);
      }
      r := Success((name.value, update.value.value));
    }

    /** `isAnOption(d)`: a scan of every listed choice's options. */
    method IsAnOption(d: DecisionId) returns (b: bool)
      requires Below(choices, |arena.graph.options|)
      ensures b == Drafts.IsAnOption(choices, arena.graph.options, d)
    {
      var i := 0;
      while i < |choices|
        invariant 0 <= i <= |choices|
        invariant forall k :: 0 <= k < i ==> d !in arena.graph.options[choices[k]]
      {
        var opts := arena.graph.options[choices[i]];
        var j := 0;
        while j < |opts|
          invariant 0 <= j <= |opts|
          invariant d !in opts[..j]
        {
          if opts[j] == d {
            return true;
          }
          assert opts[..j + 1] == opts[..j] + [opts[j]];
          j := j + 1;
        }
        assert opts[..j] == opts;
        i := i + 1;
      }
      b := false;
    }

    /** `isAnOutcome(c)`: a scan of every listed decision's possible outcomes. */
    method IsAnOutcome(c: ChoiceId) returns (b: bool)
      requires Below(decisions, |arena.graph.decisions|)
      ensures b == Drafts.IsAnOutcome(State(), c)
    {
      var i := 0;
      while i < |decisions|
        invariant 0 <= i <= |decisions|
        invariant forall k :: 0 <= k < i ==> c !in PossibleOutcomes(arena.graph.decisions[decisions[k]])
      {
        var outcomes := PossibleOutcomes(arena.graph.decisions[decisions[i]]);
        var j := 0;
        while j < |outcomes|
          invariant 0 <= j <= |outcomes|
          invariant c !in outcomes[..j]
        {
          if outcomes[j] == c {
            return true;
          }
          assert outcomes[..j + 1] == outcomes[..j] + [outcomes[j]];
          j := j + 1;
        }
        assert outcomes[..j] == outcomes;
        i := i + 1;
      }
      b := false;
    }

    /** `isUsedStatus(name)`: a scan of every dependency record. */
    method IsUsedStatus(name: string) returns (b: bool)
      ensures b == Drafts.IsUsedStatus(State(), name)
    {
      var rest := dependencies.Keys;
      while rest != {}
        invariant rest <= dependencies.Keys
        invariant forall d :: d in dependencies && d !in rest ==> name !in dependencies[d]
        decreases rest
      {
        var d :| d in rest;
        if name in dependencies[d] {
          return true;
        }
        rest := rest - {d};
      }
      b := false;
    }

    /** `getStoryName()`, `getChoices()`, `getInitialChoice()` and `getDecisions()` hand out the
        fields; the lists are copies, which a value already is. */
    function StoryName(): (r: string)
      reads this, arena, statuses
      ensures r == State().name
    {
      storyName
    }

    function Choices(): (r: seq<ChoiceId>)
      reads this, arena, statuses
      ensures r == State().choices
    {
      choices
    }

    function InitialChoice(): (r: int)
      reads this, arena, statuses
      ensures r == State().first
    {
      firstChoice
    }

    function Decisions(): (r: seq<DecisionId>)
      reads this, arena, statuses
      ensures r == State().decisions
    {
      decisions
    }
  }
}
