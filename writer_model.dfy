/** `model.SimpleStoryWriterModel`: a library of works (story creators) filed under names
    that are unique in it, and the name of the work being edited, if any. Every edit goes to
    the loaded work's creator and to no other work; with no work loaded it throws
    `IllegalStateException`. */
module Writers {
  import opened Wrappers
  import opened JavaInt
  import opened Tables
  import opened Utils
  import opened Decisions
  import opened Choices
  import opened Games
  import opened Libraries
  import opened Creator
  import Drafts

  const NO_LOADED_WORK := "No loaded story!"
  /** What `getInitialChoice()` returns with no work loaded. */
  const NO_INITIAL_CHOICE: int := -1234567890
  const NULL_WORK := "Can't add null"

  function NoWork(name: Option<string>): string {
    "No story \"" + Shown(name) + "\" found"
  }

  function WorkExists(name: Option<string>): string {
    Shown(name) + " already exists"
  }

  /** The three message operators the work library is made with. */
  function NullWork(s: Option<string>): Option<string> {
    Some(NULL_WORK)
  }

  function MissingWork(s: Option<string>): Option<string> {
    Some(NoWork(s))
  }

  function ConflictingWork(s: Option<string>): Option<string> {
    Some(WorkExists(s))
  }

  class StoryWriterModel {
    const works: MapLibrary<StoryGameCreator>
    /** `currentWork`; `null` when no work is loaded. */
    var currentWork: Option<string>

    /** The creators of the library with the objects they are made of. */
    ghost function Footprint(): set<object>
      reads this, works
    {
      (set n | n in works.records.values :: works.records.values[n] as object)
      + (set n | n in works.records.values :: works.records.values[n].arena as object)
      + (set n | n in works.records.values :: works.records.values[n].statuses as object)
    }

    /** Every work is a sound draft; different works share no creator, heap or status table,
        since each was made by `start`; and the loaded work's name is filed in the library. */
    ghost predicate Valid()
      reads this, works, Footprint()
    {
      && works.missingMsg == MissingWork && works.conflictMsg == ConflictingWork
      && (forall n :: n in works.records.values ==> works.records.values[n].Valid())
      && (forall n, m :: n in works.records.values && m in works.records.values && n != m ==>
            && works.records.values[n] != works.records.values[m]
            && works.records.values[n].arena != works.records.values[m].arena
            && works.records.values[n].statuses != works.records.values[m].statuses)
      && (currentWork.Some? ==> currentWork.value in works.records.values)
    }

    /** The objects an edit of the loaded work may change. */
    ghost function Loaded(): set<object>
      reads this, works
    {
      if currentWork.Some? && currentWork.value in works.records.values then
        var c := works.records.values[currentWork.value];
        {c as object, c.arena, c.statuses}
      else {}
    }

    /** The loaded work as a draft. */
    ghost function LoadedDraft(): Drafts.Draft
      requires currentWork.Some? && currentWork.value in works.records.values
      reads this, works, Loaded()
    {
      works.records.values[currentWork.value].State()
    }

    /** No name changed, and every work but the loaded one is as it was. */
    twostate predicate OnlyLoadedEdited()
      reads this, works, Footprint()
    {
      && currentWork == old(currentWork) && works.records == old(works.records)
      && (forall n :: n in works.records.values && Some(n) != currentWork ==>
            works.records.values[n].State() == old(works.records.values[n].State()))
    }

    /** An edit that leaves the names, and every work but the loaded one, as they were, and
        the loaded work sound, keeps the model valid. */
    twostate lemma EditKeepsValid(consequences: NullableList?<string>)
      requires old(Valid()) && currentWork.Some?
      requires currentWork == old(currentWork) && works.records == old(works.records)
      requires var l := works.records.values[currentWork.value];
        forall o: object :: old(allocated(o)) && o != l && o != l.arena && o != l.statuses && o != consequences ==> Kept(o)
      requires works.records.values[currentWork.value].Valid()
      ensures Valid() && OnlyLoadedEdited()
    {
      OthersKept(consequences);
    }

    /** Only the loaded work and a list of consequences changed, so every other work is as it
        was. */
    twostate lemma OthersKept(consequences: NullableList?<string>)
      requires old(Valid()) && currentWork.Some?
      requires currentWork == old(currentWork) && works.records == old(works.records)
      requires var l := works.records.values[currentWork.value];
        forall o: object :: old(allocated(o)) && o != l && o != l.arena && o != l.statuses && o != consequences ==> Kept(o)
      ensures forall n :: n in works.records.values && Some(n) != currentWork ==>
        var c := works.records.values[n]; unchanged(c, c.arena, c.statuses)
    {
      var l := works.records.values[currentWork.value];
      forall n | n in works.records.values && Some(n) != currentWork
        ensures var c := works.records.values[n]; unchanged(c, c.arena, c.statuses)
      {
        var c := works.records.values[n];
        assert c != l && c.arena != l.arena && c.statuses != l.statuses;
        assert Kept(c) && Kept(c.arena) && Kept(c.statuses);
      }
    }

    /** Only the model and its library changed, so every work that was filed is as it was. */
    twostate lemma WorksKept()
      requires forall o: object :: old(allocated(o)) && o != this && o != works ==> Kept(o)
      ensures forall n :: n in old(works.records).values ==>
        var c := old(works.records).values[n]; unchanged(c, c.arena, c.statuses)
    {
      forall n | n in old(works.records).values
        ensures var c := old(works.records).values[n]; unchanged(c, c.arena, c.statuses)
      {
        var c := old(works.records).values[n];
        assert Kept(c) && Kept(c.arena) && Kept(c.statuses);
      }
    }

    /** Filing a new sound creator under a new name keeps the model valid when only the
        library changed. */
    twostate lemma StartedKeepsValid(new filed: (string, StoryGameCreator))
      requires old(Valid())
      requires forall o: object :: old(allocated(o)) && o != works ==> Kept(o)
      requires var (c, a, t) := (filed.1, filed.1.arena, filed.1.statuses);
        !old(allocated(c)) && !old(allocated(a)) && !old(allocated(t))
      requires filed.1.Valid() && filed.0 !in old(works.records).values
      requires works.records.values == old(works.records).values[filed.0 := filed.1]
      ensures Valid()
    {
      assert Kept(this);
      WorksKept();
      var (name, c) := filed;
      var before, after := old(works.records).values, works.records.values;
      forall n | n in after
        ensures after[n].Valid()
      {
        if n != name {
          assert after[n] == before[n];
        }
      }
      forall n, m | n in after && m in after && n != m
        ensures after[n] != after[m] && after[n].arena != after[m].arena && after[n].statuses != after[m].statuses
      {
        if n != name && m != name {
          assert after[n] == before[n] && after[m] == before[m];
        } else {
          var o := if n == name then m else n;
          assert after[o] == before[o];
          assert old(allocated(before[o])) && old(allocated(before[o].arena)) && old(allocated(before[o].statuses));
        }
      }
    }

    /** Removing a filed work keeps the model valid when only the model and its library
        changed and the loaded name is still filed. */
    twostate lemma RemovedKeepsValid(name: string)
      requires old(Valid())
      requires forall o: object :: old(allocated(o)) && o != this && o != works ==> Kept(o)
      requires works.records.values == old(works.records).values - {name} || works.records == old(works.records)
      requires currentWork.Some? ==> currentWork.value in works.records.values
      ensures Valid()
    {
      WorksKept();
    }

    /** Loading another work, or none, keeps the model valid when only the model changed and
        the loaded name is filed. */
    twostate lemma LoadedKeepsValid()
      requires old(Valid())
      requires forall o: object :: old(allocated(o)) && o != this ==> Kept(o)
      requires currentWork.Some? ==> currentWork.value in works.records.values
      ensures Valid()
    {
      assert Kept(works);
      WorksKept();
    }

    /** Moving a work to a new name keeps the model valid when only the model and its library
        changed and the loaded name is still filed. */
    twostate lemma RenamedKeepsValid(moved: Option<(string, string)>)
      requires old(Valid())
      requires forall o: object :: old(allocated(o)) && o != this && o != works ==> Kept(o)
      requires moved.Some? ==>
        && moved.value.0 in old(works.records).values && moved.value.1 !in old(works.records).values
        && works.records
           == Put(Tables.Remove(old(works.records), moved.value.0), moved.value.1, old(works.records).values[moved.value.0])
      requires moved.None? ==> works.records == old(works.records)
      requires currentWork.Some? ==> currentWork.value in works.records.values
      ensures Valid()
    {
      WorksKept();
      if moved.None? {
        return;
      }
      var (name, newName) := moved.value;
      var before, after := old(works.records).values, works.records.values;
      forall n | n in after
        ensures after[n].Valid()
      {
        if n == newName {
          assert after[n] == before[name];
        } else {
          assert after[n] == before[n];
        }
      }
      forall n, m | n in after && m in after && n != m
        ensures after[n] != after[m] && after[n].arena != after[m].arena && after[n].statuses != after[m].statuses
      {
        var n' := if n == newName then name else n;
        var m' := if m == newName then name else m;
        assert after[n] == before[n'] && after[m] == before[m'];
      }
    }

    /** `new SimpleStoryWriterModel()`. */
    constructor ()
      ensures Valid() && fresh(works) && works.records == Empty() && currentWork == None
    {
      works := new MapLibrary(Some(NullWork), Some(MissingWork), Some(ConflictingWork));
      currentWork := None;
    }

    /** `start(name)`: a new creator for a story called `name` (`Untitled` for `null`), filed
        under a fresh work name made from `name`. */
    method Start(name: Option<string>)
      requires Valid()
      modifies works
      ensures Valid() && currentWork == old(currentWork)
      ensures var n := ValidName(old(works.records).values.Keys, name);
        && n in works.records.values
        && works.records == Put(old(works.records), n, works.records.values[n])
        && fresh(works.records.values[n])
        && works.records.values[n].State() == Drafts.Blank(name)
    {
      var creator := new StoryGameCreator(name);
      var added := works.Add(name, Some(creator));
      StartedKeepsValid((ValidName(old(works.records).values.Keys, name), creator));
    }

    /** `remove(name)`: the work goes, and the current work is cleared exactly when it is the
        one removed. */
    method Remove(name: Option<string>) returns (r: Outcome)
      requires Valid()
      modifies this, works
      ensures Valid()
      ensures !(name.Some? && name.value in old(works.records).values) ==>
        r == Fail(IllegalArgument(NoWork(name))) && works.records == old(works.records) && currentWork == old(currentWork)
      ensures name.Some? && name.value in old(works.records).values ==>
        && r == Pass && works.records == Tables.Remove(old(works.records), name.value)
        && currentWork == (if old(currentWork) == name then None else old(currentWork))
    {
      r := works.Remove(name);
      currentWork := if r.Pass? && currentWork == name then None else currentWork;
      RemovedKeepsValid(if name.Some? then name.value else "");
    }

    /** `rename(name, newName)`: the work moves to the new name, and the current work follows
        it. */
    method Rename(name: Option<string>, newName: Option<string>) returns (r: Outcome)
      requires Valid()
      modifies this, works
      ensures Valid()
      ensures !(name.Some? && name.value in old(works.records).values) ==>
        r == Fail(IllegalArgument(NoWork(name))) && works.records == old(works.records) && currentWork == old(currentWork)
      ensures name.Some? && name.value in old(works.records).values && newName.Some? && newName.value !in old(works.records).values ==>
        && r == Pass
        && works.records == Put(Tables.Remove(old(works.records), name.value), newName.value,
                                old(works.records).values[name.value])
        && currentWork == (if old(currentWork) == name then newName else old(currentWork))
      ensures name.Some? && name.value in old(works.records).values && !(newName.Some? && newName.value !in old(works.records).values) ==>
        r == Fail(IllegalArgument(WorkExists(newName))) && works.records == old(works.records)
        && currentWork == old(currentWork)
    {
      r := works.Rename(name, newName);
      currentWork := if r.Pass? && currentWork == name then newName else currentWork;
      RenamedKeepsValid(if r.Pass? then Some((name.value, newName.value)) else None);
    }

    /** `load(name)`: an unknown work fails before the current work is set. */
    method Load(name: Option<string>) returns (r: Outcome)
      requires Valid()
      modifies this
      ensures Valid()
      ensures name.Some? && name.value in works.records.values ==> r == Pass && currentWork == name
      ensures !(name.Some? && name.value in works.records.values) ==>
        r == Fail(IllegalArgument(NoWork(name))) && currentWork == old(currentWork)
    {
      var found := works.Retrieve(name);
      if found.Failure? {
        return Fail(found.error);
      }
      currentWork := name;
      LoadedKeepsValid();
      r := Pass;
    }

    /** `quit()`. */
    method Quit()
      requires Valid()
      modifies this
      ensures Valid() && currentWork == None
    {
      currentWork := None;
      LoadedKeepsValid();
    }

    /** `ensureWorkLoaded()`: the loaded work's creator; with none loaded it throws. */
    method EnsureWorkLoaded() returns (r: Result<StoryGameCreator>)
      requires Valid()
      ensures currentWork.None? ==> r == Failure(IllegalState(NO_LOADED_WORK))
      ensures currentWork.Some? ==> r == Success(works.records.values[currentWork.value])
    {
      if currentWork.None? {
        return Failure(IllegalState(NO_LOADED_WORK));
      }
      r := works.Retrieve(currentWork);
    }

    // The edits, each handed to the loaded work

    /** `create()`. */
    method Create() returns (r: Result<StoryGame>)
      requires Valid()
      modifies Loaded()
      ensures Valid() && OnlyLoadedEdited()
      ensures currentWork.None? ==> r == Failure(IllegalState(NO_LOADED_WORK))
      ensures currentWork.Some? ==>
        var start := Drafts.Start(old(LoadedDraft()));
        && LoadedDraft() == old(LoadedDraft()).(graph := LoadedDraft().graph)
        && (r.Success? <==> start.Success?)
        && (start.Failure? ==> r == Failure(start.error) && LoadedDraft() == old(LoadedDraft()))
        && (start == Success(None) ==>
             && LoadedDraft().graph == Graph(old(LoadedDraft()).graph.options + [[]], old(LoadedDraft()).graph.decisions)
             && r.value.history == [|old(LoadedDraft()).graph.options|])
        && (start.Success? && start.value.Some? ==>
             LoadedDraft().graph == old(LoadedDraft()).graph && r.value.history == [start.value.value])
        && (r.Success? ==>
             && fresh(r.value) && r.value.Valid() && !r.value.fixed
             && r.value.name == LoadedDraft().name && r.value.statuses.table == LoadedDraft().statuses)
    {
      var loaded := EnsureWorkLoaded();
      if loaded.Failure? {
        return Failure(loaded.error);
      }
      r := loaded.value.Create();
      EditKeepsValid(null);
    }

    /** `setStoryName(name)`. */
    method SetStoryName(name: Option<string>) returns (r: Outcome)
      requires Valid()
      modifies Loaded()
      ensures Valid() && OnlyLoadedEdited()
      ensures currentWork.None? ==> r == Fail(IllegalState(NO_LOADED_WORK))
      ensures currentWork.Some? ==>
        Performed(old(LoadedDraft()), LoadedDraft(), Drafts.SetStoryName(old(LoadedDraft()), name), r)
    {
      var loaded := EnsureWorkLoaded();
      if loaded.Failure? {
        return Fail(loaded.error);
      }
      r := loaded.value.SetStoryName(name);
      EditKeepsValid(null);
    }

    /** `addStatus(name, val)`. */
    method AddStatus(name: Option<string>, val: int32) returns (r: Outcome)
      requires Valid()
      modifies Loaded()
      ensures Valid() && OnlyLoadedEdited()
      ensures currentWork.None? ==> r == Fail(IllegalState(NO_LOADED_WORK))
      ensures currentWork.Some? ==>
        Performed(old(LoadedDraft()), LoadedDraft(), Drafts.AddStatusEntry(old(LoadedDraft()), name, val), r)
    {
      var loaded := EnsureWorkLoaded();
      if loaded.Failure? {
        return Fail(loaded.error);
      }
      r := loaded.value.AddStatus(name, val);
      EditKeepsValid(null);
    }

    /** `removeStatus(name)`. */
    method RemoveStatus(name: Option<string>) returns (r: Outcome)
      requires Valid()
      modifies Loaded()
      ensures Valid() && OnlyLoadedEdited()
      ensures currentWork.None? ==> r == Fail(IllegalState(NO_LOADED_WORK))
      ensures currentWork.Some? ==>
        Performed(old(LoadedDraft()), LoadedDraft(), Drafts.RemoveStatusEntry(old(LoadedDraft()), name), r)
    {
      var loaded := EnsureWorkLoaded();
      if loaded.Failure? {
        return Fail(loaded.error);
      }
      r := loaded.value.RemoveStatus(name);
      EditKeepsValid(null);
    }

    /** `addChoice()`: the index of the new choice. */
    method AddChoice() returns (r: Result<nat>)
      requires Valid()
      modifies Loaded()
      ensures Valid() && OnlyLoadedEdited()
      ensures currentWork.None? ==> r == Failure(IllegalState(NO_LOADED_WORK))
      ensures currentWork.Some? ==> r.Success? && (LoadedDraft(), r.value) == Drafts.AddChoice(old(LoadedDraft()))
    {
      var loaded := EnsureWorkLoaded();
      if loaded.Failure? {
        return Failure(loaded.error);
      }
      var i := loaded.value.AddChoice();
      EditKeepsValid(null);
      r := Success(i);
    }

    /** `setInitialChoice(idx)`. */
    method SetInitialChoice(idx: int32) returns (r: Outcome)
      requires Valid()
      modifies Loaded()
      ensures Valid() && OnlyLoadedEdited()
      ensures currentWork.None? ==> r == Fail(IllegalState(NO_LOADED_WORK))
      ensures currentWork.Some? ==>
        Performed(old(LoadedDraft()), LoadedDraft(), Drafts.SetInitialChoice(old(LoadedDraft()), idx), r)
    {
      var loaded := EnsureWorkLoaded();
      if loaded.Failure? {
        return Fail(loaded.error);
      }
      r := loaded.value.SetInitialChoice(idx);
      EditKeepsValid(null);
    }

    /** `addSimpleDecision(description, choiceIdx, outcomeIdx)`. */
    method AddSimpleDecision(description: Option<string>, choiceIdx: int32, outcomeIdx: int32) returns (r: Outcome)
      requires Valid()
      modifies Loaded()
      ensures Valid() && OnlyLoadedEdited()
      ensures currentWork.None? ==> r == Fail(IllegalState(NO_LOADED_WORK))
      ensures currentWork.Some? ==>
        Performed(old(LoadedDraft()), LoadedDraft(),
                  Drafts.AddSimple(old(LoadedDraft()), description, choiceIdx, outcomeIdx), r)
    {
      var loaded := EnsureWorkLoaded();
      if loaded.Failure? {
        return Fail(loaded.error);
      }
      r := loaded.value.AddSimpleDecision(description, choiceIdx, outcomeIdx);
      EditKeepsValid(null);
    }

    /** `addConsequentialDecision(description, choiceIdx, outcomeIdx, consequences)`. */
    method AddConsequentialDecision(description: Option<string>, choiceIdx: int32, outcomeIdx: int32,
                                    consequences: NullableList?<string>) returns (r: Outcome)
      requires Valid()
      modifies Loaded(), consequences
      ensures Valid() && OnlyLoadedEdited()
      ensures currentWork.None? ==>
        r == Fail(IllegalState(NO_LOADED_WORK)) && (consequences != null ==> consequences.items == old(consequences.items))
      ensures currentWork.Some? ==>
        Performed(old(LoadedDraft()), LoadedDraft(),
                  Drafts.AddConsequential(old(LoadedDraft()), description, choiceIdx, outcomeIdx, old(ItemsOf(consequences))), r)
    {
      var loaded := EnsureWorkLoaded();
      if loaded.Failure? {
        return Fail(loaded.error);
      }
      r := loaded.value.AddConsequentialDecision(description, choiceIdx, outcomeIdx, consequences);
      EditKeepsValid(consequences);
    }

    /** `addSimpleDependentThresholdDecision(...)`. */
    method AddSimpleDependentThresholdDecision(description: Option<string>, choiceIdx: int32,
                                               dependency: Option<string>, threshold: int32,
                                               belowIdx: int32, meetsIdx: int32) returns (r: Outcome)
      requires Valid()
      modifies Loaded()
      ensures Valid() && OnlyLoadedEdited()
      ensures currentWork.None? ==> r == Fail(IllegalState(NO_LOADED_WORK))
      ensures currentWork.Some? ==>
        Performed(old(LoadedDraft()), LoadedDraft(),
                  Drafts.AddThreshold(old(LoadedDraft()), description, choiceIdx, dependency, threshold, belowIdx, meetsIdx), r)
    {
      var loaded := EnsureWorkLoaded();
      if loaded.Failure? {
        return Fail(loaded.error);
      }
      r := loaded.value.AddSimpleDependentThresholdDecision(description, choiceIdx, dependency, threshold, belowIdx, meetsIdx);
      EditKeepsValid(null);
    }

    /** `addConsequentialThresholdDecision(...)`. */
    method AddConsequentialThresholdDecision(description: Option<string>, choiceIdx: int32,
                                             dependency: Option<string>, threshold: int32,
                                             belowIdx: int32, meetsIdx: int32,
                                             consequences: NullableList?<string>) returns (r: Outcome)
      requires Valid()
      modifies Loaded(), consequences
      ensures Valid() && OnlyLoadedEdited()
      ensures currentWork.None? ==>
        r == Fail(IllegalState(NO_LOADED_WORK)) && (consequences != null ==> consequences.items == old(consequences.items))
      ensures currentWork.Some? ==>
        Performed(old(LoadedDraft()), LoadedDraft(),
                  Drafts.AddConsequentialThreshold(old(LoadedDraft()), description, choiceIdx, dependency, threshold,
                                                   belowIdx, meetsIdx, old(ItemsOf(consequences))), r)
    {
      var loaded := EnsureWorkLoaded();
      if loaded.Failure? {
        return Fail(loaded.error);
      }
      r := loaded.value.AddConsequentialThresholdDecision(description, choiceIdx, dependency, threshold,
                                                          belowIdx, meetsIdx, consequences);
      EditKeepsValid(consequences);
    }

    /** `removeDecision(choiceIdx, decisionIdx)`. */
    method RemoveDecision(choiceIdx: int32, decisionIdx: int32) returns (r: Outcome)
      requires Valid()
      modifies Loaded()
      ensures Valid() && OnlyLoadedEdited()
      ensures currentWork.None? ==> r == Fail(IllegalState(NO_LOADED_WORK))
      ensures currentWork.Some? ==>
        Performed(old(LoadedDraft()), LoadedDraft(), Drafts.RemoveDecision(old(LoadedDraft()), choiceIdx, decisionIdx), r)
    {
      var loaded := EnsureWorkLoaded();
      if loaded.Failure? {
        return Fail(loaded.error);
      }
      r := loaded.value.RemoveDecision(choiceIdx, decisionIdx);
      EditKeepsValid(null);
    }

    /** `removeChoice(choiceIdx)`. */
    method RemoveChoice(idx: int32) returns (r: Outcome)
      requires Valid()
      modifies Loaded()
      ensures Valid() && OnlyLoadedEdited()
      ensures currentWork.None? ==> r == Fail(IllegalState(NO_LOADED_WORK))
      ensures currentWork.Some? ==>
        Performed(old(LoadedDraft()), LoadedDraft(), Drafts.RemoveChoice(old(LoadedDraft()), idx), r)
    {
      var loaded := EnsureWorkLoaded();
      if loaded.Failure? {
        return Fail(loaded.error);
      }
      r := loaded.value.RemoveChoice(idx);
      EditKeepsValid(null);
    }

    // The getters: `null`, or -1234567890 for the initial choice, with no work loaded

    /** `getStoryName()`. */
    function StoryName(): (r: Option<string>)
      requires Valid()
      reads this, works, Footprint()
      ensures r.Some? <==> currentWork.Some?
      ensures r.Some? ==> r.value == LoadedDraft().name
    {
      if currentWork.Some? then Some(works.records.values[currentWork.value].StoryName()) else None
    }

    /** `getStatuses()`: a copy of the loaded work's statuses. */
    method GetStatuses() returns (r: Option<Table<int32>>)
      requires Valid()
      ensures r.Some? <==> currentWork.Some?
      ensures r.Some? ==> r.value == LoadedDraft().statuses
    {
      if currentWork.None? {
        return None;
      }
      var loaded := EnsureWorkLoaded();
      var copy := loaded.value.GetStatuses();
      r := Some(copy);
    }

    /** `getChoices()`. */
    function Choices(): (r: Option<seq<ChoiceId>>)
      requires Valid()
      reads this, works, Footprint()
      ensures r.Some? <==> currentWork.Some?
      ensures r.Some? ==> r.value == LoadedDraft().choices
    {
      if currentWork.Some? then Some(works.records.values[currentWork.value].Choices()) else None
    }

    /** `getInitialChoice()`. */
    function InitialChoice(): (r: int)
      requires Valid()
      reads this, works, Footprint()
      ensures currentWork.None? ==> r == NO_INITIAL_CHOICE
      ensures currentWork.Some? ==> r == LoadedDraft().first
    {
      if currentWork.Some? then works.records.values[currentWork.value].InitialChoice() else NO_INITIAL_CHOICE
    }

    /** `getDecisions()`. */
    function Decisions(): (r: Option<seq<DecisionId>>)
      requires Valid()
      reads this, works, Footprint()
      ensures r.Some? <==> currentWork.Some?
      ensures r.Some? ==> r.value == LoadedDraft().decisions
    {
      if currentWork.Some? then Some(works.records.values[currentWork.value].Decisions()) else None
    }

    /** `getCurrentWorkName()`: always a work of the library, or `null`. */
    function CurrentWorkName(): (r: Option<string>)
      requires Valid()
      reads this, works, Footprint()
      ensures r.Some? ==> r.value in works.records.values
    {
      currentWork
    }

    /** `getAllWorkNames()`: every work name once, ascending. */
    method AllWorkNames() returns (names: seq<string>)
      requires Valid()
      ensures Sorted(names)
      ensures forall y :: y in names <==> y in works.records.values
    {
      names := works.GetAllNames();
    }
  }
}
