/** The decisions of a story (`SimpleDecision`, `ConsequentialDecision`, `DependentDecision`)
    and the outcome determiner they use (`TwoThresholdDeterminer`).

    Decisions are immutable values. The choice a decision leads to is a handle into the story's
    arena of choices (see module Arena), so two decisions that lead to the same `SimpleChoice`
    object hold the same `ChoiceId`. */
module Decisions {
  import opened Wrappers
  import opened JavaInt
  import opened Tables
  import opened StatusUpdates

  /** A reference to a `Choice` object: its index in the story's arena. */
  type ChoiceId = nat

  const MISSING_STATUS_MESSAGE := "Can't determine outcome of this story - missing status "
  const NO_STATUS_MESSAGE := "Can't make decision in given story: no status "
  const MISSING_OUTCOME_MESSAGE := "Map doesn't contain outcome"
  const MISSING_OUTCOMES_MESSAGE := "Map doesn't contain all outcomes"

  /** `TwoThresholdDeterminer`: `below` if the dependency's value is under the threshold, else
      `meets`. */
  datatype Determiner = TwoThreshold(dependency: string, threshold: int32, below: ChoiceId, meets: ChoiceId)

  /** `description`/`outcome` of a `SimpleDecision`, the same plus the status updates of a
      `ConsequentialDecision` (in iteration order), and the delegate and determiner of a
      `DependentDecision`. */
  datatype Decision =
    | Simple(description: string, outcome: ChoiceId)
    | Consequential(description: string, outcome: ChoiceId, updates: Table<StatusUpdate>)
    | Dependent(delegate: Decision, determiner: Determiner)

  /** `new TwoThresholdDeterminer(dependency, threshold, below, meets)`. */
  function NewTwoThreshold(dependency: Option<string>, threshold: int32, below: Option<ChoiceId>,
                           meets: Option<ChoiceId>): (r: Result<Determiner>)
    ensures r.Success? <==> dependency.Some? && below.Some? && meets.Some?
    ensures dependency.None? ==> r == Failure(IllegalArgument("Dependency can't be null"))
    ensures dependency.Some? && (below.None? || meets.None?) ==> r == Failure(IllegalArgument("Choice can't be null"))
    ensures r.Success? ==> r.value.dependency == dependency.value && r.value.threshold == threshold
    ensures r.Success? ==> r.value.below == below.value && r.value.meets == meets.value
  {
    if dependency.None? then Failure(IllegalArgument("Dependency can't be null"))
    else if below.None? || meets.None? then Failure(IllegalArgument("Choice can't be null"))
    else Success(TwoThreshold(dependency.value, threshold, below.value, meets.value))
  }

  /** `getOutcome(statuses)`; it only reads the statuses. */
  function GetOutcome(det: Determiner, statuses: Table<int32>): (r: Result<ChoiceId>)
    ensures r.Failure? <==> det.dependency !in statuses.values
    ensures r.Failure? ==> r.error == IllegalArgument(MISSING_STATUS_MESSAGE + det.dependency)
  {
    if det.dependency !in statuses.values then
      Failure(IllegalArgument(MISSING_STATUS_MESSAGE + det.dependency))
    else if statuses.values[det.dependency] < det.threshold then Success(det.below)
    else Success(det.meets)
  }

  /** `getPossibleOutcomes` of a determiner. */
  function DeterminerOutcomes(det: Determiner): seq<ChoiceId> {
    [det.below, det.meets]
  }

  /** `getDependency`. */
  function Dependency(det: Determiner): seq<string> {
    [det.dependency]
  }

  /** The value of the dependency decides: strictly below the threshold gives `below`, and the
      threshold itself or anything above it gives `meets`. */
  lemma ThresholdBoundary(det: Determiner, statuses: Table<int32>)
    requires det.dependency in statuses.values
    ensures var v := statuses.values[det.dependency];
      && (v < det.threshold ==> GetOutcome(det, statuses) == Success(det.below))
      && (v >= det.threshold ==> GetOutcome(det, statuses) == Success(det.meets))
  {
  }

  /** The determiner picks one of its possible outcomes. */
  lemma OutcomeIsPossible(det: Determiner, statuses: Table<int32>)
    ensures GetOutcome(det, statuses).Success? ==> GetOutcome(det, statuses).value in DeterminerOutcomes(det)
  {
  }

  /** `export(choiceRepresentations)` of a determiner. */
  function ExportDeterminer(det: Determiner, reps: map<ChoiceId, string>): (r: Result<string>)
    ensures r.Success? <==> det.below in reps && det.meets in reps
    ensures r.Failure? ==> r.error == IllegalArgument(MISSING_OUTCOMES_MESSAGE)
  {
    if det.below !in reps || det.meets !in reps then Failure(IllegalArgument(MISSING_OUTCOMES_MESSAGE))
    else Success("TWOTHRESHOLD \"" + det.dependency + "\" " + ToString(det.threshold as int) + " "
                 + reps[det.below] + " " + reps[det.meets])
  }

  /** `toString()`: a dependent decision shows its delegate's description. */
  function Description(d: Decision): string {
    match d
    case Simple(description, _) => description
    case Consequential(description, _, _) => description
    case Dependent(delegate, _) => Description(delegate)
  }

  /** `getPossibleOutcomes()`. A dependent decision's outcomes are its determiner's; the outcome
      stored in its delegate is not among them. */
  function PossibleOutcomes(d: Decision): (r: seq<ChoiceId>)
    ensures |r| > 0
  {
    match d
    case Simple(_, outcome) => [outcome]
    case Consequential(_, outcome, _) => [outcome]
    case Dependent(_, determiner) => DeterminerOutcomes(determiner)
  }

  /** Every choice that `export` looks up: the outcomes of the decision and of its delegates. */
  function ReferencedChoices(d: Decision): (r: seq<ChoiceId>)
    ensures forall c :: c in PossibleOutcomes(d) ==> c in r
  {
    match d
    case Simple(_, outcome) => [outcome]
    case Consequential(_, outcome, _) => [outcome]
    case Dependent(delegate, determiner) => DeterminerOutcomes(determiner) + ReferencedChoices(delegate)
  }

  /** `new SimpleDecision(description, outcome)`. */
  function NewSimple(description: Option<string>, outcome: Option<ChoiceId>): (r: Result<Decision>)
    ensures r.Success? <==> description.Some? && outcome.Some?
    ensures description.None? ==> r == Failure(IllegalArgument("Description can't be null!"))
    ensures description.Some? && outcome.None? ==> r == Failure(IllegalArgument("Outcome can't be null!"))
    ensures r.Success? ==> Description(r.value) == description.value && PossibleOutcomes(r.value) == [outcome.value]
  {
    if description.None? then Failure(IllegalArgument("Description can't be null!"))
    else if outcome.None? then Failure(IllegalArgument("Outcome can't be null!"))
    else Success(Simple(description.value, outcome.value))
  }

  /** `new ConsequentialDecision(description, outcome, statusUpdates)`: the updates are copied
      into a map of the decision's own, without the `null` ones, so the caller's map can change
      afterwards without effect. */
  function NewConsequential(description: Option<string>, outcome: Option<ChoiceId>,
                            updates: Table<Option<StatusUpdate>>): (r: Result<Decision>)
    ensures r.Success? <==> description.Some? && outcome.Some?
    ensures r.Failure? ==> r == NewSimple(description, outcome)
    ensures r.Success? ==> r.value.Consequential? && Description(r.value) == description.value
    ensures r.Success? ==> PossibleOutcomes(r.value) == [outcome.value]
    ensures r.Success? ==> forall k :: k in r.value.updates.values <==> k in updates.values && updates.values[k].Some?
    ensures r.Success? ==> forall k :: k in r.value.updates.values ==> updates.values[k] == Some(r.value.updates.values[k])
  {
    match NewSimple(description, outcome)
    case Failure(e) => Failure(e)
    case Success(_) => Success(Consequential(description.value, outcome.value, DropNulls(updates)))
  }

  /** The protected `new DependentDecision(delegate, determiner)`. */
  function NewDependent(delegate: Option<Decision>, determiner: Option<Determiner>): (r: Result<Decision>)
    ensures r.Success? <==> delegate.Some? && determiner.Some?
    ensures delegate.None? ==> r == Failure(IllegalArgument("Delegate can't be null!"))
    ensures delegate.Some? && determiner.None? ==> r == Failure(IllegalArgument("Determiner can't be null!"))
    ensures r.Success? ==> Description(r.value) == Description(delegate.value)
    ensures r.Success? ==> PossibleOutcomes(r.value) == DeterminerOutcomes(determiner.value)
  {
    if delegate.None? then Failure(IllegalArgument("Delegate can't be null!"))
    else if determiner.None? then Failure(IllegalArgument("Determiner can't be null!"))
    else Success(Dependent(delegate.value, determiner.value))
  }

  /** `new DependentDecision(description, determiner)`: the delegate is a simple decision that
      leads to the determiner's first possible outcome. */
  function NewDependentSimple(description: Option<string>, determiner: Determiner): (r: Result<Decision>)
    ensures r.Success? <==> description.Some?
    ensures r.Success? ==> r.value.Dependent? && r.value.delegate.Simple?
    ensures r.Success? ==> PossibleOutcomes(r.value.delegate)[0] == PossibleOutcomes(r.value)[0]
    ensures r.Success? ==> forall c :: c in ReferencedChoices(r.value) <==> c in PossibleOutcomes(r.value)
    ensures r.Success? ==> Description(r.value) == description.value
  {
    match NewSimple(description, Some(DeterminerOutcomes(determiner)[0]))
    case Failure(e) => Failure(e)
    case Success(delegate) => NewDependent(Some(delegate), Some(determiner))
  }

  /** `new DependentDecision(description, statusUpdates, determiner)`: the same with a
      consequential delegate. */
  function NewDependentConsequential(description: Option<string>, updates: Table<Option<StatusUpdate>>,
                                     determiner: Determiner): (r: Result<Decision>)
    ensures r.Success? <==> description.Some?
    ensures r.Success? ==> r.value.Dependent? && r.value.delegate.Consequential?
    ensures r.Success? ==> PossibleOutcomes(r.value.delegate)[0] == PossibleOutcomes(r.value)[0]
    ensures r.Success? ==> forall c :: c in ReferencedChoices(r.value) <==> c in PossibleOutcomes(r.value)
    ensures r.Success? ==> r.value.delegate.updates == DropNulls(updates)
  {
    match NewConsequential(description, Some(DeterminerOutcomes(determiner)[0]), updates)
    case Failure(e) => Failure(e)
    case Success(delegate) => NewDependent(Some(delegate), Some(determiner))
  }

  /** The text between `[ ` and `] ` in a consequential decision's export: each update, its
      quoted status name and a `| ` before the next one, from entry `i` on. */
  function EffectsText(updates: Table<StatusUpdate>, i: nat): string
    requires i <= |updates.keys|
    decreases |updates.keys| - i
  {
    if i == |updates.keys| then ""
    else
      var k := updates.keys[i];
      Export(updates.values[k]) + " \"" + k + "\" " + (if i < |updates.keys| - 1 then "| " else "")
      + EffectsText(updates, i + 1)
  }

  /** `export(choiceRepresentations)`. The representations map a choice to its id in the file. */
  function ExportDecision(d: Decision, reps: map<ChoiceId, string>): (r: Result<string>)
  {
    match d
    case Simple(description, outcome) =>
      if outcome !in reps then Failure(IllegalArgument(MISSING_OUTCOME_MESSAGE))
      else Success("SIMPLE \"" + description + "\" " + reps[outcome])
    case Consequential(description, outcome, updates) =>
      if outcome !in reps then Failure(IllegalArgument(MISSING_OUTCOME_MESSAGE))
      else Success("CONSEQUENTIAL \"" + description + "\" [ " + EffectsText(updates, 0) + "] " + reps[outcome])
    case Dependent(delegate, determiner) =>
      match ExportDeterminer(determiner, reps)
      case Failure(e) => Failure(e)
      case Success(det) =>
        match ExportDecision(delegate, reps)
        case Failure(e) => Failure(e)
        case Success(del) => Success("DEPENDENT " + det + " [ " + del + " ]")
  }

  /** Export fails exactly when some choice the decision refers to has no representation; the
      message is the determiner's when one of its outcomes is missing. */
  lemma {:induction false} ExportSucceeds(d: Decision, reps: map<ChoiceId, string>)
    ensures ExportDecision(d, reps).Success? <==> forall c :: c in ReferencedChoices(d) ==> c in reps
    ensures ExportDecision(d, reps).Failure? ==>
      ExportDecision(d, reps).error in {IllegalArgument(MISSING_OUTCOME_MESSAGE), IllegalArgument(MISSING_OUTCOMES_MESSAGE)}
  {
    match d
    case Simple(_, _) =>
    case Consequential(_, _, _) =>
    case Dependent(delegate, determiner) =>
      ExportSucceeds(delegate, reps);
  }

  /** The state of the statuses after a decision is made, and what it returned. */
  datatype Resolution = Resolution(statuses: Table<int32>, outcome: Result<ChoiceId>)

  /** The effects loop of `ConsequentialDecision.makeDecision` from entry `i` on: each named
      status is replaced by its update's value, until a name is not a status. The statuses
      changed before that stay changed. */
  function ApplyUpdates(updates: Table<StatusUpdate>, statuses: Table<int32>, i: nat): (Table<int32>, Outcome)
    requires i <= |updates.keys|
    decreases |updates.keys| - i
  {
    if i == |updates.keys| then (statuses, Pass)
    else
      var k := updates.keys[i];
      if k !in statuses.values then (statuses, Fail(IllegalArgument(NO_STATUS_MESSAGE + k)))
      else ApplyUpdates(updates, Put(statuses, k, Update(updates.values[k], statuses.values[k])), i + 1)
  }

  /** `makeDecision(story)` on the story's statuses. */
  function Resolve(d: Decision, statuses: Table<int32>): Resolution {
    match d
    case Simple(_, outcome) => Resolution(statuses, Success(outcome))
    case Consequential(_, outcome, updates) =>
      var (after, done) := ApplyUpdates(updates, statuses, 0);
      Resolution(after, if done.Fail? then Failure(done.error) else Success(outcome))
    case Dependent(delegate, determiner) =>
      var first := Resolve(delegate, statuses);
      if first.outcome.Failure? then first
      else Resolution(first.statuses, GetOutcome(determiner, first.statuses))
  }

  /** The first entry from `i` on whose status is not among `present`, or the number of entries. */
  function FirstMissing(updates: Table<StatusUpdate>, present: set<string>, i: nat): (j: nat)
    requires i <= |updates.keys|
    ensures i <= j <= |updates.keys|
    ensures forall m :: i <= m < j ==> updates.keys[m] in present
    ensures j < |updates.keys| ==> updates.keys[j] !in present
    decreases |updates.keys| - i
  {
    if i == |updates.keys| || updates.keys[i] !in present then i
    else FirstMissing(updates, present, i + 1)
  }

  /** `statuses` is `original` with the updates of the first `i` entries applied. */
  predicate AppliedUpTo(updates: Table<StatusUpdate>, statuses: Table<int32>, original: Table<int32>, i: nat)
    requires i <= |updates.keys|
  {
    && statuses.keys == original.keys
    && forall k :: k in original.values ==>
         k in statuses.values
         && statuses.values[k] == (if k in updates.keys[..i] then Update(updates.values[k], original.values[k])
                                   else original.values[k])
  }

  lemma AppliedStep(updates: Table<StatusUpdate>, statuses: Table<int32>, original: Table<int32>, i: nat)
    requires i < |updates.keys| && updates.keys[i] in statuses.values
    requires AppliedUpTo(updates, statuses, original, i)
    ensures var k := updates.keys[i];
      AppliedUpTo(updates, Put(statuses, k, Update(updates.values[k], statuses.values[k])), original, i + 1)
  {
    var k := updates.keys[i];
    assert updates.keys[..i + 1] == updates.keys[..i] + [k];
    assert forall m :: 0 <= m < i ==> updates.keys[..i][m] != k;
    assert k !in updates.keys[..i];
    assert k in original.values;
  }

  lemma {:induction false} ApplyUpdatesFrom(updates: Table<StatusUpdate>, statuses: Table<int32>,
                                           original: Table<int32>, i: nat)
    requires i <= |updates.keys|
    requires AppliedUpTo(updates, statuses, original, i)
    ensures var j := FirstMissing(updates, statuses.values.Keys, i);
      && AppliedUpTo(updates, ApplyUpdates(updates, statuses, i).0, original, j)
      && ApplyUpdates(updates, statuses, i).1 ==
           if j == |updates.keys| then Pass else Fail(IllegalArgument(NO_STATUS_MESSAGE + updates.keys[j]))
    decreases |updates.keys| - i
  {
    if i < |updates.keys| && updates.keys[i] in statuses.values {
      var k := updates.keys[i];
      var next := Put(statuses, k, Update(updates.values[k], statuses.values[k]));
      AppliedStep(updates, statuses, original, i);
      assert next.values.Keys == statuses.values.Keys;
      ApplyUpdatesFrom(updates, next, original, i + 1);
    }
  }

  /** Resolving a consequential decision: the statuses named before the first missing one (in
      iteration order) get their updates, every other status keeps its value, no status is added
      or removed, and the result is the outcome or the missing-status error. */
  lemma ResolveConsequential(description: string, outcome: ChoiceId, updates: Table<StatusUpdate>,
                             statuses: Table<int32>)
    ensures var j := FirstMissing(updates, statuses.values.Keys, 0);
      var r := Resolve(Consequential(description, outcome, updates), statuses);
      && r.statuses.keys == statuses.keys
      && (forall k :: k in statuses.values ==>
           r.statuses.values[k] == (if k in updates.keys[..j] then Update(updates.values[k], statuses.values[k])
                                    else statuses.values[k]))
      && r.outcome == if j == |updates.keys| then Success(outcome)
                      else Failure(IllegalArgument(NO_STATUS_MESSAGE + updates.keys[j]))
  {
    assert updates.keys[..0] == [];
    ApplyUpdatesFrom(updates, statuses, statuses, 0);
  }

  /** A decision never adds or removes a status. */
  lemma {:induction false} ResolveKeepsNames(d: Decision, statuses: Table<int32>)
    ensures Resolve(d, statuses).statuses.keys == statuses.keys
  {
    match d
    case Simple(_, _) =>
    case Consequential(description, outcome, updates) =>
      ResolveConsequential(description, outcome, updates, statuses);
    case Dependent(delegate, _) =>
      ResolveKeepsNames(delegate, statuses);
  }

  /** A decision that succeeds leads to one of its possible outcomes; for a dependent decision
      that is the determiner's pick on the statuses left by the delegate. */
  lemma ResolveIsPossible(d: Decision, statuses: Table<int32>)
    ensures Resolve(d, statuses).outcome.Success? ==> Resolve(d, statuses).outcome.value in PossibleOutcomes(d)
    ensures d.Dependent? && Resolve(d.delegate, statuses).outcome.Success? ==>
      Resolve(d, statuses) == Resolution(Resolve(d.delegate, statuses).statuses,
                                         GetOutcome(d.determiner, Resolve(d.delegate, statuses).statuses))
  {
  }

  /** The statuses a method sees, decisions being made on them in place. */
  method MakeDecision(d: Decision, statuses: StatusTable) returns (r: Result<ChoiceId>)
    modifies statuses
    ensures statuses.table == Resolve(d, old(statuses.table)).statuses
    ensures r == Resolve(d, old(statuses.table)).outcome
    decreases d
  {
    match d
    case Simple(_, outcome) =>
      return Success(outcome);
    case Consequential(_, outcome, updates) =>
      var i := 0;
      while i < |updates.keys|
        invariant 0 <= i <= |updates.keys|
        invariant ApplyUpdates(updates, statuses.table, i) == ApplyUpdates(updates, old(statuses.table), 0)
      {
        var k := updates.keys[i];
        if k !in statuses.table.values {
          return Failure(IllegalArgument(NO_STATUS_MESSAGE + k));
        }
        statuses.Store(k, Update(updates.values[k], statuses.table.values[k]));
        i := i + 1;
      }
      return Success(outcome);
    case Dependent(delegate, determiner) =>
      var first := MakeDecision(delegate, statuses);
      if first.Failure? {
        return first;
      }
      return GetOutcome(determiner, statuses.table);
  }
}
