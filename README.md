# saga story engine in Dafny

A model of the core of *saga*, a Java engine for branching text stories, with proofs about it.

A **story game** sits at a current **choice**. A choice offers a list of **decisions**. Each decision, once made, leads to another choice, and some decisions also change the **statuses**, a table of named integer counters. There are three kinds of decision:

- a *simple* decision always leads to the same choice;
- a *consequential* decision first applies its **status updates** (`ADD n` or `SET n`) to named statuses;
- a *dependent* decision runs a delegate decision and then lets a *two-threshold determiner* pick the outcome, by comparing one status with a threshold.

Around the game the model covers:

- the **creator** (`StoryGameCreator`), which edits a draft story and builds games from it;
- the **node listing** (`StoryNodes`), which numbers the reachable choices and decisions breadth-first;
- the **text exporter and importer**, which write a game to the token format and read it back;
- the decision and status-update readers, and the tokenising `Scanner` helpers;
- the name-keyed **record library** (`MapLibrary`);
- the **player** and **writer** models built on that library.

Modelling choices:

- **Heap.** Java object identity matters in this code. A choice's option list is shared by reference: the importer appends to it after the choice is built, and the creator's edits show through games it has already created. So choices and decisions live in an `Arena` object. The arena maps integer handles to option lists and to decision values. Games and creators hold the arena by reference, so the sharing is kept.
- **Status map.** The status map is a `StatusTable` object. Decisions update it in place, and `getStatuses` returns it live.
- **Tables.** A Java `HashMap` becomes a `Table`: a key sequence in insertion order, together with a map. Insertion order stands in for the hash order that Java leaves unspecified.
- **Integers.** Java `int` is the newtype `int32`. `ADD` wraps around modulo 2^32, as Java does. `Integer.parseInt` is modelled on an optional sign followed by ASCII decimal digits, and accepts exactly the values in the 32-bit range.
- **Scanner.** A `Scanner` is an object holding the remaining whitespace-separated tokens. Each reader is a pure function over a token sequence, returning the value and the tokens left. The scanner method is proved to agree with that function.
- **Files.** The file system is a `map<string, string>` from path to contents.
- **Errors.** Java exceptions become `Result` values. Each carries the exception's kind and message.
- **Round trips.** The proofs include two round trips. Each decision reads back as itself. Exporting a story and parsing the text gives back the same story, with its choices renumbered in listing order. This holds for the text the exporter writes while it lists at most ten choices. With more, the exporter's choice ids collide, which is the second finding below.

## Model

| member | source | states |
|---|---|---|
| StatusUpdates.AddUpdate | src/main/java/model/game/statusUpdate/AddStatus.java:20-22 | `ADD n` applied to `s` is `n + s` exactly when the sum is an int, and otherwise differs from it by a multiple of 2^32 (Java's wrap-around) |
| StatusUpdates.AddOverflows | src/main/java/model/game/statusUpdate/AddStatus.java:20-22 | `ADD 1` on the largest int gives the smallest int |
| StatusUpdates.AddZero | src/main/java/model/game/statusUpdate/AddStatus.java:20-22 | `ADD 0` leaves every status as it is |
| StatusUpdates.AddTwice | src/main/java/model/game/statusUpdate/AddStatus.java:20-22 | `ADD a` after `ADD b` equals `ADD (a+b)` when nothing overflows |
| StatusUpdates.SetUpdate | src/main/java/model/game/statusUpdate/SetStatus.java:20-22 | `SET n` yields `n` whatever the old value, so applying it twice is applying it once |
| StatusUpdates.CreateSimple | src/model/game/statusUpdate/StatusUpdateCreator.java:39-50 | `ADD` makes an `AddStatus(n)`, `SET` a `SetStatus(n)`, and a null type fails with "Type can't be null!" |
| StatusUpdates.TypeNamed | src/model/game/statusUpdate/StatusUpdateCreator.java:74-81 | a tag names a type exactly when it is the string `ADD` or `SET`, case included |
| StatusUpdates.ImportSimple | src/model/game/statusUpdate/StatusUpdateCreator.java:23-28 | a successful read consumes at least one token |
| StatusUpdates.ImportSimpleTokens | src/model/game/statusUpdate/StatusUpdateCreator.java:23-28 | with a plain tag, reading succeeds iff the tag is `ADD` or `SET` and an int follows; it then consumes exactly those two tokens and builds the named update, and otherwise fails with "Illegal format - not a valid status update" (also lines 74-81) |
| StatusUpdates.ImportSimpleFailures | src/model/game/statusUpdate/StatusUpdateCreator.java:13 | a lower-case tag, a missing amount, a non-numeric amount and no tokens at all each fail with the format message (also lines 27, 74-81) |
| StatusUpdates.ExportTokens | src/main/java/model/game/statusUpdate/AddStatus.java:25-27 | `export()` is two tokens: the tag and the decimal amount, sign included (likewise `SetStatus.java:25-27`) |
| StatusUpdates.ImportExport | src/model/game/statusUpdate/StatusUpdateCreator.java:23-28 | reading back what `export()` wrote gives the same update for every int, and leaves the following tokens alone |
| Decisions.NewTwoThreshold | src/main/java/model/game/decision/TwoThresholdDeterminer.java:32-41 | the determiner is built exactly when the dependency and both outcomes are non-null, keeps the four arguments, and otherwise fails with the first failing check's message |
| Decisions.GetOutcome | src/main/java/model/game/decision/TwoThresholdDeterminer.java:44-48 | it fails exactly when the dependency is not a status, with "Can't determine outcome of this story - missing status " and the name |
| Decisions.ThresholdBoundary | src/main/java/model/game/decision/TwoThresholdDeterminer.java:50-54 | a value strictly below the threshold gives `below`; the threshold itself and anything above give `meets` |
| Decisions.OutcomeIsPossible | src/main/java/model/game/decision/TwoThresholdDeterminer.java:43-55 | the determiner's pick is one of its possible outcomes `[below, meets]` (also lines 70-72) |
| Decisions.ExportDeterminer | src/main/java/model/game/decision/TwoThresholdDeterminer.java:58-66 | export succeeds exactly when both outcomes have a representation, and otherwise fails with "Map doesn't contain all outcomes" |
| Decisions.PossibleOutcomes | src/main/java/model/game/decision/DependentDecision.java:82-84 | every decision has at least one possible outcome; a dependent decision's are its determiner's (`SimpleDecision.java:54-56`) |
| Decisions.ReferencedChoices | src/main/java/model/game/decision/DependentDecision.java:75-79 | the choices export looks up include every possible outcome |
| Decisions.NewSimple | src/main/java/model/game/decision/SimpleDecision.java:26-35 | the decision is built exactly when description and outcome are non-null; its `toString` is the description and its only possible outcome the given one; a null argument fails with its message |
| Decisions.NewConsequential | src/model/game/decision/ConsequentialDecision.java:31-41 | the decision keeps exactly the non-null updates of the caller's map, each with its value, and fails as `SimpleDecision` does |
| Decisions.NewDependent | src/main/java/model/game/decision/DependentDecision.java:27-31 | a null delegate or determiner fails with its message; otherwise `toString` is the delegate's and the possible outcomes are the determiner's (also lines 63-66, 82-84) |
| Decisions.NewDependentSimple | src/main/java/model/game/decision/DependentDecision.java:42-45 | the delegate is a simple decision leading to the determiner's first outcome, so the decision refers to no choice beyond its possible outcomes |
| Decisions.NewDependentConsequential | src/main/java/model/game/decision/DependentDecision.java:57-61 | the same with a consequential delegate holding the non-null updates |
| Decisions.ExportSucceeds | src/main/java/model/game/decision/SimpleDecision.java:43-50 | export of any decision succeeds exactly when every choice it refers to has a representation, and fails with "Map doesn't contain outcome" or "Map doesn't contain all outcomes" (also `ConsequentialDecision.java:60-64`, `DependentDecision.java:75-79`) |
| Decisions.FirstMissing | src/model/game/decision/ConsequentialDecision.java:47-54 | the first update, in iteration order, whose status is absent: every earlier name is present |
| Decisions.ResolveConsequential | src/model/game/decision/ConsequentialDecision.java:44-57 | the statuses named before the first missing one get `update(old)`, every other status keeps its value, none is added or removed, and the result is the outcome or "Can't make decision in given story: no status X" with earlier effects kept |
| Decisions.ResolveKeepsNames | src/model/game/decision/ConsequentialDecision.java:47-55 | making any decision leaves the set and order of status names as it was |
| Decisions.ResolveIsPossible | src/main/java/model/game/decision/DependentDecision.java:69-72 | a successful decision leads to one of its possible outcomes; a dependent one returns the determiner's pick on the statuses its delegate left |
| Decisions.MakeDecision | src/model/game/decision/ConsequentialDecision.java:44-57 | updating the live status table in place, entry by entry, ends in the state and result of the functional resolution (also `SimpleDecision.java:37-40`, `DependentDecision.java:69-72`) |
| Choices.OptionsOf | src/model/game/SimpleChoice.java:22-24 | a choice offers, in order, exactly the decisions its option list refers to |
| Choices.Items | src/model/game/SimpleChoice.java:44-51 | every description is followed by its position counted from 1 in parentheses (also lines 81-83) |
| Choices.RenderIsList | src/model/game/SimpleChoice.java:43-53 | corrected rendering of three or more options: all items but the last joined by `", "`, then `", or "` and the last item |
| Choices.RenderShort | src/model/game/SimpleChoice.java:43-53 | one option stands alone and two are joined by `" or "` |
| Choices.AsWrittenUpToThree | src/model/game/SimpleChoice.java:43-53 | the rendering as written and the corrected one agree for up to three options |
| Choices.AsWrittenDoublesCommas | src/model/game/SimpleChoice.java:45-48 | with four or more options the rendering as written has one extra comma per middle option after the first, so it always differs from the corrected one |
| Choices.RenderOneOption | src/model/game/SimpleChoice.java:43-44 | one option renders as `d1(1)` |
| Choices.RenderTwoOptions | src/model/game/SimpleChoice.java:49-51 | two options render as `d1(1) or d2(2)` |
| Choices.RenderThreeOptions | src/model/game/SimpleChoice.java:43-53 | three options render as `d1(1), d2(2), or d3(3)` |
| Choices.Descriptions | src/model/game/SimpleChoice.java:66-72 | one description per option, in order, each the option's `toString` |
| Choices.ChosenProperties | src/model/game/SimpleChoice.java:57-63 | an index outside `[0, options)` fails with "No choice i" and leaves the statuses alone; a valid one leads to a possible outcome of that option, which is a choice of the story; no status is added or removed |
| Choices.Arena.constructor | src/model/game/SimpleChoice.java:22-24 | an empty heap of choices and decisions |
| Choices.Arena.NewChoice | src/model/game/SimpleChoice.java:22-24 | a null list fails with "List can't be null!"; otherwise the new choice's options are the list without its nulls, in order, and nothing else changes |
| Choices.Arena.EndChoice | src/model/game/SimpleChoice.java:32-34 | every call makes a new choice with no options, distinct from all existing ones |
| Choices.Arena.NewDecision | src/model/game/decision/ConsequentialDecision.java:31-41 | a new decision object is added and nothing else changes |
| Choices.Arena.AppendOption | src/io/TextImporter.java:150 | appending to the list a choice holds gives that choice one more option, last, and changes nothing else |
| Choices.Arena.RemoveOption | src/main/java/model/creator/StoryGameCreator.java:189-201 | removing entry `k` of a choice's list removes exactly that option |
| Choices.Arena.Choose | src/model/game/SimpleChoice.java:57-63 | on the live status table, the result and new statuses are those of the functional `choose` |
| Games.NextAtEnd | src/main/java/model/game/SimpleStoryGame.java:78-80 | at a choice without options `next` returns false and changes neither the history nor the statuses |
| Games.NextBadIndex | src/main/java/model/game/SimpleStoryGame.java:81 | an index outside the current choice's options fails with "No choice i" before any decision runs, so nothing changes |
| Games.NextPushes | src/main/java/model/game/SimpleStoryGame.java:77-84 | `next` keeps the game playable and its status names; on `true` the history grows by exactly one possible outcome of the chosen option, which becomes the current choice; otherwise the history is unchanged |
| Games.NextStatuses | src/main/java/model/game/SimpleStoryGame.java:81-99 | after a valid choice the live statuses are those the chosen decision left |
| Games.StoryGame.constructor | src/main/java/model/game/SimpleStoryGame.java:33-45 | the history is the one given choice, and the original and the live statuses are fresh copies of the non-null entries |
| Games.StoryGame.Copy | src/main/java/model/game/SimpleStoryGame.java:53-69 | the copy's history holds only the source's current choice, in a list that cannot grow; it copies the current statuses and keeps the original ones |
| Games.StoryGame.Next | src/main/java/model/game/SimpleStoryGame.java:77-94 | the new history, live statuses and result are those of the functional `next` on the old state |
| Games.StoryGame.OriginalStory | src/main/java/model/game/SimpleStoryGame.java:102-104 | a new game at the first reached choice whose statuses are the original ones; this game is untouched |
| Drafts.SetStoryName | src/main/java/model/creator/StoryGameCreator.java:90-93 | a `null` name fails with "Name can't be null"; otherwise only the name changes, to the given one |
| Drafts.ChoiceAt | src/main/java/model/creator/StoryGameCreator.java:263-269 | succeeds exactly for an index into the choice list, giving the listed choice there; any other index fails with "No choice at i+1" |
| Drafts.CanDepend | src/main/java/model/creator/StoryGameCreator.java:278-285 | passes exactly when description and dependency are non-null and the dependency is a status, and otherwise fails with the first failing check's message |
| Drafts.Start | src/main/java/model/creator/StoryGameCreator.java:245-254 | the start is a new end choice exactly when no initial choice is set (-1), the listed choice at the stored index when it is in range, and `IndexOutOfBoundsException` exactly for any other index |
| Drafts.Erase | src/main/java/model/creator/StoryGameCreator.java:195-207 | `List.remove(object)` keeps only members of the list; on a list without repeats it removes exactly the given element and keeps the list free of repeats |
| Drafts.EraseAt | src/main/java/model/creator/StoryGameCreator.java:207 | on a list without repeats, removing the element at position i drops exactly position i |
| Drafts.Blank | src/main/java/model/creator/StoryGameCreator.java:42-53 | a new creator is sound and has no initial choice (-1) |
| Drafts.FromWalk | src/main/java/model/creator/StoryGameCreator.java:61-82 | a creator built from a story lists the choices and decisions the walk reaches, is sound, and has the story's current choice listed first and as the initial one |
| Drafts.ConsequenceFormat | src/main/java/model/creator/StoryGameCreator.java:323-336 | a consequence `TAG amount name` reads exactly when the tag is ADD or SET and the amount is an `int`, giving that update of that status; a bad one fails with the format message, and a consequence without a name fails with "Invalid status update format" |
| Drafts.UpdatesFromSucceeds | src/main/java/model/creator/StoryGameCreator.java:325-333 | the loop of `getUpdates` succeeds exactly when every consequence reads and names a status of the story |
| Drafts.UpdatesFromKeys | src/main/java/model/creator/StoryGameCreator.java:325-333 | the statuses in the result are exactly those named by the consequences, each a story status |
| Drafts.UpdatesFromValues | src/main/java/model/creator/StoryGameCreator.java:332 | a status named several times takes the update of the last consequence naming it (`put` overwrites) |
| Drafts.UpdatesProperties | src/main/java/model/creator/StoryGameCreator.java:323-336 | a `null` list fails with the null-list message; otherwise the nulls are dropped and the result maps exactly the named statuses, each to the update of the last consequence naming it, or fails when one consequence does not read or names no status |
| Drafts.AddDecisionTo | src/main/java/model/creator/StoryGameCreator.java:307-312 | adding a decision succeeds exactly when the choice index is valid, failing with "No choice at i+1"; on success the decision is a new heap object appended to the choice's options and to the decision list, with the given record, and the draft stays sound |
| Drafts.AddStatusEntry | src/main/java/model/creator/StoryGameCreator.java:96-103 | a `null` name fails; otherwise the status gets the value, no other status changes, an existing status keeps its place and a new one goes last, and nothing but the statuses changes |
| Drafts.RemoveStatusEntry | src/main/java/model/creator/StoryGameCreator.java:106-116 | a `null` name, a status a decision references and an unknown status each fail with their message; otherwise exactly that status leaves, order kept, and nothing else changes |
| Drafts.AddChoice | src/main/java/model/creator/StoryGameCreator.java:119-125 | a new choice without options, distinct from every listed one, goes last; the result is its index and the draft stays sound |
| Drafts.SetInitialChoice | src/main/java/model/creator/StoryGameCreator.java:128-131 | succeeds exactly for a listed index, which becomes the initial one; otherwise fails with "No choice at i+1" (also lines 263-269) |
| Drafts.AddSimple | src/main/java/model/creator/StoryGameCreator.java:134-139 | the description, then the outcome index, then the choice index are checked, each failing with its own message; on success a simple decision to the outcome is added to the choice with an empty record |
| Drafts.AddConsequential | src/main/java/model/creator/StoryGameCreator.java:142-154 | the description, the outcome, the consequences and then the choice are checked in that order; with no update a simple decision is added, otherwise a consequential one whose record is the updated statuses |
| Drafts.Threshold | src/main/java/model/creator/StoryGameCreator.java:160-164 | the determiner is made exactly when the description and dependency are non-null, the dependency is a status, and both outcome indices are valid (also lines 173-175, 278-285) |
| Drafts.AddThreshold | src/main/java/model/creator/StoryGameCreator.java:157-167 | a dependent decision with a simple delegate leading to the below outcome is added, recording its dependency; a failed check throws before anything changes |
| Drafts.AddConsequentialThreshold | src/main/java/model/creator/StoryGameCreator.java:170-187 | with no update the dependent decision records nothing; otherwise its delegate is consequential and its record is the dependency followed by the updated statuses |
| Drafts.RemoveDecision | src/main/java/model/creator/StoryGameCreator.java:190-201 | succeeds exactly for a valid choice and option index; the option leaves the choice, and the decision leaves the decision list and the records only when no listed choice still offers it; the draft stays sound |
| Drafts.DroppedSound | src/main/java/model/creator/StoryGameCreator.java:193-197 | removing an option, and the decision when no choice offers it any more, keeps the draft sound |
| Drafts.RemoveChoice | src/main/java/model/creator/StoryGameCreator.java:204-213 | succeeds exactly for a valid index whose choice is no outcome of a listed decision and is not the initial one; only the choice leaves the list, and the draft stays sound |
| Drafts.AddThenRemoveStatus | src/main/java/model/creator/StoryGameCreator.java:96-116 | adding a new status and removing it again gives back the original draft |
| Drafts.ThresholdBlocksRemoval | src/main/java/model/creator/StoryGameCreator.java:166 | after a threshold decision is added its dependency can no longer be removed (also lines 108-112) |
| Drafts.ConsequencesBlockRemoval | src/main/java/model/creator/StoryGameCreator.java:152 | after a consequential decision is added, every status it updates can no longer be removed (also lines 108-112) |
| Drafts.EmptyThresholdRecordsNothing | src/main/java/model/creator/StoryGameCreator.java:177-179 | a consequential threshold decision without updates records nothing, so it blocks the removal of no status, not even its own dependency |
| Drafts.AddThenRemoveChoice | src/main/java/model/creator/StoryGameCreator.java:119-125 | removing the choice just added gives back the choice list (also lines 204-213) |
| Drafts.AddThenRemoveDecision | src/main/java/model/creator/StoryGameCreator.java:134-139 | removing the option just added gives back the choice options, the decision list and the records (also lines 190-201) |
| Drafts.RemoveChoiceMovesStart | src/main/java/model/creator/StoryGameCreator.java:207 | the initial index is not adjusted: removing a choice listed before the initial one makes `create` start at the next choice, or fail once the initial one was last (also lines 245-251) |
| Drafts.EndChoiceKeepsSound | src/main/java/model/creator/StoryGameCreator.java:247-248 | the unlisted end choice that `create` adds to the heap keeps the draft sound |
| Drafts.RecordAfterAdd | src/main/java/model/creator/StoryGameCreator.java:152 | filling the empty record `addDecision` leaves gives the draft with the caller's record (also lines 166, 184-185) |
| Creator.EmptyRecords | src/main/java/model/creator/StoryGameCreator.java:71-75 | every decision of the story gets an empty dependency record |
| Creator.FromStory | src/main/java/model/creator/StoryGameCreator.java:61-82 | a `null` story fails with "Story can't be null"; otherwise the creator shares the story's statuses and heap and its state is the walk's draft |
| Creator.StoryGameCreator.constructor | src/main/java/model/creator/StoryGameCreator.java:42-53 | the state is the blank draft, named "Untitled" for a `null` name |
| Creator.StoryGameCreator.Of | src/main/java/model/creator/StoryGameCreator.java:61-82 | the state is the draft of the nodes the walk finds, with the story's current choice as the initial one |
| Creator.StoryGameCreator.Create | src/main/java/model/creator/StoryGameCreator.java:85-87 | without an initial choice the game starts at a new end choice; otherwise at the initial choice, or fails with `IndexOutOfBoundsException` when the index is past the list; the game is fresh, named after the story, and holds a copy of the statuses (also lines 245-254) |
| Creator.StoryGameCreator.SetStoryName | src/main/java/model/creator/StoryGameCreator.java:90-93 | the state moves as `Drafts.SetStoryName` says, or the method throws and nothing changes |
| Creator.StoryGameCreator.AddStatus | src/main/java/model/creator/StoryGameCreator.java:96-103 | the state moves as `Drafts.AddStatusEntry` says |
| Creator.StoryGameCreator.RemoveStatus | src/main/java/model/creator/StoryGameCreator.java:106-116 | the state moves as `Drafts.RemoveStatusEntry` says |
| Creator.StoryGameCreator.AddChoice | src/main/java/model/creator/StoryGameCreator.java:119-125 | the state and the index are those of `Drafts.AddChoice` |
| Creator.StoryGameCreator.SetInitialChoice | src/main/java/model/creator/StoryGameCreator.java:128-131 | the state moves as `Drafts.SetInitialChoice` says |
| Creator.StoryGameCreator.AddSimpleDecision | src/main/java/model/creator/StoryGameCreator.java:134-139 | the state moves as `Drafts.AddSimple` says |
| Creator.StoryGameCreator.AddConsequentialDecision | src/main/java/model/creator/StoryGameCreator.java:142-154 | the state moves as `Drafts.AddConsequential` says; the caller's list loses its nulls once the description and outcome have passed |
| Creator.StoryGameCreator.AddSimpleDependentThresholdDecision | src/main/java/model/creator/StoryGameCreator.java:157-167 | the state moves as `Drafts.AddThreshold` says |
| Creator.StoryGameCreator.CheckThreshold | src/main/java/model/creator/StoryGameCreator.java:160-175 | the checks and the determiner are those of `Drafts.Threshold` |
| Creator.StoryGameCreator.AddConsequentialThresholdDecision | src/main/java/model/creator/StoryGameCreator.java:170-187 | the state moves as `Drafts.AddConsequentialThreshold` says; the caller's list loses its nulls once the other checks have passed |
| Creator.StoryGameCreator.AddDependentWithUpdates | src/main/java/model/creator/StoryGameCreator.java:177-186 | with no updates, the state moves as adding a dependent decision with a simple delegate and an empty record; otherwise as adding one with a consequential delegate, recording the dependency and then the updated statuses |
| Creator.StoryGameCreator.RemoveDecision | src/main/java/model/creator/StoryGameCreator.java:190-201 | the state moves as `Drafts.RemoveDecision` says |
| Creator.StoryGameCreator.RemoveChoice | src/main/java/model/creator/StoryGameCreator.java:204-213 | the state moves as `Drafts.RemoveChoice` says |
| Creator.StoryGameCreator.StoryName | src/main/java/model/creator/StoryGameCreator.java:216-218 | the story name of the creator's draft |
| Creator.StoryGameCreator.Choices | src/main/java/model/creator/StoryGameCreator.java:226-228 | the draft's choice list, as a separate value |
| Creator.StoryGameCreator.InitialChoice | src/main/java/model/creator/StoryGameCreator.java:231-233 | the draft's initial index, -1 when none is set |
| Creator.StoryGameCreator.Decisions | src/main/java/model/creator/StoryGameCreator.java:236-238 | the draft's decision list, as a separate value |
| Creator.StoryGameCreator.GetStatuses | src/main/java/model/creator/StoryGameCreator.java:221-223 | the result equals the statuses, order included, as a separate value |
| Creator.StoryGameCreator.EnsureChoiceExists | src/main/java/model/creator/StoryGameCreator.java:263-269 | the listed choice at the index, or "No choice at i+1" |
| Creator.StoryGameCreator.EnsureCanMakeDependentDecision | src/main/java/model/creator/StoryGameCreator.java:278-285 | the checks of `Drafts.CanDepend`, in order: description, dependency, then the dependency being a status |
| Creator.StoryGameCreator.CopyStatuses | src/main/java/model/creator/StoryGameCreator.java:292-298 | the loop copies every status with its value, in iteration order |
| Creator.StoryGameCreator.AddDecision | src/main/java/model/creator/StoryGameCreator.java:307-312 | the state moves as `Drafts.AddDecisionTo` with an empty record says, and the result is the new decision's handle |
| Creator.StoryGameCreator.AddRecorded | src/main/java/model/creator/StoryGameCreator.java:151-152 | adding and then filling the record moves the state as `Drafts.AddDecisionTo` with that record says (also lines 165-166, 183-185) |
| Creator.StoryGameCreator.GetUpdates | src/main/java/model/creator/StoryGameCreator.java:323-336 | the result is `Drafts.Updates` of the list, and the list loses its nulls |
| Creator.StoryGameCreator.ReadUpdate | src/main/java/model/creator/StoryGameCreator.java:326-328 | reading one consequence on a scanner gives `Drafts.ReadConsequence` |
| Creator.StoryGameCreator.IsAnOption | src/main/java/model/creator/StoryGameCreator.java:344-354 | the scan is true exactly when some listed choice offers the decision |
| Creator.StoryGameCreator.IsAnOutcome | src/main/java/model/creator/StoryGameCreator.java:362-372 | the scan is true exactly when the choice is a possible outcome of some listed decision |
| Creator.StoryGameCreator.IsUsedStatus | src/main/java/model/creator/StoryGameCreator.java:381-389 | the scan is true exactly when some dependency record names the status |
| Nodes.RecordUnique | src/main/java/io/StoryNodes.java:77-80 | a decision is added to the seen list only once, so the list stays free of repeats |
| Nodes.RecordNumbered | src/main/java/io/StoryNodes.java:77-81 | every option of a choice is labelled with the position of its own decision in the seen list |
| Nodes.QueuedBelow | src/main/java/io/StoryNodes.java:83-88 | in a closed story only choices of the story are queued |
| Nodes.ExploreIndexed | src/main/java/io/StoryNodes.java:68-94 | the walk ends with an empty worklist and keeps every choice it listed, with a new first choice listed where the walk started |
| Nodes.WalkFromProperties | src/main/java/io/StoryNodes.java:59-97 | the walk lists the current choice first, every reached choice and decision exactly once, gives each listed choice the D-numbers of its options, and every possible outcome of a listed decision is a listed choice |
| Nodes.NodesOfStrings | src/main/java/io/StoryNodes.java:30-48 | the nodes list the walk's choices and decisions, and exactly the listed choices have an option string; choice k has `C<k> [ D<j> … ]` with the D-numbers of its options |
| Nodes.OptionText | src/main/java/io/StoryNodes.java:37-42 | the builder loop produces `C<index> [ ` followed by `D<j> ` per option and `]` |
| Nodes.Build | src/main/java/io/StoryNodes.java:30-48 | the constructor's loop gives every choice of the order its option string at its own position |
| Nodes.QueueUnseen | src/main/java/io/StoryNodes.java:84-88 | the loop queues exactly the outcomes not seen yet, in order and with repetitions |
| Nodes.VisitChoice | src/main/java/io/StoryNodes.java:77-89 | the option loop appends the new decisions and labels as the numbering function does, and queues the unseen outcomes as the queueing function does |
| Nodes.Dequeue | src/main/java/io/StoryNodes.java:72-90 | taking one choice off the worklist continues the walk: the walk from the new state equals the walk from the old one |
| Nodes.Step | src/main/java/io/StoryNodes.java:71-90 | visiting the next choice of the level continues the walk, and what it queues is appended to the next level |
| Nodes.Level | src/main/java/io/StoryNodes.java:69-93 | one pass over the worklist continues the walk, and either lists a new choice or leaves nothing queued |
| Nodes.CreateNodes | src/main/java/io/StoryNodes.java:59-97 | the level-by-level loop computes exactly the nodes of the breadth-first walk from the current choice |
| DecisionReader.DecisionTypeNamed | src/model/game/decision/DecisionCreator.java:181-188 | `DecisionTypes.valueOf` accepts exactly the three constant names and nothing else |
| DecisionReader.GetDecisionType | src/model/game/decision/DecisionCreator.java:181-188 | a type read consumes its token |
| DecisionReader.GetChoice | src/model/game/decision/DecisionCreator.java:223-234 | a choice read is one of the given choices and consumes its token |
| DecisionReader.ImportDeterminer | src/model/game/decision/DecisionCreator.java:124-141 | a determiner read consumes tokens and both its outcomes are among the given choices |
| DecisionReader.ReadEffects | src/model/game/decision/DecisionCreator.java:49-54 | the effects loop never reads past what it is given |
| DecisionReader.ReadSimple | src/model/game/decision/DecisionCreator.java:44-45 | a simple decision read refers only to given choices |
| DecisionReader.ReadConsequential | src/model/game/decision/DecisionCreator.java:46-55 | a consequential decision read refers only to given choices |
| DecisionReader.ImportDecision | src/model/game/decision/DecisionCreator.java:36-63 | every decision read consumes tokens and refers only to the given choices |
| DecisionReader.ReadDependent | src/model/game/decision/DecisionCreator.java:56-59 | a dependent decision read refers only to given choices |
| DecisionReader.ImportDecisionFrom | src/model/game/decision/DecisionCreator.java:36-63 | on the scanner, the decision and the tokens left are those of `ImportDecision` |
| DecisionReader.SimpleFrom | src/model/game/decision/DecisionCreator.java:44-45 | on the scanner, the result and the tokens left are those of `ReadSimple` |
| DecisionReader.ConsequentialFrom | src/model/game/decision/DecisionCreator.java:46-55 | on the scanner, the result and the tokens left are those of `ReadConsequential` |
| DecisionReader.EffectsFrom | src/model/game/decision/DecisionCreator.java:49-54 | the `while` loop on the scanner reads what `ReadEffects` reads |
| DecisionReader.DependentFrom | src/model/game/decision/DecisionCreator.java:56-59 | on the scanner, the result and the tokens left are those of `ReadDependent` |
| DecisionRoundTrip.ChoiceIds | src/main/java/io/StoryNodes.java:37 | every choice of the list gets an id, and only those choices do |
| DecisionRoundTrip.ChoiceIdRead | src/model/game/decision/DecisionCreator.java:223-234 | an id `C<k>` is one token, and `getChoice` reads it back as choice k |
| DecisionRoundTrip.SimpleRoundTrip | src/main/java/model/game/decision/SimpleDecision.java:43-50 | a simple decision whose description has no quote exports, and `importDecision` reads back the same decision, leaving the following tokens |
| DecisionRoundTrip.ConsequentialRoundTrip | src/model/game/decision/ConsequentialDecision.java:60-80 | a consequential decision with at least one effect exports and reads back as itself, effects in order |
| DecisionRoundTrip.DeterminerRoundTrip | src/main/java/model/game/decision/TwoThresholdDeterminer.java:58-66 | a determiner exports and `importDeterminer` reads it back as itself |
| DecisionRoundTrip.RoundTrip | src/model/game/decision/DecisionCreator.java:36-63 | every writable decision over numbered choices reads back as itself; a dependent decision leaves its closing `]` tokens behind |
| DecisionRoundTrip.DependentRoundTrip | src/main/java/model/game/decision/DependentDecision.java:75-79 | a dependent decision reads back as itself, determiner and delegate included |
| DecisionRoundTrip.NoEffectsFail | src/model/game/decision/ConsequentialDecision.java:66-80 | a consequential decision without effects is written as `[ ]`, which the reader does not read back: reading `]` as a status update fails with the status-update format message "Illegal format - not a valid status update" |
| TextExport.FileIds | src/main/java/io/TextExporter.java:56-59 | as intended, every choice with an option string gets an id, and only those choices |
| TextExport.TruncatedIds | src/main/java/io/TextExporter.java:56-59 | as written, every choice with an option string gets the first two characters of that string as its id |
| TextExport.ExportStory | src/main/java/io/TextExporter.java:23-87 | a `null` story fails with "Story can't be null."; otherwise the text is what `ExportedAsWritten` writes for the story's heap, name, live statuses and current choice, each choice's id being the first two characters of its option string |
| TextExport.StatusLines | src/main/java/io/TextExporter.java:44-49 | the status loop writes `"name" value ` for each status, in order |
| TextExport.StatusTurn | src/main/java/io/TextExporter.java:45-48 | one turn of the status loop extends the text by exactly that status's entry |
| TextExport.DecisionLines | src/main/java/io/TextExporter.java:66-73 | the decision loop writes `[ export ]` per listed decision, or fails with the first failing export |
| TextExport.ChoiceLines | src/main/java/io/TextExporter.java:76-80 | the choice loop writes each listed choice's option string on its own line, in order |
| TextExport.ChoiceIdsOf | src/main/java/io/TextExporter.java:56-59 | the id loop maps every choice with an option string, and only those, to the first two characters of that string (`TruncatedIds`) |
| TextExport.DecisionTextSucceeds | src/main/java/io/TextExporter.java:67-72 | the decision block is written exactly when every listed decision has an id for each choice it refers to |
| TextExport.IdOfOption | src/main/java/io/StoryNodes.java:37-42 | the id of option string `C<i> [ … ]` is `C<i>` |
| TextExport.FileIdsAreChoiceIds | src/main/java/io/TextExporter.java:56-59 | the intended ids are exactly `C<k>` for the k-th listed choice |
| TextExport.NodesNumbered | src/main/java/io/StoryNodes.java:30-48 | the option strings of the listing are `C<k> [ … ]`, numbered by listing position, for exactly the listed choices |
| TextExport.NumberedLong | src/main/java/io/TextExporter.java:58 | every numbered option string has at least two characters, so `substring(0, 2)` cannot throw |
| TextExport.OptionsLong | src/main/java/io/TextExporter.java:58 | every option string of a story's listing has at least two characters |
| TextExport.NumberedAgree | src/main/java/io/TextExporter.java:56-59 | with at most ten numbered positions, the first two characters of each option string are its id, so the ids as written and as intended are the same map |
| TextExport.NumberedCollide | src/main/java/io/TextExporter.java:56-59 | with eleven or more positions, the first two characters of the strings at positions 10 and 1 are both `C1`, while their ids are `C10` and `C1` |
| TextExport.AsWrittenUpToTen | src/main/java/io/TextExporter.java:37-82 | while at most ten choices are listed, the exporter writes exactly the text with the intended ids |
| TextExport.AsWrittenCollides | src/main/java/io/TextExporter.java:56-59 | once eleven choices are listed, the exporter gives the two different choices 1 and 10 the same id `C1`, where the intended id of choice 10 is `C10` |
| TextExport.ExportedBlock | src/main/java/io/TextExporter.java:37-82 | the export succeeds exactly when its decision block does |
| TextExport.StartListedFirst | src/main/java/io/TextExporter.java:82 | the current choice is listed first, so the file ends with `C0` |
| TextExport.ExportSucceedsWhen | src/main/java/io/TextExporter.java:53-82 | an export succeeds exactly when every choice a listed decision refers to is listed, and then the file starts at `C0` |
| TextExport.HaveIdsOfMembers | src/main/java/io/TextExporter.java:67-72 | every listed decision finds its ids exactly when every choice it refers to has one |
| TextExport.OutcomesOnlyExport | src/main/java/io/TextExporter.java:53-82 | a story whose decisions refer only to their possible outcomes always exports |
| TextExport.TruncatedIdsCollide | src/main/java/io/TextExporter.java:58 | as written, choices 10 and 1 both get the id `C1`, where the intended ids are `C10` and `C1` |
| TextExport.TruncatedIdsAgree | src/main/java/io/TextExporter.java:58 | below ten choices the two-character ids are the intended ones |
| TextImport.Range | src/io/TextImporter.java:54-57 | the choices made are numbered 0 to n-1 |
| TextImport.Blank | src/io/TextImporter.java:54-57 | every choice made starts with an empty option list |
| TextImport.StatusEntries | src/io/TextImporter.java:90-95 | the status loop never reads past what it is given |
| TextImport.ReadStatuses | src/io/TextImporter.java:86-96 | reading the statuses consumes tokens |
| TextImport.DecisionEntries | src/io/TextImporter.java:108-118 | the decision loops only add decisions, and every decision read refers to the given choices |
| TextImport.ReadDecisions | src/io/TextImporter.java:106-119 | every decision read refers only to the choices made |
| TextImport.OptionEntries | src/io/TextImporter.java:148-152 | the inner option loop keeps the number of choices and adds only decisions that exist |
| TextImport.OptionList | src/io/TextImporter.java:146-152 | one choice line keeps the number of choices and adds only decisions that exist |
| TextImport.ReadOptions | src/io/TextImporter.java:141-155 | the option block keeps the number of choices and adds only decisions that exist |
| TextImport.ReadClosed | src/io/TextImporter.java:54-63 | the story read refers only to its own choices and decisions |
| TextImport.ParseStory | src/io/TextImporter.java:29-66 | a story read from tokens has an initial choice among its choices and a closed heap |
| TextImport.ImportStory | src/io/TextImporter.java:29-66 | a `null` path fails with "Filename can't be null"; a path not in the file system fails with "File not found"; otherwise the result succeeds exactly when the file parses, and the game is fresh, sound and holds what was parsed |
| TextImport.MakeChoices | src/io/TextImporter.java:54-57 | the choice loop makes n new empty choices, numbered 0 to n-1 |
| TextImport.ReadStatusesFrom | src/io/TextImporter.java:86-96 | on the scanner, the statuses and the tokens left are those of `ReadStatuses` |
| TextImport.ReadDecisionsFrom | src/io/TextImporter.java:106-119 | on the scanner and the heap, the decisions read are those of `ReadDecisions`, appended to the heap |
| TextImport.ReadGroupsFrom | src/io/TextImporter.java:111-117 | the outer decision loop reads what `DecisionEntries` reads |
| TextImport.ReadGroup | src/io/TextImporter.java:112-115 | the inner decision loop reads what `DecisionEntries` reads, appending each decision to the heap |
| TextImport.ReadEntry | src/io/TextImporter.java:113-114 | one decision read on the scanner is appended to the heap |
| TextImport.AddOptionsFrom | src/io/TextImporter.java:141-155 | the option loops leave the heap's option lists as `ReadOptions` says |
| StoryRoundTrip.Renamed | src/io/TextImporter.java:113 | renaming a decision's choices to their positions keeps it writable and makes it refer only to positions |
| StoryRoundTrip.ExportRenamed | src/main/java/io/TextExporter.java:70 | a decision written with the listed choices' ids is written the same as its renaming with `C<k>` ids |
| StoryRoundTrip.StatusesBack | src/io/TextImporter.java:86-96 | the status block written by the exporter reads back into the same statuses, order included |
| StoryRoundTrip.DecisionsBack | src/io/TextImporter.java:106-119 | the decision block reads back as the renamed decisions, in order |
| StoryRoundTrip.OptionsBack | src/io/TextImporter.java:141-155 | the option block reads back into the same option lists |
| StoryRoundTrip.ExportedTokens | src/main/java/io/TextExporter.java:37-82 | an exportable story is written in full and its text splits into the tokens of its sections |
| StoryRoundTrip.ExportReadsBack | src/io/TextImporter.java:29-66 | the importer reads the file the exporter writes as the story renamed, its listed choices numbered from the current one |
| StoryRoundTrip.AsWrittenReadsBack | src/io/TextImporter.java:29-66 | for an exportable story listing at most ten choices, the text the exporter writes, with its truncated ids, reads back as the story renamed |
| StoryRoundTrip.ReimportedStory | src/main/java/io/TextExporter.java:37-82 | the story read back has the same name and statuses, starts at file choice 0, which is the current choice; file choice i is the i-th listed choice with the same options in the same order; each file decision is its listed decision renamed |
| IOUtils.WordLength | src/utils/IOUtils.java:23 | the token `Scanner.next` takes is a non-empty run of non-whitespace ending at whitespace or at the end |
| IOUtils.Tokenize | src/utils/IOUtils.java:23 | the scanner's tokens are all non-empty words without whitespace |
| IOUtils.TokenizeWord | src/utils/IOUtils.java:23 | a single word is one token |
| IOUtils.TokenizeJoin | src/main/java/io/TextExporter.java:40-49 | two texts joined by one whitespace character tokenize piecewise, which is what lets the exporter's output be read section by section |
| IOUtils.TokenizeTwoWords | src/main/java/io/TextExporter.java:47 | two words written with a space between them read back as those two tokens |
| IOUtils.QuotedToken | src/utils/IOUtils.java:18-38 | a successful `tryNext` consumes at least one token |
| IOUtils.Absorb | src/utils/IOUtils.java:27-30 | the quote loop ends only on a token ending with `"` and never reads past its input |
| IOUtils.FirstSpace | src/main/java/io/TextExporter.java:58 | the position of the first space, or the length when there is none |
| IOUtils.AbsorbSafe | src/utils/IOUtils.java:27-30 | on the rest of a quoted text, the quote loop absorbs exactly its tokens and the closing quote, and nothing after them |
| IOUtils.QuotedRoundTrip | src/utils/IOUtils.java:18-38 | a text without quotes, newlines or doubled spaces, written between quotes, reads back with `tryNext` as the same text and consumes exactly its tokens (with `TextExporter.java:112-114`) |
| IOUtils.UnquotedToken | src/utils/IOUtils.java:26-36 | a token not starting with `"` is returned as it is and only it is consumed |
| IOUtils.TryNextExamples | src/utils/IOUtils.java:18-38 | no token fails with the caller's message; `""friend""` and `""""` lose only their outer quotes; `"my friend"` is joined from two tokens; an unclosed quote fails; a lone `"` throws `StringIndexOutOfBoundsException` |
| IOUtils.PrintedIntIsWord | src/main/java/model/game/statusUpdate/AddStatus.java:25-27 | the decimal form of an int is one token |
| IOUtils.Scanner.constructor | src/model/game/statusUpdate/StatusUpdateCreator.java:39-50 | a scanner over a text holds its tokens |
| IOUtils.Scanner.TryNext | src/utils/IOUtils.java:18-38 | the scanner yields and consumes what `QuotedToken` reads, and fails with its error |
| IOUtils.Scanner.TryNextInt | src/utils/IOUtils.java:48-55 | the scanner yields and consumes what `NextInt` reads; a token that is not an int is not consumed |
| IOUtils.NextInt | src/utils/IOUtils.java:48-55 | succeeds exactly when the next token parses as an int, yielding that int and consuming only it; otherwise fails with the caller's message |
| IOUtils.GetNumId | src/utils/IOUtils.java:66-77 | succeeds exactly when the id is longer than one character and the rest parses as an int, yielding that int; otherwise fails with the caller's message |
| IOUtils.NumIdOfPrinted | src/utils/IOUtils.java:66-77 | any one character followed by an int's decimal form reads back as that int |
| IOUtils.NumIdExamples | src/utils/IOUtils.java:66-77 | `C0` is 0, `C-1` is -1, `z10` is 10; `C` and `Cx` fail |
| IOUtils.NextIntExamples | src/utils/IOUtils.java:48-55 | `00` reads as 0, `-010` as -10, and no token fails |
| JavaInt.Wrap | src/main/java/model/game/statusUpdate/AddStatus.java:20-22 | Java's int result agrees with the mathematical value modulo 2^32 and equals it when in range |
| JavaInt.Add | src/main/java/model/creator/StoryGameCreator.java:199 | Java's `int` addition: the sum when in range, wrapped by 2^32 otherwise (also line 267) |
| JavaInt.DigitChar | src/main/java/model/game/statusUpdate/AddStatus.java:25-27 | the digit character of a value below ten |
| JavaInt.NatToString | src/main/java/model/game/statusUpdate/AddStatus.java:25-27 | decimal digits with no leading zero |
| JavaInt.ParseInt | src/utils/IOUtils.java:72 | `Integer.parseInt` accepts only non-empty strings |
| JavaInt.ParseToString | src/utils/IOUtils.java:72 | `Integer.parseInt(Integer.toString(x)) == x` for every int |
| JavaInt.ToStringShape | src/main/java/model/game/statusUpdate/AddStatus.java:25-27 | an int's decimal form is non-empty and starts with `-` or a digit |
| JavaInt.ToStringInjective | src/main/java/io/StoryNodes.java:37 | different ints print differently, so the ids `C<i>` are distinct |
| Utils.EnsureNotNull | src/main/java/utils/Utils.java:19-28 | a present object is returned; a `null` one fails with the message, or with "Can't be null!" when the message is `null` |
| Utils.Compact | src/main/java/utils/Utils.java:38-46 | the list without nulls holds no null and is no longer |
| Utils.Values | src/main/java/model/creator/StoryGameCreator.java:325 | the strings of a list without nulls, in order |
| Utils.CompactAppend | src/main/java/utils/Utils.java:40-44 | dropping nulls distributes over concatenation, so the kept elements stay in their order |
| Utils.CompactOfNonNull | src/main/java/utils/Utils.java:40-44 | a list without nulls is left as it is |
| Utils.CompactCounts | src/main/java/utils/Utils.java:40-44 | exactly the nulls are deleted: every other element is kept as many times as it occurs |
| Utils.RemoveNulls | src/main/java/utils/Utils.java:38-46 | a `null` list fails with "List can't be null!"; otherwise the backward loop deletes the nulls in place and returns the same list |
| Utils.StringNumberShape | src/main/java/utils/Utils.java:67-78 | what `isStringNumber` accepts is an optional sign and decimal digits only |
| Utils.PrintedNumbers | src/main/java/utils/Utils.java:56-78 | every int's decimal form is a string number, and a positive one exactly when the int is above zero |
| Utils.PositiveNumberExamples | src/main/java/utils/Utils.java:56-58 | `null`, `0`, `-1` and `one` are not positive numbers; the empty string, `1.0` and `1,000` are not numbers; `1` and `+7` are positive |
| Tables.Empty | src/main/java/model/creator/StoryGameCreator.java:47 | a new map has no keys |
| Tables.Get | src/utils/MapLibrary.java:63-66 | `get` yields the value of a present key and nothing for a missing one |
| Tables.Put | src/main/java/model/creator/StoryGameCreator.java:98-102 | `put` maps the key to the value; a present key keeps its place in the iteration order and a new key goes last |
| Tables.Without | src/main/java/model/creator/StoryGameCreator.java:109 | the key order without the key, keeping order and distinctness |
| Tables.Remove | src/main/java/model/creator/StoryGameCreator.java:109 | `remove` drops exactly the key and its value and keeps the order of the others |
| Tables.DropNulls | src/main/java/model/game/SimpleStoryGame.java:39-44 | the copy keeps exactly the entries whose value is not `null`, in order |
| Tables.Lift | src/main/java/model/game/SimpleStoryGame.java:53-69 | a table without nulls passed where nulls are allowed keeps its keys and values |
| Tables.DropNullsOfLift | src/main/java/model/game/SimpleStoryGame.java:39-44 | copying a table without nulls entry by entry gives the same table, order included |
| Tables.GetAfterPut | src/main/java/model/creator/StoryGameCreator.java:98-102 | after `put`, `get` of that key is the new value and of any other key is unchanged |
| Tables.GetAfterRemove | src/main/java/model/creator/StoryGameCreator.java:109 | after `remove`, the key is missing and every other key is unchanged |
| Tables.PutPresent | src/main/java/model/creator/StoryGameCreator.java:99 | putting a present key with its present value changes nothing |
| Tables.StatusTable.constructor | src/main/java/model/creator/StoryGameCreator.java:47 | a status object holding the given table |
| Tables.StatusTable.Store | src/main/java/model/creator/StoryGameCreator.java:98-102 | the object's table becomes `Put` of the old one |
| Tables.StatusTable.Discard | src/main/java/model/creator/StoryGameCreator.java:109 | the object's table becomes `Remove` of the old one |
| Handles.IndexOf | src/main/java/model/creator/StoryGameCreator.java:69 | `indexOf` of a member is the position of its first occurrence |
| Handles.IndexOfUnique | src/main/java/io/StoryNodes.java:37 | in a list without repeats, `indexOf` of the element at position k is k |
| Handles.Pigeonhole | src/main/java/io/StoryNodes.java:68-94 | distinct handles below n are at most n many, which bounds the walk on a cyclic story |
| Libraries.Shown | src/utils/MapLibrary.java:75 | a string argument shown in a message: itself, or "null" for a `null` one (also line 125) |
| Libraries.Thrown | src/utils/MapLibrary.java:75 | the exception a message function's result makes: with that message, or without one when the function gives `null` (also line 125) |
| Libraries.PrecedesIrreflexive | src/utils/MapLibrary.java:89 | `compareTo` orders no string before itself |
| Libraries.PrecedesTransitive | src/utils/MapLibrary.java:89 | the `compareTo` order is transitive |
| Libraries.PrecedesTotal | src/utils/MapLibrary.java:89 | of two different strings one comes first |
| Libraries.Insert | src/utils/MapLibrary.java:89 | inserting a new name into a sorted list keeps it sorted and adds exactly that name |
| Libraries.SortNames | src/utils/MapLibrary.java:88-89 | sorting distinct names gives a sorted list of the same names |
| Libraries.SortedUnique | src/utils/MapLibrary.java:88-89 | two sorted lists of the same names are equal, so the result does not depend on the map's iteration order |
| Libraries.SuffixesCount | src/utils/MapLibrary.java:105-109 | the loop has tried k-1 distinct suffixed names after k-1 increments |
| Libraries.TakenBound | src/utils/MapLibrary.java:106-109 | the increment never passes the number of names plus one, so the loop ends |
| Libraries.FirstFree | src/utils/MapLibrary.java:106-109 | the first suffix from k on whose name is free |
| Libraries.FirstFreeIs | src/utils/MapLibrary.java:106-109 | the loop stops at the smallest free suffix |
| Libraries.ValidName | src/utils/MapLibrary.java:99-112 | the name is never in the library; it is the preferred name ("Untitled" for `null`) when that is free, and otherwise `name(k)` for the smallest k with every earlier `name(j)` taken |
| Libraries.CreateValidName | src/utils/MapLibrary.java:99-112 | the loop finds exactly `ValidName` |
| Libraries.AddKeeps | src/utils/MapLibrary.java:51-55 | adding files under a fresh name, so the library grows by one and no record is replaced |
| Libraries.RenameMoves | src/utils/MapLibrary.java:71-73 | a rename keeps the size, moves exactly the record from the old name to the new one, and keeps all other records |
| Libraries.MapLibrary.constructor | src/utils/MapLibrary.java:36-49 | an empty library; a `null` message function is replaced by the identity |
| Libraries.MapLibrary.Add | src/utils/MapLibrary.java:51-55 | a `null` record fails with the null message and changes nothing; otherwise it is filed under `ValidName` of the name |
| Libraries.MapLibrary.EnsureRecordExists | src/utils/MapLibrary.java:121-127 | succeeds exactly for a present name, yielding its record; otherwise throws the missing message |
| Libraries.MapLibrary.Remove | src/utils/MapLibrary.java:57-61 | a present name leaves with its record; otherwise fails with the missing message and changes nothing |
| Libraries.MapLibrary.Retrieve | src/utils/MapLibrary.java:63-66 | the record of a present name, or the missing message |
| Libraries.MapLibrary.Rename | src/utils/MapLibrary.java:68-77 | a missing name fails with the missing message; a `null` or taken new name fails with the conflict message; otherwise the record moves to the new name, which goes last; a failure changes nothing |
| Libraries.MapLibrary.Update | src/utils/MapLibrary.java:79-84 | a `null` record, then a missing name, fail and change nothing; otherwise only that name's record is replaced, in its place |
| Libraries.MapLibrary.GetAllNames | src/utils/MapLibrary.java:86-91 | the names are sorted, one per record, exactly those of the library |
| Players.StoryPlayerModel.constructor | src/model/SimpleStoryPlayerModel.java:25-28 | an empty library and no loaded game |
| Players.StoryPlayerModel.AddStory | src/model/SimpleStoryPlayerModel.java:30-34 | a `null` game fails with "Can't add null story!"; otherwise it is filed under `ValidName` of its name, so no game is replaced; the loaded game stays (also lines 102-115) |
| Players.StoryPlayerModel.RemoveStory | src/model/SimpleStoryPlayerModel.java:36-45 | a `null` or unknown alias fails and changes nothing; otherwise the alias leaves, and the loaded game is unloaded exactly when its own name equals the alias |
| Players.StoryPlayerModel.PlayStory | src/model/SimpleStoryPlayerModel.java:47-54 | the game under a known alias becomes the loaded one; an unknown alias fails and keeps the loaded game; the library is unchanged |
| Players.StoryPlayerModel.Next | src/model/SimpleStoryPlayerModel.java:56-63 | with nothing loaded fails with "No loaded story!"; otherwise the loaded game moves as the game's `next` does |
| Players.StoryPlayerModel.QuitStory | src/model/SimpleStoryPlayerModel.java:65-68 | nothing is loaded afterwards and the library is unchanged |
| Players.StoryPlayerModel.CurrentStoryName | src/model/SimpleStoryPlayerModel.java:70-77 | a name exactly when a game is loaded, and then the game's name |
| Players.StoryPlayerModel.CurrentChoice | src/model/SimpleStoryPlayerModel.java:79-86 | the loaded game's current choice as `toString` writes it, with the doubled commas for four or more options (`SimpleChoice.java:45-48`), exactly when a game is loaded |
| Players.StoryPlayerModel.AllStoryNames | src/model/SimpleStoryPlayerModel.java:88-93 | every alias once, sorted |
| Writers.StoryWriterModel.constructor | src/model/SimpleStoryWriterModel.java:26-30 | an empty work library and no loaded work |
| Writers.StoryWriterModel.Start | src/model/SimpleStoryWriterModel.java:32-35 | a new blank creator is filed under `ValidName` of the name; no work is replaced and the loaded work stays |
| Writers.StoryWriterModel.Remove | src/model/SimpleStoryWriterModel.java:37-43 | an unknown name fails with "No story "name" found" and changes nothing; otherwise the work leaves and is unloaded if it was the loaded one |
| Writers.StoryWriterModel.Rename | src/model/SimpleStoryWriterModel.java:45-51 | an unknown name or a taken or `null` new name fails and changes nothing; otherwise the work moves to the new name and the loaded name follows it |
| Writers.StoryWriterModel.Load | src/model/SimpleStoryWriterModel.java:53-57 | a known name becomes the loaded work; an unknown one fails and keeps the loaded work |
| Writers.StoryWriterModel.Quit | src/model/SimpleStoryWriterModel.java:59-62 | no work is loaded afterwards |
| Writers.StoryWriterModel.EnsureWorkLoaded | src/model/SimpleStoryWriterModel.java:197-203 | fails with "No loaded story!" when nothing is loaded, otherwise yields the loaded creator |
| Writers.StoryWriterModel.Create | src/model/SimpleStoryWriterModel.java:64-67 | without a loaded work fails with "No loaded story!"; otherwise the loaded creator's `create`: with no initial choice the game starts at a new end choice added to the heap, with a listed one it starts there and the heap is unchanged, and a stale index fails with `IndexOutOfBoundsException`; nothing but the heap changes and no other work changes |
| Writers.StoryWriterModel.SetStoryName | src/model/SimpleStoryWriterModel.java:69-72 | without a loaded work fails; otherwise the loaded draft moves as `Drafts.SetStoryName` says and no other work changes |
| Writers.StoryWriterModel.AddStatus | src/model/SimpleStoryWriterModel.java:74-78 | the loaded draft moves as `Drafts.AddStatusEntry` says |
| Writers.StoryWriterModel.RemoveStatus | src/model/SimpleStoryWriterModel.java:80-83 | the loaded draft moves as `Drafts.RemoveStatusEntry` says |
| Writers.StoryWriterModel.AddChoice | src/model/SimpleStoryWriterModel.java:85-88 | the loaded draft and the index are those of `Drafts.AddChoice` |
| Writers.StoryWriterModel.SetInitialChoice | src/model/SimpleStoryWriterModel.java:90-93 | the loaded draft moves as `Drafts.SetInitialChoice` says |
| Writers.StoryWriterModel.AddSimpleDecision | src/model/SimpleStoryWriterModel.java:95-99 | the loaded draft moves as `Drafts.AddSimple` says |
| Writers.StoryWriterModel.AddConsequentialDecision | src/model/SimpleStoryWriterModel.java:101-105 | the loaded draft moves as `Drafts.AddConsequential` says |
| Writers.StoryWriterModel.AddSimpleDependentThresholdDecision | src/model/SimpleStoryWriterModel.java:107-114 | the loaded draft moves as `Drafts.AddThreshold` says |
| Writers.StoryWriterModel.AddConsequentialThresholdDecision | src/model/SimpleStoryWriterModel.java:116-123 | the loaded draft moves as `Drafts.AddConsequentialThreshold` says |
| Writers.StoryWriterModel.RemoveDecision | src/model/SimpleStoryWriterModel.java:125-129 | the loaded draft moves as `Drafts.RemoveDecision` says |
| Writers.StoryWriterModel.RemoveChoice | src/model/SimpleStoryWriterModel.java:131-134 | the loaded draft moves as `Drafts.RemoveChoice` says |
| Writers.StoryWriterModel.StoryName | src/model/SimpleStoryWriterModel.java:136-143 | the loaded work's story name, or `null` with nothing loaded |
| Writers.StoryWriterModel.GetStatuses | src/model/SimpleStoryWriterModel.java:145-152 | a copy of the loaded work's statuses, or `null` |
| Writers.StoryWriterModel.Choices | src/model/SimpleStoryWriterModel.java:154-161 | the loaded work's choices, or `null` |
| Writers.StoryWriterModel.InitialChoice | src/model/SimpleStoryWriterModel.java:163-170 | the loaded work's initial index, or -1234567890 with nothing loaded |
| Writers.StoryWriterModel.Decisions | src/model/SimpleStoryWriterModel.java:172-179 | the loaded work's decisions, or `null` |
| Writers.StoryWriterModel.CurrentWorkName | src/model/SimpleStoryWriterModel.java:181-184 | the loaded name is always a name of the library |
| Writers.StoryWriterModel.AllWorkNames | src/model/SimpleStoryWriterModel.java:186-189 | every work name once, sorted |

## Left out

- File-system I/O is modelled as a map from path to contents. Opening and closing streams, the default export path and the platform path separator (`IOUtils.pathSeparator`, `getFilePath`) depend on the operating system and are not modelled.
- The Java `HashMap` iteration order is not reproduced. Effect maps, status tables and status blocks keep insertion order. This affects the order of exported status entries and the order in which a failing consequential decision applies its effects before it fails.
- The console controllers, command objects, text views, Spring REST layer and response objects are not modelled. They are input/output plumbing. `DecisionCreator.createDecisionResponse`, `readDeterminer` and `StatusUpdateCreator.createResponse` only build response objects, so they are left out too.
- The older-generation duplicates of the game and decision classes are not modelled: `src/model/game/SimpleStoryGame.java`, `src/model/game/decision/DependentDecision.java`, `src/model/game/decision/SimpleDecision.java`, `src/model/game/decision/OutcomeDeterminer.java` and `src/model/game/StatusUpdate.java`. They do not implement the current interfaces. The lambda-based determiners of the test data are also left out.
- When `addDecision` fails its index check, Java has already built a decision object, which is then dropped. Nobody can see that object, so the model builds nothing.
- A dependent decision's delegate can lead to a choice that is not one of the determiner's outcomes. It is modelled as the code has it. Such a choice need not appear in the `StoryNodes` listing, and exporting the story then fails with "Map doesn't contain outcome". Decisions built by the creator never do this (`Decisions.NewDependentSimple`, `Decisions.NewDependentConsequential`).
- `Drafts.RemoveChoice` leaves the stored initial index unadjusted, as the code does. The consequence is stated by `Drafts.RemoveChoiceMovesStart`. This is the code's documented behaviour, not a finding.
- Libraries.CreateValidName: the suffix counter is an unbounded integer. A Java `int` counter would wrap only after 2^31 colliding names.
- Libraries.SortNames: names are ordered by code point. Java's `String.compareTo` compares UTF-16 code units, and the two orders differ only for characters outside the Basic Multilingual Plane.
- Creator.StoryGameCreator.AddChoice: a Java list holds at most 2^31 - 1 elements, so its returned index cannot overflow there. The model's choice count is unbounded.
- `SimpleStoryPlayerModel.createValidName` (src/model/SimpleStoryPlayerModel.java:102-115) is the same procedure as `MapLibrary.createValidName`. It is modelled once, by `Libraries.CreateValidName`.
- The twostate frame lemmas of the player and writer models (`GamesKept`, `WorksKept`, `OthersKept` and the `...KeepsValid` lemmas) are proof helpers, and no row lists them.
- StoryRoundTrip.ExportReadsBack: stated for `Exported`, the text written with the intended ids `C<k>`. The exporter's own text (`ExportedAsWritten`) reads back the same way only while at most ten choices are listed (`StoryRoundTrip.AsWrittenReadsBack`). With more, choices 1 and 10 get the same id (`TextExport.AsWrittenCollides`).
- StoryRoundTrip.ReimportedStory: describes the story read back from `Exported`, with the intended ids. For the exporter's own text it holds under the same ten-choice bound, by `TextExport.AsWrittenUpToTen`.
- TextExport.ChoiceIdsOf: requires every option string to have at least two characters, where Java's `substring(0, 2)` would throw on a shorter one. Its only caller passes the strings of `StoryNodes`, which always have that length (`TextExport.OptionsLong`).
- Decisions.ExportDeterminer, Decisions.ExportDecision, Decisions.Resolve, Decisions.MakeDecision, Choices.Arena.Choose and Games.StoryGame.constructor: the `null` checks on their reference arguments are not modelled. These are "Choice representations can't be null" (`TwoThresholdDeterminer.java:59`), "Map can't be null" (`SimpleDecision.java:44`, `ConsequentialDecision.java:61`, `DependentDecision.java:76`), "Story can't be null!" (`SimpleDecision.java:38`, `ConsequentialDecision.java:45`, `DependentDecision.java:70`), and a null name, choice or status map in `SimpleStoryGame.java:33-36`. The parameters have non-null types, because every caller in the modelled core passes a non-null value. The exporter builds its id map itself, a game passes its own status map, and the creator and importer pass the name and choice they hold.
- IOUtils.NextInt: Java's `Scanner.hasNextInt` and `nextInt` use the default locale and also accept group separators, such as `1,000` in an English locale, and non-ASCII digits. The model reads only an optional sign followed by ASCII digits.
- IOUtils.GetNumId: `Integer.parseInt` also accepts non-ASCII Unicode decimal digits, such as the Arabic-Indic `٣`, through `Character.digit`. The model accepts ASCII digits only.
- JavaInt.ParseInt: models `Integer.parseInt` on ASCII digits only. Java also accepts every Unicode decimal digit that `Character.digit` knows, such as `٣`.
- Utils.StringNumberShape: states that accepted strings are an optional sign and ASCII decimal digits. Java's `isStringNumber` also accepts strings of non-ASCII Unicode digits, because it calls `Integer.parseInt`.

## Findings

| source | as written | input that shows it | evidently intended | confidence | as-written member | corrected member |
|---|---|---|---|---|---|---|
| src/model/game/SimpleChoice.java:45-48 | the middle loop appends "," after each middle option and the next step adds ", " again, so middle options are joined by ",," | a choice with four options `a`, `b`, `c`, `d` renders as `a(1), b(2),, c(3), or d(4)` | each option separated by a single ", " as with three options, `a(1), b(2), c(3), or d(4)` | not executed | Choices.AsWrittenDoublesCommas | Choices.RenderIsList |
| src/main/java/io/TextExporter.java:56-59 | a choice's id is the first two characters of its option string | a story with eleven listed choices: choices 1 and 10 both get id `C1`, so an outcome leading to choice 10 is written as `C1` and reads back as choice 1 | the id is the `C<i>` prefix up to the first space, so choice `i` is written `C<i>` | not executed | TextExport.AsWrittenCollides | TextExport.FileIdsAreChoiceIds |
