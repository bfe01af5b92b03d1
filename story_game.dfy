/** A game being played (`SimpleStoryGame`): the history of the choices reached, whose last
    element is the current choice, the live statuses that decisions change in place, and the
    statuses the game started with. */
module Games {
  import opened Wrappers
  import opened JavaInt
  import opened Tables
  import opened Decisions
  import opened Choices

  /** The part of a game that `next` changes. */
  datatype Play = Play(history: seq<ChoiceId>, statuses: Table<int32>)

  /** A game's play and what `next` returned. */
  datatype Step = Step(after: Play, result: Result<bool>)

  /** The history is never empty and only names choices of the heap. */
  predicate Playable(g: Graph, p: Play) {
    Closed(g) && |p.history| > 0 && forall k :: 0 <= k < |p.history| ==> p.history[k] < |g.options|
  }

  /** The current choice: the last one reached. */
  function Current(p: Play): ChoiceId
    requires |p.history| > 0
  {
    p.history[|p.history| - 1]
  }

  /** `next(i)`. A game made by the copy constructor holds its history in an unmodifiable list
      (`fixed`), so a successful choice there ends in `UnsupportedOperationException`, after the
      decision has changed the statuses. */
  function NextStep(g: Graph, p: Play, i: int, fixed: bool): Step
    requires Playable(g, p)
  {
    var c := Current(p);
    if |g.options[c]| == 0 then Step(p, Success(false))
    else
      var r := Chosen(g, c, i, p.statuses);
      if r.outcome.Failure? then Step(Play(p.history, r.statuses), Failure(r.outcome.error))
      else if fixed then Step(Play(p.history, r.statuses), Failure(UnsupportedOperation))
      else Step(Play(p.history + [r.outcome.value], r.statuses), Success(true))
  }

  /** At a choice without options `next` returns false and changes nothing. */
  lemma NextAtEnd(g: Graph, p: Play, i: int, fixed: bool)
    requires Playable(g, p) && |g.options[Current(p)]| == 0
    ensures NextStep(g, p, i, fixed) == Step(p, Success(false))
  {
  }

  /** An index outside the options fails before any decision runs: nothing changes. */
  lemma NextBadIndex(g: Graph, p: Play, i: int, fixed: bool)
    requires Playable(g, p) && |g.options[Current(p)]| > 0 && !(0 <= i < |g.options[Current(p)]|)
    ensures NextStep(g, p, i, fixed) == Step(p, Failure(IllegalArgument("No choice " + ToString(i))))
  {
    ChosenProperties(g, Current(p), i, p.statuses);
  }

  /** `next` keeps the game playable and its status names, and the history only ever grows by
      one possible outcome of the chosen option, which becomes the current choice. */
  lemma NextPushes(g: Graph, p: Play, i: int, fixed: bool)
    requires Playable(g, p)
    ensures var s := NextStep(g, p, i, fixed);
      && Playable(g, s.after)
      && s.after.statuses.keys == p.statuses.keys
      && (s.result == Success(true) ==>
           && 0 <= i < |g.options[Current(p)]|
           && s.after.history == p.history + [Current(s.after)]
           && Current(s.after) in PossibleOutcomes(OptionsOf(g, Current(p))[i]))
      && (s.result != Success(true) ==> s.after.history == p.history)
      && (fixed ==> s.after.history == p.history)
  {
    var c := Current(p);
    if |g.options[c]| > 0 {
      ChosenProperties(g, c, i, p.statuses);
    }
  }

  /** After a choice that succeeds, the statuses are those the decision left. */
  lemma NextStatuses(g: Graph, p: Play, i: int, fixed: bool)
    requires Playable(g, p) && 0 <= i < |g.options[Current(p)]|
    ensures NextStep(g, p, i, fixed).after.statuses == Resolve(OptionsOf(g, Current(p))[i], p.statuses).statuses
  {
  }

  class StoryGame {
    const name: string
    const arena: Arena
    /** `choices`: every choice reached, the current one last. */
    var history: seq<ChoiceId>
    /** Whether `choices` is the unmodifiable list of the copy constructor. */
    const fixed: bool
    const originalStatuses: Table<int32>
    /** `getStatuses()` hands out this very object. */
    const statuses: StatusTable

    ghost predicate Valid()
      reads this, arena, statuses
    {
      arena.Valid() && Playable(arena.graph, Play(history, statuses.table)) && (fixed ==> |history| == 1)
    }

    /** `new SimpleStoryGame(name, choice, statuses)`: both status maps are fresh copies of the
        entries whose value is not `null`. */
    constructor (name: string, arena: Arena, choice: ChoiceId, statuses: Table<Option<int32>>)
      requires arena.Valid() && choice < |arena.graph.options|
      ensures Valid() && fresh(this.statuses)
      ensures this.name == name && this.arena == arena && history == [choice] && !fixed
      ensures originalStatuses == DropNulls(statuses) && this.statuses.table == DropNulls(statuses)
    {
      this.name := name;
      this.arena := arena;
      history := [choice];
      fixed := false;
      originalStatuses := DropNulls(statuses);
      this.statuses := new StatusTable(DropNulls(statuses));
    }

    /** `new SimpleStoryGame(story)`: the copy starts at the story's current choice, with a copy
        of its current statuses, and remembers the story's original statuses. */
    constructor Copy(story: StoryGame)
      requires story.Valid()
      ensures Valid() && fresh(statuses)
      ensures name == story.name && arena == story.arena && fixed
      ensures history == [story.history[|story.history| - 1]]
      ensures originalStatuses == story.originalStatuses && statuses.table == story.statuses.table
    {
      var original, current := DropNulls(Lift(story.originalStatuses)), DropNulls(Lift(story.statuses.table));
      DropNullsOfLift(story.originalStatuses);
      DropNullsOfLift(story.statuses.table);
      name := story.name;
      arena := story.arena;
      history := [story.history[|story.history| - 1]];
      fixed := true;
      originalStatuses := original;
      statuses := new StatusTable(current);
    }

    /** `getCurrentChoice()`. */
    function CurrentChoice(): ChoiceId
      reads this
      requires |history| > 0
    {
      history[|history| - 1]
    }

    /** `next(i)`. */
    method Next(i: int) returns (r: Result<bool>)
      requires Valid()
      modifies this, statuses
      ensures Valid()
      ensures var s := NextStep(arena.graph, Play(old(history), old(statuses.table)), i, fixed);
        history == s.after.history && statuses.table == s.after.statuses && r == s.result
    {
      var c := history[|history| - 1];
      if |arena.graph.options[c]| == 0 {
        return Success(false);
      }
      NextPushes(arena.graph, Play(history, statuses.table), i, fixed);
      var chosen := arena.Choose(c, i, statuses);
      // a fixed history refuses the push after the decision has run
      var pushed := chosen.Success? && !fixed;
      r := if chosen.Failure? then Failure(chosen.error) else if fixed then Failure(UnsupportedOperation) else Success(true);
      history := if pushed then history + [chosen.value] else history;
    }

    /** `getOriginalStory()`: a new game at the first choice reached, with the original
        statuses; this game is left as it is. */
    method OriginalStory() returns (g: StoryGame)
      requires Valid()
      ensures fresh(g) && fresh(g.statuses) && g.Valid()
      ensures g.name == name && g.arena == arena && g.history == [history[0]] && !g.fixed
      ensures g.originalStatuses == originalStatuses && g.statuses.table == originalStatuses
    {
      DropNullsOfLift(originalStatuses);
      g := new StoryGame(name, arena, history[0], Lift(originalStatuses));
    }
  }
}
