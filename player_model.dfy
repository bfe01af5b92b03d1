/** `model.SimpleStoryPlayerModel`: a library of games filed under aliases that are unique in
    it, and the game being played, if any. The library holds the games themselves, so a game
    that is quit keeps its progress and is resumed when it is played again. */
module Players {
  import opened Wrappers
  import opened Tables
  import opened Utils
  import opened Choices
  import opened Games
  import opened Libraries

  const NULL_STORY := "Can't add null story!"
  const NO_LOADED_STORY := "No loaded story!"

  function NoStoryToRemove(name: Option<string>): string {
    "No story \"" + Shown(name) + "\" to remove"
  }

  function NoStoryToLoad(name: Option<string>): string {
    "No story \"" + Shown(name) + "\" to load"
  }

  class StoryPlayerModel {
    /** `storyLibrary`, in insertion order. */
    var library: Table<StoryGame>
    /** `currentStory`; `null` when no game is loaded. */
    var current: StoryGame?

    /** The games of the library and the loaded one, with the objects they are made of. */
    ghost function Repr(): set<object>
      reads this
    {
      (set k | k in library.values :: library.values[k] as object)
      + (set k | k in library.values :: library.values[k].arena as object)
      + (set k | k in library.values :: library.values[k].statuses as object)
      + (if current != null then {current as object, current.arena, current.statuses} else {})
    }

    ghost predicate Valid()
      reads this, Repr()
    {
      && (forall k :: k in library.values ==> library.values[k].Valid())
      && (current != null ==> current.Valid())
    }

    /** Only the model changed, so every game it held is still sound. */
    twostate lemma GamesKept()
      requires old(Valid())
      requires forall o: object :: old(allocated(o)) && o != this ==> Kept(o)
      ensures forall k :: k in old(library).values ==> old(library).values[k].Valid()
      ensures old(current) != null ==> old(current).Valid()
    {
      forall k | k in old(library).values
        ensures old(library).values[k].Valid()
      {
        var g := old(library).values[k];
        assert Kept(g) && Kept(g.arena) && Kept(g.statuses);
      }
      if old(current) != null {
        var g := old(current);
        assert Kept(g) && Kept(g.arena) && Kept(g.statuses);
      }
    }

    /** `new SimpleStoryPlayerModel()`: an empty library and nothing loaded. */
    constructor ()
      ensures Valid() && library == Empty() && current == null
    {
      library := Empty();
      current := null;
    }

    /** `addStory(story)`: the game is filed under a fresh alias made from its name, and no
        game already in the library is replaced; a `null` game fails. */
    method AddStory(story: StoryGame?) returns (r: Outcome)
      requires Valid() && (story != null ==> story.Valid())
      modifies this
      ensures Valid() && current == old(current)
      ensures story == null ==> r == Fail(IllegalArgument(NULL_STORY)) && library == old(library)
      ensures story != null ==>
        r == Pass && library == Put(old(library), ValidName(old(library).values.Keys, Some(story.name)), story)
    {
      if story == null {
        return Fail(IllegalArgument(NULL_STORY));
      }
      var alias := CreateValidName(library, Some(story.name));
      library := Put(library, alias, story);
      GamesKept();
      r := Pass;
    }

    /** `removeStory(name)`: a `null` or unknown alias fails and changes nothing; otherwise the
        alias goes, and the loaded game is unloaded when its own name, not its alias, is the
        one removed. */
    method RemoveStory(name: Option<string>) returns (r: Outcome)
      requires Valid()
      modifies this
      ensures Valid()
      ensures !(name.Some? && name.value in old(library).values) ==>
        r == Fail(IllegalArgument(NoStoryToRemove(name))) && library == old(library) && current == old(current)
      ensures name.Some? && name.value in old(library).values ==>
        && r == Pass && library == Remove(old(library), name.value)
        && current == (if old(current) != null && old(current).name == name.value then null else old(current))
    {
      if name.None? || name.value !in library.values {
        return Fail(IllegalArgument(NoStoryToRemove(name)));
      }
      if current != null && current.name == name.value {
        current := null;
      }
      library := Remove(library, name.value);
      GamesKept();
      r := Pass;
    }

    /** `playStory(name)`: the game filed under the alias becomes the loaded one; an unknown
        alias fails and keeps the game that was loaded. */
    method PlayStory(name: Option<string>) returns (r: Outcome)
      requires Valid()
      modifies this
      ensures Valid() && library == old(library)
      ensures name.Some? && name.value in library.values ==> r == Pass && current == library.values[name.value]
      ensures !(name.Some? && name.value in library.values) ==>
        r == Fail(IllegalArgument(NoStoryToLoad(name))) && current == old(current)
    {
      if name.Some? && name.value in library.values {
        current := library.values[name.value];
        GamesKept();
        r := Pass;
      } else {
        r := Fail(IllegalArgument(NoStoryToLoad(name)));
      }
    }

    /** `next(decision)`: the loaded game takes the step; with nothing loaded it fails. */
    method Next(decision: int) returns (r: Result<bool>)
      requires Valid()
      modifies if current != null then {current as object, current.statuses} else {}
      ensures Valid()
      ensures current == null ==> r == Failure(IllegalState(NO_LOADED_STORY))
      ensures current != null ==>
        var s := NextStep(current.arena.graph, Play(old(current.history), old(current.statuses.table)), decision, current.fixed);
        current.history == s.after.history && current.statuses.table == s.after.statuses && r == s.result
    {
      if current == null {
        return Failure(IllegalState(NO_LOADED_STORY));
      }
      r := current.Next(decision);
    }

    /** `quitStory()`: only the reference to the loaded game is cleared. */
    method QuitStory()
      modifies this
      ensures current == null && library == old(library)
    {
      current := null;
    }

    /** `getCurrentStoryName()`: `null` when nothing is loaded. */
    function CurrentStoryName(): (r: Option<string>)
      reads this
      ensures r.Some? <==> current != null
      ensures r.Some? ==> r.value == current.name
    {
      if current != null then Some(current.name) else None
    }

    /** `getCurrentChoice()`: the loaded game's current choice as `toString` writes it, doubled
        commas included, or `null` when nothing is loaded. */
    function CurrentChoice(): (r: Option<string>)
      requires Valid()
      reads this, Repr()
      ensures r.Some? <==> current != null
      ensures r.Some? ==>
        r.value == RenderAsWritten(Descriptions(current.arena.graph, current.history[|current.history| - 1]))
    {
      if current != null then Some(RenderAsWritten(Descriptions(current.arena.graph, current.CurrentChoice()))) else None
    }

    /** `getAllStoryNames()`: every alias once, ascending. */
    function AllStoryNames(): (r: seq<string>)
      reads this
      ensures Sorted(r)
      ensures forall y :: y in r <==> y in library.values
    {
      SortNames(library.keys)
    }
  }
}
