/** The choices of a story (`SimpleChoice`) and the heap they live in.

    A `SimpleChoice` keeps the very list object it is given, and decisions and games refer to
    choices and decisions by reference. The model keeps every choice's option list and every
    decision in one `Arena`; a `ChoiceId` or `DecisionId` is a position in it, so two references
    to the same Java object are the same number, and an append to a choice's list through one
    holder is seen by every other. */
module Choices {
  import opened Wrappers
  import opened JavaInt
  import opened Tables
  import opened Utils
  import opened Decisions

  /** A reference to a `Decision` object. */
  type DecisionId = nat

  const GAME_OVER := "Game over, no choices left."
  const NO_CHOICE_MESSAGE := "No choice "

  /** The heap's contents: the option list of every choice, and every decision. */
  datatype Graph = Graph(options: seq<seq<DecisionId>>, decisions: seq<Decision>)

  /** Every reference stored in the heap points to an object that exists. */
  predicate Closed(g: Graph) {
    && (forall c, k :: 0 <= c < |g.options| && 0 <= k < |g.options[c]| ==> g.options[c][k] < |g.decisions|)
    && (forall d :: 0 <= d < |g.decisions| ==> Points(g, g.decisions[d]))
  }

  /** Every choice the decision refers to exists in `g`. */
  predicate Points(g: Graph, d: Decision) {
    forall c :: c in ReferencedChoices(d) ==> c < |g.options|
  }

  /** The decision objects that choice `c` offers, in option order. */
  function OptionsOf(g: Graph, c: ChoiceId): (r: seq<Decision>)
    requires Closed(g) && c < |g.options|
    ensures |r| == |g.options[c]|
    ensures forall k :: 0 <= k < |r| ==> r[k] == g.decisions[g.options[c][k]]
  {
    OptionsFrom(g, g.options[c])
  }

  function OptionsFrom(g: Graph, ids: seq<DecisionId>): (r: seq<Decision>)
    requires forall k :: 0 <= k < |ids| ==> ids[k] < |g.decisions|
    ensures |r| == |ids|
    ensures forall k :: 0 <= k < |r| ==> r[k] == g.decisions[ids[k]]
  {
    if |ids| == 0 then [] else [g.decisions[ids[0]]] + OptionsFrom(g, ids[1..])
  }

  /** `formatChoice` after each description: the option's position counted from 1, in
      parentheses. */
  function Items(descriptions: seq<string>): (r: seq<string>)
    ensures |r| == |descriptions|
    ensures forall k :: 0 <= k < |r| ==> r[k] == descriptions[k] + "(" + ToString(k + 1) + ")"
  {
    if |descriptions| == 0 then []
    else Items(descriptions[..|descriptions| - 1])
         + [descriptions[|descriptions| - 1] + "(" + ToString(|descriptions|) + ")"]
  }

  /** The middle loop of `toString` as written, from item `i` on: every middle item is preceded
      by `", "` and also followed by `","`. */
  function MiddleAsWritten(items: seq<string>, i: nat): string
    requires 1 <= i <= |items|
    decreases |items| - i
  {
    if i >= |items| - 1 then ""
    else ", " + items[i] + "," + MiddleAsWritten(items, i + 1)
  }

  /** `toString` as written, on the formatted items. */
  function PhraseAsWritten(items: seq<string>): string {
    if |items| == 0 then GAME_OVER
    else items[0] + MiddleAsWritten(items, 1) + (if |items| > 1 then " or " + items[|items| - 1] else "")
  }

  function RenderAsWritten(descriptions: seq<string>): string {
    PhraseAsWritten(Items(descriptions))
  }

  /** The middle items, each preceded by `", "`. */
  function Middle(items: seq<string>, i: nat): string
    requires 1 <= i <= |items|
    decreases |items| - i
  {
    if i >= |items| - 1 then ""
    else ", " + items[i] + Middle(items, i + 1)
  }

  /** `toString` with the serial comma written once, before `or`: the rendering the engine's
      own tests expect, for up to three options in the choice tests and for four in the
      importer's test. */
  function Phrase(items: seq<string>): string {
    if |items| == 0 then GAME_OVER
    else
      items[0] + Middle(items, 1) + (if |items| > 2 then "," else "")
      + (if |items| > 1 then " or " + items[|items| - 1] else "")
  }

  function Render(descriptions: seq<string>): string {
    Phrase(Items(descriptions))
  }

  /** Items `i` up to `j` with `sep` between neighbours. */
  function Join(items: seq<string>, i: nat, j: nat, sep: string): string
    requires i < j <= |items|
    decreases j - i
  {
    if i == j - 1 then items[i] else items[i] + sep + Join(items, i + 1, j, sep)
  }

  lemma {:induction false} MiddleJoin(items: seq<string>, i: nat)
    requires 1 <= i < |items| - 1
    ensures items[i - 1] + Middle(items, i) == Join(items, i - 1, |items| - 1, ", ")
    decreases |items| - i
  {
    var rest := if i < |items| - 2 then Middle(items, i + 1) else "";
    if i < |items| - 2 {
      MiddleJoin(items, i + 1);
    }
    assert items[i] + rest == Join(items, i, |items| - 1, ", ");
    assert Middle(items, i) == ", " + items[i] + rest;
    assert items[i - 1] + (", " + items[i] + rest) == items[i - 1] + ", " + (items[i] + rest);
  }

  /** The corrected rendering is an English list: the items but the last joined by `", "`,
      then `", or "` and the last item. */
  lemma RenderIsList(items: seq<string>)
    requires |items| > 2
    ensures Phrase(items) == Join(items, 0, |items| - 1, ", ") + ", or " + items[|items| - 1]
  {
    var n := |items|;
    var head, last := items[0] + Middle(items, 1), items[n - 1];
    MiddleJoin(items, 1);
    assert Phrase(items) == head + "," + (" or " + last);
    SerialComma(head, last);
  }

  lemma SerialComma(head: string, last: string)
    ensures head + "," + (" or " + last) == head + ", or " + last
  {
    assert "," + " or " == ", or ";
    assert head + "," + (" or " + last) == head + ("," + " or ") + last;
  }

  /** Two items are joined by `" or "` alone, and a single item stands by itself. */
  lemma RenderShort(items: seq<string>)
    requires 1 <= |items| <= 2
    ensures |items| == 1 ==> Phrase(items) == items[0]
    ensures |items| == 2 ==> Phrase(items) == items[0] + " or " + items[1]
  {
    assert Middle(items, 1) == "";
  }

  /** The two renderings agree for up to three options, which are the cases the engine's
      choice tests check. */
  lemma AsWrittenUpToThree(items: seq<string>)
    requires |items| <= 3
    ensures PhraseAsWritten(items) == Phrase(items)
  {
    if |items| == 3 {
      assert MiddleAsWritten(items, 1) == ", " + items[1] + ",";
      assert Middle(items, 1) == ", " + items[1];
    }
  }

  /** The first positions as `formatChoice` prints them. */
  lemma SmallNumbers()
    ensures ToString(1) == "1" && ToString(2) == "2" && ToString(3) == "3" && ToString(4) == "4"
  {
    assert DigitChar(1) == '1' && DigitChar(2) == '2' && DigitChar(3) == '3' && DigitChar(4) == '4';
  }

  /** For four or more options the code as written is longer than the intended rendering by
      one comma for each middle option after the first, so the two always differ. */
  lemma AsWrittenDoublesCommas(items: seq<string>)
    requires |items| >= 4
    ensures |PhraseAsWritten(items)| == |Phrase(items)| + |items| - 3
    ensures PhraseAsWritten(items) != Phrase(items)
  {
    MiddleLengths(items, 1);
  }

  lemma {:induction false} MiddleLengths(items: seq<string>, i: nat)
    requires 1 <= i < |items|
    ensures |MiddleAsWritten(items, i)| == |Middle(items, i)| + |items| - 1 - i
    decreases |items| - i
  {
    if i < |items| - 1 {
      MiddleLengths(items, i + 1);
    }
  }

  /** The renderings the choice tests check, for any descriptions. */
  lemma RenderOneOption(descriptions: seq<string>)
    requires |descriptions| == 1
    ensures Render(descriptions) == descriptions[0] + "(1)"
  {
    SmallNumbers();
    RenderShort(Items(descriptions));
  }

  lemma RenderTwoOptions(descriptions: seq<string>)
    requires |descriptions| == 2
    ensures Render(descriptions) == descriptions[0] + "(1)" + " or " + descriptions[1] + "(2)"
  {
    SmallNumbers();
    RenderShort(Items(descriptions));
  }

  lemma RenderThreeOptions(descriptions: seq<string>)
    requires |descriptions| == 3
    ensures Render(descriptions) == descriptions[0] + "(1)" + ", " + descriptions[1] + "(2)" + ", or " + descriptions[2] + "(3)"
  {
    SmallNumbers();
    var items := Items(descriptions);
    RenderIsList(items);
    assert Join(items, 0, 2, ", ") == items[0] + ", " + items[1];
  }

  /** A choice's descriptions: each option's `toString`. */
  function Descriptions(g: Graph, c: ChoiceId): (r: seq<string>)
    requires Closed(g) && c < |g.options|
    ensures |r| == |g.options[c]|
    ensures forall k :: 0 <= k < |r| ==> r[k] == Description(g.decisions[g.options[c][k]])
  {
    DescriptionsOf(OptionsOf(g, c))
  }

  function DescriptionsOf(ds: seq<Decision>): (r: seq<string>)
    ensures |r| == |ds|
    ensures forall k :: 0 <= k < |r| ==> r[k] == Description(ds[k])
  {
    if |ds| == 0 then [] else [Description(ds[0])] + DescriptionsOf(ds[1..])
  }

  /** `choose(i, story)` on the statuses of the story: an index outside the options fails before
      any decision runs, and otherwise option `i` is made. */
  function Chosen(g: Graph, c: ChoiceId, i: int, statuses: Table<int32>): Resolution
    requires Closed(g) && c < |g.options|
  {
    if i < 0 || i > |g.options[c]| - 1 then
      Resolution(statuses, Failure(IllegalArgument(NO_CHOICE_MESSAGE + ToString(i))))
    else Resolve(g.decisions[g.options[c][i]], statuses)
  }

  /** An index outside `[0, options)` changes nothing and names the index; a valid one leads to
      one of the option's possible outcomes, which is a choice of the heap, or fails as the
      option's decision does. No status is ever added or removed. */
  lemma ChosenProperties(g: Graph, c: ChoiceId, i: int, statuses: Table<int32>)
    requires Closed(g) && c < |g.options|
    ensures !(0 <= i < |g.options[c]|) ==>
      Chosen(g, c, i, statuses) == Resolution(statuses, Failure(IllegalArgument("No choice " + ToString(i))))
    ensures 0 <= i < |g.options[c]| && Chosen(g, c, i, statuses).outcome.Success? ==>
      && Chosen(g, c, i, statuses).outcome.value in PossibleOutcomes(OptionsOf(g, c)[i])
      && Chosen(g, c, i, statuses).outcome.value < |g.options|
    ensures Chosen(g, c, i, statuses).statuses.keys == statuses.keys
  {
    if 0 <= i < |g.options[c]| {
      var d := g.decisions[g.options[c][i]];
      ResolveIsPossible(d, statuses);
      ResolveKeepsNames(d, statuses);
      assert Points(g, d);
      var r := Resolve(d, statuses);
      if r.outcome.Success? {
        assert r.outcome.value in ReferencedChoices(d);
      }
    }
  }

  /** The heap of one story. */
  class Arena {
    var graph: Graph

    ghost predicate Valid()
      reads this
    {
      Closed(graph)
    }

    constructor ()
      ensures Valid() && graph == Graph([], [])
    {
      graph := Graph([], []);
    }

    /** `new SimpleChoice(options)`: the nulls are removed, and the resulting list becomes the
        new choice's option list. */
    method NewChoice(options: Option<seq<Option<DecisionId>>>) returns (r: Result<ChoiceId>)
      requires Valid()
      requires options.Some? ==> forall k :: 0 <= k < |options.value| && options.value[k].Some? ==>
        options.value[k].value < |graph.decisions|
      modifies this
      ensures Valid()
      ensures options.None? ==> r == Failure(IllegalArgument(NULL_LIST_MESSAGE)) && graph == old(graph)
      ensures options.Some? ==>
        && r == Success(|old(graph.options)|)
        && graph == Graph(old(graph.options) + [Values(Compact(options.value))], old(graph.decisions))
    {
      if options.None? {
        return Failure(IllegalArgument(NULL_LIST_MESSAGE));
      }
      var kept := Compact(options.value);
      forall k | 0 <= k < |kept|
        ensures kept[k].value < |graph.decisions|
      {
        CompactCounts(options.value, kept[k].value);
        assert kept[k] in multiset(kept);
      }
      var ids := Values(kept);
      r := Success(|graph.options|);
      graph := Graph(graph.options + [ids], graph.decisions);
    }

    /** `endChoice()`: a new choice without options, distinct from every existing one. */
    method EndChoice() returns (c: ChoiceId)
      requires Valid()
      modifies this
      ensures Valid()
      ensures c == |old(graph.options)| && graph == Graph(old(graph.options) + [[]], old(graph.decisions))
    {
      var r := NewChoice(Some([]));
      c := r.value;
    }

    /** Creating a decision object. */
    method NewDecision(d: Decision) returns (id: DecisionId)
      requires Valid() && Points(graph, d)
      modifies this
      ensures Valid()
      ensures id == |old(graph.decisions)| && graph == Graph(old(graph.options), old(graph.decisions) + [d])
    {
      id := |graph.decisions|;
      graph := Graph(graph.options, graph.decisions + [d]);
    }

    /** `list.add(decision)` on the list a choice holds: the choice gains the option. */
    method AppendOption(c: ChoiceId, d: DecisionId)
      requires Valid() && c < |graph.options| && d < |graph.decisions|
      modifies this
      ensures Valid()
      ensures graph == Graph(old(graph.options)[c := old(graph.options)[c] + [d]], old(graph.decisions))
    {
      graph := Graph(graph.options[c := graph.options[c] + [d]], graph.decisions);
    }

    /** `list.remove(k)` on the list a choice holds. */
    method RemoveOption(c: ChoiceId, k: nat)
      requires Valid() && c < |graph.options| && k < |graph.options[c]|
      modifies this
      ensures Valid()
      ensures graph == Graph(old(graph.options)[c := old(graph.options)[c][..k] + old(graph.options)[c][k + 1..]],
                             old(graph.decisions))
    {
      var opts := graph.options[c];
      var shorter := opts[..k] + opts[k + 1..];
      assert forall m :: 0 <= m < |shorter| ==> shorter[m] in opts;
      graph := Graph(graph.options[c := shorter], graph.decisions);
    }

    /** `choose(i, story)`: the chosen decision is made on the story's live statuses. */
    method Choose(c: ChoiceId, i: int, statuses: StatusTable) returns (r: Result<ChoiceId>)
      requires Valid() && c < |graph.options|
      modifies statuses
      ensures statuses.table == Chosen(graph, c, i, old(statuses.table)).statuses
      ensures r == Chosen(graph, c, i, old(statuses.table)).outcome
    {
      if i < 0 || i > |graph.options[c]| - 1 {
        return Failure(IllegalArgument(NO_CHOICE_MESSAGE + ToString(i)));
      }
      r := MakeDecision(graph.decisions[graph.options[c][i]], statuses);
    }
  }
}
