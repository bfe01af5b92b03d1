/** `StoryNodes`: every choice and decision reachable from a game's current choice, numbered in
    the order a breadth-first walk discovers them. Choices and decisions are told apart by
    identity, which the arena handles make plain equality. */
module Nodes {
  import opened JavaInt
  import opened Decisions
  import opened Choices
  import opened Games
  import opened Handles

  /** The outcomes not yet seen, in order and with repetitions, as the walk queues them. */
  function Unseen(outcomes: seq<ChoiceId>, seen: seq<ChoiceId>): (r: seq<ChoiceId>)
    ensures forall c :: c in r <==> c in outcomes && c !in seen
  {
    if |outcomes| == 0 then []
    else
      var last := outcomes[|outcomes| - 1];
      assert outcomes == outcomes[..|outcomes| - 1] + [last];
      Unseen(outcomes[..|outcomes| - 1], seen) + (if last in seen then [] else [last])
  }

  /** What the option loop records for a new choice: the decisions seen so far and the
      D-number of each of the choice's options. */
  datatype Recorded = Recorded(decisions: seq<DecisionId>, ids: seq<nat>)

  /** The numbering half of the option loop: an unseen decision is appended, and each option is
      labelled with its decision's position. */
  function Record(decs: seq<DecisionId>, opts: seq<DecisionId>): (r: Recorded)
    ensures |r.ids| == |opts| && decs <= r.decisions
    ensures forall x :: x in r.decisions ==> x in decs || x in opts
  {
    if |opts| == 0 then Recorded(decs, [])
    else
      var v := Record(decs, opts[..|opts| - 1]);
      var d := opts[|opts| - 1];
      var ds := if d in v.decisions then v.decisions else v.decisions + [d];
      Recorded(ds, v.ids + [IndexOf(ds, d)])
  }

  /** The recorded decisions stay distinct. */
  lemma {:induction false} RecordUnique(decs: seq<DecisionId>, opts: seq<DecisionId>)
    requires Unique(decs)
    ensures Unique(Record(decs, opts).decisions)
    decreases |opts|
  {
    if |opts| > 0 {
      var v := Record(decs, opts[..|opts| - 1]);
      RecordUnique(decs, opts[..|opts| - 1]);
      var d := opts[|opts| - 1];
      if d !in v.decisions {
        UniqueAppend(v.decisions, d);
      }
    }
  }

  /** `ids[k]` is the position of `opts[k]` in `decisions`. */
  predicate Numbered(decisions: seq<DecisionId>, ids: seq<nat>, opts: seq<DecisionId>) {
    |ids| == |opts| && forall k :: 0 <= k < |ids| ==> ids[k] < |decisions| && decisions[ids[k]] == opts[k]
  }

  lemma NumberedStep(decisions: seq<DecisionId>, ids: seq<nat>, front: seq<DecisionId>, more: seq<DecisionId>, d: DecisionId)
    requires Numbered(decisions, ids, front) && decisions <= more && d in more
    ensures Numbered(more, ids + [IndexOf(more, d)], front + [d])
  {
  }

  /** Every option gets the D-number of its own decision. */
  lemma {:induction false} RecordNumbered(decs: seq<DecisionId>, opts: seq<DecisionId>)
    ensures Numbered(Record(decs, opts).decisions, Record(decs, opts).ids, opts)
    decreases |opts|
  {
    if |opts| > 0 {
      var front := opts[..|opts| - 1];
      RecordNumbered(decs, front);
      var v := Record(decs, front);
      var r := Record(decs, opts);
      NumberedStep(v.decisions, v.ids, front, r.decisions, opts[|opts| - 1]);
      assert front + [opts[|opts| - 1]] == opts;
    }
  }

  lemma RecordBelow(decs: seq<DecisionId>, opts: seq<DecisionId>, n: nat)
    requires Below(decs, n) && Below(opts, n)
    ensures Below(Record(decs, opts).decisions, n)
  {
    BelowOfMembers(Record(decs, opts).decisions, n);
  }

  /** The queueing half of the option loop: the unseen possible outcomes of every option, in
      order. */
  function Queued(g: Graph, seen: seq<ChoiceId>, opts: seq<DecisionId>): (r: seq<ChoiceId>)
    requires Below(opts, |g.decisions|)
    ensures forall c :: c in r ==> c !in seen
    ensures forall x, o :: x in opts && x < |g.decisions| && o in PossibleOutcomes(g.decisions[x]) ==> o in seen || o in r
  {
    if |opts| == 0 then []
    else
      var front := opts[..|opts| - 1];
      var d := opts[|opts| - 1];
      assert opts == front + [d];
      Queued(g, seen, front) + Unseen(PossibleOutcomes(g.decisions[d]), seen)
  }

  /** In a closed heap only choices of the heap are queued. */
  lemma {:induction false} QueuedBelow(g: Graph, seen: seq<ChoiceId>, opts: seq<DecisionId>)
    requires Closed(g) && Below(opts, |g.decisions|)
    ensures Below(Queued(g, seen, opts), |g.options|)
    decreases |opts|
  {
    if |opts| > 0 {
      var front := opts[..|opts| - 1];
      var d := opts[|opts| - 1];
      QueuedBelow(g, seen, front);
      OutcomesBelow(g, d);
      var unseen := Unseen(PossibleOutcomes(g.decisions[d]), seen);
      BelowOfMembers(unseen, |g.options|);
      BelowConcat(Queued(g, seen, front), unseen, |g.options|);
    }
  }

  /** The possible outcomes of a decision of a closed heap are choices of it. */
  lemma OutcomesBelow(g: Graph, d: DecisionId)
    requires Closed(g) && d < |g.decisions|
    ensures forall c :: c in PossibleOutcomes(g.decisions[d]) ==> c < |g.options|
  {
    assert Points(g, g.decisions[d]);
    forall c | c in PossibleOutcomes(g.decisions[d])
      ensures c < |g.options|
    {
      assert c in ReferencedChoices(g.decisions[d]);
    }
  }

  /** What the walk has recorded: `choiceOrder`, `seenDecisions`, and for each seen choice the
      D-numbers of its options (the lists of `seenChoices`, as numbers). */
  datatype Walk = Walk(order: seq<ChoiceId>, decisions: seq<DecisionId>, ids: map<ChoiceId, seq<nat>>)

  /** The queue only names choices of the heap, and the recorded choices are distinct ones. */
  predicate Fits(g: Graph, queue: seq<ChoiceId>, w: Walk) {
    && Closed(g) && Below(queue, |g.options|)
    && Unique(w.order) && Below(w.order, |g.options|) && Below(w.decisions, |g.decisions|)
  }

  /** The walk after dequeuing the new choice `c`: it is recorded, its options numbered, and
      its unseen outcomes queued behind `rest`. */
  function VisitNew(g: Graph, c: ChoiceId, rest: seq<ChoiceId>, w: Walk): (r: (seq<ChoiceId>, Walk))
    requires Fits(g, [c] + rest, w) && c !in w.order
    ensures Fits(g, r.0, r.1) && |r.1.order| == |w.order| + 1
  {
    assert ([c] + rest)[0] == c;
    var order := w.order + [c];
    assert Below(g.options[c], |g.decisions|);
    var v := Record(w.decisions, g.options[c]);
    var added := Queued(g, order, g.options[c]);
    RecordBelow(w.decisions, g.options[c], |g.decisions|);
    QueuedBelow(g, order, g.options[c]);
    BelowTail(c, rest, |g.options|);
    BelowConcat(rest, added, |g.options|);
    BelowConcat(w.order, [c], |g.options|);
    UniqueAppend(w.order, c);
    (rest + added, Walk(order, v.decisions, w.ids[c := v.ids]))
  }

  /** The walk as one first-in first-out queue: the level-by-level loop of `createNodes` works
      through the current level and appends the next one behind it, which is this queue. A choice
      already seen is skipped when dequeued. */
  function Explore(g: Graph, queue: seq<ChoiceId>, w: Walk): Walk
    requires Fits(g, queue, w)
    decreases |g.options| - |w.order|, |queue|
  {
    if |queue| == 0 then w
    else
      var c := queue[0];
      assert queue == [c] + queue[1..];
      BelowTail(c, queue[1..], |g.options|);
      if c in w.order then Explore(g, queue[1..], w)
      else
        var next := VisitNew(g, c, queue[1..], w);
        Pigeonhole(next.1.order, |g.options|);
        Explore(g, next.0, next.1)
  }

  /** The walk from the current choice. */
  function WalkFrom(g: Graph, start: ChoiceId): Walk
    requires Closed(g) && start < |g.options|
  {
    Explore(g, [start], Walk([], [], map[]))
  }

  /** `ids` are the D-numbers of choice `c`'s options: position `k` names option `k`. */
  predicate Labels(g: Graph, c: ChoiceId, decs: seq<DecisionId>, ids: seq<nat>) {
    c < |g.options| && Numbered(decs, ids, g.options[c])
  }

  /** Every possible outcome of a listed decision is in `order` or in `queue`. */
  predicate Covered(g: Graph, decs: seq<DecisionId>, order: seq<ChoiceId>, queue: seq<ChoiceId>) {
    forall x, o :: x in decs && x < |g.decisions| && o in PossibleOutcomes(g.decisions[x]) ==> o in order || o in queue
  }

  /** What holds of the walk at every step: distinct decisions, a D-number list for exactly the
      seen choices, and every possible outcome of a seen decision either seen or still queued. */
  ghost predicate Indexed(g: Graph, queue: seq<ChoiceId>, w: Walk) {
    && Fits(g, queue, w)
    && Unique(w.decisions)
    && (forall c :: c in w.ids <==> c in w.order)
    && (forall c :: c in w.ids ==> Labels(g, c, w.decisions, w.ids[c]))
    && Covered(g, w.decisions, w.order, queue)
  }

  lemma LabelsGrow(g: Graph, c: ChoiceId, decs: seq<DecisionId>, more: seq<DecisionId>, ids: seq<nat>)
    requires Labels(g, c, decs, ids) && decs <= more
    ensures Labels(g, c, more, ids)
  {
  }

  /** Dequeuing a choice already seen keeps the invariant. */
  lemma SkipKeepsIndexed(g: Graph, queue: seq<ChoiceId>, w: Walk)
    requires Indexed(g, queue, w) && |queue| > 0 && queue[0] in w.order
    ensures Indexed(g, queue[1..], w)
  {
    assert queue == [queue[0]] + queue[1..];
    BelowTail(queue[0], queue[1..], |g.options|);
  }

  /** Visiting a new choice keeps the invariant. */
  lemma VisitKeepsIndexed(g: Graph, c: ChoiceId, rest: seq<ChoiceId>, w: Walk)
    requires Indexed(g, [c] + rest, w) && c !in w.order
    ensures Indexed(g, VisitNew(g, c, rest, w).0, VisitNew(g, c, rest, w).1)
  {
    var next := VisitNew(g, c, rest, w);
    assert ([c] + rest)[0] == c;
    var opts := g.options[c];
    var order := w.order + [c];
    var r := Record(w.decisions, opts);
    var added := Queued(g, order, opts);
    assert next == (rest + added, Walk(order, r.decisions, w.ids[c := r.ids]));
    RecordUnique(w.decisions, opts);
    RecordNumbered(w.decisions, opts);
    VisitLabels(g, c, w, r, w.ids[c := r.ids]);
    VisitClosure(g, c, rest, w, r.decisions, opts, added);
  }

  lemma VisitLabels(g: Graph, c: ChoiceId, w: Walk, r: Recorded, ids: map<ChoiceId, seq<nat>>)
    requires ids == w.ids[c := r.ids]
    requires c < |g.options| && w.decisions <= r.decisions
    requires forall x :: x in w.ids ==> Labels(g, x, w.decisions, w.ids[x])
    requires Numbered(r.decisions, r.ids, g.options[c])
    ensures forall x :: x in ids ==> Labels(g, x, r.decisions, ids[x])
  {
    forall x | x in ids
      ensures Labels(g, x, r.decisions, ids[x])
    {
      if x != c {
        LabelsGrow(g, x, w.decisions, r.decisions, w.ids[x]);
      }
    }
  }

  lemma VisitClosure(g: Graph, c: ChoiceId, rest: seq<ChoiceId>, w: Walk, decisions: seq<DecisionId>,
                     opts: seq<DecisionId>, added: seq<ChoiceId>)
    requires forall x :: x in decisions ==> x in w.decisions || x in opts
    requires Covered(g, w.decisions, w.order, [c] + rest)
    requires forall x, o :: x in opts && x < |g.decisions| && o in PossibleOutcomes(g.decisions[x]) ==> o in w.order + [c] || o in added
    ensures Covered(g, decisions, w.order + [c], rest + added)
  {
    forall x, o | x in decisions && x < |g.decisions| && o in PossibleOutcomes(g.decisions[x])
      ensures o in w.order + [c] || o in rest + added
    {
      if x in w.decisions {
        assert o in w.order || o in [c] + rest;
      }
    }
  }

  /** The walk ends with nothing queued, and with its first new choice where the queue started. */
  lemma {:induction false} ExploreIndexed(g: Graph, queue: seq<ChoiceId>, w: Walk)
    requires Indexed(g, queue, w)
    ensures Indexed(g, [], Explore(g, queue, w))
    ensures w.order <= Explore(g, queue, w).order
    ensures |queue| > 0 && queue[0] !in w.order ==>
      |Explore(g, queue, w).order| > |w.order| && Explore(g, queue, w).order[|w.order|] == queue[0]
    decreases |g.options| - |w.order|, |queue|
  {
    if |queue| > 0 {
      var c := queue[0];
      assert queue == [c] + queue[1..];
      if c in w.order {
        SkipKeepsIndexed(g, queue, w);
        ExploreSkip(g, c, queue[1..], w);
        ExploreIndexed(g, queue[1..], w);
      } else {
        var next := VisitNew(g, c, queue[1..], w);
        Pigeonhole(next.1.order, |g.options|);
        VisitKeepsIndexed(g, c, queue[1..], w);
        ExploreVisit(g, c, queue[1..], w);
        ExploreIndexed(g, next.0, next.1);
        var e := Explore(g, queue, w);
        assert next.1.order == w.order + [c];
        assert w.order + [c] <= e.order;
        assert e.order[|w.order|] == (w.order + [c])[|w.order|];
      }
    }
  }

  /** The walk from the current choice lists it first, lists every choice and decision once,
      gives every listed choice the D-numbers of its options, and is closed: every possible
      outcome of every listed decision is a listed choice. */
  lemma WalkFromProperties(g: Graph, start: ChoiceId)
    requires Closed(g) && start < |g.options|
    ensures var w := WalkFrom(g, start);
      && |w.order| > 0 && w.order[0] == start
      && Unique(w.order) && Below(w.order, |g.options|)
      && Unique(w.decisions) && Below(w.decisions, |g.decisions|)
      && (forall c :: c in w.ids <==> c in w.order)
      && (forall c :: c in w.ids ==> Labels(g, c, w.decisions, w.ids[c]))
      && Covered(g, w.decisions, w.order, [])
  {
    ExploreIndexed(g, [start], Walk([], [], map[]));
  }

  /** The options part of `choiceOptions`, from the options' D-numbers: `D<j> ` for each. */
  function Labelled(ids: seq<nat>): string {
    if |ids| == 0 then ""
    else Labelled(ids[..|ids| - 1]) + Label(ids[|ids| - 1])
  }

  lemma LabelledStep(ids: seq<nat>, m: nat)
    requires m < |ids|
    ensures Labelled(ids[..m + 1]) == Labelled(ids[..m]) + Label(ids[m])
  {
    assert ids[..m + 1][..m] == ids[..m];
  }

  /** A decision's entry in an option string. */
  function Label(id: nat): string {
    "D" + ToString(id) + " "
  }

  /** A choice's entry in `choiceOptions`: `C<i> [ D<j> … ]`. */
  function OptionString(index: nat, ids: seq<nat>): string {
    "C" + ToString(index) + " [ " + Labelled(ids) + "]"
  }

  /** The nodes of a story: its choices in walk order, each choice's option string, and its
      decisions in order of discovery. */
  datatype StoryNodes = StoryNodes(choices: seq<ChoiceId>, choiceOptions: map<ChoiceId, string>, decisions: seq<DecisionId>)

  /** The private constructor: each choice's option string carries its position in the order. */
  function Assembled(w: Walk): StoryNodes {
    StoryNodes(w.order, map c | c in w.order && c in w.ids :: OptionString(IndexOf(w.order, c), w.ids[c]), w.decisions)
  }

  /** `createNodes(story)` in full. */
  function NodesOf(g: Graph, start: ChoiceId): StoryNodes
    requires Closed(g) && start < |g.options|
  {
    Assembled(WalkFrom(g, start))
  }

  /** Choice `k` of the nodes has the option string `C<k> [ … ]` with the D-numbers of its options,
      and only listed choices have one. */
  lemma NodesOfStrings(g: Graph, start: ChoiceId)
    requires Closed(g) && start < |g.options|
    ensures var w, r := WalkFrom(g, start), NodesOf(g, start);
      && r.choices == w.order && r.decisions == w.decisions
      && (forall c :: c in r.choiceOptions <==> c in r.choices)
      && (forall k :: 0 <= k < |r.choices| ==> r.choiceOptions[r.choices[k]] == OptionString(k, w.ids[r.choices[k]]))
  {
    WalkFromProperties(g, start);
    var w := WalkFrom(g, start);
    forall k | 0 <= k < |w.order|
      ensures IndexOf(w.order, w.order[k]) == k
    {
      IndexOfUnique(w.order, k);
    }
  }

  /** The string building of the private constructor for one choice. */
  method OptionText(index: nat, ids: seq<nat>) returns (text: string)
    ensures text == OptionString(index, ids)
  {
    var head := "C" + ToString(index) + " [ ";
    text := head;
    var m := 0;
    while m < |ids|
      invariant m <= |ids|
      invariant text == head + Labelled(ids[..m])
    {
      LabelledStep(ids, m);
      Associative(head, Labelled(ids[..m]), Label(ids[m]));
      text := text + Label(ids[m]);
      m := m + 1;
    }
    assert ids[..m] == ids;
    text := text + "]";
  }

  /** The private constructor of `StoryNodes`: one option string per choice, in order. */
  method Build(seen: map<ChoiceId, seq<nat>>, order: seq<ChoiceId>, decisions: seq<DecisionId>)
    returns (nodes: StoryNodes)
    requires Unique(order)
    ensures nodes == Assembled(Walk(order, decisions, seen))
  {
    var options: map<ChoiceId, string> := map[];
    var i := 0;
    while i < |order|
      invariant i <= |order|
      invariant forall c :: c in options <==> c in order[..i] && c in seen
      invariant forall c :: c in options ==> c in seen && c in order && options[c] == OptionString(IndexOf(order, c), seen[c])
    {
      var choice := order[i];
      IndexOfUnique(order, i);
      if choice in seen {
        var text := OptionText(i, seen[choice]);
        options := options[choice := text];
      }
      assert order[..i + 1] == order[..i] + [choice];
      i := i + 1;
    }
    assert order[..i] == order;
    var expected := Assembled(Walk(order, decisions, seen)).choiceOptions;
    assert options.Keys == expected.Keys;
    assert options == expected;
    nodes := StoryNodes(order, options, decisions);
  }

  /** The queueing loop over one decision's possible outcomes. */
  method QueueUnseen(outcomes: seq<ChoiceId>, seen: map<ChoiceId, seq<nat>>, ghost order: seq<ChoiceId>)
    returns (unseen: seq<ChoiceId>)
    requires forall c :: c in seen <==> c in order
    ensures unseen == Unseen(outcomes, order)
  {
    unseen := [];
    var m := 0;
    while m < |outcomes|
      invariant m <= |outcomes|
      invariant unseen == Unseen(outcomes[..m], order)
    {
      assert outcomes[..m + 1][..m] == outcomes[..m];
      if outcomes[m] !in seen {
        unseen := unseen + [outcomes[m]];
      }
      m := m + 1;
    }
    assert outcomes[..m] == outcomes;
  }

  lemma RecordStep(decs: seq<DecisionId>, opts: seq<DecisionId>, k: nat)
    requires k < |opts|
    ensures var v := Record(decs, opts[..k]);
      var ds := if opts[k] in v.decisions then v.decisions else v.decisions + [opts[k]];
      Record(decs, opts[..k + 1]) == Recorded(ds, v.ids + [IndexOf(ds, opts[k])])
  {
    assert opts[..k + 1][..k] == opts[..k];
  }

  lemma QueuedStep(g: Graph, seen: seq<ChoiceId>, opts: seq<DecisionId>, k: nat)
    requires Below(opts, |g.decisions|) && k < |opts|
    ensures Below(opts[..k], |g.decisions|) && Below(opts[..k + 1], |g.decisions|)
    ensures Queued(g, seen, opts[..k + 1]) == Queued(g, seen, opts[..k]) + Unseen(PossibleOutcomes(g.decisions[opts[k]]), seen)
  {
    assert opts[..k + 1][..k] == opts[..k];
  }

  /** The option loop for a choice just marked seen: it records the new decisions, the choice's
      D-numbers and the outcomes to visit next. */
  method VisitChoice(g: Graph, opts: seq<DecisionId>, seen: map<ChoiceId, seq<nat>>, ghost order: seq<ChoiceId>,
                     decisions: seq<DecisionId>)
    returns (found: seq<DecisionId>, ids: seq<nat>, added: seq<ChoiceId>)
    requires Below(opts, |g.decisions|)
    requires forall c :: c in seen <==> c in order
    ensures Recorded(found, ids) == Record(decisions, opts)
    ensures added == Queued(g, order, opts)
  {
    found, ids, added := decisions, [], [];
    var k := 0;
    while k < |opts|
      invariant k <= |opts|
      invariant Record(decisions, opts[..k]) == Recorded(found, ids)
      invariant Queued(g, order, opts[..k]) == added
    {
      RecordStep(decisions, opts, k);
      QueuedStep(g, order, opts, k);
      var d := opts[k];
      if d !in found {
        found := found + [d];
      }
      ids := ids + [IndexOf(found, d)];
      var unseen := QueueUnseen(PossibleOutcomes(g.decisions[d]), seen, order);
      added := added + unseen;
      k := k + 1;
    }
    assert opts[..k] == opts;
  }

  /** Dequeuing a choice already seen. */
  lemma ExploreSkip(g: Graph, next: ChoiceId, rest: seq<ChoiceId>, w: Walk)
    requires Fits(g, [next] + rest, w) && next in w.order
    ensures Fits(g, rest, w) && Explore(g, [next] + rest, w) == Explore(g, rest, w)
  {
    assert ([next] + rest)[0] == next && ([next] + rest)[1..] == rest;
    BelowTail(next, rest, |g.options|);
  }

  /** Dequeuing a new choice. */
  lemma ExploreVisit(g: Graph, next: ChoiceId, rest: seq<ChoiceId>, w: Walk)
    requires Fits(g, [next] + rest, w) && next !in w.order
    ensures Explore(g, [next] + rest, w) == Explore(g, VisitNew(g, next, rest, w).0, VisitNew(g, next, rest, w).1)
  {
    assert ([next] + rest)[0] == next && ([next] + rest)[1..] == rest;
  }

  /** One choice taken off the current level: a new one is marked seen, numbered, and its unseen
      outcomes are returned for the next level. */
  method Dequeue(g: Graph, next: ChoiceId, ghost rest: seq<ChoiceId>, seen: map<ChoiceId, seq<nat>>,
                 order: seq<ChoiceId>, decisions: seq<DecisionId>)
    returns (known: map<ChoiceId, seq<nat>>, listed: seq<ChoiceId>, found: seq<DecisionId>, added: seq<ChoiceId>)
    requires Fits(g, [next] + rest, Walk(order, decisions, seen))
    requires forall c :: c in seen <==> c in order
    ensures Fits(g, rest + added, Walk(listed, found, known))
    ensures forall c :: c in known <==> c in listed
    ensures Explore(g, [next] + rest, Walk(order, decisions, seen)) == Explore(g, rest + added, Walk(listed, found, known))
    ensures |order| <= |listed| && (added == [] || |order| < |listed|)
  {
    ghost var w := Walk(order, decisions, seen);
    if next in seen {
      ExploreSkip(g, next, rest, w);
      assert rest + [] == rest;
      return seen, order, decisions, [];
    }
    ExploreVisit(g, next, rest, w);
    BelowTail(next, rest, |g.options|);
    listed := order + [next];
    assert Below(g.options[next], |g.decisions|);
    var ids;
    found, ids, added := VisitChoice(g, g.options[next], seen[next := []], listed, decisions);
    known := seen[next := ids];
    assert VisitNew(g, next, rest, w) == (rest + added, Walk(listed, found, known));
  }

  /** Taking the head of the level's remainder off the queue `worklist[j..] + temp`. */
  lemma Shift(worklist: seq<ChoiceId>, j: nat, temp: seq<ChoiceId>)
    requires j < |worklist|
    ensures var q := worklist[j..] + temp; |q| > 0 && q[0] == worklist[j] && q == [q[0]] + q[1..] && q[1..] == worklist[j + 1..] + temp
  {
    assert worklist[j..] == [worklist[j]] + worklist[j + 1..];
  }

  /** One turn of the inner loop: the choice at position `j` of the level is dequeued, and
      what it queues goes behind the next level. */
  method Step(g: Graph, ghost worklist: seq<ChoiceId>, next: ChoiceId, j: nat, temp: seq<ChoiceId>,
              seen: map<ChoiceId, seq<nat>>, order: seq<ChoiceId>, decisions: seq<DecisionId>)
    returns (temp': seq<ChoiceId>, known: map<ChoiceId, seq<nat>>, listed: seq<ChoiceId>, found: seq<DecisionId>)
    requires j < |worklist| && next == worklist[j]
    requires Fits(g, worklist[j..] + temp, Walk(order, decisions, seen))
    requires forall c :: c in seen <==> c in order
    ensures Fits(g, worklist[j + 1..] + temp', Walk(listed, found, known))
    ensures forall c :: c in known <==> c in listed
    ensures Explore(g, worklist[j..] + temp, Walk(order, decisions, seen))
         == Explore(g, worklist[j + 1..] + temp', Walk(listed, found, known))
    ensures |order| <= |listed| && (temp' == temp || |order| < |listed|)
  {
    Shift(worklist, j, temp);
    var added;
    known, listed, found, added := Dequeue(g, next, worklist[j + 1..] + temp, seen, order, decisions);
    Associative(worklist[j + 1..], temp, added);
    temp' := temp + added;
  }

  /** One pass of the outer loop: the whole current level is dequeued, and the next level is
      what it queued. */
  method Level(g: Graph, worklist: seq<ChoiceId>, seen: map<ChoiceId, seq<nat>>, order: seq<ChoiceId>,
               decisions: seq<DecisionId>)
    returns (temp: seq<ChoiceId>, known: map<ChoiceId, seq<nat>>, listed: seq<ChoiceId>, found: seq<DecisionId>)
    requires Fits(g, worklist, Walk(order, decisions, seen))
    requires forall c :: c in seen <==> c in order
    ensures Fits(g, temp, Walk(listed, found, known))
    ensures forall c :: c in known <==> c in listed
    ensures Explore(g, worklist, Walk(order, decisions, seen)) == Explore(g, temp, Walk(listed, found, known))
    ensures |order| <= |listed| && (temp == [] || |order| < |listed|)
  {
    temp, known, listed, found := [], seen, order, decisions;
    ghost var walk := Explore(g, worklist, Walk(order, decisions, seen));
    var j := 0;
    assert worklist[j..] + temp == worklist;
    while j < |worklist|
      invariant j <= |worklist| && |order| <= |listed|
      invariant Fits(g, worklist[j..] + temp, Walk(listed, found, known))
      invariant forall c :: c in known <==> c in listed
      invariant Explore(g, worklist[j..] + temp, Walk(listed, found, known)) == walk
      invariant temp == [] || |order| < |listed|
    {
      temp, known, listed, found := Step(g, worklist, worklist[j], j, temp, known, listed, found);
      j := j + 1;
    }
    assert worklist[j..] + temp == temp;
  }

  /** `createNodes(story)`: the level-by-level walk from the current choice. */
  method CreateNodes(story: StoryGame) returns (nodes: StoryNodes)
    requires story.Valid()
    ensures nodes == NodesOf(story.arena.graph, story.CurrentChoice())
  {
    var g := story.arena.graph;
    var seen: map<ChoiceId, seq<nat>> := map[];
    var order: seq<ChoiceId> := [];
    var decisions: seq<DecisionId> := [];
    var worklist := [story.CurrentChoice()];
    ghost var result := Explore(g, worklist, Walk(order, decisions, seen));
    while |worklist| > 0
      invariant Fits(g, worklist, Walk(order, decisions, seen))
      invariant forall c :: c in seen <==> c in order
      invariant Explore(g, worklist, Walk(order, decisions, seen)) == result
      decreases |g.options| - |order|, |worklist|
    {
      Pigeonhole(order, |g.options|);
      ghost var before := |order|;
      worklist, seen, order, decisions := Level(g, worklist, seen, order, decisions);
      Pigeonhole(order, |g.options|);
    }
    nodes := Build(seen, order, decisions);
  }
}
