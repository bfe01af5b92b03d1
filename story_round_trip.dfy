/** Reading back an exported story. The importer gives the listed choices fresh numbers, their
    positions in the listing, so the file read back is the exported story renamed: choice `i` of
    the file is the `i`-th listed choice, decision `j` is the `j`-th listed decision with every
    choice it refers to renamed, and each choice keeps its options in order. */
module StoryRoundTrip {
  import opened Wrappers
  import opened JavaInt
  import opened Tables
  import opened IOUtils
  import opened Decisions
  import opened Choices
  import opened Handles
  import opened Nodes
  import opened DecisionReader
  import opened DecisionRoundTrip
  import opened TextImport
  import opened TextExport

  /** Every choice `d` refers to is in `order`. */
  predicate ReferencesIn(d: Decision, order: seq<ChoiceId>) {
    forall c :: c in ReferencedChoices(d) ==> c in order
  }

  /** `d` with every choice `c` it refers to replaced by its position in `order`. */
  function Renamed(d: Decision, order: seq<ChoiceId>): (r: Decision)
    requires ReferencesIn(d, order)
    ensures Writable(r) == Writable(d)
    ensures forall c :: c in ReferencedChoices(r) ==> c < |order|
  {
    match d
    case Simple(description, outcome) => Simple(description, IndexOf(order, outcome))
    case Consequential(description, outcome, updates) => Consequential(description, IndexOf(order, outcome), updates)
    case Dependent(delegate, det) =>
      Dependent(Renamed(delegate, order), det.(below := IndexOf(order, det.below), meets := IndexOf(order, det.meets)))
  }

  /** The choices `0 .. n-1` are written as `C0 .. C<n-1>`. */
  lemma RangeIds(order: seq<ChoiceId>, c: ChoiceId)
    requires c in order
    ensures IndexOf(order, c) in Range(|order|)
    ensures ChoiceIds(Range(|order|))[IndexOf(order, c)] == ChoiceIds(order)[c]
  {
    var k := IndexOf(order, c);
    var r := Range(|order|);
    assert r[k] == k;
    IndexOfUnique(r, k);
  }

  /** Writing `d` with the listed choices' ids writes its renaming with the new choices' ids. */
  lemma {:induction false} ExportRenamed(d: Decision, order: seq<ChoiceId>)
    requires ReferencesIn(d, order)
    ensures ExportDecision(Renamed(d, order), ChoiceIds(Range(|order|))) == ExportDecision(d, ChoiceIds(order))
  {
    match d
    case Simple(_, outcome) =>
      RangeIds(order, outcome);
    case Consequential(_, outcome, _) =>
      RangeIds(order, outcome);
    case Dependent(delegate, det) =>
      RangeIds(order, det.below);
      RangeIds(order, det.meets);
      ExportRenamed(delegate, order);
  }

  lemma RangeNumbering(n: nat)
    requires n <= MAX + 1
    ensures Numbering(Range(n))
  {
  }

  /** The importer reads an exported decision back as its renaming, whatever follows it. */
  lemma DecisionReadsRenamed(d: Decision, order: seq<ChoiceId>, rest: seq<string>)
    requires ReferencesIn(d, order) && Writable(d) && |order| <= MAX + 1
    ensures var text := ExportDecision(d, ChoiceIds(order));
      && text.Success?
      && ImportDecision(Tokenize(text.value) + rest, Range(|order|))
         == Success(Parsed(Renamed(d, order), Closers(Renamed(d, order)) + rest))
  {
    var r := Renamed(d, order);
    ExportRenamed(d, order);
    RangeNumbering(|order|);
    forall c | c in ReferencedChoices(r)
      ensures c in Range(|order|)
    {
      assert Range(|order|)[c] == c;
    }
    RoundTrip(r, Range(|order|), rest);
  }

  /** Status names the file can carry: safe between quotes, and not the `]` that ends the block. */
  predicate StatusNames(t: Table<int32>) {
    forall k :: k in t.keys ==> SafeText(k) && k != "]"
  }

  /** The tokens of the status entries from the `i`-th on. */
  function StatusTokens(t: Table<int32>, i: nat): seq<string>
    requires i <= |t.keys|
    decreases |t.keys| - i
  {
    if i == |t.keys| then []
    else Tokenize(Quoted(t.keys[i])) + [ToString(t.values[t.keys[i]] as int)] + StatusTokens(t, i + 1)
  }

  /** A quoted name, a word and a space, then more text. */
  lemma EntryTokenize(q: string, v: string, x: string)
    requires IsWord(v)
    ensures Tokenize(q + " " + v + " " + x) == Tokenize(q) + [v] + Tokenize(x)
  {
    Associative(q + " ", v, " ");
    Associative(q + " ", v + " ", x);
    Associative(q, " ", v + " " + x);
    Spaced(q, v + " " + x);
    WordThen(v, x);
  }

  lemma {:induction false} StatusTextTokens(t: Table<int32>, i: nat, x: string)
    requires i <= |t.keys|
    ensures Tokenize(StatusText(t, i) + x) == StatusTokens(t, i) + Tokenize(x)
    decreases |t.keys| - i
  {
    if i == |t.keys| {
      assert StatusText(t, i) + x == x;
    } else {
      var k := t.keys[i];
      StatusStep(t, i);
      var v := ToString(t.values[k] as int);
      PrintedIntIsWord(t.values[k] as int);
      var rest := StatusText(t, i + 1);
      assert StatusText(t, i) + x == Quoted(k) + " " + v + " " + (rest + x);
      EntryTokenize(Quoted(k), v, rest + x);
      StatusTextTokens(t, i + 1, x);
      Associative(Tokenize(Quoted(k)) + [v], StatusTokens(t, i + 1), Tokenize(x));
    }
  }

  /** The status loop after its next name has been read from `ts`. */
  function StatusesAfter(ts: seq<string>, acc: Table<int32>): Result<Parsed<Table<int32>>> {
    match QuotedToken(ts, ILLEGAL_STORY)
    case Failure(e) => Failure(e)
    case Success(n) => StatusEntries(n.value, n.rest, acc)
  }

  lemma StatusEntryRead(k: string, v: int32, ts: seq<string>, acc: Table<int32>)
    requires k != "]"
    ensures StatusEntries(k, [ToString(v as int)] + ts, acc) == StatusesAfter(ts, Put(acc, k, v))
  {
    ParseToString(v);
    assert ([ToString(v as int)] + ts)[1..] == ts;
  }

  /** One status entry is read back into the table. */
  lemma StatusBackStep(t: Table<int32>, i: nat, more: seq<string>)
    requires i < |t.keys| && StatusNames(t)
    ensures StatusesAfter(StatusTokens(t, i) + ["]"] + more, Prefix(t, i))
            == StatusesAfter(StatusTokens(t, i + 1) + ["]"] + more, Prefix(t, i + 1))
  {
    var k := t.keys[i];
    var v := t.values[k];
    var q, w := Tokenize(Quoted(k)), [ToString(v as int)];
    var tail := StatusTokens(t, i + 1) + ["]"] + more;
    Associative(q + w, StatusTokens(t, i + 1), ["]"]);
    Associative(q + w, StatusTokens(t, i + 1) + ["]"], more);
    Associative(q, w, tail);
    QuotedRoundTrip(k, w + tail, ILLEGAL_STORY);
    StatusEntryRead(k, v, tail, Prefix(t, i));
    PrefixStep(t, i);
  }

  /** The status loop reads the entries back into the table they came from and stops after the
      closing `]`. */
  lemma {:induction false} StatusesBack(t: Table<int32>, i: nat, more: seq<string>)
    requires i <= |t.keys| && StatusNames(t)
    ensures StatusesAfter(StatusTokens(t, i) + ["]"] + more, Prefix(t, i)) == Success(Parsed(t, more))
    decreases |t.keys| - i
  {
    if i == |t.keys| {
      PrefixEnds(t);
      assert StatusTokens(t, i) + ["]"] + more == ["]"] + more;
      UnquotedToken("]", more, ILLEGAL_STORY);
    } else {
      StatusBackStep(t, i, more);
      StatusesBack(t, i + 1, more);
    }
  }

  /** The listed decisions from the `i`-th on refer only to listed choices and can be written. */
  predicate Listable(ds: seq<Decision>, listed: seq<DecisionId>, order: seq<ChoiceId>, i: nat)
    requires Below(listed, |ds|) && i <= |listed|
  {
    forall j :: i <= j < |listed| ==> ReferencesIn(ds[listed[j]], order) && Writable(ds[listed[j]])
  }

  /** The tokens of one decision line `[ <export> ]`. */
  function LineTokens(d: Decision, order: seq<ChoiceId>): seq<string>
    requires ReferencesIn(d, order)
  {
    ExportSucceeds(d, ChoiceIds(order));
    ["["] + Tokenize(ExportDecision(d, ChoiceIds(order)).value) + ["]"]
  }

  /** The tokens of the decision lines from the `i`-th on. */
  function DecisionTokens(ds: seq<Decision>, listed: seq<DecisionId>, order: seq<ChoiceId>, i: nat): seq<string>
    requires Below(listed, |ds|) && i <= |listed| && Listable(ds, listed, order, i)
    decreases |listed| - i
  {
    if i == |listed| then [] else LineTokens(ds[listed[i]], order) + DecisionTokens(ds, listed, order, i + 1)
  }

  /** The renamings of the listed decisions from the `i`-th on. */
  function RenamedFrom(ds: seq<Decision>, listed: seq<DecisionId>, order: seq<ChoiceId>, i: nat): (r: seq<Decision>)
    requires Below(listed, |ds|) && i <= |listed| && Listable(ds, listed, order, i)
    ensures |r| == |listed| - i
    decreases |listed| - i
  {
    if i == |listed| then [] else [Renamed(ds[listed[i]], order)] + RenamedFrom(ds, listed, order, i + 1)
  }

  lemma LineTokenize(text: string, x: string)
    ensures Tokenize("[ " + text + " ]\n" + x) == ["["] + Tokenize(text) + ["]"] + Tokenize(x)
  {
    var z := "]\n" + x;
    var w := text + (" " + z);
    assert "[ " == "[" + " ";
    assert " ]\n" == " " + "]\n";
    assert "]\n" == "]" + ['\n'];
    Associative("[ " + text, " ]\n", x);
    Associative("[ ", text, " ]\n" + x);
    Associative(" ", "]\n", x);
    Associative("[", " ", w);
    Associative(text, " ", z);
    Associative("]", ['\n'], x);
    Spaced("[", w);
    Spaced(text, z);
    TokenizeJoin("]", '\n', x);
    TokenizeWord("[");
    TokenizeWord("]");
    Associative(["["], Tokenize(text), ["]"] + Tokenize(x));
    Associative(["["] + Tokenize(text), ["]"], Tokenize(x));
  }

  /** The decision block of the file tokenizes into the lines' tokens, whatever text follows. */
  lemma {:induction false} DecisionTextTokens(ds: seq<Decision>, listed: seq<DecisionId>, order: seq<ChoiceId>, i: nat, x: string)
    requires Below(listed, |ds|) && i <= |listed| && Listable(ds, listed, order, i)
    ensures DecisionText(ds, listed, ChoiceIds(order), i).Success?
    ensures Tokenize(DecisionText(ds, listed, ChoiceIds(order), i).value + x)
            == DecisionTokens(ds, listed, order, i) + Tokenize(x)
    decreases |listed| - i
  {
    if i == |listed| {
      assert "" + x == x;
    } else {
      var ids := ChoiceIds(order);
      var d := ds[listed[i]];
      ExportSucceeds(d, ids);
      var text := ExportDecision(d, ids).value;
      DecisionTextTokens(ds, listed, order, i + 1, x);
      var rest := DecisionText(ds, listed, ids, i + 1).value;
      Associative("[ " + text + " ]\n", rest, x);
      LineTokenize(text, rest + x);
      Associative(LineTokens(d, order), DecisionTokens(ds, listed, order, i + 1), Tokenize(x));
    }
  }

  /** The decision loops after the token `ts[0]` has been read in mode `inner`. */
  function AfterToken(ts: seq<string>, choices: seq<ChoiceId>, acc: seq<Decision>, inner: bool)
    : Result<Parsed<seq<Decision>>>
  {
    match QuotedToken(ts, ILLEGAL_STORY)
    case Failure(e) => Failure(e)
    case Success(n) => DecisionEntries(n.value, n.rest, choices, acc, inner)
  }

  /** A decision's closers are all `]`. */
  lemma {:induction false} ClosersClose(d: Decision)
    ensures forall k :: 0 <= k < |Closers(d)| ==> Closers(d)[k] == "]"
  {
    if d.Dependent? {
      ClosersClose(d.delegate);
    }
  }

  /** Any run of `]` ends the group; the loop is back between groups after it. */
  lemma {:induction false} ClosersSkip(cl: seq<string>, rest: seq<string>, choices: seq<ChoiceId>, acc: seq<Decision>, inner: bool)
    requires forall k :: 0 <= k < |cl| ==> cl[k] == "]"
    ensures AfterToken(cl + ["]"] + rest, choices, acc, inner) == AfterToken(rest, choices, acc, false)
    decreases |cl|
  {
    var tail := if |cl| == 0 then rest else cl[1..] + ["]"] + rest;
    assert cl + ["]"] + rest == ["]"] + tail;
    UnquotedToken("]", tail, ILLEGAL_STORY);
    if |cl| > 0 {
      ClosersSkip(cl[1..], rest, choices, acc, false);
    }
  }

  /** The loops on a token that is not quoted. */
  lemma AfterWord(t: string, rest: seq<string>, choices: seq<ChoiceId>, acc: seq<Decision>, inner: bool)
    requires |t| > 0 && t[0] != '"'
    ensures AfterToken([t] + rest, choices, acc, inner) == DecisionEntries(t, rest, choices, acc, inner)
  {
    UnquotedToken(t, rest, ILLEGAL_STORY);
  }

  /** A token other than `}` or `]` stands before a decision. */
  lemma DecisionStep(ts: seq<string>, choices: seq<ChoiceId>, acc: seq<Decision>, d: Decision, rest: seq<string>)
    requires ImportDecision(ts, choices) == Success(Parsed(d, rest))
    ensures DecisionEntries("[", ts, choices, acc, false) == AfterToken(rest, choices, acc + [d], true)
  {
  }

  /** One decision line is read back as the renamed decision. */
  lemma LineBack(d: Decision, order: seq<ChoiceId>, after: seq<string>, acc: seq<Decision>)
    requires ReferencesIn(d, order) && Writable(d) && |order| <= MAX + 1
    ensures AfterToken(LineTokens(d, order) + after, Range(|order|), acc, false)
            == AfterToken(after, Range(|order|), acc + [Renamed(d, order)], false)
  {
    var choices := Range(|order|);
    var r := Renamed(d, order);
    DecisionReadsRenamed(d, order, ["]"] + after);
    var t := Tokenize(ExportDecision(d, ChoiceIds(order)).value);
    Associative(["["] + t, ["]"], after);
    Associative(["["], t, ["]"] + after);
    AfterWord("[", t + (["]"] + after), choices, acc, false);
    DecisionStep(t + (["]"] + after), choices, acc, r, Closers(r) + (["]"] + after));
    Associative(Closers(r), ["]"], after);
    ClosersClose(r);
    ClosersSkip(Closers(r), after, choices, acc + [r], true);
  }

  /** The decision loops read the lines back as the renamed decisions, in order, and stop after
      the closing `}`. */
  lemma {:induction false} DecisionsBack(ds: seq<Decision>, listed: seq<DecisionId>, order: seq<ChoiceId>, i: nat,
                                          acc: seq<Decision>, more: seq<string>)
    requires Below(listed, |ds|) && i <= |listed| && Listable(ds, listed, order, i) && |order| <= MAX + 1
    ensures AfterToken(DecisionTokens(ds, listed, order, i) + ["}"] + more, Range(|order|), acc, false)
            == Success(Parsed(acc + RenamedFrom(ds, listed, order, i), more))
    decreases |listed| - i
  {
    if i == |listed| {
      assert DecisionTokens(ds, listed, order, i) + ["}"] + more == ["}"] + more;
      AfterWord("}", more, Range(|order|), acc, false);
      assert acc + [] == acc;
    } else {
      var d := ds[listed[i]];
      var tail := DecisionTokens(ds, listed, order, i + 1);
      Associative(LineTokens(d, order), tail, ["}"]);
      Associative(LineTokens(d, order), tail + ["}"], more);
      LineBack(d, order, tail + ["}"] + more, acc);
      DecisionsBack(ds, listed, order, i + 1, acc + [Renamed(d, order)], more);
      Associative(acc, [Renamed(d, order)], RenamedFrom(ds, listed, order, i + 1));
    }
  }

  /** `readDecisions` reads the decision block back as the renamed listed decisions. */
  lemma DecisionBlockBack(ds: seq<Decision>, listed: seq<DecisionId>, order: seq<ChoiceId>, more: seq<string>)
    requires Below(listed, |ds|) && Listable(ds, listed, order, 0) && |order| <= MAX + 1
    ensures ReadDecisions(["{"] + (DecisionTokens(ds, listed, order, 0) + (["}"] + more)), Range(|order|))
            == Success(Parsed(RenamedFrom(ds, listed, order, 0), more))
  {
    Associative(DecisionTokens(ds, listed, order, 0), ["}"], more);
    UnquotedToken("{", DecisionTokens(ds, listed, order, 0) + ["}"] + more, ILLEGAL_STORY);
    DecisionsBack(ds, listed, order, 0, [], more);
    assert [] + RenamedFrom(ds, listed, order, 0) == RenamedFrom(ds, listed, order, 0);
  }

  /** A letter followed by a printed int is one token. */
  lemma LetterWord(c: char, x: int)
    requires !IsWhitespace(c)
    ensures IsWord([c] + ToString(x))
  {
    PrintedIntIsWord(x);
    var w := [c] + ToString(x);
    assert forall j :: 1 <= j < |w| ==> w[j] == ToString(x)[j - 1];
  }

  /** The tokens of an option list `D<j> …`. */
  function LabelTokens(ids: seq<nat>): (r: seq<string>)
    ensures |r| == |ids| && forall k :: 0 <= k < |ids| ==> r[k] == "D" + ToString(ids[k])
  {
    seq(|ids|, k requires 0 <= k < |ids| => "D" + ToString(ids[k]))
  }

  lemma LabelTokensSnoc(ids: seq<nat>)
    requires |ids| > 0
    ensures LabelTokens(ids) == LabelTokens(ids[..|ids| - 1]) + ["D" + ToString(ids[|ids| - 1])]
  {
  }

  lemma LabelTokensCons(ids: seq<nat>)
    requires |ids| > 0
    ensures LabelTokens(ids) == ["D" + ToString(ids[0])] + LabelTokens(ids[1..])
  {
    var a, b := LabelTokens(ids), ["D" + ToString(ids[0])] + LabelTokens(ids[1..]);
    assert |a| == |b|;
    forall k | 0 <= k < |a|
      ensures a[k] == b[k]
    {
      if k > 0 {
        assert b[k] == LabelTokens(ids[1..])[k - 1];
      }
    }
  }

  lemma {:induction false} LabelledTokens(ids: seq<nat>, x: string)
    ensures Tokenize(Labelled(ids) + x) == LabelTokens(ids) + Tokenize(x)
    decreases |ids|
  {
    if |ids| == 0 {
      assert Labelled(ids) + x == x;
    } else {
      var front, last := ids[..|ids| - 1], ids[|ids| - 1];
      var w := "D" + ToString(last);
      assert Labelled(ids) == Labelled(front) + Label(last);
      Associative(Labelled(front), Label(last), x);
      LabelledTokens(front, Label(last) + x);
      assert "D" == ['D'];
      LetterWord('D', last);
      Associative(w, " ", x);
      WordThen(w, x);
      Associative(LabelTokens(front), [w], Tokenize(x));
      LabelTokensSnoc(ids);
    }
  }

  /** The tokens of one option line `C<i> [ D<j> … ]`. */
  function OptionTokens(index: nat, ids: seq<nat>): seq<string> {
    ["C" + ToString(index), "["] + LabelTokens(ids) + ["]"]
  }

  /** A word, ` [ `, text, `]` and a newline: the word and `[` come first. */
  lemma OptionPieces(w: string, l: string, x: string)
    requires IsWord(w)
    ensures Tokenize(w + " [ " + l + "]" + "\n" + x) == [w, "["] + Tokenize(l + ("]" + ['\n'] + x))
  {
    var p := w + " [ ";
    assert "\n" == ['\n'];
    Associative(p + l + "]", "\n", x);
    Associative(p + l, "]", "\n" + x);
    Associative(p, l, "]" + ("\n" + x));
    Associative("]", "\n", x);
    BracketThen(w, l + ("]" + ['\n'] + x));
  }

  /** A word followed by ` [ `: the word and `[` are the first two tokens. */
  lemma BracketThen(w: string, r: string)
    requires IsWord(w)
    ensures Tokenize(w + " [ " + r) == [w, "["] + Tokenize(r)
  {
    BracketLayout(w, r);
    TokenizeJoin(w, ' ', "[" + [' '] + r);
    TokenizeJoin("[", ' ', r);
    TokenizeWord(w);
    TokenizeWord("[");
  }

  lemma BracketLayout(w: string, r: string)
    ensures w + " [ " + r == w + [' '] + ("[" + [' '] + r)
  {
    var a, b := w + " [ " + r, w + [' '] + ("[" + [' '] + r);
    assert |a| == |b|;
    forall i | 0 <= i < |a|
      ensures a[i] == b[i]
    {
      if i < |w| {
      } else if i < |w| + 3 {
      } else {
      }
    }
  }

  /** An option string and its newline tokenize into the option line's tokens. */
  lemma OptionTokenize(index: nat, ids: seq<nat>, x: string)
    ensures Tokenize(OptionString(index, ids) + "\n" + x) == OptionTokens(index, ids) + Tokenize(x)
  {
    var w := "C" + ToString(index);
    assert "C" == ['C'];
    LetterWord('C', index);
    OptionPieces(w, Labelled(ids), x);
    LabelledTokens(ids, "]" + ['\n'] + x);
    TokenizeJoin("]", '\n', x);
    TokenizeWord("]");
    Associative([w, "["], LabelTokens(ids), ["]"] + Tokenize(x));
    Associative([w, "["] + LabelTokens(ids), ["]"], Tokenize(x));
  }

  /** The tokens of the option lines from the `i`-th on; `lists[i]` holds the D-numbers of the
      `i`-th listed choice. */
  function ChoiceTokens(lists: seq<seq<nat>>, i: nat): seq<string>
    requires i <= |lists|
    decreases |lists| - i
  {
    if i == |lists| then [] else OptionTokens(i, lists[i]) + ChoiceTokens(lists, i + 1)
  }

  /** The option block of the file tokenizes into the option lines' tokens. */
  lemma {:induction false} ChoiceTextTokens(order: seq<ChoiceId>, options: map<ChoiceId, string>,
                                             lists: seq<seq<nat>>, i: nat, x: string)
    requires |lists| == |order| && i <= |order| && forall c :: c in order ==> c in options
    requires forall k :: 0 <= k < |order| ==> options[order[k]] == OptionString(k, lists[k])
    ensures Tokenize(ChoiceText(order, options, i) + x) == ChoiceTokens(lists, i) + Tokenize(x)
    decreases |order| - i
  {
    if i == |order| {
      assert ChoiceText(order, options, i) + x == x;
    } else {
      var rest := ChoiceText(order, options, i + 1);
      Associative(options[order[i]] + "\n", rest, x);
      OptionTokenize(i, lists[i], rest + x);
      ChoiceTextTokens(order, options, lists, i + 1, x);
      Associative(OptionTokens(i, lists[i]), ChoiceTokens(lists, i + 1), Tokenize(x));
    }
  }

  /** The outer option loop after its next token has been read from `ts`. */
  function OptionsAfter(ts: seq<string>, opts: seq<seq<DecisionId>>, m: nat): Result<Parsed<seq<seq<DecisionId>>>> {
    match QuotedToken(ts, ILLEGAL_STORY)
    case Failure(e) => Failure(e)
    case Success(n) => OptionEntries(n.value, n.rest, opts, m)
  }

  /** The inner option loop of choice `c` after its next token has been read from `ts`. */
  function LabelsAfter(ts: seq<string>, c: int32, opts: seq<seq<DecisionId>>, m: nat): Result<Parsed<seq<seq<DecisionId>>>> {
    match QuotedToken(ts, ILLEGAL_STORY)
    case Failure(e) => Failure(e)
    case Success(n) => OptionList(c, n.value, n.rest, opts, m)
  }

  /** One D-number read: the decision is appended to choice `c`'s list. */
  lemma LabelStep(c: int32, id: nat, ts: seq<string>, opts: seq<seq<DecisionId>>, m: nat)
    requires 0 <= c as int < |opts| && id < m && id <= MAX
    ensures OptionList(c, "D" + ToString(id), ts, opts, m) == LabelsAfter(ts, c, opts[c := opts[c] + [id]], m)
  {
    assert "D" == ['D'];
    NumIdOfPrinted('D', id as int32, ILLEGAL_STORY);
    assert ("D" + ToString(id))[0] == 'D';
  }

  /** The inner option loop reads the D-numbers `ids` into choice `c`'s list and returns to the
      outer loop after `]`. */
  lemma {:induction false} LabelsBack(c: int32, ids: seq<nat>, opts: seq<seq<DecisionId>>, m: nat, more: seq<string>)
    requires 0 <= c as int < |opts|
    requires forall j :: 0 <= j < |ids| ==> ids[j] < m && ids[j] <= MAX
    ensures LabelsAfter(LabelTokens(ids) + ["]"] + more, c, opts, m) == OptionsAfter(more, opts[c := opts[c] + ids], m)
    decreases |ids|
  {
    if |ids| == 0 {
      assert LabelTokens(ids) + ["]"] + more == ["]"] + more;
      UnquotedToken("]", more, ILLEGAL_STORY);
      assert opts[c] + ids == opts[c];
      assert opts[c := opts[c]] == opts;
    } else {
      var t := "D" + ToString(ids[0]);
      var after := LabelTokens(ids[1..]) + ["]"] + more;
      LabelTokensCons(ids);
      Associative([t], LabelTokens(ids[1..]), ["]"]);
      Associative([t], LabelTokens(ids[1..]) + ["]"], more);
      assert t[0] == 'D';
      UnquotedToken(t, after, ILLEGAL_STORY);
      LabelStep(c, ids[0], after, opts, m);
      var next := opts[c := opts[c] + [ids[0]]];
      LabelsBack(c, ids[1..], next, m, more);
      assert ids == [ids[0]] + ids[1..];
      Associative(opts[c], [ids[0]], ids[1..]);
      assert next[c := next[c] + ids[1..]] == opts[c := opts[c] + ids];
    }
  }

  /** One option line starts: the choice number and an opening token. */
  lemma OptionOpen(index: nat, ts: seq<string>, opts: seq<seq<DecisionId>>, m: nat)
    requires index <= MAX
    ensures OptionEntries("C" + ToString(index), ["["] + ts, opts, m) == LabelsAfter(ts, index as int32, opts, m)
  {
    assert "C" == ['C'];
    NumIdOfPrinted('C', index as int32, ILLEGAL_STORY);
    assert ("C" + ToString(index))[0] == 'C';
    UnquotedToken("[", ts, ILLEGAL_STORY);
  }

  /** One option line is read back into its choice's list. */
  lemma OptionLineBack(lists: seq<seq<nat>>, i: nat, opts: seq<seq<DecisionId>>, m: nat, after: seq<string>)
    requires i < |opts| && i <= MAX && opts[i] == [] && OptionsBelow(lists, m) && m <= MAX + 1 && i < |lists|
    ensures OptionsAfter(OptionTokens(i, lists[i]) + after, opts, m) == OptionsAfter(after, opts[i := lists[i]], m)
  {
    var w := "C" + ToString(i);
    var y := LabelTokens(lists[i]) + ["]"] + after;
    assert OptionTokens(i, lists[i]) + after == [w] + (["["] + y);
    assert "C" == ['C'];
    assert w[0] == 'C';
    UnquotedToken(w, ["["] + y, ILLEGAL_STORY);
    OptionOpen(i, y, opts, m);
    LabelsBack(i as int32, lists[i], opts, m, after);
    assert opts[i] + lists[i] == lists[i];
  }

  /** The option lists with the first `i` filled in. */
  predicate FilledTo(lists: seq<seq<nat>>, i: nat, opts: seq<seq<DecisionId>>) {
    i <= |lists| == |opts| && opts[..i] == lists[..i] && forall j :: i <= j < |opts| ==> opts[j] == []
  }

  lemma FillStep(lists: seq<seq<nat>>, i: nat, opts: seq<seq<DecisionId>>)
    requires FilledTo(lists, i, opts) && i < |lists|
    ensures opts[i] == [] && FilledTo(lists, i + 1, opts[i := lists[i]])
  {
    assert opts[i := lists[i]][..i] == opts[..i];
  }

  lemma FillEnd(lists: seq<seq<nat>>, opts: seq<seq<DecisionId>>)
    requires FilledTo(lists, |lists|, opts)
    ensures opts == lists
  {
    assert opts == opts[..|lists|] && lists == lists[..|lists|];
  }

  /** The outer option loop fills the lists of the choices from the `i`-th on and stops after
      the closing `}`. */
  lemma {:induction false} OptionsBack(lists: seq<seq<nat>>, i: nat, opts: seq<seq<DecisionId>>, m: nat, more: seq<string>)
    requires FilledTo(lists, i, opts) && |lists| <= MAX + 1 && OptionsBelow(lists, m) && m <= MAX + 1
    ensures OptionsAfter(ChoiceTokens(lists, i) + ["}"] + more, opts, m) == Success(Parsed(lists, more))
    decreases |lists| - i
  {
    if i == |lists| {
      assert ChoiceTokens(lists, i) + ["}"] + more == ["}"] + more;
      UnquotedToken("}", more, ILLEGAL_STORY);
      FillEnd(lists, opts);
    } else {
      var tail := ChoiceTokens(lists, i + 1);
      Associative(OptionTokens(i, lists[i]), tail, ["}"]);
      Associative(OptionTokens(i, lists[i]), tail + ["}"], more);
      OptionLineBack(lists, i, opts, m, tail + ["}"] + more);
      FillStep(lists, i, opts);
      OptionsBack(lists, i + 1, opts[i := lists[i]], m, more);
    }
  }

  /** `addOptions` reads the option block back as the lists of the listed choices. */
  lemma OptionBlockBack(lists: seq<seq<nat>>, m: nat, more: seq<string>)
    requires |lists| <= MAX + 1 && OptionsBelow(lists, m) && m <= MAX + 1
    ensures ReadOptions(["{"] + (ChoiceTokens(lists, 0) + (["}"] + more)), Blank(|lists|), m)
            == Success(Parsed(lists, more))
  {
    Associative(ChoiceTokens(lists, 0), ["}"], more);
    UnquotedToken("{", ChoiceTokens(lists, 0) + ["}"] + more, ILLEGAL_STORY);
    assert FilledTo(lists, 0, Blank(|lists|));
    OptionsBack(lists, 0, Blank(|lists|), m, more);
  }

  /** `readStatuses` reads the status block back as the statuses written. */
  lemma StatusBlockBack(t: Table<int32>, more: seq<string>)
    requires StatusNames(t)
    ensures ReadStatuses(["["] + (StatusTokens(t, 0) + (["]"] + more))) == Success(Parsed(t, more))
  {
    Associative(StatusTokens(t, 0), ["]"], more);
    UnquotedToken("[", StatusTokens(t, 0) + ["]"] + more, ILLEGAL_STORY);
    StatusesBack(t, 0, more);
    PrefixEnds(t);
  }

  /** The text of a file, regrouped from the right: each section followed by the rest. */
  lemma FileShape(q: string, s: string, n: string, d: string, c: string, last: string)
    ensures q + "\n" + "[ " + s + "]\n" + n + "\n" + "{\n" + d + "}\n" + "{\n" + c + "}\n" + "C" + last
            == q + ("\n" + ("[ " + (s + ("]\n" + (n + ("\n" + ("{\n" + (d + ("}\n" + ("{\n" + (c + ("}\n" + ("C" + last)))))))))))))
  {
    var l1 := q + "\n";
    var l2 := l1 + "[ ";
    var l3 := l2 + s;
    var l4 := l3 + "]\n";
    var l5 := l4 + n;
    var l6 := l5 + "\n";
    var l7 := l6 + "{\n";
    var l8 := l7 + d;
    var l9 := l8 + "}\n";
    var l10 := l9 + "{\n";
    var l11 := l10 + c;
    var l12 := l11 + "}\n";
    var r13 := "C" + last;
    var r12 := "}\n" + r13;
    var r11 := c + r12;
    var r10 := "{\n" + r11;
    var r9 := "}\n" + r10;
    var r8 := d + r9;
    var r7 := "{\n" + r8;
    var r6 := "\n" + r7;
    var r5 := n + r6;
    var r4 := "]\n" + r5;
    var r3 := s + r4;
    var r2 := "[ " + r3;
    var r1 := "\n" + r2;
    Associative(l12, "C", last);
    Associative(l11, "}\n", r13);
    Associative(l10, c, r12);
    Associative(l9, "{\n", r11);
    Associative(l8, "}\n", r10);
    Associative(l7, d, r9);
    Associative(l6, "{\n", r8);
    Associative(l5, "\n", r7);
    Associative(l4, n, r6);
    Associative(l3, "]\n", r5);
    Associative(l2, s, r4);
    Associative(l1, "[ ", r3);
    Associative(q, "\n", r2);
  }

  /** A one-token line, then more text. */
  lemma WordLine(w: string, x: string)
    requires IsWord(w)
    ensures Tokenize(w + "\n" + x) == [w] + Tokenize(x)
  {
    assert "\n" == ['\n'];
    TokenizeJoin(w, '\n', x);
    TokenizeWord(w);
  }

  /** A two-character line `b\n`, then more text. */
  lemma MarkLine(b: string, x: string)
    requires b == "{" || b == "}" || b == "]"
    ensures Tokenize(b + "\n" + x) == [b] + Tokenize(x)
  {
    WordLine(b, x);
  }

  /** The tokens of the last four sections of a file: the decision block, the option block
      and the initial choice. */
  lemma TailTokens(d: string, c: string, last: string, dt: seq<string>, ct: seq<string>)
    requires IsWord("C" + last)
    requires Tokenize(c + ("}\n" + ("C" + last))) == ct + Tokenize("}\n" + ("C" + last))
    requires Tokenize(d + ("}\n" + ("{\n" + (c + ("}\n" + ("C" + last))))))
             == dt + Tokenize("}\n" + ("{\n" + (c + ("}\n" + ("C" + last)))))
    ensures Tokenize("{\n" + (d + ("}\n" + ("{\n" + (c + ("}\n" + ("C" + last)))))))
            == ["{"] + (dt + (["}"] + (["{"] + (ct + (["}"] + ["C" + last])))))
  {
    var r13 := "C" + last;
    var r11 := c + ("}\n" + r13);
    var r8 := d + ("}\n" + ("{\n" + r11));
    TokenizeWord(r13);
    assert "}\n" == "}" + "\n" && "{\n" == "{" + "\n";
    Associative("}", "\n", r13);
    MarkLine("}", r13);
    Associative("{", "\n", r11);
    MarkLine("{", r11);
    Associative("}", "\n", "{\n" + r11);
    MarkLine("}", "{\n" + r11);
    Associative("{", "\n", r8);
    MarkLine("{", r8);
  }

  /** The tokens of the first three sections of a file, the name, the status block and the
      count, before the text `rest`. */
  lemma HeadTokens(q: string, s: string, n: string, rest: string, st: seq<string>)
    requires IsWord(n)
    requires Tokenize(s + ("]\n" + (n + ("\n" + rest)))) == st + Tokenize("]\n" + (n + ("\n" + rest)))
    ensures Tokenize(q + ("\n" + ("[ " + (s + ("]\n" + (n + ("\n" + rest)))))))
            == Tokenize(q) + (["["] + (st + (["]"] + ([n] + Tokenize(rest)))))
  {
    var r5 := n + ("\n" + rest);
    var r3 := s + ("]\n" + r5);
    LineThen(n, rest);
    CloseThen(r5);
    OpenThen(r3);
    LineAfter(q, "[ " + r3);
  }

  /** A word on its own line, then more text. */
  lemma LineThen(w: string, x: string)
    requires IsWord(w)
    ensures Tokenize(w + ("\n" + x)) == [w] + Tokenize(x)
  {
    Associative(w, "\n", x);
    WordLine(w, x);
  }

  /** The line `]`, then more text. */
  lemma CloseThen(x: string)
    ensures Tokenize("]\n" + x) == ["]"] + Tokenize(x)
  {
    assert "]\n" + x == "]" + "\n" + x;
    MarkLine("]", x);
  }

  /** `[` and a space, then more text. */
  lemma OpenThen(x: string)
    ensures Tokenize("[ " + x) == ["["] + Tokenize(x)
  {
    assert "[ " + x == "[" + " " + x;
    Keywords();
    WordThen("[", x);
  }

  /** More text on the line after `a`. */
  lemma LineAfter(a: string, x: string)
    ensures Tokenize(a + ("\n" + x)) == Tokenize(a) + Tokenize(x)
  {
    assert a + ("\n" + x) == a + ['\n'] + x;
    TokenizeJoin(a, '\n', x);
  }

  /** A story over the heap `g`, at the choice `start`, that the exporter writes in full and the
      importer can read back: the heap is closed, the name and status names can be quoted, every
      listed decision can be written and refers only to listed choices, and every number the file
      holds fits an int. */
  predicate Exportable(g: Graph, name: string, statuses: Table<int32>, start: ChoiceId) {
    && Closed(g) && start < |g.options| && |g.options| <= MAX && |g.decisions| <= MAX
    && SafeText(name) && StatusNames(statuses)
    && var w := WalkFrom(g, start);
       forall x :: x in w.decisions && x < |g.decisions| ==> Writable(g.decisions[x]) && ReferencesIn(g.decisions[x], w.order)
  }

  /** The option lists of the listed choices by their D-numbers, in listing order. */
  function ListedOptions(g: Graph, start: ChoiceId): (lists: seq<seq<nat>>)
    requires Closed(g) && start < |g.options|
    ensures |lists| == |WalkFrom(g, start).order|
  {
    WalkFromProperties(g, start);
    var w := WalkFrom(g, start);
    seq(|w.order|, i requires 0 <= i < |w.order| => w.ids[w.order[i]])
  }

  /** The listed decisions of an exportable story can be written. */
  lemma ExportableListed(g: Graph, name: string, statuses: Table<int32>, start: ChoiceId)
    requires Exportable(g, name, statuses, start)
    ensures var w := WalkFrom(g, start);
      && Below(w.decisions, |g.decisions|) && Listable(g.decisions, w.decisions, w.order, 0)
      && |w.order| <= MAX && |w.decisions| <= MAX
  {
    WalkFromProperties(g, start);
    var w := WalkFrom(g, start);
    Pigeonhole(w.order, |g.options|);
    Pigeonhole(w.decisions, |g.decisions|);
  }

  /** What the importer makes of the file: the listed choices numbered by position with their
      option lists, the listed decisions renamed, in order, and the current choice as choice 0. */
  function Reimported(g: Graph, name: string, statuses: Table<int32>, start: ChoiceId): StoryFile
    requires Exportable(g, name, statuses, start)
  {
    ExportableListed(g, name, statuses, start);
    var w := WalkFrom(g, start);
    StoryFile(name, statuses, ListedOptions(g, start), RenamedFrom(g.decisions, w.decisions, w.order, 0), 0)
  }

  /** The tokens of the exported file, section by section. */
  function FileTokens(g: Graph, name: string, statuses: Table<int32>, start: ChoiceId): seq<string>
    requires Exportable(g, name, statuses, start)
  {
    ExportableListed(g, name, statuses, start);
    var w := WalkFrom(g, start);
    Tokenize(Quoted(name))
    + (["["] + (StatusTokens(statuses, 0) + (["]"] + ([ToString(|w.order|)]
    + (["{"] + (DecisionTokens(g.decisions, w.decisions, w.order, 0) + (["}"]
    + (["{"] + (ChoiceTokens(ListedOptions(g, start), 0) + (["}"] + ["C" + ToString(0)]))))))))))
  }

  /** The option strings of the listed choices are those of their lists. */
  lemma ListedStrings(g: Graph, start: ChoiceId)
    requires Closed(g) && start < |g.options|
    ensures var nodes, lists := NodesOf(g, start), ListedOptions(g, start);
      && |lists| == |nodes.choices| && (forall c :: c in nodes.choices ==> c in nodes.choiceOptions)
      && forall k :: 0 <= k < |nodes.choices| ==> nodes.choiceOptions[nodes.choices[k]] == OptionString(k, lists[k])
  {
    NodesOfStrings(g, start);
  }

  /** An exportable story is written in full, and its file tokenizes section by section. */
  lemma ExportedTokens(g: Graph, name: string, statuses: Table<int32>, start: ChoiceId)
    requires Exportable(g, name, statuses, start)
    ensures Exported(g, name, statuses, start).Success?
    ensures Tokenize(Exported(g, name, statuses, start).value) == FileTokens(g, name, statuses, start)
  {
    ExportableListed(g, name, statuses, start);
    WalkFromProperties(g, start);
    NodesOfStrings(g, start);
    FileIdsAreChoiceIds(g, start);
    StartListedFirst(g, start);
    ListedStrings(g, start);
    var w, nodes, lists := WalkFrom(g, start), NodesOf(g, start), ListedOptions(g, start);
    var ds, listed, order := g.decisions, w.decisions, w.order;
    var q, st := Quoted(name), StatusText(statuses, 0);
    var n, last := ToString(|order|), ToString(0);
    var c := ChoiceText(order, nodes.choiceOptions, 0);
    DecisionTextTokens(ds, listed, order, 0, "}\n" + ("{\n" + (c + ("}\n" + ("C" + last)))));
    var d := DecisionText(ds, listed, ChoiceIds(order), 0).value;
    ChoiceTextTokens(order, nodes.choiceOptions, lists, 0, "}\n" + ("C" + last));
    var rest := "{\n" + (d + ("}\n" + ("{\n" + (c + ("}\n" + ("C" + last))))));
    StatusTextTokens(statuses, 0, "]\n" + (n + ("\n" + rest)));
    PrintedIntIsWord(|order|);
    assert "C" == ['C'];
    LetterWord('C', 0);
    SectionTokens(q, st, n, d, c, last, StatusTokens(statuses, 0), DecisionTokens(ds, listed, order, 0), ChoiceTokens(lists, 0));
  }

  /** The file's text tokenizes section by section, given how the status, decision and option
      blocks tokenize. */
  lemma SectionTokens(q: string, st: string, n: string, d: string, c: string, last: string,
                      stTokens: seq<string>, dt: seq<string>, ct: seq<string>)
    requires IsWord(n) && IsWord("C" + last)
    requires Tokenize(c + ("}\n" + ("C" + last))) == ct + Tokenize("}\n" + ("C" + last))
    requires Tokenize(d + ("}\n" + ("{\n" + (c + ("}\n" + ("C" + last))))))
             == dt + Tokenize("}\n" + ("{\n" + (c + ("}\n" + ("C" + last)))))
    requires var rest := "{\n" + (d + ("}\n" + ("{\n" + (c + ("}\n" + ("C" + last))))));
      Tokenize(st + ("]\n" + (n + ("\n" + rest)))) == stTokens + Tokenize("]\n" + (n + ("\n" + rest)))
    ensures Tokenize(q + "\n" + "[ " + st + "]\n" + n + "\n" + "{\n" + d + "}\n" + "{\n" + c + "}\n" + "C" + last)
            == Tokenize(q) + (["["] + (stTokens + (["]"] + ([n]
               + (["{"] + (dt + (["}"] + (["{"] + (ct + (["}"] + ["C" + last]))))))))))
  {
    var rest := "{\n" + (d + ("}\n" + ("{\n" + (c + ("}\n" + ("C" + last))))));
    TailTokens(d, c, last, dt, ct);
    HeadTokens(q, st, n, rest, stTokens);
    FileShape(q, st, n, d, c, last);
  }

  /** `importStory` on the sections, each read in turn. */
  lemma ParseSections(ts: seq<string>, name: string, t: Table<int32>, n: nat, ds: seq<Decision>,
                      lists: seq<seq<DecisionId>>, r1: seq<string>, r4: seq<string>, r5: seq<string>, r8: seq<string>)
    requires 0 < n <= MAX
    requires QuotedToken(ts, ILLEGAL_STORY) == Success(Parsed(name, r1))
    requires ReadStatuses(r1) == Success(Parsed(t, r4))
    requires NextInt(r4, ILLEGAL_STORY) == Success(Parsed(n as int32, r5))
    requires ReadDecisions(r5, Range(n)) == Success(Parsed(ds, r8))
    requires ReadOptions(r8, Blank(n), |ds|) == Success(Parsed(lists, ["C" + ToString(0)]))
    ensures ParseStory(ts) == Success(StoryFile(name, t, lists, ds, 0))
  {
    assert "C" == ['C'];
    UnquotedToken("C" + ToString(0), [], ILLEGAL_STORY);
    NumIdOfPrinted('C', 0, ILLEGAL_STORY);
  }

  /** The listed choices' D-numbers name listed decisions. */
  lemma ListedBelow(g: Graph, start: ChoiceId)
    requires Closed(g) && start < |g.options|
    ensures OptionsBelow(ListedOptions(g, start), |WalkFrom(g, start).decisions|)
  {
    WalkFromProperties(g, start);
  }

  /** Reading back an exported story: the importer reads the file the exporter writes as the
      story renamed, its listed choices numbered from the current one. */
  lemma ExportReadsBack(g: Graph, name: string, statuses: Table<int32>, start: ChoiceId)
    requires Exportable(g, name, statuses, start)
    ensures Exported(g, name, statuses, start).Success?
    ensures ParseStory(Tokenize(Exported(g, name, statuses, start).value)) == Success(Reimported(g, name, statuses, start))
  {
    ExportedTokens(g, name, statuses, start);
    ExportableListed(g, name, statuses, start);
    ListedBelow(g, start);
    WalkFromProperties(g, start);
    var w, lists := WalkFrom(g, start), ListedOptions(g, start);
    var ds, listed, order := g.decisions, w.decisions, w.order;
    var n := |order|;
    var dt, ct := DecisionTokens(ds, listed, order, 0), ChoiceTokens(lists, 0);
    var r8 := ["{"] + (ct + (["}"] + ["C" + ToString(0)]));
    var r5 := ["{"] + (dt + (["}"] + r8));
    var r4 := [ToString(n)] + r5;
    var r1 := ["["] + (StatusTokens(statuses, 0) + (["]"] + r4));
    QuotedRoundTrip(name, r1, ILLEGAL_STORY);
    StatusBlockBack(statuses, r4);
    ParseToString(n as int32);
    assert r4[1..] == r5;
    DecisionBlockBack(ds, listed, order, r8);
    OptionBlockBack(lists, |listed|, ["C" + ToString(0)]);
    ParseSections(FileTokens(g, name, statuses, start), name, statuses, n,
                  RenamedFrom(ds, listed, order, 0), lists, r1, r4, r5, r8);
  }

  lemma {:induction false} RenamedAt(ds: seq<Decision>, listed: seq<DecisionId>, order: seq<ChoiceId>, i: nat, j: nat)
    requires Below(listed, |ds|) && i <= j < |listed| && Listable(ds, listed, order, i)
    ensures RenamedFrom(ds, listed, order, i)[j - i] == Renamed(ds[listed[j]], order)
    decreases j - i
  {
    var rest := RenamedFrom(ds, listed, order, i + 1);
    assert RenamedFrom(ds, listed, order, i) == [Renamed(ds[listed[i]], order)] + rest;
    if i < j {
      RenamedAt(ds, listed, order, i + 1, j);
      assert rest[j - (i + 1)] == Renamed(ds[listed[j]], order);
    }
  }

  /** The text the exporter writes, with its truncated ids, reads back the same way while at most
      ten choices are listed. */
  lemma AsWrittenReadsBack(g: Graph, name: string, statuses: Table<int32>, start: ChoiceId)
    requires Exportable(g, name, statuses, start) && |WalkFrom(g, start).order| <= 10
    ensures ExportedAsWritten(g, name, statuses, start).Success?
    ensures ParseStory(Tokenize(ExportedAsWritten(g, name, statuses, start).value))
         == Success(Reimported(g, name, statuses, start))
  {
    NodesOfStrings(g, start);
    AsWrittenUpToTen(g, name, statuses, start);
    ExportReadsBack(g, name, statuses, start);
  }

  /** The story read back is the exported one renamed: file choice `i` is the `i`-th listed
      choice, starting with the current one; its `k`-th option is the listed decision that was
      the original's `k`-th option; and each file decision is its listed decision renamed. */
  lemma ReimportedStory(g: Graph, name: string, statuses: Table<int32>, start: ChoiceId)
    requires Exportable(g, name, statuses, start)
    ensures var f, w := Reimported(g, name, statuses, start), WalkFrom(g, start);
      && f.name == name && f.statuses == statuses && f.initial == 0
      && 0 < |w.order| == |f.options| && w.order[0] == start
      && Below(w.order, |g.options|) && Below(w.decisions, |g.decisions|) && |f.decisions| == |w.decisions|
      && (forall j :: 0 <= j < |w.decisions| ==>
            ReferencesIn(g.decisions[w.decisions[j]], w.order)
            && f.decisions[j] == Renamed(g.decisions[w.decisions[j]], w.order))
      && (forall i :: 0 <= i < |f.options| ==> |f.options[i]| == |g.options[w.order[i]]|)
      && (forall i, k :: 0 <= i < |f.options| && 0 <= k < |f.options[i]| ==>
            f.options[i][k] < |w.decisions| && w.decisions[f.options[i][k]] == g.options[w.order[i]][k])
  {
    ExportableListed(g, name, statuses, start);
    WalkFromProperties(g, start);
    var w := WalkFrom(g, start);
    forall j | 0 <= j < |w.decisions|
      ensures Reimported(g, name, statuses, start).decisions[j] == Renamed(g.decisions[w.decisions[j]], w.order)
    {
      RenamedAt(g.decisions, w.decisions, w.order, 0, j);
    }
  }
}
