/** Reading back what `export` wrote. With choice ids `C<k>` for the position `k` of each choice,
    texts free of quotes and of doubled or outer spaces, and at least one effect in every
    consequential decision, `importDecision` of an exported decision gives the decision back and
    leaves one closing `]` per dependent level for its caller. */
module DecisionRoundTrip {
  import opened Wrappers
  import opened JavaInt
  import opened Tables
  import opened StatusUpdates
  import opened Decisions
  import opened IOUtils
  import opened Handles
  import opened DecisionReader

  /** The id of every choice in `choices`: `C` and its position. */
  function ChoiceIds(choices: seq<ChoiceId>): (ids: map<ChoiceId, string>)
    ensures forall c :: c in ids <==> c in choices
  {
    map c | c in choices :: "C" + ToString(IndexOf(choices, c))
  }

  /** What `export` can write so that it reads back the same. */
  predicate Writable(d: Decision) {
    match d
    case Simple(description, _) => SafeText(description)
    case Consequential(description, _, updates) =>
      SafeText(description) && |updates.keys| > 0 && forall k :: k in updates.keys ==> SafeText(k)
    case Dependent(delegate, determiner) => SafeText(determiner.dependency) && Writable(delegate)
  }

  /** The closing tokens a dependent decision leaves unread, one per level. */
  function Closers(d: Decision): seq<string> {
    match d
    case Dependent(delegate, _) => Closers(delegate) + ["]"]
    case _ => []
  }

  /** The choice lists the round trip works over: distinct choices, each position an int. */
  predicate Numbering(choices: seq<ChoiceId>) {
    Unique(choices) && |choices| <= MAX + 1
  }

  /** A choice id is one token, and `getChoice` reads it back as that choice. */
  lemma ChoiceIdRead(choices: seq<ChoiceId>, c: ChoiceId, rest: seq<string>)
    requires Numbering(choices) && c in choices
    ensures IsWord(ChoiceIds(choices)[c])
    ensures GetChoice([ChoiceIds(choices)[c]] + rest, choices) == Success(Parsed(c, rest))
  {
    var k := IndexOf(choices, c);
    var id := ChoiceIds(choices)[c];
    assert id == ['C'] + ToString(k as int32 as int);
    PrintedIntIsWord(k);
    UnquotedToken(id, rest, ILLEGAL_CHOICE);
    NumIdOfPrinted('C', k as int32, ILLEGAL_CHOICE);
  }

  /** A quoted safe text followed by more. */
  lemma QuotedThen(s: string, more: seq<string>, msg: string)
    requires SafeText(s)
    ensures QuotedToken(Tokenize("\"" + s + "\"") + more, msg) == Success(Parsed(s, more))
  {
    QuotedRoundTrip(s, more, msg);
  }

  /** Texts joined by a space tokenize piecewise. */
  lemma Spaced(a: string, b: string)
    ensures Tokenize(a + " " + b) == Tokenize(a) + Tokenize(b)
  {
    TokenizeJoin(a, ' ', b);
  }

  /** A word, a space and more: the word is the first token. */
  lemma WordThen(w: string, b: string)
    requires IsWord(w)
    ensures Tokenize(w + " " + b) == [w] + Tokenize(b)
  {
    Spaced(w, b);
    TokenizeWord(w);
  }

  /** Text, a space and a word: the word is the last token. */
  lemma ThenWord(a: string, w: string)
    requires IsWord(w)
    ensures Tokenize(a + " " + w) == Tokenize(a) + [w]
  {
    Spaced(a, w);
    TokenizeWord(w);
  }

  lemma Keywords()
    ensures IsWord("SIMPLE") && IsWord("CONSEQUENTIAL") && IsWord("DEPENDENT") && IsWord("TWOTHRESHOLD")
    ensures IsWord("[") && IsWord("]") && IsWord("|")
  {
  }

  /** The tokens of a simple decision's export. */
  lemma SimpleTokens(description: string, id: string)
    requires IsWord(id)
    ensures Tokenize("SIMPLE \"" + description + "\" " + id) == ["SIMPLE"] + Tokenize("\"" + description + "\"") + [id]
  {
    var q := "\"" + description + "\"";
    SimpleText(description, id);
    Keywords();
    WordThen("SIMPLE", q + " " + id);
    ThenWord(q, id);
  }

  lemma SimpleText(description: string, id: string)
    ensures "SIMPLE \"" + description + "\" " + id == "SIMPLE" + " " + ("\"" + description + "\"" + " " + id)
  {
    var q := "\"" + description + "\"";
    assert "SIMPLE \"" == "SIMPLE" + " " + "\"";
    Associative("SIMPLE" + " ", "\"", description);
    Associative("SIMPLE" + " ", "\"" + description, "\" ");
    assert "\" " == "\"" + " ";
    Associative("SIMPLE" + " " + ("\"" + description), "\"", " ");
    Associative("SIMPLE" + " ", "\"" + description + "\"" + " ", id);
  }

  /** The parse of those tokens. */
  lemma SimpleParse(description: string, qt: seq<string>, outcome: ChoiceId, id: string, choices: seq<ChoiceId>, rest: seq<string>)
    requires QuotedToken(qt + ([id] + rest), ILLEGAL_DECISION) == Success(Parsed(description, [id] + rest))
    requires GetChoice([id] + rest, choices) == Success(Parsed(outcome, rest))
    ensures ImportDecision(["SIMPLE"] + qt + [id] + rest, choices) == Success(Parsed(Simple(description, outcome), rest))
  {
    var ts := qt + ([id] + rest);
    assert ["SIMPLE"] + qt + [id] + rest == ["SIMPLE"] + ts;
    UnquotedToken("SIMPLE", ts, ILLEGAL_DECISION);
  }

  /** Round trip of a simple decision. */
  lemma SimpleRoundTrip(description: string, outcome: ChoiceId, choices: seq<ChoiceId>, rest: seq<string>)
    requires Numbering(choices) && outcome in choices && SafeText(description)
    ensures var text := ExportDecision(Simple(description, outcome), ChoiceIds(choices));
      && text.Success?
      && ImportDecision(Tokenize(text.value) + rest, choices) == Success(Parsed(Simple(description, outcome), rest))
  {
    var id := ChoiceIds(choices)[outcome];
    ChoiceIdRead(choices, outcome, rest);
    SimpleTokens(description, id);
    var qt := Tokenize("\"" + description + "\"");
    QuotedThen(description, [id] + rest, ILLEGAL_DECISION);
    SimpleParse(description, qt, outcome, id, choices, rest);
  }

  /** The tokens the effects text of a consequential decision is read as, from entry `i` on:
      each update's tag and amount, the tokens of its quoted status name, and `|` between
      entries. */
  function EffectTokens(updates: Table<StatusUpdate>, i: nat): seq<string>
    requires i <= |updates.keys|
    decreases |updates.keys| - i
  {
    if i == |updates.keys| then []
    else
      var k := updates.keys[i];
      var u := updates.values[k];
      [Tag(u), ToString(Amount(u) as int)] + Tokenize("\"" + k + "\"")
      + (if i < |updates.keys| - 1 then ["|"] else []) + EffectTokens(updates, i + 1)
  }

  /** The first `i` entries of a table, in order. */
  function Prefix<V>(t: Table<V>, i: nat): (r: Table<V>)
    requires i <= |t.keys|
    ensures r.keys == t.keys[..i]
    ensures forall k :: k in r.values <==> k in t.keys[..i]
    ensures forall k :: k in r.values ==> r.values[k] == t.values[k]
  {
    var keys := t.keys[..i];
    assert Distinct(keys) by {
      forall a, b | 0 <= a < b < |keys|
        ensures keys[a] != keys[b]
      {
        assert keys[a] == t.keys[a] && keys[b] == t.keys[b];
      }
    }
    TableRep(keys, map k | k in keys :: t.values[k])
  }

  /** Putting the next entry extends the prefix by one. */
  lemma PrefixStep<V>(t: Table<V>, i: nat)
    requires i < |t.keys|
    ensures Put(Prefix(t, i), t.keys[i], t.values[t.keys[i]]) == Prefix(t, i + 1)
  {
    var k := t.keys[i];
    assert t.keys[..i + 1] == t.keys[..i] + [k];
    assert k !in t.keys[..i] by {
      forall m | 0 <= m < i
        ensures t.keys[..i][m] != k
      {
        assert t.keys[..i][m] == t.keys[m];
      }
    }
    var a, b := Put(Prefix(t, i), k, t.values[k]), Prefix(t, i + 1);
    assert a.values == b.values;
    SameTable(a, b);
  }

  lemma PrefixEnds<V>(t: Table<V>)
    ensures Prefix(t, 0) == Empty() && Prefix(t, |t.keys|) == t
  {
    assert t.keys[..|t.keys|] == t.keys;
    SameTable(Prefix(t, |t.keys|), t);
    SameTable(Prefix(t, 0), Empty());
  }

  /** How the effects text tokenizes, whatever follows it. */
  lemma {:induction false} EffectsTokenize(updates: Table<StatusUpdate>, i: nat, s: string)
    requires i <= |updates.keys|
    ensures Tokenize(EffectsText(updates, i) + s) == EffectTokens(updates, i) + Tokenize(s)
    decreases |updates.keys| - i
  {
    if i < |updates.keys| {
      var k := updates.keys[i];
      var u := updates.values[k];
      var q := "\"" + k + "\"";
      var sep := if i < |updates.keys| - 1 then "| " else "";
      var sepTokens: seq<string> := if i < |updates.keys| - 1 then ["|"] else [];
      var tail := EffectsText(updates, i + 1);
      var head := [Tag(u), ToString(Amount(u) as int)] + Tokenize(q);
      var rest := EffectTokens(updates, i + 1);
      EffectsUnfold(updates, i);
      EntryText(Export(u), k, sep, tail, s);
      EntryTokens(u, q, sep + tail + s);
      EffectsTokenize(updates, i + 1, s);
      SeparatorTokens(sep, sepTokens, tail, s);
      Associative(head + sepTokens, rest, Tokenize(s));
      Associative(head, sepTokens, rest + Tokenize(s));
    } else {
      assert EffectsText(updates, i) + s == s;
    }
  }

  /** One entry of the effects text and of its tokens. */
  lemma EffectsUnfold(updates: Table<StatusUpdate>, i: nat)
    requires i < |updates.keys|
    ensures var k := updates.keys[i];
      var u := updates.values[k];
      var last := i == |updates.keys| - 1;
      && EffectsText(updates, i) == Export(u) + " \"" + k + "\" " + (if last then "" else "| ") + EffectsText(updates, i + 1)
      && EffectTokens(updates, i) == [Tag(u), ToString(Amount(u) as int)] + Tokenize("\"" + k + "\"")
           + (if last then [] else ["|"]) + EffectTokens(updates, i + 1)
  {
  }

  lemma EntryTokens(u: StatusUpdate, q: string, more: string)
    ensures Tokenize(Export(u) + " " + (q + " " + more)) == [Tag(u), ToString(Amount(u) as int)] + Tokenize(q) + Tokenize(more)
  {
    var head, tq, tm := [Tag(u), ToString(Amount(u) as int)], Tokenize(q), Tokenize(more);
    Spaced(q, more);
    Spaced(Export(u), q + " " + more);
    ExportTokens(u);
    Associative(head, tq, tm);
  }

  lemma SeparatorTokens(sep: string, sepTokens: seq<string>, tail: string, s: string)
    requires (sep == "| " && sepTokens == ["|"]) || (sep == "" && sepTokens == [] && tail == "")
    ensures Tokenize(sep + tail + s) == sepTokens + Tokenize(tail + s)
  {
    if sep == "" {
      assert sep + tail + s == s;
    } else {
      Keywords();
      assert sep + tail + s == "|" + " " + (tail + s);
      WordThen("|", tail + s);
    }
  }

  lemma EntryText(e: string, k: string, sep: string, tail: string, s: string)
    ensures e + " \"" + k + "\" " + sep + tail + s == e + " " + ("\"" + k + "\"" + " " + (sep + tail + s))
  {
  }

  /** Status names `export` writes so that they read back the same. */
  predicate SafeNames(updates: Table<StatusUpdate>) {
    forall k :: k in updates.keys ==> SafeText(k)
  }

  /** The effects loop reads the effect tokens back, entry by entry, into the table they came
      from, and stops after the closing `]`. */
  lemma {:induction false} ReadEffectsBack(updates: Table<StatusUpdate>, i: nat, next: string, more: seq<string>)
    requires i < |updates.keys| && SafeNames(updates) && next != "]"
    ensures ReadEffects(next, EffectTokens(updates, i) + ["]"] + more, Prefix(updates, i)) == Success(Parsed(updates, more))
    decreases |updates.keys| - i
  {
    var k := updates.keys[i];
    var u := updates.values[k];
    var e, q := Tokenize(Export(u)), Tokenize("\"" + k + "\"");
    EffectTokensAt(updates, i);
    PrefixStep(updates, i);
    if i == |updates.keys| - 1 {
      LastLayout(e, q, EffectTokens(updates, i + 1), more);
      ReadEntry(u, k, Prefix(updates, i), next, "]", more);
      PrefixEnds(updates);
    } else {
      var further := EffectTokens(updates, i + 1) + ["]"] + more;
      InnerLayout(e, q, EffectTokens(updates, i + 1), more);
      ReadEntry(u, k, Prefix(updates, i), next, "|", further);
      ReadEffectsBack(updates, i + 1, "|", more);
    }
  }

  /** The effect tokens from entry `i` on: the entry's update and name, its separator, and the rest. */
  lemma EffectTokensAt(updates: Table<StatusUpdate>, i: nat)
    requires i < |updates.keys|
    ensures var k := updates.keys[i];
      EffectTokens(updates, i) == Tokenize(Export(updates.values[k])) + Tokenize("\"" + k + "\"")
        + (if i < |updates.keys| - 1 then ["|"] else []) + EffectTokens(updates, i + 1)
    ensures i == |updates.keys| - 1 ==> EffectTokens(updates, i + 1) == []
  {
    ExportTokens(updates.values[updates.keys[i]]);
  }

  /** One round of the effects loop: an update, its status name and a separator. */
  lemma ReadEntry(u: StatusUpdate, k: string, acc: Table<StatusUpdate>, next: string, w: string, rest: seq<string>)
    requires SafeText(k) && next != "]" && w in ["]", "|"]
    ensures ReadEffects(next, Tokenize(Export(u)) + Tokenize("\"" + k + "\"") + [w] + rest, acc)
      == ReadEffects(w, rest, Put(acc, k, u))
  {
    var after := [w] + rest;
    var named := Tokenize("\"" + k + "\"") + after;
    assert Tokenize(Export(u)) + Tokenize("\"" + k + "\"") + [w] + rest == Tokenize(Export(u)) + named;
    ImportExport(u, named);
    QuotedThen(k, after, ILLEGAL_DECISION);
    UnquotedToken(w, rest, ILLEGAL_DECISION);
  }

  lemma LastLayout(e: seq<string>, q: seq<string>, tail: seq<string>, more: seq<string>)
    requires tail == []
    ensures e + q + [] + tail + ["]"] + more == e + q + ["]"] + more
  {
  }

  lemma InnerLayout(e: seq<string>, q: seq<string>, tail: seq<string>, more: seq<string>)
    ensures e + q + ["|"] + tail + ["]"] + more == e + q + ["|"] + (tail + ["]"] + more)
  {
  }

  /** The tokens of a consequential decision's export. */
  lemma ConsequentialTokens(description: string, updates: Table<StatusUpdate>, id: string)
    requires IsWord(id)
    ensures Tokenize("CONSEQUENTIAL \"" + description + "\" [ " + EffectsText(updates, 0) + "] " + id)
      == ["CONSEQUENTIAL"] + Tokenize("\"" + description + "\"") + ["["] + EffectTokens(updates, 0) + ["]", id]
  {
    var q := "\"" + description + "\"";
    var e := EffectsText(updates, 0);
    var close := "]" + " " + id;
    var effects := e + close;
    var bracketed := "[" + " " + effects;
    ConsequentialText(description, e, id);
    Keywords();
    WordThen("CONSEQUENTIAL", q + " " + bracketed);
    Spaced(q, bracketed);
    WordThen("[", effects);
    EffectsTokenize(updates, 0, close);
    WordThen("]", id);
    TokenizeWord(id);
    ConsequentialLayout(Tokenize(q), EffectTokens(updates, 0), id);
  }

  lemma ConsequentialLayout(qt: seq<string>, et: seq<string>, id: string)
    ensures ["CONSEQUENTIAL"] + (qt + (["["] + (et + (["]"] + [id])))) == ["CONSEQUENTIAL"] + qt + ["["] + et + ["]", id]
  {
  }

  lemma ConsequentialText(description: string, e: string, id: string)
    ensures "CONSEQUENTIAL \"" + description + "\" [ " + e + "] " + id
      == "CONSEQUENTIAL" + " " + ("\"" + description + "\"" + " " + ("[" + " " + (e + ("]" + " " + id))))
  {
    var q := "\"" + description + "\"";
    assert "CONSEQUENTIAL \"" == "CONSEQUENTIAL" + " " + "\"";
    assert "\" [ " == "\"" + " " + "[" + " ";
    assert "] " == "]" + " ";
    Associative("CONSEQUENTIAL" + " ", "\"", description);
    Associative("CONSEQUENTIAL" + " ", "\"" + description, "\" [ ");
  }

  /** How a consequential decision is read: the keyword, the description, the opener, the
      effects up to their `]`, and the choice. */
  lemma ConsequentialParse(description: string, qt: seq<string>, body: seq<string>, updates: Table<StatusUpdate>,
                           mid: seq<string>, outcome: ChoiceId, choices: seq<ChoiceId>, rest: seq<string>)
    requires QuotedToken(qt + (["["] + body), ILLEGAL_DECISION) == Success(Parsed(description, ["["] + body))
    requires ReadEffects("[", body, Empty()) == Success(Parsed(updates, mid))
    requires GetChoice(mid, choices) == Success(Parsed(outcome, rest))
    ensures ImportDecision(["CONSEQUENTIAL"] + (qt + (["["] + body)), choices)
      == Success(Parsed(Consequential(description, outcome, updates), rest))
  {
    UnquotedToken("CONSEQUENTIAL", qt + (["["] + body), ILLEGAL_DECISION);
    UnquotedToken("[", body, ILLEGAL_DECISION);
    DropNullsOfLift(updates);
  }

  /** Round trip of a consequential decision with at least one effect. */
  lemma ConsequentialRoundTrip(description: string, outcome: ChoiceId, updates: Table<StatusUpdate>,
                               choices: seq<ChoiceId>, rest: seq<string>)
    requires Numbering(choices) && outcome in choices && SafeText(description)
    requires |updates.keys| > 0 && SafeNames(updates)
    ensures var text := ExportDecision(Consequential(description, outcome, updates), ChoiceIds(choices));
      && text.Success?
      && ImportDecision(Tokenize(text.value) + rest, choices) == Success(Parsed(Consequential(description, outcome, updates), rest))
  {
    var id := ChoiceIds(choices)[outcome];
    var text := "CONSEQUENTIAL \"" + description + "\" [ " + EffectsText(updates, 0) + "] " + id;
    assert ExportDecision(Consequential(description, outcome, updates), ChoiceIds(choices)) == Success(text);
    ChoiceIdRead(choices, outcome, rest);
    ConsequentialReads(description, outcome, updates, id, choices, rest);
  }

  lemma ConsequentialReads(description: string, outcome: ChoiceId, updates: Table<StatusUpdate>, id: string,
                           choices: seq<ChoiceId>, rest: seq<string>)
    requires SafeText(description) && |updates.keys| > 0 && SafeNames(updates)
    requires IsWord(id) && GetChoice([id] + rest, choices) == Success(Parsed(outcome, rest))
    ensures ImportDecision(Tokenize("CONSEQUENTIAL \"" + description + "\" [ " + EffectsText(updates, 0) + "] " + id) + rest, choices)
      == Success(Parsed(Consequential(description, outcome, updates), rest))
  {
    var qt := Tokenize("\"" + description + "\"");
    var et := EffectTokens(updates, 0);
    var mid := [id] + rest;
    var body := et + ["]"] + mid;
    ConsequentialTokens(description, updates, id);
    ConsequentialLayout2(qt, et, id, rest);
    QuotedThen(description, ["["] + body, ILLEGAL_DECISION);
    ReadEffectsBack(updates, 0, "[", mid);
    PrefixEnds(updates);
    ConsequentialParse(description, qt, body, updates, mid, outcome, choices, rest);
  }

  lemma ConsequentialLayout2(qt: seq<string>, et: seq<string>, id: string, rest: seq<string>)
    ensures ["CONSEQUENTIAL"] + qt + ["["] + et + ["]", id] + rest == ["CONSEQUENTIAL"] + (qt + (["["] + (et + ["]"] + ([id] + rest))))
  {
  }

  /** The tokens of a determiner's export. */
  lemma DeterminerTokens(dependency: string, threshold: int32, below: string, meets: string)
    requires IsWord(below) && IsWord(meets)
    ensures Tokenize("TWOTHRESHOLD \"" + dependency + "\" " + ToString(threshold as int) + " " + below + " " + meets)
      == ["TWOTHRESHOLD"] + Tokenize("\"" + dependency + "\"") + [ToString(threshold as int), below, meets]
  {
    var q := "\"" + dependency + "\"";
    var n := ToString(threshold as int);
    var ids := below + " " + meets;
    DeterminerText(dependency, n, below, meets);
    Keywords();
    PrintedIntIsWord(threshold as int);
    WordThen("TWOTHRESHOLD", q + " " + (n + " " + ids));
    Spaced(q, n + " " + ids);
    WordThen(n, ids);
    TokenizeTwoWords(below, meets);
    DeterminerLayout(Tokenize(q), n, below, meets);
  }

  lemma DeterminerLayout(qt: seq<string>, n: string, below: string, meets: string)
    ensures ["TWOTHRESHOLD"] + (qt + ([n] + [below, meets])) == ["TWOTHRESHOLD"] + qt + [n, below, meets]
  {
  }

  lemma DeterminerText(dependency: string, n: string, below: string, meets: string)
    ensures "TWOTHRESHOLD \"" + dependency + "\" " + n + " " + below + " " + meets
      == "TWOTHRESHOLD" + " " + ("\"" + dependency + "\"" + " " + (n + " " + (below + " " + meets)))
  {
    assert "TWOTHRESHOLD \"" == "TWOTHRESHOLD" + " " + "\"";
    assert "\" " == "\"" + " ";
  }

  /** How a determiner is read: the keyword, the dependency, the threshold and the two choices. */
  lemma DeterminerParse(dependency: string, qt: seq<string>, a: seq<string>, threshold: int32, b: seq<string>,
                        below: ChoiceId, c: seq<string>, meets: ChoiceId, choices: seq<ChoiceId>, rest: seq<string>)
    requires QuotedToken(qt + a, ILLEGAL_DETERMINER) == Success(Parsed(dependency, a))
    requires NextInt(a, ILLEGAL_DETERMINER) == Success(Parsed(threshold, b))
    requires GetChoice(b, choices) == Success(Parsed(below, c))
    requires GetChoice(c, choices) == Success(Parsed(meets, rest))
    ensures ImportDeterminer(["TWOTHRESHOLD"] + (qt + a), choices)
      == Success(Parsed(TwoThreshold(dependency, threshold, below, meets), rest))
  {
    UnquotedToken("TWOTHRESHOLD", qt + a, ILLEGAL_DETERMINER);
  }

  /** Round trip of a determiner. */
  lemma DeterminerRoundTrip(det: Determiner, choices: seq<ChoiceId>, rest: seq<string>)
    requires Numbering(choices) && det.below in choices && det.meets in choices && SafeText(det.dependency)
    ensures var text := ExportDeterminer(det, ChoiceIds(choices));
      && text.Success?
      && ImportDeterminer(Tokenize(text.value) + rest, choices) == Success(Parsed(det, rest))
  {
    var ids := ChoiceIds(choices);
    var n := ToString(det.threshold as int);
    var text := "TWOTHRESHOLD \"" + det.dependency + "\" " + n + " " + ids[det.below] + " " + ids[det.meets];
    assert ExportDeterminer(det, ids) == Success(text);
    var qt := Tokenize("\"" + det.dependency + "\"");
    var c := [ids[det.meets]] + rest;
    var b := [ids[det.below]] + c;
    var a := [n] + b;
    ChoiceIdRead(choices, det.below, c);
    ChoiceIdRead(choices, det.meets, rest);
    DeterminerTokens(det.dependency, det.threshold, ids[det.below], ids[det.meets]);
    DeterminerSplit(qt, n, ids[det.below], ids[det.meets], rest);
    QuotedThen(det.dependency, a, ILLEGAL_DETERMINER);
    ThresholdRead(det.threshold, b);
    DeterminerParse(det.dependency, qt, a, det.threshold, b, det.below, c, det.meets, choices, rest);
  }

  lemma DeterminerSplit(qt: seq<string>, n: string, below: string, meets: string, rest: seq<string>)
    ensures ["TWOTHRESHOLD"] + qt + [n, below, meets] + rest == ["TWOTHRESHOLD"] + (qt + ([n] + ([below] + ([meets] + rest))))
  {
  }

  /** A printed threshold reads back as itself. */
  lemma ThresholdRead(threshold: int32, more: seq<string>)
    ensures NextInt([ToString(threshold as int)] + more, ILLEGAL_DETERMINER) == Success(Parsed(threshold, more))
  {
    ParseToString(threshold);
    assert ([ToString(threshold as int)] + more)[1..] == more;
  }

  /** The tokens of a dependent decision's export. */
  lemma DependentTokens(det: string, del: string)
    ensures Tokenize("DEPENDENT " + det + " [ " + del + " ]") == ["DEPENDENT"] + Tokenize(det) + ["["] + Tokenize(del) + ["]"]
  {
    DependentText(det, del);
    Keywords();
    WordThen("DEPENDENT", det + " " + ("[" + " " + (del + " " + "]")));
    Spaced(det, "[" + " " + (del + " " + "]"));
    WordThen("[", del + " " + "]");
    ThenWord(del, "]");
    DependentLayout(Tokenize(det), Tokenize(del));
  }

  lemma DependentLayout(dt: seq<string>, lt: seq<string>)
    ensures ["DEPENDENT"] + (dt + (["["] + (lt + ["]"]))) == ["DEPENDENT"] + dt + ["["] + lt + ["]"]
  {
  }

  lemma DependentText(det: string, del: string)
    ensures "DEPENDENT " + det + " [ " + del + " ]" == "DEPENDENT" + " " + (det + " " + ("[" + " " + (del + " " + "]")))
  {
    assert "DEPENDENT " == "DEPENDENT" + " ";
    assert " [ " == " " + "[" + " ";
    assert " ]" == " " + "]";
  }

  /** How a dependent decision is read: the keyword, the determiner, the opener and the delegate,
      whose closing token is left unread. */
  lemma DependentParse(dt: seq<string>, determiner: Determiner, lt: seq<string>, delegate: Decision,
                       left: seq<string>, choices: seq<ChoiceId>)
    requires ImportDeterminer(dt + (["["] + lt), choices) == Success(Parsed(determiner, ["["] + lt))
    requires ImportDecision(lt, choices) == Success(Parsed(delegate, left))
    ensures ImportDecision(["DEPENDENT"] + (dt + (["["] + lt)), choices) == Success(Parsed(Dependent(delegate, determiner), left))
  {
    UnquotedToken("DEPENDENT", dt + (["["] + lt), ILLEGAL_DECISION);
    UnquotedToken("[", lt, ILLEGAL_DECISION);
  }

  /** `importDecision` reads back what `export` wrote: the decision itself, with one closing
      `]` per dependent level left in front of whatever followed. */
  predicate ReadsBack(d: Decision, choices: seq<ChoiceId>, rest: seq<string>) {
    var text := ExportDecision(d, ChoiceIds(choices));
    && text.Success?
    && ImportDecision(Tokenize(text.value) + rest, choices) == Success(Parsed(d, Closers(d) + rest))
  }

  /** Every writable decision over a numbering of its choices reads back. */
  lemma {:induction false} RoundTrip(d: Decision, choices: seq<ChoiceId>, rest: seq<string>)
    requires Numbering(choices) && Writable(d)
    requires forall c :: c in ReferencedChoices(d) ==> c in choices
    ensures ReadsBack(d, choices, rest)
    decreases d, 1
  {
    match d
    case Simple(description, outcome) =>
      SimpleRoundTrip(description, outcome, choices, rest);
      assert Closers(d) + rest == rest;
    case Consequential(description, outcome, updates) =>
      ConsequentialRoundTrip(description, outcome, updates, choices, rest);
      assert Closers(d) + rest == rest;
    case Dependent(delegate, determiner) =>
      DependentRoundTrip(delegate, determiner, choices, rest);
  }

  lemma {:induction false} DependentRoundTrip(delegate: Decision, determiner: Determiner, choices: seq<ChoiceId>, rest: seq<string>)
    requires Numbering(choices) && Writable(delegate) && SafeText(determiner.dependency)
    requires forall c :: c in ReferencedChoices(Dependent(delegate, determiner)) ==> c in choices
    ensures ReadsBack(Dependent(delegate, determiner), choices, rest)
    decreases Dependent(delegate, determiner), 0
  {
    var ids := ChoiceIds(choices);
    assert determiner.below in choices && determiner.meets in choices;
    assert forall c :: c in ReferencedChoices(delegate) ==> c in choices;
    RoundTrip(delegate, choices, ["]"] + rest);
    var del := ExportDecision(delegate, ids).value;
    var lt := Tokenize(del) + (["]"] + rest);
    DeterminerRoundTrip(determiner, choices, ["["] + lt);
    var det := ExportDeterminer(determiner, ids).value;
    assert ExportDecision(Dependent(delegate, determiner), ids) == Success("DEPENDENT " + det + " [ " + del + " ]");
    DependentTokens(det, del);
    var dt := Tokenize(det);
    DependentSplit(dt, Tokenize(del), rest);
    DependentParse(dt, determiner, lt, delegate, Closers(delegate) + (["]"] + rest), choices);
    Associative(Closers(delegate), ["]"], rest);
  }

  lemma DependentSplit(dt: seq<string>, lt: seq<string>, rest: seq<string>)
    ensures ["DEPENDENT"] + dt + ["["] + lt + ["]"] + rest == ["DEPENDENT"] + (dt + (["["] + (lt + (["]"] + rest))))
  {
  }

  /** A consequential decision without effects is written as `[ ]`, and the reader takes the `]`
      for the first update's tag: the file does not read back. */
  lemma NoEffectsFail(description: string, outcome: ChoiceId, updates: Table<StatusUpdate>,
                      choices: seq<ChoiceId>, rest: seq<string>)
    requires Numbering(choices) && outcome in choices && SafeText(description) && |updates.keys| == 0
    ensures var text := ExportDecision(Consequential(description, outcome, updates), ChoiceIds(choices));
      && text.Success?
      && ImportDecision(Tokenize(text.value) + rest, choices) == Failure(IllegalArgument(ILLEGAL_FORMAT_MESSAGE))
  {
    var id := ChoiceIds(choices)[outcome];
    var text := "CONSEQUENTIAL \"" + description + "\" [ " + EffectsText(updates, 0) + "] " + id;
    assert ExportDecision(Consequential(description, outcome, updates), ChoiceIds(choices)) == Success(text);
    ChoiceIdRead(choices, outcome, rest);
    ConsequentialTokens(description, updates, id);
    var qt := Tokenize("\"" + description + "\"");
    var et := EffectTokens(updates, 0);
    var body := et + ["]"] + ([id] + rest);
    ConsequentialLayout2(qt, et, id, rest);
    QuotedThen(description, ["["] + body, ILLEGAL_DECISION);
    ClosedTooSoon(description, qt, et, body, id, choices, rest);
  }

  lemma ClosedTooSoon(description: string, qt: seq<string>, et: seq<string>, body: seq<string>, id: string,
                      choices: seq<ChoiceId>, rest: seq<string>)
    requires et == [] && body == et + ["]"] + ([id] + rest)
    requires QuotedToken(qt + (["["] + body), ILLEGAL_DECISION) == Success(Parsed(description, ["["] + body))
    ensures ImportDecision(["CONSEQUENTIAL"] + (qt + (["["] + body)), choices) == Failure(IllegalArgument(ILLEGAL_FORMAT_MESSAGE))
  {
    UnquotedToken("CONSEQUENTIAL", qt + (["["] + body), ILLEGAL_DECISION);
    UnquotedToken("[", body, ILLEGAL_DECISION);
    assert body == ["]", id] + rest;
    ImportSimpleTokens("]", id, rest);
  }
}
