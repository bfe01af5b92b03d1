/** `utils.IOUtils`: reading from a `java.util.Scanner`. A scanner over a text is the sequence of
    its whitespace-separated tokens (`Tokenize`); reading consumes tokens from the front. */
module IOUtils {
  import opened Wrappers
  import opened JavaInt

  /** `Character.isWhitespace`, the scanner's default delimiter. */
  predicate IsWhitespace(c: char) {
    || c == ' ' || c == '\t' || c == '\n' || c == '\U{000B}' || c == '\U{000C}' || c == '\r'
    || ('\U{001C}' <= c <= '\U{001F}')
    || c == '\U{1680}' || ('\U{2000}' <= c <= '\U{2006}') || ('\U{2008}' <= c <= '\U{200A}')
    || c == '\U{2028}' || c == '\U{2029}' || c == '\U{205F}' || c == '\U{3000}'
  }

  /** A token the scanner can return: non-empty and free of whitespace. */
  predicate IsWord(w: string) {
    |w| > 0 && forall i :: 0 <= i < |w| ==> !IsWhitespace(w[i])
  }

  /** The length of the token at the start of `s`. */
  function WordLength(s: string): (n: nat)
    requires |s| > 0 && !IsWhitespace(s[0])
    ensures 0 < n <= |s|
    ensures forall i :: 0 <= i < n ==> !IsWhitespace(s[i])
    ensures n == |s| || IsWhitespace(s[n])
  {
    if |s| == 1 || IsWhitespace(s[1]) then 1 else 1 + WordLength(s[1..])
  }

  /** The tokens of a text, in order. */
  function Tokenize(s: string): (r: seq<string>)
    ensures forall i :: 0 <= i < |r| ==> IsWord(r[i])
    decreases |s|
  {
    if |s| == 0 then []
    else if IsWhitespace(s[0]) then Tokenize(s[1..])
    else
      var n := WordLength(s);
      [s[..n]] + Tokenize(s[n..])
  }

  lemma {:induction false} TokenizeWord(w: string)
    requires IsWord(w)
    ensures Tokenize(w) == [w]
  {
    assert WordLength(w) == |w| by { WordLengthOfWord(w); }
    assert w[..|w|] == w && w[|w|..] == [];
  }

  lemma {:induction false} WordLengthOfWord(w: string)
    requires IsWord(w)
    ensures WordLength(w) == |w|
    decreases |w|
  {
    if |w| > 1 {
      WordLengthOfWord(w[1..]);
    }
  }

  /** The token at the start of `a + b` lies inside `a` when `a` ends with whitespace or `b`
      starts with it. */
  lemma {:induction false} WordLengthAppend(a: string, b: string)
    requires |a| > 0 && !IsWhitespace(a[0])
    requires IsWhitespace(a[|a| - 1]) || (|b| > 0 && IsWhitespace(b[0]))
    ensures WordLength(a + b) == WordLength(a)
    decreases |a|
  {
    var s := a + b;
    if |a| == 1 {
      assert s[1] == b[0];
    } else {
      assert s[1] == a[1];
      if !IsWhitespace(a[1]) {
        assert s[1..] == a[1..] + b;
        WordLengthAppend(a[1..], b);
      }
    }
  }

  /** Tokens never straddle whitespace, so two texts joined by one whitespace character
      tokenize piecewise. */
  lemma {:induction false} TokenizeJoin(a: string, c: char, b: string)
    requires IsWhitespace(c)
    ensures Tokenize(a + [c] + b) == Tokenize(a) + Tokenize(b)
    decreases |a|
  {
    var s := a + [c] + b;
    if |a| == 0 {
      assert s == [c] + b && s[1..] == b;
    } else if IsWhitespace(a[0]) {
      assert s[0] == a[0] && s[1..] == a[1..] + [c] + b;
      TokenizeJoin(a[1..], c, b);
    } else {
      assert s[0] == a[0];
      var n := WordLength(a);
      assert s == a + ([c] + b);
      WordLengthAppend(a, [c] + b);
      assert s[..n] == a[..n] && s[n..] == a[n..] + [c] + b;
      TokenizeJoin(a[n..], c, b);
    }
  }

  /** Two tokens written with one space between them are read back as those two tokens. */
  lemma TokenizeTwoWords(a: string, b: string)
    requires IsWord(a) && IsWord(b)
    ensures Tokenize(a + " " + b) == [a, b]
  {
    TokenizeJoin(a, ' ', b);
    TokenizeWord(a);
    TokenizeWord(b);
  }

  /** `tryNext`: the next token; a token opening with `"` is joined, by single spaces, with the
      tokens that follow (each read by `tryNext` in turn) until the joined text ends with `"`,
      and then loses its first and last character. */
  function QuotedToken(ts: seq<string>, msg: string): (r: Result<Parsed<string>>)
    ensures r.Success? ==> |r.value.rest| < |ts|
    decreases |ts|, 1
  {
    if |ts| == 0 then Failure(IllegalArgument(msg))
    else
      var t := ts[0];
      if |t| == 0 then Failure(StringIndexOutOfBounds)
      else if t[0] != '"' then Success(Parsed(t, ts[1..]))
      else
        match Absorb(t, ts[1..], msg)
        case Failure(e) => Failure(e)
        case Success(joined) =>
          if |joined.value| < 2 then Failure(StringIndexOutOfBounds)
          else Success(Parsed(joined.value[1..|joined.value| - 1], joined.rest))
  }

  /** The loop of `tryNext`: keeps appending `" " + tryNext` to `acc` until it ends with `"`. */
  function Absorb(acc: string, ts: seq<string>, msg: string): (r: Result<Parsed<string>>)
    requires |acc| > 0
    ensures r.Success? ==> |r.value.rest| <= |ts|
    ensures r.Success? ==> |r.value.value| > 0 && r.value.value[|r.value.value| - 1] == '"'
    decreases |ts| + 1, 0
  {
    if acc[|acc| - 1] == '"' then Success(Parsed(acc, ts))
    else
      match QuotedToken(ts, msg)
      case Failure(e) => Failure(e)
      case Success(next) => Absorb(acc + " " + next.value, next.rest, msg)
  }

  /** A text that survives being written between quotes and read back by `tryNext`: no `"`, no
      whitespace but single spaces between words, and no space at either end. */
  predicate SafeText(s: string) {
    && (forall i :: 0 <= i < |s| ==> s[i] != '"' && (IsWhitespace(s[i]) ==> s[i] == ' '))
    && (|s| > 0 ==> s[0] != ' ' && s[|s| - 1] != ' ')
    && (forall i :: 0 <= i < |s| - 1 ==> s[i] == ' ' ==> s[i + 1] != ' ')
  }

  /** The position of the first space in `s`, or `|s|` if there is none. */
  function FirstSpace(s: string): (i: nat)
    ensures i <= |s|
    ensures forall j :: 0 <= j < i ==> s[j] != ' '
    ensures i < |s| ==> s[i] == ' '
  {
    if |s| == 0 || s[0] == ' ' then 0 else 1 + FirstSpace(s[1..])
  }

  /** A safe text with a space is a word, a space, and a shorter safe text. */
  lemma SafeTextSplit(s: string)
    requires SafeText(s) && FirstSpace(s) < |s|
    ensures var i := FirstSpace(s);
      && 0 < i < |s| - 1 && s == s[..i] + " " + s[i + 1..]
      && IsWord(s[..i]) && s[i - 1] != '"'
      && SafeText(s[i + 1..]) && |s[i + 1..]| > 0
  {
    var i := FirstSpace(s);
    assert 0 < i < |s| - 1;
    assert s == s[..i] + [s[i]] + s[i + 1..];
    var w := s[..i];
    forall j | 0 <= j < |w|
      ensures !IsWhitespace(w[j])
    {
      assert w[j] == s[j] && s[j] != ' ';
    }
    var t := s[i + 1..];
    assert t[0] == s[i + 1] && t[|t| - 1] == s[|s| - 1];
    forall j | 0 <= j < |t|
      ensures t[j] != '"' && (IsWhitespace(t[j]) ==> t[j] == ' ')
    {
      assert t[j] == s[i + 1 + j];
    }
    forall j | 0 <= j < |t| - 1
      ensures t[j] == ' ' ==> t[j + 1] != ' '
    {
      assert t[j] == s[i + 1 + j] && t[j + 1] == s[i + 1 + j + 1];
    }
  }

  /** A safe text without a space is a single word (or empty). */
  lemma SafeTextNoSpace(s: string)
    requires SafeText(s) && FirstSpace(s) == |s|
    ensures forall j :: 0 <= j < |s| ==> !IsWhitespace(s[j]) && s[j] != '"'
  {
  }

  /** One round of the loop of `tryNext` over an unquoted token. */
  lemma AbsorbStep(acc: string, w: string, ts: seq<string>, msg: string)
    requires |acc| > 0 && acc[|acc| - 1] != '"'
    requires |w| > 0 && w[0] != '"'
    ensures Absorb(acc, [w] + ts, msg) == Absorb(acc + " " + w, ts, msg)
  {
    UnquotedToken(w, ts, msg);
  }

  /** The last token of a quoted text ends the loop of `tryNext`. */
  lemma AbsorbLastWord(acc: string, s: string, rest: seq<string>, msg: string)
    requires |acc| > 0 && acc[|acc| - 1] != '"'
    requires SafeText(s) && |s| > 0 && FirstSpace(s) == |s|
    ensures Absorb(acc, Tokenize(s + "\"") + rest, msg) == Success(Parsed(acc + " " + s + "\"", rest))
  {
    var u := s + "\"";
    SafeTextNoSpace(s);
    assert IsWord(u) by {
      assert forall j :: 0 <= j < |s| ==> u[j] == s[j];
    }
    TokenizeWord(u);
    AbsorbStep(acc, u, rest, msg);
    var acc2 := acc + " " + u;
    assert acc2[|acc2| - 1] == '"';
    assert acc + " " + s + "\"" == acc2;
  }

  /** The tokens of a quoted safe text after its first word. */
  lemma TokenizeSafeTail(s: string)
    requires SafeText(s) && FirstSpace(s) < |s|
    ensures var i := FirstSpace(s);
      Tokenize(s + "\"") == [s[..i]] + Tokenize(s[i + 1..] + "\"")
  {
    SafeTextSplit(s);
    var i := FirstSpace(s);
    var w, s3 := s[..i], s[i + 1..];
    assert s + "\"" == w + [' '] + (s3 + "\"");
    TokenizeJoin(w, ' ', s3 + "\"");
    TokenizeWord(w);
  }

  /** The loop of `tryNext` over the rest of a quoted safe text: it absorbs exactly the tokens of
      `s` and the closing quote, and nothing after them. */
  lemma {:induction false} AbsorbSafe(acc: string, s: string, rest: seq<string>, msg: string)
    requires |acc| > 0 && acc[|acc| - 1] != '"'
    requires SafeText(s) && |s| > 0
    ensures Absorb(acc, Tokenize(s + "\"") + rest, msg) == Success(Parsed(acc + " " + s + "\"", rest))
    decreases |s|
  {
    if FirstSpace(s) == |s| {
      AbsorbLastWord(acc, s, rest, msg);
    } else {
      SafeTextSplit(s);
      TokenizeSafeTail(s);
      var i := FirstSpace(s);
      var w, s3 := s[..i], s[i + 1..];
      var ts := Tokenize(s3 + "\"") + rest;
      assert Tokenize(s + "\"") + rest == [w] + ts;
      AbsorbStep(acc, w, ts, msg);
      var acc2 := acc + " " + w;
      assert acc2[|acc2| - 1] == w[|w| - 1];
      AbsorbSafe(acc2, s3, rest, msg);
      JoinLayout(acc, w, s3);
    }
  }

  /** Joining `w` and then `s3` after `acc` is joining `w s3` after it. */
  lemma JoinLayout(acc: string, w: string, s3: string)
    ensures (acc + " " + w) + " " + s3 + "\"" == acc + " " + (w + " " + s3) + "\""
  {
    var a, b := (acc + " " + w) + " " + s3 + "\"", acc + " " + (w + " " + s3) + "\"";
    assert |a| == |b|;
    forall j | 0 <= j < |a|
      ensures a[j] == b[j]
    {
      if j < |acc| {
      } else if j < |acc| + 1 + |w| {
      } else {
      }
    }
  }

  /** Writing a safe text between quotes and reading it back with `tryNext` gives the text and
      consumes exactly its tokens. */
  lemma QuotedRoundTrip(s: string, rest: seq<string>, msg: string)
    requires SafeText(s)
    ensures QuotedToken(Tokenize("\"" + s + "\"") + rest, msg) == Success(Parsed(s, rest))
  {
    if FirstSpace(s) == |s| {
      QuotedWord(s, rest, msg);
    } else {
      QuotedWords(s, rest, msg);
    }
  }

  /** A quoted text without a space is a single token. */
  lemma QuotedWord(s: string, rest: seq<string>, msg: string)
    requires SafeText(s) && FirstSpace(s) == |s|
    ensures QuotedToken(Tokenize("\"" + s + "\"") + rest, msg) == Success(Parsed(s, rest))
  {
    var q := "\"" + s + "\"";
    SafeTextNoSpace(s);
    assert IsWord(q) by {
      assert forall j :: 0 <= j < |s| ==> q[j + 1] == s[j];
    }
    TokenizeWord(q);
    assert ([q] + rest)[0] == q && ([q] + rest)[1..] == rest;
    assert Absorb(q, rest, msg) == Success(Parsed(q, rest));
    assert q[1..|q| - 1] == s;
  }

  /** A quoted text with spaces opens with its first word and the loop absorbs the rest. */
  lemma QuotedWords(s: string, rest: seq<string>, msg: string)
    requires SafeText(s) && FirstSpace(s) < |s|
    ensures QuotedToken(Tokenize("\"" + s + "\"") + rest, msg) == Success(Parsed(s, rest))
  {
    var q := "\"" + s + "\"";
    SafeTextSplit(s);
    var i := FirstSpace(s);
    var w, s2 := s[..i], s[i + 1..];
    var t := "\"" + w;
    QuoteLayout(w, s2);
    TokenizeJoin(t, ' ', s2 + "\"");
    OpenQuoteWord(w);
    TokenizeWord(t);
    var ts := Tokenize(s2 + "\"") + rest;
    assert Tokenize(q) + rest == [t] + ts;
    assert ([t] + ts)[0] == t && ([t] + ts)[1..] == ts;
    assert t[|t| - 1] == w[|w| - 1];
    AbsorbSafe(t, s2, rest, msg);
    Unquote(s);
  }

  /** A word after an opening quote is still a word. */
  lemma OpenQuoteWord(w: string)
    requires IsWord(w)
    ensures IsWord("\"" + w)
  {
    var t := "\"" + w;
    assert forall j :: 0 <= j < |w| ==> t[j + 1] == w[j];
  }

  /** The places of the space and the quotes in a quoted text with a space. */
  lemma QuoteLayout(w: string, s2: string)
    ensures "\"" + (w + " " + s2) + "\"" == ("\"" + w) + [' '] + (s2 + "\"")
    ensures ("\"" + w) + " " + s2 + "\"" == "\"" + (w + " " + s2) + "\""
  {
    var a := "\"" + (w + " " + s2) + "\"";
    var b := ("\"" + w) + [' '] + (s2 + "\"");
    var c := ("\"" + w) + " " + s2 + "\"";
    assert |a| == |b| == |c|;
    forall j | 0 <= j < |a|
      ensures a[j] == b[j] == c[j]
    {
      if j == 0 {
      } else if j <= |w| {
      } else if j == |w| + 1 {
      } else if j < |a| - 1 {
      } else {
      }
    }
  }

  /** Dropping the quotes of a quoted text. */
  lemma Unquote(s: string)
    ensures var q := "\"" + s + "\""; q[1..|q| - 1] == s
  {
    var q := "\"" + s + "\"";
    assert forall j :: 0 <= j < |s| ==> q[1..|q| - 1][j] == s[j];
  }

  /** `tryNext` on an unquoted token returns it and consumes only it. */
  lemma UnquotedToken(t: string, rest: seq<string>, msg: string)
    requires |t| > 0 && t[0] != '"'
    ensures QuotedToken([t] + rest, msg) == Success(Parsed(t, rest))
  {
    assert ([t] + rest)[0] == t && ([t] + rest)[1..] == rest;
  }

  /** The cases of `tryNext` that the engine's tests pin down. */
  lemma TryNextExamples(msg: string)
    ensures QuotedToken([], msg) == Failure(IllegalArgument(msg))
    ensures QuotedToken(["\"\"friend\"\""], msg) == Success(Parsed("\"friend\"", []))
    ensures QuotedToken(["\"\"\"\""], msg) == Success(Parsed("\"\"", []))
    ensures QuotedToken(["\"my", "friend\"", "x"], msg) == Success(Parsed("my friend", ["x"]))
    ensures QuotedToken(["\"my", "friend"], msg) == Failure(IllegalArgument(msg))
    ensures QuotedToken(["\""], msg) == Failure(StringIndexOutOfBounds)
  {
    var a := "\"\"friend\"\"";
    assert a[1..|a| - 1] == "\"friend\"";
    var b := "\"\"\"\"";
    assert b[1..|b| - 1] == "\"\"";
    assert ["\"my", "friend\"", "x"][1..] == ["friend\"", "x"];
    assert ["friend\"", "x"][1..] == ["x"];
    var c := "\"my" + " " + "friend\"";
    assert c[1..|c| - 1] == "my friend";
    assert ["\"my", "friend"][1..] == ["friend"];
    assert ["friend"][1..] == [];
  }

  /** The decimal form of an int is one token. */
  lemma PrintedIntIsWord(x: int)
    ensures IsWord(ToString(x))
  {
    var s := ToString(x);
    if x < 0 {
      assert forall i :: 1 <= i < |s| ==> s[i] == NatToString(-x)[i - 1];
    }
  }

  /** A `java.util.Scanner`: the tokens it has not returned yet. */
  class Scanner {
    var tokens: seq<string>

    /** `new Scanner(text)`. */
    constructor (text: string)
      ensures tokens == Tokenize(text)
    {
      tokens := Tokenize(text);
    }

    /** `IOUtils.tryNext(this, msg)`. On failure the scanner has consumed what Java's would have,
        which no caller reads again. */
    method TryNext(msg: string) returns (r: Result<string>)
      modifies this
      ensures QuotedToken(old(tokens), msg).Success? <==> r.Success?
      ensures r.Success? ==> r.value == QuotedToken(old(tokens), msg).value.value
      ensures r.Success? ==> tokens == QuotedToken(old(tokens), msg).value.rest
      ensures r.Failure? ==> r.error == QuotedToken(old(tokens), msg).error
      decreases |tokens|
    {
      if |tokens| == 0 {
        return Failure(IllegalArgument(msg));
      }
      var next := tokens[0];
      tokens := tokens[1..];
      if |next| == 0 {
        return Failure(StringIndexOutOfBounds);
      }
      if next[0] == '"' {
        ghost var first := next;
        ghost var afterFirst := tokens;
        while next[|next| - 1] != '"'
          invariant |next| > 0 && |tokens| <= |afterFirst| < |old(tokens)|
          invariant Absorb(next, tokens, msg) == Absorb(first, afterFirst, msg)
          decreases |tokens|
        {
          var inner := TryNext(msg);
          if inner.Failure? {
            return Failure(inner.error);
          }
          next := next + " " + inner.value;
        }
        if |next| < 2 {
          return Failure(StringIndexOutOfBounds);
        }
        next := next[1..|next| - 1];
      }
      return Success(next);
    }

    /** `IOUtils.tryNextInt(this, msg)`. */
    method TryNextInt(msg: string) returns (r: Result<int32>)
      modifies this
      ensures r == Value(NextInt(old(tokens), msg))
      ensures tokens == Rest(NextInt(old(tokens), msg), old(tokens))
    {
      var p := NextInt(tokens, msg);
      if p.Failure? {
        return Failure(p.error);
      }
      tokens := p.value.rest;
      return Success(p.value.value);
    }
  }

  /** `tryNextInt`: `hasNextInt` then `nextInt`. A token that is not an int is not consumed. */
  function NextInt(ts: seq<string>, msg: string): (r: Result<Parsed<int32>>)
    ensures r.Success? <==> |ts| > 0 && ParseInt(ts[0]).Some?
    ensures r.Success? ==> r.value == Parsed(ParseInt(ts[0]).value, ts[1..])
    ensures r.Failure? ==> r.error == IllegalArgument(msg)
  {
    if |ts| == 0 then Failure(IllegalArgument(msg))
    else match ParseInt(ts[0])
      case None => Failure(IllegalArgument(msg))
      case Some(n) => Success(Parsed(n, ts[1..]))
  }

  function Value<T>(r: Result<Parsed<T>>): Result<T> {
    match r
    case Success(p) => Success(p.value)
    case Failure(e) => Failure(e)
  }

  /** The tokens left after a read: what the read did not consume, or all of them on failure. */
  function Rest<T>(r: Result<Parsed<T>>, ts: seq<string>): seq<string> {
    if r.Success? then r.value.rest else ts
  }

  /** `getNumId`: the int after the first character of an id such as `C12` or `D3`. */
  function GetNumId(id: string, msg: string): (r: Result<int32>)
    ensures r.Success? <==> |id| > 1 && ParseInt(id[1..]).Some?
    ensures r.Success? ==> r.value == ParseInt(id[1..]).value
    ensures r.Failure? ==> r.error == IllegalArgument(msg)
  {
    if |id| <= 1 then Failure(IllegalArgument(msg))
    else match ParseInt(id[1..])
      case None => Failure(IllegalArgument(msg))
      case Some(n) => Success(n)
  }

  /** Any one-character prefix followed by an int's decimal form reads back as that int. */
  lemma {:induction false} NumIdOfPrinted(c: char, x: int32, msg: string)
    ensures GetNumId([c] + ToString(x as int), msg) == Success(x)
  {
    ToStringShape(x as int);
    assert ([c] + ToString(x as int))[1..] == ToString(x as int);
    ParseToString(x);
  }

  lemma NumIdExamples(msg: string)
    ensures GetNumId("C0", msg) == Success(0)
    ensures GetNumId("C-1", msg) == Success(-1)
    ensures GetNumId("z10", msg) == Success(10)
    ensures GetNumId("C", msg) == Failure(IllegalArgument(msg))
    ensures GetNumId("Cx", msg) == Failure(IllegalArgument(msg))
  {
    NumIdOfPrinted('C', 0, msg);
    NumIdOfPrinted('C', -1, msg);
    assert ToString(10) == NatToString(1) + [DigitChar(0)] == "10";
    NumIdOfPrinted('z', 10, msg);
    assert "Cx"[1..] == "x" && !IsDigit("x"[0]);
  }

  lemma NextIntExamples(msg: string, rest: seq<string>)
    ensures NextInt(["00"] + rest, msg) == Success(Parsed(0, rest))
    ensures NextInt(["-010"] + rest, msg) == Success(Parsed(-10, rest))
    ensures NextInt([], msg) == Failure(IllegalArgument(msg))
  {
    assert (["00"] + rest)[0] == "00" && (["00"] + rest)[1..] == rest;
    assert (["-010"] + rest)[0] == "-010" && (["-010"] + rest)[1..] == rest;
    assert "-010"[1..] == "010";
    assert DigitsValue("0") == 0;
    assert "010"[..2] == "01" && "01"[..1] == "0";
    assert DigitsValue("010") == 10;
  }
}
