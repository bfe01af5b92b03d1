/** Status updates (`AddStatus`, `SetStatus`) and their reader (`StatusUpdateCreator`). */
module StatusUpdates {
  import opened Wrappers
  import opened JavaInt
  import opened IOUtils

  const ILLEGAL_FORMAT_MESSAGE := "Illegal format - not a valid status update"
  const NULL_TYPE_MESSAGE := "Type can't be null!"

  /** `StatusUpdateTypes`. */
  datatype UpdateType = ADD | SET

  /** An immutable function from a status's old value to its new one. */
  datatype StatusUpdate = AddStatus(increment: int32) | SetStatus(setTo: int32)

  /** `update(status)`: Java's `increment + status` (which wraps round on overflow), or `setTo`. */
  function Update(u: StatusUpdate, status: int32): int32 {
    match u
    case AddStatus(increment) => Add(increment, status)
    case SetStatus(setTo) => setTo
  }

  /** `export()`: the type tag, a space, and the amount in decimal. */
  function Export(u: StatusUpdate): string {
    match u
    case AddStatus(increment) => "ADD " + ToString(increment as int)
    case SetStatus(setTo) => "SET " + ToString(setTo as int)
  }

  /** Adding is Java int addition: exact unless it leaves the int range, and then off by 2^32. */
  lemma AddUpdate(increment: int32, status: int32)
    ensures var r := Update(AddStatus(increment), status) as int;
      && (MIN <= increment as int + status as int <= MAX ==> r == increment as int + status as int)
      && (r - (increment as int + status as int)) % 0x1_0000_0000 == 0
  {
  }

  /** The concrete overflow: one past the largest int is the smallest. */
  lemma AddOverflows()
    ensures Update(AddStatus(1), MAX as int32) == MIN as int32
  {
  }

  /** `ADD 0` is the identity. */
  lemma AddZero(status: int32)
    ensures Update(AddStatus(0), status) == status
  {
  }

  /** Two additions are one addition of the sum, when nothing overflows. */
  lemma AddTwice(a: int32, b: int32, status: int32)
    requires MIN <= a as int + b as int <= MAX
    requires MIN <= b as int + status as int <= MAX
    requires MIN <= a as int + b as int + status as int <= MAX
    ensures Update(AddStatus(a), Update(AddStatus(b), status))
         == Update(AddStatus((a as int + b as int) as int32), status)
  {
  }

  /** Setting ignores the old value, so it is idempotent. */
  lemma SetUpdate(setTo: int32, status: int32)
    ensures Update(SetStatus(setTo), status) == setTo
    ensures Update(SetStatus(setTo), Update(SetStatus(setTo), status)) == Update(SetStatus(setTo), status)
  {
  }

  /** `createSimple(type, n)`. */
  function CreateSimple(t: Option<UpdateType>, n: int32): (r: Result<StatusUpdate>)
    ensures t == Some(ADD) ==> r == Success(AddStatus(n))
    ensures t == Some(SET) ==> r == Success(SetStatus(n))
    ensures t.None? ==> r == Failure(IllegalArgument(NULL_TYPE_MESSAGE))
  {
    match t
    case None => Failure(IllegalArgument(NULL_TYPE_MESSAGE))
    case Some(ADD) => Success(AddStatus(n))
    case Some(SET) => Success(SetStatus(n))
  }

  /** `StatusUpdateTypes.valueOf`: exact, case-sensitive names only. */
  function TypeNamed(s: string): (r: Option<UpdateType>)
    ensures r == Some(ADD) <==> s == "ADD"
    ensures r == Some(SET) <==> s == "SET"
    ensures r.None? <==> s != "ADD" && s != "SET"
  {
    if s == "ADD" then Some(ADD) else if s == "SET" then Some(SET) else None
  }

  /** `getType`: the tag read with `tryNext`. */
  function GetType(ts: seq<string>): (r: Result<Parsed<UpdateType>>)
  {
    match QuotedToken(ts, ILLEGAL_FORMAT_MESSAGE)
    case Failure(e) => Failure(e)
    case Success(tag) =>
      match TypeNamed(tag.value)
      case None => Failure(IllegalArgument(ILLEGAL_FORMAT_MESSAGE))
      case Some(t) => Success(Parsed(t, tag.rest))
  }

  /** `importSimple`: a type tag, then an int. */
  function ImportSimple(ts: seq<string>): (r: Result<Parsed<StatusUpdate>>)
    ensures r.Success? ==> |r.value.rest| < |ts|
  {
    match GetType(ts)
    case Failure(e) => Failure(e)
    case Success(t) =>
      match NextInt(t.rest, ILLEGAL_FORMAT_MESSAGE)
      case Failure(e) => Failure(e)
      case Success(n) =>
        match CreateSimple(Some(t.value), n.value)
        case Failure(e) => Failure(e)
        case Success(u) => Success(Parsed(u, n.rest))
  }

  /** With a plain tag token, `importSimple` succeeds exactly when the tag is `ADD` or `SET` and
      an int follows; it then consumes those two tokens, and otherwise fails with the status
      update format message. */
  lemma ImportSimpleTokens(tag: string, amount: string, rest: seq<string>)
    requires |tag| > 0 && tag[0] != '"'
    ensures var r := ImportSimple([tag, amount] + rest);
      && (r.Success? <==> (tag == "ADD" || tag == "SET") && ParseInt(amount).Some?)
      && (r.Success? ==> r.value.rest == rest)
      && (r.Success? && tag == "ADD" ==> r.value.value == AddStatus(ParseInt(amount).value))
      && (r.Success? && tag == "SET" ==> r.value.value == SetStatus(ParseInt(amount).value))
      && (r.Failure? ==> r.error == IllegalArgument(ILLEGAL_FORMAT_MESSAGE))
  {
    assert [tag, amount] + rest == [tag] + ([amount] + rest);
    UnquotedToken(tag, [amount] + rest, ILLEGAL_FORMAT_MESSAGE);
    assert ([amount] + rest)[0] == amount && ([amount] + rest)[1..] == rest;
  }

  /** An unknown tag or a missing amount fails with the format message. */
  lemma ImportSimpleFailures(rest: seq<string>)
    ensures ImportSimple(["add", "1"] + rest) == Failure(IllegalArgument(ILLEGAL_FORMAT_MESSAGE))
    ensures ImportSimple(["ADD"]) == Failure(IllegalArgument(ILLEGAL_FORMAT_MESSAGE))
    ensures ImportSimple(["SET", "one"]) == Failure(IllegalArgument(ILLEGAL_FORMAT_MESSAGE))
    ensures ImportSimple([]) == Failure(IllegalArgument(ILLEGAL_FORMAT_MESSAGE))
  {
    ImportSimpleTokens("add", "1", rest);
    UnquotedToken("ADD", [], ILLEGAL_FORMAT_MESSAGE);
    assert ["ADD"] == ["ADD"] + [];
    ImportSimpleTokens("SET", "one", []);
    assert ["SET", "one"] == ["SET", "one"] + [];
    assert !IsDigit("one"[0]);
  }

  /** The tokens of `export()`: the tag and the amount. */
  lemma ExportTokens(u: StatusUpdate)
    ensures Tokenize(Export(u)) == [Tag(u), ToString(Amount(u) as int)]
  {
    var tag, n := Tag(u), ToString(Amount(u) as int);
    assert Export(u) == tag + " " + n;
    assert IsWord(tag) by {
      assert forall i :: 0 <= i < |tag| ==> tag[i] in "ADDSET";
    }
    PrintedIntIsWord(Amount(u) as int);
    TokenizeTwoWords(tag, n);
  }

  /** The type tag `export()` writes. */
  function Tag(u: StatusUpdate): string {
    if u.AddStatus? then "ADD" else "SET"
  }

  function Amount(u: StatusUpdate): int32 {
    if u.AddStatus? then u.increment else u.setTo
  }

  /** Round trip: reading back what `export()` wrote gives the same update, for every int, and
      leaves the tokens after it. */
  lemma {:induction false} ImportExport(u: StatusUpdate, rest: seq<string>)
    ensures ImportSimple(Tokenize(Export(u)) + rest) == Success(Parsed(u, rest))
  {
    ExportTokens(u);
    ImportSimpleTokens(Tag(u), ToString(Amount(u) as int), rest);
    ParseToString(Amount(u));
  }
}
