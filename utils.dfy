/** Input validation helpers of the engine (`utils.Utils`). A Java reference that may be `null`
    is an `Option`. */
module Utils {
  import opened Wrappers
  import opened JavaInt

  const DEFAULT_NULL_MESSAGE := "Can't be null!"
  const NULL_LIST_MESSAGE := "List can't be null!"

  /** `ensureNotNull(object, message)`: the object itself, or an `IllegalArgumentException` with the
      message (a `null` message is replaced by the default one). */
  function EnsureNotNull<T>(obj: Option<T>, message: Option<string>): (r: Result<T>)
    ensures obj.Some? ==> r == Success(obj.value)
    ensures obj.None? && message.Some? ==> r == Failure(IllegalArgument(message.value))
    ensures obj.None? && message.None? ==> r == Failure(IllegalArgument(DEFAULT_NULL_MESSAGE))
  {
    match obj
    case Some(v) => Success(v)
    case None =>
      Failure(IllegalArgument(if message.Some? then message.value else DEFAULT_NULL_MESSAGE))
  }

  /** The elements of `s` that are not `null`, in their original order. */
  function Compact<T>(s: seq<Option<T>>): (r: seq<Option<T>>)
    ensures |r| <= |s|
    ensures forall i :: 0 <= i < |r| ==> r[i].Some?
  {
    if |s| == 0 then []
    else if s[0].None? then Compact(s[1..])
    else [s[0]] + Compact(s[1..])
  }

  /** The values of a sequence that holds no `null`. */
  function Values<T>(s: seq<Option<T>>): (r: seq<T>)
    requires forall i :: 0 <= i < |s| ==> s[i].Some?
    ensures |r| == |s|
    ensures forall i :: 0 <= i < |s| ==> s[i] == Some(r[i])
  {
    if |s| == 0 then [] else [s[0].value] + Values(s[1..])
  }

  /** Dropping nulls distributes over concatenation, so the relative order of what is kept is
      the order of the input. */
  lemma {:induction false} CompactAppend<T>(a: seq<Option<T>>, b: seq<Option<T>>)
    ensures Compact(a + b) == Compact(a) + Compact(b)
  {
    if |a| == 0 {
      assert a + b == b;
    } else {
      assert (a + b)[0] == a[0] && (a + b)[1..] == a[1..] + b;
      CompactAppend(a[1..], b);
    }
  }

  /** A list without nulls is left as it is. */
  lemma {:induction false} CompactOfNonNull<T>(s: seq<Option<T>>)
    requires forall i :: 0 <= i < |s| ==> s[i].Some?
    ensures Compact(s) == s
  {
    if |s| > 0 {
      CompactOfNonNull(s[1..]);
    }
  }

  /** Exactly the nulls are deleted: every non-null element is kept, as many times as it occurs. */
  lemma {:induction false} CompactCounts<T>(s: seq<Option<T>>, x: T)
    ensures multiset(Compact(s))[Some(x)] == multiset(s)[Some(x)]
    ensures None !in Compact(s)
  {
    if |s| > 0 {
      CompactCounts(s[1..], x);
      assert s == [s[0]] + s[1..];
    }
  }

  /** No field of `o` changed. */
  twostate predicate Kept(o: object)
    reads o
  {
    unchanged(o)
  }

  /** A caller's mutable `List<T>` whose elements may be `null`. */
  class NullableList<T> {
    var items: seq<Option<T>>

    constructor (items: seq<Option<T>>)
      ensures this.items == items
    {
      this.items := items;
    }
  }

  /** `removeNulls(list)`: walks the list from the back, deleting each `null` in place, and
      returns the same list object. */
  method RemoveNulls<T>(list: NullableList?<T>) returns (r: Result<NullableList<T>>)
    modifies list
    ensures list == null ==> r == Failure(IllegalArgument(NULL_LIST_MESSAGE))
    ensures list != null ==> r.Success? && r.value == list && list.items == Compact(old(list.items))
  {
    if list == null {
      return Failure(IllegalArgument(NULL_LIST_MESSAGE));
    }
    var i := |list.items| - 1;
    while i >= 0
      invariant -1 <= i < |old(list.items)|
      invariant list.items == old(list.items)[..i + 1] + Compact(old(list.items)[i + 1..])
    {
      ghost var before := old(list.items);
      assert before[i..] == [before[i]] + before[i + 1..];
      if list.items[i].None? {
        list.items := list.items[..i] + list.items[i + 1..];
      }
      assert before[..i + 1] == before[..i] + [before[i]];
      i := i - 1;
    }
    return Success(list);
  }

  /** `isStringNumber`: not null, not empty, and accepted by `Integer.parseInt`. */
  predicate IsStringNumber(s: Option<string>) {
    s.Some? && |s.value| != 0 && ParseInt(s.value).Some?
  }

  /** `isPositiveStringNumber`: a number whose value is above zero. */
  predicate IsPositiveStringNumber(s: Option<string>) {
    IsStringNumber(s) && ParseInt(s.value).value > 0
  }

  /** What `isStringNumber` accepts is an optional sign followed by decimal digits only, so
      `"1.0"` and `"1,000"` are refused. */
  lemma StringNumberShape(s: string)
    requires IsStringNumber(Some(s))
    ensures IsDigit(s[0]) || s[0] == '-' || s[0] == '+'
    ensures forall i :: 0 < i < |s| ==> IsDigit(s[i])
  {
  }

  /** Every int's decimal form is a string number, and a positive one exactly when the int is
      above zero. */
  lemma {:induction false} PrintedNumbers(x: int32)
    ensures IsStringNumber(Some(ToString(x as int)))
    ensures IsPositiveStringNumber(Some(ToString(x as int))) <==> x > 0
  {
    ParseToString(x);
  }

  /** The examples from the documentation of `isPositiveStringNumber`. */
  lemma PositiveNumberExamples()
    ensures !IsPositiveStringNumber(None)
    ensures !IsPositiveStringNumber(Some("0"))
    ensures !IsPositiveStringNumber(Some("-1"))
    ensures !IsPositiveStringNumber(Some("one"))
    ensures !IsStringNumber(Some(""))
    ensures !IsStringNumber(Some("1.0")) && !IsStringNumber(Some("1,000"))
    ensures IsPositiveStringNumber(Some("1")) && IsPositiveStringNumber(Some("+7"))
  {
    assert ParseInt("0") == Some(0);
    assert DigitsValue("1") == 1;
    assert DigitsValue("7") == 7;
    assert !IsDigit("1.0"[1]) && !IsDigit("1,000"[1]) && !IsDigit("one"[0]);
  }
}
