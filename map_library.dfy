/** `utils.MapLibrary`: records kept under names that are unique in the library. A new record
    never replaces an old one: it is filed under the preferred name when that is free, and
    otherwise under `preferred(k)` for the smallest `k >= 1` that is free. A message operator
    (`UnaryOperator<String>`) is a function on strings that may be `null`. */
module Libraries {
  import opened Wrappers
  import opened JavaInt
  import opened Tables
  import opened Utils

  const UNTITLED := "Untitled"
  const NULL_RECORD := "Can't be null"

  /** A `UnaryOperator<String>`; `None` is `null`. */
  type Message = Option<string> -> Option<string>

  /** The operator a `null` argument of the constructor is replaced by: `s -> s`. */
  function Identity(s: Option<string>): Option<string> {
    s
  }

  /** A string as Java's `+` shows it: `null` is written `null`. */
  function Shown(s: Option<string>): (r: string)
    ensures s.Some? ==> r == s.value
    ensures s.None? ==> r == "null"
  {
    if s.Some? then s.value else "null"
  }

  /** `new IllegalArgumentException(message)`. */
  function Thrown(message: Option<string>): (e: Error)
    ensures message.Some? <==> e == IllegalArgument(Shown(message))
    ensures message.None? <==> e == IllegalArgumentWithoutMessage
  {
    if message.Some? then IllegalArgument(message.value) else IllegalArgumentWithoutMessage
  }

  // The order of `String.compareTo`, and `Collections.sort` on names

  /** `a.compareTo(b) < 0`: the first position where the strings differ decides, and a proper
      prefix comes first. */
  predicate Precedes(a: string, b: string)
    decreases |a|
  {
    if |a| == 0 then |b| > 0
    else if |b| == 0 then false
    else if a[0] != b[0] then a[0] < b[0]
    else Precedes(a[1..], b[1..])
  }

  lemma {:induction false} PrecedesIrreflexive(a: string)
    ensures !Precedes(a, a)
  {
    if |a| > 0 {
      PrecedesIrreflexive(a[1..]);
    }
  }

  lemma {:induction false} PrecedesTransitive(a: string, b: string, c: string)
    requires Precedes(a, b) && Precedes(b, c)
    ensures Precedes(a, c)
  {
    if |a| > 0 && |b| > 0 && |c| > 0 && a[0] == b[0] && b[0] == c[0] {
      PrecedesTransitive(a[1..], b[1..], c[1..]);
    }
  }

  /** Two different names are always ordered one way or the other. */
  lemma {:induction false} PrecedesTotal(a: string, b: string)
    requires a != b
    ensures Precedes(a, b) || Precedes(b, a)
  {
    if |a| > 0 && |b| > 0 && a[0] == b[0] {
      assert a == [a[0]] + a[1..] && b == [b[0]] + b[1..];
      PrecedesTotal(a[1..], b[1..]);
    }
  }

  /** Strictly ascending. */
  predicate Sorted(s: seq<string>) {
    forall i, j :: 0 <= i < j < |s| ==> Precedes(s[i], s[j])
  }

  /** A name that comes before every element of a sorted list can be put in front. */
  lemma SortedCons(x: string, s: seq<string>)
    requires Sorted(s) && forall y :: y in s ==> Precedes(x, y)
    ensures Sorted([x] + s)
  {
    var r := [x] + s;
    forall i, j | 0 <= i < j < |r|
      ensures Precedes(r[i], r[j])
    {
      assert r[j] == s[j - 1];
      if i > 0 {
        assert r[i] == s[i - 1];
      }
    }
  }

  /** `x` put into its place in a sorted list that does not hold it. */
  function Insert(x: string, s: seq<string>): (r: seq<string>)
    requires Sorted(s) && x !in s
    ensures Sorted(r) && |r| == |s| + 1
    ensures forall y :: y in r <==> y == x || y in s
  {
    if |s| == 0 then [x]
    else if Precedes(x, s[0]) then
      assert forall y :: y in s ==> Precedes(x, y) by {
        forall y | y in s
          ensures Precedes(x, y)
        {
          var j :| 0 <= j < |s| && s[j] == y;
          if j > 0 {
            PrecedesTransitive(x, s[0], y);
          }
        }
      }
      SortedCons(x, s);
      [x] + s
    else
      PrecedesTotal(x, s[0]);
      var tail := Insert(x, s[1..]);
      assert forall y :: y in tail ==> Precedes(s[0], y) by {
        forall y | y in tail
          ensures Precedes(s[0], y)
        {
          if y != x {
            var j :| 0 <= j < |s[1..]| && s[1..][j] == y;
            assert s[j + 1] == y;
          }
        }
      }
      SortedCons(s[0], tail);
      [s[0]] + tail
  }

  /** `Collections.sort` of a list of distinct names: the same names, ascending. */
  function SortNames(s: seq<string>): (r: seq<string>)
    requires Distinct(s)
    ensures Sorted(r) && |r| == |s|
    ensures forall y :: y in r <==> y in s
  {
    if |s| == 0 then []
    else
      var init := s[..|s| - 1];
      assert s == init + [s[|s| - 1]];
      assert Distinct(init) by {
        forall i, j | 0 <= i < j < |init|
          ensures init[i] != init[j]
        {
          assert init[i] == s[i] && init[j] == s[j];
        }
      }
      assert s[|s| - 1] !in init by {
        forall i | 0 <= i < |init|
          ensures init[i] != s[|s| - 1]
        {
          assert init[i] == s[i];
        }
      }
      Insert(s[|s| - 1], SortNames(init))
  }

  /** A strictly ascending list holds no name twice. */
  lemma SortedDistinct(s: seq<string>)
    requires Sorted(s)
    ensures Distinct(s)
  {
    forall i, j | 0 <= i < j < |s|
      ensures s[i] != s[j]
    {
      if s[i] == s[j] {
        PrecedesIrreflexive(s[i]);
      }
    }
  }

  /** There is only one ascending listing of a set of names, so any sorted list of the
      library's names is the one `getAllNames` returns. */
  lemma {:induction false} SortedUnique(a: seq<string>, b: seq<string>)
    requires Sorted(a) && Sorted(b)
    requires forall y :: y in a <==> y in b
    ensures a == b
  {
    assert |a| > 0 ==> a[0] in b;
    assert |b| > 0 ==> b[0] in a;
    if |a| > 0 {
      assert a[0] == b[0] by {
        assert a[0] in a && b[0] in b;
        var i :| 0 <= i < |b| && b[i] == a[0];
        var j :| 0 <= j < |a| && a[j] == b[0];
        if i > 0 && j > 0 {
          PrecedesTransitive(a[0], a[j], a[0]);
          PrecedesIrreflexive(a[0]);
        } else if i > 0 {
          assert a[0] == b[0];
        }
      }
      SortedDistinct(a);
      SortedDistinct(b);
      forall y
        ensures y in a[1..] <==> y in b[1..]
      {
        if y in a[1..] {
          var j :| 0 <= j < |a[1..]| && a[1..][j] == y;
          assert a[j + 1] == y && y != a[0];
          assert y in b;
          var i :| 0 <= i < |b| && b[i] == y;
          assert b[1..][i - 1] == y;
        }
        if y in b[1..] {
          var j :| 0 <= j < |b[1..]| && b[1..][j] == y;
          assert b[j + 1] == y && y != b[0];
          assert y in a;
          var i :| 0 <= i < |a| && a[i] == y;
          assert a[1..][i - 1] == y;
        }
      }
      SortedTail(a);
      SortedTail(b);
      SortedUnique(a[1..], b[1..]);
      assert a == [a[0]] + a[1..] && b == [b[0]] + b[1..];
    }
  }

  lemma SortedTail(s: seq<string>)
    requires Sorted(s) && |s| > 0
    ensures Sorted(s[1..])
  {
    forall i, j | 0 <= i < j < |s[1..]|
      ensures Precedes(s[1..][i], s[1..][j])
    {
      assert s[1..][i] == s[i + 1] && s[1..][j] == s[j + 1];
    }
  }

  // `createValidName`

  /** `preferredName + "(" + increment + ")"`. */
  function Suffixed(p: string, k: nat): string {
    p + "(" + ToString(k) + ")"
  }

  /** Different increments give different names. */
  lemma SuffixedInjective(p: string, j: nat, k: nat)
    requires Suffixed(p, j) == Suffixed(p, k)
    ensures j == k
  {
    var s, t := Suffixed(p, j), Suffixed(p, k);
    assert s[|p| + 1..|s| - 1] == ToString(j);
    assert t[|p| + 1..|t| - 1] == ToString(k);
    ToStringInjective(j, k);
  }

  /** Every suffixed name below `k` is already a key. */
  ghost predicate Taken(keys: set<string>, p: string, k: nat) {
    forall j :: 1 <= j < k ==> Suffixed(p, j) in keys
  }

  /** The suffixed names `p(1)` up to `p(k - 1)`. */
  ghost function Suffixes(p: string, k: nat): (r: set<string>)
    ensures forall j :: 1 <= j < k ==> Suffixed(p, j) in r
  {
    if k <= 1 then {} else Suffixes(p, k - 1) + {Suffixed(p, k - 1)}
  }

  lemma {:induction false} SuffixesMiss(p: string, m: nat, k: nat)
    requires m >= k
    ensures Suffixed(p, m) !in Suffixes(p, k)
  {
    if k > 1 {
      if Suffixed(p, m) == Suffixed(p, k - 1) {
        SuffixedInjective(p, m, k - 1);
      }
      SuffixesMiss(p, m, k - 1);
    }
  }

  lemma {:induction false} SuffixesCount(p: string, k: nat)
    requires k >= 1
    ensures |Suffixes(p, k)| == k - 1
  {
    if k > 1 {
      SuffixesCount(p, k - 1);
      SuffixesMiss(p, k - 1, k - 1);
    }
  }

  lemma {:induction false} SuffixesTaken(keys: set<string>, p: string, k: nat)
    requires Taken(keys, p, k)
    ensures Suffixes(p, k) <= keys
  {
    if k > 1 {
      SuffixesTaken(keys, p, k - 1);
    }
  }

  /** The search for a free suffix ends: only finitely many suffixed names can be keys. */
  lemma TakenBound(keys: set<string>, p: string, k: nat)
    requires k >= 1 && Taken(keys, p, k)
    ensures k <= |keys| + 1
  {
    var s := Suffixes(p, k);
    SuffixesCount(p, k);
    SuffixesTaken(keys, p, k);
    assert keys == s + (keys - s);
  }

  /** The first free suffix from `k` on. */
  ghost function FirstFree(keys: set<string>, p: string, k: nat): (r: nat)
    requires k >= 1 && Taken(keys, p, k)
    ensures r >= k && Suffixed(p, r) !in keys && Taken(keys, p, r)
    decreases |keys| + 1 - k
  {
    if Suffixed(p, k) !in keys then k
    else
      TakenBound(keys, p, k + 1);
      FirstFree(keys, p, k + 1)
  }

  /** A free suffix with every smaller one taken is the first free one. */
  lemma {:induction false} FirstFreeIs(keys: set<string>, p: string, k: nat, m: nat)
    requires 1 <= k <= m && Taken(keys, p, m) && Suffixed(p, m) !in keys
    ensures FirstFree(keys, p, k) == m
    decreases m - k
  {
    if k < m {
      FirstFreeIs(keys, p, k + 1, m);
    }
  }

  /** The preferred name, `Untitled` for `null`. */
  function Preferred(preferred: Option<string>): string {
    if preferred.Some? then preferred.value else UNTITLED
  }

  /** The name `createValidName(preferred)` returns: never a key; the preferred name itself
      when that is free; otherwise the preferred name suffixed with the smallest free
      increment. */
  ghost function ValidName(keys: set<string>, preferred: Option<string>): (r: string)
    ensures r !in keys
    ensures Preferred(preferred) !in keys ==> r == Preferred(preferred)
    ensures Preferred(preferred) in keys ==>
      exists k: nat :: k >= 1 && r == Suffixed(Preferred(preferred), k) && Taken(keys, Preferred(preferred), k)
  {
    var p := Preferred(preferred);
    if p !in keys then p else Suffixed(p, FirstFree(keys, p, 1))
  }

  /** `createValidName(preferredName)` over the keys of `t`. */
  method CreateValidName<K>(t: Table<K>, preferred: Option<string>) returns (name: string)
    ensures name == ValidName(t.values.Keys, preferred)
  {
    ghost var keys := t.values.Keys;
    var p := if preferred.Some? then preferred.value else UNTITLED;
    name := p;
    var increment: nat := 0;
    while name in t.values
      invariant increment == 0 ==> name == p
      invariant increment >= 1 ==> name == Suffixed(p, increment) && p in keys
      invariant Taken(keys, p, increment)
      decreases |keys| + 1 - increment
    {
      TakenBound(keys, p, increment + 1);
      increment := increment + 1;
      name := p + "(" + ToString(increment) + ")";
    }
    if increment >= 1 {
      FirstFreeIs(keys, p, 1, increment);
    }
  }

  /** Filing a record under the valid name keeps every record already there and adds one. */
  lemma AddKeeps<K>(t: Table<K>, preferred: Option<string>, v: K)
    ensures var u := Put(t, ValidName(t.values.Keys, preferred), v);
      && |u.keys| == |t.keys| + 1
      && (forall k :: k in t.values ==> k in u.values && u.values[k] == t.values[k])
  {
  }

  /** `|keys|` drops by one when a present key is removed. */
  lemma {:induction false} WithoutPresent(s: seq<string>, k: string)
    requires Distinct(s) && k in s
    ensures |Without(s, k)| == |s| - 1
  {
    if s[0] != k {
      assert Distinct(s[1..]) by {
        forall i, j | 0 <= i < j < |s[1..]|
          ensures s[1..][i] != s[1..][j]
        {
          assert s[1..][i] == s[i + 1] && s[1..][j] == s[j + 1];
        }
      }
      WithoutPresent(s[1..], k);
    } else {
      assert k !in s[1..] by {
        forall i | 0 <= i < |s[1..]|
          ensures s[1..][i] != k
        {
          assert s[1..][i] == s[i + 1];
        }
      }
    }
  }

  /** A successful rename moves the record to the new name and keeps the size. */
  lemma RenameMoves<K>(t: Table<K>, current: string, newName: string)
    requires current in t.values && newName !in t.values
    ensures var u := Put(Remove(t, current), newName, t.values[current]);
      && |u.keys| == |t.keys|
      && u.values.Keys == t.values.Keys - {current} + {newName}
      && u.values[newName] == t.values[current]
      && (forall k :: k in t.values && k != current ==> u.values[k] == t.values[k])
  {
    WithoutPresent(t.keys, current);
  }

  class MapLibrary<K> {
    /** `library`, in insertion order. */
    var records: Table<K>
    const nullMsg: Message
    const missingMsg: Message
    const conflictMsg: Message

    /** `new MapLibrary(nullMsg, missingMsg, conflictMsg)`: an empty library; a `null`
        operator is replaced by `s -> s`. */
    constructor (nullMsg: Option<Message>, missingMsg: Option<Message>, conflictMsg: Option<Message>)
      ensures records == Empty()
      ensures this.nullMsg == (if nullMsg.Some? then nullMsg.value else Identity)
      ensures this.missingMsg == (if missingMsg.Some? then missingMsg.value else Identity)
      ensures this.conflictMsg == (if conflictMsg.Some? then conflictMsg.value else Identity)
    {
      var onNull: Message := if nullMsg.Some? then nullMsg.value else Identity;
      var onMissing: Message := if missingMsg.Some? then missingMsg.value else Identity;
      var onConflict: Message := if conflictMsg.Some? then conflictMsg.value else Identity;
      records := Empty();
      this.nullMsg := onNull;
      this.missingMsg := onMissing;
      this.conflictMsg := onConflict;
    }

    /** `add(name, record)`: a `null` record fails and nothing changes; otherwise the record
        is filed under the valid name, which was no key before. */
    method Add(name: Option<string>, record: Option<K>) returns (r: Outcome)
      modifies this
      ensures record.None? ==>
        r == Fail(EnsureNotNull(record, nullMsg(Some(NULL_RECORD))).error) && records == old(records)
      ensures record.Some? ==>
        r == Pass && records == Put(old(records), ValidName(old(records).values.Keys, name), record.value)
    {
      var checked := EnsureNotNull(record, nullMsg(Some(NULL_RECORD)));
      if checked.Failure? {
        return Fail(checked.error);
      }
      var valid := CreateValidName(records, name);
      records := Put(records, valid, checked.value);
      r := Pass;
    }

    /** `ensureRecordExists(name)`: the record, or `missingMsg(name)` for a `null` or absent
        name. */
    method EnsureRecordExists(name: Option<string>) returns (r: Result<K>)
      ensures r.Success? <==> name.Some? && name.value in records.values
      ensures r.Success? ==> r.value == records.values[name.value]
      ensures r.Failure? ==> r.error == Thrown(missingMsg(name))
    {
      if name.Some? && name.value in records.values {
        r := Success(records.values[name.value]);
      } else {
        r := Failure(Thrown(missingMsg(name)));
      }
    }

    /** `remove(name)`: only the named record goes. */
    method Remove(name: Option<string>) returns (r: Outcome)
      modifies this
      ensures name.Some? && name.value in old(records).values ==>
        r == Pass && records == Tables.Remove(old(records), name.value)
      ensures !(name.Some? && name.value in old(records).values) ==>
        r == Fail(Thrown(missingMsg(name))) && records == old(records)
    {
      var found := EnsureRecordExists(name);
      if found.Failure? {
        return Fail(found.error);
      }
      records := Tables.Remove(records, name.value);
      r := Pass;
    }

    /** `retrieve(name)`. */
    method Retrieve(name: Option<string>) returns (r: Result<K>)
      ensures r.Success? <==> name.Some? && name.value in records.values
      ensures r.Success? ==> r.value == records.values[name.value]
      ensures r.Failure? ==> r.error == Thrown(missingMsg(name))
    {
      r := EnsureRecordExists(name);
    }

    /** `rename(current, newName)`: the current name must exist, and the new one must be
        non-null and no key yet, so renaming a record to its own name fails. */
    method Rename(current: Option<string>, newName: Option<string>) returns (r: Outcome)
      modifies this
      ensures !(current.Some? && current.value in old(records).values) ==>
        r == Fail(Thrown(missingMsg(current))) && records == old(records)
      ensures current.Some? && current.value in old(records).values && newName.Some? && newName.value !in old(records).values ==>
        r == Pass && records == Put(Tables.Remove(old(records), current.value), newName.value, old(records).values[current.value])
      ensures current.Some? && current.value in old(records).values && !(newName.Some? && newName.value !in old(records).values) ==>
        r == Fail(Thrown(conflictMsg(newName))) && records == old(records)
    {
      var found := EnsureRecordExists(current);
      if found.Failure? {
        return Fail(found.error);
      }
      if newName.Some? && newName.value !in records.values {
        records := Put(Tables.Remove(records, current.value), newName.value, found.value);
        r := Pass;
      } else {
        r := Fail(Thrown(conflictMsg(newName)));
      }
    }

    /** `update(name, record)`: the `null` check comes first, then the name must exist; only
        that record is replaced, in its place. */
    method Update(name: Option<string>, record: Option<K>) returns (r: Outcome)
      modifies this
      ensures record.None? ==>
        r == Fail(EnsureNotNull(record, nullMsg(Some(NULL_RECORD))).error) && records == old(records)
      ensures record.Some? && !(name.Some? && name.value in old(records).values) ==>
        r == Fail(Thrown(missingMsg(name))) && records == old(records)
      ensures record.Some? && name.Some? && name.value in old(records).values ==>
        r == Pass && records.keys == old(records).keys
        && records.values == old(records).values[name.value := record.value]
    {
      var checked := EnsureNotNull(record, nullMsg(Some(NULL_RECORD)));
      if checked.Failure? {
        return Fail(checked.error);
      }
      var found := EnsureRecordExists(name);
      if found.Failure? {
        return Fail(found.error);
      }
      records := Put(records, name.value, checked.value);
      r := Pass;
    }

    /** `getAllNames()`: every name once, ascending. */
    method GetAllNames() returns (names: seq<string>)
      ensures names == SortNames(records.keys)
      ensures Sorted(names) && |names| == |records.values|
      ensures forall y :: y in names <==> y in records.values
    {
      SizeOfTable(records);
      names := SortNames(records.keys);
    }
  }

  /** A table has as many keys in its order as it maps. */
  lemma SizeOfTable<V>(t: Table<V>)
    ensures |t.keys| == |t.values|
  {
    var s := set k | k in t.keys;
    assert s == t.values.Keys;
    DistinctCount(t.keys);
  }

  lemma {:induction false} DistinctCount(s: seq<string>)
    requires Distinct(s)
    ensures |set k | k in s| == |s|
  {
    if |s| > 0 {
      var init := s[..|s| - 1];
      assert Distinct(init) by {
        forall i, j | 0 <= i < j < |init|
          ensures init[i] != init[j]
        {
          assert init[i] == s[i] && init[j] == s[j];
        }
      }
      DistinctCount(init);
      assert (set k | k in s) == (set k | k in init) + {s[|s| - 1]};
      assert s[|s| - 1] !in init by {
        forall i | 0 <= i < |init|
          ensures init[i] != s[|s| - 1]
        {
          assert init[i] == s[i];
        }
      }
    }
  }
}
