/** Java's `HashMap<String, V>` as used by the story engine, with the iteration order fixed to
    insertion order: `keys` lists every key once, in the order it was first put, and `values`
    holds the mapping. A later `put` of an existing key replaces its value in place. */
module Tables {
  import opened Wrappers
  import opened JavaInt

  datatype TableRep<V> = TableRep(keys: seq<string>, values: map<string, V>)

  predicate Distinct(s: seq<string>) {
    forall i, j :: 0 <= i < j < |s| ==> s[i] != s[j]
  }

  predicate WellFormed<V>(t: TableRep<V>) {
    && Distinct(t.keys)
    && (forall k :: k in t.keys ==> k in t.values)
    && (forall k :: k in t.values ==> k in t.keys)
  }

  type Table<V> = t: TableRep<V> | WellFormed(t) witness TableRep([], map[])

  /** `new HashMap<>()`. */
  function Empty<V>(): (r: Table<V>)
    ensures r.keys == [] && r.values == map[]
  {
    TableRep([], map[])
  }

  /** `containsKey`. */
  predicate Has<V>(t: Table<V>, k: string) {
    k in t.values
  }

  /** `get`: `None` stands for the `null` Java returns for a missing key. */
  function Get<V>(t: Table<V>, k: string): (r: Option<V>)
    ensures r.Some? <==> k in t.keys
    ensures r.Some? ==> r.value == t.values[k]
  {
    if k in t.values then Some(t.values[k]) else None
  }

  /** `put`: an existing key keeps its place in the iteration order; a new key goes last. */
  function Put<V>(t: Table<V>, k: string, v: V): (r: Table<V>)
    ensures r.values == t.values[k := v]
    ensures k in t.keys ==> r.keys == t.keys
    ensures k !in t.keys ==> r.keys == t.keys + [k]
  {
    if k in t.values then TableRep(t.keys, t.values[k := v])
    else
      var keys := t.keys + [k];
      assert forall i :: 0 <= i < |t.keys| ==> keys[i] == t.keys[i];
      TableRep(keys, t.values[k := v])
  }

  /** The key sequence `s` without `k`, in order. */
  function Without(s: seq<string>, k: string): (r: seq<string>)
    ensures forall x :: x in r <==> x in s && x != k
    ensures Distinct(s) ==> Distinct(r)
    ensures |r| <= |s|
    ensures k !in s ==> r == s
  {
    if |s| == 0 then []
    else if s[0] == k then Without(s[1..], k)
    else
      var tail := Without(s[1..], k);
      assert Distinct(s) ==> s[0] !in tail;
      [s[0]] + tail
  }

  /** `remove`: drops the key and its value, and leaves every other entry and its order alone. */
  function Remove<V>(t: Table<V>, k: string): (r: Table<V>)
    ensures r.values == t.values - {k}
    ensures r.keys == Without(t.keys, k)
  {
    TableRep(Without(t.keys, k), t.values - {k})
  }

  /** The entries of `t` whose value is not `null`, in the same order: what the engine's
      constructors keep when they copy a caller's map entry by entry. */
  function DropNulls<V>(t: Table<Option<V>>): (r: Table<V>)
    ensures forall k :: k in r.values <==> k in t.values && t.values[k].Some?
    ensures forall k :: k in r.values ==> t.values[k] == Some(r.values[k])
    ensures (forall k :: k in t.values ==> t.values[k].Some?) ==> r.keys == t.keys
  {
    assert t.keys[..|t.keys|] == t.keys;
    DropNullsFrom(t, |t.keys|)
  }

  /** The non-null entries among the first `n` keys of `t`, copied in order. */
  function DropNullsFrom<V>(t: Table<Option<V>>, n: nat): (r: Table<V>)
    requires n <= |t.keys|
    ensures forall k :: k in r.values <==> k in t.keys[..n] && t.values[k].Some?
    ensures forall k :: k in r.values ==> t.values[k] == Some(r.values[k])
    ensures (forall i :: 0 <= i < n ==> t.values[t.keys[i]].Some?) ==> r.keys == t.keys[..n]
  {
    if n == 0 then Empty()
    else
      var prev := DropNullsFrom(t, n - 1);
      var k := t.keys[n - 1];
      assert t.keys[..n] == t.keys[..n - 1] + [k];
      assert k !in t.keys[..n - 1] by {
        assert forall m :: 0 <= m < n - 1 ==> t.keys[..n - 1][m] == t.keys[m];
      }
      match t.values[k]
      case None => prev
      case Some(v) => Put(prev, k, v)
  }

  /** Every value wrapped, so that a table without nulls can be passed where a nullable one is
      expected. */
  function Lift<V>(t: Table<V>): (r: Table<Option<V>>)
    ensures r.keys == t.keys && r.values.Keys == t.values.Keys
    ensures forall k :: k in r.values ==> r.values[k] == Some(t.values[k])
  {
    TableRep(t.keys, map k | k in t.values :: Some(t.values[k]))
  }

  /** Copying a table that has no nulls entry by entry gives the same table, order included. */
  lemma DropNullsOfLift<V>(t: Table<V>)
    ensures DropNulls(Lift(t)).keys == t.keys
    ensures DropNulls(Lift(t)).values == t.values
    ensures DropNulls(Lift(t)) == t
  {
    var d := DropNulls(Lift(t));
    LiftedKeys(t, d);
    LiftedValues(t, d);
    SameTable(d, t);
  }

  lemma LiftedKeys<V>(t: Table<V>, d: Table<V>)
    requires d == DropNulls(Lift(t))
    ensures d.keys == t.keys
  {
    var l := Lift(t);
    assert forall k :: k in l.values ==> l.values[k].Some?;
  }

  lemma LiftedValues<V>(t: Table<V>, d: Table<V>)
    requires d == DropNulls(Lift(t))
    ensures d.values == t.values
  {
    assert d.values.Keys == t.values.Keys;
  }

  /** Tables with the same keys in the same order and the same values are equal. */
  lemma SameTable<V>(a: Table<V>, b: Table<V>)
    requires a.keys == b.keys && a.values == b.values
    ensures a == b
  {
  }

  lemma GetAfterPut<V>(t: Table<V>, k: string, v: V, j: string)
    ensures Get(Put(t, k, v), j) == if j == k then Some(v) else Get(t, j)
  {
  }

  lemma GetAfterRemove<V>(t: Table<V>, k: string, j: string)
    ensures Get(Remove(t, k), j) == if j == k then None else Get(t, j)
  {
  }

  /** Putting a key that is already present with its present value changes nothing. */
  lemma PutPresent<V>(t: Table<V>, k: string)
    requires Has(t, k)
    ensures Put(t, k, t.values[k]) == t
  {
  }

  /** The mutable `Map<String, Integer>` of a story's statuses. Several objects hold the same
      table: a game hands out this very object from `getStatuses`, decisions update it in place,
      and a creator made from a game shares it. */
  class StatusTable {
    var table: Table<int32>

    constructor (t: Table<int32>)
      ensures table == t
    {
      table := t;
    }

    /** `statuses.replace(k, v)` on a present key, or `put`: both keep the key's position. */
    method Store(k: string, v: int32)
      modifies this
      ensures table == Put(old(table), k, v)
    {
      table := Put(table, k, v);
    }

    method Discard(k: string)
      modifies this
      ensures table == Remove(old(table), k)
    {
      table := Remove(table, k);
    }
  }
}
