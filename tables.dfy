/**
 * A JavaScript `Map` as the store uses it: a key-to-record map whose
 * `values()` come out in the order the keys were first inserted. Setting an
 * existing key keeps its place; deleting a key removes it from the order.
 */
module Tables {
  import opened Wrappers
  import opened Seqs

  datatype Table<K(==), R> = Table(order: seq<K>, rows: map<K, R>) {

    /** The insertion order lists every key exactly once. */
    ghost predicate Valid()
    {
      && Distinct(order)
      && (forall k :: k in rows ==> k in order)
      && (forall k :: k in order ==> k in rows)
    }

    /** `Array.from(map.values())`. */
    function Values(): seq<R>
    {
      ValuesOf(order, rows)
    }

    /** `map.get(k)`. */
    function Get(k: K): (r: Option<R>)
      ensures r.Some? <==> k in rows
      ensures r.Some? ==> r.value == rows[k]
    {
      if k in rows then Some(rows[k]) else None
    }

    /** `map.set(k, r)`. */
    function Put(k: K, r: R): (t: Table<K, R>)
      ensures t.rows == rows[k := r]
      ensures k in rows ==> t.order == order
      ensures k !in rows ==> t.order == order + [k]
    {
      Table(if k in rows then order else order + [k], rows[k := r])
    }

    /** `map.delete(k)`. */
    function Remove(k: K): (t: Table<K, R>)
      ensures t.rows == rows - {k}
    {
      Table(Filter(order, KeyOtherThan(k)), rows - {k})
    }
  }

  /** The empty `new Map()`. */
  function Empty<K(==), R>(): (t: Table<K, R>)
    ensures t.Valid() && t.rows == map[] && t.Values() == []
  {
    Table([], map[])
  }

  function KeyOtherThan<K(==)>(k: K): K -> bool
  {
    k' => k' != k
  }

  /** The records of `rows` listed in key order; keys without a record are skipped. */
  function ValuesOf<K(==), R>(order: seq<K>, rows: map<K, R>): seq<R>
  {
    if |order| == 0 then []
    else (if order[0] in rows then [rows[order[0]]] else []) + ValuesOf(order[1..], rows)
  }

  lemma {:induction false} ValuesOfMembers<K, R>(order: seq<K>, rows: map<K, R>, x: R)
    ensures x in ValuesOf(order, rows) <==> exists k :: k in order && k in rows && rows[k] == x
  {
    if |order| > 0 {
      ValuesOfMembers(order[1..], rows, x);
      assert forall k :: k in order <==> k == order[0] || k in order[1..];
    }
  }

  lemma {:induction false} ValuesOfAppend<K, R>(order: seq<K>, k: K, rows: map<K, R>)
    ensures ValuesOf(order + [k], rows)
         == ValuesOf(order, rows) + (if k in rows then [rows[k]] else [])
  {
    if |order| == 0 {
      assert order + [k] == [k];
    } else {
      var h := if order[0] in rows then [rows[order[0]]] else [];
      var last := if k in rows then [rows[k]] else [];
      assert (order + [k])[0] == order[0];
      assert (order + [k])[1..] == order[1..] + [k];
      assert ValuesOf(order + [k], rows) == h + ValuesOf(order[1..] + [k], rows);
      ValuesOfAppend(order[1..], k, rows);
      assert h + (ValuesOf(order[1..], rows) + last) == (h + ValuesOf(order[1..], rows)) + last;
    }
  }

  /** Records stored under keys outside the order do not show up in the values. */
  lemma {:induction false} ValuesOfIgnores<K, R>(order: seq<K>, rows: map<K, R>, k: K, r: R)
    requires k !in order
    ensures ValuesOf(order, rows[k := r]) == ValuesOf(order, rows)
  {
    if |order| > 0 {
      ValuesOfIgnores(order[1..], rows, k, r);
    }
  }

  /** `values()` holds exactly the stored records. */
  lemma ValuesMembers<K, R>(t: Table<K, R>)
    requires t.Valid()
    ensures forall x :: x in t.Values() <==> x in t.rows.Values
  {
    forall x ensures x in t.Values() <==> x in t.rows.Values {
      ValuesOfMembers(t.order, t.rows, x);
    }
  }

  /** Setting a new key keeps the table valid and appends its record to `values()`. */
  lemma PutNew<K, R>(t: Table<K, R>, k: K, r: R)
    requires t.Valid() && k !in t.rows
    ensures t.Put(k, r).Valid()
    ensures t.Put(k, r).Values() == t.Values() + [r]
  {
    var o := t.order + [k];
    forall i, j | 0 <= i < j < |o| ensures o[i] != o[j] {
      if j == |o| - 1 {
        assert o[i] in t.order;
      }
    }
    ValuesOfAppend(t.order, k, t.rows[k := r]);
    ValuesOfIgnores(t.order, t.rows, k, r);
  }

  /** Setting an existing key keeps the table valid and its key order. */
  lemma PutExisting<K, R>(t: Table<K, R>, k: K, r: R)
    requires t.Valid() && k in t.rows
    ensures t.Put(k, r).Valid()
  {
  }

  /** Setting a key twice leaves what setting it once to the second value leaves. */
  lemma PutTwice<K, R>(t: Table<K, R>, k: K, a: R, b: R)
    ensures t.Put(k, a).Put(k, b) == t.Put(k, b)
  {
    assert t.rows[k := a][k := b] == t.rows[k := b];
  }

  /** Deleting a key keeps the table valid. */
  lemma MinusUnion<K, R>(m: map<K, R>, a: set<K>, b: set<K>)
    ensures m - a - b == m - (a + b)
  {
  }

  lemma RemoveValid<K, R>(t: Table<K, R>, k: K)
    requires t.Valid()
    ensures t.Remove(k).Valid()
  {
    var p := KeyOtherThan(k);
    FilterDistinct(t.order, p);
    FilterMembers(t.order, p);
  }

  /** Records that carry their own key are never listed twice. */
  lemma ValuesDistinct<K, R>(t: Table<K, R>, idOf: R -> K)
    requires t.Valid()
    requires forall k :: k in t.rows ==> idOf(t.rows[k]) == k
    ensures Distinct(t.Values())
  {
    ValuesOfDistinct(t.order, t.rows, idOf);
  }

  lemma {:induction false} ValuesOfDistinct<K, R>(order: seq<K>, rows: map<K, R>, idOf: R -> K)
    requires Distinct(order)
    requires forall k :: k in rows ==> idOf(rows[k]) == k
    ensures Distinct(ValuesOf(order, rows))
    ensures forall x :: x in ValuesOf(order, rows) ==> idOf(x) in order
  {
    if |order| > 0 {
      var rest := ValuesOf(order[1..], rows);
      assert forall i, j :: 0 <= i < j < |order[1..]| ==> order[1..][i] == order[i + 1] && order[1..][j] == order[j + 1];
      ValuesOfDistinct(order[1..], rows, idOf);
      assert order[0] !in order[1..];
      assert forall k :: k in order[1..] ==> k in order;
      if order[0] in rows {
        var r := [rows[order[0]]] + rest;
        forall i, j | 0 <= i < j < |r| ensures r[i] != r[j] {
          assert r[j] == rest[j - 1];
          if i > 0 {
            assert r[i] == rest[i - 1];
          } else {
            assert idOf(r[j]) in order[1..];
          }
        }
      }
    }
  }
}
