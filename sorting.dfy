/** SQL `ORDER BY` over a finite set of row ids. A row's sort key is a triple compared
    lexicographically; rows whose keys are equal may come out in either order, as in SQL. */
module Sorting {

  datatype Key = Key(first: int, second: int, third: int)

  /** Lexicographic order on keys. */
  predicate KeyLe(x: Key, y: Key)
  {
    x.first < y.first
    || (x.first == y.first && (x.second < y.second || (x.second == y.second && x.third <= y.third)))
  }

  lemma KeyLeTotal(x: Key, y: Key)
    ensures KeyLe(x, y) || KeyLe(y, x)
  {
  }

  lemma KeyLeTransitive(x: Key, y: Key, z: Key)
    requires KeyLe(x, y) && KeyLe(y, z)
    ensures KeyLe(x, z)
  {
  }

  /** `ids` lists row ids in non-decreasing key order. */
  predicate SortedBy(ids: seq<int>, keys: map<int, Key>)
  {
    && (forall i :: 0 <= i < |ids| ==> ids[i] in keys)
    && (forall i, j :: 0 <= i < j < |ids| ==> KeyLe(keys[ids[i]], keys[ids[j]]))
  }

  predicate Distinct(ids: seq<int>)
  {
    forall i, j :: 0 <= i < j < |ids| ==> ids[i] != ids[j]
  }

  predicate IsLeast(ids: set<int>, keys: map<int, Key>, m: int)
    requires ids <= keys.Keys
  {
    m in ids && forall y :: y in ids ==> KeyLe(keys[m], keys[y])
  }

  /** A set that is not empty has an element. */
  lemma NonEmptyHasElement(s: set<int>)
    requires s != {}
    ensures exists y :: y in s
  {
    if forall y :: y !in s { assert false; }
  }

  /** Every non-empty finite set of keyed rows has a row with a least key. */
  lemma {:induction false} LeastExists(ids: set<int>, keys: map<int, Key>)
    requires ids <= keys.Keys
    requires ids != {}
    ensures exists m :: IsLeast(ids, keys, m)
    decreases |ids|
  {
    NonEmptyHasElement(ids);
    var x :| x in ids;
    var rest := ids - {x};
    if rest == {} {
      assert ids == {x};
      assert IsLeast(ids, keys, x);
    } else {
      LeastExists(rest, keys);
      var m :| IsLeast(rest, keys, m);
      KeyLeTotal(keys[x], keys[m]);
      if KeyLe(keys[m], keys[x]) {
        assert IsLeast(ids, keys, m);
      } else {
        assert KeyLe(keys[x], keys[m]);
        forall y | y in ids ensures KeyLe(keys[x], keys[y]) {
          if y != x {
            assert y in rest;
            KeyLeTransitive(keys[x], keys[m], keys[y]);
          }
        }
        assert IsLeast(ids, keys, x);
      }
    }
  }

  /** The ids of `ids`, each exactly once, in key order: `ORDER BY` applied to a row set. */
  ghost function SortIds(ids: set<int>, keys: map<int, Key>): (r: seq<int>)
    requires ids <= keys.Keys
    ensures |r| == |ids|
    ensures forall x :: x in r <==> x in ids
    ensures Distinct(r)
    ensures SortedBy(r, keys)
    decreases |ids|
  {
    if ids == {} then []
    else
      LeastExists(ids, keys);
      var m :| IsLeast(ids, keys, m);
      var tail := SortIds(ids - {m}, keys);
      [m] + tail
  }
}
