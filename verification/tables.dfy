/** What the store's queries do with an id-keyed table: ORDER BY, the first
    match of an unordered query, and the removal of child rows on cascade. */
module Tables {

  /** Row `x` with sort key `kx` is listed before row `y` with key `ky`: the
      higher key first, equal keys by ascending id. */
  predicate Precedes(kx: int, x: nat, ky: int, y: nat) {
    kx > ky || (kx == ky && x < y)
  }

  /** `x` is the row of `ids` that is listed first. */
  predicate IsFirst<T>(m: map<nat, T>, ids: set<nat>, key: T -> int, x: nat)
    requires ids <= m.Keys
  {
    x in ids && forall y :: y in ids && y != x ==> Precedes(key(m[x]), x, key(m[y]), y)
  }

  lemma {:induction false} FirstExists<T>(m: map<nat, T>, ids: set<nat>, key: T -> int)
    requires ids <= m.Keys && ids != {}
    ensures exists x :: IsFirst(m, ids, key, x)
  {
    var z :| z in ids;
    var rest := ids - {z};
    if rest == {} {
      assert ids == {z};
      assert IsFirst(m, ids, key, z);
    } else {
      FirstExists(m, rest, key);
      var x :| IsFirst(m, rest, key, x);
      if Precedes(key(m[x]), x, key(m[z]), z) {
        assert IsFirst(m, ids, key, x);
      } else {
        assert IsFirst(m, ids, key, z);
      }
    }
  }

  /** The rows `ids` of `m` in listing order, highest `key` first. */
  function Ordered<T>(m: map<nat, T>, ids: set<nat>, key: T -> int): (r: seq<nat>)
    requires ids <= m.Keys
    ensures |r| == |ids|
    ensures forall x :: x in r <==> x in ids
    ensures forall i, j :: 0 <= i < j < |r| ==> Precedes(key(m[r[i]]), r[i], key(m[r[j]]), r[j])
    decreases |ids|
  {
    if ids == {} then []
    else
      FirstExists(m, ids, key);
      var x :| IsFirst(m, ids, key, x);
      [x] + Ordered(m, ids - {x}, key)
  }

  predicate IsLeast(ids: set<nat>, x: nat) {
    x in ids && forall y :: y in ids ==> x <= y
  }

  lemma {:induction false} MinExists(ids: set<nat>)
    requires ids != {}
    ensures exists x :: IsLeast(ids, x)
  {
    var z :| z in ids;
    var rest := ids - {z};
    if rest == {} {
      assert ids == {z};
      assert IsLeast(ids, z);
    } else {
      MinExists(rest);
      var x :| IsLeast(rest, x);
      var least := if x <= z then x else z;
      forall y | y in ids
        ensures least <= y
      {
        if y != z {
          assert y in rest;
        }
      }
      assert IsLeast(ids, least);
    }
  }

  /** The smallest id of a non-empty set. */
  function MinOf(ids: set<nat>): (x: nat)
    requires ids != {}
    ensures IsLeast(ids, x)
  {
    MinExists(ids);
    var x :| IsLeast(ids, x);
    x
  }

  /** `m` without the rows `drop` selects. */
  function DropWhere<T>(m: map<nat, T>, drop: T -> bool): (r: map<nat, T>)
    ensures forall k :: k in r <==> k in m && !drop(m[k])
    ensures forall k :: k in r ==> r[k] == m[k]
  {
    map k | k in m && !drop(m[k]) :: m[k]
  }

  /** The ids `lo`, ..., `lo + n - 1`. */
  function IdRange(lo: nat, n: nat): (r: set<nat>)
    ensures forall k :: k in r <==> lo <= k < lo + n
    ensures |r| == n
  {
    if n == 0 then {} else IdRange(lo, n - 1) + {lo + n - 1}
  }

  /** Adding a row under a new id grows the table by one. */
  lemma AddFreshSize<T>(m: map<nat, T>, k: nat, v: T)
    ensures k !in m ==> |m[k := v]| == |m| + 1
  {
    if k !in m {
      assert m[k := v].Keys == m.Keys + {k};
    }
  }

  /** Adding a map whose keys are all new adds their number to the size. */
  lemma DisjointAddSize<T>(m: map<nat, T>, extra: map<nat, T>)
    requires m.Keys !! extra.Keys
    ensures |m + extra| == |m| + |extra|
  {
    assert (m + extra).Keys == m.Keys + extra.Keys;
  }
}
