/** Sizes of sets. */
module Sets {

  lemma SubsetSize<T>(a: set<T>, b: set<T>)
    requires a <= b
    ensures |a| <= |b|
  {
    assert b == a + (b - a);
  }

  function Pairs<T>(ids: set<T>, n: nat): set<(T, int)> {
    set id, k | id in ids && 0 <= k < n :: (id, k)
  }

  function Column<T(==)>(id: T, lo: int, hi: int): set<(T, int)> {
    set k | lo <= k < hi :: (id, k)
  }

  lemma {:induction false} ColumnSize<T>(id: T, lo: int, hi: int)
    requires lo <= hi
    ensures |Column(id, lo, hi)| == hi - lo
    decreases hi - lo
  {
    if lo < hi {
      ColumnSize(id, lo + 1, hi);
      assert Column(id, lo, hi) == {(id, lo)} + Column(id, lo + 1, hi);
    } else {
      assert Column(id, lo, hi) == {};
    }
  }

  lemma PairsStep<T>(ids: set<T>, id: T, n: nat)
    requires id in ids
    ensures Pairs(ids, n) == Column(id, 0, n) + Pairs(ids - {id}, n)
    ensures Column(id, 0, n) !! Pairs(ids - {id}, n)
  {
  }

  lemma Times(a: nat, n: nat)
    requires a > 0
    ensures a * n == n + (a - 1) * n
  {
  }

  lemma {:induction false} PairsSize<T>(ids: set<T>, n: nat)
    ensures |Pairs(ids, n)| == |ids| * n
    decreases ids
  {
    if ids == {} {
      assert Pairs(ids, n) == {};
    } else {
      hide Pairs, Column;
      var id :| id in ids;
      PairsSize(ids - {id}, n);
      ColumnSize(id, 0, n);
      PairsStep(ids, id, n);
      Times(|ids|, n);
    }
  }
}
