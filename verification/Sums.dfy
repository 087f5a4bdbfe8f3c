/** Totals over finite maps. */
module Sums {

  lemma NonEmpty(s: set<int>)
    requires s != {}
    ensures exists k :: k in s
  {
    if forall k :: k !in s {
      EmptyWithoutMembers(s);
    }
  }

  lemma EmptyWithoutMembers(s: set<int>)
    requires forall k :: k !in s
    ensures s == {}
  {
    assert forall k :: k in s <==> k in {};
  }

  ghost function Sum(m: map<int, int>): int {
    if m.Keys == {} then 0
    else
      NonEmpty(m.Keys);
      var k :| k in m.Keys;
      m[k] + Sum(m - {k})
  }

  /** Any entry may be split off first. */
  lemma {:induction false} SumSplit(m: map<int, int>, k: int)
    requires k in m
    ensures Sum(m) == m[k] + Sum(m - {k})
    decreases |m|
  {
    var j :| j in m && Sum(m) == m[j] + Sum(m - {j});
    if j != k {
      SumSplit(m - {j}, k);
      SumSplit(m - {k}, j);
      assert m - {j} - {k} == m - {k} - {j};
    }
  }

  /** Writing one entry moves the total by the change of that entry (an absent entry counts as zero). */
  lemma SumUpdate(m: map<int, int>, k: int, v: int)
    ensures Sum(m[k := v]) == Sum(m) - (if k in m then m[k] else 0) + v
  {
    SumSplit(m[k := v], k);
    if k in m {
      SumSplit(m, k);
      assert m[k := v] - {k} == m - {k};
    } else {
      assert m[k := v] - {k} == m;
    }
  }

  lemma SumDelete(m: map<int, int>, k: int)
    ensures Sum(m - {k}) == Sum(m) - (if k in m then m[k] else 0)
  {
    if k in m {
      SumSplit(m, k);
    } else {
      assert m - {k} == m;
    }
  }

  /** A total of non-negative entries bounds each entry, and is zero only when all are. */
  lemma {:induction false} SumNonNegative(m: map<int, int>)
    requires forall k :: k in m ==> m[k] >= 0
    ensures Sum(m) >= 0
    ensures forall k :: k in m ==> m[k] <= Sum(m)
    decreases |m|
  {
    forall k | k in m ensures m[k] <= Sum(m) && Sum(m) >= 0 {
      SumSplit(m, k);
      SumNonNegative(m - {k});
    }
  }

  lemma {:induction false} SumZero(m: map<int, int>)
    requires forall k :: k in m ==> m[k] == 0
    ensures Sum(m) == 0
    decreases |m|
  {
    if m.Keys != {} {
      NonEmpty(m.Keys);
      var k :| k in m.Keys;
      SumSplit(m, k);
      SumZero(m - {k});
    }
  }
}
