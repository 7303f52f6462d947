/** The order of a market's result table: `list.sort` with the key
    (big-buy volume, big-sell volume) and `reverse=True`. Python's sort is
    stable, and stays stable when reversed, so summaries with equal keys keep
    the order in which they were appended. */
module Ranking {
  import opened Detection

  /** `a` may stand before `b`: a larger big-buy volume, or the same big-buy
      volume and a big-sell volume at least as large. */
  predicate RanksAbove(a: Summary, b: Summary)
  {
    a.buyVolume > b.buyVolume || (a.buyVolume == b.buyVolume && a.sellVolume >= b.sellVolume)
  }

  predicate SameKey(a: Summary, b: Summary)
  {
    a.buyVolume == b.buyVolume && a.sellVolume == b.sellVolume
  }

  /** Non-increasing by the key, lexicographically. */
  ghost predicate Ranked(s: seq<Summary>)
  {
    forall i, j :: 0 <= i < j < |s| ==> RanksAbove(s[i], s[j])
  }

  /** The ranking key is a total preorder. */
  lemma RanksAboveTotalPreorder(a: Summary, b: Summary, c: Summary)
    ensures RanksAbove(a, a)
    ensures RanksAbove(a, b) || RanksAbove(b, a)
    ensures RanksAbove(a, b) && RanksAbove(b, c) ==> RanksAbove(a, c)
    ensures RanksAbove(a, b) && RanksAbove(b, a) <==> SameKey(a, b)
  {
  }

  /** Places `x` after every element of `s` that ranks at least as high. */
  function Insert(s: seq<Summary>, x: Summary): seq<Summary>
  {
    if s == [] || RanksAbove(s[|s| - 1], x) then s + [x]
    else Insert(s[..|s| - 1], x) + [s[|s| - 1]]
  }

  lemma {:induction false} InsertMultiset(s: seq<Summary>, x: Summary)
    ensures multiset(Insert(s, x)) == multiset(s) + multiset{x}
  {
    if s != [] && !RanksAbove(s[|s| - 1], x) {
      var init, y := s[..|s| - 1], s[|s| - 1];
      InsertMultiset(init, x);
      assert s == init + [y];
    }
  }

  lemma {:induction false} InsertRanked(s: seq<Summary>, x: Summary)
    requires Ranked(s)
    ensures Ranked(Insert(s, x))
  {
    if s == [] || RanksAbove(s[|s| - 1], x) {
      var r := s + [x];
      forall i, j | 0 <= i < j < |r| ensures RanksAbove(r[i], r[j]) {
        if j == |s| && i < |s| - 1 {
          assert RanksAbove(s[i], s[|s| - 1]);
        }
      }
    } else {
      var init, y := s[..|s| - 1], s[|s| - 1];
      assert s == init + [y];
      InsertRanked(init, x);
      InsertMultiset(init, x);
      var r0 := Insert(init, x);
      forall z | z in r0 ensures RanksAbove(z, y) {
        assert z in multiset(r0);
        if z != x {
          assert z in multiset(init);
          var k :| 0 <= k < |init| && init[k] == z;
          assert s[k] == z;
        }
      }
      var r := r0 + [y];
      forall i, j | 0 <= i < j < |r| ensures RanksAbove(r[i], r[j]) {
        if j == |r0| {
          assert r[i] in r0;
        } else {
          assert r[i] == r0[i] && r[j] == r0[j];
        }
      }
    }
  }

  /** The stable descending sort of the result table: each summary is
      inserted, in order, after those that rank at least as high. */
  function Rank(s: seq<Summary>): seq<Summary>
  {
    if s == [] then [] else Insert(Rank(s[..|s| - 1]), s[|s| - 1])
  }

  /** The sorted table is ranked and holds the same summaries. */
  lemma {:induction false} RankSorts(s: seq<Summary>)
    ensures Ranked(Rank(s))
    ensures multiset(Rank(s)) == multiset(s)
  {
    if s != [] {
      var init, y := s[..|s| - 1], s[|s| - 1];
      assert s == init + [y];
      RankSorts(init);
      InsertRanked(Rank(init), y);
      InsertMultiset(Rank(init), y);
    }
  }

  /** The summaries of `s` whose key equals that of `k`, in order. */
  function WithKeyOf(s: seq<Summary>, k: Summary): seq<Summary>
  {
    if s == [] then []
    else WithKeyOf(s[..|s| - 1], k) + (if SameKey(s[|s| - 1], k) then [s[|s| - 1]] else [])
  }

  lemma {:induction false} WithKeyOfAppend(s: seq<Summary>, t: seq<Summary>, k: Summary)
    ensures WithKeyOf(s + t, k) == WithKeyOf(s, k) + WithKeyOf(t, k)
    decreases |t|
  {
    if t == [] {
      assert s + t == s;
    } else {
      var t0 := t[..|t| - 1];
      assert (s + t)[..|s + t| - 1] == s + t0;
      WithKeyOfAppend(s, t0, k);
    }
  }

  /** Inserting moves `x` only past summaries with a different key. */
  lemma {:induction false} InsertStable(s: seq<Summary>, x: Summary, k: Summary)
    ensures WithKeyOf(Insert(s, x), k) == WithKeyOf(s, k) + WithKeyOf([x], k)
  {
    if s == [] || RanksAbove(s[|s| - 1], x) {
      WithKeyOfAppend(s, [x], k);
    } else {
      var init, y := s[..|s| - 1], s[|s| - 1];
      assert s == init + [y];
      InsertStable(init, x, k);
      WithKeyOfAppend(Insert(init, x), [y], k);
      WithKeyOfAppend(init, [y], k);
      PassOver(WithKeyOf(init, k), x, y, k);
    }
  }

  /** `x` moves past `y` only when their keys differ, so at most one of
      them has the key of `k` and their order does not matter for it. */
  lemma PassOver(a: seq<Summary>, x: Summary, y: Summary, k: Summary)
    requires !RanksAbove(y, x)
    ensures a + WithKeyOf([x], k) + WithKeyOf([y], k) == a + WithKeyOf([y], k) + WithKeyOf([x], k)
  {
    WithKeyOfSingle(x, k);
    WithKeyOfSingle(y, k);
  }

  lemma WithKeyOfSingle(x: Summary, k: Summary)
    ensures WithKeyOf([x], k) == if SameKey(x, k) then [x] else []
  {
    assert [x][..0] == [];
  }

  /** The sort is stable: for every key, the summaries having it appear in
      the order they had before sorting. */
  lemma {:induction false} RankStable(s: seq<Summary>, k: Summary)
    ensures WithKeyOf(Rank(s), k) == WithKeyOf(s, k)
  {
    if s != [] {
      var init, y := s[..|s| - 1], s[|s| - 1];
      assert s == init + [y];
      assert Rank(s) == Insert(Rank(init), y);
      RankStable(init, k);
      InsertStable(Rank(init), y, k);
      WithKeyOfAppend(init, [y], k);
    }
  }
}
