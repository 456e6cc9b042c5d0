/**
 * `sort_nodes` of both recommenders: the items of a dict from candidate to
 * score, sorted by descending score with Python's stable `sorted(...,
 * reverse=True)`, then projected on the candidate.
 */
module Ranking {

  /** `list(map(lambda x: x[0], items))`: the keys of a list of (key, score) items. */
  function Keys<K>(s: seq<(K, real)>): seq<K>
  {
    if s == [] then [] else Keys(s[..|s| - 1]) + [s[|s| - 1].0]
  }

  /** The keys are the items' first components, position by position. */
  lemma {:induction false} KeysAt<K>(items: seq<(K, real)>)
    ensures |Keys(items)| == |items|
    ensures forall i :: 0 <= i < |items| ==> Keys(items)[i] == items[i].0
  {
    if items != [] {
      KeysAt(items[..|items| - 1]);
    }
  }

  /** Scores never increase along the list. */
  ghost predicate NonIncreasing<K>(s: seq<(K, real)>)
  {
    forall i, j :: 0 <= i < j < |s| ==> s[i].1 >= s[j].1
  }

  /** The items whose score is exactly `v`, in their order in `s`. */
  function WithScore<K>(s: seq<(K, real)>, v: real): seq<(K, real)>
  {
    if s == [] then []
    else WithScore(s[..|s| - 1], v) + (if s[|s| - 1].1 == v then [s[|s| - 1]] else [])
  }

  /**
   * Places `x` after every item of `t` whose score is at least its own: a
   * later item never overtakes an earlier one with an equal score.
   */
  function Insert<K>(t: seq<(K, real)>, x: (K, real)): seq<(K, real)>
  {
    if t == [] then [x]
    else if t[|t| - 1].1 >= x.1 then t + [x]
    else Insert(t[..|t| - 1], x) + [t[|t| - 1]]
  }

  /** `sorted(items, key=itemgetter(1), reverse=True)`, as a stable insertion sort. */
  function SortByScore<K>(s: seq<(K, real)>): seq<(K, real)>
  {
    if s == [] then [] else Insert(SortByScore(s[..|s| - 1]), s[|s| - 1])
  }

  /** `sort_nodes(nodes_dict)`, given the dict's items in insertion order. */
  function SortNodes<K>(items: seq<(K, real)>): seq<K>
  {
    Keys(SortByScore(items))
  }

  /** Python's slice `s[:k]`: the first `k` items, or for a negative `k` all but the last `-k`. */
  function Truncate<T>(s: seq<T>, k: int): (r: seq<T>)
    ensures r <= s
    ensures 0 <= k ==> |r| == (if k < |s| then k else |s|)
    ensures k < 0 ==> |r| == (if -k < |s| then |s| + k else 0)
  {
    if 0 <= k then (if k < |s| then s[..k] else s)
    else if -k < |s| then s[..|s| + k]
    else []
  }

  lemma {:induction false} InsertPermutes<K>(t: seq<(K, real)>, x: (K, real))
    ensures multiset(Insert(t, x)) == multiset(t) + multiset{x}
  {
    if t == [] {
    } else if t[|t| - 1].1 >= x.1 {
    } else {
      var t', last := t[..|t| - 1], t[|t| - 1];
      assert t == t' + [last];
      InsertPermutes(t', x);
    }
  }

  lemma KeysSnoc<K>(s: seq<(K, real)>, x: (K, real))
    ensures Keys(s + [x]) == Keys(s) + [x.0]
  {
    assert (s + [x])[..|s|] == s;
  }

  lemma {:induction false} InsertPermutesKeys<K>(t: seq<(K, real)>, x: (K, real))
    ensures multiset(Keys(Insert(t, x))) == multiset(Keys(t)) + multiset{x.0}
  {
    if t == [] || t[|t| - 1].1 >= x.1 {
      assert Insert(t, x) == t + [x];
      KeysSnoc(t, x);
    } else {
      var t', last := t[..|t| - 1], t[|t| - 1];
      InsertPermutesKeys(t', x);
      InsertPermutesKeysStep(t, x);
    }
  }

  lemma InsertPermutesKeysStep<K>(t: seq<(K, real)>, x: (K, real))
    requires t != [] && t[|t| - 1].1 < x.1
    requires multiset(Keys(Insert(t[..|t| - 1], x))) == multiset(Keys(t[..|t| - 1])) + multiset{x.0}
    ensures multiset(Keys(Insert(t, x))) == multiset(Keys(t)) + multiset{x.0}
  {
    var t', last := t[..|t| - 1], t[|t| - 1];
    var u := Insert(t', x);
    assert Insert(t, x) == u + [last];
    KeysSnoc(u, last);
    assert Keys(t) == Keys(t') + [last.0];
    MultisetSnoc(Keys(u), Keys(t'), x.0, last.0);
  }

  lemma MultisetSnoc<K>(a: seq<K>, b: seq<K>, y: K, z: K)
    requires multiset(a) == multiset(b) + multiset{y}
    ensures multiset(a + [z]) == multiset(b + [z]) + multiset{y}
  {
  }

  lemma {:induction false} InsertKeepsOrder<K>(t: seq<(K, real)>, x: (K, real))
    requires NonIncreasing(t)
    ensures NonIncreasing(Insert(t, x))
  {
    if t == [] {
    } else if t[|t| - 1].1 >= x.1 {
      var r := t + [x];
      forall i, j | 0 <= i < j < |r| ensures r[i].1 >= r[j].1 {
        if j == |t| {
          assert r[i] == t[i];
          assert i == |t| - 1 || t[i].1 >= t[|t| - 1].1;
        }
      }
    } else {
      var t', last := t[..|t| - 1], t[|t| - 1];
      assert NonIncreasing(t');
      InsertKeepsOrder(t', x);
      InsertPermutes(t', x);
      var u := Insert(t', x);
      var r := u + [last];
      forall i, j | 0 <= i < j < |r| ensures r[i].1 >= r[j].1 {
        if j == |u| {
          assert r[i] == u[i] && u[i] in multiset(u);
          assert u[i] == x || u[i] in t';
        }
      }
      assert Insert(t, x) == r;
    }
  }

  lemma {:induction false} InsertStable<K>(t: seq<(K, real)>, x: (K, real), v: real)
    ensures WithScore(Insert(t, x), v) == WithScore(t, v) + (if x.1 == v then [x] else [])
  {
    if t == [] {
      assert [x][..0] == [];
    } else if t[|t| - 1].1 >= x.1 {
      assert (t + [x])[..|t|] == t;
    } else {
      var t', last := t[..|t| - 1], t[|t| - 1];
      InsertStable(t', x, v);
      var u := Insert(t', x);
      assert (u + [last])[..|u|] == u;
    }
  }

  /**
   * The sort is a permutation (of the items and of their keys), leaves the
   * scores non-increasing, and is stable: the items sharing a score keep
   * their relative order.
   */
  lemma {:induction false} SortByScoreSpec<K>(s: seq<(K, real)>)
    ensures multiset(SortByScore(s)) == multiset(s)
    ensures multiset(Keys(SortByScore(s))) == multiset(Keys(s))
    ensures NonIncreasing(SortByScore(s))
    ensures forall v :: WithScore(SortByScore(s), v) == WithScore(s, v)
  {
    if s != [] {
      var s', last := s[..|s| - 1], s[|s| - 1];
      assert s == s' + [last];
      SortByScoreSpec(s');
      InsertPermutes(SortByScore(s'), last);
      InsertPermutesKeys(SortByScore(s'), last);
      InsertKeepsOrder(SortByScore(s'), last);
      forall v ensures WithScore(SortByScore(s), v) == WithScore(s, v) {
        InsertStable(SortByScore(s'), last, v);
      }
    }
  }

  /** A list already in non-increasing score order is left as it is. */
  lemma {:induction false} SortSorted<K>(s: seq<(K, real)>)
    requires NonIncreasing(s)
    ensures SortByScore(s) == s
  {
    if s != [] {
      var s' := s[..|s| - 1];
      assert NonIncreasing(s');
      SortSorted(s');
      if s' != [] {
        assert s'[|s'| - 1].1 >= s[|s| - 1].1;
      }
      assert s == s' + [s[|s| - 1]];
    }
  }

  /** `sort_nodes` of items already in non-increasing score order is their keys, in order. */
  lemma SortNodesSorted<K>(items: seq<(K, real)>)
    requires NonIncreasing(items)
    ensures SortNodes(items) == Keys(items)
  {
    SortSorted(items);
  }
}
