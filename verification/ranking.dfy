/** Python's `sorted(range(n), key=..., reverse=True)`, the one sorting step
    behind every ranking in the service (BM25 top-k, the FAISS neighbour
    list, hybrid fusion and both rerankers). Python's sort is stable even
    with `reverse=True`, so positions with equal scores keep their original
    order; the result is therefore the unique listing of the positions in
    the strict order `Before`. */
module Ranking {
  import opened Common

  /** Position i is listed before position j: a higher score, or an equal
      score and an earlier position. */
  predicate Before(scores: seq<real>, i: nat, j: nat)
    requires i < |scores| && j < |scores|
  {
    scores[i] > scores[j] || (scores[i] == scores[j] && i < j)
  }

  /** `r` lists positions of `scores` in strictly increasing `Before` order
      (so without repetition). */
  predicate Ranked(scores: seq<real>, r: seq<nat>)
  {
    && (forall p :: 0 <= p < |r| ==> r[p] < |scores|)
    && (forall p, q :: 0 <= p < q < |r| ==> r[p] < |scores| && r[q] < |scores| && Before(scores, r[p], r[q]))
  }

  /** Inserts position x into a ranked listing at its place. */
  function Insert(scores: seq<real>, s: seq<nat>, x: nat): (r: seq<nat>)
    requires x < |scores| && Ranked(scores, s) && x !in s
    ensures Ranked(scores, r)
    ensures |r| == |s| + 1
    ensures forall i :: i in r <==> i in s || i == x
  {
    if s == [] then [x]
    else if Before(scores, x, s[0]) then
      BeforeAll(scores, x, s);
      ConsRanked(scores, x, s);
      [x] + s
    else
      RankedTail(scores, s);
      var rest := Insert(scores, s[1..], x);
      AfterHead(scores, s, x, rest);
      ConsRanked(scores, s[0], rest);
      assert s == [s[0]] + s[1..];
      [s[0]] + rest
  }

  /** A position listed before the head of a ranked listing is listed
      before all of it. */
  lemma BeforeAll(scores: seq<real>, x: nat, s: seq<nat>)
    requires x < |scores| && Ranked(scores, s) && s != [] && Before(scores, x, s[0])
    ensures forall p :: 0 <= p < |s| ==> Before(scores, x, s[p])
  {
    forall p | 0 < p < |s| ensures Before(scores, x, s[p]) {
      assert Before(scores, s[0], s[p]);
    }
  }

  /** When x goes after the head, the head comes before everything that
      follows it once x is in the tail. */
  lemma AfterHead(scores: seq<real>, s: seq<nat>, x: nat, rest: seq<nat>)
    requires x < |scores| && Ranked(scores, s) && s != [] && x !in s && !Before(scores, x, s[0])
    requires forall p :: 0 <= p < |rest| ==> rest[p] < |scores|
    requires forall i :: i in rest <==> i in s[1..] || i == x
    ensures forall p :: 0 <= p < |rest| ==> Before(scores, s[0], rest[p])
  {
    forall p | 0 <= p < |rest| ensures Before(scores, s[0], rest[p]) {
      var i := rest[p];
      assert i in rest;
      if i != x {
        var q :| 0 <= q < |s[1..]| && s[1..][q] == i;
        assert s[q + 1] == i;
      }
    }
  }

  /** A head listed before every element of a ranked tail gives a ranked
      listing. */
  lemma ConsRanked(scores: seq<real>, h: nat, t: seq<nat>)
    requires h < |scores| && Ranked(scores, t)
    requires forall p :: 0 <= p < |t| ==> Before(scores, h, t[p])
    ensures Ranked(scores, [h] + t)
  {
    var l := [h] + t;
    forall p, q | 0 <= p < q < |l| ensures l[p] < |scores| && l[q] < |scores| && Before(scores, l[p], l[q]) {
      assert l[q] == t[q - 1];
      if p > 0 {
        assert l[p] == t[p - 1];
      }
    }
  }

  /** The stable descending order of the first n positions of `scores`. */
  function SortIndices(scores: seq<real>, n: nat): (r: seq<nat>)
    requires n <= |scores|
    ensures Ranked(scores, r)
    ensures |r| == n
    ensures forall i :: i in r <==> 0 <= i < n
  {
    if n == 0 then [] else Insert(scores, SortIndices(scores, n - 1), n - 1)
  }

  /** `sorted(range(len(scores)), key=lambda i: scores[i], reverse=True)[:k]`. */
  function TopIndices(scores: seq<real>, k: nat): (r: seq<nat>)
    ensures |r| == Min(k, |scores|)
    ensures Ranked(scores, r)
    ensures forall i :: 0 <= i < |scores| && i !in r ==>
              forall p :: 0 <= p < |r| ==> Before(scores, r[p], i)
  {
    var all := SortIndices(scores, |scores|);
    var r := all[..Min(k, |scores|)];
    assert forall i :: 0 <= i < |scores| && i !in r ==>
             forall p :: 0 <= p < |r| ==> Before(scores, r[p], i) by {
      forall i, p | 0 <= i < |scores| && i !in r && 0 <= p < |r|
        ensures Before(scores, r[p], i)
      {
        assert i in all;
        var q :| 0 <= q < |all| && all[q] == i;
      }
    }
    r
  }

  /** A ranked listing has non-increasing scores, and equal scores appear in
      their original order. */
  lemma RankedScores(scores: seq<real>, r: seq<nat>, p: nat, q: nat)
    requires Ranked(scores, r) && p < q < |r|
    ensures scores[r[p]] >= scores[r[q]]
    ensures scores[r[p]] == scores[r[q]] ==> r[p] < r[q]
    ensures r[p] != r[q]
  {
  }

  /** The scores read along a ranked listing are non-increasing. */
  lemma RankedScoresNonIncreasing(scores: seq<real>, r: seq<nat>)
    requires Ranked(scores, r)
    ensures forall p, q :: 0 <= p < q < |r| ==> scores[r[p]] >= scores[r[q]]
  {
    forall p, q | 0 <= p < q < |r| ensures scores[r[p]] >= scores[r[q]] {
      RankedScores(scores, r, p, q);
    }
  }

  /** The top-k listing read as plain facts: distinct positions, scores
      non-increasing along it, equal scores in position order, and no
      position left out scoring above one listed. */
  lemma TopIndicesFacts(scores: seq<real>, k: nat)
    ensures var idx := TopIndices(scores, k);
            && Distinct(idx)
            && (forall p, q :: 0 <= p < q < |idx| ==> scores[idx[p]] >= scores[idx[q]])
            && (forall p, q :: 0 <= p < q < |idx| && scores[idx[p]] == scores[idx[q]] ==> idx[p] < idx[q])
            && (forall i, p :: 0 <= i < |scores| && i !in idx && 0 <= p < |idx| ==> scores[i] <= scores[idx[p]])
  {
    var idx := TopIndices(scores, k);
    forall p, q | 0 <= p < q < |idx|
      ensures idx[p] != idx[q] && scores[idx[p]] >= scores[idx[q]]
      ensures scores[idx[p]] == scores[idx[q]] ==> idx[p] < idx[q]
    {
      RankedScores(scores, idx, p, q);
    }
    forall i, p | 0 <= i < |scores| && i !in idx && 0 <= p < |idx|
      ensures scores[i] <= scores[idx[p]]
    {
      assert Before(scores, idx[p], i);
    }
  }

  /** `[s[i] for i in idx]`. */
  function Gather<T>(s: seq<T>, idx: seq<nat>): (r: seq<T>)
    requires forall p :: 0 <= p < |idx| ==> idx[p] < |s|
    ensures |r| == |idx|
    ensures forall p :: 0 <= p < |idx| ==> r[p] == s[idx[p]]
  {
    if idx == [] then [] else [s[idx[0]]] + Gather(s, idx[1..])
  }

  /** The multiset of the elements `s` holds at the positions `idx`. */
  function Picked<T>(s: seq<T>, idx: seq<nat>): multiset<T>
    requires forall p :: 0 <= p < |idx| ==> idx[p] < |s|
  {
    if idx == [] then multiset{} else multiset{s[idx[0]]} + Picked(s, idx[1..])
  }

  /** Gathering along `idx` yields exactly the picked elements. */
  lemma {:induction false} GatherPicked<T>(s: seq<T>, idx: seq<nat>)
    requires forall p :: 0 <= p < |idx| ==> idx[p] < |s|
    ensures multiset(Gather(s, idx)) == Picked(s, idx)
  {
    if idx != [] {
      GatherPicked(s, idx[1..]);
      assert Gather(s, idx) == [s[idx[0]]] + Gather(s, idx[1..]);
    }
  }

  /** Inserting a position into the listing adds exactly its element. */
  lemma {:induction false} GatherInsert<T>(s: seq<T>, scores: seq<real>, r: seq<nat>, x: nat)
    requires |s| == |scores| && x < |scores| && Ranked(scores, r) && x !in r
    ensures Picked(s, Insert(scores, r, x)) == Picked(s, r) + multiset{s[x]}
  {
    if r == [] {
      assert Insert(scores, r, x) == [x];
    } else if Before(scores, x, r[0]) {
      var ins := [x] + r;
      assert Insert(scores, r, x) == ins;
      assert ins[1..] == r;
    } else {
      var tail := r[1..];
      RankedTail(scores, r);
      var rest := Insert(scores, tail, x);
      var ins := [r[0]] + rest;
      assert Insert(scores, r, x) == ins;
      GatherInsert(s, scores, tail, x);
      assert ins[1..] == rest;
    }
  }

  /** The tail of a ranked listing is ranked. */
  lemma RankedTail(scores: seq<real>, r: seq<nat>)
    requires Ranked(scores, r) && r != []
    ensures Ranked(scores, r[1..])
  {
    forall p, q | 0 <= p < q < |r[1..]|
      ensures r[1..][p] < |scores| && r[1..][q] < |scores| && Before(scores, r[1..][p], r[1..][q])
    {
      assert r[1..][p] == r[p + 1] && r[1..][q] == r[q + 1];
    }
  }

  /** The stable order of the first n positions picks the first n elements. */
  lemma {:induction false} SortPicksPrefix<T>(s: seq<T>, scores: seq<real>, n: nat)
    requires |s| == |scores| && n <= |s|
    ensures Picked(s, SortIndices(scores, n)) == multiset(s[..n])
  {
    if n > 0 {
      var prev := SortIndices(scores, n - 1);
      assert SortIndices(scores, n) == Insert(scores, prev, n - 1);
      SortPicksPrefix(s, scores, n - 1);
      GatherInsert(s, scores, prev, n - 1);
      PrefixStep(s, n, Picked(s, prev), Picked(s, SortIndices(scores, n)));
    }
  }

  lemma PrefixStep<T>(s: seq<T>, n: nat, m0: multiset<T>, m: multiset<T>)
    requires 0 < n <= |s| && m0 == multiset(s[..n - 1]) && m == m0 + multiset{s[n - 1]}
    ensures m == multiset(s[..n])
  {
    assert s[..n] == s[..n - 1] + [s[n - 1]];
  }

  /** Gathering along the stable order rearranges the first n elements and
      nothing else: the result is a permutation of `s[..n]`. */
  lemma GatherSortIsPermutation<T>(s: seq<T>, scores: seq<real>, n: nat)
    requires |s| == |scores| && n <= |s|
    ensures multiset(Gather(s, SortIndices(scores, n))) == multiset(s[..n])
  {
    GatherPicked(s, SortIndices(scores, n));
    SortPicksPrefix(s, scores, n);
  }

  /** The stable order is the only ranked listing of all positions: any
      other listing that is ranked and complete coincides with it. */
  lemma {:induction false} RankedIsUnique(scores: seq<real>, r: seq<nat>, t: seq<nat>)
    requires Ranked(scores, r) && Ranked(scores, t)
    requires forall i :: i in r <==> i in t
    ensures r == t
    decreases |r| + |t|
  {
    assert r != [] ==> r[0] in t;
    assert t != [] ==> t[0] in r;
    if r != [] && t != [] {
      RankedHeadsAgree(scores, r, t);
      RankedTail(scores, r);
      RankedTail(scores, t);
      RankedTailsAgree(scores, r, t);
      RankedIsUnique(scores, r[1..], t[1..]);
      assert r == [r[0]] + r[1..] && t == [t[0]] + t[1..];
    }
  }

  /** Two ranked listings of the same positions start alike. */
  lemma RankedHeadsAgree(scores: seq<real>, r: seq<nat>, t: seq<nat>)
    requires Ranked(scores, r) && Ranked(scores, t) && r != [] && t != []
    requires forall i :: i in r <==> i in t
    ensures r[0] == t[0]
  {
    assert t[0] in r && r[0] in t;
    var p :| 0 <= p < |r| && r[p] == t[0];
    var q :| 0 <= q < |t| && t[q] == r[0];
  }

  /** ... and so their tails list the same positions. */
  lemma RankedTailsAgree(scores: seq<real>, r: seq<nat>, t: seq<nat>)
    requires Ranked(scores, r) && Ranked(scores, t) && r != [] && t != [] && r[0] == t[0]
    requires forall i :: i in r <==> i in t
    ensures forall i :: i in r[1..] <==> i in t[1..]
  {
    forall i ensures i in r[1..] ==> i in t[1..] {
      if i in r[1..] {
        var p :| 0 <= p < |r[1..]| && r[1..][p] == i;
        assert Before(scores, r[0], r[p + 1]);
        assert i in t;
        var q :| 0 <= q < |t| && t[q] == i;
        assert t[1..][q - 1] == i;
      }
    }
    forall i ensures i in t[1..] ==> i in r[1..] {
      if i in t[1..] {
        var p :| 0 <= p < |t[1..]| && t[1..][p] == i;
        assert Before(scores, t[0], t[p + 1]);
        assert i in r;
        var q :| 0 <= q < |r| && r[q] == i;
        assert r[1..][q - 1] == i;
      }
    }
  }
}
