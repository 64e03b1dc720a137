/**
 * Removing elements from a sequence while walking it by index, as the game's
 * update loop does with its containers (`seq<T>::remove(i)` shifts the later
 * elements down by one).  Two loop shapes occur:
 *
 *   - the index steps back after a removal (`remove(i); i--;`), so every
 *     element is examined: the result is `Misses`, the removed part `Hits`;
 *   - the index does not step back, so the element shifted into the freed
 *     slot is passed over unexamined: the result is `SkipRemove`.
 *
 * The hit test of each element never changes while such a loop runs, so each
 * element is paired with the outcome of its test.
 */
module Removal {

  /** An element and the outcome of the loop's test on it. */
  datatype Tagged<T> = Tagged(item: T, hit: bool)

  datatype Split<T> = Split(kept: seq<T>, removed: seq<T>)

  function Items<T>(s: seq<Tagged<T>>): (r: seq<T>)
    ensures |r| == |s|
  {
    if |s| == 0 then [] else [s[0].item] + Items(s[1..])
  }

  /** The elements whose test fails, in order. */
  function Misses<T>(s: seq<Tagged<T>>): (r: seq<T>)
    ensures forall x | x in r :: x in Items(s)
  {
    if |s| == 0 then []
    else if s[0].hit then Misses(s[1..])
    else [s[0].item] + Misses(s[1..])
  }

  /** The elements whose test succeeds, in order. */
  function Hits<T>(s: seq<Tagged<T>>): (r: seq<T>)
    ensures forall x | x in r :: x in Items(s)
  {
    if |s| == 0 then []
    else if s[0].hit then [s[0].item] + Hits(s[1..])
    else Hits(s[1..])
  }

  /** What the loop that removes without stepping back keeps and removes. */
  function SkipRemove<T>(s: seq<Tagged<T>>): (r: Split<T>)
    ensures forall x | x in r.kept :: x in Items(s)
    ensures forall x | x in r.removed :: x in Items(s)
  {
    if |s| == 0 then Split([], [])
    else if !s[0].hit then
      var r := SkipRemove(s[1..]);
      Split([s[0].item] + r.kept, r.removed)
    else if |s| == 1 then Split([], [s[0].item])
    else
      var r := SkipRemove(s[2..]);
      assert s[1..][1..] == s[2..];
      Split([s[1].item] + r.kept, [s[0].item] + r.removed)
  }

  /** Filtering splits a sequence into its misses and hits. */
  lemma {:induction false} FilterPartition<T>(s: seq<Tagged<T>>)
    ensures multiset(Misses(s)) + multiset(Hits(s)) == multiset(Items(s))
    ensures |Misses(s)| + |Hits(s)| == |s|
  {
    if |s| > 0 {
      FilterPartition(s[1..]);
    }
  }

  /** An element survives filtering exactly when some occurrence of it fails the test. */
  lemma {:induction false} MissesAreUnflagged<T>(s: seq<Tagged<T>>, x: T)
    ensures x in Misses(s) <==> exists k :: 0 <= k < |s| && s[k].item == x && !s[k].hit
  {
    if |s| > 0 {
      MissesAreUnflagged(s[1..], x);
      if x in Misses(s[1..]) {
        var k :| 0 <= k < |s| - 1 && s[1..][k].item == x && !s[1..][k].hit;
        assert s[k + 1].item == x && !s[k + 1].hit;
      }
      if exists k :: 0 <= k < |s| && s[k].item == x && !s[k].hit {
        var k :| 0 <= k < |s| && s[k].item == x && !s[k].hit;
        if k > 0 {
          assert s[1..][k - 1].item == x && !s[1..][k - 1].hit;
        }
      }
    }
  }

  /** Kept and removed together are exactly the input. */
  lemma {:induction false} SkipRemovePartition<T>(s: seq<Tagged<T>>)
    ensures multiset(SkipRemove(s).kept) + multiset(SkipRemove(s).removed) == multiset(Items(s))
    ensures |SkipRemove(s).kept| + |SkipRemove(s).removed| == |s|
  {
    if |s| == 0 {
    } else if !s[0].hit {
      SkipRemovePartition(s[1..]);
      assert Items(s) == [s[0].item] + Items(s[1..]);
    } else if |s| == 1 {
    } else {
      SkipRemovePartition(s[2..]);
      ItemsAppend(s[..2], s[2..]);
      assert s[..2] + s[2..] == s;
    }
  }

  lemma {:induction false} ItemsAppend<T>(a: seq<Tagged<T>>, b: seq<Tagged<T>>)
    ensures Items(a + b) == Items(a) + Items(b)
  {
    if |a| == 0 {
      assert a + b == b;
    } else {
      ItemsAppend(a[1..], b);
      assert (a + b)[1..] == a[1..] + b;
      assert (a + b)[0] == a[0];
    }
  }

  /** Dropping one leading element drops at most that element from the hits and from the misses. */
  lemma FilterStep<T>(s: seq<Tagged<T>>)
    requires |s| > 0
    ensures multiset(Hits(s[1..])) <= multiset(Hits(s))
    ensures multiset(Misses(s)) <= multiset([s[0].item]) + multiset(Misses(s[1..]))
  {
  }

  /** The skipping loop removes only elements that pass the test, and keeps every element that fails it. */
  lemma {:induction false} SkipRemoveHitBounds<T>(s: seq<Tagged<T>>)
    ensures multiset(SkipRemove(s).removed) <= multiset(Hits(s))
    ensures multiset(Misses(s)) <= multiset(SkipRemove(s).kept)
  {
    if |s| == 0 {
    } else if !s[0].hit {
      SkipRemoveHitBounds(s[1..]);
    } else if |s| > 1 {
      SkipRemoveHitBounds(s[2..]);
      var t := s[1..];
      assert t[1..] == s[2..];
      FilterStep(t);
      var r := SkipRemove(s[2..]);
      assert SkipRemove(s).removed == [s[0].item] + r.removed;
      assert SkipRemove(s).kept == [s[1].item] + r.kept;
      assert Hits(s) == [s[0].item] + Hits(t);
      assert Misses(s) == Misses(t);
    }
  }

  /**
   * The skip is real: of two adjacent elements that pass the test, the second
   * is never examined and survives the loop.
   */
  lemma {:induction false} SkipPassesOverNeighbour<T>(s: seq<Tagged<T>>, k: nat)
    requires k + 1 < |s| && s[k].hit && s[k + 1].hit
    requires forall j | 0 <= j < k :: !s[j].hit
    ensures SkipRemove(s).kept == Items(s[..k]) + [s[k + 1].item] + SkipRemove(s[k + 2..]).kept
  {
    if k > 0 {
      SkipPassesOverNeighbour(s[1..], k - 1);
      assert s[1..][k + 1..] == s[k + 2..];
      assert s[..k] == [s[0]] + s[1..][..k - 1];
      assert Items(s[..k]) == [s[0].item] + Items(s[1..][..k - 1]);
      assert s[1..][k] == s[k + 1];
    }
  }

  /** No element occurs twice. */
  predicate Distinct<T(==)>(s: seq<T>) {
    |s| == 0 || (s[0] !in s[1..] && Distinct(s[1..]))
  }

  /** Without repeats, different positions hold different elements. */
  lemma {:induction false} DistinctIndices<T>(s: seq<T>)
    requires Distinct(s)
    ensures forall i, j | 0 <= i < j < |s| :: s[i] != s[j]
  {
    if |s| > 0 {
      DistinctIndices(s[1..]);
      forall i, j | 0 <= i < j < |s|
        ensures s[i] != s[j]
      {
        assert s[j] == s[1..][j - 1];
        if i > 0 {
          assert s[i] == s[1..][i - 1];
        }
      }
    }
  }

  /** No repeats means every element is counted at most once. */
  lemma {:induction false} DistinctCounts<T>(s: seq<T>)
    ensures Distinct(s) <==> forall x :: multiset(s)[x] <= 1
  {
    if |s| > 0 {
      var t := s[1..];
      DistinctCounts(t);
      assert s == [s[0]] + t;
      assert multiset(s) == multiset{s[0]} + multiset(t);
      if !Distinct(s) {
        if s[0] in t {
          assert multiset(s)[s[0]] >= 2;
        } else {
          var x :| multiset(t)[x] > 1;
          assert multiset(s)[x] > 1;
        }
      }
    }
  }

  /** Appending an element that is not yet present keeps a sequence without repeats. */
  lemma DistinctAppend<T>(s: seq<T>, x: T)
    requires Distinct(s) && x !in s
    ensures Distinct(s + [x])
  {
    DistinctCounts(s);
    assert multiset(s + [x]) == multiset(s) + multiset{x};
    DistinctCounts(s + [x]);
  }

  /** The two halves of a sequence without repeats share no element. */
  lemma DistinctApart<T>(a: seq<T>, b: seq<T>)
    requires Distinct(a + b)
    ensures forall x | x in a :: x !in b
  {
    DistinctCounts(a + b);
    assert multiset(a + b) == multiset(a) + multiset(b);
    forall x | x in a
      ensures multiset(b)[x] == 0
    {
      assert multiset(a)[x] >= 1;
      assert multiset(a + b)[x] == multiset(a)[x] + multiset(b)[x];
    }
  }

  /** Keeping part of a sequence without repeats gives a sequence without repeats. */
  lemma DistinctSub<T>(a: seq<T>, b: seq<T>)
    requires Distinct(b) && multiset(a) <= multiset(b)
    ensures Distinct(a)
  {
    DistinctCounts(a);
    DistinctCounts(b);
  }

  /**
   * The loop `for (i = 0; i < s.size(); i++) if (hit) { s.remove(i); i--; }`
   * on the container `s`: every element is examined, survivors keep their order.
   */
  method RemoveWithStepBack<T>(s: seq<Tagged<T>>) returns (kept: seq<T>, removed: seq<T>)
    ensures kept == Misses(s) && removed == Hits(s)
  {
    var work := s;
    removed := [];
    var i: int := 0;
    ghost var j := 0;
    while i < |work|
      invariant 0 <= i <= |work| && 0 <= j <= |s|
      invariant work[i..] == s[j..]
      invariant Misses(s) == Items(work[..i]) + Misses(s[j..])
      invariant Hits(s) == removed + Hits(s[j..])
      decreases |work| - i
    {
      assert s[j..][1..] == s[j + 1..];
      assert s[j..][0] == work[i];
      if work[i].hit {
        removed := removed + [work[i].item];
        ghost var before := work;
        work := work[..i] + work[i + 1..];
        assert work[..i] == before[..i] && work[i..] == before[i + 1..];
        i := i - 1;
      } else {
        ItemsAppend(work[..i], [work[i]]);
        assert work[..i + 1] == work[..i] + [work[i]];
      }
      i := i + 1;
      j := j + 1;
    }
    assert work[..i] == work;
    kept := Items(work);
  }

  /**
   * The loop `for (k = 0; k < s.size(); k++) if (hit) s.remove(k);` on the
   * container `s`: after a removal the next element slides into slot k and
   * is passed over.
   */
  method RemoveWithoutStepBack<T>(s: seq<Tagged<T>>) returns (kept: seq<T>, removed: seq<T>)
    ensures kept == SkipRemove(s).kept && removed == SkipRemove(s).removed
  {
    var work := s;
    removed := [];
    var k := 0;
    ghost var done: seq<Tagged<T>> := [];
    ghost var j := 0;
    ghost var total := SkipRemove(s);
    while k < |work|
      invariant 0 <= j <= |s| && work == done + s[j..]
      invariant k == |done| || (k == |done| + 1 && j == |s|)
      invariant total.kept == Items(done) + SkipRemove(s[j..]).kept
      invariant total.removed == removed + SkipRemove(s[j..]).removed
      decreases |work| - k
    {
      assert k == |done| && j < |s|;
      SkipInvariantStep(s, j, done, removed, total);
      RemoveAt(done, s[j..]);
      if work[k].hit {
        removed := removed + [work[k].item];
        work := work[..k] + work[k + 1..];
        if j + 1 < |s| {
          done := done + [s[j + 1]];
          j := j + 2;
        } else {
          j := j + 1;
        }
      } else {
        done := done + [s[j]];
        j := j + 1;
      }
      k := k + 1;
    }
    SkipRemoveEmpty(s, j);
    assert work == done;
    kept := Items(work);
  }

  /** Removing the first unscanned element; what follows it moves into the freed slot. */
  lemma RemoveAt<T>(done: seq<Tagged<T>>, rest: seq<Tagged<T>>)
    requires |rest| > 0
    ensures (done + rest)[|done|] == rest[0]
    ensures (done + rest)[..|done|] + (done + rest)[|done| + 1..] == done + rest[1..]
    ensures |rest| > 1 ==> done + rest[1..] == (done + [rest[1]]) + rest[2..]
    ensures done + rest == (done + [rest[0]]) + rest[1..]
  {
    assert (done + rest)[..|done|] == done;
    assert (done + rest)[|done| + 1..] == rest[1..];
  }

  lemma SkipRemoveEmpty<T>(s: seq<Tagged<T>>, j: nat)
    requires j == |s|
    ensures s[j..] == [] && SkipRemove(s[j..]) == Split([], [])
  {
  }

  /** The skipping loop's invariant carried over one test, in each of its three cases. */
  lemma SkipInvariantStep<T>(s: seq<Tagged<T>>, j: nat, done: seq<Tagged<T>>, removed: seq<T>, total: Split<T>)
    requires j < |s|
    requires total.kept == Items(done) + SkipRemove(s[j..]).kept
    requires total.removed == removed + SkipRemove(s[j..]).removed
    ensures !s[j].hit ==> total.kept == Items(done + [s[j]]) + SkipRemove(s[j + 1..]).kept
    ensures !s[j].hit ==> total.removed == removed + SkipRemove(s[j + 1..]).removed
    ensures s[j].hit && j + 1 < |s| ==> total.kept == Items(done + [s[j + 1]]) + SkipRemove(s[j + 2..]).kept
    ensures s[j].hit && j + 1 < |s| ==> total.removed == removed + [s[j].item] + SkipRemove(s[j + 2..]).removed
    ensures s[j].hit && j + 1 == |s| ==> total.kept == Items(done) + SkipRemove(s[j + 1..]).kept
    ensures s[j].hit && j + 1 == |s| ==> total.removed == removed + [s[j].item] + SkipRemove(s[j + 1..]).removed
  {
    SkipStep(s, j);
    if !s[j].hit {
      ItemsAppend(done, [s[j]]);
    } else if j + 1 < |s| {
      ItemsAppend(done, [s[j + 1]]);
    } else {
      assert s[j + 1..] == [];
    }
  }

  /** One step of `SkipRemove` from position j. */
  lemma SkipStep<T>(s: seq<Tagged<T>>, j: nat)
    requires j < |s|
    ensures !s[j].hit ==>
      (SkipRemove(s[j..]) == Split([s[j].item] + SkipRemove(s[j + 1..]).kept, SkipRemove(s[j + 1..]).removed))
    ensures s[j].hit && j + 1 == |s| ==> SkipRemove(s[j..]) == Split([], [s[j].item])
    ensures s[j].hit && j + 1 < |s| ==>
      (SkipRemove(s[j..]) == Split([s[j + 1].item] + SkipRemove(s[j + 2..]).kept, [s[j].item] + SkipRemove(s[j + 2..]).removed))
  {
    assert s[j..][1..] == s[j + 1..];
    if j + 1 < |s| {
      assert s[j..][2..] == s[j + 2..];
    }
  }
}
