/** The counting-sort layout that Particles.Hash builds
    (PhySim/PhyObjects.py:210-234), described by counting: bucket `b`'s
    entries start at the number of particles in lower buckets, and within a
    bucket the particles come out in decreasing index order. */
module CountingSort {

  /** How many entries of `s` equal `b`. */
  function CountEq(s: seq<int>, b: int): (c: nat)
    ensures c <= |s|
  {
    if s == [] then 0 else (if s[0] == b then 1 else 0) + CountEq(s[1..], b)
  }

  /** How many entries of `s` lie below `b`. */
  function CountBelow(s: seq<int>, b: int): (c: nat)
    ensures c <= |s|
  {
    if s == [] then 0 else (if s[0] < b then 1 else 0) + CountBelow(s[1..], b)
  }

  /** Where the placement pass puts particle `i`: after every particle of a
      lower bucket and after every later particle of its own bucket. */
  function Slot(s: seq<int>, i: int): int
    requires 0 <= i < |s|
  {
    CountBelow(s, s[i]) + CountEq(s[i + 1..], s[i])
  }

  predicate InBuckets(s: seq<int>, buckets: int)
  {
    forall i :: 0 <= i < |s| ==> 0 <= s[i] < buckets
  }

  predicate Distinct(t: seq<int>)
  {
    forall i, j :: 0 <= i < j < |t| ==> t[i] != t[j]
  }

  /** `starts` and `entries` are the index Hash builds for particles whose
      buckets are `s`, one of `2 * |s|` buckets each. */
  ghost predicate Layout(starts: seq<int>, entries: seq<int>, s: seq<int>)
  {
    && |starts| == 2 * |s| + 1
    && |entries| == |s|
    && InBuckets(s, 2 * |s|)
    && (forall b :: 0 <= b < |starts| ==> starts[b] == CountBelow(s, b))
    && (forall i :: 0 <= i < |s| ==> 0 <= Slot(s, i) < |s| && entries[Slot(s, i)] == i)
  }

  // ---------------------------------------------------------------------
  // Counting

  lemma {:induction false} CountEqAppend(s: seq<int>, t: seq<int>, b: int)
    ensures CountEq(s + t, b) == CountEq(s, b) + CountEq(t, b)
  {
    if s != [] {
      assert (s + t)[1..] == s[1..] + t;
      CountEqAppend(s[1..], t, b);
    } else {
      assert s + t == t;
    }
  }

  /** Counting one entry more at the end of a prefix. */
  lemma CountEqExtend(s: seq<int>, i: int, b: int)
    requires 0 <= i < |s|
    ensures CountEq(s[..i + 1], b) == CountEq(s[..i], b) + (if s[i] == b then 1 else 0)
  {
    assert s[..i + 1] == s[..i] + [s[i]];
    CountEqAppend(s[..i], [s[i]], b);
  }

  /** Counting one entry less at the front of a suffix. */
  lemma CountEqDrop(s: seq<int>, i: int, b: int)
    requires 0 <= i < |s|
    ensures CountEq(s[i..], b) == CountEq(s[i + 1..], b) + (if s[i] == b then 1 else 0)
  {
    assert s[i..][1..] == s[i + 1..];
  }

  /** The prefix sum step: the entries below `b + 1` are those below `b` and those equal to `b`. */
  lemma {:induction false} CountBelowNext(s: seq<int>, b: int)
    ensures CountBelow(s, b + 1) == CountBelow(s, b) + CountEq(s, b)
  {
    if s != [] {
      CountBelowNext(s[1..], b);
    }
  }

  lemma {:induction false} CountBelowMonotone(s: seq<int>, b1: int, b2: int)
    requires b1 <= b2
    ensures CountBelow(s, b1) <= CountBelow(s, b2)
  {
    if s != [] {
      CountBelowMonotone(s[1..], b1, b2);
    }
  }

  /** With every entry in `[0, k)`, nothing is below 0 and everything is below `k`. */
  lemma {:induction false} CountBelowEnds(s: seq<int>, k: int)
    requires InBuckets(s, k)
    ensures CountBelow(s, 0) == 0 && CountBelow(s, k) == |s|
  {
    if s != [] {
      assert InBuckets(s[1..], k);
      CountBelowEnds(s[1..], k);
    }
  }

  // ---------------------------------------------------------------------
  // Slots

  /** Particle `i` lands inside its bucket's slice. */
  lemma SlotInBucket(s: seq<int>, i: int)
    requires 0 <= i < |s|
    ensures CountBelow(s, s[i]) <= Slot(s, i) < CountBelow(s, s[i] + 1)
  {
    LaterOfBucketFewer(s, i);
    CountBelowNext(s, s[i]);
  }

  /** What is left of particle `i`'s bucket after it is less than the whole bucket. */
  lemma LaterOfBucketFewer(s: seq<int>, i: int)
    requires 0 <= i < |s|
    ensures CountEq(s[i + 1..], s[i]) < CountEq(s, s[i])
  {
    var b := s[i];
    assert s[..i] + s[i..] == s;
    CountEqAppend(s[..i], s[i..], b);
    CountEqDrop(s, i, b);
  }

  /** No two particles land in the same slot. */
  lemma SlotInjective(s: seq<int>, i: int, j: int)
    requires 0 <= i < j < |s|
    ensures Slot(s, i) != Slot(s, j)
  {
    SlotInBucket(s, i);
    SlotInBucket(s, j);
    if s[i] == s[j] {
      var b := s[i];
      assert s[i + 1..] == s[i + 1..j] + s[j..];
      CountEqAppend(s[i + 1..j], s[j..], b);
      CountEqDrop(s, j, b);
    } else if s[i] < s[j] {
      CountBelowMonotone(s, s[i] + 1, s[j]);
    } else {
      CountBelowMonotone(s, s[j] + 1, s[i]);
    }
  }

  /** The placement pass before particle `i`: each bucket's start has moved
      down past its particles at indices `i` and above, and particles below
      `i` sit in their slots. */
  ghost predicate PlacedBelow(starts: seq<int>, entries: seq<int>, s: seq<int>, i: int)
    requires 0 <= i <= |s|
  {
    && |starts| == 2 * |s| + 1 && |entries| == |s|
    && (forall b :: 0 <= b < 2 * |s| ==> starts[b] == CountBelow(s, b) + CountEq(s[i..], b))
    && (forall j :: 0 <= j < i ==> 0 <= Slot(s, j) < |s| && entries[Slot(s, j)] == j)
  }

  /** One step of the placement pass: particle `i` goes one below its
      bucket's current start, which is its slot. */
  lemma PlaceStep(starts: seq<int>, entries: seq<int>, s: seq<int>, i: int)
    requires 0 <= i < |s| && InBuckets(s, 2 * |s|)
    requires PlacedBelow(starts, entries, s, i)
    ensures starts[s[i]] - 1 == Slot(s, i) && 0 <= Slot(s, i) < |s|
    ensures PlacedBelow(starts[s[i] := Slot(s, i)], entries[Slot(s, i) := i], s, i + 1)
  {
    var h := s[i];
    CountEqDrop(s, i, h);
    SlotInBucket(s, i);
    CountBelowEnds(s, 2 * |s|);
    CountBelowMonotone(s, h + 1, 2 * |s|);
    var starts' := starts[h := Slot(s, i)];
    forall b | 0 <= b < 2 * |s|
      ensures starts'[b] == CountBelow(s, b) + CountEq(s[i + 1..], b)
    {
      CountEqDrop(s, i, b);
    }
    forall j | 0 <= j < i
      ensures Slot(s, j) != Slot(s, i)
    {
      SlotInjective(s, j, i);
    }
  }

  /** After the last particle is placed, the arrays hold the layout. */
  lemma PlacedAll(starts: seq<int>, entries: seq<int>, s: seq<int>)
    requires InBuckets(s, 2 * |s|) && PlacedBelow(starts, entries, s, |s|)
    requires starts[2 * |s|] == |s|
    ensures Layout(starts, entries, s)
  {
    assert s[|s|..] == [];
    CountBelowEnds(s, 2 * |s|);
  }

  // ---------------------------------------------------------------------
  // Pigeonhole

  /** The set of indices `0 .. n-1`. */
  ghost function Range(n: int): set<int>
    decreases n
  {
    if n <= 0 then {} else Range(n - 1) + {n - 1}
  }

  lemma {:induction false} RangeHas(n: int, k: int)
    ensures k in Range(n) <==> 0 <= k < n
    decreases n
  {
    if 0 < n {
      RangeHas(n - 1, k);
    }
  }

  lemma {:induction false} RangeSize(n: nat)
    ensures |Range(n)| == n
  {
    if n > 0 {
      RangeHas(n - 1, n - 1);
      RangeSize(n - 1);
    }
  }

  /** A sequence without repetitions drawn from `a` is no longer than `a` is large. */
  lemma {:induction false} DistinctBound(t: seq<int>, a: set<int>)
    requires Distinct(t)
    requires forall i :: 0 <= i < |t| ==> t[i] in a
    ensures |t| <= |a|
  {
    if t != [] {
      var rest := a - {t[0]};
      assert forall i :: 0 <= i < |t[1..]| ==> t[1..][i] in rest by {
        forall i | 0 <= i < |t[1..]| ensures t[1..][i] in rest {
          assert t[1..][i] == t[i + 1] && t[i + 1] != t[0];
        }
      }
      DistinctBound(t[1..], rest);
      assert a == rest + {t[0]};
    }
  }

  /** Indices without repetitions drawn from `[0, n)` number at most `n`. */
  lemma DistinctIndicesBound(t: seq<int>, n: nat)
    requires Distinct(t)
    requires forall i :: 0 <= i < |t| ==> 0 <= t[i] < n
    ensures |t| <= n
  {
    RangeSize(n);
    forall i | 0 <= i < |t| ensures t[i] in Range(n) {
      RangeHas(n, t[i]);
    }
    DistinctBound(t, Range(n));
  }

  /** Every slot is some particle's slot. */
  lemma SlotOnto(s: seq<int>, k: int)
    requires 0 <= k < |s|
    ensures exists i :: 0 <= i < |s| && Slot(s, i) == k
  {
    var n := |s|;
    var t := seq(n, i requires 0 <= i < n => Slot(s, i));
    forall i | 0 <= i < n
      ensures 0 <= t[i] < n
    {
      SlotInBucket(s, i);
    }
    if forall i :: 0 <= i < n ==> Slot(s, i) != k {
      forall i, j | 0 <= i < j < n
        ensures t[i] != t[j]
      {
        SlotInjective(s, i, j);
      }
      RangeSize(n);
      RangeHas(n, k);
      forall i | 0 <= i < n ensures t[i] in Range(n) - {k} {
        RangeHas(n, t[i]);
      }
      assert |Range(n) - {k}| == n - 1 by {
        assert Range(n) == (Range(n) - {k}) + {k};
      }
      DistinctBound(t, Range(n) - {k});
    }
  }

  // ---------------------------------------------------------------------
  // What the layout promises

  /** The start table begins at 0, ends at the particle count and never decreases. */
  lemma LayoutStarts(starts: seq<int>, entries: seq<int>, s: seq<int>)
    requires Layout(starts, entries, s)
    ensures starts[0] == 0 && starts[2 * |s|] == |s|
    ensures forall b1, b2 :: 0 <= b1 <= b2 < |starts| ==> starts[b1] <= starts[b2]
  {
    CountBelowEnds(s, 2 * |s|);
    forall b1, b2 | 0 <= b1 <= b2 < |starts|
      ensures starts[b1] <= starts[b2]
    {
      CountBelowMonotone(s, b1, b2);
    }
  }

  /** The entries are a permutation of the particle indices: each is an index
      and no index appears twice. */
  lemma LayoutPermutation(starts: seq<int>, entries: seq<int>, s: seq<int>)
    requires Layout(starts, entries, s)
    ensures forall k :: 0 <= k < |entries| ==> 0 <= entries[k] < |s| && Slot(s, entries[k]) == k
    ensures Distinct(entries)
  {
    forall k | 0 <= k < |entries|
      ensures 0 <= entries[k] < |s| && Slot(s, entries[k]) == k
    {
      SlotOnto(s, k);
    }
  }

  /** An entry inside bucket `b`'s slice is a particle hashed to `b`. */
  lemma EntryInOwnBucket(starts: seq<int>, entries: seq<int>, s: seq<int>, b: int, k: int)
    requires Layout(starts, entries, s) && 0 <= b < 2 * |s|
    requires starts[b] <= k < starts[b + 1] && 0 <= k < |entries|
    ensures 0 <= entries[k] < |s| && s[entries[k]] == b
  {
    SlotOnto(s, k);
    var q := entries[k];
    assert Slot(s, q) == k;
    SlotInBucket(s, q);
    if s[q] < b {
      CountBelowMonotone(s, s[q] + 1, b);
    } else if s[q] > b {
      CountBelowMonotone(s, b + 1, s[q]);
    }
  }

  /** The slice of bucket `b` holds exactly the particles hashed to `b`. */
  lemma LayoutSlice(starts: seq<int>, entries: seq<int>, s: seq<int>, b: int)
    requires Layout(starts, entries, s) && 0 <= b < 2 * |s|
    ensures 0 <= starts[b] <= starts[b + 1] <= |entries|
    ensures forall k :: starts[b] <= k < starts[b + 1] ==> 0 <= entries[k] < |s|
    ensures forall q :: 0 <= q < |s| ==> (q in entries[starts[b]..starts[b + 1]] <==> s[q] == b)
  {
    CountBelowEnds(s, 2 * |s|);
    CountBelowMonotone(s, b, b + 1);
    CountBelowMonotone(s, b + 1, 2 * |s|);
    var lo, hi := starts[b], starts[b + 1];
    forall k | lo <= k < hi
      ensures 0 <= entries[k] < |s|
    {
      EntryInOwnBucket(starts, entries, s, b, k);
    }
    forall q | 0 <= q < |s|
      ensures q in entries[lo..hi] <==> s[q] == b
    {
      if s[q] == b {
        SlotInBucket(s, q);
        assert entries[lo..hi][Slot(s, q) - lo] == q;
      }
      if q in entries[lo..hi] {
        var t :| 0 <= t < hi - lo && entries[lo..hi][t] == q;
        EntryInOwnBucket(starts, entries, s, b, lo + t);
      }
    }
  }

  /** The layout is determined by the buckets alone, so rebuilding the index
      from unchanged positions reproduces it exactly. */
  lemma LayoutUnique(starts1: seq<int>, entries1: seq<int>, starts2: seq<int>, entries2: seq<int>, s: seq<int>)
    requires Layout(starts1, entries1, s) && Layout(starts2, entries2, s)
    ensures starts1 == starts2 && entries1 == entries2
  {
    forall k | 0 <= k < |entries1|
      ensures entries1[k] == entries2[k]
    {
      SlotOnto(s, k);
    }
  }

  // ---------------------------------------------------------------------
  // The prefix-sum pass of the index build

  /** Turn per-bucket counts into bucket ends: afterwards `starts[b]` is the
      number of entries in buckets up to and including `b`, and the extra
      last slot holds the total. */
  method PrefixSums(starts: array<int>, ghost s: seq<int>)
    requires starts.Length == 2 * |s| + 1 && InBuckets(s, 2 * |s|)
    requires forall b :: 0 <= b < starts.Length ==> starts[b] == CountEq(s, b)
    modifies starts
    ensures forall b :: 0 <= b < 2 * |s| ==> starts[b] == CountBelow(s, b + 1)
    ensures starts[2 * |s|] == |s|
  {
    var size := starts.Length - 1;
    CountBelowEnds(s, size);
    var start := 0;
    for i := 0 to size
      invariant start == CountBelow(s, i)
      invariant forall b :: 0 <= b < i ==> starts[b] == CountBelow(s, b + 1)
      invariant forall b :: i <= b <= size ==> starts[b] == CountEq(s, b)
    {
      CountBelowNext(s, i);
      start := start + starts[i];
      starts[i] := start;
    }
    starts[size] := start;
  }
}
