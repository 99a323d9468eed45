/** Broad phase, stateful part: the particle collection with its spatial
    hash index (class Particles, PhySim/PhyObjects.py:169-265). */
module ParticleSystem {
  import opened Vectors
  import opened Bodies
  import opened SpatialHash
  import opened CountingSort
  import opened Pairs

  /** What `Particles[index]` is given: an integer, a coordinate pair, or
      anything else. */
  datatype Key = Index(i: int) | Coords(x: real, y: real) | Unsupported

  /** What `Particles[index]` yields: a particle, Python's None, or the error it raises. */
  datatype Lookup = Found(p: MassPoint) | NotFound | IndexError | TypeError

  /** The current values of a sequence of particles. */
  ghost function StatesOf(ps: seq<MassPoint>): (bs: seq<Body>)
    reads ps
    ensures |bs| == |ps| && forall i :: 0 <= i < |ps| ==> bs[i] == ps[i].State()
  {
    seq(|ps|, i requires 0 <= i < |ps| reads ps => ps[i].State())
  }

  /** The centre of each body. */
  function Centres(bs: seq<Body>): (cs: seq<Vec>)
    ensures |cs| == |bs| && forall k :: 0 <= k < |bs| ==> cs[k] == bs[k].r
  {
    seq(|bs|, k requires 0 <= k < |bs| => bs[k].r)
  }

  function SumRadii(ps: seq<MassPoint>): real
  {
    if ps == [] then 0.0 else ps[0].radius + SumRadii(ps[1..])
  }

  /** The smallest radius of a non-empty set of particles. */
  function MinRadius(ps: seq<MassPoint>): real
    requires ps != []
  {
    if |ps| == 1 then ps[0].radius else Min(ps[0].radius, MinRadius(ps[1..]))
  }

  /** The largest radius of a non-empty set of particles. */
  function MaxRadius(ps: seq<MassPoint>): real
    requires ps != []
  {
    if |ps| == 1 then ps[0].radius else Max(ps[0].radius, MaxRadius(ps[1..]))
  }

  function Max(a: real, b: real): real { if a <= b then b else a }

  /** MinRadius and MaxRadius are radii of `ps` and bound all of them. */
  lemma {:induction false} RadiusExtremes(ps: seq<MassPoint>)
    requires ps != []
    ensures forall i :: 0 <= i < |ps| ==> MinRadius(ps) <= ps[i].radius <= MaxRadius(ps)
    ensures exists i :: 0 <= i < |ps| && MinRadius(ps) == ps[i].radius
    ensures exists j :: 0 <= j < |ps| && MaxRadius(ps) == ps[j].radius
  {
    if |ps| == 1 {
      assert MinRadius(ps) == ps[0].radius && MaxRadius(ps) == ps[0].radius;
    } else {
      RadiusExtremes(ps[1..]);
      assert forall i :: 1 <= i < |ps| ==> ps[i] == ps[1..][i - 1];
      var i :| 0 <= i < |ps| - 1 && MinRadius(ps[1..]) == ps[1..][i].radius;
      var j :| 0 <= j < |ps| - 1 && MaxRadius(ps[1..]) == ps[1..][j].radius;
      assert MinRadius(ps) == ps[0].radius || MinRadius(ps) == ps[i + 1].radius;
      assert MaxRadius(ps) == ps[0].radius || MaxRadius(ps) == ps[j + 1].radius;
      forall k | 1 <= k < |ps|
        ensures MinRadius(ps) <= ps[k].radius <= MaxRadius(ps)
      {
        assert ps[k] == ps[1..][k - 1];
      }
    }
  }

  /** A sum of `n` terms within [lo, hi], divided by `n`, is within [lo, hi]. */
  lemma MeanBetween(sum: real, n: real, lo: real, hi: real)
    requires 0.0 < n && n * lo <= sum <= n * hi
    ensures lo <= sum / n <= hi
  {
    assert sum / n * n == sum;
  }

  /** Radii all within [lo, hi] add up to between |ps|*lo and |ps|*hi. */
  lemma {:induction false} SumRadiiBetween(ps: seq<MassPoint>, lo: real, hi: real)
    requires forall i :: 0 <= i < |ps| ==> lo <= ps[i].radius <= hi
    ensures |ps| as real * lo <= SumRadii(ps) <= |ps| as real * hi
  {
    if ps != [] {
      SumRadiiBetween(ps[1..], lo, hi);
    }
  }

  // ---------------------------------------------------------------------
  // What a query has gathered so far

  /** `found[..size]` lists, without repeats, exactly the particles whose
      bucket is in `visited` or which are listed in `pending`; the rest of
      `found` still holds the -1 it was filled with. */
  ghost predicate Collected(found: seq<int>, size: int, bs: seq<int>, visited: set<int>, pending: seq<int>)
  {
    && |found| == |bs| && 0 <= size <= |bs|
    && Distinct(found[..size])
    && (forall k :: 0 <= k < size ==> 0 <= found[k] < |bs|)
    && (forall k :: size <= k < |found| ==> found[k] == -1)
    && (forall q :: 0 <= q < |bs| ==> (q in found[..size] <==> bs[q] in visited || q in pending))
  }

  /** Nothing gathered yet. */
  lemma CollectedNothing(found: seq<int>, bs: seq<int>)
    requires |found| == |bs| && forall k :: 0 <= k < |found| ==> found[k] == -1
    ensures Collected(found, 0, bs, {}, [])
  {
  }

  /** One entry of a bucket slice: appended when not yet listed. */
  lemma CollectEntry(found: seq<int>, size: int, bs: seq<int>, visited: set<int>, pending: seq<int>, e: int)
    requires Collected(found, size, bs, visited, pending) && 0 <= e < |bs|
    ensures e in found <==> e in found[..size]
    ensures e in found ==> Collected(found, size, bs, visited, pending + [e])
    ensures e !in found ==> size < |bs| && Collected(found[size := e], size + 1, bs, visited, pending + [e])
  {
    assert found == found[..size] + found[size..];
    assert e !in found[size..];
    if e !in found {
      var t := found[..size] + [e];
      assert Distinct(t);
      DistinctIndicesBound(t, |bs|);
      assert found[size := e][..size + 1] == t;
    }
  }

  /** A bucket's whole slice has been gathered: the bucket counts as visited. */
  lemma CollectBucket(found: seq<int>, size: int, bs: seq<int>, visited: set<int>, slice: seq<int>, h: int)
    requires Collected(found, size, bs, visited, slice)
    requires forall q :: 0 <= q < |bs| ==> (q in slice <==> bs[q] == h)
    ensures Collected(found, size, bs, visited + {h}, [])
  {
  }

  // ---------------------------------------------------------------------
  // Where each caller stood when it queried

  /** `probes[t]` is where particle t stood when it ran its query: its
      position after the first `turns[t]` pairs of the log. */
  ghost predicate Probed(b0: seq<Body>, log: seq<(int, int)>, probes: seq<Vec>, turns: seq<int>, unitAxis: Vec -> Vec)
    requires PairsIn(log, |b0|) && MassesSummable(b0)
  {
    && |probes| == |turns| <= |b0|
    && (forall t :: 0 <= t < |turns| ==> 0 <= turns[t] <= |log|)
    && (forall t :: 0 <= t < |turns| ==> probes[t] == Resolve(b0, log[..turns[t]], unitAxis)[t].r)
  }

  /** The callers take their turns in index order: every pair of the log
      names as its caller one of the callers that have had a turn, and the
      pairs logged before caller `c`'s turn are exactly those of the callers
      before `c`. So `turns` cuts the log into consecutive runs, one per
      caller in index order, each holding only its caller's pairs. */
  ghost predicate InTurn(log: seq<(int, int)>, turns: seq<int>)
  {
    && (forall p :: 0 <= p < |log| ==> 0 <= log[p].0 < |turns|)
    && (forall p, c :: 0 <= p < |log| && 0 <= c < |turns| ==> (p < turns[c] <==> log[p].0 < c))
  }

  /** Where caller `c`'s run of pairs ends: at the next caller's turn, or
      at the end of the log for the latest caller. */
  function TurnEnd(log: seq<(int, int)>, turns: seq<int>, c: int): int
    requires 0 <= c < |turns|
  {
    if c + 1 < |turns| then turns[c + 1] else |log|
  }

  /** Each pair lies in the run of its caller. */
  lemma PairInItsRun(log: seq<(int, int)>, turns: seq<int>, p: int)
    requires InTurn(log, turns) && 0 <= p < |log|
    ensures 0 <= log[p].0 < |turns| && turns[log[p].0] <= p < TurnEnd(log, turns, log[p].0)
  {
    var c := log[p].0;
    assert !(p < turns[c]);
    if c + 1 < |turns| {
      assert p < turns[c + 1] <==> c < c + 1;
    }
  }

  /** With every turn inside the log, turns never decrease and the first
      one is at the start of the log. */
  lemma TurnsAscend(log: seq<(int, int)>, turns: seq<int>, s: int, t: int)
    requires InTurn(log, turns) && forall c :: 0 <= c < |turns| ==> 0 <= turns[c] <= |log|
    requires 0 <= s <= t < |turns|
    ensures turns[s] <= turns[t] && turns[0] == 0
  {
    // a pair at a turn's start belongs to a caller at or after that turn's caller
    var p := turns[t];
    if p < |log| {
      assert p < turns[s] <==> log[p].0 < s;
    }
    if 0 < |log| {
      assert 0 <= log[0].0;
      assert 0 < turns[0] <==> log[0].0 < 0;
    }
  }

  /** The next caller, `|turns|`, takes its turn where the log stands and
      appends only pairs it is the caller of. */
  lemma InTurnStep(before: seq<(int, int)>, added: seq<(int, int)>, turns: seq<int>)
    requires InTurn(before, turns)
    requires forall t :: 0 <= t < |turns| ==> turns[t] <= |before|
    requires forall p :: p in added ==> p.0 == |turns|
    ensures InTurn(before + added, turns + [|before|])
  {
    var log, ts := before + added, turns + [|before|];
    forall p | 0 <= p < |log|
      ensures 0 <= log[p].0 < |ts|
    {
      if p >= |before| {
        assert log[p] == added[p - |before|];
      }
    }
    forall p, c | 0 <= p < |log| && 0 <= c < |ts|
      ensures p < ts[c] <==> log[p].0 < c
    {
      if p < |before| {
        assert log[p] == before[p];
      } else {
        assert log[p] == added[p - |before|];
      }
    }
  }

  // ---------------------------------------------------------------------

  class Particles {
    const P: seq<MassPoint>
    const N: nat
    /** hashCoords: the bucket of a grid cell among 2N buckets. */
    const hash: (int, int) -> int
    // The index built by the last Hash.
    var cellStart: array<int>
    var cellEntries: array<int>
    // The positions, and their buckets, when Hash last ran.
    ghost var snapshot: seq<Vec>
    ghost var buckets: seq<int>

    /** The collection holds N distinct particle objects, and every cell
        hashes to one of the 2N buckets. */
    ghost predicate Valid()
    {
      && N == |P|
      && (forall i, j :: 0 <= i < j < N ==> P[i] != P[j])
      && (0 < N ==> forall x, y :: 0 <= hash(x, y) < 2 * N)
    }

    constructor (ps: seq<MassPoint>)
      requires forall i, j :: 0 <= i < j < |ps| ==> ps[i] != ps[j]
      ensures Valid() && P == ps && hash == CellHash(|ps|)
      ensures 0 < N ==> forall x, y :: hash(x, y) == HashCoords(x, y, N)
    {
      P := ps;
      N := |ps|;
      hash := CellHash(|ps|);
      cellStart := new int[0];
      cellEntries := new int[0];
    }

    ghost function Bodies(): (bs: seq<Body>)
      reads P
      requires Valid()
      ensures |bs| == N
    {
      StatesOf(P)
    }

    // -------------------------------------------------------------------
    // __getitem__

    /** The first particle from `from` on whose centre is exactly `pos`, or N if none is. */
    function FirstAt(pos: Vec, from: nat): (k: nat)
      reads P
      requires Valid() && from <= N
      ensures from <= k <= N
      ensures k < N ==> P[k].r == pos
      ensures forall t :: from <= t < k ==> P[t].r != pos
      decreases N - from
    {
      if from == N then N else if P[from].r == pos then from else FirstAt(pos, from + 1)
    }

    function Get(key: Key): (res: Lookup)
      reads P
      requires Valid()
      ensures key.Index? ==> (-(N as int) <= key.i < N <==> res.Found?)
      ensures key.Index? && 0 <= key.i < N ==> res == Found(P[key.i])
      ensures key.Index? && -(N as int) <= key.i < 0 ==> res == Found(P[N + key.i])
      ensures key.Index? && !(-(N as int) <= key.i < N) ==> res == IndexError
      ensures key.Coords? ==> !res.IndexError? && !res.TypeError?
      ensures key.Coords? && res.Found? ==>
                exists k :: 0 <= k < N && res.p == P[k] && P[k].r == Vec(key.x, key.y)
                  && forall t :: 0 <= t < k ==> P[t].r != Vec(key.x, key.y)
      ensures key.Coords? ==> (res == NotFound <==> forall t :: 0 <= t < N ==> P[t].r != Vec(key.x, key.y))
      ensures key.Unsupported? ==> res == TypeError
    {
      match key
      case Coords(x, y) =>
        var k := FirstAt(Vec(x, y), 0);
        if k < N then Found(P[k]) else NotFound
      case Index(i) =>
        // a tuple index counts from the end when negative
        if 0 <= i < N then Found(P[i])
        else if -(N as int) <= i < 0 then Found(P[N + i])
        else IndexError
      case Unsupported => TypeError
    }

    // -------------------------------------------------------------------
    // Cells and buckets

    /** MeanRadius: the average radius, which lies between the smallest
        and the largest radius (so it is positive when every radius is). */
    function MeanRadius(): (r: real)
      requires Valid() && 0 < N
      ensures MinRadius(P) <= r <= MaxRadius(P)
    {
      RadiusExtremes(P);
      SumRadiiBetween(P, MinRadius(P), MaxRadius(P));
      MeanBetween(SumRadii(P), N as real, MinRadius(P), MaxRadius(P));
      SumRadii(P) / N as real
    }

    /** intCoords: the grid coordinate of `num` in cells of width
        `spacing`, or of three mean radii when no width is given. */
    function IntCoords(num: real, spacing: real := 0.0): (c: int)
      requires Valid() && (spacing == 0.0 ==> 0 < N && MeanRadius() != 0.0)
      ensures var w := if spacing == 0.0 then 3.0 * MeanRadius() else spacing;
              0.0 < w && 0.0 <= num ==> c as real * w <= num < (c as real + 1.0) * w
      ensures var w := if spacing == 0.0 then 3.0 * MeanRadius() else spacing;
              0.0 < w && num < 0.0 ==> (c as real - 1.0) * w < num <= c as real * w
    {
      if spacing == 0.0 then CellCoord(num, 3.0 * MeanRadius()) else CellCoord(num, spacing)
    }

    /** hashPos: the bucket of the cell holding `pos`. */
    function HashPos(pos: Vec): (h: int)
      requires Valid() && 0 < N && MeanRadius() != 0.0
      ensures 0 <= h < 2 * N
    {
      hash(IntCoords(pos.x), IntCoords(pos.y))
    }

    /** The buckets a query about `pt` with reach `maxDist` walks through. */
    ghost function QueryBuckets(pt: Vec, maxDist: real): set<int>
      requires Valid() && 0 < N && MeanRadius() != 0.0
    {
      QueryCells(pt, maxDist, 3.0 * MeanRadius(), hash)
    }

    /** The index describes the positions of the last Hash. */
    ghost predicate Indexed()
      reads this, cellStart, cellEntries
    {
      && Valid()
      && |snapshot| == N && |buckets| == N
      && (0 < N ==> MeanRadius() != 0.0)
      && (forall q :: 0 <= q < N ==> buckets[q] == HashPos(snapshot[q]))
      && Layout(cellStart[..], cellEntries[..], buckets)
    }

    /** Query soundness: with a positive cell width, every particle whose
        position at Hash time lies within `maxDist` of `pt` on both axes is
        in a bucket the query walks through. */
    lemma NearbyInQueryBuckets(pt: Vec, maxDist: real, q: int)
      requires Indexed() && 0 <= q < N && 0.0 < MeanRadius()
      requires pt.x - maxDist <= snapshot[q].x <= pt.x + maxDist
      requires pt.y - maxDist <= snapshot[q].y <= pt.y + maxDist
      ensures buckets[q] in QueryBuckets(pt, maxDist)
    {
      QueryRangeCovers(pt, snapshot[q], maxDist, 3.0 * MeanRadius(), hash);
    }

    // -------------------------------------------------------------------
    // Hash

    /** The current position of each particle. */
    ghost function Positions(): (ps: seq<Vec>)
      reads P
      requires Valid()
      ensures |ps| == N && forall i :: 0 <= i < N ==> ps[i] == P[i].r
    {
      seq(N, i requires 0 <= i < N reads P => P[i].r)
    }

    /** The bucket of each particle at its current position. */
    ghost function CurrentBuckets(): (bs: seq<int>)
      reads P
      requires Valid() && (0 < N ==> MeanRadius() != 0.0)
      ensures |bs| == N && InBuckets(bs, 2 * N)
      ensures forall i :: 0 <= i < N ==> bs[i] == HashPos(P[i].r)
    {
      seq(N, i requires 0 <= i < N reads P => HashPos(P[i].r))
    }

    /** The bucket of each of the N positions `ps`. */
    ghost function BucketsAt(ps: seq<Vec>): (bs: seq<int>)
      requires Valid() && |ps| == N && (0 < N ==> MeanRadius() != 0.0)
      ensures |bs| == N && InBuckets(bs, 2 * N)
      ensures forall i :: 0 <= i < N ==> bs[i] == HashPos(ps[i])
    {
      seq(N, i requires 0 <= i < N => HashPos(ps[i]))
    }

    /** Rebuild the index from the current positions by counting sort. */
    method Hash()
      requires Valid()
      requires 0 < N ==> MeanRadius() != 0.0
      modifies this
      ensures Indexed()
      ensures snapshot == Positions() && buckets == CurrentBuckets()
      ensures snapshot == Centres(Bodies()) && buckets == BucketsAt(snapshot)
      ensures fresh(cellStart) && fresh(cellEntries)
    {
      var starts, entries := CountingSortIndex();
      ghost var layout := (starts[..], entries[..]);
      cellStart := starts;
      cellEntries := entries;
      snapshot := Positions();
      buckets := CurrentBuckets();
      assert cellStart[..] == layout.0 && cellEntries[..] == layout.1;
    }

    /** The three passes of Hash over fresh arrays. */
    method CountingSortIndex() returns (starts: array<int>, entries: array<int>)
      requires Valid()
      requires 0 < N ==> MeanRadius() != 0.0
      ensures fresh(starts) && fresh(entries)
      ensures Layout(starts[..], entries[..], CurrentBuckets())
    {
      var size := 2 * N;
      starts := new int[size + 1](_ => 0);
      entries := new int[N](_ => 0);
      CountBuckets(starts);
      PrefixSums(starts, CurrentBuckets());
      PlaceEntries(starts, entries);
    }

    /** First pass of Hash: count the particles of each bucket. */
    method CountBuckets(starts: array<int>)
      requires Valid() && (0 < N ==> MeanRadius() != 0.0)
      requires starts.Length == 2 * N + 1 && forall b :: 0 <= b < starts.Length ==> starts[b] == 0
      modifies starts
      ensures forall b :: 0 <= b < starts.Length ==> starts[b] == CountEq(CurrentBuckets(), b)
    {
      ghost var bs := CurrentBuckets();
      for i := 0 to N
        invariant forall b :: 0 <= b < starts.Length ==> starts[b] == CountEq(bs[..i], b)
      {
        var h := HashPos(P[i].r);
        forall b | 0 <= b < starts.Length
          ensures CountEq(bs[..i + 1], b) == CountEq(bs[..i], b) + (if h == b then 1 else 0)
        {
          CountEqExtend(bs, i, b);
        }
        starts[h] := starts[h] + 1;
      }
      assert bs[..N] == bs;
    }

    /** Third pass of Hash: place each particle, moving its bucket's start
        one slot down. */
    method PlaceEntries(starts: array<int>, entries: array<int>)
      requires Valid() && (0 < N ==> MeanRadius() != 0.0)
      requires starts != entries
      requires starts.Length == 2 * N + 1 && entries.Length == N
      requires forall b :: 0 <= b < 2 * N ==> starts[b] == CountBelow(CurrentBuckets(), b + 1)
      requires starts[2 * N] == N
      modifies starts, entries
      ensures Layout(starts[..], entries[..], CurrentBuckets())
    {
      ghost var bs := CurrentBuckets();
      var size := 2 * N;
      forall b | 0 <= b < size
        ensures starts[b] == CountBelow(bs, b) + CountEq(bs[0..], b)
      {
        CountBelowNext(bs, b);
        assert bs[0..] == bs;
      }
      for i := 0 to N
        invariant PlacedBelow(starts[..], entries[..], bs, i)
        invariant starts[size] == N
      {
        var h := HashPos(P[i].r);
        PlaceStep(starts[..], entries[..], bs, i);
        starts[h] := starts[h] - 1;
        var j := starts[h];
        entries[j] := i;
      }
      PlacedAll(starts[..], entries[..], bs);
    }

    // -------------------------------------------------------------------
    // query

    /** The innermost loop of query: gather the particles filed under
        bucket `h` that are not listed yet. */
    method CollectBucketOf(found: array<int>, size: int, h: int, ghost seen: set<int>) returns (size': int)
      requires Indexed() && 0 <= h < 2 * N
      requires found != cellStart && found != cellEntries
      requires Collected(found[..], size, buckets, seen, [])
      modifies found
      ensures Collected(found[..], size', buckets, seen + {h}, [])
    {
      size' := size;
      LayoutSlice(cellStart[..], cellEntries[..], buckets, h);
      var start, end := cellStart[h], cellStart[h + 1];
      for k := start to end
        invariant Collected(found[..], size', buckets, seen, cellEntries[start..k])
      {
        var e := cellEntries[k];
        assert cellEntries[start..k + 1] == cellEntries[start..k] + [e];
        CollectEntry(found[..], size', buckets, seen, cellEntries[start..k], e);
        if e !in found[..] {
          found[size'] := e;
          size' := size' + 1;
        }
      }
      CollectBucket(found[..], size', buckets, seen, cellEntries[start..end], h);
    }

    /** The middle loop of query: gather the particles of the buckets of
        cells (x, y) for y0 <= y <= y1. */
    method CollectRow(found: array<int>, size: int, x: int, y0: int, y1: int, ghost done: set<int>)
      returns (size': int)
      requires Indexed() && 0 < N
      requires found != cellStart && found != cellEntries
      requires Collected(found[..], size, buckets, done, [])
      modifies found
      ensures Collected(found[..], size', buckets, done + RowBuckets(x, y0, y1 + 1, hash), [])
    {
      size' := size;
      var j := y0;
      assert done + RowBuckets(x, y0, j, hash) == done;
      while j < y1 + 1
        invariant j == y0 || y0 < j <= y1 + 1
        invariant Collected(found[..], size', buckets, done + RowBuckets(x, y0, j, hash), [])
        decreases y1 + 1 - j
      {
        var h := hash(x, j);
        size' := CollectBucketOf(found, size', h, done + RowBuckets(x, y0, j, hash));
        assert RowBuckets(x, y0, j + 1, hash) == RowBuckets(x, y0, j, hash) + {h};
        j := j + 1;
      }
    }

    /** The outer loop of query: gather the particles of the buckets of
        cells (x, y) for x0 <= x <= x1 and y0 <= y <= y1. */
    method CollectRect(found: array<int>, x0: int, x1: int, y0: int, y1: int) returns (size: int)
      requires Indexed() && 0 < N
      requires found != cellStart && found != cellEntries
      requires Collected(found[..], 0, buckets, {}, [])
      modifies found
      ensures Collected(found[..], size, buckets, CellBuckets(x0, x1 + 1, y0, y1 + 1, hash), [])
    {
      size := 0;
      var i := x0;
      while i < x1 + 1
        invariant i == x0 || x0 < i <= x1 + 1
        invariant Collected(found[..], size, buckets, CellBuckets(x0, i, y0, y1 + 1, hash), [])
        decreases x1 + 1 - i
      {
        ghost var done := CellBuckets(x0, i, y0, y1 + 1, hash);
        size := CollectRow(found, size, i, y0, y1, done);
        assert CellBuckets(x0, i + 1, y0, y1 + 1, hash) == done + RowBuckets(i, y0, y1 + 1, hash);
        i := i + 1;
      }
    }

    /** `ids[..size]` lists exactly the particles filed in a bucket that a
        query about `pt` with reach `maxDist` walks through. */
    ghost predicate Answers(ids: seq<int>, size: int, pt: Vec, maxDist: real)
      reads this
      requires Valid() && 0 < N && MeanRadius() != 0.0 && |buckets| == N
    {
      && 0 <= size <= |ids|
      && forall q :: 0 <= q < N ==> (q in ids[..size] <==> buckets[q] in QueryBuckets(pt, maxDist))
    }

    /** The particles filed under the buckets of the cells within `maxDist`
        of `p` on each axis: `ids[..size]` lists each of them once, and the
        rest of `ids` is -1. */
    method Query(p: MassPoint, maxDist: real) returns (ids: seq<int>, size: int)
      requires Indexed() && 0 < N
      ensures |ids| == N && 0 <= size <= N
      ensures Distinct(ids[..size])
      ensures forall k :: 0 <= k < size ==> 0 <= ids[k] < N
      ensures forall k :: size <= k < N ==> ids[k] == -1
      ensures Answers(ids, size, p.r, maxDist)
    {
      var x0, y0 := IntCoords(p.r.x - maxDist), IntCoords(p.r.y - maxDist);
      var x1, y1 := IntCoords(p.r.x + maxDist), IntCoords(p.r.y + maxDist);
      var found := new int[N](_ => -1);
      CollectedNothing(found[..], buckets);
      size := CollectRect(found, x0, x1, y0, y1);
      ids := found[..];
      assert QueryBuckets(p.r, maxDist) == CellBuckets(x0, x1 + 1, y0, y1 + 1, hash);
    }

    /** Query soundness: a particle whose position when the index was built
        lies within `maxDist` of the query point on both axes is in the
        answer (given a positive cell width). */
    lemma AnswersIncludeNearby(ids: seq<int>, size: int, pt: Vec, maxDist: real, q: int)
      requires Indexed() && 0 < N && 0.0 < MeanRadius() && Answers(ids, size, pt, maxDist) && 0 <= q < N
      requires pt.x - maxDist <= snapshot[q].x <= pt.x + maxDist
      requires pt.y - maxDist <= snapshot[q].y <= pt.y + maxDist
      ensures q in ids[..size]
    {
      NearbyInQueryBuckets(pt, maxDist, q);
    }

    // -------------------------------------------------------------------
    // Collision

    /** `P[i].particle_collision(P[j])` with the unit axis `unitAxis`
        gives for the offset from `P[i]` to `P[j]`. */
    method CollidePair(i: int, j: int, unitAxis: Vec -> Vec)
      requires Valid() && 0 <= i < N && 0 <= j < N && i != j
      requires P[i].m + P[j].m != 0.0
      modifies P[i], P[j]
      ensures Bodies() == ResolvePair(old(Bodies()), i, j, unitAxis)
    {
      ghost var bs := Bodies();
      P[i].ParticleCollision(P[j], unitAxis(Sub(P[j].r, P[i].r)));
      ghost var res := ResolvePair(bs, i, j, unitAxis);
      forall k | 0 <= k < N
        ensures Bodies()[k] == res[k]
      {
      }
    }

    /** The inner loop of Collision for caller `i`: resolve `i` against
        each particle `ids[..size]` lists, unless the pair is already in
        `checked` in either orientation or the particle is `i` itself. */
    method CollideListed(i: int, ids: seq<int>, size: int, checked: seq<(int, int)>, unitAxis: Vec -> Vec,
                         ghost b0: seq<Body>)
      returns (checked': seq<(int, int)>)
      requires Valid() && 0 <= i < N && |b0| == N && MassesSummable(b0)
      requires 0 <= size <= |ids| && forall k :: 0 <= k < size ==> 0 <= ids[k] < N
      requires PairsIn(checked, N)
      requires Bodies() == Resolve(b0, checked, unitAxis)
      modifies P
      ensures checked' == checked + NewPairs(i, ids[..size], checked)
      ensures PairsIn(checked', N)
      ensures Bodies() == Resolve(b0, checked', unitAxis)
    {
      checked' := checked;
      for k := 0 to size
        invariant checked' == checked + NewPairs(i, ids[..k], checked)
        invariant PairsIn(checked', N)
        invariant Bodies() == Resolve(b0, checked', unitAxis)
      {
        NewPairsStep(i, ids, k, checked);
        checked' := CollideIfNew(i, ids[k], checked', unitAxis, b0);
      }
      assert ids[..size][..size] == ids[..size];
    }

    /** One step of the inner loop of Collision: resolve `i` against `j`
        unless {i, j} is already in the log in either orientation or `j`
        is `i` itself, and log the pair when it is resolved. */
    method CollideIfNew(i: int, j: int, log: seq<(int, int)>, unitAxis: Vec -> Vec, ghost b0: seq<Body>)
      returns (log': seq<(int, int)>)
      requires Valid() && 0 <= i < N && 0 <= j < N && |b0| == N && MassesSummable(b0)
      requires PairsIn(log, N) && Bodies() == Resolve(b0, log, unitAxis)
      modifies P
      ensures log' == if (i, j) !in log && (j, i) !in log && j != i then log + [(i, j)] else log
      ensures PairsIn(log', N) && Bodies() == Resolve(b0, log', unitAxis)
    {
      log' := log;
      // {i, j} not in checked: the pair in neither orientation
      if (i, j) !in log && (j, i) !in log && j != i {
        ResolveExtend(b0, log, i, j, unitAxis);
        assert SameMaterial(Bodies()[i], b0[i]) && SameMaterial(Bodies()[j], b0[j]);
        CollidePair(i, j, unitAxis);
        log' := log + [(i, j)];
      }
    }

    /** Resolve each particle against the particles its query returns,
        querying around its current position with reach twice its radius
        and skipping pairs already resolved. The hash index is the one the
        last Hash built; positions moved since then are not re-hashed.
        `checked` lists the resolved pairs as (caller, partner), in order;
        `probes[t]` is where caller t stood when it queried, and `turns[t]`
        how many pairs were logged by then. */
    method Collision(unitAxis: Vec -> Vec) returns (checked: seq<(int, int)>, ghost probes: seq<Vec>, ghost turns: seq<int>)
      requires Indexed() && MassesSummable(Bodies())
      modifies P
      ensures Indexed()
      ensures Bookkept(old(Bodies()), checked, probes, turns, N, unitAxis)
      ensures Bodies() == Resolve(old(Bodies()), checked, unitAxis)
    {
      ghost var b0 := Bodies();
      checked, probes, turns := [], [], [];
      for i := 0 to N
        invariant Colliding(b0, checked, probes, turns, i, unitAxis)
      {
        checked, probes, turns := CallerTurn(i, checked, probes, turns, unitAxis, b0);
      }
    }

    /** Collision has run its first `k` callers from the bodies `b0`: the
        index is untouched, the bookkeeping holds, and the particles are
        where the log puts them. */
    ghost predicate Colliding(b0: seq<Body>, log: seq<(int, int)>, probes: seq<Vec>, turns: seq<int>, k: int,
                              unitAxis: Vec -> Vec)
      reads this, cellStart, cellEntries, P
    {
      && Indexed() && |b0| == N && MassesSummable(b0)
      && Bookkept(b0, log, probes, turns, k, unitAxis)
      && Bodies() == Resolve(b0, log, unitAxis)
    }

    /** The loop body of Collision for caller `i`, with the caller's query
        point and turn recorded. */
    method CallerTurn(i: int, checked: seq<(int, int)>, ghost probes: seq<Vec>, ghost turns: seq<int>,
                      unitAxis: Vec -> Vec, ghost b0: seq<Body>)
      returns (checked': seq<(int, int)>, ghost probes': seq<Vec>, ghost turns': seq<int>)
      requires 0 <= i < N && Colliding(b0, checked, probes, turns, i, unitAxis)
      modifies P
      ensures probes' == probes + [old(P[i].r)] && turns' == turns + [|checked|]
      ensures Colliding(b0, checked', probes', turns', i + 1, unitAxis)
    {
      probes', turns' := probes + [P[i].r], turns + [|checked|];
      ghost var found;
      checked', found := CollideCaller(i, checked, probes, turns, unitAxis, b0);
      NewPairsShape(i, found, checked);
      InTurnStep(checked, NewPairs(i, found, checked), turns);
      assert checked'[..|checked|] == checked;
      CoveredInTurnStep(probes, turns, checked, checked', probes'[i]);
    }

    /** One turn of Collision: caller `i` queries around its current
        position with reach twice its radius and is resolved against what
        the query finds. */
    method CollideCaller(i: int, checked: seq<(int, int)>, ghost probes: seq<Vec>, ghost turns: seq<int>,
                         unitAxis: Vec -> Vec, ghost b0: seq<Body>)
      returns (checked': seq<(int, int)>, ghost found: seq<int>)
      requires Indexed() && 0 <= i < N && |b0| == N && MassesSummable(b0)
      requires Recorded(b0, checked, probes, turns, i, unitAxis)
      requires Bodies() == Resolve(b0, checked, unitAxis)
      modifies P
      ensures Recorded(b0, checked', probes + [old(P[i].r)], turns + [|checked|], i + 1, unitAxis)
      ensures checked' == checked + NewPairs(i, found, checked)
      ensures Bodies() == Resolve(b0, checked', unitAxis)
    {
      var ids, size := CallerQuery(i, checked, probes, turns, unitAxis, b0);
      found := ids[..size];
      checked' := CollideListed(i, ids, size, checked, unitAxis, b0);
    }

    /** The query of caller `i`, around its current position with reach
        twice its radius. What the caller will log depends only on the
        query result and the log so far, so its bookkeeping is settled
        before any body moves. */
    method CallerQuery(i: int, checked: seq<(int, int)>, ghost probes: seq<Vec>, ghost turns: seq<int>,
                       unitAxis: Vec -> Vec, ghost b0: seq<Body>)
      returns (ids: seq<int>, size: int)
      requires Indexed() && 0 <= i < N && |b0| == N && MassesSummable(b0)
      requires Recorded(b0, checked, probes, turns, i, unitAxis)
      requires Bodies() == Resolve(b0, checked, unitAxis)
      ensures 0 <= size <= |ids| && forall k :: 0 <= k < size ==> 0 <= ids[k] < N
      ensures Recorded(b0, checked + NewPairs(i, ids[..size], checked), probes + [P[i].r], turns + [|checked|],
                       i + 1, unitAxis)
    {
      ghost var pt := P[i].r;
      assert pt == Resolve(b0, checked, unitAxis)[i].r;
      ids, size := Query(P[i], 2.0 * P[i].radius);
      RecordedStep(b0, checked, probes, turns, pt, ids, size, unitAxis);
    }

    /** What Collision has recorded after its first `k` callers: a valid
        log of pairs; where each caller stood when it queried; every caller
        paired with all its query found; and every logged pair found by its
        caller's query. */
    ghost predicate Recorded(b0: seq<Body>, log: seq<(int, int)>, probes: seq<Vec>, turns: seq<int>, k: int,
                             unitAxis: Vec -> Vec)
      reads this
      requires Valid() && (0 < N ==> MeanRadius() != 0.0) && |buckets| == N && |b0| == N && MassesSummable(b0)
    {
      && PairsValid(log, N)
      && 0 <= k <= N && |probes| == k
      && Probed(b0, log, probes, turns, unitAxis)
      && Covered(probes, log, k)
      && OnlyQueried(probes, turns, log)
    }

    /** Everything Collision has recorded after its first `k` callers, with
        the callers having taken their turns in index order and each one
        paired with all its query found by the end of its own turn. */
    ghost predicate Bookkept(b0: seq<Body>, log: seq<(int, int)>, probes: seq<Vec>, turns: seq<int>, k: int,
                             unitAxis: Vec -> Vec)
      reads this
      requires Valid() && (0 < N ==> MeanRadius() != 0.0) && |buckets| == N && |b0| == N && MassesSummable(b0)
    {
      && Recorded(b0, log, probes, turns, k, unitAxis)
      && InTurn(log, turns)
      && CoveredInTurn(probes, turns, log, k)
    }

    /** Caller `|probes|` queries at `pt`, where the log so far has moved it,
        and finds `ids[..size]`: the pairs it logs keep the bookkeeping. */
    lemma RecordedStep(b0: seq<Body>, before: seq<(int, int)>, probes: seq<Vec>, turns: seq<int>, pt: Vec,
                       ids: seq<int>, size: int, unitAxis: Vec -> Vec)
      requires Valid() && |probes| < N && MeanRadius() != 0.0 && |buckets| == N && |b0| == N && MassesSummable(b0)
      requires Recorded(b0, before, probes, turns, |probes|, unitAxis)
      requires pt == Resolve(b0, before, unitAxis)[|probes|].r
      requires Answers(ids, size, pt, 2.0 * P[|probes|].radius)
      requires forall k :: 0 <= k < size ==> 0 <= ids[k] < N
      ensures Recorded(b0, before + NewPairs(|probes|, ids[..size], before), probes + [pt], turns + [|before|],
                       |probes| + 1, unitAxis)
    {
      var i := |probes|;
      var after := before + NewPairs(i, ids[..size], before);
      NewPairsValid(i, ids[..size], before, N);
      assert after[..|before|] == before;
      ProbedStep(b0, before, after, probes, turns, pt, unitAxis);
      CoveredStep(probes, before, pt, ids, size);
      NewPairsShape(i, ids[..size], before);
      OnlyQueriedStep(probes, turns, before, pt, ids, size, NewPairs(i, ids[..size], before));
    }

    /** Caller `c`, having queried at `pt`, is paired in the log with every
        other particle filed in a bucket that query walks. */
    ghost predicate PairedWithin(c: int, pt: Vec, log: seq<(int, int)>)
      reads this
      requires Valid() && 0 <= c < N && MeanRadius() != 0.0 && |buckets| == N
    {
      forall j :: 0 <= j < N && j != c && buckets[j] in QueryBuckets(pt, 2.0 * P[c].radius)
        ==> (c, j) in log || (j, c) in log
    }

    /** Every caller t < k is paired with whatever its query found. */
    ghost predicate Covered(probes: seq<Vec>, log: seq<(int, int)>, k: int)
      reads this
      requires Valid() && k <= |probes| && k <= N && (0 < N ==> MeanRadius() != 0.0) && |buckets| == N
    {
      forall t :: 0 <= t < k ==> PairedWithin(t, probes[t], log)
    }

    /** Every caller t < k is paired with whatever its query found within
        the log as it stood at the end of its own turn: no partner is left
        for a later caller to pair with it. */
    ghost predicate CoveredInTurn(probes: seq<Vec>, turns: seq<int>, log: seq<(int, int)>, k: int)
      reads this
      requires Valid() && k <= |probes| && k <= |turns| && k <= N && (0 < N ==> MeanRadius() != 0.0) && |buckets| == N
      requires forall t :: 0 <= t < |turns| ==> 0 <= turns[t] <= |log|
    {
      forall t :: 0 <= t < k ==> PairedWithin(t, probes[t], log[..TurnEnd(log, turns, t)])
    }

    /** The next caller, paired with all its query found in the log after
        its turn, keeps every caller covered within its own turn. */
    lemma CoveredInTurnStep(probes: seq<Vec>, turns: seq<int>, before: seq<(int, int)>, after: seq<(int, int)>, pt: Vec)
      requires Valid() && |probes| < N && MeanRadius() != 0.0 && |buckets| == N
      requires |probes| == |turns| && forall t :: 0 <= t < |turns| ==> 0 <= turns[t] <= |before|
      requires |before| <= |after| && after[..|before|] == before
      requires CoveredInTurn(probes, turns, before, |probes|)
      requires PairedWithin(|probes|, pt, after)
      ensures CoveredInTurn(probes + [pt], turns + [|before|], after, |probes| + 1)
    {
      var k := |probes|;
      var ps, ts := probes + [pt], turns + [|before|];
      forall t | 0 <= t < k + 1
        ensures PairedWithin(t, ps[t], after[..TurnEnd(after, ts, t)])
      {
        if t < k {
          var e := TurnEnd(before, turns, t);
          assert TurnEnd(after, ts, t) == e && after[..e] == before[..e];
          assert ps[t] == probes[t] && PairedWithin(t, probes[t], before[..e]);
        } else {
          assert after[..TurnEnd(after, ts, t)] == after;
        }
      }
    }

    /** Pair `p`, logged at position `t`, was resolved after its caller's
        query, against a particle filed in a bucket that query walked. */
    ghost predicate QueriedBefore(p: (int, int), t: int, probes: seq<Vec>, turns: seq<int>)
      reads this
      requires Valid() && 0 <= p.0 < N && 0 <= p.1 < N && MeanRadius() != 0.0 && |buckets| == N
    {
      p.0 < |probes| && p.0 < |turns| && turns[p.0] <= t && buckets[p.1] in QueryBuckets(probes[p.0], 2.0 * P[p.0].radius)
    }

    /** Every pair of the log was resolved after its caller's query, against
        a particle filed in a bucket that query walked. */
    ghost predicate OnlyQueried(probes: seq<Vec>, turns: seq<int>, log: seq<(int, int)>)
      reads this
      requires Valid() && (0 < N ==> MeanRadius() != 0.0) && |buckets| == N && PairsIn(log, N)
    {
      forall t :: 0 <= t < |log| ==> QueriedBefore(log[t], t, probes, turns)
    }

    /** Caller i queries at `pt`, where the log so far has moved it; the
        pairs it then logs leave every earlier probe where it was. */
    lemma ProbedStep(b0: seq<Body>, before: seq<(int, int)>, log: seq<(int, int)>, probes: seq<Vec>, turns: seq<int>,
                     pt: Vec, unitAxis: Vec -> Vec)
      requires MassesSummable(b0) && PairsIn(before, |b0|) && PairsIn(log, |b0|)
      requires |before| <= |log| && log[..|before|] == before
      requires Probed(b0, before, probes, turns, unitAxis) && |turns| < |b0|
      requires pt == Resolve(b0, before, unitAxis)[|turns|].r
      ensures Probed(b0, log, probes + [pt], turns + [|before|], unitAxis)
    {
      assert log[..|before|] == before;
      forall t | 0 <= t < |turns|
        ensures log[..turns[t]] == before[..turns[t]]
      {
      }
    }

    /** After caller i's walk, every particle in a bucket its query walked is paired with it. */
    lemma CoveredStep(probes: seq<Vec>, before: seq<(int, int)>, pt: Vec, ids: seq<int>, size: int)
      requires Valid() && |probes| < N && MeanRadius() != 0.0 && |buckets| == N
      requires Covered(probes, before, |probes|)
      requires Answers(ids, size, pt, 2.0 * P[|probes|].radius)
      ensures Covered(probes + [pt], before + NewPairs(|probes|, ids[..size], before), |probes| + 1)
    {
      var i := |probes|;
      var log := before + NewPairs(i, ids[..size], before);
      NewPairsCover(i, ids[..size], before);
      var ps := probes + [pt];
      forall t | 0 <= t < i + 1
        ensures PairedWithin(t, ps[t], log)
      {
        if t < i {
          assert ps[t] == probes[t] && PairedWithin(t, probes[t], before);
        }
      }
    }

    /** Every pair caller i logs has a partner from a bucket its query
        walked: `added` holds the pairs of caller i, each with a partner
        from `ids[..size]`. */
    lemma OnlyQueriedStep(probes: seq<Vec>, turns: seq<int>, before: seq<(int, int)>, pt: Vec, ids: seq<int>, size: int,
                          added: seq<(int, int)>)
      requires Valid() && |probes| < N && MeanRadius() != 0.0 && |buckets| == N
      requires |probes| == |turns| && Answers(ids, size, pt, 2.0 * P[|probes|].radius)
      requires PairsIn(before, N) && PairsIn(before + added, N)
      requires forall p :: p in added ==> p.0 == |probes| && p.1 in ids[..size]
      requires OnlyQueried(probes, turns, before)
      ensures OnlyQueried(probes + [pt], turns + [|before|], before + added)
    {
      var log := before + added;
      var ps, ts := probes + [pt], turns + [|before|];
      forall t | 0 <= t < |before|
        ensures QueriedBefore(log[t], t, ps, ts)
      {
        assert log[t] == before[t] && QueriedBefore(before[t], t, probes, turns);
      }
      forall t | |before| <= t < |log|
        ensures QueriedBefore(log[t], t, ps, ts)
      {
        assert log[t] in added;
      }
    }
  }
}
