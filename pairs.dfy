/** Pair enumeration: the log of pairs a collision pass resolves, the state
    that resolving them in order produces, and the order in which
    naive_particles_collisions visits pairs (PhySim/PhyObjects.py:257-265, 341-359). */
module Pairs {
  import opened Vectors
  import opened Bodies

  /** Each entry is (caller, partner): two different particle indices below `n`. */
  predicate PairsIn(pairs: seq<(int, int)>, n: int)
  {
    forall t :: 0 <= t < |pairs| ==> 0 <= pairs[t].0 < n && 0 <= pairs[t].1 < n && pairs[t].0 != pairs[t].1
  }

  /** No unordered pair {i, j} occurs twice, in either orientation. */
  predicate NoPairTwice(pairs: seq<(int, int)>)
  {
    forall t, u :: 0 <= t < u < |pairs| ==> pairs[t] != pairs[u] && pairs[t] != (pairs[u].1, pairs[u].0)
  }

  predicate PairsValid(pairs: seq<(int, int)>, n: int)
  {
    PairsIn(pairs, n) && NoPairTwice(pairs)
  }

  /** particle_collision divides by the mass sum of the pair. */
  predicate MassesSummable(bs: seq<Body>)
  {
    forall i, j :: 0 <= i < |bs| && 0 <= j < |bs| && i != j ==> bs[i].m + bs[j].m != 0.0
  }

  /** The parts of a body that no collision changes. */
  predicate SameMaterial(b: Body, c: Body)
  {
    b.a == c.a && b.m == c.m && b.q == c.q && b.radius == c.radius
  }

  /** One `bs[i].particle_collision(bs[j])`, with the unit axis that
      `unitAxis` gives for the offset from `bs[i]` to `bs[j]`. */
  function ResolvePair(bs: seq<Body>, i: int, j: int, unitAxis: Vec -> Vec): (res: seq<Body>)
    requires 0 <= i < |bs| && 0 <= j < |bs| && i != j && bs[i].m + bs[j].m != 0.0
    ensures |res| == |bs|
    ensures forall k :: 0 <= k < |bs| ==> SameMaterial(res[k], bs[k])
    ensures forall k :: 0 <= k < |bs| && k != i && k != j ==> res[k] == bs[k]
  {
    var nb := Collide(bs[i], bs[j], unitAxis(Sub(bs[j].r, bs[i].r)));
    bs[i := nb.0][j := nb.1]
  }

  /** The particles after resolving `pairs` in order, starting from `bs`. */
  function Resolve(bs: seq<Body>, pairs: seq<(int, int)>, unitAxis: Vec -> Vec): (res: seq<Body>)
    requires PairsIn(pairs, |bs|) && MassesSummable(bs)
    ensures |res| == |bs|
    ensures forall k :: 0 <= k < |bs| ==> SameMaterial(res[k], bs[k])
    decreases |pairs|
  {
    if pairs == [] then bs
    else
      var last := pairs[|pairs| - 1];
      ResolvePair(Resolve(bs, pairs[..|pairs| - 1], unitAxis), last.0, last.1, unitAxis)
  }

  /** Resolving one more pair at the end of the log. */
  lemma ResolveExtend(bs: seq<Body>, pairs: seq<(int, int)>, i: int, j: int, unitAxis: Vec -> Vec)
    requires PairsIn(pairs, |bs|) && MassesSummable(bs)
    requires 0 <= i < |bs| && 0 <= j < |bs| && i != j
    ensures PairsIn(pairs + [(i, j)], |bs|)
    ensures Resolve(bs, pairs + [(i, j)], unitAxis) == ResolvePair(Resolve(bs, pairs, unitAxis), i, j, unitAxis)
  {
    assert (pairs + [(i, j)])[..|pairs|] == pairs;
  }

  /** Logging a pair that is in range and not yet logged in either
      orientation keeps the log valid. */
  lemma PairsValidExtend(pairs: seq<(int, int)>, n: int, i: int, j: int)
    requires PairsValid(pairs, n)
    requires 0 <= i < n && 0 <= j < n && i != j && (i, j) !in pairs && (j, i) !in pairs
    ensures PairsValid(pairs + [(i, j)], n)
  {
    var ps := pairs + [(i, j)];
    forall t, u | 0 <= t < u < |ps|
      ensures ps[t] != ps[u] && ps[t] != (ps[u].1, ps[u].0)
    {
      if u == |pairs| {
        assert ps[t] in pairs;
      }
    }
  }

  /** When no two particles overlap, resolving any log of pairs changes nothing. */
  lemma {:induction false} ResolveApart(bs: seq<Body>, pairs: seq<(int, int)>, unitAxis: Vec -> Vec)
    requires PairsIn(pairs, |bs|) && MassesSummable(bs)
    requires forall i, j :: 0 <= i < |bs| && 0 <= j < |bs| && i != j ==> !BodiesOverlap(bs[i], bs[j])
    ensures Resolve(bs, pairs, unitAxis) == bs
    decreases |pairs|
  {
    if pairs != [] {
      ResolveApart(bs, pairs[..|pairs| - 1], unitAxis);
      var last := pairs[|pairs| - 1];
      var nb := Collide(bs[last.0], bs[last.1], unitAxis(Sub(bs[last.1].r, bs[last.0].r)));
      assert nb == (bs[last.0], bs[last.1]);
      assert bs[last.0 := nb.0][last.1 := nb.1] == bs;
    }
  }

  // ---------------------------------------------------------------------
  // The naive enumeration

  /** The pairs (i, k) with i < k < j, by increasing k: what the inner loop
      of naive_particles_collisions has resolved once `j` reaches `j`. */
  function RowPairs(i: int, j: int): seq<(int, int)>
    decreases j
  {
    if j <= 0 then [] else RowPairs(i, j - 1) + (if i < j - 1 then [(i, j - 1)] else [])
  }

  /** The pairs of rows 0 .. i-1 of an `n`-particle pass. */
  function PairsBefore(i: int, n: int): seq<(int, int)>
    decreases i
  {
    if i <= 0 then [] else PairsBefore(i - 1, n) + RowPairs(i - 1, n)
  }

  /** Every pair naive_particles_collisions resolves, in its order. */
  function AllPairs(n: int): seq<(int, int)>
  {
    PairsBefore(n, n)
  }

  lemma {:induction false} RowPairsHas(i: int, j: int)
    requires 0 <= i
    ensures forall p :: p in RowPairs(i, j) <==> p.0 == i && i < p.1 < j
    ensures forall t, u :: 0 <= t < u < |RowPairs(i, j)| ==> RowPairs(i, j)[t].1 < RowPairs(i, j)[u].1
    decreases j
  {
    if 0 < j {
      RowPairsHas(i, j - 1);
    }
  }

  lemma {:induction false} PairsBeforeHas(i: int, n: int)
    ensures forall p :: p in PairsBefore(i, n) <==> 0 <= p.0 < i && p.0 < p.1 < n
    ensures forall t, u :: 0 <= t < u < |PairsBefore(i, n)| ==> PairsBefore(i, n)[t] != PairsBefore(i, n)[u]
    decreases i
  {
    if 0 < i {
      PairsBeforeHas(i - 1, n);
      RowPairsHas(i - 1, n);
      var a, b := PairsBefore(i - 1, n), RowPairs(i - 1, n);
      forall t, u | 0 <= t < u < |a + b|
        ensures (a + b)[t] != (a + b)[u]
      {
        if u < |a| {
        } else if |a| <= t {
          assert (a + b)[t] == b[t - |a|] && (a + b)[u] == b[u - |a|];
        } else {
          assert (a + b)[t] in a && (a + b)[u] in b;
        }
      }
    }
  }

  // ---------------------------------------------------------------------
  // The pairs one caller of Collision logs

  /** The pairs Collision logs for caller `i` walking the query result
      `js` in order, on top of the log `log`: (i, j) for each j that is not
      i and whose pair {i, j} is in neither orientation logged so far. */
  function NewPairs(i: int, js: seq<int>, log: seq<(int, int)>): seq<(int, int)>
    decreases |js|
  {
    if js == [] then []
    else
      var prev := NewPairs(i, js[..|js| - 1], log);
      var j := js[|js| - 1];
      if (i, j) !in log + prev && (j, i) !in log + prev && j != i then prev + [(i, j)] else prev
  }

  /** One more partner `js[k]` walked: the log of the first k + 1 partners
      is that of the first k, plus (i, js[k]) when that pair is new. */
  lemma NewPairsStep(i: int, js: seq<int>, k: int, log: seq<(int, int)>)
    requires 0 <= k < |js|
    ensures var prev := log + NewPairs(i, js[..k], log);
            var j := js[k];
            log + NewPairs(i, js[..k + 1], log)
              == if (i, j) !in prev && (j, i) !in prev && j != i then prev + [(i, j)] else prev
  {
    assert js[..k + 1][..k] == js[..k];
  }

  /** Every logged pair has caller `i` and a partner from `js` other than `i`. */
  lemma {:induction false} NewPairsShape(i: int, js: seq<int>, log: seq<(int, int)>)
    ensures forall p :: p in NewPairs(i, js, log) ==> p.0 == i && p.1 in js && p.1 != i
    decreases |js|
  {
    if js != [] {
      var init := js[..|js| - 1];
      NewPairsShape(i, init, log);
      forall p | p in NewPairs(i, init, log)
        ensures p.1 in js
      {
        assert p.1 in init;
        var m :| 0 <= m < |init| && init[m] == p.1;
        assert js[m] == p.1;
      }
    }
  }

  /** After the walk, every partner in `js` other than `i` is paired with
      `i` in the log, in one orientation or the other. */
  lemma {:induction false} NewPairsCover(i: int, js: seq<int>, log: seq<(int, int)>)
    ensures forall j :: j in js && j != i ==> (i, j) in log + NewPairs(i, js, log) || (j, i) in log + NewPairs(i, js, log)
    decreases |js|
  {
    if js != [] {
      var init := js[..|js| - 1];
      var prev := NewPairs(i, init, log);
      var all := log + NewPairs(i, js, log);
      NewPairsCover(i, init, log);
      assert forall p :: p in log + prev ==> p in all;
      forall j | j in js && j != i
        ensures (i, j) in all || (j, i) in all
      {
        if j != js[|js| - 1] {
          var m :| 0 <= m < |js| && js[m] == j;
          assert init[m] == j;
        }
      }
    }
  }

  /** The walk keeps the log free of repeats and within range. */
  lemma {:induction false} NewPairsValid(i: int, js: seq<int>, log: seq<(int, int)>, n: int)
    requires PairsValid(log, n) && 0 <= i < n
    requires forall k :: 0 <= k < |js| ==> 0 <= js[k] < n
    ensures PairsValid(log + NewPairs(i, js, log), n)
    decreases |js|
  {
    if js != [] {
      var init := js[..|js| - 1];
      var prev := NewPairs(i, init, log);
      NewPairsValid(i, init, log, n);
      var j := js[|js| - 1];
      if (i, j) !in log + prev && (j, i) !in log + prev && j != i {
        PairsValidExtend(log + prev, n, i, j);
        assert log + NewPairs(i, js, log) == (log + prev) + [(i, j)];
      }
    }
  }

  /** naive_particles_collisions resolves every unordered pair of distinct
      particles exactly once, with the lower index as the caller. */
  lemma AllPairsExactlyOnce(n: int)
    ensures PairsValid(AllPairs(n), n)
    ensures forall i, j :: (i, j) in AllPairs(n) <==> 0 <= i < j < n
  {
    PairsBeforeHas(n, n);
    var ps := AllPairs(n);
    forall t | 0 <= t < |ps|
      ensures 0 <= ps[t].0 < ps[t].1 < n
    {
      assert ps[t] in ps;
    }
  }
}
