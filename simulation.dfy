/** The simulation step that is not drawing: the window borders built from
    the enable flags, the two collision strategies, the wall pass, and the
    order of one frame (class Simulation, PhySim/PhyObjects.py:300-425). */
module Simulations {
  import opened Vectors
  import opened Bodies
  import opened Pairs
  import opened ParticleSystem

  // ---------------------------------------------------------------------
  // Walls, one after another

  /** The body after `wall_collision` against each wall of `ws` in order;
      walls never change its mass, radius, charge or acceleration. */
  function WallsPass(b: Body, ws: seq<Wall>): (res: Body)
    requires WallsDefined(b, ws)
    ensures SameMaterial(res, b)
    decreases |ws|, 1
  {
    if ws == [] then b else WallHit(WallsPass(b, ws[..|ws| - 1]), ws[|ws| - 1])
  }

  /** Every wall of `ws` meets the body, as the earlier walls left it, at
      a point wall_collision can resolve. */
  predicate WallsDefined(b: Body, ws: seq<Wall>)
    decreases |ws|, 0
  {
    ws == [] || (WallsDefined(b, ws[..|ws| - 1]) && WallResolvable(WallsPass(b, ws[..|ws| - 1]), ws[|ws| - 1]))
  }

  /** Two passes, first over `ws1` and then over `ws2`, are one pass over
      `ws1 + ws2`: wall_collisons treats the user walls and the borders as
      one list of walls per particle. */
  lemma {:induction false} WallsPassAppend(b: Body, ws1: seq<Wall>, ws2: seq<Wall>)
    ensures WallsDefined(b, ws1 + ws2) <==> WallsDefined(b, ws1) && WallsDefined(WallsPass(b, ws1), ws2)
    ensures WallsDefined(b, ws1 + ws2) ==> WallsPass(b, ws1 + ws2) == WallsPass(WallsPass(b, ws1), ws2)
    decreases |ws2|
  {
    if ws2 == [] {
      assert ws1 + ws2 == ws1;
    } else {
      var init := ws2[..|ws2| - 1];
      assert (ws1 + ws2)[..|ws1 + ws2| - 1] == ws1 + init;
      assert (ws1 + ws2)[|ws1 + ws2| - 1] == ws2[|ws2| - 1];
      WallsPassAppend(b, ws1, init);
    }
  }

  /** A body that touches none of the walls passes through them unchanged. */
  lemma {:induction false} WallsPassMisses(b: Body, ws: seq<Wall>)
    requires forall k :: 0 <= k < |ws| ==> !Touches(b, ws[k])
    ensures WallsDefined(b, ws) && WallsPass(b, ws) == b
    decreases |ws|
  {
    if ws != [] {
      WallsPassMisses(b, ws[..|ws| - 1]);
    }
  }

  // ---------------------------------------------------------------------
  // Window borders

  function TopBorder(width: real): Wall { Wall(Vec(width / 2.0, 0.0), width, 10.0) }

  function BottomBorder(width: real, height: real): Wall { Wall(Vec(width / 2.0, height), width, 10.0) }

  function LeftBorder(height: real): Wall { Wall(Vec(0.0, height / 2.0), 10.0, height) }

  function RightBorder(width: real, height: real): Wall { Wall(Vec(width, height / 2.0), 10.0, height) }

  /** The borders of a `width` x `height` window, in the order they are
      appended: a 10-unit-thick wall centred on each enabled edge and as
      long as that edge. */
  function Borders(width: real, height: real, top: bool, bottom: bool, left: bool, right: bool): (ws: seq<Wall>)
    ensures |ws| <= 4
    ensures top ==> 0 < |ws| && ws[0] == TopBorder(width)
    ensures right ==> 0 < |ws| && ws[|ws| - 1] == RightBorder(width, height)
    ensures forall w :: w in ws <==>
              || (top && w == TopBorder(width))
              || (bottom && w == BottomBorder(width, height))
              || (left && w == LeftBorder(height))
              || (right && w == RightBorder(width, height))
  {
    (if top then [TopBorder(width)] else [])
    + (if bottom then [BottomBorder(width, height)] else [])
    + (if left then [LeftBorder(height)] else [])
    + (if right then [RightBorder(width, height)] else [])
  }

  /** A particle whose disc stays at least 5 units (half a border's
      thickness) inside every edge of the window touches no border, so the
      border pass leaves it where it is. */
  lemma InsideWindowUntouched(b: Body, width: real, height: real, top: bool, bottom: bool, left: bool, right: bool)
    requires 5.0 <= b.r.x - b.radius && b.r.x + b.radius <= width - 5.0
    requires 5.0 <= b.r.y - b.radius && b.r.y + b.radius <= height - 5.0
    ensures WallsDefined(b, Borders(width, height, top, bottom, left, right))
    ensures WallsPass(b, Borders(width, height, top, bottom, left, right)) == b
  {
    var ws := Borders(width, height, top, bottom, left, right);
    forall k | 0 <= k < |ws|
      ensures !Touches(b, ws[k])
    {
      assert ws[k] in ws;
    }
    WallsPassMisses(b, ws);
  }

  /** A particle within the window's horizontal extent whose disc reaches
      into the 5-unit band along the top edge touches the top border; and
      likewise for the other three edges. */
  lemma CrossingEdgeTouches(b: Body, width: real, height: real)
    requires 0.0 < b.radius
    ensures (0.0 <= b.r.x <= width && -5.0 < b.r.y + b.radius && b.r.y - b.radius < 5.0)
            ==> Touches(b, TopBorder(width))
    ensures (0.0 <= b.r.x <= width && height - 5.0 < b.r.y + b.radius && b.r.y - b.radius < height + 5.0)
            ==> Touches(b, BottomBorder(width, height))
    ensures (0.0 <= b.r.y <= height && -5.0 < b.r.x + b.radius && b.r.x - b.radius < 5.0)
            ==> Touches(b, LeftBorder(height))
    ensures (0.0 <= b.r.y <= height && width - 5.0 < b.r.x + b.radius && b.r.x - b.radius < width + 5.0)
            ==> Touches(b, RightBorder(width, height))
  {
  }

  // ---------------------------------------------------------------------
  // A whole set of bodies

  /** Every body after `update(dt)`. */
  ghost function AdvanceAll(bs: seq<Body>, dt: real): (res: seq<Body>)
    ensures |res| == |bs|
  {
    seq(|bs|, k requires 0 <= k < |bs| => Advance(bs[k], dt))
  }

  /** A time step moves bodies but never changes their masses. */
  lemma AdvanceAllKeepsMasses(bs: seq<Body>, dt: real)
    requires MassesSummable(bs)
    ensures MassesSummable(AdvanceAll(bs, dt))
  {
    var res := AdvanceAll(bs, dt);
    forall i, j | 0 <= i < |res| && 0 <= j < |res| && i != j
      ensures res[i].m + res[j].m != 0.0
    {
      assert res[i].m == bs[i].m && res[j].m == bs[j].m;
    }
  }

  /** Every body can be taken through `ws`. */
  ghost predicate WallsSafe(bs: seq<Body>, ws: seq<Wall>)
  {
    forall k :: 0 <= k < |bs| ==> WallsDefined(bs[k], ws)
  }

  /** Every body after its own pass through `ws`. */
  ghost function Walled(bs: seq<Body>, ws: seq<Wall>): (res: seq<Body>)
    requires WallsSafe(bs, ws)
    ensures |res| == |bs|
  {
    seq(|bs|, k requires 0 <= k < |bs| => WallsPass(bs[k], ws))
  }

  /** The pairs of `pairs` can be resolved from `bs` in order, and every
      body can afterwards be taken through `ws`. */
  ghost predicate WallsSafeAfter(bs: seq<Body>, pairs: seq<(int, int)>, ws: seq<Wall>, unitAxis: Vec -> Vec)
  {
    MassesSummable(bs) && PairsIn(pairs, |bs|) && WallsSafe(Resolve(bs, pairs, unitAxis), ws)
  }

  /** Whatever valid log of pairs (no pair twice, in either orientation) a
      collision pass resolves from `bs`, every body can afterwards be taken
      through `ws`. */
  ghost predicate WallsSafeAfterPairs(bs: seq<Body>, ws: seq<Wall>, unitAxis: Vec -> Vec)
  {
    MassesSummable(bs) && forall pairs :: PairsValid(pairs, |bs|) ==> WallsSafe(Resolve(bs, pairs, unitAxis), ws)
  }

  /** `for wall in ws: p.wall_collision(wall)` */
  method CollideWalls(p: MassPoint, ws: seq<Wall>)
    requires WallsDefined(p.State(), ws)
    modifies p
    ensures p.State() == WallsPass(old(p.State()), ws)
  {
    ghost var b := p.State();
    for w := 0 to |ws|
      invariant WallsDefined(b, ws[..w]) && p.State() == WallsPass(b, ws[..w])
    {
      assert ws[..w + 1][..w] == ws[..w];
      WallsDefinedPrefix(b, ws, w + 1);
      p.WallCollision(ws[w]);
    }
    assert ws[..|ws|] == ws;
  }

  /** A prefix of a resolvable list of walls is resolvable. */
  lemma {:induction false} WallsDefinedPrefix(b: Body, ws: seq<Wall>, k: int)
    requires WallsDefined(b, ws) && 0 <= k <= |ws|
    ensures WallsDefined(b, ws[..k])
    decreases |ws|
  {
    if k < |ws| {
      assert ws[..|ws| - 1][..k] == ws[..k];
      WallsDefinedPrefix(b, ws[..|ws| - 1], k);
    } else {
      assert ws[..k] == ws;
    }
  }

  /** The inner loop's log after one more visit. */
  lemma RowPairsExtend(base: seq<(int, int)>, i: int, j: int)
    requires 0 <= j
    ensures base + RowPairs(i, j + 1) == if i < j then base + RowPairs(i, j) + [(i, j)] else base + RowPairs(i, j)
  {
    if i < j {
      assert base + RowPairs(i, j + 1) == base + (RowPairs(i, j) + [(i, j)]);
    } else {
      assert RowPairs(i, j + 1) == RowPairs(i, j) + [];
    }
  }

  /** The set of earlier callers grows by the caller just finished. */
  lemma CallersStep(checked: set<int>, i: int, n: int, log: seq<(int, int)>, log': seq<(int, int)>)
    requires 0 <= i
    requires forall k :: k in checked <==> 0 <= k < i
    requires log == PairsBefore(i, n) && log' == log + RowPairs(i, n)
    ensures forall k :: k in checked + {i} <==> 0 <= k < i + 1
    ensures log' == PairsBefore(i + 1, n)
  {
    assert PairsBefore(i + 1, n) == PairsBefore(i, n) + RowPairs(i, n);
  }

  // ---------------------------------------------------------------------

  class Simulation {
    const P: Particles
    /** The user's walls. */
    const walls: seq<Wall>
    /** The window borders enabled at construction. */
    const borders: seq<Wall>
    const width: real
    const height: real
    const fps: real
    const timeRes: real

    /** Keeps the particles, the walls, the window size and the timing, and
        appends a border for each enabled edge of the window. The defaults
        are the source's: no extra walls, a 600 x 600 window, 60 frames per
        second, one time step per frame and all four borders. `particles`
        is accepted and never used. */
    constructor (P: Particles, particles: seq<MassPoint> := [], walls: seq<Wall> := [],
                 size: (real, real) := (600.0, 600.0), fps: real := 60.0, timeRes: real := 1.0,
                 top: bool := true, bottom: bool := true, left: bool := true, right: bool := true)
      ensures this.P == P && this.walls == walls && width == size.0 && height == size.1
      ensures this.fps == fps && this.timeRes == timeRes
      ensures borders == Borders(size.0, size.1, top, bottom, left, right)
    {
      this.P := P;
      this.walls := walls;
      width := size.0;
      height := size.1;
      this.fps := fps;
      this.timeRes := timeRes;
      var bs: seq<Wall> := [];
      if top {
        bs := bs + [Wall(Vec(size.0 / 2.0, 0.0), size.0, 10.0)];
      }
      if bottom {
        bs := bs + [Wall(Vec(size.0 / 2.0, size.1), size.0, 10.0)];
      }
      if left {
        bs := bs + [Wall(Vec(0.0, size.1 / 2.0), 10.0, size.1)];
      }
      if right {
        bs := bs + [Wall(Vec(size.0, size.1 / 2.0), 10.0, size.1)];
      }
      borders := bs;
    }

    /** The particles are where resolving `log`, in order, from `b0` puts them. */
    ghost predicate Resolved(b0: seq<Body>, log: seq<(int, int)>, unitAxis: Vec -> Vec)
      reads P.P
      requires P.Valid()
    {
      |b0| == P.N && MassesSummable(b0) && PairsIn(log, P.N) && P.Bodies() == Resolve(b0, log, unitAxis)
    }

    /** naive_particles_collisions: every particle i against every particle
        j that is neither i nor an earlier caller, i.e. each pair (i, j) with
        i < j, in row order. */
    method NaiveCollisions(unitAxis: Vec -> Vec) returns (ghost log: seq<(int, int)>)
      requires P.Valid() && MassesSummable(P.Bodies())
      modifies P.P
      ensures log == AllPairs(P.N) && PairsValid(log, P.N)
      ensures P.Bodies() == Resolve(old(P.Bodies()), log, unitAxis)
    {
      ghost var b0 := P.Bodies();
      var checked: set<int> := {};
      log := [];
      for i := 0 to P.N
        invariant CallersDone(i, checked, log, b0, unitAxis)
      {
        log := NaiveCaller(i, checked, log, b0, unitAxis);
        checked := checked + {i};
      }
      AllPairsExactlyOnce(P.N);
    }

    /** One turn of the outer loop of naive_particles_collisions: caller `i`
        runs its row and joins the earlier callers. */
    method NaiveCaller(i: int, checked: set<int>, ghost log: seq<(int, int)>, ghost b0: seq<Body>, unitAxis: Vec -> Vec)
      returns (ghost log': seq<(int, int)>)
      requires P.Valid() && 0 <= i < P.N
      requires CallersDone(i, checked, log, b0, unitAxis)
      modifies P.P
      ensures CallersDone(i + 1, checked + {i}, log', b0, unitAxis)
    {
      log' := NaiveRow(i, checked, log, b0, unitAxis);
      CallersStep(checked, i, P.N, log, log');
    }

    /** The outer loop of naive_particles_collisions has finished the
        callers below `i`: `checked` holds them, and the particles are where
        their rows put them. */
    ghost predicate CallersDone(i: int, checked: set<int>, log: seq<(int, int)>, b0: seq<Body>, unitAxis: Vec -> Vec)
      reads P.P
      requires P.Valid()
    {
      && (forall k :: k in checked <==> 0 <= k < i)
      && log == PairsBefore(i, P.N)
      && Resolved(b0, log, unitAxis)
    }

    /** The inner loop of naive_particles_collisions for caller `i` has
        visited the partners below `j`: `checked` holds the earlier callers,
        and the particles are where the pairs so far put them. */
    ghost predicate RowState(i: int, j: int, checked: set<int>, base: seq<(int, int)>, log: seq<(int, int)>,
                             b0: seq<Body>, unitAxis: Vec -> Vec)
      reads P.P
      requires P.Valid()
    {
      && 0 <= i < P.N
      && (forall k :: k in checked <==> 0 <= k < i)
      && log == base + RowPairs(i, j)
      && Resolved(b0, log, unitAxis)
    }

    /** The inner loop of naive_particles_collisions for caller `i`: every
        later particle, skipping `i` itself and the earlier callers in
        `checked`. */
    method NaiveRow(i: int, checked: set<int>, ghost log: seq<(int, int)>, ghost b0: seq<Body>, unitAxis: Vec -> Vec)
      returns (ghost log': seq<(int, int)>)
      requires P.Valid() && 0 <= i < P.N
      requires forall k :: k in checked <==> 0 <= k < i
      requires Resolved(b0, log, unitAxis)
      modifies P.P
      ensures log' == log + RowPairs(i, P.N)
      ensures Resolved(b0, log', unitAxis)
    {
      log' := log;
      assert log + RowPairs(i, 0) == log;
      for j := 0 to P.N
        invariant RowState(i, j, checked, log, log', b0, unitAxis)
      {
        log' := NaiveVisit(i, j, checked, log, log', b0, unitAxis);
      }
    }

    /** One visit of the inner loop: skip `j` when it is the caller or an
        earlier caller, otherwise resolve the pair. */
    method NaiveVisit(i: int, j: int, checked: set<int>, ghost base: seq<(int, int)>, ghost log: seq<(int, int)>,
                      ghost b0: seq<Body>, unitAxis: Vec -> Vec)
      returns (ghost log': seq<(int, int)>)
      requires P.Valid() && 0 <= j < P.N
      requires RowState(i, j, checked, base, log, b0, unitAxis)
      modifies P.P
      ensures RowState(i, j + 1, checked, base, log', b0, unitAxis)
    {
      RowPairsExtend(base, i, j);
      assert (i == j || j in checked) <==> !(i < j);
      if i == j || j in checked {
        log' := log;
      } else {
        ResolveExtend(b0, log, i, j, unitAxis);
        assert SameMaterial(P.Bodies()[i], b0[i]) && SameMaterial(P.Bodies()[j], b0[j]);
        P.CollidePair(i, j, unitAxis);
        log' := log + [(i, j)];
      }
    }

    /** One pass of wall_collisons: every particle against every wall of
        `ws`, in order. */
    method CollideAllWith(ws: seq<Wall>)
      requires P.Valid() && WallsSafe(P.Bodies(), ws)
      modifies P.P
      ensures P.Bodies() == Walled(old(P.Bodies()), ws)
    {
      ghost var b0 := P.Bodies();
      for k := 0 to P.N
        invariant forall t :: 0 <= t < k ==> P.P[t].State() == WallsPass(b0[t], ws)
        invariant forall t :: k <= t < P.N ==> P.P[t].State() == b0[t]
      {
        CollideWalls(P.P[k], ws);
      }
    }

    /** wall_collisons: all particles against the user walls, then all
        particles against the borders. Particles do not meet each other
        here, so each ends as one pass over the walls and then the borders
        would leave it. */
    method WallCollisions()
      requires P.Valid() && WallsSafe(P.Bodies(), walls + borders)
      modifies P.P
      ensures P.Bodies() == Walled(old(P.Bodies()), walls + borders)
    {
      ghost var b0 := P.Bodies();
      forall k | 0 <= k < P.N
        ensures WallsDefined(b0[k], walls) && WallsDefined(WallsPass(b0[k], walls), borders)
        ensures WallsPass(b0[k], walls + borders) == WallsPass(WallsPass(b0[k], walls), borders)
      {
        WallsPassAppend(b0[k], walls, borders);
      }
      CollideAllWith(walls);
      CollideAllWith(borders);
    }

    /** The update loop of `run`: every particle advances by `dt`. */
    method UpdateAll(dt: real)
      requires P.Valid()
      modifies P.P
      ensures P.Bodies() == AdvanceAll(old(P.Bodies()), dt)
    {
      ghost var b0 := P.Bodies();
      for k := 0 to P.N
        invariant forall t :: 0 <= t < k ==> P.P[t].State() == Advance(b0[t], dt)
        invariant forall t :: k <= t < P.N ==> P.P[t].State() == b0[t]
      {
        P.P[k].Update(dt);
      }
    }

    /** The collision phase of `run`: the naive pass, or a fresh hash index
        and the broad-phase pass. */
    method CollideParticles(naive: bool, unitAxis: Vec -> Vec)
      returns (ghost log: seq<(int, int)>, ghost probes: seq<Vec>, ghost turns: seq<int>)
      requires P.Valid() && MassesSummable(P.Bodies())
      requires !naive && 0 < P.N ==> P.MeanRadius() != 0.0
      modifies P, P.P
      ensures PairsValid(log, P.N)
      ensures naive ==> log == AllPairs(P.N)
      ensures !naive ==> P.Indexed() && P.snapshot == Centres(old(P.Bodies())) && P.buckets == P.BucketsAt(P.snapshot)
      ensures !naive ==> P.Bookkept(old(P.Bodies()), log, probes, turns, P.N, unitAxis)
      ensures P.Bodies() == Resolve(old(P.Bodies()), log, unitAxis)
    {
      if naive {
        log := NaiveCollisions(unitAxis);
        probes, turns := [], [];
      } else {
        P.Hash();
        log, probes, turns := P.Collision(unitAxis);
      }
    }

    /** One frame of `run` without the drawing: advance every particle by
        `time_res / FPS`, resolve particle pairs, then resolve walls.
        `log` is the sequence of pairs resolved; with the hash index,
        `probes` and `turns` say where and when each caller queried. Which
        pairs the hash index yields is only known once it is built, so with
        it the walls must be resolvable after any valid log of pairs; the
        naive pass resolves every pair in row order, and the walls must be
        resolvable after exactly that. */
    method Step(naive: bool, unitAxis: Vec -> Vec)
      returns (ghost log: seq<(int, int)>, ghost probes: seq<Vec>, ghost turns: seq<int>)
      requires P.Valid() && fps != 0.0
      requires !naive && 0 < P.N ==> P.MeanRadius() != 0.0
      requires naive ==> WallsSafeAfter(AdvanceAll(P.Bodies(), timeRes / fps), AllPairs(P.N), walls + borders, unitAxis)
      requires !naive ==> WallsSafeAfterPairs(AdvanceAll(P.Bodies(), timeRes / fps), walls + borders, unitAxis)
      modifies P, P.P
      ensures PairsValid(log, P.N)
      ensures naive ==> log == AllPairs(P.N)
      ensures !naive ==> P.Indexed() && P.snapshot == Centres(AdvanceAll(old(P.Bodies()), timeRes / fps))
      ensures !naive ==> P.buckets == P.BucketsAt(P.snapshot)
      ensures !naive ==> P.Bookkept(AdvanceAll(old(P.Bodies()), timeRes / fps), log, probes, turns, P.N, unitAxis)
      ensures P.Bodies() == Walled(Resolve(AdvanceAll(old(P.Bodies()), timeRes / fps), log, unitAxis), walls + borders)
    {
      var dt := timeRes / fps;
      UpdateAll(dt);
      log, probes, turns := CollideParticles(naive, unitAxis);
      WallCollisions();
    }
  }
}
