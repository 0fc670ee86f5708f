/**
 * The forest-fire cellular model of projet/src/model.cpp: a fire front
 * (cell index to intensity) and two per-cell byte maps, the fire map and the
 * vegetation map, advanced one time step at a time by `Model::update`.
 *
 * The floating-point decisions of the source are oracles fixed when the
 * model is built: `ignites` stands for `tirage < alpha_factor * p1 *
 * correction` of `check_direction` and `keepsFull` for `tirage >= p2` of
 * `update`. Both see the integer draw of `pseudo_random`; `ignites` also
 * sees the direction (which fixes the wind factor), the intensity of the
 * burning cell and the vegetation of the neighbour (the two inputs of
 * `log_factor`).
 */
module FireModel {
  import opened Wrappers
  import opened Grid

  /** `FirePropagation`: one record of the propagation phase. */
  datatype Propagation = Propagation(cell: nat, intensity: byte, isNewFire: bool)

  /** What the constructor throws when `t_discretization == 0`. */
  datatype ConstructionError = RangeError

  /** The `random_factor` each call site of `check_direction` passes. */
  function RandomFactor(dir: Direction): nat {
    match dir
    case South => 1
    case North => 13427
    case East => 179284929
    case West => 2418104973
  }

  /** The factor of the draw that decides whether a cell at 255 stays at 255. */
  const KEEP_RANDOM_FACTOR: nat := 52513

  /**
   * The model's central invariant: a cell is in the front exactly when its
   * fire-map entry is non-zero, and then both hold the same intensity.
   */
  predicate FrontMatchesFire(fire: seq<byte>, front: map<nat, byte>) {
    && (forall k :: k in front ==> k < |fire| && fire[k] == front[k])
    && (forall i :: 0 <= i < |fire| ==> (fire[i] != 0 <==> i in front))
  }

  predicate CellsBelow(recs: seq<Propagation>, bound: nat) {
    forall j :: 0 <= j < |recs| ==> recs[j].cell < bound
  }

  /** The fire map after the records are applied in order (model.cpp:205, 209). */
  function ApplyFire(fire: seq<byte>, recs: seq<Propagation>): (r: seq<byte>)
    requires CellsBelow(recs, |fire|)
    ensures |r| == |fire|
  {
    if recs == [] then fire
    else
      var last := recs[|recs| - 1];
      ApplyFire(fire, recs[..|recs| - 1])[last.cell := last.intensity]
  }

  /** The next front after the records are applied in order (model.cpp:203-214). */
  function ApplyFront(front: map<nat, byte>, recs: seq<Propagation>): map<nat, byte> {
    if recs == [] then front
    else
      var m := ApplyFront(front, recs[..|recs| - 1]);
      var last := recs[|recs| - 1];
      if last.isNewFire then m[last.cell := last.intensity]
      else if last.intensity == 0 then m - {last.cell}
      else m[last.cell := last.intensity]
  }

  /**
   * Applying ANY sequence of records whose new fires are non-zero keeps the
   * front and the fire map in agreement: the invariant does not depend on
   * the order in which the threads delivered the records.
   */
  lemma {:induction false} ApplyKeepsFrontMatchingFire(fire: seq<byte>, front: map<nat, byte>, recs: seq<Propagation>)
    requires FrontMatchesFire(fire, front)
    requires CellsBelow(recs, |fire|)
    requires forall j :: 0 <= j < |recs| && recs[j].isNewFire ==> recs[j].intensity != 0
    ensures FrontMatchesFire(ApplyFire(fire, recs), ApplyFront(front, recs))
  {
    if recs != [] {
      var init := recs[..|recs| - 1];
      ApplyKeepsFrontMatchingFire(fire, front, init);
    }
  }

  /** Applying records only ever adds cells that some record names. */
  lemma {:induction false} ApplyFrontKeys(front: map<nat, byte>, recs: seq<Propagation>, k: nat)
    requires k in ApplyFront(front, recs)
    ensures k in front || exists j :: 0 <= j < |recs| && recs[j].cell == k
  {
    if recs != [] {
      var init := recs[..|recs| - 1];
      if k in ApplyFront(front, init) {
        ApplyFrontKeys(front, init, k);
        if !(k in front) {
          var j :| 0 <= j < |init| && init[j].cell == k;
          assert recs[j].cell == k;
        }
      } else {
        assert recs[|recs| - 1].cell == k;
      }
    }
  }

  /** The intensities of the records that carry no new fire for cell `c`, in order. */
  function OwnRecordsAt(recs: seq<Propagation>, c: nat): seq<byte> {
    if recs == [] then []
    else
      var last := recs[|recs| - 1];
      OwnRecordsAt(recs[..|recs| - 1], c) + (if !last.isNewFire && last.cell == c then [last.intensity] else [])
  }

  lemma {:induction false} OwnRecordsAtConcat(a: seq<Propagation>, b: seq<Propagation>, c: nat)
    ensures OwnRecordsAt(a + b, c) == OwnRecordsAt(a, c) + OwnRecordsAt(b, c)
    decreases |b|
  {
    if b != [] {
      var b' := b[..|b| - 1];
      assert (a + b)[..|a + b| - 1] == a + b';
      OwnRecordsAtConcat(a, b', c);
    } else {
      assert a + b == a;
    }
  }

  /** Vegetation under a burning cell loses one unit, stopping at 0 (model.cpp:238-239). */
  function Burn(v: byte): (r: byte)
    ensures v > 0 ==> r == v - 1
    ensures v == 0 ==> r == 0
  {
    if v > 0 then v - 1 else 0
  }

  /** `order` lists the keys of a map once each: an iteration order of the front. */
  ghost predicate Enumerates(order: seq<nat>, keys: set<nat>) {
    && (forall i, j :: 0 <= i < j < |order| ==> order[i] != order[j])
    && (forall k :: k in keys <==> k in order)
  }

  /** The fire map the constructor leaves: all 0 but the start cell, at 255. */
  function InitialFire(n: nat, start: nat): (fire: seq<byte>)
    ensures |fire| == CellCount(n)
  {
    seq(CellCount(n), i => if i == start then 255 else 0)
  }

  /** The state the constructor leaves satisfies the model's invariant. */
  lemma InitialStateMatches(n: nat, start: nat)
    requires start < CellCount(n)
    ensures FrontMatchesFire(InitialFire(n, start), map[start := 255])
  {
  }

  /** One burning cell's own record: halved, or kept at 255 when the draw says so. */
  function OwnIntensity(intensity: byte, keep: bool): (r: byte)
    ensures intensity != 255 ==> r == intensity / 2
    ensures intensity == 255 && keep ==> r == 255
    ensures intensity == 255 && !keep ==> r == 127
  {
    if intensity == 255 && keep then intensity else intensity / 2
  }

  /** The records of one ignition attempt: none, or one new fire at 255. */
  function Spark(target: Option<nat>): (recs: seq<Propagation>)
    ensures target.None? ==> recs == []
    ensures target.Some? ==> recs == [Propagation(target.value, 255, true)]
  {
    if target.Some? then [Propagation(target.value, 255, true)] else []
  }

  /**
   * What the propagation phase of `Model::update` reads: the geometry, the
   * vegetation map, the front, the time step and the two oracles. That
   * phase writes none of them, so its records are a function of this view.
   */
  datatype View = View(
    geometry: nat,
    vegetation: seq<byte>,
    front: map<nat, byte>,
    timeStep: nat,
    ignites: (Direction, nat, byte, byte) -> bool,
    keepsFull: nat -> bool)
  {
    predicate WellShaped() {
      geometry > 0 && |vegetation| == CellCount(geometry)
    }
  }

  /**
   * The neighbour `check_direction` ignites from a burning cell, if any:
   * the in-grid neighbour in direction `dir`, when the oracle accepts the
   * draw seeded by the cell index and the direction's random factor.
   */
  function Ignition(v: View, cell: nat, intensity: byte, coord: Coord, dir: Direction): (target: Option<nat>)
    requires v.WellShaped() && InGrid(coord, v.geometry)
    ensures Neighbour(coord, dir, v.geometry).None? ==> target.None?
    ensures target.Some? ==> (
      && target.value < CellCount(v.geometry)
      && Neighbour(coord, dir, v.geometry) == Some(CoordOf(target.value, v.geometry)))
  {
    match Neighbour(coord, dir, v.geometry)
    case None => None
    case Some(next) =>
      CoordIndexRoundTrip(next, v.geometry);
      var target := IndexOf(next, v.geometry);
      var draw := Draw(Seed(cell, RandomFactor(dir), v.timeStep), v.timeStep);
      if v.ignites(dir, draw, intensity, v.vegetation[target]) then Some(target) else None
  }

  /** Whether a cell at 255 keeps its intensity this step (`tirage >= p2`). */
  function Keeps(v: View, cell: nat): bool {
    v.keepsFull(Draw(Seed(cell, KEEP_RANDOM_FACTOR, v.timeStep), v.timeStep))
  }

  /** The records one front cell contributes, in the order model.cpp:176-192 pushes them. */
  function CellRecords(v: View, cell: nat, intensity: byte): (recs: seq<Propagation>)
    requires v.WellShaped() && cell < CellCount(v.geometry)
    ensures |recs| >= 1 && recs[|recs| - 1] == Propagation(cell, OwnIntensity(intensity, Keeps(v, cell)), false)
    ensures CellsBelow(recs, CellCount(v.geometry))
  {
    IndexCoordRoundTrip(cell, v.geometry);
    var coord := CoordOf(cell, v.geometry);
    var bound := CellCount(v.geometry);
    var south := Spark(Ignition(v, cell, intensity, coord, South));
    var north := Spark(Ignition(v, cell, intensity, coord, North));
    var east := Spark(Ignition(v, cell, intensity, coord, East));
    var west := Spark(Ignition(v, cell, intensity, coord, West));
    var own := [Propagation(cell, OwnIntensity(intensity, Keeps(v, cell)), false)];
    ConcatCellsBelow(south, north, bound);
    ConcatCellsBelow(south + north, east, bound);
    ConcatCellsBelow(south + north + east, west, bound);
    ConcatCellsBelow(south + north + east + west, own, bound);
    south + north + east + west + own
  }

  lemma ConcatCellsBelow(a: seq<Propagation>, b: seq<Propagation>, bound: nat)
    requires CellsBelow(a, bound) && CellsBelow(b, bound)
    ensures CellsBelow(a + b, bound)
  {
  }

  /** Every cell of `order` is a cell of the grid that burns in the front. */
  predicate OrderInFront(v: View, order: seq<nat>) {
    forall i :: 0 <= i < |order| ==> order[i] in v.front && order[i] < CellCount(v.geometry)
  }

  /** All records of the propagation phase when the front cells are visited in `order`. */
  function Records(v: View, order: seq<nat>): (recs: seq<Propagation>)
    requires v.WellShaped() && OrderInFront(v, order)
    ensures CellsBelow(recs, CellCount(v.geometry))
  {
    if order == [] then []
    else
      var last := order[|order| - 1];
      Records(v, order[..|order| - 1]) + CellRecords(v, last, v.front[last])
  }

  lemma RecordsPrefix(v: View, order: seq<nat>, i: nat)
    requires v.WellShaped() && OrderInFront(v, order) && i < |order|
    ensures OrderInFront(v, order[..i]) && OrderInFront(v, order[..i + 1])
    ensures Records(v, order[..i + 1]) == Records(v, order[..i]) + CellRecords(v, order[i], v.front[order[i]])
  {
    assert order[..i + 1][..i] == order[..i];
    assert OrderInFront(v, order[..i]);
    assert OrderInFront(v, order[..i + 1]);
  }

  /** Cell `target` is a grid neighbour of one of the cells listed in `order`. */
  ghost predicate NextToSome(n: nat, target: nat, order: seq<nat>)
    requires n > 0
  {
    exists i, dir :: 0 <= i < |order| && Neighbour(CoordOf(order[i], n), dir, n) == Some(CoordOf(target, n))
  }

  /**
   * A record names a grid cell; a new fire is at 255 next to a cell of
   * `order`, any other record is about a cell of `order` itself.
   */
  ghost predicate WellFormedRecord(n: nat, p: Propagation, order: seq<nat>)
    requires n > 0
  {
    && p.cell < CellCount(n)
    && (p.isNewFire ==> p.intensity == 255 && NextToSome(n, p.cell, order))
    && (!p.isNewFire ==> p.cell in order)
  }

  /**
   * Every record names a cell of the grid; every new fire is at 255 and
   * lies next to a cell of the front, every other record is about a cell
   * of the front.
   */
  lemma {:induction false} RecordsWellFormed(v: View, order: seq<nat>)
    requires v.WellShaped() && OrderInFront(v, order)
    ensures forall j :: 0 <= j < |Records(v, order)| ==> WellFormedRecord(v.geometry, Records(v, order)[j], order)
  {
    if order != [] {
      var n := v.geometry;
      var init := order[..|order| - 1];
      var last := order[|order| - 1];
      assert OrderInFront(v, init);
      RecordsWellFormed(v, init);
      var a := Records(v, init);
      var b := CellRecords(v, last, v.front[last]);
      var recs := Records(v, order);
      assert recs == a + b;
      forall j | 0 <= j < |recs|
        ensures WellFormedRecord(n, recs[j], order)
      {
        if j < |a| {
          assert recs[j] == a[j];
          assert WellFormedRecord(n, a[j], init);
          if a[j].isNewFire {
            var i, dir :| 0 <= i < |init| && Neighbour(CoordOf(init[i], n), dir, n) == Some(CoordOf(a[j].cell, n));
            assert order[i] == init[i];
          }
        } else {
          assert recs[j] == b[j - |a|];
          CellRecordsWellFormed(v, last, v.front[last], j - |a|);
          if b[j - |a|].isNewFire {
            var dir :| Neighbour(CoordOf(last, n), dir, n) == Some(CoordOf(b[j - |a|].cell, n));
            assert order[|order| - 1] == last;
          }
        }
      }
    }
  }

  /**
   * The fire only spreads to neighbours: a cell of the next front was
   * already burning or lies next to a burning cell.
   */
  lemma NextFrontSpreadsToNeighbours(v: View, order: seq<nat>, k: nat)
    requires v.WellShaped() && OrderInFront(v, order)
    requires k in ApplyFront(v.front, Records(v, order))
    ensures k in v.front || NextToSome(v.geometry, k, order)
  {
    var recs := Records(v, order);
    ApplyFrontKeys(v.front, recs, k);
    if k !in v.front {
      var j :| 0 <= j < |recs| && recs[j].cell == k;
      RecordsWellFormed(v, order);
      assert WellFormedRecord(v.geometry, recs[j], order);
    }
  }

  lemma CellRecordsWellFormed(v: View, cell: nat, intensity: byte, j: nat)
    requires v.WellShaped() && cell < CellCount(v.geometry)
    requires j < |CellRecords(v, cell, intensity)|
    ensures var p := CellRecords(v, cell, intensity)[j];
      && p.cell < CellCount(v.geometry)
      && (p.isNewFire ==> (
           && p.intensity == 255
           && exists dir :: Neighbour(CoordOf(cell, v.geometry), dir, v.geometry) == Some(CoordOf(p.cell, v.geometry))))
      && (!p.isNewFire ==> p.cell == cell)
  {
    IndexCoordRoundTrip(cell, v.geometry);
    var coord := CoordOf(cell, v.geometry);
    var s := Spark(Ignition(v, cell, intensity, coord, South));
    var n := Spark(Ignition(v, cell, intensity, coord, North));
    var e := Spark(Ignition(v, cell, intensity, coord, East));
    var w := Spark(Ignition(v, cell, intensity, coord, West));
    var own := [Propagation(cell, OwnIntensity(intensity, Keeps(v, cell)), false)];
    var recs := s + n + e + w + own;
    assert CellRecords(v, cell, intensity) == recs;
    if j < |s| {
      assert recs[j] == s[j];
    } else if j < |s| + |n| {
      assert recs[j] == n[j - |s|];
    } else if j < |s| + |n| + |e| {
      assert recs[j] == e[j - |s| - |n|];
    } else if j < |s| + |n| + |e| + |w| {
      assert recs[j] == w[j - |s| - |n| - |e|];
    } else {
      assert recs[j] == own[0];
    }
  }

  /**
   * Each cell of the front contributes exactly one record that is not a
   * new fire, carrying its halved (or kept) intensity; cells outside the
   * front contribute none.
   */
  lemma {:induction false} RecordsOwnAt(v: View, order: seq<nat>, c: nat)
    requires v.WellShaped() && OrderInFront(v, order)
    requires forall i, j :: 0 <= i < j < |order| ==> order[i] != order[j]
    ensures OwnRecordsAt(Records(v, order), c) ==
      if c in order then [OwnIntensity(v.front[c], Keeps(v, c))] else []
  {
    if order != [] {
      var init := order[..|order| - 1];
      var last := order[|order| - 1];
      assert OrderInFront(v, init);
      RecordsOwnAt(v, init, c);
      OwnRecordsAtConcat(Records(v, init), CellRecords(v, last, v.front[last]), c);
      CellRecordsOwnAt(v, last, v.front[last], c);
      assert c in order <==> c in init || c == last;
      if c == last {
        assert c !in init;
      }
    }
  }

  lemma CellRecordsOwnAt(v: View, cell: nat, intensity: byte, c: nat)
    requires v.WellShaped() && cell < CellCount(v.geometry)
    ensures OwnRecordsAt(CellRecords(v, cell, intensity), c) ==
      if c == cell then [OwnIntensity(intensity, Keeps(v, cell))] else []
  {
    IndexCoordRoundTrip(cell, v.geometry);
    var coord := CoordOf(cell, v.geometry);
    var s := Spark(Ignition(v, cell, intensity, coord, South));
    var n := Spark(Ignition(v, cell, intensity, coord, North));
    var e := Spark(Ignition(v, cell, intensity, coord, East));
    var w := Spark(Ignition(v, cell, intensity, coord, West));
    var own := [Propagation(cell, OwnIntensity(intensity, Keeps(v, cell)), false)];
    assert CellRecords(v, cell, intensity) == s + n + e + w + own;
    OwnRecordsAtConcat(s + n + e + w, own, c);
    SparksHaveNoOwn(s, n, e, w, c);
    assert own[..0] == [];
  }

  /** The four records `check_direction` may emit hold no own record. */
  lemma SparksHaveNoOwn(s: seq<Propagation>, n: seq<Propagation>, e: seq<Propagation>, w: seq<Propagation>, c: nat)
    requires |s| <= 1 && forall j :: 0 <= j < |s| ==> s[j].isNewFire
    requires |n| <= 1 && forall j :: 0 <= j < |n| ==> n[j].isNewFire
    requires |e| <= 1 && forall j :: 0 <= j < |e| ==> e[j].isNewFire
    requires |w| <= 1 && forall j :: 0 <= j < |w| ==> w[j].isNewFire
    ensures OwnRecordsAt(s + n + e + w, c) == []
  {
    OwnRecordsAtConcat(s + n + e, w, c);
    OwnRecordsAtConcat(s + n, e, c);
    OwnRecordsAtConcat(s, n, c);
    SparkHasNoOwn(s, c);
    SparkHasNoOwn(n, c);
    SparkHasNoOwn(e, c);
    SparkHasNoOwn(w, c);
  }

  lemma SparkHasNoOwn(s: seq<Propagation>, c: nat)
    requires |s| <= 1 && forall j :: 0 <= j < |s| ==> s[j].isNewFire
    ensures OwnRecordsAt(s, c) == []
  {
    if s != [] {
      assert s[..0] == [];
    }
  }

  class Model {
    /** `m_geometry`: the number of cells per side. */
    const geometry: nat
    /** `m_vegetation_map` */
    const vegetationMap: array<byte>
    /** `m_fire_map` */
    const fireMap: array<byte>
    /** `m_fire_front` */
    var fireFront: map<nat, byte>
    /** `m_time_step` */
    var timeStep: nat
    const ignites: (Direction, nat, byte, byte) -> bool
    const keepsFull: nat -> bool

    ghost predicate Valid()
      reads this, vegetationMap, fireMap
    {
      && geometry > 0
      && vegetationMap != fireMap
      && vegetationMap.Length == CellCount(geometry)
      && fireMap.Length == CellCount(geometry)
      && FrontMatchesFire(fireMap[..], fireFront)
    }

    /** What the propagation phase reads of this model. */
    function Current(): (v: View)
      reads this, vegetationMap
      ensures v.geometry == geometry && v.vegetation == vegetationMap[..] && v.front == fireFront
      ensures v.timeStep == timeStep && v.ignites == ignites && v.keepsFull == keepsFull
    {
      View(geometry, vegetationMap[..], fireFront, timeStep, ignites, keepsFull)
    }

    /**
     * `Model::Model` for a positive discretization: every cell at full
     * vegetation, only the start cell burning, at 255. `m_time_step` starts
     * at 0.
     */
    constructor (discretization: nat, start: Coord, ignites: (Direction, nat, byte, byte) -> bool, keepsFull: nat -> bool)
      requires discretization > 0 && IndexOf(start, discretization) < CellCount(discretization)
      ensures Valid() && fresh(vegetationMap) && fresh(fireMap)
      ensures geometry == discretization && timeStep == 0
      ensures this.ignites == ignites && this.keepsFull == keepsFull
      ensures vegetationMap[..] == seq(CellCount(discretization), _ => 255)
      ensures fireMap[..] == InitialFire(discretization, IndexOf(start, discretization))
      ensures fireFront == map[IndexOf(start, discretization) := 255]
    {
      var cells := discretization * discretization;
      geometry := discretization;
      vegetationMap := new byte[cells](_ => 255);
      fireMap := new byte[cells](_ => 0);
      timeStep := 0;
      this.ignites := ignites;
      this.keepsFull := keepsFull;
      new;
      var index := IndexOf(start, discretization);
      fireMap[index] := 255;
      fireFront := map[index := 255];
      assert fireMap[..] == InitialFire(discretization, index);
      InitialStateMatches(discretization, index);
    }

    /**
     * The constructor with its error path: `std::range_error` when the
     * discretization is 0, the initial state otherwise.
     */
    static method Create(discretization: nat, start: Coord, ignites: (Direction, nat, byte, byte) -> bool, keepsFull: nat -> bool)
      returns (r: Result<Model, ConstructionError>)
      requires discretization == 0 || IndexOf(start, discretization) < CellCount(discretization)
      ensures r.Failure? <==> discretization == 0
      ensures r.Success? ==> (
        var m := r.value;
        && fresh(m) && fresh(m.vegetationMap) && fresh(m.fireMap) && m.Valid()
        && m.geometry == discretization && m.timeStep == 0
        && m.ignites == ignites && m.keepsFull == keepsFull
        && m.vegetationMap[..] == seq(CellCount(discretization), _ => 255)
        && m.fireMap[..] == InitialFire(discretization, IndexOf(start, discretization))
        && m.fireFront == map[IndexOf(start, discretization) := 255])
    {
      if discretization == 0 {
        return Failure(RangeError);
      }
      var m := new Model(discretization, start, ignites, keepsFull);
      return Success(m);
    }

    /** `check_direction`: appends the new fire it starts, if any, and says whether it started one. */
    method CheckDirection(cell: nat, intensity: byte, coord: Coord, dir: Direction, propagations: seq<Propagation>)
      returns (ignited: bool, propagations': seq<Propagation>)
      requires Current().WellShaped() && InGrid(coord, geometry)
      ensures Neighbour(coord, dir, geometry).None? ==> !ignited && propagations' == propagations
      ensures ignited <==> Ignition(Current(), cell, intensity, coord, dir).Some?
      ensures propagations' == propagations + Spark(Ignition(Current(), cell, intensity, coord, dir))
    {
      var next := Neighbour(coord, dir, geometry);
      if next.Some? {
        CoordIndexRoundTrip(next.value, geometry);
        var target := IndexOf(next.value, geometry);
        var draw := Draw(Seed(cell, RandomFactor(dir), timeStep), timeStep);
        if ignites(dir, draw, intensity, vegetationMap[target]) {
          return true, propagations + [Propagation(target, 255, true)];
        }
      }
      return false, propagations;
    }

    /** The body of the propagation loop for one front cell (model.cpp:172-192). */
    method PropagateCell(cell: nat, intensity: byte, propagations: seq<Propagation>) returns (propagations': seq<Propagation>)
      requires Current().WellShaped() && cell < CellCount(geometry)
      ensures propagations' == propagations + CellRecords(Current(), cell, intensity)
    {
      IndexCoordRoundTrip(cell, geometry);
      var coord := CoordOf(cell, geometry);
      ghost var v := Current();
      var ignited;
      var south, north, east, west;
      ignited, south := CheckDirection(cell, intensity, coord, South, []);
      assert Current() == v && south == Spark(Ignition(v, cell, intensity, coord, South));
      ignited, north := CheckDirection(cell, intensity, coord, North, []);
      assert Current() == v && north == Spark(Ignition(v, cell, intensity, coord, North));
      ignited, east := CheckDirection(cell, intensity, coord, East, []);
      assert Current() == v && east == Spark(Ignition(v, cell, intensity, coord, East));
      ignited, west := CheckDirection(cell, intensity, coord, West, []);
      assert Current() == v && west == Spark(Ignition(v, cell, intensity, coord, West));
      var newIntensity := intensity / 2;
      if intensity == 255 {
        if keepsFull(Draw(Seed(cell, KEEP_RANDOM_FACTOR, timeStep), timeStep)) {
          newIntensity := intensity;
        }
      }
      assert newIntensity == OwnIntensity(intensity, Keeps(v, cell));
      assert CellRecords(v, cell, intensity) == south + north + east + west + [Propagation(cell, newIntensity, false)];
      propagations' := propagations + (south + north + east + west + [Propagation(cell, newIntensity, false)]);
    }

    /** The propagation phase, visiting the front cells in `order` (model.cpp:166-193). */
    method CollectPropagations(order: seq<nat>) returns (propagations: seq<Propagation>)
      requires Current().WellShaped() && OrderInFront(Current(), order)
      ensures propagations == Records(Current(), order)
    {
      ghost var v := Current();
      propagations := [];
      var i := 0;
      assert OrderInFront(v, order[..0]);
      while i < |order|
        invariant 0 <= i <= |order|
        invariant OrderInFront(v, order[..i])
        invariant propagations == Records(v, order[..i])
      {
        var cell := order[i];
        propagations := PropagateCell(cell, fireFront[cell], propagations);
        RecordsPrefix(v, order, i);
        i := i + 1;
      }
      assert order[..i] == order;
    }

    /** The sequential application of the records to the fire map and the next front (model.cpp:198-217). */
    method ApplyPropagations(propagations: seq<Propagation>) returns (nextFront: map<nat, byte>)
      requires CellsBelow(propagations, fireMap.Length)
      modifies fireMap
      ensures fireMap[..] == ApplyFire(old(fireMap[..]), propagations)
      ensures nextFront == ApplyFront(fireFront, propagations)
    {
      nextFront := fireFront;
      var k := 0;
      while k < |propagations|
        invariant 0 <= k <= |propagations|
        invariant fireMap[..] == ApplyFire(old(fireMap[..]), propagations[..k])
        invariant nextFront == ApplyFront(fireFront, propagations[..k])
      {
        var p := propagations[k];
        assert propagations[..k + 1][..k] == propagations[..k];
        if p.isNewFire {
          fireMap[p.cell] := p.intensity;
          nextFront := nextFront[p.cell := p.intensity];
        } else {
          fireMap[p.cell] := p.intensity;
          if p.intensity == 0 {
            nextFront := nextFront - {p.cell};
          } else {
            nextFront := nextFront[p.cell := p.intensity];
          }
        }
        k := k + 1;
      }
      assert propagations[..k] == propagations;
    }

    /** The vegetation of every cell of the front loses one unit, stopping at 0 (model.cpp:235-240). */
    method BurnVegetation()
      requires forall k :: k in fireFront ==> k < vegetationMap.Length
      modifies vegetationMap
      ensures forall i :: 0 <= i < vegetationMap.Length ==>
        vegetationMap[i] == if i in fireFront then Burn(old(vegetationMap[i])) else old(vegetationMap[i])
    {
      var remaining := fireFront.Keys;
      while remaining != {}
        invariant remaining <= fireFront.Keys
        invariant forall i :: 0 <= i < vegetationMap.Length ==>
          vegetationMap[i] == if i in fireFront && i !in remaining then Burn(old(vegetationMap[i])) else old(vegetationMap[i])
        decreases remaining
      {
        var index :| index in remaining;
        if vegetationMap[index] > 0 {
          vegetationMap[index] := vegetationMap[index] - 1;
        }
        remaining := remaining - {index};
      }
    }

    /**
     * `Model::update`, with the front visited in `order`, any enumeration of
     * its keys: the thread schedule of the OpenMP loops only changes the
     * order in which the cells' records are delivered.
     */
    method Update(order: seq<nat>) returns (burning: bool)
      requires Valid() && Enumerates(order, fireFront.Keys)
      modifies this, fireMap, vegetationMap
      ensures Valid()
      ensures timeStep == old(timeStep) + 1
      ensures fireMap[..] == ApplyFire(old(fireMap[..]), Records(old(Current()), order))
      ensures fireFront == ApplyFront(old(fireFront), Records(old(Current()), order))
      ensures forall i :: 0 <= i < vegetationMap.Length ==>
        vegetationMap[i] == if i in fireFront then Burn(old(vegetationMap[i])) else old(vegetationMap[i])
      ensures burning <==> fireFront != map[]
    {
      ghost var v := Current();
      ghost var fire0 := fireMap[..];
      assert OrderInFront(v, order);
      var propagations := CollectPropagations(order);
      assert Current() == v && fireMap[..] == fire0;
      RecordsWellFormed(v, order);
      assert CellsBelow(propagations, fireMap.Length);
      var nextFront := ApplyPropagations(propagations);
      ghost var fire1 := fireMap[..];
      assert fire1 == ApplyFire(fire0, propagations);
      assert nextFront == ApplyFront(v.front, propagations);
      ApplyKeepsFrontMatchingFire(fire0, v.front, propagations);
      assert FrontMatchesFire(fire1, nextFront);
      fireFront := nextFront;
      assert vegetationMap[..] == v.vegetation;
      BurnVegetation();
      assert fireMap[..] == fire1;
      timeStep := timeStep + 1;
      burning := fireFront != map[];
    }
  }
}
