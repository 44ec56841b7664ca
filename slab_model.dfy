/** The placement grid: rectangular panels on an integer cell grid, the
    cell -> panel ownership map and the drawn beam edges, with the adjacency,
    coverage and beam-gridline queries the analyses ask of it, and the main
    reinforcement design step they share. */
module SlabModel {
  import opened Common
  import opened Tables
  import opened StructDesign

  type Cell = (int, int)

  /** A panel: owner id, cell box [i0..i1] x [j0..j1], kind, cell sizes dx, dy
      (m), design load pd (kN/m^2) and strip width b (m). */
  datatype Slab = Slab(id: string, i0: int, j0: int, i1: int, j1: int, kind: Kind,
                       dx: real, dy: real, pd: real, b: real)
  {
    /** Number of cells along X and along Y: for a well-formed box, the
        last cell at that count lies in the box and the next does not. */
    function SizeCells(): (r: (int, int))
      ensures i0 <= i1 && j0 <= j1 ==>
                && r.0 >= 1 && r.1 >= 1
                && InBox(this, (i0 + r.0 - 1, j0 + r.1 - 1))
                && !InBox(this, (i0 + r.0, j0)) && !InBox(this, (i0, j0 + r.1))
    {
      (i1 - i0 + 1, j1 - j0 + 1)
    }

    /** Gross panel size in metres along X and along Y. */
    function SizeMGross(): (r: (real, real))
      ensures i0 <= i1 && j0 <= j1 && dx > 0.0 && dy > 0.0 ==> r.0 >= dx && r.1 >= dy
    {
      var n := SizeCells();
      (n.0 as real * dx, n.1 as real * dy)
    }
  }

  /** max(lo, min(hi, v)). */
  function Clamp(v: int, lo: int, hi: int): (r: int)
    ensures lo <= hi ==> lo <= r <= hi
    ensures lo <= v <= hi ==> r == v
    ensures v < lo ==> r == lo
    ensures lo <= hi && hi < v ==> r == hi
    ensures hi < lo ==> r == lo
  {
    MaxInt(lo, MinInt(hi, v))
  }

  /** The box spanned by two corner cells, as (low corner, high corner). */
  function RectNormalize(a: Cell, b: Cell): (r: (Cell, Cell))
    ensures r.0.0 <= r.1.0 && r.0.1 <= r.1.1
    ensures {r.0.0, r.1.0} == {a.0, b.0} && {r.0.1, r.1.1} == {a.1, b.1}
  {
    ((MinInt(a.0, b.0), MinInt(a.1, b.1)), (MaxInt(a.0, b.0), MaxInt(a.1, b.1)))
  }

  predicate InBox(s: Slab, c: Cell)
  {
    s.i0 <= c.0 <= s.i1 && s.j0 <= c.1 <= s.j1
  }

  /** A snapshot of the system's state: grid size in cells, panels by id, cell
      owners, and the drawn beam edges (V: vertical edge right of cell (i, j);
      H: horizontal edge below cell (i, j)). */
  datatype Grid = Grid(nx: int, ny: int, slabs: map<string, Slab>, owner: map<Cell, string>,
                       vBeam: set<Cell>, hBeam: set<Cell>)

  /** The ownership map is exactly the union of the panels' boxes: every owned
      cell lies in its owner's box, every box cell is owned by its panel, and
      each panel is stored under its own id. */
  ghost predicate Inv(g: Grid)
  {
    && (forall c :: c in g.owner ==> g.owner[c] in g.slabs && InBox(g.slabs[g.owner[c]], c))
    && (forall id, c :: id in g.slabs && InBox(g.slabs[id], c) ==> c in g.owner && g.owner[c] == id)
    && (forall id :: id in g.slabs ==> g.slabs[id].id == id)
  }

  ghost function BoxCells(s: Slab): set<Cell>
  {
    set i, j | s.i0 <= i <= s.i1 && s.j0 <= j <= s.j1 :: (i, j)
  }

  /** The ownership map after painting s's box with its id. */
  ghost function AddOwners(owner: map<Cell, string>, s: Slab): (r: map<Cell, string>)
    ensures forall c :: InBox(s, c) ==> c in r && r[c] == s.id
    ensures forall c :: !InBox(s, c) ==> (c in r <==> c in owner)
    ensures forall c :: !InBox(s, c) && c in owner ==> r[c] == owner[c]
  {
    var r := map c | c in owner.Keys + BoxCells(s) :: if InBox(s, c) then s.id else owner[c];
    assert forall c :: InBox(s, c) ==> c in BoxCells(s);
    r
  }

  /** The ownership map after clearing the cells of s's box owned by sid. */
  ghost function DeleteOwners(owner: map<Cell, string>, s: Slab, sid: string): (r: map<Cell, string>)
    ensures forall c :: c in r <==> c in owner && !(InBox(s, c) && owner[c] == sid)
    ensures forall c :: c in r ==> r[c] == owner[c]
  {
    map c | c in owner && !(InBox(s, c) && owner[c] == sid) :: owner[c]
  }

  ghost function AddSlabSpec(g: Grid, s: Slab): Grid
  {
    g.(slabs := g.slabs[s.id := s], owner := AddOwners(g.owner, s))
  }

  ghost function DeleteSlabSpec(g: Grid, sid: string): Grid
  {
    if sid !in g.slabs then g
    else g.(slabs := g.slabs - {sid}, owner := DeleteOwners(g.owner, g.slabs[sid], sid))
  }

  /** Adding a panel with a fresh id onto free cells keeps the ownership map
      equal to the union of the boxes. */
  lemma AddPreservesInv(g: Grid, s: Slab)
    requires Inv(g) && s.id !in g.slabs
    requires forall c :: InBox(s, c) ==> c !in g.owner
    ensures Inv(AddSlabSpec(g, s))
  {
    var g' := AddSlabSpec(g, s);
    forall id, c | id in g'.slabs && InBox(g'.slabs[id], c)
      ensures c in g'.owner && g'.owner[c] == id
    {
      if id != s.id {
        assert c in g.owner && g.owner[c] == id;
        assert !InBox(s, c);
      }
    }
  }

  /** Deleting a panel keeps the ownership map equal to the union of the
      remaining boxes. */
  lemma DeletePreservesInv(g: Grid, sid: string)
    requires Inv(g)
    ensures Inv(DeleteSlabSpec(g, sid))
  {
  }

  /** Deleting a panel just added onto free cells restores the state. */
  lemma DeleteAfterAdd(g: Grid, s: Slab)
    requires Inv(g) && s.id !in g.slabs
    requires forall c :: InBox(s, c) ==> c !in g.owner
    ensures DeleteSlabSpec(AddSlabSpec(g, s), s.id) == g
  {
    var g' := AddSlabSpec(g, s);
    var d := DeleteOwners(g'.owner, s, s.id);
    assert d.Keys == g.owner.Keys by {
      forall c | c in g.owner ensures c in d {
        assert !InBox(s, c);
      }
    }
    assert d == g.owner;
    assert g'.slabs - {s.id} == g.slabs;
  }

  // ---------------------------------------------------------------------
  // Adjacency queries
  // ---------------------------------------------------------------------

  /** The owner of a cell, "" when it has none (the source treats a missing
      and an empty owner alike). */
  function Owner(g: Grid, c: Cell): string
  {
    if c in g.owner then g.owner[c] else ""
  }

  predicate IsNeighbourCell(g: Grid, sid: string, c: Cell)
  {
    Owner(g, c) != "" && Owner(g, c) != sid
  }

  /** First and last cell index across the panel, perpendicular to `a`: an X
      side runs along j, a Y side along i. */
  function ExtentLo(s: Slab, a: Axis): int { if a == X then s.j0 else s.i0 }
  function ExtentHi(s: Slab, a: Axis): int { if a == X then s.j1 else s.i1 }

  /** The cell just outside side `side` (along axis a) of s, at position k of
      the side. */
  function OutsideCell(s: Slab, a: Axis, side: Side, k: int): (c: Cell)
    ensures !InBox(s, c)
  {
    match (a, side)
    case (X, Start) => (s.i0 - 1, k)
    case (X, End) => (s.i1 + 1, k)
    case (Y, Start) => (k, s.j0 - 1)
    case (Y, End) => (k, s.j1 + 1)
  }

  /** The side lies on the grid boundary (no cell outside it). */
  predicate AtBoundary(g: Grid, s: Slab, a: Axis, side: Side)
  {
    match (a, side)
    case (X, Start) => s.i0 == 0
    case (X, End) => s.i1 >= g.nx - 1
    case (Y, Start) => s.j0 == 0
    case (Y, End) => s.j1 >= g.ny - 1
  }

  /** Owners other than sid of the outside cells at positions lo..k-1 of the
      side. */
  function NeighbourSet(g: Grid, sid: string, s: Slab, a: Axis, side: Side, k: int): (r: set<string>)
    ensures sid !in r && "" !in r
    decreases k - ExtentLo(s, a)
  {
    if k <= ExtentLo(s, a) then {}
    else
      var c := OutsideCell(s, a, side, k - 1);
      NeighbourSet(g, sid, s, a, side, k - 1) + (if IsNeighbourCell(g, sid, c) then {Owner(g, c)} else {})
  }

  lemma {:induction false} NeighbourSetMembers(g: Grid, sid: string, s: Slab, a: Axis, side: Side, k: int, n: string)
    ensures n in NeighbourSet(g, sid, s, a, side, k) <==>
              exists p :: ExtentLo(s, a) <= p < k && IsNeighbourCell(g, sid, OutsideCell(s, a, side, p))
                          && Owner(g, OutsideCell(s, a, side, p)) == n
    decreases k - ExtentLo(s, a)
  {
    if k > ExtentLo(s, a) {
      NeighbourSetMembers(g, sid, s, a, side, k - 1, n);
      var c := OutsideCell(s, a, side, k - 1);
      if IsNeighbourCell(g, sid, c) && Owner(g, c) == n {
        assert ExtentLo(s, a) <= k - 1 < k;
      }
    }
  }

  /** The panels across side `side` (along axis a) of panel sid. */
  function NeighborsOnSide(g: Grid, sid: string, a: Axis, side: Side): (r: set<string>)
    requires sid in g.slabs
    ensures sid !in r
    ensures AtBoundary(g, g.slabs[sid], a, side) ==> r == {}
  {
    var s := g.slabs[sid];
    if AtBoundary(g, s, a, side) then {} else NeighbourSet(g, sid, s, a, side, ExtentHi(s, a) + 1)
  }

  /** n is a neighbour across the side exactly when the side is interior and n
      owns, and is not sid, some cell right outside the side. */
  lemma NeighborsOnSideMembers(g: Grid, sid: string, a: Axis, side: Side, n: string)
    requires sid in g.slabs
    ensures var s := g.slabs[sid];
            n in NeighborsOnSide(g, sid, a, side) <==>
              !AtBoundary(g, s, a, side)
              && exists p :: ExtentLo(s, a) <= p <= ExtentHi(s, a) && IsNeighbourCell(g, sid, OutsideCell(s, a, side, p))
                             && Owner(g, OutsideCell(s, a, side, p)) == n
  {
    var s := g.slabs[sid];
    NeighbourSetMembers(g, sid, s, a, side, ExtentHi(s, a) + 1, n);
  }

  /** Number of neighbour cells at positions lo..k-1 of the side. */
  function FoundCount(g: Grid, sid: string, s: Slab, a: Axis, side: Side, k: int): (r: nat)
    ensures r <= MaxInt(0, k - ExtentLo(s, a))
    decreases k - ExtentLo(s, a)
  {
    if k <= ExtentLo(s, a) then 0
    else FoundCount(g, sid, s, a, side, k - 1) + (if IsNeighbourCell(g, sid, OutsideCell(s, a, side, k - 1)) then 1 else 0)
  }

  lemma {:induction false} FoundCountPositive(g: Grid, sid: string, s: Slab, a: Axis, side: Side, k: int)
    ensures FoundCount(g, sid, s, a, side, k) > 0 <==> NeighbourSet(g, sid, s, a, side, k) != {}
    decreases k - ExtentLo(s, a)
  {
    if k > ExtentLo(s, a) {
      FoundCountPositive(g, sid, s, a, side, k - 1);
    }
  }

  lemma {:induction false} FoundCountAll(g: Grid, sid: string, s: Slab, a: Axis, side: Side, k: int)
    requires k >= ExtentLo(s, a)
    ensures FoundCount(g, sid, s, a, side, k) == k - ExtentLo(s, a) <==>
              forall p :: ExtentLo(s, a) <= p < k ==> IsNeighbourCell(g, sid, OutsideCell(s, a, side, p))
    decreases k - ExtentLo(s, a)
  {
    if k > ExtentLo(s, a) {
      FoundCountAll(g, sid, s, a, side, k - 1);
    }
  }

  /** Coverage of an edge by neighbour cells: all of it, some of it, and the
      covered fraction. */
  datatype Coverage = Coverage(full: bool, any: bool, ratio: real)

  /** found out of total cells as a fraction; 0 for an empty edge. */
  function CellFraction(found: int, total: int): real
  {
    if total > 0 then found as real / total as real else 0.0
  }

  function EdgeCoverage(g: Grid, sid: string, e: Edge): (r: Coverage)
    requires sid in g.slabs
    ensures AtBoundary(g, g.slabs[sid], EdgeAxis(e), EdgeSide(e)) ==> r == Coverage(false, false, 0.0)
    ensures 0.0 <= r.ratio <= 1.0
    ensures r.full ==> r.any && r.ratio == 1.0
    ensures !r.any ==> r.ratio == 0.0
    ensures !AtBoundary(g, g.slabs[sid], EdgeAxis(e), EdgeSide(e)) ==>
              r.ratio == CellFraction(FoundCount(g, sid, g.slabs[sid], EdgeAxis(e), EdgeSide(e),
                                                 ExtentHi(g.slabs[sid], EdgeAxis(e)) + 1),
                                      ExtentHi(g.slabs[sid], EdgeAxis(e)) - ExtentLo(g.slabs[sid], EdgeAxis(e)) + 1)
  {
    var s, a, side := g.slabs[sid], EdgeAxis(e), EdgeSide(e);
    if AtBoundary(g, s, a, side) then Coverage(false, false, 0.0)
    else
      var lo, hi := ExtentLo(s, a), ExtentHi(s, a);
      var total := MaxInt(0, hi - lo + 1);
      var found := FoundCount(g, sid, s, a, side, hi + 1);
      assert found <= total;
      Coverage(total > 0 && found == total, found > 0, CellFraction(found, hi - lo + 1))
  }

  /** Some of the edge is covered exactly when the edge has a neighbour
      panel. */
  lemma CoverageAnyIffNeighbour(g: Grid, sid: string, e: Edge)
    requires sid in g.slabs
    ensures EdgeCoverage(g, sid, e).any <==> NeighborsOnSide(g, sid, EdgeAxis(e), EdgeSide(e)) != {}
  {
    var s := g.slabs[sid];
    FoundCountPositive(g, sid, s, EdgeAxis(e), EdgeSide(e), ExtentHi(s, EdgeAxis(e)) + 1);
  }

  /** All of the edge is covered exactly when it is interior, non-empty, and
      every cell right outside it has an owner other than sid. */
  lemma CoverageFullIffAllCells(g: Grid, sid: string, e: Edge)
    requires sid in g.slabs
    ensures var s, a, side := g.slabs[sid], EdgeAxis(e), EdgeSide(e);
            EdgeCoverage(g, sid, e).full <==>
              !AtBoundary(g, s, a, side) && ExtentLo(s, a) <= ExtentHi(s, a)
              && forall p :: ExtentLo(s, a) <= p <= ExtentHi(s, a) ==> IsNeighbourCell(g, sid, OutsideCell(s, a, side, p))
  {
    var s, a := g.slabs[sid], EdgeAxis(e);
    if ExtentLo(s, a) <= ExtentHi(s, a) {
      FoundCountAll(g, sid, s, a, EdgeSide(e), ExtentHi(s, a) + 1);
    }
  }

  // ---------------------------------------------------------------------
  // Beam gridlines
  // ---------------------------------------------------------------------

  /** The beam-edge key of position p on gridline gl: the edges of gridline
      gl are those of cell index gl - 1, vertical ones (gl - 1, p) for X and
      horizontal ones (p, gl - 1) for Y. */
  function BeamEdge(a: Axis, gl: int, p: int): Cell
  {
    if a == X then (gl - 1, p) else (p, gl - 1)
  }

  /** A beam is drawn on gridline gl at position p. */
  predicate IsBeam(g: Grid, a: Axis, gl: int, p: int)
  {
    BeamEdge(a, gl, p) in (if a == X then g.vBeam else g.hBeam)
  }

  function CellCount(g: Grid, a: Axis): int
  {
    if a == X then g.nx else g.ny
  }

  /** Gridline gl carries a beam at every position lo..hi. */
  function AllBeams(g: Grid, a: Axis, gl: int, lo: int, hi: int): (r: bool)
    ensures r <==> forall p :: lo <= p <= hi ==> IsBeam(g, a, gl, p)
    decreases hi - lo
  {
    if lo > hi then true
    else IsBeam(g, a, gl, lo) && AllBeams(g, a, gl, lo + 1, hi)
  }

  /** Gridline gl (between cells gl-1 and gl along a) carries a beam across
      the whole of panel sid's extent; gridlines off the grid never do. */
  function IsBeamGridline(g: Grid, sid: string, a: Axis, gl: int): (r: bool)
    requires sid in g.slabs
    ensures gl < 0 || gl > CellCount(g, a) ==> !r
    ensures 0 <= gl <= CellCount(g, a) ==>
              (r <==> forall p :: ExtentLo(g.slabs[sid], a) <= p <= ExtentHi(g.slabs[sid], a)
                                  ==> IsBeam(g, a, gl, p))
  {
    var s := g.slabs[sid];
    if gl < 0 || gl > CellCount(g, a) then false
    else AllBeams(g, a, gl, ExtentLo(s, a), ExtentHi(s, a))
  }

  /** First and last cell index of the panel along a. */
  function SpanLo(s: Slab, a: Axis): int { if a == X then s.i0 else s.j0 }
  function SpanHi(s: Slab, a: Axis): int { if a == X then s.i1 else s.j1 }

  function BeamGridlinesFrom(g: Grid, sid: string, a: Axis, lo: int, hi: int): (r: seq<int>)
    requires sid in g.slabs
    ensures forall k :: 0 <= k < |r| ==> lo <= r[k] <= hi && IsBeamGridline(g, sid, a, r[k])
    ensures forall k, l :: 0 <= k < l < |r| ==> r[k] < r[l]
    ensures forall x :: lo <= x <= hi && IsBeamGridline(g, sid, a, x) ==> x in r
    decreases hi - lo
  {
    if lo > hi then []
    else (if IsBeamGridline(g, sid, a, lo) then [lo] else []) + BeamGridlinesFrom(g, sid, a, lo + 1, hi)
  }

  /** Gridlines strictly inside panel sid along a (i0+1..i1 for X) that carry
      a drawn beam across the panel, in increasing order. */
  function SupportGridlinesFromBeams(g: Grid, sid: string, a: Axis): (r: seq<int>)
    requires sid in g.slabs
    ensures var s := g.slabs[sid];
            && (forall k :: 0 <= k < |r| ==> SpanLo(s, a) < r[k] <= SpanHi(s, a) && IsBeamGridline(g, sid, a, r[k]))
            && (forall k, l :: 0 <= k < l < |r| ==> r[k] < r[l])
            && (forall x :: SpanLo(s, a) < x <= SpanHi(s, a) && IsBeamGridline(g, sid, a, x) ==> x in r)
  {
    var s := g.slabs[sid];
    BeamGridlinesFrom(g, sid, a, SpanLo(s, a) + 1, SpanHi(s, a))
  }

  /** Net span: the gross length less half a beam width per beamed end, but
      never below 0.05 m. */
  function NetSpan(lGross: real, leftIsBeam: bool, rightIsBeam: bool, bw: real): (r: real)
    ensures r >= 0.05
    ensures var beams := (if leftIsBeam then 1 else 0) + (if rightIsBeam then 1 else 0);
            r == Max(0.05, lGross - beams as real * bw / 2.0)
    ensures bw >= 0.0 && lGross >= 0.05 ==> r <= lGross
  {
    var lNet := if leftIsBeam && rightIsBeam then lGross - bw
                else if leftIsBeam || rightIsBeam then lGross - 0.5 * bw
                else lGross;
    Max(0.05, lNet)
  }

  // ---------------------------------------------------------------------
  // Main reinforcement design
  // ---------------------------------------------------------------------

  /** Effective depth of the main design: nominal depth plus a correction. */
  function DesignDepth(h: real, cover: real, dDelta: real): real
  {
    h - cover + dDelta
  }

  /** Steel requirement of the main design: the chart area (0 when there is
      none), raised to the minimum area, which is rho_min * 1000 * max(1, d)
      unless overridden. A non-positive depth fails for a positive moment. */
  function RequiredArea(m: real, conc: string, steel: string, h: real, cover: real,
                        asMinOverride: Option<real>, dDelta: real, t: DesignTables): (r: Result<real>)
    requires ChartValid(t)
    ensures r.Err? <==> m > 0.0 && DesignDepth(h, cover, dDelta) <= 0.0
    ensures r.Ok? ==>
              var asMin := asMinOverride.GetOr(RhoMinOneway(steel) * 1000.0 * Max(1.0, DesignDepth(h, cover, dDelta)));
              var raw := AsFromAbacus(Some(m), conc, steel, h, cover, Some(DesignDepth(h, cover, dDelta)), t);
              r.value >= asMin && r.value >= raw.value.GetOr(0.0)
              && (r.value == asMin || r.value == raw.value.GetOr(0.0))
    ensures r.Ok? && m <= 0.0 ==> r.value == Max(0.0, asMinOverride.GetOr(RhoMinOneway(steel) * 1000.0 * Max(1.0, DesignDepth(h, cover, dDelta))))
  {
    var dEff := DesignDepth(h, cover, dDelta);
    var raw := AsFromAbacus(Some(m), conc, steel, h, cover, Some(dEff), t);
    if raw.Err? then Err(raw.error)
    else
      var asReq := raw.value.GetOr(0.0);
      var asMin := asMinOverride.GetOr(RhoMinOneway(steel) * 1000.0 * Max(1.0, dEff));
      Ok(Max(asReq, asMin))
  }

  /** The default diameter range of the catalogue search. */
  const PhiMinDefault: int := 8
  const PhiMaxDefault: int := 32

  /** Design of the main bars for moment m: the requirement, and the
      least-area admissible pattern meeting it (diameters 8..32); fails when
      the depth is non-positive or no pattern meets the requirement. */
  method DesignMainRebarFromM(m: real, conc: string, steel: string, h: real, cover: real, sMax: int,
                              asMinOverride: Option<real>, dDelta: real, t: DesignTables)
    returns (r: Result<(real, RebarChoice)>)
    requires ChartValid(t) && CatalogueValid(t)
    ensures var req := RequiredArea(m, conc, steel, h, cover, asMinOverride, dDelta, t);
            && (req.Err? ==> r == Err(req.error))
            && (req.Ok? && !SomeCandidate(t, req.value, sMax, PhiMinDefault, PhiMaxDefault) ==>
                  r == Err(NoRebarFound(req.value, sMax)))
            && (r.Ok? ==>
                  && req.Ok? && r.value.0 == req.value
                  && Fits(t, r.value.1, req.value, sMax, PhiMinDefault, PhiMaxDefault)
                  && forall phi, s :: (Admissible(t, phi, s, sMax, PhiMinDefault, PhiMaxDefault) && Meets(phi, s, req.value)
                       ==> NoWorse(r.value.1, Candidate(phi, s))))
    ensures var req := RequiredArea(m, conc, steel, h, cover, asMinOverride, dDelta, t);
            r.Ok? <==> (req.Ok? && SomeCandidate(t, req.value, sMax, PhiMinDefault, PhiMaxDefault))
  {
    var req := RequiredArea(m, conc, steel, h, cover, asMinOverride, dDelta, t);
    if req.Err? {
      return Err(req.error);
    }
    var cand := SelectRebarMinArea(t, req.value, sMax, PhiMinDefault, PhiMaxDefault);
    if cand.None? {
      return Err(NoRebarFound(req.value, sMax));
    }
    r := Ok((req.value, cand.value));
  }

  /** The main design for moment m, with depth correction dDelta, can be
      carried out: the requirement is defined and some catalogue pattern
      meets it. */
  ghost predicate Designable(t: DesignTables, m: real, conc: string, steel: string, h: real, cover: real, dDelta: real, sMax: int)
    requires ChartValid(t)
  {
    var req := RequiredArea(m, conc, steel, h, cover, None, dDelta, t);
    req.Ok? && SomeCandidate(t, req.value, sMax, PhiMinDefault, PhiMaxDefault)
  }

  /** The error a failed main design raises. */
  function DesignError(req: Result<real>, sMax: int): Error
  {
    if req.Err? then req.error else NoRebarFound(req.value, sMax)
  }

  /** c is the catalogue choice of the main design for moment m. */
  ghost predicate IsMainDesign(t: DesignTables, m: real, conc: string, steel: string, h: real, cover: real,
                               dDelta: real, sMax: int, c: RebarChoice)
    requires ChartValid(t)
  {
    var req := RequiredArea(m, conc, steel, h, cover, None, dDelta, t);
    req.Ok? && IsSelection(t, Some(c), req.value, sMax, PhiMinDefault, PhiMaxDefault)
  }

  // ---------------------------------------------------------------------
  // The system object
  // ---------------------------------------------------------------------

  /** Cells of s's box already visited by a row-major scan that is at cell
      (i, j). */
  predicate Painted(s: Slab, i: int, j: int, c: Cell)
  {
    InBox(s, c) && (c.0 < i || (c.0 == i && c.1 < j))
  }

  class SlabSystem {
    var nx: int
    var ny: int
    var slabs: map<string, Slab>
    var owner: map<Cell, string>
    var vBeam: set<Cell>
    var hBeam: set<Cell>

    function State(): Grid
      reads this
    {
      Grid(nx, ny, slabs, owner, vBeam, hBeam)
    }

    constructor (nx0: int, ny0: int)
      ensures State() == Grid(nx0, ny0, map[], map[], {}, {})
      ensures Inv(State())
    {
      nx, ny := nx0, ny0;
      slabs, owner := map[], map[];
      vBeam, hBeam := {}, {};
    }

    /** Stores s under its id and paints its box with the id, overwriting any
        previous owner of those cells. */
    method AddSlab(s: Slab)
      modifies this
      ensures State() == AddSlabSpec(old(State()), s)
    {
      slabs := slabs[s.id := s];
      var i := s.i0;
      while i <= s.i1
        invariant s.i0 <= i || s.i0 > s.i1
        invariant nx == old(nx) && ny == old(ny) && vBeam == old(vBeam) && hBeam == old(hBeam)
        invariant slabs == old(slabs)[s.id := s]
        invariant forall c :: c in owner <==> c in old(owner) || Painted(s, i, s.j0, c)
        invariant forall c :: c in owner ==> owner[c] == if Painted(s, i, s.j0, c) then s.id else old(owner)[c]
        decreases s.i1 - i
      {
        var j := s.j0;
        while j <= s.j1
          invariant s.j0 <= j || s.j0 > s.j1
          invariant nx == old(nx) && ny == old(ny) && vBeam == old(vBeam) && hBeam == old(hBeam)
          invariant slabs == old(slabs)[s.id := s]
          invariant forall c :: c in owner <==> c in old(owner) || Painted(s, i, j, c)
          invariant forall c :: c in owner ==> owner[c] == if Painted(s, i, j, c) then s.id else old(owner)[c]
          decreases s.j1 - j
        {
          owner := owner[(i, j) := s.id];
          j := j + 1;
        }
        assert forall c :: Painted(s, i, j, c) <==> Painted(s, i + 1, s.j0, c);
        i := i + 1;
      }
      assert forall c :: Painted(s, i, s.j0, c) <==> InBox(s, c);
      var want := AddOwners(old(owner), s);
      assert owner.Keys == want.Keys;
      assert owner == want;
    }

    /** Nothing for an unknown id; otherwise clears the cells of its box that
        it still owns and drops the panel. */
    method DeleteSlab(sid: string)
      modifies this
      ensures State() == DeleteSlabSpec(old(State()), sid)
    {
      if sid !in slabs {
        return;
      }
      var s := slabs[sid];
      var i := s.i0;
      while i <= s.i1
        invariant s.i0 <= i || s.i0 > s.i1
        invariant nx == old(nx) && ny == old(ny) && vBeam == old(vBeam) && hBeam == old(hBeam)
        invariant slabs == old(slabs)
        invariant forall c :: c in owner <==> c in old(owner) && !(Painted(s, i, s.j0, c) && old(owner)[c] == sid)
        invariant forall c :: c in owner ==> owner[c] == old(owner)[c]
        decreases s.i1 - i
      {
        var j := s.j0;
        while j <= s.j1
          invariant s.j0 <= j || s.j0 > s.j1
          invariant nx == old(nx) && ny == old(ny) && vBeam == old(vBeam) && hBeam == old(hBeam)
          invariant slabs == old(slabs)
          invariant forall c :: c in owner <==> c in old(owner) && !(Painted(s, i, j, c) && old(owner)[c] == sid)
          invariant forall c :: c in owner ==> owner[c] == old(owner)[c]
          decreases s.j1 - j
        {
          if (i, j) in owner && owner[(i, j)] == sid {
            owner := owner - {(i, j)};
          }
          j := j + 1;
        }
        assert forall c :: Painted(s, i, j, c) <==> Painted(s, i + 1, s.j0, c);
        i := i + 1;
      }
      assert forall c :: Painted(s, i, s.j0, c) <==> InBox(s, c);
      slabs := slabs - {sid};
      var want := DeleteOwners(old(owner), s, sid);
      assert owner.Keys == want.Keys;
      assert owner == want;
    }

    /** The neighbour scan of one side. */
    method NeighborSlabsOnSide(sid: string, a: Axis, side: Side) returns (neigh: set<string>)
      requires sid in slabs
      ensures neigh == NeighborsOnSide(State(), sid, a, side)
    {
      var s := slabs[sid];
      neigh := {};
      if AtBoundary(State(), s, a, side) {
        return;
      }
      var k := ExtentLo(s, a);
      while k <= ExtentHi(s, a)
        invariant ExtentLo(s, a) <= k <= MaxInt(ExtentLo(s, a), ExtentHi(s, a) + 1)
        invariant neigh == NeighbourSet(State(), sid, s, a, side, k)
        decreases ExtentHi(s, a) - k
      {
        var c := OutsideCell(s, a, side, k);
        var nb := if c in owner then owner[c] else "";
        if nb != "" && nb != sid {
          neigh := neigh + {nb};
        }
        k := k + 1;
      }
      if ExtentLo(s, a) > ExtentHi(s, a) {
        assert NeighbourSet(State(), sid, s, a, side, ExtentHi(s, a) + 1) == {};
      }
    }

    /** The coverage scan of one edge. */
    method EdgeNeighborCoverage(sid: string, e: Edge) returns (cov: Coverage)
      requires sid in slabs
      ensures cov == EdgeCoverage(State(), sid, e)
    {
      var s, a, side := slabs[sid], EdgeAxis(e), EdgeSide(e);
      if AtBoundary(State(), s, a, side) {
        return Coverage(false, false, 0.0);
      }
      var total, found := 0, 0;
      var k := ExtentLo(s, a);
      while k <= ExtentHi(s, a)
        invariant ExtentLo(s, a) <= k <= MaxInt(ExtentLo(s, a), ExtentHi(s, a) + 1)
        invariant total == MaxInt(0, k - ExtentLo(s, a))
        invariant found == FoundCount(State(), sid, s, a, side, k)
        decreases ExtentHi(s, a) - k
      {
        total := total + 1;
        var c := OutsideCell(s, a, side, k);
        var nb := if c in owner then owner[c] else "";
        if nb != "" && nb != sid {
          found := found + 1;
        }
        k := k + 1;
      }
      if ExtentLo(s, a) > ExtentHi(s, a) {
        assert FoundCount(State(), sid, s, a, side, ExtentHi(s, a) + 1) == 0;
      }
      var anyCov := found > 0;
      var full := total > 0 && found == total;
      var ratio := if total > 0 then found as real / total as real else 0.0;
      cov := Coverage(full, anyCov, ratio);
    }

    /** Coverage of the four edges, in the order L, R, T, B. */
    method TwowayEdgeContinuityFull(sid: string) returns (cov: seq<Coverage>)
      requires sid in slabs
      ensures |cov| == 4
      ensures forall k :: 0 <= k < 4 ==> cov[k] == EdgeCoverage(State(), sid, EdgeOrder[k])
    {
      var cl := EdgeNeighborCoverage(sid, L);
      var cr := EdgeNeighborCoverage(sid, R);
      var ct := EdgeNeighborCoverage(sid, T);
      var cb := EdgeNeighborCoverage(sid, B);
      cov := [cl, cr, ct, cb];
    }
  }
}
