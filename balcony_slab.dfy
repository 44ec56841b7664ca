/** The balcony (cantilever) solver: the fixed edge guessed from the
    neighbour coverage of the four edges, the cantilever moment, the design
    moment raised to the support moments of the neighbours on the fixed
    edge, and the reinforcement design. */
module BalconySlab {
  import opened Common
  import opened Tables
  import opened StructDesign
  import opened SlabModel
  import opened OnewaySlab
  import opened TwowaySlab

  // ---------------------------------------------------------------------
  // Fixed edge
  // ---------------------------------------------------------------------

  /** The coverage ratio of edge e, 0 when no neighbour touches it. */
  function EdgeRatio(g: Grid, sid: string, e: Edge): (r: real)
    requires sid in g.slabs
    ensures 0.0 <= r <= 1.0
    ensures r == EdgeCoverage(g, sid, e).ratio
  {
    var c := EdgeCoverage(g, sid, e);
    if c.any then c.ratio else 0.0
  }

  /** An edge without neighbour panels has ratio 0. */
  lemma RatioWithoutNeighbour(g: Grid, sid: string, e: Edge)
    requires sid in g.slabs
    requires NeighborsOnSide(g, sid, EdgeAxis(e), EdgeSide(e)) == {}
    ensures EdgeRatio(g, sid, e) == 0.0
  {
    CoverageAnyIffNeighbour(g, sid, e);
  }

  /** The ratios of the four edges, in the order L, R, T, B. */
  function Ratios(g: Grid, sid: string): (rs: seq<real>)
    requires sid in g.slabs
    ensures |rs| == 4 && forall k :: 0 <= k < 4 ==> rs[k] == EdgeRatio(g, sid, EdgeOrder[k])
  {
    [EdgeRatio(g, sid, L), EdgeRatio(g, sid, R), EdgeRatio(g, sid, T), EdgeRatio(g, sid, B)]
  }

  /** The index of the first largest value among rs[0..k]. */
  function FirstMaxIndex(rs: seq<real>, k: nat): (i: nat)
    requires 1 <= k <= |rs|
    ensures i < k
    ensures forall j :: 0 <= j < k ==> rs[j] <= rs[i]
    ensures forall j :: 0 <= j < i ==> rs[j] < rs[i]
  {
    if k == 1 then 0
    else
      var i := FirstMaxIndex(rs, k - 1);
      if rs[k - 1] > rs[i] then k - 1 else i
  }

  /** The edge guessed to be fixed: one of largest coverage ratio, the
      first such in the order L, R, T, B. */
  function FixedEdge(g: Grid, sid: string): (e: Edge)
    requires sid in g.slabs
    ensures forall e' :: EdgeRatio(g, sid, e') <= EdgeRatio(g, sid, e)
    ensures forall k :: 0 <= k < EdgeIndex(e) ==> EdgeRatio(g, sid, EdgeOrder[k]) < EdgeRatio(g, sid, e)
  {
    var rs := Ratios(g, sid);
    var i := FirstMaxIndex(rs, 4);
    assert forall e' :: rs[EdgeIndex(e')] == EdgeRatio(g, sid, e');
    EdgeOrder[i]
  }

  /** The fixed-edge guess: the ratios of the four edges, then the first
      largest. */
  method BalconyFixedEdgeGuess(g: Grid, sid: string) returns (fixed: Edge)
    requires sid in g.slabs
    ensures fixed == FixedEdge(g, sid)
  {
    var ratios: seq<real> := [];
    for k := 0 to 4
      invariant ratios == Ratios(g, sid)[..k]
    {
      var c := EdgeCoverage(g, sid, EdgeOrder[k]);
      ratios := ratios + [if c.any then c.ratio else 0.0];
    }
    assert ratios == Ratios(g, sid);
    var best := 0;
    for k := 1 to 4
      invariant best == FirstMaxIndex(ratios, k)
    {
      if ratios[k] > ratios[best] {
        best := k;
      }
    }
    fixed := EdgeOrder[best];
  }

  // ---------------------------------------------------------------------
  // Moments
  // ---------------------------------------------------------------------

  /** The cantilever solution: carrying direction, load w, net length and
      the support moment. */
  datatype BalconyResult = BalconyResult(dir: Axis, w: real, lNet: real, mneg: real)

  /** The support moment of a cantilever of length l under load w. */
  function CantileverMoment(w: real, l: real): (m: real)
    ensures w >= 0.0 ==> m >= 0.0
  {
    0.5 * w * (l * l)
  }

  /** The cantilever solution of panel sid: it carries along the shorter
      gross side, as a one-way panel does, under the one-way strip load; its
      net length is the shorter gross size less half a beam width at the
      fixed end, never below 0.05 m. */
  function ComputeBalconyPerSlab(g: Grid, sid: string, bw: real): (r: BalconyResult)
    requires sid in g.slabs
    ensures var s := g.slabs[sid]; var gross := s.SizeMGross();
            && r.dir == CarryingDir(s)
            && r.w == LineLoad(s)
            && r.lNet == NetSpan(Min(gross.0, gross.1), true, false, bw) && r.lNet >= 0.05
            && r.mneg == CantileverMoment(r.w, r.lNet)
  {
    var s := g.slabs[sid];
    var w := s.pd * s.b;
    var gross := s.SizeMGross();
    var dir := if gross.0 < gross.1 then Y else X;
    var lNet := Max(0.05, Min(gross.0, gross.1) - 0.5 * bw);
    BalconyResult(dir, w, lNet, CantileverMoment(w, lNet))
  }

  /** |m|, with a missing or zero moment counting as 0. */
  function AbsOrZero(m: Option<real>): (r: real)
    ensures r >= 0.0
    ensures m.Some? ==> r == Abs(m.value)
  {
    if m.Some? && m.value != 0.0 then Abs(m.value) else 0.0
  }

  /** A two-way neighbour's support moment across edge e: Mx on L and R,
      My on T and B. */
  function TwowayEdgeMoment(r: TwowayResult, e: Edge): (m: real)
    ensures m >= 0.0
  {
    if e == L || e == R then AbsOrZero(r.mxNeg) else AbsOrZero(r.myNeg)
  }

  /** mn is the support moment panel nid exerts across edge e: 0 for an
      unknown panel; for a two-way panel its negative moment on the axis of
      e; for a one-way panel its governing support moment; for a balcony
      its cantilever moment; in magnitude. */
  ghost predicate SupportMomentRule(g: Grid, nid: string, e: Edge, bw: real, t: DesignTables, mn: real)
    requires AlphaValid(t)
  {
    && mn >= 0.0
    && (nid !in g.slabs ==> mn == 0.0)
    && (IsKind(g, nid, Twoway) ==> mn == TwowayEdgeMoment(ComputeTwowayPerSlab(g, nid, bw, t), e))
    && (IsKind(g, nid, Balcony) ==> mn == Abs(ComputeBalconyPerSlab(g, nid, bw).mneg))
    && (IsKind(g, nid, Oneway) ==>
          exists res :: OnewayPerSlabRule(g, nid, bw, res) && mn == AbsOrZero(res.mnegMin))
  }

  method NeighborSupportMomentForEdge(g: Grid, nid: string, e: Edge, bw: real, t: DesignTables)
    returns (mn: real)
    requires AlphaValid(t) && BoxesOrdered(g)
    ensures SupportMomentRule(g, nid, e, bw, t, mn)
  {
    if nid !in g.slabs {
      return 0.0;
    }
    var k := g.slabs[nid].kind;
    match k
    case Twoway =>
      var r := ComputeTwowayPerSlab(g, nid, bw, t);
      mn := TwowayEdgeMoment(r, e);
    case Oneway =>
      var r := ComputeOnewayPerSlab(g, nid, bw);
      assert OnewayPerSlabRule(g, nid, bw, r);
      mn := if r.mnegMin.Some? then Abs(r.mnegMin.value) else 0.0;
    case Balcony =>
      var r := ComputeBalconyPerSlab(g, nid, bw);
      mn := Abs(r.mneg);
  }

  // ---------------------------------------------------------------------
  // Design moment
  // ---------------------------------------------------------------------

  /** The scan of edge e of the balcony is skipped when the edge is at the
      low grid border (index 0 or less) or at the high one. */
  predicate BalconyEdgeOpen(g: Grid, s: Slab, e: Edge)
  {
    match e
    case L => s.i0 > 0
    case R => s.i1 < g.nx - 1
    case T => s.j0 > 0
    case B => s.j1 < g.ny - 1
  }

  /** The neighbours the balcony scan finds across edge e. */
  function BalconyNeighbours(g: Grid, sid: string, e: Edge): (r: set<string>)
    requires sid in g.slabs
    ensures sid !in r
  {
    var s, a := g.slabs[sid], EdgeAxis(e);
    if BalconyEdgeOpen(g, s, e) then NeighbourSet(g, sid, s, a, EdgeSide(e), ExtentHi(s, a) + 1) else {}
  }

  /** For a panel inside the grid the balcony scan finds exactly the
      neighbours across the side that the shared neighbour query finds. */
  lemma BalconyNeighboursAgree(g: Grid, sid: string, e: Edge)
    requires sid in g.slabs && g.slabs[sid].i0 >= 0 && g.slabs[sid].j0 >= 0
    ensures BalconyNeighbours(g, sid, e) == NeighborsOnSide(g, sid, EdgeAxis(e), EdgeSide(e))
  {
  }

  /** The neighbour scan of the fixed edge. */
  method ScanFixedEdge(g: Grid, sid: string, e: Edge) returns (neigh: set<string>)
    requires sid in g.slabs
    ensures neigh == BalconyNeighbours(g, sid, e)
  {
    var s, a, side := g.slabs[sid], EdgeAxis(e), EdgeSide(e);
    neigh := {};
    if !BalconyEdgeOpen(g, s, e) {
      return;
    }
    var k := ExtentLo(s, a);
    while k <= ExtentHi(s, a)
      invariant ExtentLo(s, a) <= k <= MaxInt(ExtentLo(s, a), ExtentHi(s, a) + 1)
      invariant neigh == NeighbourSet(g, sid, s, a, side, k)
      decreases ExtentHi(s, a) - k
    {
      var c := OutsideCell(s, a, side, k);
      var nb := if c in g.owner then g.owner[c] else "";
      if nb != "" && nb != sid {
        neigh := neigh + {nb};
      }
      k := k + 1;
    }
    if ExtentLo(s, a) > ExtentHi(s, a) {
      assert NeighbourSet(g, sid, s, a, side, ExtentHi(s, a) + 1) == {};
    }
  }

  /** mdes is the design moment of the balcony: ms holds the support moment
      of each neighbour across the fixed edge, and mdes is the largest of
      |mbal| and those moments. */
  ghost predicate DesignMomentRule(g: Grid, sid: string, mbal: real, bw: real, t: DesignTables,
                                   ms: map<string, real>, mdes: real)
    requires sid in g.slabs && AlphaValid(t)
  {
    var fixed := FixedEdge(g, sid);
    && ms.Keys == BalconyNeighbours(g, sid, fixed)
    && (forall n :: n in ms ==> SupportMomentRule(g, n, fixed, bw, t, ms[n]))
    && mdes >= Abs(mbal)
    && (forall n :: n in ms ==> ms[n] <= mdes)
    && (mdes == Abs(mbal) || exists n :: n in ms && mdes == ms[n])
  }

  /** The largest support moment mnb, never below 0, that the panels of
      neigh exert across edge e; ms holds each panel's moment. */
  method NeighbourMoments(g: Grid, neigh: set<string>, e: Edge, bw: real, t: DesignTables)
    returns (mnb: real, ghost ms: map<string, real>)
    requires AlphaValid(t) && BoxesOrdered(g)
    ensures ms.Keys == neigh
    ensures forall n :: n in ms ==> SupportMomentRule(g, n, e, bw, t, ms[n]) && ms[n] <= mnb
    ensures mnb == 0.0 || exists n :: n in ms && mnb == ms[n]
  {
    mnb, ms := 0.0, map[];
    ghost var who := "";
    var rest := neigh;
    while rest != {}
      invariant rest <= neigh
      invariant ms.Keys == neigh - rest
      invariant forall n :: n in ms ==> SupportMomentRule(g, n, e, bw, t, ms[n]) && ms[n] <= mnb
      invariant mnb == 0.0 || (who in ms && mnb == ms[who])
      decreases rest
    {
      var n :| n in rest;
      var mn := NeighborSupportMomentForEdge(g, n, e, bw, t);
      ms := ms[n := mn];
      if mn > mnb {
        who := n;
      }
      mnb := Max(mnb, mn);
      rest := rest - {n};
    }
  }

  /** The design moment of balcony sid with cantilever moment mbal; it is
      |mbal| when the fixed edge has no neighbour. */
  method GetBalconyDesignMoment(g: Grid, sid: string, mbal: real, bw: real, t: DesignTables)
    returns (mdes: real, ghost ms: map<string, real>)
    requires sid in g.slabs && AlphaValid(t) && BoxesOrdered(g)
    ensures DesignMomentRule(g, sid, mbal, bw, t, ms, mdes)
    ensures BalconyNeighbours(g, sid, FixedEdge(g, sid)) == {} ==> mdes == Abs(mbal)
  {
    var fixed := BalconyFixedEdgeGuess(g, sid);
    var neigh := ScanFixedEdge(g, sid, fixed);
    ms := map[];
    if neigh == {} {
      mdes := Abs(mbal);
      return;
    }
    var mnb;
    mnb, ms := NeighbourMoments(g, neigh, fixed, bw, t);
    mdes := Max(Abs(mbal), mnb);
  }

  // ---------------------------------------------------------------------
  // Reinforcement design
  // ---------------------------------------------------------------------

  /** The reinforcement of a balcony: the fixed edge, the main bars and the
      distribution bars. */
  datatype BalconyDesign = BalconyDesign(cover: real, fixedEdge: Edge, main: RebarChoice,
                                         dist: Option<RebarChoice>)

  /** The balcony design: the main bars for the design moment, failing
      when that design fails; distribution bars for a fifth of the main
      area (diameters from 8 mm); the guessed fixed edge. */
  method BalconyReport(g: Grid, sid: string, res: BalconyResult, conc: string, steel: string,
                       h: real, cover: real, bw: real, t: DesignTables)
    returns (r: Result<BalconyDesign>, ghost mdes: real, ghost ms: map<string, real>)
    requires sid in g.slabs && BoxesOrdered(g)
    requires Valid(t)
    ensures DesignMomentRule(g, sid, res.mneg, bw, t, ms, mdes)
    ensures r.Ok? <==> Designable(t, mdes, conc, steel, h, cover, 0.0, OnewaySmaxMain(h))
    ensures r.Err? ==> r.error == DesignError(RequiredArea(mdes, conc, steel, h, cover, None, 0.0, t), OnewaySmaxMain(h))
    ensures r.Ok? ==>
              && r.value.cover == cover && r.value.fixedEdge == FixedEdge(g, sid)
              && IsMainDesign(t, mdes, conc, steel, h, cover, 0.0, OnewaySmaxMain(h), r.value.main)
              && IsSelection(t, r.value.dist, DistArea(r.value.main), OnewaySmaxDist(), PhiMinDefault, PhiMaxDefault)
  {
    var m;
    m, ms := GetBalconyDesignMoment(g, sid, res.mneg, bw, t);
    mdes := m;
    var main := DesignMainRebarFromM(m, conc, steel, h, cover, OnewaySmaxMain(h), None, 0.0, t);
    if main.Err? {
      return Err(main.error), mdes, ms;
    }
    var dist := SelectRebarMinArea(t, DistArea(main.value.1), OnewaySmaxDist(), 8, PhiMaxDefault);
    var fixed := BalconyFixedEdgeGuess(g, sid);
    r := Ok(BalconyDesign(cover, fixed, main.value.1, dist));
  }
}
