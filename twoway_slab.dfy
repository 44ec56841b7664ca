/** The two-way panel solver: net spans, the boundary case (1..7) chosen
    from the edge continuities, the coefficient moments M = alpha * pd * ls^2
    assigned to the short and long axes, and the reinforcement design of the
    four moments. */
module TwowaySlab {
  import opened Common
  import opened Tables
  import opened StructDesign
  import opened SlabModel

  // ---------------------------------------------------------------------
  // Beamed edges and net spans
  // ---------------------------------------------------------------------

  /** The gridline edge e of panel s lies on: i0 for L, i1 + 1 for R, j0 for
      T, j1 + 1 for B. */
  function EdgeGridline(s: Slab, e: Edge): int
  {
    match e
    case L => s.i0
    case R => s.i1 + 1
    case T => s.j0
    case B => s.j1 + 1
  }

  /** A beam runs along edge e of panel sid: the edge is not on the grid
      boundary, and every cell edge of its gridline across the panel's extent
      carries a drawn beam. */
  function SlabEdgeHasBeam(g: Grid, sid: string, e: Edge): (r: bool)
    requires sid in g.slabs
    ensures var s, a := g.slabs[sid], EdgeAxis(e);
            r <==> && !AtBoundary(g, s, a, EdgeSide(e))
                   && 0 <= EdgeGridline(s, e) <= CellCount(g, a)
                   && forall p :: ExtentLo(s, a) <= p <= ExtentHi(s, a) ==> IsBeam(g, a, EdgeGridline(s, e), p)
  {
    var s := g.slabs[sid];
    match e
    case L => s.i0 != 0 && IsBeamGridline(g, sid, X, s.i0)
    case R => s.i1 < g.nx - 1 && IsBeamGridline(g, sid, X, s.i1 + 1)
    case T => s.j0 != 0 && IsBeamGridline(g, sid, Y, s.j0)
    case B => s.j1 < g.ny - 1 && IsBeamGridline(g, sid, Y, s.j1 + 1)
  }

  /** Half a beam width for a beamed edge, nothing otherwise. */
  function HalfBeam(beamed: bool, bw: real): real
  {
    if beamed then 0.5 * bw else 0.0
  }

  /** Net spans along X and Y: the gross size less half a beam width per
      beamed edge on that axis, never below 0.05 m; they agree with the
      shared net-span rule. */
  function TwowayNetLxLy(g: Grid, sid: string, bw: real): (r: (real, real))
    requires sid in g.slabs
    ensures var gross := g.slabs[sid].SizeMGross();
            && r.0 == NetSpan(gross.0, SlabEdgeHasBeam(g, sid, L), SlabEdgeHasBeam(g, sid, R), bw)
            && r.1 == NetSpan(gross.1, SlabEdgeHasBeam(g, sid, T), SlabEdgeHasBeam(g, sid, B), bw)
    ensures r.0 >= 0.05 && r.1 >= 0.05
  {
    var gross := g.slabs[sid].SizeMGross();
    var left, right := SlabEdgeHasBeam(g, sid, L), SlabEdgeHasBeam(g, sid, R);
    var top, bottom := SlabEdgeHasBeam(g, sid, T), SlabEdgeHasBeam(g, sid, B);
    (Max(0.05, gross.0 - HalfBeam(left, bw) - HalfBeam(right, bw)),
     Max(0.05, gross.1 - HalfBeam(top, bw) - HalfBeam(bottom, bw)))
  }

  // ---------------------------------------------------------------------
  // Boundary case
  // ---------------------------------------------------------------------

  function Flag(b: bool): int
  {
    if b then 1 else 0
  }

  /** The number of discontinuous edges, counted as the source sums its
      flags. */
  function NDisc(cl: bool, cr: bool, ct: bool, cb: bool): int
  {
    Flag(!cl) + Flag(!cr) + Flag(!ct) + Flag(!cb)
  }

  /** A set of panel edges, as its four membership flags. */
  datatype EdgeSet = EdgeSet(l: bool, r: bool, t: bool, b: bool)
  {
    predicate Has(e: Edge)
    {
      match e
      case L => l
      case R => r
      case T => t
      case B => b
    }

    function Card(): int
    {
      Flag(l) + Flag(r) + Flag(t) + Flag(b)
    }
  }

  const NoEdges: EdgeSet := EdgeSet(false, false, false, false)

  /** The set {e1, e2}. */
  function Pair(e1: Edge, e2: Edge): (p: EdgeSet)
    ensures forall e :: p.Has(e) <==> e == e1 || e == e2
  {
    EdgeSet(e1 == L || e2 == L, e1 == R || e2 == R, e1 == T || e2 == T, e1 == B || e2 == B)
  }

  /** The set of discontinuous edges. */
  function DiscSet(cl: bool, cr: bool, ct: bool, cb: bool): (d: EdgeSet)
    ensures d.Has(L) == !cl && d.Has(R) == !cr && d.Has(T) == !ct && d.Has(B) == !cb
  {
    EdgeSet(!cl, !cr, !ct, !cb)
  }

  /** The pairs of edges that meet at a corner. */
  const AdjacentPairs: seq<EdgeSet> := [Pair(L, T), Pair(T, R), Pair(R, B), Pair(B, L)]

  /** The boundary case of the coefficient table for net spans lx, ly and
      the continuity of the four edges: 1 all continuous, 2 one edge
      discontinuous, 6 three, 7 four; with two, 4 or 5 for two opposite edges
      (the short pair or the long pair; in a square panel T/B gives 4 and L/R
      5) and 3 for two edges meeting at a corner. */
  function PickTwoWayCaseExact(lx: real, ly: real, cl: bool, cr: bool, ct: bool, cb: bool): (c: int)
    ensures 1 <= c <= 7
  {
    var n := NDisc(cl, cr, ct, cb);
    if n == 0 then 1
    else if n == 4 then 7
    else if n == 1 then 2
    else if n == 3 then 6
    else
      var edges: (EdgeSet, EdgeSet) :=
        if Abs(lx - ly) < Eps then (NoEdges, NoEdges)
        else if lx < ly then (Pair(T, B), Pair(L, R))
        else (Pair(L, R), Pair(T, B));
      var disc := DiscSet(cl, cr, ct, cb);
      if disc.Card() != 2 then 3
      else if edges.0 != NoEdges && disc == edges.0 then 4
      else if edges.1 != NoEdges && disc == edges.1 then 5
      else if disc in AdjacentPairs then 3
      else if disc == Pair(T, B) then 4
      else if disc == Pair(L, R) then 5
      else 3
  }

  /** The case table written on the four flags: by the number of
      discontinuous edges, and for two of them by their shape and by which
      way the panel is longer. */
  function CaseTable(lx: real, ly: real, cl: bool, cr: bool, ct: bool, cb: bool): (c: int)
  {
    var n := NDisc(cl, cr, ct, cb);
    var wide := Abs(lx - ly) >= Eps && lx > ly;  // longer along X than along Y
    if n == 0 then 1
    else if n == 1 then 2
    else if n == 3 then 6
    else if n == 4 then 7
    else if cl && cr then (if wide then 5 else 4)   // T and B discontinuous
    else if ct && cb then (if wide then 4 else 5)   // L and R discontinuous
    else 3                                          // two edges at a corner
  }

  /** The case choice agrees with the table. */
  lemma PickMatchesTable(lx: real, ly: real, cl: bool, cr: bool, ct: bool, cb: bool)
    ensures PickTwoWayCaseExact(lx, ly, cl, cr, ct, cb) == CaseTable(lx, ly, cl, cr, ct, cb)
  {
  }

  /** With no, one, three or four discontinuous edges the case is 1, 2, 6
      or 7, and with two it is 3, 4 or 5. */
  lemma CaseByCount(lx: real, ly: real, cl: bool, cr: bool, ct: bool, cb: bool)
    ensures var n, c := DiscSet(cl, cr, ct, cb).Card(), PickTwoWayCaseExact(lx, ly, cl, cr, ct, cb);
            && (n == 0 <==> c == 1)
            && (n == 1 <==> c == 2)
            && (n == 3 <==> c == 6)
            && (n == 4 <==> c == 7)
            && (n == 2 <==> 3 <= c <= 5)
  {
  }

  /** Two discontinuous edges: a corner pair gives 3; the opposite pair T/B
      gives 4 unless the panel is longer along X than along Y beyond the
      tolerance, when it gives 5; L/R the other way round. */
  lemma CaseTwoEdges(lx: real, ly: real, cl: bool, cr: bool, ct: bool, cb: bool)
    requires DiscSet(cl, cr, ct, cb).Card() == 2
    ensures var disc, c := DiscSet(cl, cr, ct, cb), PickTwoWayCaseExact(lx, ly, cl, cr, ct, cb);
            && (disc in AdjacentPairs ==> c == 3)
            && (disc == Pair(T, B) && lx < ly ==> c == 4)
            && (disc == Pair(T, B) && Abs(lx - ly) < Eps ==> c == 4)
            && (disc == Pair(T, B) && lx > ly && Abs(lx - ly) >= Eps ==> c == 5)
            && (disc == Pair(L, R) && lx < ly && Abs(lx - ly) >= Eps ==> c == 5)
            && (disc == Pair(L, R) && Abs(lx - ly) < Eps ==> c == 5)
            && (disc == Pair(L, R) && lx > ly && Abs(lx - ly) >= Eps ==> c == 4)
  {
  }

  /** Away from the square case the choice does not depend on how the panel
      is oriented: transposing it (X with Y, L with T, R with B) gives the
      same case. */
  lemma CaseTransposed(lx: real, ly: real, cl: bool, cr: bool, ct: bool, cb: bool)
    requires Abs(lx - ly) >= Eps
    ensures PickTwoWayCaseExact(ly, lx, ct, cb, cl, cr) == PickTwoWayCaseExact(lx, ly, cl, cr, ct, cb)
  {
    PickMatchesTable(lx, ly, cl, cr, ct, cb);
    PickMatchesTable(ly, lx, ct, cb, cl, cr);
  }

  /** In the square case the choice does depend on orientation: the same
      square panel discontinuous on T and B is case 4, turned a quarter it is
      case 5. */
  lemma SquareCaseAsymmetric(lx: real)
    ensures PickTwoWayCaseExact(lx, lx, true, true, false, false) == 4
    ensures PickTwoWayCaseExact(lx, lx, false, false, true, true) == 5
  {
    PickMatchesTable(lx, lx, true, true, false, false);
    PickMatchesTable(lx, lx, false, false, true, true);
  }

  // ---------------------------------------------------------------------
  // Moments
  // ---------------------------------------------------------------------

  /** The solution of one two-way panel: net spans, short span ls, aspect
      ratio m, boundary case, the moments per axis (None where the table has
      no coefficient) and the short direction. */
  datatype TwowayResult = TwowayResult(
    lxNet: real, lyNet: real, ls: real, m: real, boundaryCase: int,
    mxNeg: Option<real>, mxPos: Option<real>, myNeg: Option<real>, myPos: Option<real>,
    shortDir: Axis)

  /** A coefficient moment: alpha * pd * ls^2. */
  function CoefMoment(alpha: real, pd: real, ls: real): real
  {
    alpha * pd * (ls * ls)
  }

  /** The coefficient of a tabulated short-direction entry at aspect ratio
      m. */
  function ShortAlpha(entry: Option<seq<real>>, m: real, mp: seq<real>): (a: Option<real>)
    requires entry.Some? ==> |entry.value| == |mp| >= 1
    ensures a.None? <==> entry.None?
  {
    if entry.None? then None else Some(InterpAlpha(m, mp, entry.value))
  }

  function MomentOf(alpha: Option<real>, pd: real, ls: real): (mo: Option<real>)
    ensures mo.None? <==> alpha.None?
  {
    if alpha.None? then None else Some(CoefMoment(alpha.value, pd, ls))
  }

  /** The moments along the short and the long direction. */
  function ShortNeg(r: TwowayResult): Option<real> { if r.shortDir == X then r.mxNeg else r.myNeg }
  function ShortPos(r: TwowayResult): Option<real> { if r.shortDir == X then r.mxPos else r.myPos }
  function LongNeg(r: TwowayResult): Option<real> { if r.shortDir == X then r.myNeg else r.mxNeg }
  function LongPos(r: TwowayResult): Option<real> { if r.shortDir == X then r.myPos else r.mxPos }

  /** mo is the moment of coefficient alpha: None exactly when there is no
      coefficient, alpha * pd * ls^2 otherwise. */
  predicate MomentFrom(mo: Option<real>, alpha: Option<real>, pd: real, ls: real)
  {
    && (mo.None? <==> alpha.None?)
    && (mo.Some? ==> mo.value == CoefMoment(alpha.value, pd, ls))
  }

  /** The continuity flags of the four edges: fully covered by neighbours. */
  function FullFlags(g: Grid, sid: string): (f: (bool, bool, bool, bool))
    requires sid in g.slabs
  {
    (EdgeCoverage(g, sid, L).full, EdgeCoverage(g, sid, R).full,
     EdgeCoverage(g, sid, T).full, EdgeCoverage(g, sid, B).full)
  }

  function CaseOf(lx: real, ly: real, f: (bool, bool, bool, bool)): (c: int)
    ensures 1 <= c <= 7
  {
    PickTwoWayCaseExact(lx, ly, f.0, f.1, f.2, f.3)
  }

  function AspectRatio(ll: real, ls: real): (m: real)
    ensures ls > 0.0 && ll >= ls ==> m >= 1.0 && m * ls == ll
  {
    if ls > 0.0 then ll / ls else 1.0
  }

  /** The two-way solution of panel sid: the net spans, ls the shorter and m
      the ratio of the longer to it (at least 1), the case from the net spans
      and the full continuity of the edges, the short-direction coefficients
      interpolated at m and the long-direction ones taken as they are, every
      moment alpha * pd * ls^2 (ls^2 in both directions), the short pair on
      the short axis, X exactly when lx <= ly. */
  function ComputeTwowayPerSlab(g: Grid, sid: string, bw: real, t: DesignTables): (r: TwowayResult)
    requires sid in g.slabs && AlphaValid(t)
    ensures (r.lxNet, r.lyNet) == TwowayNetLxLy(g, sid, bw)
    ensures r.ls == Min(r.lxNet, r.lyNet) && r.ls >= 0.05
    ensures r.m >= 1.0 && r.m * r.ls == Max(r.lxNet, r.lyNet)
    ensures r.boundaryCase == CaseOf(r.lxNet, r.lyNet, FullFlags(g, sid)) && r.boundaryCase in t.alpha
    ensures r.shortDir == X <==> r.lxNet <= r.lyNet
    ensures var row, pd := t.alpha[r.boundaryCase], g.slabs[sid].pd;
            && MomentFrom(ShortNeg(r), ShortAlpha(row.shortNeg, r.m, t.mPoints), pd, r.ls)
            && MomentFrom(ShortPos(r), ShortAlpha(row.shortPos, r.m, t.mPoints), pd, r.ls)
            && MomentFrom(LongNeg(r), row.longNeg, pd, r.ls)
            && MomentFrom(LongPos(r), row.longPos, pd, r.ls)
  {
    var net := TwowayNetLxLy(g, sid, bw);
    var ll, ls := Max(net.0, net.1), Min(net.0, net.1);
    var m := AspectRatio(ll, ls);
    var c := CaseOf(net.0, net.1, FullFlags(g, sid));
    Assemble(net.0, net.1, ls, m, c, t.alpha[c], g.slabs[sid].pd, t.mPoints)
  }

  /** The result record of spans lx, ly (ls the shorter, m the ratio) and
      case c: the short-direction coefficients of the row, interpolated at m,
      and its long-direction ones become moments alpha * pd * ls^2, the short
      pair on the short axis, X exactly when lx <= ly. */
  function Assemble(lx: real, ly: real, ls: real, m: real, c: int, row: AlphaRow, pd: real, mp: seq<real>): (r: TwowayResult)
    requires |mp| >= 1 && RowFits(row, |mp|)
    ensures (r.lxNet, r.lyNet, r.ls, r.m, r.boundaryCase) == (lx, ly, ls, m, c)
    ensures r.shortDir == X <==> lx <= ly
    ensures && MomentFrom(ShortNeg(r), ShortAlpha(row.shortNeg, m, mp), pd, ls)
            && MomentFrom(ShortPos(r), ShortAlpha(row.shortPos, m, mp), pd, ls)
            && MomentFrom(LongNeg(r), row.longNeg, pd, ls)
            && MomentFrom(LongPos(r), row.longPos, pd, ls)
  {
    var sn := MomentOf(ShortAlpha(row.shortNeg, m, mp), pd, ls);
    var sp := MomentOf(ShortAlpha(row.shortPos, m, mp), pd, ls);
    var ln := MomentOf(row.longNeg, pd, ls);
    var lp := MomentOf(row.longPos, pd, ls);
    if lx <= ly then TwowayResult(lx, ly, ls, m, c, sn, sp, ln, lp, X)
    else TwowayResult(lx, ly, ls, m, c, ln, lp, sn, sp, Y)
  }

  /** Beyond the last breakpoint (and before the first) a short-direction
      moment uses the end value of its table row. */
  lemma ShortMomentClamped(g: Grid, sid: string, bw: real, t: DesignTables)
    requires sid in g.slabs && AlphaValid(t)
    ensures var r := ComputeTwowayPerSlab(g, sid, bw, t);
            var row, pd, mp := t.alpha[r.boundaryCase], g.slabs[sid].pd, t.mPoints;
            && (row.shortPos.Some? && r.m >= mp[|mp| - 1] ==>
                  ShortPos(r) == Some(CoefMoment(row.shortPos.value[|mp| - 1], pd, r.ls)))
            && (row.shortPos.Some? && r.m <= mp[0] ==>
                  ShortPos(r) == Some(CoefMoment(row.shortPos.value[0], pd, r.ls)))
  {
    var r := ComputeTwowayPerSlab(g, sid, bw, t);
    var mp := t.mPoints;
    assert mp[0] <= mp[|mp| - 1] by {
      if |mp| > 1 {
        assert StrictlyIncreasing(mp);
      }
    }
  }

  // ---------------------------------------------------------------------
  // Reinforcement design
  // ---------------------------------------------------------------------

  /** The spacing cap of bars along X and along Y: the short-direction cap
      on the short axis, the long-direction cap on the other. */
  function SmaxX(r: TwowayResult, h: real): int
  {
    if r.shortDir == X then TwowaySmaxShort(h) else TwowaySmaxLong(h)
  }

  function SmaxY(r: TwowayResult, h: real): int
  {
    if r.shortDir == X then TwowaySmaxLong(h) else TwowaySmaxShort(h)
  }

  /** The spacing cap of the additional support bars, mm. */
  const SupportExtraSmax: int := 330

  /** One main design: the moment, the depth correction and the spacing
      cap. */
  datatype MainCase = MainCase(m: real, dDelta: real, sMax: int)

  /** The four main designs in the order the source performs them: X span,
      Y span (effective depth 10 mm smaller: these bars lie over the X
      bars), X support and Y support. Missing moments count as 0. */
  function TwowayCases(r: TwowayResult, h: real): (cs: seq<MainCase>)
    ensures |cs| == 4
  {
    [MainCase(r.mxPos.GetOr(0.0), 0.0, SmaxX(r, h)),
     MainCase(r.myPos.GetOr(0.0), -10.0, SmaxY(r, h)),
     MainCase(Abs(r.mxNeg.GetOr(0.0)), 0.0, SmaxX(r, h)),
     MainCase(Abs(r.myNeg.GetOr(0.0)), 0.0, SmaxY(r, h))]
  }

  ghost predicate CaseDesignable(t: DesignTables, conc: string, steel: string, h: real, cover: real, mc: MainCase)
    requires ChartValid(t)
  {
    Designable(t, mc.m, conc, steel, h, cover, mc.dDelta, mc.sMax)
  }

  function CaseError(t: DesignTables, conc: string, steel: string, h: real, cover: real, mc: MainCase): Error
    requires ChartValid(t)
  {
    DesignError(RequiredArea(mc.m, conc, steel, h, cover, None, mc.dDelta, t), mc.sMax)
  }

  ghost predicate CaseChoice(t: DesignTables, conc: string, steel: string, h: real, cover: real, mc: MainCase,
                             c: RebarChoice)
    requires ChartValid(t)
  {
    IsMainDesign(t, mc.m, conc, steel, h, cover, mc.dDelta, mc.sMax, c)
  }

  /** The reinforcement of a two-way panel: span bars along X and Y, the
      support bars they are compared with, and the additional support bars
      over the span bars. */
  datatype TwowayDesign = TwowayDesign(
    shortDir: Axis, cover: real,
    xSpan: RebarChoice, ySpan: RebarChoice, xSupport: RebarChoice, ySupport: RebarChoice,
    xSupportExtra: Option<RebarChoice>, ySupportExtra: Option<RebarChoice>)

  /** The additional support requirement: what the support design needs
      beyond the span bars, never negative. */
  function ExtraArea(support: RebarChoice, span: RebarChoice): real
  {
    Max(0.0, support.area - span.area)
  }

  ghost predicate TwowayDesignRules(r: TwowayResult, conc: string, steel: string, h: real, cover: real,
                                    t: DesignTables, d: TwowayDesign)
    requires ChartValid(t)
  {
    var cs := TwowayCases(r, h);
    && d.shortDir == r.shortDir && d.cover == cover
    && CaseChoice(t, conc, steel, h, cover, cs[0], d.xSpan)
    && CaseChoice(t, conc, steel, h, cover, cs[1], d.ySpan)
    && CaseChoice(t, conc, steel, h, cover, cs[2], d.xSupport)
    && CaseChoice(t, conc, steel, h, cover, cs[3], d.ySupport)
    && IsSelection(t, d.xSupportExtra, ExtraArea(d.xSupport, d.xSpan), SupportExtraSmax, PhiMinDefault, PhiMaxDefault)
    && IsSelection(t, d.ySupportExtra, ExtraArea(d.ySupport, d.ySpan), SupportExtraSmax, PhiMinDefault, PhiMaxDefault)
  }

  /** The first k main designs all succeed. */
  ghost predicate DesignableUpTo(t: DesignTables, conc: string, steel: string, h: real, cover: real,
                                 cs: seq<MainCase>, k: int)
    requires ChartValid(t) && 0 <= k <= |cs|
  {
    && (k > 0 ==> CaseDesignable(t, conc, steel, h, cover, cs[0]))
    && (k > 1 ==> CaseDesignable(t, conc, steel, h, cover, cs[1]))
    && (k > 2 ==> CaseDesignable(t, conc, steel, h, cover, cs[2]))
    && (k > 3 ==> CaseDesignable(t, conc, steel, h, cover, cs[3]))
  }

  /** The four choices are those of the four main designs. */
  ghost predicate MainChoices(t: DesignTables, conc: string, steel: string, h: real, cover: real,
                              cs: seq<MainCase>, c: (RebarChoice, RebarChoice, RebarChoice, RebarChoice))
    requires ChartValid(t) && |cs| == 4
  {
    && CaseChoice(t, conc, steel, h, cover, cs[0], c.0)
    && CaseChoice(t, conc, steel, h, cover, cs[1], c.1)
    && CaseChoice(t, conc, steel, h, cover, cs[2], c.2)
    && CaseChoice(t, conc, steel, h, cover, cs[3], c.3)
  }

  /** One main design, as the system's design step performs it. */
  method DesignCase(t: DesignTables, conc: string, steel: string, h: real, cover: real, mc: MainCase)
    returns (r: Result<RebarChoice>)
    requires ChartValid(t) && CatalogueValid(t)
    ensures r.Ok? <==> CaseDesignable(t, conc, steel, h, cover, mc)
    ensures r.Err? ==> r.error == CaseError(t, conc, steel, h, cover, mc)
    ensures r.Ok? ==> CaseChoice(t, conc, steel, h, cover, mc, r.value)
  {
    var res := DesignMainRebarFromM(mc.m, conc, steel, h, cover, mc.sMax, None, mc.dDelta, t);
    if res.Err? {
      return Err(res.error);
    }
    r := Ok(res.value.1);
  }

  /** The four main designs in order, failing with the first failure. */
  method DesignMains(t: DesignTables, conc: string, steel: string, h: real, cover: real, cs: seq<MainCase>)
    returns (r: Result<(RebarChoice, RebarChoice, RebarChoice, RebarChoice)>)
    requires ChartValid(t) && CatalogueValid(t) && |cs| == 4
    ensures r.Ok? <==> DesignableUpTo(t, conc, steel, h, cover, cs, 4)
    ensures !CaseDesignable(t, conc, steel, h, cover, cs[0]) ==> r == Err(CaseError(t, conc, steel, h, cover, cs[0]))
    ensures (DesignableUpTo(t, conc, steel, h, cover, cs, 1) && !CaseDesignable(t, conc, steel, h, cover, cs[1]))
              ==> r == Err(CaseError(t, conc, steel, h, cover, cs[1]))
    ensures (DesignableUpTo(t, conc, steel, h, cover, cs, 2) && !CaseDesignable(t, conc, steel, h, cover, cs[2]))
              ==> r == Err(CaseError(t, conc, steel, h, cover, cs[2]))
    ensures (DesignableUpTo(t, conc, steel, h, cover, cs, 3) && !CaseDesignable(t, conc, steel, h, cover, cs[3]))
              ==> r == Err(CaseError(t, conc, steel, h, cover, cs[3]))
    ensures r.Ok? ==> MainChoices(t, conc, steel, h, cover, cs, r.value)
  {
    var x := DesignCase(t, conc, steel, h, cover, cs[0]);
    if x.Err? {
      return Err(x.error);
    }
    var y := DesignCase(t, conc, steel, h, cover, cs[1]);
    if y.Err? {
      return Err(y.error);
    }
    var xn := DesignCase(t, conc, steel, h, cover, cs[2]);
    if xn.Err? {
      return Err(xn.error);
    }
    var yn := DesignCase(t, conc, steel, h, cover, cs[3]);
    if yn.Err? {
      return Err(yn.error);
    }
    r := Ok((x.value, y.value, xn.value, yn.value));
  }

  /** The two-way design: the four main designs in order, failing with the
      first failure; then the additional support bars along each axis for
      what the support bars need beyond the span bars. */
  method TwowayReport(res: TwowayResult, conc: string, steel: string, h: real, cover: real, t: DesignTables)
    returns (r: Result<TwowayDesign>)
    requires ChartValid(t) && CatalogueValid(t)
    ensures var cs := TwowayCases(res, h);
            && (r.Ok? <==> DesignableUpTo(t, conc, steel, h, cover, cs, 4))
            && (forall k :: 0 <= k < 4 && DesignableUpTo(t, conc, steel, h, cover, cs, k)
                  && !CaseDesignable(t, conc, steel, h, cover, cs[k])
                  ==> r == Err(CaseError(t, conc, steel, h, cover, cs[k])))
    ensures r.Ok? ==> TwowayDesignRules(res, conc, steel, h, cover, t, r.value)
  {
    var mains := DesignMains(t, conc, steel, h, cover, TwowayCases(res, h));
    if mains.Err? {
      return Err(mains.error);
    }
    var (x, y, xn, yn) := mains.value;
    var xExtra := SelectRebarMinArea(t, ExtraArea(xn, x), SupportExtraSmax, PhiMinDefault, PhiMaxDefault);
    var yExtra := SelectRebarMinArea(t, ExtraArea(yn, y), SupportExtraSmax, PhiMinDefault, PhiMaxDefault);
    r := Ok(TwowayDesign(res.shortDir, cover, x, y, xn, yn, xExtra, yExtra));
  }

  /** The additional support bars are always found: the support bars
      themselves, at a spacing within the main caps (at most 250 mm), are a
      candidate of the extra search, and they meet what the support needs
      beyond the span bars. */
  lemma SupportExtraAlwaysFound(r: TwowayResult, conc: string, steel: string, h: real, cover: real,
                                t: DesignTables, d: TwowayDesign)
    requires ChartValid(t) && CatalogueValid(t)
    requires TwowayDesignRules(r, conc, steel, h, cover, t, d)
    ensures d.xSupportExtra.Some? && d.ySupportExtra.Some?
  {
    var cs := TwowayCases(r, h);
    var qx := RequiredArea(cs[2].m, conc, steel, h, cover, None, cs[2].dDelta, t).value;
    var qy := RequiredArea(cs[3].m, conc, steel, h, cover, None, cs[3].dDelta, t).value;
    ExtraCandidate(t, cs[2].sMax, qx, d.xSupport, d.xSpan);
    ExtraCandidate(t, cs[3].sMax, qy, d.ySupport, d.ySpan);
  }

  /** Support bars within a cap of at most 250 mm are a candidate of the
      extra search for any span bars of non-negative area. */
  lemma ExtraCandidate(t: DesignTables, sMax: int, q: real, support: RebarChoice, span: RebarChoice)
    requires sMax <= 250
    requires Fits(t, support, q, sMax, PhiMinDefault, PhiMaxDefault)
    requires span.area >= 0.0
    ensures SomeCandidate(t, ExtraArea(support, span), SupportExtraSmax, PhiMinDefault, PhiMaxDefault)
  {
    assert Admissible(t, support.phi, support.s, SupportExtraSmax, PhiMinDefault, PhiMaxDefault);
    assert Meets(support.phi, support.s, ExtraArea(support, span));
  }
}
