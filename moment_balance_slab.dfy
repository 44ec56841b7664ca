/** Balancing of support moments between neighbouring panels (TS 500): for
    every shared edge of a two-way panel with a two-way or one-way
    neighbour, when the smaller support moment is below 0.8 of the larger,
    2/3 of the difference is redistributed by the stiffness factors of the
    two spans, and the larger adjusted moment becomes the design moment of
    both sides. */
module MomentBalanceSlab {
  import opened Common
  import opened SlabModel
  import opened OnewaySlab
  import opened TwowaySlab

  // ---------------------------------------------------------------------
  // Edges and neighbours
  // ---------------------------------------------------------------------

  /** The edge facing e across a shared side: L and R, T and B swap. */
  function OppositeEdge(e: Edge): (r: Edge)
    ensures EdgeAxis(r) == EdgeAxis(e) && EdgeSide(r) != EdgeSide(e)
  {
    match e
    case L => R
    case R => L
    case T => B
    case B => T
  }

  lemma OppositeInvolution(e: Edge)
    ensures OppositeEdge(OppositeEdge(e)) == e && OppositeEdge(e) != e
  {
  }

  /** The cell c lies outside panel sid and is owned by another known panel. */
  predicate KnownNeighbourCell(g: Grid, sid: string, c: Cell)
  {
    IsNeighbourCell(g, sid, c) && Owner(g, c) in g.slabs
  }

  /** The owner of the first cell, from position k of the side on, that is
      owned by another known panel. */
  function FirstNeighbourFrom(g: Grid, sid: string, s: Slab, a: Axis, side: Side, k: int): (r: Option<string>)
    ensures r.Some? ==> r.value in g.slabs && r.value != sid
    decreases ExtentHi(s, a) + 1 - k
  {
    if k > ExtentHi(s, a) then None
    else
      var c := OutsideCell(s, a, side, k);
      if KnownNeighbourCell(g, sid, c) then Some(Owner(g, c))
      else FirstNeighbourFrom(g, sid, s, a, side, k + 1)
  }

  /** FirstNeighbourFrom finds a panel exactly when some cell from position k
      on qualifies, and then it is the owner of the first such cell. */
  lemma {:induction false} FirstNeighbourFromSpec(g: Grid, sid: string, s: Slab, a: Axis, side: Side, k: int)
    ensures FirstNeighbourFrom(g, sid, s, a, side, k).None? <==>
              forall p :: k <= p <= ExtentHi(s, a) ==> !KnownNeighbourCell(g, sid, OutsideCell(s, a, side, p))
    ensures FirstNeighbourFrom(g, sid, s, a, side, k).Some? ==>
              exists p :: k <= p <= ExtentHi(s, a) && KnownNeighbourCell(g, sid, OutsideCell(s, a, side, p))
                          && Owner(g, OutsideCell(s, a, side, p)) == FirstNeighbourFrom(g, sid, s, a, side, k).value
                          && forall q :: k <= q < p ==> !KnownNeighbourCell(g, sid, OutsideCell(s, a, side, q))
    decreases ExtentHi(s, a) + 1 - k
  {
    if k <= ExtentHi(s, a) {
      FirstNeighbourFromSpec(g, sid, s, a, side, k + 1);
      if !KnownNeighbourCell(g, sid, OutsideCell(s, a, side, k)) {
        var r := FirstNeighbourFrom(g, sid, s, a, side, k + 1);
        if r.Some? {
          var p :| k + 1 <= p <= ExtentHi(s, a) && KnownNeighbourCell(g, sid, OutsideCell(s, a, side, p))
                   && Owner(g, OutsideCell(s, a, side, p)) == r.value
                   && forall q :: k + 1 <= q < p ==> !KnownNeighbourCell(g, sid, OutsideCell(s, a, side, q));
          assert forall q :: k <= q < p ==> !KnownNeighbourCell(g, sid, OutsideCell(s, a, side, q));
        }
      }
    }
  }

  /** The neighbour across edge e and its kind: none on the grid boundary,
      otherwise the first known panel found along the edge. */
  function NeighbourOnEdge(g: Grid, sid: string, e: Edge): (r: Option<(string, Kind)>)
    requires sid in g.slabs
    ensures AtBoundary(g, g.slabs[sid], EdgeAxis(e), EdgeSide(e)) ==> r.None?
    ensures r.Some? ==> r.value.0 in g.slabs && r.value.0 != sid && r.value.1 == g.slabs[r.value.0].kind
  {
    var s, a := g.slabs[sid], EdgeAxis(e);
    if AtBoundary(g, s, a, EdgeSide(e)) then None
    else
      match FirstNeighbourFrom(g, sid, s, a, EdgeSide(e), ExtentLo(s, a))
      case None => None
      case Some(n) => Some((n, g.slabs[n].kind))
  }

  /** The neighbour found across an edge is one of the panels across that
      side, and none is found exactly when no panel across the side is
      known. */
  lemma {:induction false} NeighbourOnEdgeMembers(g: Grid, sid: string, e: Edge)
    requires sid in g.slabs
    ensures var r := NeighbourOnEdge(g, sid, e);
            && (r.Some? ==> r.value.0 in NeighborsOnSide(g, sid, EdgeAxis(e), EdgeSide(e)))
            && (r.None? <==> forall n :: n in NeighborsOnSide(g, sid, EdgeAxis(e), EdgeSide(e)) ==> n !in g.slabs)
  {
    var s, a, side := g.slabs[sid], EdgeAxis(e), EdgeSide(e);
    var r := NeighbourOnEdge(g, sid, e);
    if !AtBoundary(g, s, a, side) {
      FirstNeighbourFromSpec(g, sid, s, a, side, ExtentLo(s, a));
      if r.Some? {
        NeighborsOnSideMembers(g, sid, a, side, r.value.0);
      } else {
        forall n | n in NeighborsOnSide(g, sid, a, side)
          ensures n !in g.slabs
        {
          NeighborsOnSideMembers(g, sid, a, side, n);
        }
      }
      if r.Some? {
        var n := r.value.0;
        NeighborsOnSideMembers(g, sid, a, side, n);
        assert n in NeighborsOnSide(g, sid, a, side) && n in g.slabs;
      }
    }
  }

  /** The neighbour scan of one edge, returning at the first known panel. */
  method GetNeighborOnEdge(g: Grid, sid: string, e: Edge) returns (r: Option<(string, Kind)>)
    requires sid in g.slabs
    ensures r == NeighbourOnEdge(g, sid, e)
  {
    var s, a, side := g.slabs[sid], EdgeAxis(e), EdgeSide(e);
    if AtBoundary(g, s, a, side) {
      return None;
    }
    var k := ExtentLo(s, a);
    while k <= ExtentHi(s, a)
      invariant ExtentLo(s, a) <= k <= MaxInt(ExtentLo(s, a), ExtentHi(s, a) + 1)
      invariant FirstNeighbourFrom(g, sid, s, a, side, k) == FirstNeighbourFrom(g, sid, s, a, side, ExtentLo(s, a))
      decreases ExtentHi(s, a) - k
    {
      var c := OutsideCell(s, a, side, k);
      var nb := if c in g.owner then g.owner[c] else "";
      if nb != "" && nb != sid && nb in g.slabs {
        return Some((nb, g.slabs[nb].kind));
      }
      k := k + 1;
    }
    return None;
  }

  // ---------------------------------------------------------------------
  // Moments of the input entries
  // ---------------------------------------------------------------------

  /** The analysis result held for a panel: none, a two-way result, or a
      one-way result. */
  datatype RawEntry = NoResult | TwowayEntry(tw: TwowayResult) | OnewayEntry(ow: OnewayResult)

  /** The support moment of an entry on the axis of edge e: Mx on L and R, My
      on T and B; an entry without two-way moments has none. */
  function EntryMoment(en: RawEntry, e: Edge): (r: Option<real>)
    ensures r.Some? ==> en.TwowayEntry?
    ensures en.TwowayEntry? ==> r == (if EdgeAxis(e) == X then en.tw.mxNeg else en.tw.myNeg)
  {
    if !en.TwowayEntry? then None
    else if e == L || e == R then en.tw.mxNeg
    else en.tw.myNeg
  }

  /** The net span of an entry on the axis of edge e; 1 m by default. */
  function EntrySpan(en: RawEntry, e: Edge): (r: real)
    ensures !en.TwowayEntry? ==> r == 1.0
  {
    if !en.TwowayEntry? then 1.0
    else if e == L || e == R then en.tw.lxNet
    else en.tw.lyNet
  }

  /** Both sides of a shared edge read the moment of the same axis. */
  lemma EntryMomentOpposite(en: RawEntry, e: Edge)
    ensures EntryMoment(en, OppositeEdge(e)) == EntryMoment(en, e)
    ensures EntrySpan(en, OppositeEdge(e)) == EntrySpan(en, e)
  {
  }

  /** The panel ids of the entries, in order. */
  predicate DistinctIds(raw: seq<(string, RawEntry)>)
  {
    forall i, j :: 0 <= i < j < |raw| ==> raw[i].0 != raw[j].0
  }

  /** The entry of panel id, if any. */
  function Lookup(raw: seq<(string, RawEntry)>, id: string): (r: Option<RawEntry>)
    ensures r.None? <==> forall i :: 0 <= i < |raw| ==> raw[i].0 != id
  {
    if |raw| == 0 then None
    else if raw[0].0 == id then Some(raw[0].1)
    else Lookup(raw[1..], id)
  }

  lemma {:induction false} LookupAt(raw: seq<(string, RawEntry)>, i: int)
    requires DistinctIds(raw) && 0 <= i < |raw|
    ensures Lookup(raw, raw[i].0) == Some(raw[i].1)
  {
    if i > 0 {
      assert raw[0].0 != raw[i].0;
      assert DistinctIds(raw[1..]) && raw[1..][i - 1] == raw[i];
      LookupAt(raw[1..], i - 1);
    }
  }

  /** |m| for a present value. */
  function AbsOf(m: Option<real>): (r: Option<real>)
    ensures r.Some? <==> m.Some?
    ensures r.Some? ==> r.value >= 0.0 && (r.value == m.value || r.value == -m.value)
  {
    if m.Some? then Some(Abs(m.value)) else None
  }

  /** The support moment of one-way panel nid, in magnitude; none when the
      panel is unknown or its strip has no support moment. */
  method GetOnewaySupportMoment(g: Grid, nid: string, bw: real) returns (m: Option<real>)
    requires BoxesOrdered(g)
    ensures nid !in g.slabs ==> m.None?
    ensures nid in g.slabs ==> exists res :: OnewayPerSlabRule(g, nid, bw, res) && m == AbsOf(res.mnegMin)
  {
    if nid !in g.slabs {
      return None;
    }
    var res := ComputeOnewayPerSlab(g, nid, bw);
    assert OnewayPerSlabRule(g, nid, bw, res);
    m := if res.mnegMin.Some? then Some(Abs(res.mnegMin.value)) else None;
  }

  // ---------------------------------------------------------------------
  // Stiffness and redistribution
  // ---------------------------------------------------------------------

  /** The distribution factors of two strips of equal section K = 1/L:
      (0.5, 0.5) when a span is not positive or the stiffnesses are
      negligible. */
  function StiffnessRatio(l1: real, l2: real): (r: (real, real))
    ensures r.0 + r.1 == 1.0
    ensures 0.0 < r.0 < 1.0 && 0.0 < r.1 < 1.0
    ensures l1 <= 0.0 || l2 <= 0.0 ==> r == (0.5, 0.5)
    ensures l1 > 0.0 && l2 > 0.0 && 1.0 / l1 + 1.0 / l2 >= Eps ==>
              r == (l2 / (l1 + l2), l1 / (l1 + l2))
  {
    if l1 <= 0.0 || l2 <= 0.0 then (0.5, 0.5)
    else
      var k1, k2 := 1.0 / l1, 1.0 / l2;
      var total := k1 + k2;
      if total < Eps then (0.5, 0.5)
      else
        FactorsFromSpans(l1, l2);
        (k1 / total, k2 / total)
  }

  lemma FactorsFromSpans(l1: real, l2: real)
    requires l1 > 0.0 && l2 > 0.0
    ensures (1.0 / l1) / (1.0 / l1 + 1.0 / l2) == l2 / (l1 + l2)
    ensures (1.0 / l2) / (1.0 / l1 + 1.0 / l2) == l1 / (l1 + l2)
    ensures 0.0 < l2 / (l1 + l2) < 1.0 && 0.0 < l1 / (l1 + l2) < 1.0
    ensures l2 / (l1 + l2) + l1 / (l1 + l2) == 1.0
  {
    var t := 1.0 / l1 + 1.0 / l2;
    assert t * (l1 * l2) == l1 + l2;
  }

  /** The shorter span, being stiffer, takes the larger factor. */
  lemma ShorterSpanStiffer(l1: real, l2: real)
    requires 0.0 < l1 < l2 && 1.0 / l1 + 1.0 / l2 >= Eps
    ensures StiffnessRatio(l1, l2).0 > StiffnessRatio(l1, l2).1
  {
    assert l2 / (l1 + l2) > l1 / (l1 + l2);
  }

  /** The amount redistributed: 2/3 of the difference. */
  function Distributed(delta: real): real
  {
    (2.0 / 3.0) * delta
  }

  function Scaled(d: real, df: real): (r: real)
    ensures 0.0 <= d && 0.0 <= df <= 1.0 ==> 0.0 <= r <= d
  {
    d * df
  }

  /** The adjusted moments: the larger side loses and the smaller gains its
      share of 2/3 of the difference. */
  function Redistribute(m1: real, m2: real, l1: real, l2: real): (r: (real, real))
    ensures Abs(r.0 - r.1) == (Max(m1, m2) - Min(m1, m2)) / 3.0
    ensures m1 > m2 ==> r.0 >= r.1
    ensures m1 < m2 ==> r.1 >= r.0
    ensures Min(m1, m2) <= r.0 <= Max(m1, m2) && Min(m1, m2) <= r.1 <= Max(m1, m2)
  {
    var df := StiffnessRatio(l1, l2);
    var d := Distributed(Max(m1, m2) - Min(m1, m2));
    SharesAddUp(d, df.0, df.1);
    if m1 > m2 then (m1 - Scaled(d, df.0), m2 + Scaled(d, df.1))
    else (m1 + Scaled(d, df.0), m2 - Scaled(d, df.1))
  }

  lemma SharesAddUp(d: real, a: real, b: real)
    requires a + b == 1.0
    ensures Scaled(d, a) + Scaled(d, b) == d
  {
  }

  /** The design moment of a shared edge: the larger moment when the two
      are within the 0.8 ratio, otherwise the larger adjusted moment, which
      lies at least a third of the difference above the smaller one. */
  function DesignMoment(m1: real, m2: real, l1: real, l2: real): (md: real)
    ensures Min(m1, m2) <= md <= Max(m1, m2)
    ensures Min(m1, m2) >= 0.8 * Max(m1, m2) ==> md == Max(m1, m2)
    ensures Min(m1, m2) < 0.8 * Max(m1, m2) ==>
              md == Max(Redistribute(m1, m2, l1, l2).0, Redistribute(m1, m2, l1, l2).1)
              && md >= Min(m1, m2) + (Max(m1, m2) - Min(m1, m2)) / 3.0
  {
    var mmax, mmin := Max(m1, m2), Min(m1, m2);
    if mmin < 0.8 * mmax then
      var r := Redistribute(m1, m2, l1, l2);
      Max(r.0, r.1)
    else mmax
  }

  // ---------------------------------------------------------------------
  // Balancing the shared edges
  // ---------------------------------------------------------------------

  type PairKey = (string, string, Edge)

  /** The key of the shared edge between sid and nb seen from sid across e:
      the two ids in order, with the edge as the smaller id sees it. */
  function PairKeyOf(sid: string, nb: string, e: Edge): PairKey
  {
    if LexLess(sid, nb) then (sid, nb, e) else (nb, sid, OppositeEdge(e))
  }

  /** Both panels of a shared edge compute the same key. */
  lemma {:induction false} PairKeySymmetric(sid: string, nb: string, e: Edge)
    requires sid != nb
    ensures PairKeyOf(sid, nb, e) == PairKeyOf(nb, sid, OppositeEdge(e))
  {
    LexLessTotal(sid, nb);
  }

  /** One balanced edge: panel sid, its edge e, the neighbour nb, the two
      moments and spans, and the design moment. */
  datatype Balanced = Balanced(sid: string, e: Edge, nb: string, m1: real, m2: real,
                               l1: real, l2: real, design: real)

  function KeyOf(p: Balanced): PairKey
  {
    PairKeyOf(p.sid, p.nb, p.e)
  }

  /** Panel sid drives the balancing of edge e: a two-way panel with a
      result, and a two-way or one-way neighbour across e. */
  predicate DrivesEdge(g: Grid, raw: seq<(string, RawEntry)>, sid: string, e: Edge)
  {
    && sid in g.slabs && g.slabs[sid].kind == Twoway
    && Lookup(raw, sid).Some? && Lookup(raw, sid).value != NoResult
    && NeighbourOnEdge(g, sid, e).Some?
    && NeighbourOnEdge(g, sid, e).value.1 in {Twoway, Oneway}
  }

  /** The neighbour of a two-way panel has a two-way moment facing edge e. */
  predicate TwowayMomentFacing(raw: seq<(string, RawEntry)>, nb: string, e: Edge)
  {
    Lookup(raw, nb).Some? && Lookup(raw, nb).value != NoResult
    && EntryMoment(Lookup(raw, nb).value, OppositeEdge(e)).Some?
  }

  /** m2 and l2 are the moment and span that neighbour nb contributes to
      the edge it shares with a panel across e: a two-way neighbour's own
      entry on the same axis, or a one-way neighbour's strip support moment
      and its shorter gross side. */
  ghost predicate NeighbourSideRule(g: Grid, raw: seq<(string, RawEntry)>, bw: real, nb: string, e: Edge,
                                    m2: real, l2: real)
    requires nb in g.slabs
  {
    && (g.slabs[nb].kind == Twoway ==>
          && TwowayMomentFacing(raw, nb, e)
          && m2 == Abs(EntryMoment(Lookup(raw, nb).value, OppositeEdge(e)).value)
          && l2 == EntrySpan(Lookup(raw, nb).value, e))
    && (g.slabs[nb].kind == Oneway ==>
          && (exists res :: OnewayPerSlabRule(g, nb, bw, res) && AbsOf(res.mnegMin) == Some(m2))
          && l2 == Min(g.slabs[nb].SizeMGross().0, g.slabs[nb].SizeMGross().1))
  }

  /** p was computed as the source computes a balanced edge. */
  ghost predicate BalancedRule(g: Grid, raw: seq<(string, RawEntry)>, bw: real, p: Balanced)
  {
    && DrivesEdge(g, raw, p.sid, p.e)
    && NeighbourOnEdge(g, p.sid, p.e).value.0 == p.nb
    && var en := Lookup(raw, p.sid).value;
       && EntryMoment(en, p.e).Some? && p.m1 == Abs(EntryMoment(en, p.e).value)
       && p.l1 == EntrySpan(en, p.e)
       && NeighbourSideRule(g, raw, bw, p.nb, p.e, p.m2, p.l2)
       && p.design == DesignMoment(p.m1, p.m2, p.l1, p.l2)
  }

  /** The design moments by (panel, edge) after the writes of trace, in
      order: each balanced edge writes both of its sides. */
  function EdgeTable(trace: seq<Balanced>): map<(string, Edge), real>
  {
    if |trace| == 0 then map[]
    else
      var p := trace[|trace| - 1];
      EdgeTable(trace[..|trace| - 1])[(p.sid, p.e) := p.design][(p.nb, OppositeEdge(p.e)) := p.design]
  }

  /** Every recorded edge was computed by the rule. */
  ghost predicate AllRules(g: Grid, raw: seq<(string, RawEntry)>, bw: real, trace: seq<Balanced>)
    decreases |trace|
  {
    |trace| == 0 || (AllRules(g, raw, bw, trace[..|trace| - 1]) && BalancedRule(g, raw, bw, trace[|trace| - 1]))
  }

  /** The keys of the recorded edges. */
  function KeySet(trace: seq<Balanced>): set<PairKey>
  {
    if |trace| == 0 then {} else KeySet(trace[..|trace| - 1]) + {KeyOf(trace[|trace| - 1])}
  }

  /** No key is recorded twice. */
  predicate KeysDistinct(trace: seq<Balanced>)
  {
    |trace| == 0 || (KeysDistinct(trace[..|trace| - 1]) && KeyOf(trace[|trace| - 1]) !in KeySet(trace[..|trace| - 1]))
  }

  lemma {:induction false} RuleAt(g: Grid, raw: seq<(string, RawEntry)>, bw: real, trace: seq<Balanced>, j: int)
    requires AllRules(g, raw, bw, trace) && 0 <= j < |trace|
    ensures BalancedRule(g, raw, bw, trace[j])
    decreases |trace|
  {
    if j < |trace| - 1 {
      RuleAt(g, raw, bw, trace[..|trace| - 1], j);
    }
  }

  lemma {:induction false} KeyInSet(trace: seq<Balanced>, j: int)
    requires 0 <= j < |trace|
    ensures KeyOf(trace[j]) in KeySet(trace)
    decreases |trace|
  {
    if j < |trace| - 1 {
      KeyInSet(trace[..|trace| - 1], j);
    }
  }

  /** Two recorded edges never share a key. */
  lemma {:induction false} KeysDistinctAt(trace: seq<Balanced>, j: int, j': int)
    requires KeysDistinct(trace) && 0 <= j < j' < |trace|
    ensures KeyOf(trace[j]) != KeyOf(trace[j'])
    decreases |trace|
  {
    var pre := trace[..|trace| - 1];
    if j' == |trace| - 1 {
      KeyInSet(pre, j);
    } else {
      KeysDistinctAt(pre, j, j');
    }
  }

  /** Each write of the table is a design moment, so none is negative. */
  lemma {:induction false} EdgeTableNonNegative(g: Grid, raw: seq<(string, RawEntry)>, bw: real, trace: seq<Balanced>)
    requires AllRules(g, raw, bw, trace)
    ensures forall k :: k in EdgeTable(trace) ==> EdgeTable(trace)[k] >= 0.0
    decreases |trace|
  {
    if |trace| > 0 {
      var p := trace[|trace| - 1];
      EdgeTableNonNegative(g, raw, bw, trace[..|trace| - 1]);
      assert p.m1 >= 0.0 && p.m2 >= 0.0;
    }
  }

  /** The state of the edge loop: every recorded edge follows the rule and
      its key is processed, no key is recorded twice, and the table holds
      the recorded writes. */
  ghost predicate PhaseInv(g: Grid, raw: seq<(string, RawEntry)>, bw: real, processed: set<PairKey>,
                           eb: map<(string, Edge), real>, trace: seq<Balanced>)
  {
    && AllRules(g, raw, bw, trace)
    && KeysDistinct(trace)
    && KeySet(trace) <= processed
    && eb == EdgeTable(trace)
  }

  /** The key of the edge e that sid drives. */
  function StepKey(g: Grid, raw: seq<(string, RawEntry)>, sid: string, e: Edge): PairKey
    requires DrivesEdge(g, raw, sid, e)
  {
    PairKeyOf(sid, NeighbourOnEdge(g, sid, e).value.0, e)
  }

  /** The key edge e of sid marks processed: its key when sid drives it. */
  function EdgeKeys(g: Grid, raw: seq<(string, RawEntry)>, sid: string, e: Edge): set<PairKey>
  {
    if DrivesEdge(g, raw, sid, e) then {StepKey(g, raw, sid, e)} else {}
  }

  /** The keys the first k edges (in the order L, R, T, B) of sid mark. */
  function PanelKeysUpTo(g: Grid, raw: seq<(string, RawEntry)>, sid: string, k: nat): set<PairKey>
    requires k <= 4
  {
    if k == 0 then {} else PanelKeysUpTo(g, raw, sid, k - 1) + EdgeKeys(g, raw, sid, EdgeOrder[k - 1])
  }

  /** The keys the first i entries mark. */
  function EntryKeysUpTo(g: Grid, raw: seq<(string, RawEntry)>, i: nat): set<PairKey>
    requires i <= |raw|
  {
    if i == 0 then {} else EntryKeysUpTo(g, raw, i - 1) + PanelKeysUpTo(g, raw, raw[i - 1].0, 4)
  }

  /** Every edge some entry drives has its key among the keys marked. */
  lemma {:induction false} DrivenEdgeMarked(g: Grid, raw: seq<(string, RawEntry)>, i: int, e: Edge, n: nat)
    requires 0 <= i < n <= |raw| && DrivesEdge(g, raw, raw[i].0, e)
    ensures StepKey(g, raw, raw[i].0, e) in EntryKeysUpTo(g, raw, n)
    decreases n
  {
    if n == i + 1 {
      var sid := raw[i].0;
      assert e == EdgeOrder[EdgeIndex(e)];
      assert StepKey(g, raw, sid, e) in PanelKeysUpTo(g, raw, sid, EdgeIndex(e) + 1);
      PanelKeysGrow(g, raw, sid, EdgeIndex(e) + 1, 4);
    } else {
      DrivenEdgeMarked(g, raw, i, e, n - 1);
    }
  }

  lemma {:induction false} PanelKeysGrow(g: Grid, raw: seq<(string, RawEntry)>, sid: string, k: nat, k2: nat)
    requires k <= k2 <= 4
    ensures PanelKeysUpTo(g, raw, sid, k) <= PanelKeysUpTo(g, raw, sid, k2)
    decreases k2
  {
    if k < k2 {
      PanelKeysGrow(g, raw, sid, k, k2 - 1);
    }
  }

  /** An entry that is not a two-way panel with a result adds no key to
      the keys the entries before it mark. */
  lemma {:induction false} EntryKeysIdle(g: Grid, raw: seq<(string, RawEntry)>, i: nat)
    requires i < |raw|
    requires !(raw[i].0 in g.slabs && g.slabs[raw[i].0].kind == Twoway && Lookup(raw, raw[i].0).Some?
               && Lookup(raw, raw[i].0).value != NoResult)
    ensures EntryKeysUpTo(g, raw, i + 1) == EntryKeysUpTo(g, raw, i)
  {
    NoKeysWithoutDriver(g, raw, raw[i].0);
    assert EntryKeysUpTo(g, raw, i + 1) == EntryKeysUpTo(g, raw, i) + {};
  }

  /** An entry that is not a two-way panel with a result marks no key. */
  lemma {:induction false} NoKeysWithoutDriver(g: Grid, raw: seq<(string, RawEntry)>, sid: string)
    requires !(sid in g.slabs && g.slabs[sid].kind == Twoway && Lookup(raw, sid).Some? && Lookup(raw, sid).value != NoResult)
    ensures PanelKeysUpTo(g, raw, sid, 4) == {}
  {
    assert PanelKeysUpTo(g, raw, sid, 1) == {};
    assert PanelKeysUpTo(g, raw, sid, 2) == {};
    assert PanelKeysUpTo(g, raw, sid, 3) == {};
  }

  // ---------------------------------------------------------------------
  // The order of the pass: entries in order, edges L, R, T, B
  // ---------------------------------------------------------------------

  /** Edge e of sid may be recorded when it is processed with the keys in
      before already marked: sid drives it, its key is new, and sid has a
      moment on it. */
  predicate Recordable(g: Grid, raw: seq<(string, RawEntry)>, sid: string, e: Edge, before: set<PairKey>)
  {
    && DrivesEdge(g, raw, sid, e)
    && StepKey(g, raw, sid, e) !in before
    && EntryMoment(Lookup(raw, sid).value, e).Some?
  }

  /** Edge e of sid must be recorded: it is recordable and the neighbour
      has a moment on the shared edge (for a one-way neighbour: whatever
      strip analysis is chosen). */
  ghost predicate Wanted(g: Grid, raw: seq<(string, RawEntry)>, bw: real, sid: string, e: Edge, before: set<PairKey>)
  {
    && Recordable(g, raw, sid, e, before)
    && var nb := NeighbourOnEdge(g, sid, e).value;
       && (nb.1 == Twoway ==> TwowayMomentFacing(raw, nb.0, e))
       && (nb.1 == Oneway ==> forall res :: OnewayPerSlabRule(g, nb.0, bw, res) ==> res.mnegMin.Some?)
  }

  /** The keys marked when edge EdgeOrder[k] of entry i comes up. */
  function KeysBefore(g: Grid, raw: seq<(string, RawEntry)>, i: nat, k: nat): set<PairKey>
    requires i < |raw| && k <= 4
  {
    EntryKeysUpTo(g, raw, i) + PanelKeysUpTo(g, raw, raw[i].0, k)
  }

  /** One edge as the pass comes to it: the panel and the edge, whether it
      may be recorded then, and whether it must be. */
  datatype Slot = Slot(sid: string, e: Edge, rec: bool, want: bool)

  /** Balanced edge p is of the panel and edge of slot s. */
  predicate Hits(s: Slot, p: Balanced)
  {
    p.sid == s.sid && p.e == s.e
  }

  /** trace is what a pass records over the first n slots: each slot adds
      at most one balanced edge, of its own panel and edge, only when it is
      recordable and always when it is wanted. */
  ghost predicate Traced(slots: seq<Slot>, trace: seq<Balanced>, n: nat)
    requires n <= |slots|
  {
    if n == 0 then trace == []
    else if |trace| > 0 && Hits(slots[n - 1], trace[|trace| - 1]) then
      slots[n - 1].rec && Traced(slots, trace[..|trace| - 1], n - 1)
    else
      !slots[n - 1].want && Traced(slots, trace, n - 1)
  }

  /** No slot before slot n has its panel and edge. */
  predicate FreshSlot(slots: seq<Slot>, n: nat)
    requires n < |slots|
  {
    forall a :: 0 <= a < n ==> !(slots[a].sid == slots[n].sid && slots[a].e == slots[n].e)
  }

  /** The last recorded edge is of some slot that came up. */
  lemma {:induction false} TracedLast(slots: seq<Slot>, trace: seq<Balanced>, n: nat)
    requires n <= |slots| && Traced(slots, trace, n) && |trace| > 0
    ensures exists a :: 0 <= a < n && Hits(slots[a], trace[|trace| - 1])
  {
    if !Hits(slots[n - 1], trace[|trace| - 1]) {
      TracedLast(slots, trace, n - 1);
    }
  }

  /** One more slot, not seen before: recording a balanced edge of it when it
      is recordable, or nothing when it is not wanted, extends the trace. */
  lemma {:induction false} TracedStep(slots: seq<Slot>, trace0: seq<Balanced>, trace: seq<Balanced>, n: nat)
    requires n < |slots| && FreshSlot(slots, n) && Traced(slots, trace0, n)
    requires |trace0| <= |trace| <= |trace0| + 1 && trace[..|trace0|] == trace0
    requires |trace| > |trace0| ==> Hits(slots[n], trace[|trace0|]) && slots[n].rec
    requires |trace| == |trace0| ==> !slots[n].want
    ensures Traced(slots, trace, n + 1)
  {
    if |trace| > |trace0| {
      assert trace[..|trace| - 1] == trace0;
    } else {
      assert trace == trace0;
      if |trace0| > 0 {
        TracedLast(slots, trace0, n);
      }
    }
  }

  /** Completeness of a pass: every wanted slot that came up is recorded. */
  lemma {:induction false} TracedRecordsWanted(slots: seq<Slot>, trace: seq<Balanced>, n: nat, a: nat)
    requires n <= |slots| && Traced(slots, trace, n)
    requires a < n && slots[a].want
    ensures exists t :: 0 <= t < |trace| && Hits(slots[a], trace[t])
  {
    if |trace| > 0 && Hits(slots[n - 1], trace[|trace| - 1]) {
      if a < n - 1 {
        var pre := trace[..|trace| - 1];
        TracedRecordsWanted(slots, pre, n - 1, a);
        var t :| 0 <= t < |pre| && Hits(slots[a], pre[t]);
        assert trace[t] == pre[t];
      } else {
        assert Hits(slots[a], trace[|trace| - 1]);
      }
    } else {
      TracedRecordsWanted(slots, trace, n - 1, a);
    }
  }

  /** Soundness of a pass: every recorded edge is of a slot that came up,
      and that slot was recordable. */
  lemma {:induction false} TracedRecordsOnlyRecordable(slots: seq<Slot>, trace: seq<Balanced>, n: nat, t: nat)
    requires n <= |slots| && Traced(slots, trace, n) && t < |trace|
    ensures exists a :: 0 <= a < n && Hits(slots[a], trace[t]) && slots[a].rec
  {
    if Hits(slots[n - 1], trace[|trace| - 1]) {
      if t < |trace| - 1 {
        var pre := trace[..|trace| - 1];
        TracedRecordsOnlyRecordable(slots, pre, n - 1, t);
        var a :| 0 <= a < n - 1 && Hits(slots[a], pre[t]) && slots[a].rec;
        assert trace[t] == pre[t];
      } else {
        assert Hits(slots[n - 1], trace[t]) && slots[n - 1].rec;
      }
    } else {
      TracedRecordsOnlyRecordable(slots, trace, n - 1, t);
    }
  }

  /** Edge EdgeOrder[k] of entry i as the balance pass comes to it. */
  ghost function SlotAt(g: Grid, raw: seq<(string, RawEntry)>, bw: real, i: nat, k: nat): Slot
    requires i < |raw| && k < 4
  {
    var sid, e, before := raw[i].0, EdgeOrder[k], KeysBefore(g, raw, i, k);
    Slot(sid, e, Recordable(g, raw, sid, e, before), Wanted(g, raw, bw, sid, e, before))
  }

  /** slots are the edges in the order the balance pass comes to them. */
  ghost predicate SlotsAgree(g: Grid, raw: seq<(string, RawEntry)>, bw: real, slots: seq<Slot>)
  {
    && |slots| == 4 * |raw|
    && (forall i, k {:trigger SlotAt(g, raw, bw, i, k)} ::
          0 <= i < |raw| && 0 <= k < 4 ==> slots[4 * i + k] == SlotAt(g, raw, bw, i, k))
  }

  /** The slots of the balance pass exist. */
  lemma {:induction false} PassSlotsExist(g: Grid, raw: seq<(string, RawEntry)>, bw: real)
    ensures exists slots :: SlotsAgree(g, raw, bw, slots)
  {
    var slots := seq(4 * |raw|, a requires 0 <= a < 4 * |raw| => SlotAt(g, raw, bw, a / 4, a % 4));
    forall i, k | 0 <= i < |raw| && 0 <= k < 4
      ensures slots[4 * i + k] == SlotAt(g, raw, bw, i, k)
    {
      assert (4 * i + k) / 4 == i && (4 * i + k) % 4 == k;
    }
    assert SlotsAgree(g, raw, bw, slots);
  }

  lemma EdgeIndexOrder(k: nat)
    requires k < 4
    ensures EdgeIndex(EdgeOrder[k]) == k
  {
  }

  /** With distinct ids, no edge comes up twice in the balance pass. */
  lemma {:induction false} SlotFreshAt(g: Grid, raw: seq<(string, RawEntry)>, bw: real, slots: seq<Slot>, i: nat, k: nat)
    requires DistinctIds(raw) && i < |raw| && k < 4 && SlotsAgree(g, raw, bw, slots)
    ensures 4 * i + k < |slots| && FreshSlot(slots, 4 * i + k)
  {
    assert slots[4 * i + k] == SlotAt(g, raw, bw, i, k);
    forall a | 0 <= a < 4 * i + k
      ensures !(slots[a].sid == slots[4 * i + k].sid && slots[a].e == slots[4 * i + k].e)
    {
      var i', k' := a / 4, a % 4;
      assert a == 4 * i' + k';
      assert slots[a] == SlotAt(g, raw, bw, i', k');
      if i' < i {
        assert raw[i'].0 != raw[i].0;
      } else {
        EdgeIndexOrder(k');
        EdgeIndexOrder(k);
      }
    }
  }

  /** trace is what the balance pass records over the edges that come
      before edge EdgeOrder[k] of entry i. */
  ghost predicate PassTrace(g: Grid, raw: seq<(string, RawEntry)>, bw: real, trace: seq<Balanced>, i: nat, k: nat)
    requires i <= |raw| && k <= 4 && (i == |raw| ==> k == 0)
  {
    exists slots :: SlotsAgree(g, raw, bw, slots) && Traced(slots, trace, 4 * i + k)
  }

  /** Before the first entry nothing is recorded. */
  lemma {:induction false} PassTraceStart(g: Grid, raw: seq<(string, RawEntry)>, bw: real)
    ensures PassTrace(g, raw, bw, [], 0, 0)
  {
    PassSlotsExist(g, raw, bw);
    var slots: seq<Slot> :| SlotsAgree(g, raw, bw, slots);
    assert Traced(slots, [], 0);
  }

  /** One more edge of entry i: recording a recordable balanced edge of it,
      or nothing when it is not wanted, extends the pass trace. */
  lemma {:induction false} PassTraceStep(g: Grid, raw: seq<(string, RawEntry)>, bw: real, trace0: seq<Balanced>, trace: seq<Balanced>,
                      i: nat, k: nat)
    requires DistinctIds(raw) && i < |raw| && k < 4
    requires PassTrace(g, raw, bw, trace0, i, k)
    requires |trace0| <= |trace| <= |trace0| + 1 && trace[..|trace0|] == trace0
    requires |trace| > |trace0| ==>
               && trace[|trace0|].sid == raw[i].0 && trace[|trace0|].e == EdgeOrder[k]
               && Recordable(g, raw, raw[i].0, EdgeOrder[k], KeysBefore(g, raw, i, k))
    requires |trace| == |trace0| ==> !Wanted(g, raw, bw, raw[i].0, EdgeOrder[k], KeysBefore(g, raw, i, k))
    ensures PassTrace(g, raw, bw, trace, i, k + 1)
  {
    var slots: seq<Slot> :| SlotsAgree(g, raw, bw, slots) && Traced(slots, trace0, 4 * i + k);
    assert slots[4 * i + k] == SlotAt(g, raw, bw, i, k);
    SlotFreshAt(g, raw, bw, slots, i, k);
    TracedStep(slots, trace0, trace, 4 * i + k);
    assert Traced(slots, trace, 4 * i + (k + 1));
  }

  /** An entry that drives no edge records nothing. */
  lemma {:induction false} PassTraceIdle(g: Grid, raw: seq<(string, RawEntry)>, bw: real, trace: seq<Balanced>, i: nat)
    requires DistinctIds(raw) && i < |raw|
    requires !(raw[i].0 in g.slabs && g.slabs[raw[i].0].kind == Twoway && Lookup(raw, raw[i].0).Some?
               && Lookup(raw, raw[i].0).value != NoResult)
    requires PassTrace(g, raw, bw, trace, i, 0)
    ensures PassTrace(g, raw, bw, trace, i, 4)
  {
    PassTraceStep(g, raw, bw, trace, trace, i, 0);
    PassTraceStep(g, raw, bw, trace, trace, i, 1);
    PassTraceStep(g, raw, bw, trace, trace, i, 2);
    PassTraceStep(g, raw, bw, trace, trace, i, 3);
  }

  /** The trace after all four edges of entry i is the trace before
      entry i + 1. */
  lemma {:induction false} PassTraceNextEntry(g: Grid, raw: seq<(string, RawEntry)>, bw: real, trace: seq<Balanced>, i: nat)
    requires i < |raw| && PassTrace(g, raw, bw, trace, i, 4)
    ensures PassTrace(g, raw, bw, trace, i + 1, 0)
  {
    var slots: seq<Slot> :| SlotsAgree(g, raw, bw, slots) && Traced(slots, trace, 4 * i + 4);
    assert Traced(slots, trace, 4 * (i + 1) + 0);
  }

  /** Completeness of the balance pass: every wanted edge that came up is
      recorded. */
  lemma {:induction false} PassTraceRecordsWanted(g: Grid, raw: seq<(string, RawEntry)>, bw: real, trace: seq<Balanced>,
                               i: nat, k: nat, i': nat, k': nat)
    requires i <= |raw| && k <= 4 && (i == |raw| ==> k == 0)
    requires PassTrace(g, raw, bw, trace, i, k)
    requires (i' < i && k' < 4) || (i' == i && k' < k)
    requires Wanted(g, raw, bw, raw[i'].0, EdgeOrder[k'], KeysBefore(g, raw, i', k'))
    ensures exists t :: 0 <= t < |trace| && trace[t].sid == raw[i'].0 && trace[t].e == EdgeOrder[k']
  {
    var slots: seq<Slot> :| SlotsAgree(g, raw, bw, slots) && Traced(slots, trace, 4 * i + k);
    assert slots[4 * i' + k'] == SlotAt(g, raw, bw, i', k');
    TracedRecordsWanted(slots, trace, 4 * i + k, 4 * i' + k');
    var t :| 0 <= t < |trace| && Hits(slots[4 * i' + k'], trace[t]);
    assert trace[t].sid == raw[i'].0 && trace[t].e == EdgeOrder[k'];
  }

  /** Soundness of the balance pass: every recorded edge is the panel and
      edge of an edge that came up, and was recordable then. */
  lemma {:induction false} PassTraceRecordsOnlyRecordable(g: Grid, raw: seq<(string, RawEntry)>, bw: real,
                                       trace: seq<Balanced>, i: nat, k: nat, t: nat)
    requires i <= |raw| && k <= 4 && (i == |raw| ==> k == 0)
    requires PassTrace(g, raw, bw, trace, i, k) && t < |trace|
    ensures exists i', k' :: 0 <= i' && 0 <= k' && ((i' < i && k' < 4) || (i' == i && k' < k))
                             && trace[t].sid == raw[i'].0 && trace[t].e == EdgeOrder[k']
                             && Recordable(g, raw, raw[i'].0, EdgeOrder[k'], KeysBefore(g, raw, i', k'))
  {
    var slots: seq<Slot> :| SlotsAgree(g, raw, bw, slots) && Traced(slots, trace, 4 * i + k);
    TracedRecordsOnlyRecordable(slots, trace, 4 * i + k, t);
    var a: nat :| a < 4 * i + k && Hits(slots[a], trace[t]) && slots[a].rec;
    var i', k' := a / 4, a % 4;
    assert a == 4 * i' + k';
    assert slots[a] == SlotAt(g, raw, bw, i', k');
    assert ((i' < i && k' < 4) || (i' == i && k' < k))
           && trace[t].sid == raw[i'].0 && trace[t].e == EdgeOrder[k']
           && Recordable(g, raw, raw[i'].0, EdgeOrder[k'], KeysBefore(g, raw, i', k'));
  }

  /** The moment and span of neighbour nb on the shared edge; none when
      they are missing. */
  method NeighbourSide(g: Grid, raw: seq<(string, RawEntry)>, bw: real, nb: string, e: Edge)
    returns (r: Option<(real, real)>)
    requires BoxesOrdered(g) && nb in g.slabs && g.slabs[nb].kind in {Twoway, Oneway}
    ensures r.Some? ==> NeighbourSideRule(g, raw, bw, nb, e, r.value.0, r.value.1)
    ensures g.slabs[nb].kind == Twoway ==> (r.Some? <==> TwowayMomentFacing(raw, nb, e))
    ensures g.slabs[nb].kind == Oneway && r.None? ==>
              exists res :: OnewayPerSlabRule(g, nb, bw, res) && res.mnegMin.None?
  {
    var nres := Lookup(raw, nb);
    if g.slabs[nb].kind == Twoway && nres.Some? {
      if nres.value == NoResult {
        return None;
      }
      var em2 := EntryMoment(nres.value, OppositeEdge(e));
      if em2.None? {
        return None;
      }
      return Some((Abs(em2.value), EntrySpan(nres.value, e)));
    } else if g.slabs[nb].kind == Oneway {
      var om := GetOnewaySupportMoment(g, nb, bw);
      if om.None? {
        return None;
      }
      var gross := g.slabs[nb].SizeMGross();
      return Some((Abs(om.value), Min(gross.0, gross.1)));
    } else {
      return None;
    }
  }

  /** Processing more keys keeps the loop state. */
  lemma {:induction false} PhaseInvGrow(g: Grid, raw: seq<(string, RawEntry)>, bw: real, processed: set<PairKey>,
                     more: set<PairKey>, eb: map<(string, Edge), real>, trace: seq<Balanced>)
    requires PhaseInv(g, raw, bw, processed, eb, trace)
    ensures PhaseInv(g, raw, bw, processed + more, eb, trace)
  {
  }

  /** Recording a balanced edge under a key just marked processed keeps the
      loop state. */
  lemma {:induction false} PhaseInvRecord(g: Grid, raw: seq<(string, RawEntry)>, bw: real, processed: set<PairKey>,
                       eb: map<(string, Edge), real>, trace: seq<Balanced>, p: Balanced)
    requires PhaseInv(g, raw, bw, processed, eb, trace)
    requires KeyOf(p) !in processed && BalancedRule(g, raw, bw, p)
    ensures PhaseInv(g, raw, bw, processed + {KeyOf(p)},
                     eb[(p.sid, p.e) := p.design][(p.nb, OppositeEdge(p.e)) := p.design], trace + [p])
  {
    assert (trace + [p])[..|trace|] == trace;
  }

  /** One edge e of two-way panel sid: the key is marked processed when the
      edge is driven, and the edge is balanced when its key is new and both
      moments exist. */
  method BalanceEdge(g: Grid, raw: seq<(string, RawEntry)>, bw: real, sid: string, en: RawEntry, e: Edge,
                     processed0: set<PairKey>, eb0: map<(string, Edge), real>, ghost trace0: seq<Balanced>)
    returns (processed: set<PairKey>, eb: map<(string, Edge), real>, ghost trace: seq<Balanced>)
    requires BoxesOrdered(g)
    requires sid in g.slabs && g.slabs[sid].kind == Twoway && Lookup(raw, sid) == Some(en) && en != NoResult
    requires PhaseInv(g, raw, bw, processed0, eb0, trace0)
    ensures PhaseInv(g, raw, bw, processed, eb, trace)
    ensures processed == processed0 + EdgeKeys(g, raw, sid, e)
    ensures |trace0| <= |trace| <= |trace0| + 1 && trace[..|trace0|] == trace0
    ensures |trace| > |trace0| ==> trace[|trace0|].sid == sid && trace[|trace0|].e == e
    ensures |trace| > |trace0| ==> Recordable(g, raw, sid, e, processed0)
    ensures Wanted(g, raw, bw, sid, e, processed0) ==> |trace| > |trace0|
    ensures (&& DrivesEdge(g, raw, sid, e) && StepKey(g, raw, sid, e) !in processed0
             && EntryMoment(en, e).Some? && NeighbourOnEdge(g, sid, e).value.1 == Twoway) ==>
              (|trace| > |trace0| <==> TwowayMomentFacing(raw, NeighbourOnEdge(g, sid, e).value.0, e))
    ensures (&& DrivesEdge(g, raw, sid, e) && StepKey(g, raw, sid, e) !in processed0
             && EntryMoment(en, e).Some? && NeighbourOnEdge(g, sid, e).value.1 == Oneway
             && |trace| == |trace0|) ==>
              exists res :: OnewayPerSlabRule(g, NeighbourOnEdge(g, sid, e).value.0, bw, res) && res.mnegMin.None?
  {
    processed, eb, trace := processed0, eb0, trace0;
    var nbk := GetNeighborOnEdge(g, sid, e);
    if nbk.None? {
      return;
    }
    var (nb, kind) := nbk.value;
    if kind != Twoway && kind != Oneway {
      return;
    }
    var key := PairKeyOf(sid, nb, e);
    if key in processed {
      return;
    }
    PhaseInvGrow(g, raw, bw, processed0, {key}, eb0, trace0);
    processed := processed + {key};
    var em1 := EntryMoment(en, e);
    if em1.None? {
      return;
    }
    var side := NeighbourSide(g, raw, bw, nb, e);
    if side.None? {
      return;
    }
    var m1, m2, l2 := Abs(em1.value), side.value.0, side.value.1;
    var l1 := EntrySpan(en, e);
    var md := DesignMoment(m1, m2, l1, l2);
    var p := Balanced(sid, e, nb, m1, m2, l1, l2, md);
    assert BalancedRule(g, raw, bw, p);
    PhaseInvRecord(g, raw, bw, processed0, eb0, trace0, p);
    eb := eb[(sid, e) := md][(nb, OppositeEdge(e)) := md];
    trace := trace + [p];
  }

  /** The four edges of two-way panel sid, in the order L, R, T, B. */
  method BalancePanel(g: Grid, raw: seq<(string, RawEntry)>, bw: real, ghost i: nat, sid: string, en: RawEntry,
                      processed0: set<PairKey>, eb0: map<(string, Edge), real>, ghost trace0: seq<Balanced>)
    returns (processed: set<PairKey>, eb: map<(string, Edge), real>, ghost trace: seq<Balanced>)
    requires BoxesOrdered(g) && DistinctIds(raw)
    requires i < |raw| && raw[i] == (sid, en) && processed0 == EntryKeysUpTo(g, raw, i)
    requires sid in g.slabs && g.slabs[sid].kind == Twoway && Lookup(raw, sid) == Some(en) && en != NoResult
    requires PhaseInv(g, raw, bw, processed0, eb0, trace0)
    requires PassTrace(g, raw, bw, trace0, i, 0)
    ensures PhaseInv(g, raw, bw, processed, eb, trace)
    ensures processed == processed0 + PanelKeysUpTo(g, raw, sid, 4)
    ensures PassTrace(g, raw, bw, trace, i, 4)
  {
    processed, eb, trace := processed0, eb0, trace0;
    for k := 0 to 4
      invariant PhaseInv(g, raw, bw, processed, eb, trace)
      invariant processed == WithPanelKeys(g, raw, sid, processed0, k)
      invariant PassTrace(g, raw, bw, trace, i, k)
    {
      WithPanelKeysUnion(g, raw, sid, processed0, k);
      processed, eb, trace := BalanceSlot(g, raw, bw, i, k, sid, en, processed, eb, trace);
    }
    WithPanelKeysUnion(g, raw, sid, processed0, 4);
  }

  /** Edge k of entry i as the pass comes to it: the edge is balanced and the
      trace follows the pass one edge further. */
  method BalanceSlot(g: Grid, raw: seq<(string, RawEntry)>, bw: real, ghost i: nat, k: nat, sid: string, en: RawEntry,
                     processed0: set<PairKey>, eb0: map<(string, Edge), real>, ghost trace0: seq<Balanced>)
    returns (processed: set<PairKey>, eb: map<(string, Edge), real>, ghost trace: seq<Balanced>)
    requires BoxesOrdered(g) && DistinctIds(raw)
    requires i < |raw| && k < 4 && raw[i] == (sid, en)
    requires sid in g.slabs && g.slabs[sid].kind == Twoway && Lookup(raw, sid) == Some(en) && en != NoResult
    requires PhaseInv(g, raw, bw, processed0, eb0, trace0)
    requires processed0 == KeysBefore(g, raw, i, k)
    requires PassTrace(g, raw, bw, trace0, i, k)
    ensures PhaseInv(g, raw, bw, processed, eb, trace)
    ensures processed == processed0 + EdgeKeys(g, raw, sid, EdgeOrder[k])
    ensures PassTrace(g, raw, bw, trace, i, k + 1)
  {
    processed, eb, trace := BalanceEdge(g, raw, bw, sid, en, EdgeOrder[k], processed0, eb0, trace0);
    PassTraceStep(g, raw, bw, trace0, trace, i, k);
  }

  /** base with the keys of the first k edges of sid added one by one. */
  function WithPanelKeys(g: Grid, raw: seq<(string, RawEntry)>, sid: string, base: set<PairKey>, k: nat): set<PairKey>
    requires k <= 4
  {
    if k == 0 then base else WithPanelKeys(g, raw, sid, base, k - 1) + EdgeKeys(g, raw, sid, EdgeOrder[k - 1])
  }

  lemma {:induction false} WithPanelKeysUnion(g: Grid, raw: seq<(string, RawEntry)>, sid: string, base: set<PairKey>, k: nat)
    requires k <= 4
    ensures WithPanelKeys(g, raw, sid, base, k) == base + PanelKeysUpTo(g, raw, sid, k)
  {
    if k > 0 {
      WithPanelKeysUnion(g, raw, sid, base, k - 1);
    }
  }

  /** The pass over the entries, in order: every two-way panel with a result
      drives its four edges. */
  method CollectBalanced(g: Grid, raw: seq<(string, RawEntry)>, bw: real)
    returns (processed: set<PairKey>, eb: map<(string, Edge), real>, ghost trace: seq<Balanced>)
    requires DistinctIds(raw) && BoxesOrdered(g)
    ensures PhaseInv(g, raw, bw, processed, eb, trace)
    ensures processed == EntryKeysUpTo(g, raw, |raw|)
    ensures PassTrace(g, raw, bw, trace, |raw|, 0)
  {
    processed, eb, trace := {}, map[], [];
    PassTraceStart(g, raw, bw);
    for i := 0 to |raw|
      invariant PhaseInv(g, raw, bw, processed, eb, trace)
      invariant processed == EntryKeysUpTo(g, raw, i)
      invariant PassTrace(g, raw, bw, trace, i, 0)
    {
      var (sid, en) := raw[i];
      LookupAt(raw, i);
      if en != NoResult && sid in g.slabs && g.slabs[sid].kind == Twoway {
        processed, eb, trace := BalancePanel(g, raw, bw, i, sid, en, processed, eb, trace);
        assert processed == EntryKeysUpTo(g, raw, i + 1);
      } else {
        EntryKeysIdle(g, raw, i);
        PassTraceIdle(g, raw, bw, trace, i);
      }
      PassTraceNextEntry(g, raw, bw, trace, i);
    }
  }

  // ---------------------------------------------------------------------
  // Applying the balanced moments
  // ---------------------------------------------------------------------

  /** The negative moment of panel id on the axis of edges e1, e2: minus the
      balanced moment of e1 if it has one, else of e2, else unchanged. */
  function NewNeg(eb: map<(string, Edge), real>, id: string, e1: Edge, e2: Edge, m: Option<real>): (r: Option<real>)
    ensures (id, e1) in eb ==> r == Some(-eb[(id, e1)])
    ensures (id, e1) !in eb && (id, e2) in eb ==> r == Some(-eb[(id, e2)])
    ensures (id, e1) !in eb && (id, e2) !in eb ==> r == m
  {
    if (id, e1) in eb then Some(-eb[(id, e1)])
    else if (id, e2) in eb then Some(-eb[(id, e2)])
    else m
  }

  /** The scan of the two edges of one axis, stopping at the first balanced
      one. */
  method BalancedNeg(eb: map<(string, Edge), real>, id: string, e1: Edge, e2: Edge, m: Option<real>)
    returns (r: Option<real>)
    ensures r == NewNeg(eb, id, e1, e2, m)
  {
    r := m;
    var edges := [e1, e2];
    for k := 0 to 2
      invariant r == m
      invariant k >= 1 ==> (id, e1) !in eb
      invariant k >= 2 ==> (id, e2) !in eb
    {
      if (id, edges[k]) in eb {
        r := Some(-eb[(id, edges[k])]);
        break;
      }
    }
  }

  /** The balanced entry of panel id: a two-way panel's result with its two
      negative moments replaced, any other entry unchanged. */
  function BalancedEntry(g: Grid, eb: map<(string, Edge), real>, id: string, en: RawEntry): (r: RawEntry)
    ensures r.NoResult? <==> en.NoResult?
    ensures !(en.TwowayEntry? && id in g.slabs && g.slabs[id].kind == Twoway) ==> r == en
    ensures r.TwowayEntry? <==> en.TwowayEntry?
    ensures r.TwowayEntry? ==> r.tw.(mxNeg := en.tw.mxNeg, myNeg := en.tw.myNeg) == en.tw
    ensures en.TwowayEntry? && id in g.slabs && g.slabs[id].kind == Twoway ==>
              r.tw.mxNeg == NewNeg(eb, id, L, R, en.tw.mxNeg) && r.tw.myNeg == NewNeg(eb, id, T, B, en.tw.myNeg)
  {
    if en.TwowayEntry? && id in g.slabs && g.slabs[id].kind == Twoway then
      TwowayEntry(en.tw.(mxNeg := NewNeg(eb, id, L, R, en.tw.mxNeg), myNeg := NewNeg(eb, id, T, B, en.tw.myNeg)))
    else en
  }

  /** The copy of the entries, in order, with the balanced moments applied. */
  method ApplyBalanced(g: Grid, raw: seq<(string, RawEntry)>, eb: map<(string, Edge), real>)
    returns (balanced: seq<(string, RawEntry)>)
    ensures |balanced| == |raw|
    ensures forall i :: 0 <= i < |raw| ==> balanced[i] == (raw[i].0, BalancedEntry(g, eb, raw[i].0, raw[i].1))
  {
    balanced := [];
    for i := 0 to |raw|
      invariant |balanced| == i
      invariant forall i' :: 0 <= i' < i ==> balanced[i'] == (raw[i'].0, BalancedEntry(g, eb, raw[i'].0, raw[i'].1))
    {
      var (sid, en) := raw[i];
      var out := en;
      if en.TwowayEntry? && sid in g.slabs && g.slabs[sid].kind == Twoway {
        var mxn := BalancedNeg(eb, sid, L, R, en.tw.mxNeg);
        var myn := BalancedNeg(eb, sid, T, B, en.tw.myNeg);
        out := TwowayEntry(en.tw.(mxNeg := mxn, myNeg := myn));
      }
      balanced := balanced + [(sid, out)];
    }
  }

  /** The balancing of all shared edges: the balanced edges trace, each
      under a distinct key and computed by the rule; the table of design
      moments they write; and the entries with the table applied. */
  method BalanceSupportMoments(g: Grid, raw: seq<(string, RawEntry)>, bw: real)
    returns (balanced: seq<(string, RawEntry)>, ghost eb: map<(string, Edge), real>,
             ghost trace: seq<Balanced>, ghost processed: set<PairKey>)
    requires DistinctIds(raw) && BoxesOrdered(g)
    ensures PhaseInv(g, raw, bw, processed, eb, trace)
    ensures processed == EntryKeysUpTo(g, raw, |raw|)
    ensures PassTrace(g, raw, bw, trace, |raw|, 0)
    ensures |balanced| == |raw|
    ensures forall i :: 0 <= i < |raw| ==> balanced[i] == (raw[i].0, BalancedEntry(g, eb, raw[i].0, raw[i].1))
  {
    var p, table;
    p, table, trace := CollectBalanced(g, raw, bw);
    balanced := ApplyBalanced(g, raw, table);
    eb, processed := table, p;
  }

  /** A balanced negative moment is minus a design moment, so it is never
      positive. */
  lemma {:induction false} BalancedNegativeNonPositive(g: Grid, raw: seq<(string, RawEntry)>, bw: real, processed: set<PairKey>,
                                    eb: map<(string, Edge), real>, trace: seq<Balanced>, id: string, en: RawEntry)
    requires PhaseInv(g, raw, bw, processed, eb, trace)
    requires en.TwowayEntry? && id in g.slabs && g.slabs[id].kind == Twoway
    ensures (id, L) in eb || (id, R) in eb ==>
              BalancedEntry(g, eb, id, en).tw.mxNeg.Some? && BalancedEntry(g, eb, id, en).tw.mxNeg.value <= 0.0
    ensures (id, T) in eb || (id, B) in eb ==>
              BalancedEntry(g, eb, id, en).tw.myNeg.Some? && BalancedEntry(g, eb, id, en).tw.myNeg.value <= 0.0
  {
    EdgeTableNonNegative(g, raw, bw, trace);
  }
}
