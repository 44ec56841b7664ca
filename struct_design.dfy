/** Structural design helpers: linear interpolation, the one-way moment
    coefficients, the design-chart lookup that turns a moment into a steel
    area, the bar catalogue search and the code's constructive rules. */
module StructDesign {
  import opened Common
  import opened Tables

  /** A bar pattern: diameter phi (mm) at spacing s (mm), giving `area`
      mm^2 of steel per metre width. */
  datatype RebarChoice = RebarChoice(phi: int, s: int, area: real)

  /** The value of math.pi. */
  const Pi: real := 3.141592653589793

  predicate Between(v: real, a: real, b: real)
  {
    Min(a, b) <= v <= Max(a, b)
  }

  // ---------------------------------------------------------------------
  // Linear interpolation
  // ---------------------------------------------------------------------

  lemma MulNonneg(a: real, b: real)
    requires a >= 0.0 && b >= 0.0
    ensures a * b >= 0.0
  {
  }

  lemma NonnegFactor(x: real, q: real)
    requires q > 0.0 && x * q >= 0.0
    ensures x >= 0.0
  {
  }

  lemma PosFactor(x: real, q: real)
    requires q > 0.0 && x * q > 0.0
    ensures x > 0.0
  {
  }

  lemma ZeroFactor(x: real, q: real)
    requires q > 0.0 && x * q == 0.0
    ensures x == 0.0
  {
  }

  lemma UnitFraction(x0: real, x1: real, x: real)
    requires x0 != x1 && Between(x, x0, x1)
    ensures 0.0 <= (x - x0) / (x1 - x0) <= 1.0
  {
    var t := (x - x0) / (x1 - x0);
    if x0 < x1 {
      var dd := x1 - x0;
      assert t * dd == x - x0;
      NonnegFactor(t, dd);
      assert (1.0 - t) * dd == dd - (x - x0);
      NonnegFactor(1.0 - t, dd);
    } else {
      var dd := x0 - x1;
      assert t * dd == x0 - x;
      NonnegFactor(t, dd);
      assert (1.0 - t) * dd == dd - (x0 - x);
      NonnegFactor(1.0 - t, dd);
    }
  }

  lemma ConvexStep(y0: real, y1: real, t: real)
    requires 0.0 <= t <= 1.0
    ensures Between(y0 + t * (y1 - y0), y0, y1)
  {
    if y0 <= y1 {
      MulNonneg(t, y1 - y0);
      MulNonneg(1.0 - t, y1 - y0);
      assert (1.0 - t) * (y1 - y0) == (y1 - y0) - t * (y1 - y0);
    } else {
      MulNonneg(t, y0 - y1);
      MulNonneg(1.0 - t, y0 - y1);
      assert t * (y0 - y1) == -(t * (y1 - y0));
      assert (1.0 - t) * (y0 - y1) == (y0 - y1) + t * (y1 - y0);
    }
  }

  lemma DivSelf(a: real, b: real)
    requires a == b && b != 0.0
    ensures a / b == 1.0
  {
  }

  lemma ZeroDiv(a: real, b: real)
    requires a == 0.0 && b != 0.0
    ensures a / b == 0.0
  {
  }

  /** The straight line through (x0, y0) and (x1, y1) evaluated at x; y0 when
      the two abscissae coincide. */
  function Lerp(x0: real, y0: real, x1: real, y1: real, x: real): (r: real)
    ensures x1 == x0 ==> r == y0
    ensures x == x0 ==> r == y0
    ensures x1 != x0 && x == x1 ==> r == y1
    ensures Between(x, x0, x1) ==> Between(r, y0, y1)
  {
    if x1 == x0 then y0
    else
      var t := (x - x0) / (x1 - x0);
      assert x == x1 ==> t == 1.0 by {
        if x == x1 { DivSelf(x - x0, x1 - x0); }
      }
      assert x == x0 ==> t == 0.0 by {
        if x == x0 { ZeroDiv(x - x0, x1 - x0); }
      }
      assert Between(x, x0, x1) ==> Between(y0 + t * (y1 - y0), y0, y1) by {
        if Between(x, x0, x1) {
          UnitFraction(x0, x1, x);
          ConvexStep(y0, y1, t);
        }
      }
      y0 + t * (y1 - y0)
  }

  // ---------------------------------------------------------------------
  // Alpha interpolation over the aspect-ratio breakpoints
  // ---------------------------------------------------------------------

  predicate InSegment(m: real, mp: seq<real>, k: int)
    requires 0 <= k < |mp| - 1
  {
    mp[k] <= m <= mp[k + 1]
  }

  /** The scan of segments k, k+1, ...: the interpolant on the first segment
      that contains m, or the last tabulated value if none does. */
  function InterpScan(m: real, mp: seq<real>, ap: seq<real>, k: nat): real
    requires |ap| == |mp| >= 1 && k < |mp|
    decreases |mp| - k
  {
    if k >= |mp| - 1 then ap[|ap| - 1]
    else if mp[k] <= m <= mp[k + 1] then Lerp(mp[k], ap[k], mp[k + 1], ap[k + 1], m)
    else InterpScan(m, mp, ap, k + 1)
  }

  /** The scan from k returns the interpolant on the first segment from k
      on that contains m. */
  lemma {:induction false} InterpScanFirst(m: real, mp: seq<real>, ap: seq<real>, k: nat, j: nat)
    requires |ap| == |mp| >= 1 && k <= j < |mp| - 1 && InSegment(m, mp, j)
    requires forall j' :: k <= j' < j ==> !InSegment(m, mp, j')
    ensures InterpScan(m, mp, ap, k) == Lerp(mp[j], ap[j], mp[j + 1], ap[j + 1], m)
    decreases j - k
  {
    if k < j {
      assert !InSegment(m, mp, k);
      InterpScanFirst(m, mp, ap, k + 1, j);
    }
  }

  /** Piecewise-linear interpolation of the tabulated values ap at the
      breakpoints mp, clamped to the end values outside the table range. */
  function InterpAlpha(m: real, mp: seq<real>, ap: seq<real>): (r: real)
    requires |ap| == |mp| >= 1
    ensures m <= mp[0] ==> r == ap[0]
    ensures mp[0] < m && m >= mp[|mp| - 1] ==> r == ap[|ap| - 1]
  {
    if m <= mp[0] then ap[0]
    else if m >= mp[|mp| - 1] then ap[|ap| - 1]
    else InterpScan(m, mp, ap, 0)
  }

  /** Inside the breakpoint range the result lies between the two values of
      the bracketing segment. */
  lemma InterpAlphaBracketed(m: real, mp: seq<real>, ap: seq<real>)
    requires |ap| == |mp| >= 1 && StrictlyIncreasing(mp)
    requires mp[0] < m < mp[|mp| - 1]
    ensures exists k :: 0 <= k < |mp| - 1 && InSegment(m, mp, k)
              && Between(InterpAlpha(m, mp, ap), ap[k], ap[k + 1])
  {
    var k := FirstSegmentAbove(m, mp, 0);
    InterpScanFirst(m, mp, ap, 0, k);
  }

  /** The lowest breakpoint index k' >= k with m <= mp[k'+1], for m strictly
      inside the table and at least mp[k]. */
  lemma FirstSegmentAbove(m: real, mp: seq<real>, k: nat) returns (j: nat)
    requires |mp| >= 2 && k < |mp| - 1 && StrictlyIncreasing(mp)
    requires mp[k] <= m < mp[|mp| - 1]
    ensures k <= j < |mp| - 1 && InSegment(m, mp, j)
    ensures forall j' :: k <= j' < j ==> !InSegment(m, mp, j')
    decreases |mp| - k
  {
    if m <= mp[k + 1] {
      j := k;
    } else {
      j := FirstSegmentAbove(m, mp, k + 1);
    }
  }

  /** At a breakpoint the tabulated value is returned exactly. */
  lemma InterpAlphaAtBreakpoint(mp: seq<real>, ap: seq<real>, k: nat)
    requires |ap| == |mp| >= 1 && StrictlyIncreasing(mp) && k < |mp|
    ensures InterpAlpha(mp[k], mp, ap) == ap[k]
  {
    var m := mp[k];
    if k == 0 || k == |mp| - 1 {
    } else {
      assert InSegment(m, mp, k - 1);
      forall j' | 0 <= j' < k - 1
        ensures !InSegment(m, mp, j')
      {
        assert mp[j' + 1] < mp[k];
      }
      InterpScanFirst(m, mp, ap, 0, k - 1);
    }
  }

  // ---------------------------------------------------------------------
  // One-way moment coefficients
  // ---------------------------------------------------------------------

  /** Support coefficient i (0..n) of an n-span continuous strip. */
  function SupportCoeff(n: int, i: int): real
    requires n >= 1 && 0 <= i <= n
  {
    if n == 1 then 0.0
    else if i == 0 || i == n then -1.0 / 24.0
    else if n == 2 then -1.0 / 8.0
    else if n >= 4 && n % 2 == 0 && i == n / 2 then -1.0 / 10.0
    else -1.0 / 9.0
  }

  /** Span coefficient i (0..n-1) of an n-span continuous strip. */
  function SpanCoeff(n: int, i: int): real
    requires n >= 1 && 0 <= i < n
  {
    if n == 1 then 1.0 / 8.0
    else if i == 0 || i == n - 1 then 1.0 / 11.0
    else 1.0 / 15.0
  }

  /** The coefficient tables of TS 500 for continuous one-way slabs, filled
      as the source fills them. */
  method OneWayCoefficients(n: int) returns (support: seq<real>, span: seq<real>)
    requires n >= 1
    ensures |support| == n + 1 && |span| == n
    ensures forall i :: 0 <= i <= n ==> support[i] == SupportCoeff(n, i)
    ensures forall i :: 0 <= i < n ==> span[i] == SpanCoeff(n, i)
  {
    if n == 1 {
      return [0.0, 0.0], [1.0 / 8.0];
    }
    if n == 2 {
      return [-1.0 / 24.0, -1.0 / 8.0, -1.0 / 24.0], [1.0 / 11.0, 1.0 / 11.0];
    }
    if n == 3 {
      return [-1.0 / 24.0, -1.0 / 9.0, -1.0 / 9.0, -1.0 / 24.0],
             [1.0 / 11.0, 1.0 / 15.0, 1.0 / 11.0];
    }
    support := seq(n + 1, _ => 0.0);
    support := support[0 := -1.0 / 24.0][n := -1.0 / 24.0];
    for i := 1 to n
      invariant |support| == n + 1
      invariant support[0] == -1.0 / 24.0 && support[n] == -1.0 / 24.0
      invariant forall k :: 1 <= k < i ==> support[k] == -1.0 / 9.0
    {
      support := support[i := -1.0 / 9.0];
    }
    if n % 2 == 0 {
      support := support[n / 2 := -1.0 / 10.0];
    }
    span := seq(n, _ => 1.0 / 15.0);
    span := span[0 := 1.0 / 11.0][n - 1 := 1.0 / 11.0];
  }

  /** The tables are mirror-symmetric: support i and support n-i, span i and
      span n-1-i carry the same coefficient. */
  lemma {:induction false} CoefficientsSymmetric(n: int, i: int)
    requires n >= 1 && 0 <= i <= n
    ensures SupportCoeff(n, i) == SupportCoeff(n, n - i)
    ensures i < n ==> SpanCoeff(n, i) == SpanCoeff(n, n - 1 - i)
  {
    if n >= 4 && n % 2 == 0 {
      assert i == n / 2 <==> n - i == n / 2;
    }
  }

  /** Support and span coefficients of a single span, by end fixity. */
  datatype SingleSpanCoeffs = SingleSpanCoeffs(start: real, end: real, pos: real)

  function OneSpanCoeffByFixity(fixedStart: bool, fixedEnd: bool): (c: SingleSpanCoeffs)
    ensures c.pos > 0.0 && c.start <= 0.0 && c.end <= 0.0
    ensures (c.start == 0.0) == !fixedStart && (c.end == 0.0) == !fixedEnd
    ensures !fixedStart && !fixedEnd ==> c.pos == 1.0 / 8.0
    ensures fixedStart && fixedEnd ==> c.start == c.end == -1.0 / 12.0 && c.pos == 1.0 / 24.0
    ensures fixedStart != fixedEnd ==> c.start + c.end == -1.0 / 8.0 && c.pos == (1.0 / 8.0) * (9.0 / 16.0)
  {
    if !fixedStart && !fixedEnd then SingleSpanCoeffs(0.0, 0.0, 1.0 / 8.0)
    else if fixedStart && fixedEnd then SingleSpanCoeffs(-1.0 / 12.0, -1.0 / 12.0, 1.0 / 24.0)
    else if fixedStart && !fixedEnd then SingleSpanCoeffs(-1.0 / 8.0, 0.0, 9.0 / 128.0)
    else SingleSpanCoeffs(0.0, -1.0 / 8.0, 9.0 / 128.0)
  }

  /** Swapping the two ends mirrors the coefficients. */
  lemma OneSpanMirror(fixedStart: bool, fixedEnd: bool)
    ensures OneSpanCoeffByFixity(fixedEnd, fixedStart)
         == var c := OneSpanCoeffByFixity(fixedStart, fixedEnd); SingleSpanCoeffs(c.end, c.start, c.pos)
  {
  }

  // ---------------------------------------------------------------------
  // Design chart: K -> ks
  // ---------------------------------------------------------------------

  function ConcToTabCol(conc: string): (col: string)
    ensures col in {"C25", "C30", "C35", "C40"}
    ensures |conc| >= 3 && (conc[..3] == "C20" || conc[..3] == "C25") ==> col == "C25"
    ensures |conc| >= 3 && conc[..3] == "C30" ==> col == "C30"
    ensures |conc| >= 3 && conc[..3] == "C35" ==> col == "C35"
    ensures |conc| >= 3 && conc[..3] == "C40" ==> col == "C40"
    ensures !(|conc| >= 3 && conc[..3] in {"C20", "C25", "C30", "C35", "C40"}) ==> col == "C25"
  {
    if |conc| >= 3 && conc[..3] == "C20" then "C25"
    else if |conc| >= 3 && conc[..3] == "C25" then "C25"
    else if |conc| >= 3 && conc[..3] == "C30" then "C30"
    else if |conc| >= 3 && conc[..3] == "C35" then "C35"
    else if |conc| >= 3 && conc[..3] == "C40" then "C40"
    else "C25"
  }

  function SteelToTabCol(steel: string): (col: string)
    ensures col == "S420" <==> steel == "B420C"
    ensures col in {"S420", "B500"}
  {
    if steel == "B420C" then "S420" else "B500"
  }

  /** One chart row as the source pairs it: (K of the concrete column, ks of
      the steel column). */
  datatype KsPair = KsPair(k: real, ks: real)

  function ChartPairs(chart: seq<seq<real>>, ci: nat, si: nat): (ps: seq<KsPair>)
    requires forall r :: 0 <= r < |chart| ==> ci < |chart[r]| && si < |chart[r]|
    ensures |ps| == |chart|
    ensures forall r :: 0 <= r < |chart| ==> ps[r] == KsPair(chart[r][ci], chart[r][si])
  {
    seq(|chart|, r requires 0 <= r < |chart| => KsPair(chart[r][ci], chart[r][si]))
  }

  predicate SortedDesc(ps: seq<KsPair>)
  {
    forall i, j :: 0 <= i < j < |ps| ==> ps[i].k >= ps[j].k
  }

  /** Inserts x after every element whose K is at least x's (keeps the sort
      stable). */
  function InsertDesc(ps: seq<KsPair>, x: KsPair): (r: seq<KsPair>)
    requires SortedDesc(ps)
    ensures |r| == |ps| + 1 && SortedDesc(r)
    ensures multiset(r) == multiset(ps) + multiset{x}
    ensures r[0] == x || (|ps| > 0 && r[0] == ps[0])
  {
    if |ps| == 0 then [x]
    else if ps[0].k < x.k then
      ConsSorted(x, ps);
      [x] + ps
    else
      assert SortedDesc(ps[1..]);
      var rest := InsertDesc(ps[1..], x);
      assert ps == [ps[0]] + ps[1..];
      ConsSorted(ps[0], rest);
      [ps[0]] + rest
  }

  lemma ConsSorted(h: KsPair, rest: seq<KsPair>)
    requires SortedDesc(rest) && (|rest| > 0 ==> h.k >= rest[0].k)
    ensures SortedDesc([h] + rest)
  {
    var r := [h] + rest;
    forall i, j | 0 <= i < j < |r|
      ensures r[i].k >= r[j].k
    {
      if i == 0 {
        assert r[j] == rest[j - 1];
      } else {
        assert r[i] == rest[i - 1] && r[j] == rest[j - 1];
      }
    }
  }

  /** Python's stable sort by K in descending order. */
  function SortDesc(ps: seq<KsPair>): (r: seq<KsPair>)
    ensures SortedDesc(r) && multiset(r) == multiset(ps) && |r| == |ps|
  {
    if |ps| == 0 then []
    else
      assert ps == ps[..|ps| - 1] + [ps[|ps| - 1]];
      InsertDesc(SortDesc(ps[..|ps| - 1]), ps[|ps| - 1])
  }

  predicate KsSegment(kc: real, ps: seq<KsPair>, i: int)
    requires 0 <= i < |ps| - 1
  {
    ps[i].k >= kc >= ps[i + 1].k
  }

  function KsScan(kc: real, ps: seq<KsPair>, i: nat): real
    requires i < |ps|
    decreases |ps| - i
  {
    if i >= |ps| - 1 then ps[|ps| - 1].ks
    else if ps[i].k >= kc >= ps[i + 1].k then Lerp(ps[i].k, ps[i].ks, ps[i + 1].k, ps[i + 1].ks, kc)
    else KsScan(kc, ps, i + 1)
  }

  /** The scan from i returns the interpolant on the first pair of rows
      from i on that brackets kc. */
  lemma {:induction false} KsScanFirst(kc: real, ps: seq<KsPair>, i: nat, j: nat)
    requires i <= j < |ps| - 1 && KsSegment(kc, ps, j)
    requires forall j' :: i <= j' < j ==> !KsSegment(kc, ps, j')
    ensures KsScan(kc, ps, i) == Lerp(ps[j].k, ps[j].ks, ps[j + 1].k, ps[j + 1].ks, kc)
    decreases j - i
  {
    if i < j {
      assert !KsSegment(kc, ps, i);
      KsScanFirst(kc, ps, i + 1, j);
    }
  }

  /** ks read off pairs sorted by descending K, clamped outside the range. */
  function Ks(kc: real, ps: seq<KsPair>): (r: real)
    requires |ps| >= 1
    ensures kc >= ps[0].k ==> r == ps[0].ks
    ensures kc < ps[0].k && kc <= ps[|ps| - 1].k ==> r == ps[|ps| - 1].ks
  {
    if kc >= ps[0].k then ps[0].ks
    else if kc <= ps[|ps| - 1].k then ps[|ps| - 1].ks
    else KsScan(kc, ps, 0)
  }

  lemma FirstKsSegment(kc: real, ps: seq<KsPair>, i: nat) returns (j: nat)
    requires |ps| >= 2 && i < |ps| - 1 && SortedDesc(ps)
    requires ps[i].k >= kc > ps[|ps| - 1].k
    ensures i <= j < |ps| - 1 && KsSegment(kc, ps, j)
    ensures forall j' :: i <= j' < j ==> !KsSegment(kc, ps, j')
    decreases |ps| - i
  {
    if kc >= ps[i + 1].k {
      j := i;
    } else {
      j := FirstKsSegment(kc, ps, i + 1);
    }
  }

  /** Strictly inside the chart's K range, ks lies between the ks values of
      the bracketing rows. */
  lemma KsBracketed(kc: real, ps: seq<KsPair>)
    requires |ps| >= 1 && SortedDesc(ps)
    requires ps[|ps| - 1].k < kc < ps[0].k
    ensures exists j :: 0 <= j < |ps| - 1 && KsSegment(kc, ps, j)
              && Between(Ks(kc, ps), ps[j].ks, ps[j + 1].ks)
  {
    var j := FirstKsSegment(kc, ps, 0);
    KsScanFirst(kc, ps, 0, j);
  }

  lemma MulLe(a: real, b: real, c: real)
    requires a <= b && c >= 0.0
    ensures a * c <= b * c
  {
    MulNonneg(b - a, c);
    assert (b - a) * c == b * c - a * c;
  }

  /** y0 + t * d does not fall as t rises, for d >= 0. */
  lemma AffineLe(y0: real, d: real, ta: real, tb: real)
    requires ta <= tb && d >= 0.0
    ensures y0 + ta * d <= y0 + tb * d
  {
    MulLe(ta, tb, d);
  }

  /** Along a falling segment x0 >= x >= x1, the interpolation fraction
      grows as x falls. */
  lemma FractionOrder(x0: real, x1: real, xa: real, xb: real)
    requires x1 <= xa <= xb <= x0 && x1 < x0
    ensures (xb - x0) / (x1 - x0) <= (xa - x0) / (x1 - x0)
  {
    var ta, tb := (xa - x0) / (x1 - x0), (xb - x0) / (x1 - x0);
    DivMulCancel(xa - x0, x1 - x0);
    DivMulCancel(xb - x0, x1 - x0);
    assert (ta - tb) * (x0 - x1) == xb - xa;
    NonnegFactor(ta - tb, x0 - x1);
  }

  /** On a segment from (x0, y0) down to x1 < x0 with y0 <= y1, the
      interpolant does not fall as x falls. */
  lemma LerpAntitone(x0: real, y0: real, x1: real, y1: real, xa: real, xb: real)
    requires x1 <= xa <= xb <= x0 && y0 <= y1
    ensures Lerp(x0, y0, x1, y1, xb) <= Lerp(x0, y0, x1, y1, xa)
  {
    if x1 != x0 {
      var d, ta, tb := y1 - y0, (xa - x0) / (x1 - x0), (xb - x0) / (x1 - x0);
      assert tb <= ta by { FractionOrder(x0, x1, xa, xb); }
      var la, lb := y0 + ta * d, y0 + tb * d;
      assert lb <= la by { AffineLe(y0, d, tb, ta); }
      assert Lerp(x0, y0, x1, y1, xb) == lb;
      assert Lerp(x0, y0, x1, y1, xa) == la;
    }
  }

  /** ks does not fall along the pairs (it rises as K falls). */
  predicate KsRising(ps: seq<KsPair>)
  {
    forall i, j :: 0 <= i < j < |ps| ==> ps[i].ks <= ps[j].ks
  }

  /** Every pair before the first segment holding kc lies above kc. */
  lemma {:induction false} AboveFirstSegment(kc: real, ps: seq<KsPair>, j: nat)
    requires j < |ps| - 1 && kc < ps[0].k
    requires forall j' :: 0 <= j' < j ==> !KsSegment(kc, ps, j')
    ensures forall j' :: 0 <= j' <= j ==> ps[j'].k > kc
  {
    if j > 0 {
      AboveFirstSegment(kc, ps, j - 1);
      assert !KsSegment(kc, ps, j - 1);
    }
  }

  /** With ks rising along the chart, ks lies between the first and the last
      pair's ks. */
  lemma KsRange(kc: real, ps: seq<KsPair>)
    requires |ps| >= 1 && SortedDesc(ps) && KsRising(ps)
    ensures ps[0].ks <= Ks(kc, ps) <= ps[|ps| - 1].ks
  {
    if ps[|ps| - 1].k < kc < ps[0].k {
      KsBracketed(kc, ps);
      var j :| 0 <= j < |ps| - 1 && KsSegment(kc, ps, j) && Between(Ks(kc, ps), ps[j].ks, ps[j + 1].ks);
      assert ps[0].ks <= ps[j].ks && ps[j + 1].ks <= ps[|ps| - 1].ks;
    }
  }

  /** ks is monotone in K: for a chart sorted by descending K whose ks rises
      as K falls, a smaller K never gives a smaller ks (rows with equal K
      included). */
  lemma KsMonotone(ps: seq<KsPair>, k1: real, k2: real)
    requires |ps| >= 1 && SortedDesc(ps) && KsRising(ps)
    requires k1 <= k2
    ensures Ks(k2, ps) <= Ks(k1, ps)
  {
    KsRange(k1, ps);
    KsRange(k2, ps);
    var last := |ps| - 1;
    if ps[last].k < k1 && k2 < ps[0].k {
      var j1 := FirstKsSegment(k1, ps, 0);
      var j2 := FirstKsSegment(k2, ps, 0);
      KsScanFirst(k1, ps, 0, j1);
      KsScanFirst(k2, ps, 0, j2);
      AboveFirstSegment(k2, ps, j2);
      assert ps[j1 + 1].k <= k1;
      assert j2 <= j1;
      if j2 < j1 {
        assert Between(k2, ps[j2].k, ps[j2 + 1].k);
        assert Between(k1, ps[j1].k, ps[j1 + 1].k);
        assert ps[j2 + 1].ks <= ps[j1].ks;
      } else {
        LerpAntitone(ps[j1].k, ps[j1].ks, ps[j1 + 1].k, ps[j1 + 1].ks, k1, k2);
      }
    }
  }

  /** When K equals the K of a chart row, the result is the ks of a row with
      that K (no interpolation error at a breakpoint). */
  lemma KsAtBreakpoint(ps: seq<KsPair>, k: nat)
    requires SortedDesc(ps) && k < |ps|
    ensures exists j :: 0 <= j < |ps| && ps[j].k == ps[k].k && Ks(ps[k].k, ps) == ps[j].ks
  {
    var kc := ps[k].k;
    var r := Ks(kc, ps);
    if kc >= ps[0].k {
      assert ps[0].k == kc;
    } else if kc <= ps[|ps| - 1].k {
      assert ps[|ps| - 1].k == kc;
    } else {
      assert 0 < k < |ps| - 1;
      var j := FirstKsSegment(kc, ps, 0);
      KsScanFirst(kc, ps, 0, j);
      assert KsSegment(kc, ps, k - 1);
      assert ps[j + 1].k == kc;
    }
  }

  /** The interpolation the source runs on its design chart: collect the
      (K, ks) pairs row by row, sort them by descending K, clamp, and scan for
      the bracketing pair. */
  method InterpKsFromK(kc: real, chart: seq<seq<real>>, ci: nat, si: nat) returns (ks: real)
    requires |chart| >= 1
    requires forall r :: 0 <= r < |chart| ==> ci < |chart[r]| && si < |chart[r]|
    ensures ks == Ks(kc, SortDesc(ChartPairs(chart, ci, si)))
  {
    var pairs := CollectPairs(chart, ci, si);
    ks := ScanPairs(kc, SortDesc(pairs));
  }

  /** The (K, ks) pairs of the chart, row by row. */
  method CollectPairs(chart: seq<seq<real>>, ci: nat, si: nat) returns (pairs: seq<KsPair>)
    requires forall r :: 0 <= r < |chart| ==> ci < |chart[r]| && si < |chart[r]|
    ensures pairs == ChartPairs(chart, ci, si)
  {
    pairs := [];
    for r := 0 to |chart|
      invariant pairs == ChartPairs(chart, ci, si)[..r]
    {
      pairs := pairs + [KsPair(chart[r][ci], chart[r][si])];
    }
  }

  /** The clamp and the scan for the bracketing pair over sorted pairs. */
  method ScanPairs(kc: real, ps: seq<KsPair>) returns (ks: real)
    requires |ps| >= 1
    ensures ks == Ks(kc, ps)
  {
    if kc >= ps[0].k {
      return ps[0].ks;
    }
    if kc <= ps[|ps| - 1].k {
      return ps[|ps| - 1].ks;
    }
    for i := 0 to |ps| - 1
      invariant KsScan(kc, ps, i) == KsScan(kc, ps, 0)
    {
      if ps[i].k >= kc >= ps[i + 1].k {
        return Lerp(ps[i].k, ps[i].ks, ps[i + 1].k, ps[i + 1].ks, kc);
      }
    }
    ks := ps[|ps| - 1].ks;
  }

  // ---------------------------------------------------------------------
  // Required steel area from the chart
  // ---------------------------------------------------------------------

  /** The chart's pairs for the given materials, sorted as the lookup sorts
      them. */
  function SortedChart(t: DesignTables, conc: string, steel: string): (ps: seq<KsPair>)
    requires ChartValid(t)
    ensures |ps| == |t.chart| >= 1 && SortedDesc(ps)
  {
    var ci := t.tabCol[ConcToTabCol(conc)];
    var si := t.tabCol[SteelToTabCol(steel)];
    SortDesc(ChartPairs(t.chart, ci, si))
  }

  /** K = 100 * b * d^2 / M with b = 1000 mm and M in Nmm. */
  function DesignK(d: real, mAbs: real): real
    requires mAbs > 0.0
  {
    100.0 * (1000.0 * (d * d)) / (mAbs * 1.0e6)
  }

  function EffectiveDepth(h: real, cover: real, dOverride: Option<real>): real
  {
    if dOverride.Some? then dOverride.value else h - cover
  }

  /** As = ks * M * 1000 / d: the area whose product with the depth is
      ks * M * 1000. */
  function AbacusArea(ks: real, mAbs: real, d: real): (a: real)
    requires d > 0.0
    ensures a * d == ks * mAbs * 1000.0
  {
    DivMulCancel(ks * mAbs * 1000.0, d);
    ks * mAbs * 1000.0 / d
  }

  /** Steel area (mm^2/m) for moment M (kNm/m): None without a moment, 0 for
      a non-positive moment, an error for a non-positive depth, otherwise
      As = ks * |M| * 1000 / d with ks read off the chart at K. */
  function AsFromAbacus(m: Option<real>, conc: string, steel: string, h: real, cover: real,
                        dOverride: Option<real>, t: DesignTables): (r: Result<Option<real>>)
    requires ChartValid(t)
    ensures m.None? ==> r == Ok(None)
    ensures m.Some? && m.value <= 0.0 ==> r == Ok(Some(0.0))
    ensures m.Some? && m.value > 0.0 ==> (r.Err? <==> EffectiveDepth(h, cover, dOverride) <= 0.0)
    ensures r.Ok? && r.value.Some? && m.Some? && m.value > 0.0 ==>
              var d := EffectiveDepth(h, cover, dOverride);
              r.value.value == AbacusArea(Ks(DesignK(d, m.value), SortedChart(t, conc, steel)), m.value, d)
  {
    if m.None? then Ok(None)
    else if m.value <= 0.0 then Ok(Some(0.0))
    else
      var d := EffectiveDepth(h, cover, dOverride);
      if d <= 0.0 then Err(NonPositiveDepth)
      else
        var mAbs := Abs(m.value);
        var k := DesignK(d, mAbs);
        var ks := Ks(k, SortedChart(t, conc, steel));
        Ok(Some(AbacusArea(ks, mAbs, d)))
  }

  lemma DivMulCancel(a: real, d: real)
    requires d != 0.0
    ensures (a / d) * d == a
  {
  }

  /** A larger moment on the same section gives a smaller chart parameter K. */
  lemma DesignKDecreasing(d: real, m1: real, m2: real)
    requires d > 0.0 && 0.0 < m1 < m2
    ensures DesignK(d, m2) < DesignK(d, m1)
  {
    QuotientDecreasing(d, d, m1, m2);
  }

  /** DesignK's quotient, written over a product of two depths (the square
      d * d is then an instance). */
  lemma QuotientDecreasing(d: real, e: real, m1: real, m2: real)
    requires d > 0.0 && e > 0.0 && 0.0 < m1 < m2
    ensures 100.0 * (1000.0 * (d * e)) / (m2 * 1.0e6) < 100.0 * (1000.0 * (d * e)) / (m1 * 1.0e6)
  {
    MulPos(d, e);
    DivDecreasing(100.0 * (1000.0 * (d * e)), m1 * 1.0e6, m2 * 1.0e6);
  }

  lemma MulPos(a: real, b: real)
    requires a > 0.0 && b > 0.0
    ensures a * b > 0.0
  {
  }

  lemma DivDecreasing(a: real, x: real, y: real)
    requires a > 0.0 && 0.0 < x < y
    ensures a / y < a / x
  {
    var p, q := a / y, a / x;
    assert p * y == a && q * x == a;
    PosFactor(p, y);
    MulPos(p, y - x);
    assert p * y - p * x == p * (y - x);
    assert (q - p) * x == a - p * x;
    assert a - p * x > 0.0;
    PosFactor(q - p, x);
  }

  // ---------------------------------------------------------------------
  // Bar catalogue
  // ---------------------------------------------------------------------

  /** 250 * pi: steel area per metre is AreaConst * phi^2 / s. */
  const AreaConst: real := 250.0 * Pi

  lemma MulPosInt(a: int, b: int)
    requires a != 0 && a == b
    ensures a * b > 0
  {
  }

  /** mm^2 of steel per metre for bars of diameter phi at spacing s: one bar
      section pi*phi^2/4 times 1000/s bars per metre. */
  function AreaPerM(phi: int, s: int): (a: real)
    requires s > 0
    ensures phi != 0 ==> a > 0.0
  {
    var ab := Pi * (phi * phi) as real / 4.0;
    var w := 1000.0 / s as real;
    assert phi != 0 ==> ab * w > 0.0 by {
      if phi != 0 {
        MulPosInt(phi, phi);
        MulPos(ab, w);
      }
    }
    ab * w
  }

  /** The area times the spacing is 250 pi phi^2, whatever the spacing. */
  lemma AreaPerMCross(phi: int, s: int)
    requires s > 0
    ensures AreaPerM(phi, s) * s as real == AreaConst * (phi * phi) as real
  {
    var ab := Pi * (phi * phi) as real / 4.0;
    var w := 1000.0 / s as real;
    assert w * s as real == 1000.0;
    assert (ab * w) * s as real == ab * (w * s as real);
  }

  /** Doubling the spacing halves the area. */
  lemma AreaPerMDoubleSpacing(phi: int, s: int)
    requires s > 0
    ensures AreaPerM(phi, 2 * s) == AreaPerM(phi, s) / 2.0
  {
    var a1, a2 := AreaPerM(phi, s), AreaPerM(phi, 2 * s);
    var sr := s as real;
    assert a2 * (2.0 * sr) == a1 * sr;
    assert (2.0 * a2 - a1) * sr == 0.0;
    ZeroFactor(2.0 * a2 - a1, sr);
  }

  /** A larger spacing gives a strictly smaller area. */
  lemma AreaPerMSpacingDecreasing(phi: int, s1: int, s2: int)
    requires phi != 0 && 0 < s1 < s2
    ensures AreaPerM(phi, s2) < AreaPerM(phi, s1)
  {
    var a1, a2 := AreaPerM(phi, s1), AreaPerM(phi, s2);
    var r1, r2 := s1 as real, s2 as real;
    assert a1 * r1 == a2 * r2;
    MulPos(a2, r2 - r1);
    assert (a1 - a2) * r1 == a2 * (r2 - r1);
    PosFactor(a1 - a2, r1);
  }

  lemma CastMul(x: int, y: int)
    ensures (x * y) as real == x as real * y as real
  {
  }

  lemma CrossDifference(a1: real, a2: real, s1: real, s2: real, c1: real, c2: real)
    requires a1 * s1 == c1 && a2 * s2 == c2
    ensures (a1 - a2) * (s1 * s2) == c1 * s2 - c2 * s1
  {
    calc {
      (a1 - a2) * (s1 * s2);
      == (a1 * s1) * s2 - (a2 * s2) * s1;
      == c1 * s2 - c2 * s1;
    }
  }

  lemma SpacingProductBound(s1: real, s2: real)
    requires 0.0 < s1 <= 10000.0 && 0.0 < s2 <= 10000.0
    ensures 0.0 < s1 * s2 <= 100000000.0
  {
    MulPos(s1, s2);
    MulNonneg(10000.0 - s1, s2);
    MulNonneg(10000.0 - s2, 10000.0);
  }

  /** The step of the gap argument: d * q = AreaConst * n with n >= 1 and
      0 < q <= 10^8 forces d > Eps. */
  lemma GapFromCross(d: real, q: real, n: real)
    requires 0.0 < q <= 100000000.0 && n >= 1.0
    requires d * q == AreaConst * n
    ensures d > Eps
  {
    MulNonneg(AreaConst, n - 1.0);
    assert d * q >= 785.0;
    assert Eps * q <= 0.1 by { MulNonneg(Eps, 100000000.0 - q); }
    assert (d - Eps) * q == d * q - Eps * q;
    PosFactor(d - Eps, q);
  }

  /** d * q = AreaConst * n for an integer n and 0 < q <= 10^8: d is zero or
      further than the tolerance from it. */
  lemma GapSigned(d: real, q: real, n: int)
    requires 0.0 < q <= 100000000.0
    requires d * q == AreaConst * n as real
    ensures d == 0.0 || Abs(d) > Eps
  {
    if n == 0 {
      ZeroFactor(d, q);
    } else if n > 0 {
      GapFromCross(d, q, n as real);
    } else {
      NegateProduct(d, q, AreaConst, n as real);
      GapFromCross(-d, q, (-n) as real);
    }
  }

  lemma NegateProduct(d: real, q: real, c: real, m: real)
    requires d * q == c * m
    ensures (-d) * q == c * (-m)
  {
  }

  /** The cross-multiplied difference of two areas is AreaConst times an
      integer. */
  lemma CrossIsIntegral(p1: int, s1: int, p2: int, s2: int)
    requires 0 < s1 && 0 < s2
    ensures (AreaPerM(p1, s1) - AreaPerM(p2, s2)) * (s1 as real * s2 as real)
         == AreaConst * (p1 * p1 * s2 - p2 * p2 * s1) as real
  {
    var q1, q2 := (p1 * p1) as real, (p2 * p2) as real;
    CrossDifference(AreaPerM(p1, s1), AreaPerM(p2, s2), s1 as real, s2 as real, AreaConst * q1, AreaConst * q2);
    CastMul(p1 * p1, s2);
    CastMul(p2 * p2, s1);
    ScaleDifference(AreaConst, q1, s2 as real, q2, s1 as real);
  }

  lemma ScaleDifference(c: real, x1: real, y1: real, x2: real, y2: real)
    ensures (c * x1) * y1 - (c * x2) * y2 == c * (x1 * y1 - x2 * y2)
  {
  }

  /** Two catalogue areas are equal or differ by more than the tolerance.
      With integer diameters and spacings of at most MaxCatalogueSpacing mm,
      (a1 - a2) * s1 * s2 = AreaConst * (p1^2 s2 - p2^2 s1) is AreaConst times
      an integer, so distinct areas differ by at least AreaConst / 10^8. */
  lemma AreaGap(p1: int, s1: int, p2: int, s2: int)
    requires 0 < s1 <= MaxCatalogueSpacing && 0 < s2 <= MaxCatalogueSpacing
    ensures AreaPerM(p1, s1) == AreaPerM(p2, s2) || Abs(AreaPerM(p1, s1) - AreaPerM(p2, s2)) > Eps
  {
    CrossIsIntegral(p1, s1, p2, s2);
    SpacingProductBound(s1 as real, s2 as real);
    GapSigned(AreaPerM(p1, s1) - AreaPerM(p2, s2), s1 as real * s2 as real, p1 * p1 * s2 - p2 * p2 * s1);
  }

  /** A (phi, s) pair the search may use: from the catalogues, within the
      diameter range and the spacing cap (catalogue spacings are positive). */
  predicate Admissible(t: DesignTables, phi: int, s: int, sMax: int, phiMin: int, phiMax: int)
  {
    phi in t.phiList && phiMin <= phi <= phiMax && s in t.sList && 0 < s <= sMax
  }

  /** The pair provides the required area, within the tolerance. */
  predicate Meets(phi: int, s: int, asReq: real)
    requires s > 0
  {
    AreaPerM(phi, s) + Eps >= asReq
  }

  /** The choice the search records for a pair. */
  function Candidate(phi: int, s: int): RebarChoice
    requires s > 0
  {
    RebarChoice(phi, s, AreaPerM(phi, s))
  }

  /** A choice the search may return. */
  predicate Fits(t: DesignTables, c: RebarChoice, asReq: real, sMax: int, phiMin: int, phiMax: int)
  {
    Admissible(t, c.phi, c.s, sMax, phiMin, phiMax) && c == Candidate(c.phi, c.s) && Meets(c.phi, c.s, asReq)
  }

  ghost predicate SomeCandidate(t: DesignTables, asReq: real, sMax: int, phiMin: int, phiMax: int)
  {
    exists phi, s :: Admissible(t, phi, s, sMax, phiMin, phiMax) && Meets(phi, s, asReq)
  }

  /** c is at least as good as d for the search: no larger area, and no
      smaller spacing when the areas are equal. */
  predicate NoWorse(c: RebarChoice, d: RebarChoice)
  {
    c.area <= d.area && (c.area == d.area ==> c.s >= d.s)
  }

  /** The search's update of its running best with a candidate that meets
      the requirement: take it when its area is smaller by more than the
      tolerance, or equal within the tolerance with a larger spacing. When the
      two areas are equal or further apart than the tolerance, the result is
      no worse than either. */
  function Update(best: Option<RebarChoice>, cand: RebarChoice): (r: Option<RebarChoice>)
    ensures r.Some? && (r.value == cand || (best.Some? && r.value == best.value))
    ensures best.None? ==> r == Some(cand)
    ensures best.Some? && (best.value.area == cand.area || Abs(best.value.area - cand.area) > Eps) ==>
              NoWorse(r.value, best.value) && NoWorse(r.value, cand)
  {
    if best.None? then Some(cand)
    else if cand.area < best.value.area - Eps then Some(cand)
    else if Abs(cand.area - best.value.area) < Eps && cand.s > best.value.s then Some(cand)
    else best
  }

  predicate Covered(best: Option<RebarChoice>, phi: int, s: int)
    requires s > 0
  {
    best.Some? && NoWorse(best.value, Candidate(phi, s))
  }

  /** The catalogue search: the admissible pair of least area that meets the
      requirement, the larger spacing among pairs of equal area; None exactly
      when no admissible pair meets it. */
  method SelectRebarMinArea(t: DesignTables, asReq: real, sMax: int, phiMin: int, phiMax: int)
    returns (best: Option<RebarChoice>)
    requires CatalogueValid(t)
    ensures best.Some? ==> Fits(t, best.value, asReq, sMax, phiMin, phiMax)
    ensures best.None? <==> !SomeCandidate(t, asReq, sMax, phiMin, phiMax)
    ensures best.Some? ==>
              forall phi, s :: (Admissible(t, phi, s, sMax, phiMin, phiMax) && Meets(phi, s, asReq)
                ==> NoWorse(best.value, Candidate(phi, s)))
  {
    var phis, ss := t.phiList, t.sList;
    best := None;
    for pi := 0 to |phis|
      invariant best.Some? ==> Fits(t, best.value, asReq, sMax, phiMin, phiMax)
      invariant forall a, b :: 0 <= a < pi && 0 <= b < |ss|
                  && Admissible(t, phis[a], ss[b], sMax, phiMin, phiMax) && Meets(phis[a], ss[b], asReq)
                  ==> Covered(best, phis[a], ss[b])
    {
      var phi := phis[pi];
      if phi < phiMin || phi > phiMax {
        continue;
      }
      best := SelectInRow(t, phi, asReq, sMax, phiMin, phiMax, best);
    }
    forall phi, s | Admissible(t, phi, s, sMax, phiMin, phiMax) && Meets(phi, s, asReq)
      ensures Covered(best, phi, s)
    {
      var a :| 0 <= a < |phis| && phis[a] == phi;
      var b :| 0 <= b < |ss| && ss[b] == s;
    }
  }

  /** The inner loop of the search, over the spacings for one diameter phi
      of the catalogue: the running best only gets better, and it covers
      every pair of this row that meets the requirement. */
  method SelectInRow(t: DesignTables, phi: int, asReq: real, sMax: int, phiMin: int, phiMax: int,
                     best0: Option<RebarChoice>)
    returns (best: Option<RebarChoice>)
    requires CatalogueValid(t) && phi in t.phiList && phiMin <= phi <= phiMax
    requires best0.Some? ==> Fits(t, best0.value, asReq, sMax, phiMin, phiMax)
    ensures best.Some? ==> Fits(t, best.value, asReq, sMax, phiMin, phiMax)
    ensures best0.Some? ==> best.Some? && NoWorse(best.value, best0.value)
    ensures forall b :: (0 <= b < |t.sList| && Admissible(t, phi, t.sList[b], sMax, phiMin, phiMax)
                         && Meets(phi, t.sList[b], asReq)) ==> Covered(best, phi, t.sList[b])
  {
    var ss := t.sList;
    best := best0;
    for si := 0 to |ss|
      invariant best.Some? ==> Fits(t, best.value, asReq, sMax, phiMin, phiMax)
      invariant best0.Some? ==> best.Some? && NoWorse(best.value, best0.value)
      invariant forall b :: (0 <= b < si && Admissible(t, phi, ss[b], sMax, phiMin, phiMax)
                             && Meets(phi, ss[b], asReq)) ==> Covered(best, phi, ss[b])
    {
      var s := ss[si];
      if s > sMax {
        continue;
      }
      var area := AreaPerM(phi, s);
      if area + Eps >= asReq {
        var cand := RebarChoice(phi, s, area);
        if best.Some? {
          AreaGap(phi, s, best.value.phi, best.value.s);
        }
        best := Update(best, cand);
      }
    }
  }

  /** c is what the catalogue search returns for these arguments: None
      exactly when no admissible pair meets the requirement, otherwise an
      admissible pair meeting it that is no worse than any other. */
  ghost predicate IsSelection(t: DesignTables, c: Option<RebarChoice>, asReq: real, sMax: int, phiMin: int, phiMax: int)
  {
    && (c.None? <==> !SomeCandidate(t, asReq, sMax, phiMin, phiMax))
    && (c.Some? ==> Fits(t, c.value, asReq, sMax, phiMin, phiMax))
    && (c.Some? ==> forall phi, s :: (Admissible(t, phi, s, sMax, phiMin, phiMax) && Meets(phi, s, asReq)
                      ==> NoWorse(c.value, Candidate(phi, s))))
  }

  /** mx is the largest area any admissible pair provides, 0 when none is
      admissible. */
  ghost predicate IsMaxArea(t: DesignTables, mx: real, sMax: int, phiMin: int, phiMax: int)
  {
    && mx >= 0.0
    && (forall phi, s :: Admissible(t, phi, s, sMax, phiMin, phiMax) ==> AreaPerM(phi, s) <= mx)
    && (mx == 0.0 || exists phi, s :: Admissible(t, phi, s, sMax, phiMin, phiMax) && mx == AreaPerM(phi, s))
  }

  method MaxPossibleArea(t: DesignTables, sMax: int, phiMin: int, phiMax: int) returns (mx: real)
    requires CatalogueValid(t)
    ensures IsMaxArea(t, mx, sMax, phiMin, phiMax)
    ensures mx > 0.0 <==> exists phi, s :: Admissible(t, phi, s, sMax, phiMin, phiMax)
  {
    var phis, ss := t.phiList, t.sList;
    mx := 0.0;
    ghost var wp, ws := 0, 1;
    for pi := 0 to |phis|
      invariant mx >= 0.0
      invariant mx != 0.0 ==> Admissible(t, wp, ws, sMax, phiMin, phiMax) && mx == AreaPerM(wp, ws)
      invariant forall a, b :: 0 <= a < pi && 0 <= b < |ss| && Admissible(t, phis[a], ss[b], sMax, phiMin, phiMax)
                  ==> 0.0 < AreaPerM(phis[a], ss[b]) <= mx
    {
      var phi := phis[pi];
      if phi < phiMin || phi > phiMax {
        continue;
      }
      mx, wp, ws := MaxInRow(t, phi, sMax, phiMin, phiMax, mx, wp, ws);
    }
    forall phi, s | Admissible(t, phi, s, sMax, phiMin, phiMax)
      ensures 0.0 < AreaPerM(phi, s) <= mx
    {
      var a :| 0 <= a < |phis| && phis[a] == phi;
      var b :| 0 <= b < |ss| && ss[b] == s;
    }
  }

  /** The inner loop of MaxPossibleArea, over the spacings for one diameter
      phi: the running maximum only grows, stays the area of an admissible
      pair (wp, ws), and bounds every admissible pair of this row. */
  method MaxInRow(t: DesignTables, phi: int, sMax: int, phiMin: int, phiMax: int,
                  mx0: real, ghost wp0: int, ghost ws0: int)
    returns (mx: real, ghost wp: int, ghost ws: int)
    requires CatalogueValid(t) && phi in t.phiList && phiMin <= phi <= phiMax
    requires mx0 >= 0.0
    requires mx0 != 0.0 ==> Admissible(t, wp0, ws0, sMax, phiMin, phiMax) && mx0 == AreaPerM(wp0, ws0)
    ensures mx >= mx0
    ensures mx != 0.0 ==> Admissible(t, wp, ws, sMax, phiMin, phiMax) && mx == AreaPerM(wp, ws)
    ensures forall b :: (0 <= b < |t.sList| && Admissible(t, phi, t.sList[b], sMax, phiMin, phiMax))
                        ==> 0.0 < AreaPerM(phi, t.sList[b]) <= mx
  {
    var ss := t.sList;
    mx, wp, ws := mx0, wp0, ws0;
    for si := 0 to |ss|
      invariant mx >= mx0
      invariant mx != 0.0 ==> Admissible(t, wp, ws, sMax, phiMin, phiMax) && mx == AreaPerM(wp, ws)
      invariant forall b :: (0 <= b < si && Admissible(t, phi, ss[b], sMax, phiMin, phiMax))
                            ==> 0.0 < AreaPerM(phi, ss[b]) <= mx
    {
      var s := ss[si];
      if s > sMax {
        continue;
      }
      var area := AreaPerM(phi, s);
      if area > mx {
        wp, ws := phi, s;
      }
      mx := Max(mx, area);
    }
  }

  /** When some pair is admissible, the search fails exactly when even the
      largest admissible area falls short of the requirement by more than the
      tolerance. */
  lemma SelectFailsIffMaxTooSmall(t: DesignTables, asReq: real, sMax: int, phiMin: int, phiMax: int, mx: real)
    requires CatalogueValid(t) && IsMaxArea(t, mx, sMax, phiMin, phiMax)
    requires exists phi, s :: Admissible(t, phi, s, sMax, phiMin, phiMax)
    ensures !SomeCandidate(t, asReq, sMax, phiMin, phiMax) <==> mx + Eps < asReq
  {
    var p0, s0 :| Admissible(t, p0, s0, sMax, phiMin, phiMax);
    assert AreaPerM(p0, s0) > 0.0;
    assert mx > 0.0;
    var pm, sm :| Admissible(t, pm, sm, sMax, phiMin, phiMax) && mx == AreaPerM(pm, sm);
    if mx + Eps >= asReq {
      assert Meets(pm, sm, asReq);
    }
  }

  /** Main bars split into straight and bent-up bars of the same diameter at
      twice the spacing, each carrying half the area. */
  function SplitDuzPilye(c: RebarChoice): (r: (RebarChoice, RebarChoice))
    ensures r.0 == r.1
    ensures r.0.phi == c.phi && r.0.s == 2 * c.s
    ensures r.0.area + r.1.area == c.area
    ensures c.s > 0 && c.area == AreaPerM(c.phi, c.s) ==> r.0.area == AreaPerM(c.phi, r.0.s)
  {
    var half := RebarChoice(c.phi, c.s * 2, c.area / 2.0);
    assert c.s > 0 ==> AreaPerM(c.phi, 2 * c.s) == AreaPerM(c.phi, c.s) / 2.0 by {
      if c.s > 0 { AreaPerMDoubleSpacing(c.phi, c.s); }
    }
    (half, half)
  }

  // ---------------------------------------------------------------------
  // Constructive rules
  // ---------------------------------------------------------------------

  function RhoMinOneway(steel: string): (rho: real)
    ensures rho == 0.002 <==> steel == "B420C" || steel == "B500C"
    ensures rho == 0.002 || rho == 0.003
  {
    if steel == "B420C" || steel == "B500C" then 0.002 else 0.003
  }

  /** Main-bar spacing cap: 1.5 h truncated, at most 200 mm. */
  function OnewaySmaxMain(h: real): (s: int)
    ensures s <= 200
    ensures h >= 0.0 ==> 0 <= s && s as real <= 1.5 * h
    ensures 1.5 * h < 200.0 ==> 1.5 * h < s as real + 1.0
    ensures 1.5 * h >= 200.0 ==> s == 200
  {
    Trunc(Min(1.5 * h, 200.0))
  }

  function OnewaySmaxDist(): (s: int)
    ensures s == 300
  {
    300
  }

  /** Short-direction spacing cap of a two-way panel: 1.5 h truncated, at most 200 mm. */
  function TwowaySmaxShort(h: real): (s: int)
    ensures s <= 200
    ensures h >= 0.0 ==> 0 <= s && s as real <= 1.5 * h
    ensures 1.5 * h < 200.0 ==> 1.5 * h < s as real + 1.0
    ensures 1.5 * h >= 200.0 ==> s == 200
  {
    Trunc(Min(1.5 * h, 200.0))
  }

  /** Long-direction spacing cap of a two-way panel: 1.5 h truncated, at most 250 mm. */
  function TwowaySmaxLong(h: real): (s: int)
    ensures s <= 250 && s >= TwowaySmaxShort(h)
    ensures h >= 0.0 ==> 0 <= s && s as real <= 1.5 * h
    ensures 1.5 * h < 250.0 ==> 1.5 * h < s as real + 1.0
    ensures 1.5 * h >= 250.0 ==> s == 250
  {
    Trunc(Min(1.5 * h, 250.0))
  }

  /** Minimum distribution-bar area by steel grade. */
  function AsbMinArea(steel: string): (a: real)
    ensures a > 0.0
    ensures steel == "B500C" ==> a == AreaPerM(5, 150)
    ensures steel == "B420C" ==> a == AreaPerM(8, 300)
    ensures steel != "B500C" && steel != "B420C" ==> a == AreaPerM(8, 200)
  {
    if steel == "B500C" then AreaPerM(5, 150)
    else if steel == "B420C" then AreaPerM(8, 300)
    else AreaPerM(8, 200)
  }
}
