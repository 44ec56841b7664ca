/** The lookup tables the engine reads from its constants module: the
    two-way moment coefficient table, the design chart (K and ks columns per
    material grade) and the bar catalogue. They are parameters of the model;
    the predicates below are the well-formedness the engine relies on. */
module Tables {
  import opened Common

  /** One boundary case of the two-way coefficient table: the short-direction
      coefficients are tabulated against the aspect-ratio breakpoints, the
      long-direction ones are single values; None marks "not applicable". */
  datatype AlphaRow = AlphaRow(
    shortNeg: Option<seq<real>>,
    shortPos: Option<seq<real>>,
    longNeg: Option<real>,
    longPos: Option<real>)

  datatype DesignTables = DesignTables(
    mPoints: seq<real>,          // aspect-ratio breakpoints
    alpha: map<int, AlphaRow>,   // coefficient row per boundary case
    chart: seq<seq<real>>,       // design chart rows, in row-number order
    tabCol: map<string, nat>,    // chart column index per grade name
    phiList: seq<int>,           // bar diameters, mm
    sList: seq<int>)             // bar spacings, mm

  /** The largest spacing the catalogue may hold, in mm (10 m). */
  const MaxCatalogueSpacing: int := 10000

  predicate StrictlyIncreasing(xs: seq<real>)
  {
    forall i, j :: 0 <= i < j < |xs| ==> xs[i] < xs[j]
  }

  predicate RowFits(row: AlphaRow, n: nat)
  {
    && (row.shortNeg.Some? ==> |row.shortNeg.value| == n)
    && (row.shortPos.Some? ==> |row.shortPos.value| == n)
  }

  /** The breakpoints increase strictly, every case 1..7 has a row, and every
      tabulated list has one value per breakpoint. */
  predicate AlphaValid(t: DesignTables)
  {
    && |t.mPoints| >= 1
    && StrictlyIncreasing(t.mPoints)
    && (forall c :: 1 <= c <= 7 ==> c in t.alpha)
    && (forall c :: c in t.alpha ==> RowFits(t.alpha[c], |t.mPoints|))
  }

  /** The grade names the engine maps materials to. */
  predicate HasColumns(tabCol: map<string, nat>)
  {
    "C25" in tabCol && "C30" in tabCol && "C35" in tabCol && "C40" in tabCol
    && "S420" in tabCol && "B500" in tabCol
  }

  predicate ColumnsFit(tabCol: map<string, nat>, row: seq<real>)
    requires HasColumns(tabCol)
  {
    && tabCol["C25"] < |row| && tabCol["C30"] < |row| && tabCol["C35"] < |row|
    && tabCol["C40"] < |row| && tabCol["S420"] < |row| && tabCol["B500"] < |row|
  }

  predicate ChartValid(t: DesignTables)
  {
    && |t.chart| >= 1
    && HasColumns(t.tabCol)
    && (forall r :: 0 <= r < |t.chart| ==> ColumnsFit(t.tabCol, t.chart[r]))
  }

  /** Non-empty catalogues of positive diameters and of spacings in
      1..MaxCatalogueSpacing mm. */
  predicate CatalogueValid(t: DesignTables)
  {
    && |t.phiList| >= 1
    && |t.sList| >= 1
    && (forall k :: 0 <= k < |t.phiList| ==> t.phiList[k] > 0)
    && (forall k :: 0 <= k < |t.sList| ==> 0 < t.sList[k] <= MaxCatalogueSpacing)
  }

  predicate Valid(t: DesignTables)
  {
    AlphaValid(t) && ChartValid(t) && CatalogueValid(t)
  }
}
