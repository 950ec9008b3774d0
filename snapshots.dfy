/** A per-country snapshot table: what `filter_df(table_with_projections())`
    hands the news notebook, one row per country, for the current date or
    for ten days earlier. The projection estimator that fills the columns is
    not part of this model; its columns are inputs here. */
module Snapshots {
  import opened Missing
  import opened Sorting

  type Country = string

  /** The columns the news classifier reads. Each cell may be NaN. */
  datatype Row = Row(
    infectionRate: Option<real>,   // `infection_rate`, estimated daily transmission rate
    growthRateStd: Option<real>,   // `growth_rate_std`, its standard deviation
    needIcuPer100k: Option<real>,  // `needICU.per100k`
    casesNewEst: Option<real>,     // `Cases.new.est`, estimated recent cases
    casesTotalEst: Option<real>,   // `Cases.total.est`
    casesTotal: Option<real>,      // `Cases.total`, reported
    deathsTotal: Option<real>,     // `Deaths.total`
    casesNew: Option<real>,        // `Cases.new`
    deathsNew: Option<real>)       // `Deaths.new`

  /** A data frame indexed by country: the index in its order, and the row of
      each label. */
  datatype Snapshot = Snapshot(index: seq<Country>, rows: map<Country, Row>)

  /** A frame's index lists each of its rows exactly once. */
  ghost predicate WellFormed(s: Snapshot)
  {
    Distinct(s.index) && forall c :: c in s.index <==> c in s.rows
  }

  datatype Column =
    | InfectionRate | GrowthRateStd | NeedIcuPer100k | CasesNewEst | CasesTotalEst
    | CasesTotal | DeathsTotal | CasesNew | DeathsNew

  function Field(r: Row, col: Column): Option<real>
  {
    match col
    case InfectionRate => r.infectionRate
    case GrowthRateStd => r.growthRateStd
    case NeedIcuPer100k => r.needIcuPer100k
    case CasesNewEst => r.casesNewEst
    case CasesTotalEst => r.casesTotalEst
    case CasesTotal => r.casesTotal
    case DeathsTotal => r.deathsTotal
    case CasesNew => r.casesNew
    case DeathsNew => r.deathsNew
  }

  /** `s[col]` read at label c once aligned with another series: a label the
      frame does not have reads as NaN. */
  function Cell(s: Snapshot, c: Country, col: Column): Option<real>
  {
    if c in s.rows then Field(s.rows[c], col) else None
  }

  /** `s[col]` as a series keyed by country. */
  function ColumnOf(s: Snapshot, col: Column): map<Country, Option<real>>
  {
    map c | c in s.rows :: Field(s.rows[c], col)
  }

  /** `idx[~idx.isin(keys)]`: the labels of idx outside keys, in idx's order. */
  function NotIn(idx: seq<Country>, keys: set<Country>): (r: seq<Country>)
    ensures forall c :: c in r <==> c in idx && c !in keys
    ensures Distinct(idx) ==> Distinct(r)
  {
    if idx == [] then []
    else
      var rest := NotIn(idx[1..], keys);
      DistinctTail(idx);
      if idx[0] in keys then rest
      else
        DistinctCons(idx[0], rest);
        [idx[0]] + rest
  }

  /** The index of `a[col] - b[col]`: pandas aligns the two series on the
      union of their labels. Here: a's labels, then b's labels a lacks. */
  function AlignedIndex(a: Snapshot, b: Snapshot): (r: seq<Country>)
    ensures WellFormed(a) && WellFormed(b) ==>
      Distinct(r) && forall c :: c in r <==> c in a.rows || c in b.rows
  {
    var extra := NotIn(b.index, a.rows.Keys);
    DistinctAppend(a.index, extra);
    a.index + extra
  }

  lemma DistinctAppend(x: seq<Country>, y: seq<Country>)
    ensures Distinct(x) && Distinct(y) && (forall c :: c in x ==> c !in y) ==> Distinct(x + y)
  {
    if Distinct(x) && Distinct(y) && (forall c :: c in x ==> c !in y) {
      assert multiset(x + y) == multiset(x) + multiset(y);
      forall c ensures multiset(x + y)[c] <= 1 {
        if c in x {
          assert c !in multiset(y);
        }
      }
    }
  }

  /** `series[mask]` as (label, value) pairs, in idx's order: the labels of
      idx whose mask holds. pandas would keep a NaN value where the mask
      holds; this model drops it instead, and since every ranked news mask
      already implies a known change (`News.MaskedNeedsBothSnapshots`), no
      group loses a country by it. */
  function Masked(idx: seq<Country>, values: Country -> Option<real>, mask: Country -> bool): (r: seq<(Country, real)>)
    ensures forall e | e in r :: mask(e.0) && values(e.0) == Some(e.1)
    ensures forall c :: c in Labels(r) <==> c in idx && mask(c) && values(c).Some?
  {
    if idx == [] then []
    else
      var rest := Masked(idx[1..], values, mask);
      var c := idx[0];
      if mask(c) && values(c).Some? then
        LabelsCons((c, values(c).value), rest);
        [(c, values(c).value)] + rest
      else rest
  }

  lemma {:induction false} MaskedDistinct(idx: seq<Country>, values: Country -> Option<real>, mask: Country -> bool)
    requires Distinct(idx)
    ensures Distinct(Labels(Masked(idx, values, mask)))
  {
    if idx != [] {
      DistinctTail(idx);
      MaskedDistinct(idx[1..], values, mask);
      var rest := Masked(idx[1..], values, mask);
      var c := idx[0];
      if mask(c) && values(c).Some? {
        LabelsCons((c, values(c).value), rest);
        DistinctCons(c, Labels(rest));
      }
    }
  }

  /** Filtering then sorting lists exactly the labels whose mask holds and
      whose value is known. */
  lemma SortedMaskedMembership(idx: seq<Country>, values: Country -> Option<real>, mask: Country -> bool,
                               ascending: bool, c: Country)
    ensures c in Labels(SortValues(Masked(idx, values, mask), ascending)) <==>
      c in idx && mask(c) && values(c).Some?
  {
    SortKeepsLabels(Masked(idx, values, mask), ascending);
  }

  /** After filtering and sorting, each label still carries its own value. */
  lemma SortedMaskedValue(idx: seq<Country>, values: Country -> Option<real>, mask: Country -> bool,
                          ascending: bool, i: int)
    requires 0 <= i < |SortValues(Masked(idx, values, mask), ascending)|
    ensures var e := SortValues(Masked(idx, values, mask), ascending)[i]; values(e.0) == Some(e.1)
  {
    var m := Masked(idx, values, mask);
    SortedPairsFromInput(m, ascending, i);
    assert SortValues(m, ascending)[i] in m;
  }

  /** `frame.loc[mask].index`: the labels of idx whose mask holds, in
      index order. */
  function Where(idx: seq<Country>, mask: Country -> bool): (r: seq<Country>)
    ensures forall c :: c in r <==> c in idx && mask(c)
    ensures Distinct(idx) ==> Distinct(r)
  {
    if idx == [] then []
    else
      var rest := Where(idx[1..], mask);
      DistinctTail(idx);
      if mask(idx[0]) then
        DistinctCons(idx[0], rest);
        [idx[0]] + rest
      else rest
  }
}
