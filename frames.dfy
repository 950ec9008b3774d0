/** The two places where the news notebook changes data in place: the
    masked clamp of the optimistic rates, and the comparison table that
    gains the past columns one assignment at a time. */
module Frames {
  import opened Missing
  import opened Snapshots
  import News

  /** A pandas series keyed by country, whose cells can be assigned. */
  class Series {
    var cells: map<Country, Option<real>>

    constructor (cells: map<Country, Option<real>>)
      ensures this.cells == cells
    {
      this.cells := cells;
    }

    /** `s[s < 0] = 0`: negative cells become zero. Missing cells fail the
        mask and are left alone. */
    method ClampNegative()
      modifies this
      ensures cells.Keys == old(cells).Keys
      ensures forall c :: c in cells ==> cells[c] == Clamped(old(cells)[c])
      ensures forall c :: c in cells && cells[c].Some? ==> cells[c].value >= 0.0
    {
      cells := map c | c in cells :: if Lt(cells[c], 0.0) then Some(0.0) else cells[c];
    }
  }

  /** `s['infection_rate'] - s['growth_rate_std']`, then clamped in place:
      the optimistic rate of every country of the snapshot. */
  method OptimisticRates(s: Snapshot) returns (rates: Series)
    ensures fresh(rates)
    ensures rates.cells.Keys == s.rows.Keys
    ensures forall c :: c in rates.cells ==> rates.cells[c] == News.OptimisticRate(s, c)
    ensures forall c :: c in rates.cells && rates.cells[c].Some? ==> rates.cells[c].value >= 0.0
  {
    rates := new Series(map c | c in s.rows :: Sub(s.rows[c].infectionRate, s.rows[c].growthRateStd));
    rates.ClampNegative();
  }

  /** The columns the comparison table takes from the past snapshot. */
  datatype PastColumn = InfectionRatePast | InfectionRatePastErr | NeedIcuPast

  /** `series.reindex(keys)`: a value for every key, NaN where the series
      has none. */
  function Reindex(values: map<Country, Option<real>>, keys: set<Country>): map<Country, Option<real>>
  {
    map c | c in keys :: if c in values then values[c] else None
  }

  /** `df_data[name] = other[col]`: the column of another frame, aligned on
      the table's countries, has a cell for each of them, and each cell is
      what that frame holds for the country, or NaN when it lacks the
      country. */
  lemma ReindexedColumnReadsCell(s: Snapshot, col: Column, keys: set<Country>)
    ensures Reindex(ColumnOf(s, col), keys).Keys == keys
    ensures forall c :: c in keys ==> Reindex(ColumnOf(s, col), keys)[c] == Cell(s, c, col)
  {
  }

  /** `df_data`: the current snapshot with columns added from the past one. */
  class ComparisonTable {
    var index: seq<Country>
    var rows: map<Country, Row>
    var added: map<PastColumn, map<Country, Option<real>>>

    /** Every added column has a cell for every row and no other. */
    ghost predicate Valid()
      reads this
    {
      forall col :: col in added ==> added[col].Keys == rows.Keys
    }

    /** `df_cur.copy()`. */
    constructor Copy(cur: Snapshot)
      ensures Valid()
      ensures index == cur.index && rows == cur.rows && added == map[]
    {
      index := cur.index;
      rows := cur.rows;
      added := map[];
    }

    /** `df_data[name] = values`: pandas aligns the series on the table's
        index, so a country the series lacks reads NaN and a label the
        table lacks is dropped. Rows and index are left as they were. */
    method AssignColumn(name: PastColumn, values: map<Country, Option<real>>)
      requires Valid()
      modifies this
      ensures Valid()
      ensures index == old(index) && rows == old(rows)
      ensures added == old(added)[name := Reindex(values, rows.Keys)]
    {
      added := added[name := Reindex(values, rows.Keys)];
    }
  }

  /** The comparison table: the current snapshot unchanged, plus the past
      transmission rate, its error and the past ICU need of each current
      country (NaN for countries the past snapshot lacks). */
  method BuildComparison(cur: Snapshot, past: Snapshot) returns (t: ComparisonTable)
    ensures fresh(t) && t.Valid()
    ensures t.index == cur.index && t.rows == cur.rows
    ensures t.added.Keys == {InfectionRatePast, InfectionRatePastErr, NeedIcuPast}
    ensures forall c :: c in cur.rows ==>
      && t.added[InfectionRatePast][c] == Cell(past, c, InfectionRate)
      && t.added[InfectionRatePastErr][c] == Cell(past, c, GrowthRateStd)
      && t.added[NeedIcuPast][c] == Cell(past, c, NeedIcuPer100k)
  {
    t := new ComparisonTable.Copy(cur);
    t.AssignColumn(InfectionRatePast, ColumnOf(past, InfectionRate));
    t.AssignColumn(InfectionRatePastErr, ColumnOf(past, GrowthRateStd));
    t.AssignColumn(NeedIcuPast, ColumnOf(past, NeedIcuPer100k));
  }
}
