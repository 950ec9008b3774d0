/** The news classifier of the "World News from data" notebook. It compares
    a current snapshot with one taken `DayDiff` days earlier and sorts
    countries into eight news groups by fixed threshold rules. */
module News {
  import opened Missing
  import opened Sorting
  import opened Snapshots

  /** Days between the past and the current snapshot. The snapshots are
      fetched outside this model; the constant only names the gap. */
  const DayDiff: nat := 10

  const MinRecentCases: real := 100.0     // `Cases.new.est > 100`
  const MinRateChange: real := 0.02       // a change of two percentage points
  const MinStdChange: real := 3.0         // three past standard deviations
  const MinIcuChange: real := 0.5         // ICU beds per 100k population
  const SignificantCases: real := 1000.0  // past `Cases.total.est`
  const SignificantDeaths: real := 10.0   // past `Deaths.total`

  // ---------------------------------------------------------------------
  // Transmission rate

  /** The optimistic rate of one snapshot: the rate minus its standard
      deviation, with negative values raised to zero. */
  function OptimisticRate(s: Snapshot, c: Country): (r: Option<real>)
    ensures r.Some? <==> c in s.rows && s.rows[c].infectionRate.Some? && s.rows[c].growthRateStd.Some?
    ensures r.Some? ==> r.value >= 0.0
    ensures r.Some? ==> r.value == Max(0.0, s.rows[c].infectionRate.value - s.rows[c].growthRateStd.value)
  {
    Clamped(Sub(Cell(s, c, InfectionRate), Cell(s, c, GrowthRateStd)))
  }

  /** `rate_diff`: current optimistic rate minus past optimistic rate. */
  function RateDiff(cur: Snapshot, past: Snapshot, c: Country): Option<real>
  {
    Sub(OptimisticRate(cur, c), OptimisticRate(past, c))
  }

  /** `pct_rate_diff`: the change measured in past standard deviations. */
  function PctRateDiff(cur: Snapshot, past: Snapshot, c: Country): Quotient
  {
    Divide(RateDiff(cur, past, c), Cell(past, c, GrowthRateStd))
  }

  predicate HigherTrans(cur: Snapshot, past: Snapshot, c: Country)
  {
    && Gt(Cell(cur, c, CasesNewEst), MinRecentCases)
    && Gt(RateDiff(cur, past, c), MinRateChange)
    && Above(PctRateDiff(cur, past, c), MinStdChange)
  }

  predicate LowerTrans(cur: Snapshot, past: Snapshot, c: Country)
  {
    && Gt(Cell(cur, c, CasesNewEst), MinRecentCases)
    && Lt(RateDiff(cur, past, c), -MinRateChange)
    && Below(PctRateDiff(cur, past, c), -MinStdChange)
  }

  // ---------------------------------------------------------------------
  // ICU need

  /** `icu_diff`: current minus past ICU need per 100k population. */
  function IcuDiff(cur: Snapshot, past: Snapshot, c: Country): Option<real>
  {
    Sub(Cell(cur, c, NeedIcuPer100k), Cell(past, c, NeedIcuPer100k))
  }

  // ---------------------------------------------------------------------
  // Cases and deaths

  predicate SignificantPast(past: Snapshot, c: Country)
  {
    Gt(Cell(past, c, CasesTotalEst), SignificantCases) && Gt(Cell(past, c, DeathsTotal), SignificantDeaths)
  }

  predicate ActiveInPast(past: Snapshot, c: Country)
  {
    Gt(Cell(past, c, CasesNew), 0.0) || Gt(Cell(past, c, DeathsNew), 0.0)
  }

  /** No reported case was added since the past snapshot. False when either
      total is missing, so its negation is then true. */
  predicate NoCasesFilt(cur: Snapshot, past: Snapshot, c: Country)
  {
    IsZero(Sub(Cell(cur, c, CasesTotal), Cell(past, c, CasesTotal)))
  }

  predicate NoDeathsFilt(cur: Snapshot, past: Snapshot, c: Country)
  {
    IsZero(Sub(Cell(cur, c, DeathsTotal), Cell(past, c, DeathsTotal)))
  }

  // ---------------------------------------------------------------------
  // The groups

  /** The news groups, in the order the notebook collects them. */
  datatype Group =
    | NewWaves | SlowingOutbreaks | IcuIncrease | IcuDecrease
    | NotActive | NoDeaths | NoCasesAndDeaths | NewEntries
  {
    /** A group listed by the size of a change rather than in index order. */
    predicate Ranked()
    {
      this == NewWaves || this == SlowingOutbreaks || this == IcuIncrease || this == IcuDecrease
    }

    /** The direction of `sort_values` for a ranked group. */
    predicate Ascending()
    {
      this == SlowingOutbreaks || this == IcuDecrease
    }
  }

  /** The boolean mask that selects a group, at one label. */
  predicate Selected(g: Group, cur: Snapshot, past: Snapshot, c: Country)
  {
    match g
    case NewWaves => HigherTrans(cur, past, c)
    case SlowingOutbreaks => LowerTrans(cur, past, c)
    case IcuIncrease => Gt(IcuDiff(cur, past, c), MinIcuChange)
    case IcuDecrease => Lt(IcuDiff(cur, past, c), -MinIcuChange)
    case NotActive =>
      NoCasesFilt(cur, past, c) && SignificantPast(past, c) && !ActiveInPast(past, c)
    case NoDeaths =>
      NoDeathsFilt(cur, past, c) && !NoCasesFilt(cur, past, c)
      && SignificantPast(past, c) && ActiveInPast(past, c)
    case NoCasesAndDeaths =>
      NoCasesFilt(cur, past, c) && NoDeathsFilt(cur, past, c)
      && SignificantPast(past, c) && ActiveInPast(past, c)
    case NewEntries => c !in past.rows
  }

  /** The series a ranked group is sorted by. */
  function Change(g: Group, cur: Snapshot, past: Snapshot, c: Country): Option<real>
  {
    if g == IcuIncrease || g == IcuDecrease then IcuDiff(cur, past, c) else RateDiff(cur, past, c)
  }

  /** A group's mask as a boolean series. */
  function MaskOf(g: Group, cur: Snapshot, past: Snapshot): Country -> bool
  {
    c => Selected(g, cur, past, c)
  }

  /** A ranked group's change as a series. */
  function ChangeOf(g: Group, cur: Snapshot, past: Snapshot): Country -> Option<real>
  {
    c => Change(g, cur, past, c)
  }

  /** `change[mask]` for a ranked group, over the aligned index, before sorting. */
  function Ranking(g: Group, cur: Snapshot, past: Snapshot): seq<(Country, real)>
  {
    Masked(AlignedIndex(cur, past), ChangeOf(g, cur, past), MaskOf(g, cur, past))
  }

  /** The countries of one news group, as the notebook lists them. */
  function Countries(g: Group, cur: Snapshot, past: Snapshot): seq<Country>
  {
    if g == NewEntries then NotIn(cur.index, past.rows.Keys)
    else if g.Ranked() then Labels(SortValues(Ranking(g, cur, past), g.Ascending()))
    else Where(cur.index, MaskOf(g, cur, past))
  }

  /** `all_news`: the eight groups in the notebook's order. */
  const AllNews: seq<Group> :=
    [NewWaves, SlowingOutbreaks, IcuIncrease, IcuDecrease, NotActive, NoDeaths, NoCasesAndDeaths, NewEntries]

  /** The countries of each group in gs, one group after the other. */
  function Collect(gs: seq<Group>, cur: Snapshot, past: Snapshot): (r: seq<Country>)
    ensures forall c :: c in r <==> exists k :: 0 <= k < |gs| && c in Countries(gs[k], cur, past)
  {
    if gs == [] then []
    else
      var rest := Collect(gs[1..], cur, past);
      assert forall k :: 0 <= k < |gs[1..]| ==> gs[1..][k] == gs[k + 1];
      Countries(gs[0], cur, past) + rest
  }

  /** `news_countries`: the countries of all eight groups. */
  function NewsCountries(cur: Snapshot, past: Snapshot): seq<Country>
  {
    Collect(AllNews, cur, past)
  }

  // ---------------------------------------------------------------------
  // Reference definitions on the raw columns

  /** A new wave, stated on the two rows: enough recent cases, an optimistic
      rate up by more than 0.02, and by more than three past standard
      deviations. A zero past deviation makes the quotient infinite, which
      passes the last test. */
  ghost predicate NewWaveSpec(now: Row, was: Row)
  {
    && now.casesNewEst.Some? && now.infectionRate.Some? && now.growthRateStd.Some?
    && was.infectionRate.Some? && was.growthRateStd.Some?
    && var d := Max(0.0, now.infectionRate.value - now.growthRateStd.value)
              - Max(0.0, was.infectionRate.value - was.growthRateStd.value);
       && now.casesNewEst.value > 100.0
       && d > 0.02
       && (was.growthRateStd.value == 0.0 || d / was.growthRateStd.value > 3.0)
  }

  ghost predicate SlowingSpec(now: Row, was: Row)
  {
    && now.casesNewEst.Some? && now.infectionRate.Some? && now.growthRateStd.Some?
    && was.infectionRate.Some? && was.growthRateStd.Some?
    && var d := Max(0.0, now.infectionRate.value - now.growthRateStd.value)
              - Max(0.0, was.infectionRate.value - was.growthRateStd.value);
       && now.casesNewEst.value > 100.0
       && d < -0.02
       && (was.growthRateStd.value == 0.0 || d / was.growthRateStd.value < -3.0)
  }

  ghost predicate Known(a: Option<real>, b: Option<real>)
  {
    a.Some? && b.Some?
  }

  ghost predicate SignificantActiveSpec(was: Row)
  {
    && was.casesTotalEst.Some? && was.casesTotalEst.value > 1000.0
    && was.deathsTotal.Some? && was.deathsTotal.value > 10.0
    && ((was.casesNew.Some? && was.casesNew.value > 0.0) || (was.deathsNew.Some? && was.deathsNew.value > 0.0))
  }

  ghost predicate InactiveSpec(was: Row)
  {
    && was.casesTotalEst.Some? && was.casesTotalEst.value > 1000.0
    && was.deathsTotal.Some? && was.deathsTotal.value > 10.0
    && (was.casesNew.None? || was.casesNew.value <= 0.0)
    && (was.deathsNew.None? || was.deathsNew.value <= 0.0)
  }

  ghost predicate SameCases(now: Row, was: Row)
  {
    Known(now.casesTotal, was.casesTotal) && now.casesTotal.value == was.casesTotal.value
  }

  ghost predicate SameDeaths(now: Row, was: Row)
  {
    Known(now.deathsTotal, was.deathsTotal) && now.deathsTotal.value == was.deathsTotal.value
  }

  // ---------------------------------------------------------------------
  // Properties

  lemma MaskedNeedsBothSnapshots(g: Group, cur: Snapshot, past: Snapshot, c: Country)
    requires g != NewEntries && Selected(g, cur, past, c)
    ensures c in past.rows
    ensures g.Ranked() ==> c in cur.rows && Change(g, cur, past, c).Some?
  {
  }

  /** A country is listed in a group exactly when it is in the current
      snapshot and the group's mask holds for it. */
  lemma Membership(g: Group, cur: Snapshot, past: Snapshot, c: Country)
    requires WellFormed(cur) && WellFormed(past)
    ensures c in Countries(g, cur, past) <==> c in cur.rows && Selected(g, cur, past, c)
  {
    if g.Ranked() {
      RankedMembership(g, cur, past, c);
    }
  }

  lemma RankedMembership(g: Group, cur: Snapshot, past: Snapshot, c: Country)
    requires WellFormed(cur) && WellFormed(past) && g.Ranked()
    ensures c in Countries(g, cur, past) <==> c in cur.rows && Selected(g, cur, past, c)
  {
    SortedMaskedMembership(AlignedIndex(cur, past), ChangeOf(g, cur, past),
                           MaskOf(g, cur, past), g.Ascending(), c);
    if Selected(g, cur, past, c) {
      MaskedNeedsBothSnapshots(g, cur, past, c);
    }
  }

  /** No group lists a country twice. */
  lemma CountriesDistinct(g: Group, cur: Snapshot, past: Snapshot)
    requires WellFormed(cur) && WellFormed(past)
    ensures Distinct(Countries(g, cur, past))
  {
    if g.Ranked() {
      MaskedDistinct(AlignedIndex(cur, past), ChangeOf(g, cur, past), MaskOf(g, cur, past));
      SortKeepsLabels(Ranking(g, cur, past), g.Ascending());
    }
  }

  /** A ranked group is ordered by its change: non-increasing for new
      waves and higher ICU need, non-decreasing for slowing waves and lower
      ICU need. */
  lemma RankedOrder(g: Group, cur: Snapshot, past: Snapshot)
    requires g.Ranked()
    ensures var r := Countries(g, cur, past);
      && (forall i :: 0 <= i < |r| ==> Change(g, cur, past, r[i]).Some?)
      && (forall i, j :: 0 <= i < j < |r| ==>
            InOrder(Change(g, cur, past, r[i]).value, Change(g, cur, past, r[j]).value, g.Ascending()))
  {
    var m := Masked(AlignedIndex(cur, past), ChangeOf(g, cur, past), MaskOf(g, cur, past));
    var s := SortValues(m, g.Ascending());
    var r := Labels(s);
    assert Countries(g, cur, past) == r;
    forall i | 0 <= i < |r| ensures Change(g, cur, past, r[i]) == Some(s[i].1) {
      SortedMaskedValue(AlignedIndex(cur, past), ChangeOf(g, cur, past), MaskOf(g, cur, past), g.Ascending(), i);
      assert r[i] == s[i].0;
    }
    forall i, j | 0 <= i < j < |r|
      ensures InOrder(Change(g, cur, past, r[i]).value, Change(g, cur, past, r[j]).value, g.Ascending())
    {
      assert InOrder(s[i].1, s[j].1, g.Ascending());
    }
  }

  /** Both optimistic rates known, and their difference. */
  lemma RateDiffValue(cur: Snapshot, past: Snapshot, c: Country)
    ensures RateDiff(cur, past, c).Some? <==>
      && c in cur.rows && cur.rows[c].infectionRate.Some? && cur.rows[c].growthRateStd.Some?
      && c in past.rows && past.rows[c].infectionRate.Some? && past.rows[c].growthRateStd.Some?
    ensures RateDiff(cur, past, c).Some? ==>
      RateDiff(cur, past, c).value ==
        Max(0.0, cur.rows[c].infectionRate.value - cur.rows[c].growthRateStd.value)
        - Max(0.0, past.rows[c].infectionRate.value - past.rows[c].growthRateStd.value)
  {
  }

  lemma NewWavesExactly(cur: Snapshot, past: Snapshot, c: Country)
    requires WellFormed(cur) && WellFormed(past)
    ensures c in Countries(NewWaves, cur, past) <==>
      c in cur.rows && c in past.rows && NewWaveSpec(cur.rows[c], past.rows[c])
  {
    Membership(NewWaves, cur, past, c);
    if c in cur.rows && c in past.rows {
      HigherTransAgainstSpec(cur, past, c);
    }
  }

  lemma HigherTransAgainstSpec(cur: Snapshot, past: Snapshot, c: Country)
    requires c in cur.rows && c in past.rows
    ensures HigherTrans(cur, past, c) <==> NewWaveSpec(cur.rows[c], past.rows[c])
  {
    RateDiffValue(cur, past, c);
    if RateDiff(cur, past, c).Some? {
      DivideAgainstSpec(RateDiff(cur, past, c), Cell(past, c, GrowthRateStd));
    }
  }

  lemma SlowingOutbreaksExactly(cur: Snapshot, past: Snapshot, c: Country)
    requires WellFormed(cur) && WellFormed(past)
    ensures c in Countries(SlowingOutbreaks, cur, past) <==>
      c in cur.rows && c in past.rows && SlowingSpec(cur.rows[c], past.rows[c])
  {
    Membership(SlowingOutbreaks, cur, past, c);
    if c in cur.rows && c in past.rows {
      LowerTransAgainstSpec(cur, past, c);
    }
  }

  lemma LowerTransAgainstSpec(cur: Snapshot, past: Snapshot, c: Country)
    requires c in cur.rows && c in past.rows
    ensures LowerTrans(cur, past, c) <==> SlowingSpec(cur.rows[c], past.rows[c])
  {
    RateDiffValue(cur, past, c);
    if RateDiff(cur, past, c).Some? {
      DivideAgainstSpec(RateDiff(cur, past, c), Cell(past, c, GrowthRateStd));
    }
  }

  /** How a quotient compares with the thresholds of the wave rules, for a
      numerator already past the 0.02 test. */
  lemma DivideAgainstSpec(d: Option<real>, std: Option<real>)
    requires d.Some? && std.Some?
    ensures d.value > 0.02 ==>
      (Above(Divide(d, std), 3.0) <==> std.value == 0.0 || d.value / std.value > 3.0)
    ensures d.value < -0.02 ==>
      (Below(Divide(d, std), -3.0) <==> std.value == 0.0 || d.value / std.value < -3.0)
  {
  }

  /** Both ICU values known, and their difference. */
  lemma IcuDiffValue(cur: Snapshot, past: Snapshot, c: Country)
    ensures IcuDiff(cur, past, c).Some? <==>
      c in cur.rows && c in past.rows && Known(cur.rows[c].needIcuPer100k, past.rows[c].needIcuPer100k)
    ensures IcuDiff(cur, past, c).Some? ==>
      IcuDiff(cur, past, c).value == cur.rows[c].needIcuPer100k.value - past.rows[c].needIcuPer100k.value
  {
  }

  lemma IcuIncreaseExactly(cur: Snapshot, past: Snapshot, c: Country)
    requires WellFormed(cur) && WellFormed(past)
    ensures c in Countries(IcuIncrease, cur, past) <==>
      c in cur.rows && c in past.rows
      && Known(cur.rows[c].needIcuPer100k, past.rows[c].needIcuPer100k)
      && cur.rows[c].needIcuPer100k.value - past.rows[c].needIcuPer100k.value > 0.5
  {
    Membership(IcuIncrease, cur, past, c);
    IcuDiffValue(cur, past, c);
  }

  lemma IcuDecreaseExactly(cur: Snapshot, past: Snapshot, c: Country)
    requires WellFormed(cur) && WellFormed(past)
    ensures c in Countries(IcuDecrease, cur, past) <==>
      c in cur.rows && c in past.rows
      && Known(cur.rows[c].needIcuPer100k, past.rows[c].needIcuPer100k)
      && cur.rows[c].needIcuPer100k.value - past.rows[c].needIcuPer100k.value < -0.5
  {
    Membership(IcuDecrease, cur, past, c);
    IcuDiffValue(cur, past, c);
  }

  /** `new_entries` holds exactly the current countries the past snapshot lacks. */
  lemma NewEntriesExactly(cur: Snapshot, past: Snapshot, c: Country)
    requires WellFormed(cur) && WellFormed(past)
    ensures c in Countries(NewEntries, cur, past) <==> c in cur.rows && c !in past.rows
  {
    Membership(NewEntries, cur, past, c);
  }

  lemma NoCasesAndDeathsExactly(cur: Snapshot, past: Snapshot, c: Country)
    requires WellFormed(cur) && WellFormed(past)
    ensures c in Countries(NoCasesAndDeaths, cur, past) <==>
      c in cur.rows && c in past.rows
      && SameCases(cur.rows[c], past.rows[c]) && SameDeaths(cur.rows[c], past.rows[c])
      && SignificantActiveSpec(past.rows[c])
  {
    Membership(NoCasesAndDeaths, cur, past, c);
  }

  /** A missing case total counts as "new cases" here: the mask negates a
      comparison that is false on NaN. */
  lemma NoDeathsExactly(cur: Snapshot, past: Snapshot, c: Country)
    requires WellFormed(cur) && WellFormed(past)
    ensures c in Countries(NoDeaths, cur, past) <==>
      c in cur.rows && c in past.rows
      && !SameCases(cur.rows[c], past.rows[c]) && SameDeaths(cur.rows[c], past.rows[c])
      && SignificantActiveSpec(past.rows[c])
  {
    Membership(NoDeaths, cur, past, c);
  }

  lemma NotActiveExactly(cur: Snapshot, past: Snapshot, c: Country)
    requires WellFormed(cur) && WellFormed(past)
    ensures c in Countries(NotActive, cur, past) <==>
      c in cur.rows && c in past.rows
      && SameCases(cur.rows[c], past.rows[c]) && InactiveSpec(past.rows[c])
  {
    Membership(NotActive, cur, past, c);
  }

  /** A rising and a falling transmission rate exclude each other. */
  lemma WavesDisjoint(cur: Snapshot, past: Snapshot)
    requires WellFormed(cur) && WellFormed(past)
    ensures forall c :: !(c in Countries(NewWaves, cur, past) && c in Countries(SlowingOutbreaks, cur, past))
  {
    forall c ensures !(c in Countries(NewWaves, cur, past) && c in Countries(SlowingOutbreaks, cur, past)) {
      Membership(NewWaves, cur, past, c);
      Membership(SlowingOutbreaks, cur, past, c);
    }
  }

  lemma IcuDisjoint(cur: Snapshot, past: Snapshot)
    requires WellFormed(cur) && WellFormed(past)
    ensures forall c :: !(c in Countries(IcuIncrease, cur, past) && c in Countries(IcuDecrease, cur, past))
  {
    forall c ensures !(c in Countries(IcuIncrease, cur, past) && c in Countries(IcuDecrease, cur, past)) {
      Membership(IcuIncrease, cur, past, c);
      Membership(IcuDecrease, cur, past, c);
    }
  }

  /** The three cases-and-deaths groups are pairwise disjoint. */
  lemma QuietGroupsDisjoint(cur: Snapshot, past: Snapshot)
    requires WellFormed(cur) && WellFormed(past)
    ensures forall c :: !(c in Countries(NoCasesAndDeaths, cur, past) && c in Countries(NoDeaths, cur, past))
    ensures forall c :: !(c in Countries(NoCasesAndDeaths, cur, past) && c in Countries(NotActive, cur, past))
    ensures forall c :: !(c in Countries(NoDeaths, cur, past) && c in Countries(NotActive, cur, past))
  {
    forall c ensures
      && !(c in Countries(NoCasesAndDeaths, cur, past) && c in Countries(NoDeaths, cur, past))
      && !(c in Countries(NoCasesAndDeaths, cur, past) && c in Countries(NotActive, cur, past))
      && !(c in Countries(NoDeaths, cur, past) && c in Countries(NotActive, cur, past))
    {
      Membership(NoCasesAndDeaths, cur, past, c);
      Membership(NoDeaths, cur, past, c);
      Membership(NotActive, cur, past, c);
    }
  }

  /** A first significant outbreak has no past row, so every comparison
      with the past fails and it lands in no other group. */
  lemma NewEntriesExclusive(cur: Snapshot, past: Snapshot, c: Country, g: Group)
    requires WellFormed(cur) && WellFormed(past)
    requires c in Countries(NewEntries, cur, past) && g != NewEntries
    ensures c !in Countries(g, cur, past)
  {
    Membership(NewEntries, cur, past, c);
    Membership(g, cur, past, c);
    if Selected(g, cur, past, c) {
      MaskedNeedsBothSnapshots(g, cur, past, c);
    }
  }

  /** Every listed country is a current country, and only new entries lack
      a past row. */
  lemma GroupsWithinSnapshots(g: Group, cur: Snapshot, past: Snapshot, c: Country)
    requires WellFormed(cur) && WellFormed(past)
    requires c in Countries(g, cur, past)
    ensures c in cur.rows
    ensures g != NewEntries <==> c in past.rows
  {
    Membership(g, cur, past, c);
    if g != NewEntries {
      MaskedNeedsBothSnapshots(g, cur, past, c);
    }
  }

  /** `news_countries` holds a country exactly when some group lists it. */
  lemma NewsCountriesMembership(cur: Snapshot, past: Snapshot, c: Country)
    ensures c in NewsCountries(cur, past) <==> exists g: Group :: c in Countries(g, cur, past)
  {
    if g: Group :| c in Countries(g, cur, past) {
      var k := match g
        case NewWaves => 0 case SlowingOutbreaks => 1 case IcuIncrease => 2 case IcuDecrease => 3
        case NotActive => 4 case NoDeaths => 5 case NoCasesAndDeaths => 6 case NewEntries => 7;
      assert AllNews[k] == g;
    }
  }
}
