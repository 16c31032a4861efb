/** Organisation-wide statistics over a window of onboarding dates
    (src/utils/organisationHelpers.ts). */
module OrganisationHelpers {
  import opened Common
  import opened Time
  import opened Records
  import opened Sequences
  import ChartHelpers

  /** organisationHelpers' `isDateInRange`: false for an absent or empty date; otherwise the
      parsed instant must lie between the bounds, both included, with no day normalisation. */
  function OrgDateInRange(d: DateText, start: int, end: int): bool {
    Present(d) && Parses(d) && start <= d.time.value <= end
  }

  /** Given bounds already at day boundaries, this check agrees with the chart's day-normalised one. */
  lemma OrgDateInRangeMatchesChart(d: DateText, start: int, end: int)
    ensures OrgDateInRange(d, StartOfDay(start), EndOfDay(end)) <==>
      Present(d) && ChartHelpers.IsDateInRange(d, start, end)
  {
  }

  // ---------------------------------------------------------------- savings

  datatype Savings = Savings(savings: real, carbonSavings: real)

  function SavingsField(r: Recommendation): Option<real> { r.potentialSavings }

  function CarbonField(r: Recommendation): Option<real> { r.potentialCarbonSavings }

  /** The entry's amount in `field` is present and strictly positive. */
  function IsPositive(field: Recommendation -> Option<real>): Recommendation -> bool {
    (r: Recommendation) => field(r).Some? && field(r).value > 0.0
  }

  /** The entry's amount in `field`, or 0 when it is missing. */
  function ValueOrZero(field: Recommendation -> Option<real>): Recommendation -> real {
    (r: Recommendation) => field(r).GetOr(0.0)
  }

  /** What one entry contributes: its value when strictly positive, otherwise nothing. */
  function PositivePart(field: Recommendation -> Option<real>): Recommendation -> real {
    (r: Recommendation) => if field(r).Some? && field(r).value > 0.0 then field(r).value else 0.0
  }

  /** The filter-then-reduce of the source over one field. */
  function PositiveTotal(recs: seq<Recommendation>, field: Recommendation -> Option<real>): (total: real)
    ensures total == SumReal(recs, PositivePart(field))
    ensures total >= 0.0
  {
    PositiveTotalIsSumOfPositiveParts(recs, field);
    SumReal(FilterBy(recs, IsPositive(field)), ValueOrZero(field))
  }

  lemma {:induction false} PositiveTotalIsSumOfPositiveParts(recs: seq<Recommendation>, field: Recommendation -> Option<real>)
    ensures SumReal(FilterBy(recs, IsPositive(field)), ValueOrZero(field)) == SumReal(recs, PositivePart(field))
    ensures SumReal(recs, PositivePart(field)) >= 0.0
    decreases |recs|
  {
    if recs != [] {
      PositiveTotalIsSumOfPositiveParts(recs[1..], field);
      var head := if IsPositive(field)(recs[0]) then [recs[0]] else [];
      SumRealConcat(head, FilterBy(recs[1..], IsPositive(field)), ValueOrZero(field));
    }
  }

  /** `calculateSavingsFromRecommendations`: zero for a missing or empty list; otherwise the sums of
      the strictly positive `potential_savings` and `potential_carbon_savings`. A non-array value is
      not representable here and behaves as a missing list. */
  function CalculateSavings(recs: Option<seq<Recommendation>>): (r: Savings)
    ensures recs.None? || recs.value == [] ==> r == Savings(0.0, 0.0)
    ensures r.savings == SumReal(recs.GetOr([]), PositivePart(SavingsField))
    ensures r.carbonSavings == SumReal(recs.GetOr([]), PositivePart(CarbonField))
    ensures r.savings >= 0.0 && r.carbonSavings >= 0.0
  {
    if recs.None? || |recs.value| == 0 then Savings(0.0, 0.0)
    else Savings(PositiveTotal(recs.value, SavingsField), PositiveTotal(recs.value, CarbonField))
  }

  /** The savings of a concatenated list are the sums of the savings of its parts. */
  lemma CalculateSavingsAdditive(a: seq<Recommendation>, b: seq<Recommendation>)
    ensures CalculateSavings(Some(a + b)).savings == CalculateSavings(Some(a)).savings + CalculateSavings(Some(b)).savings
    ensures CalculateSavings(Some(a + b)).carbonSavings == CalculateSavings(Some(a)).carbonSavings + CalculateSavings(Some(b)).carbonSavings
  {
    SumRealConcat(a, b, PositivePart(SavingsField));
    SumRealConcat(a, b, PositivePart(CarbonField));
  }

  /** An entry with no positive saving adds nothing, and a negative saving never subtracts. */
  lemma NonPositiveEntryAddsNothing(a: seq<Recommendation>, rec: Recommendation)
    requires rec.potentialSavings.None? || rec.potentialSavings.value <= 0.0
    ensures CalculateSavings(Some(a + [rec])).savings == CalculateSavings(Some(a)).savings
  {
    var part := PositivePart(SavingsField);
    SumRealConcat(a, [rec], part);
    assert SavingsField(rec) == rec.potentialSavings;
    assert part(rec) == 0.0;
    assert SumReal([rec], part) == part(rec) + SumReal([rec][1..], part);
    assert [rec][1..] == [];
    assert Some(a + [rec]).GetOr([]) == a + [rec];
    assert Some(a).GetOr([]) == a;
  }

  // ---------------------------------------------------------------- statistics

  datatype OrganisationStats = OrganisationStats(
    totalSites: nat,
    uniqueCustomers: nat,
    totalInteractions: int,
    totalSavings: real,
    totalCarbonSavings: real)

  function RecordSavings(r: SiteRecord): real { CalculateSavings(r.recommendations).savings }

  function RecordCarbon(r: SiteRecord): real { CalculateSavings(r.recommendations).carbonSavings }

  /** Every recommendation of the given sites, site after site; a site without a list adds none. */
  function AllRecommendations(sites: seq<SiteRecord>): (recs: seq<Recommendation>)
    ensures sites == [] ==> recs == []
  {
    if sites == [] then [] else sites[0].recommendations.GetOr([]) + AllRecommendations(sites[1..])
  }

  /** Summing each site's savings is summing the positive savings of all their recommendations
      pooled together. */
  lemma {:induction false} SiteSavingsArePooled(sites: seq<SiteRecord>)
    ensures SumReal(sites, RecordSavings) == SumReal(AllRecommendations(sites), PositivePart(SavingsField))
    ensures SumReal(sites, RecordCarbon) == SumReal(AllRecommendations(sites), PositivePart(CarbonField))
    decreases |sites|
  {
    if sites != [] {
      SiteSavingsArePooled(sites[1..]);
      var own := sites[0].recommendations.GetOr([]);
      SumRealConcat(own, AllRecommendations(sites[1..]), PositivePart(SavingsField));
      SumRealConcat(own, AllRecommendations(sites[1..]), PositivePart(CarbonField));
    }
  }

  /** The statistics block both `getOrganisationStats` and `getTotalStats` compute over their active
      sites: the savings totals are the sums of the strictly positive savings of every recommendation
      of every site, so a non-positive entry adds nothing. */
  function Summarise(active: seq<SiteRecord>): (s: OrganisationStats)
    ensures s.totalSites == |active|
    ensures s.uniqueCustomers == |Contacts(active)| <= s.totalSites
    ensures s.totalInteractions == SumBy(active, LoggedIn)
    ensures s.totalSavings == SumReal(AllRecommendations(active), PositivePart(SavingsField))
    ensures s.totalCarbonSavings == SumReal(AllRecommendations(active), PositivePart(CarbonField))
    ensures s.totalSavings >= 0.0 && s.totalCarbonSavings >= 0.0
  {
    SumRealNonNegative(active, RecordSavings);
    SumRealNonNegative(active, RecordCarbon);
    SiteSavingsArePooled(active);
    OrganisationStats(|active|, |Contacts(active)|, SumBy(active, LoggedIn),
                      SumReal(active, RecordSavings), SumReal(active, RecordCarbon))
  }

  /** One more site adds exactly its own savings to the totals: its positive entries and nothing
      for the rest. */
  lemma {:induction false} SummariseSnoc(active: seq<SiteRecord>, site: SiteRecord)
    ensures Summarise(active + [site]).totalSavings == Summarise(active).totalSavings + RecordSavings(site)
    ensures Summarise(active + [site]).totalCarbonSavings == Summarise(active).totalCarbonSavings + RecordCarbon(site)
  {
    SumRealConcat(active, [site], RecordSavings);
    SumRealConcat(active, [site], RecordCarbon);
    assert SumReal([site], RecordSavings) == RecordSavings(site) + SumReal([site][1..], RecordSavings);
    assert SumReal([site], RecordCarbon) == RecordCarbon(site) + SumReal([site][1..], RecordCarbon);
    assert [site][1..] == [];
  }

  /** ACTIVE and onboarded within the window. */
  function ActiveWithin(start: int, end: int): SiteRecord -> bool {
    (r: SiteRecord) => IsActive(r) && OrgDateInRange(r.onboardDate, start, end)
  }

  /** Onboarded within the window. */
  function OnboardedWithin(start: int, end: int): SiteRecord -> bool {
    (r: SiteRecord) => OrgDateInRange(r.onboardDate, start, end)
  }

  /** The sites `getOrganisationStats` counts, each as often as it occurs in the input. */
  function WindowSites(records: seq<SiteRecord>, start: int, end: int): (active: seq<SiteRecord>)
    ensures forall x :: multiset(active)[x] == (if ActiveWithin(start, end)(x) then multiset(records)[x] else 0)
  {
    FilterBy(records, ActiveWithin(start, end))
  }

  /** `getOrganisationStats`: statistics of the ACTIVE sites onboarded within [start, end]. No domain
      filter applies, contact emails are compared exactly as stored, and a missing login count counts 0. */
  function GetOrganisationStats(records: seq<SiteRecord>, start: int, end: int): (s: OrganisationStats)
    ensures s.totalSites == |WindowSites(records, start, end)|
    ensures s.uniqueCustomers == |Contacts(WindowSites(records, start, end))| <= s.totalSites
    ensures s.totalInteractions == SumBy(WindowSites(records, start, end), LoggedIn)
    ensures s.totalSavings == SumReal(AllRecommendations(WindowSites(records, start, end)), PositivePart(SavingsField))
    ensures s.totalCarbonSavings == SumReal(AllRecommendations(WindowSites(records, start, end)), PositivePart(CarbonField))
    ensures s.totalSavings >= 0.0 && s.totalCarbonSavings >= 0.0
  {
    Summarise(WindowSites(records, start, end))
  }

  /** The ACTIVE sites, each as often as it occurs in the input. */
  function ActiveSites(records: seq<SiteRecord>): (active: seq<SiteRecord>)
    ensures forall x :: multiset(active)[x] == (if IsActive(x) then multiset(records)[x] else 0)
  {
    FilterBy(records, IsActive)
  }

  /** `getTotalStats`: the same statistics over every ACTIVE site, with no date filter. */
  function GetTotalStats(records: seq<SiteRecord>): (s: OrganisationStats)
    ensures s.totalSites == |ActiveSites(records)|
    ensures s.uniqueCustomers == |Contacts(ActiveSites(records))| <= s.totalSites
    ensures s.totalInteractions == SumBy(ActiveSites(records), LoggedIn)
    ensures s.totalSavings == SumReal(AllRecommendations(ActiveSites(records)), PositivePart(SavingsField))
    ensures s.totalCarbonSavings == SumReal(AllRecommendations(ActiveSites(records)), PositivePart(CarbonField))
    ensures s.totalSavings >= 0.0 && s.totalCarbonSavings >= 0.0
  {
    Summarise(ActiveSites(records))
  }

  /** The window's sites are the ACTIVE sites filtered by date. */
  lemma WindowOfActive(records: seq<SiteRecord>, start: int, end: int)
    ensures WindowSites(records, start, end) == FilterBy(ActiveSites(records), OnboardedWithin(start, end))
  {
    FilterAnd(records, IsActive, OnboardedWithin(start, end), ActiveWithin(start, end));
  }

  /** Every customer seen in a sub-collection is seen in the whole. */
  lemma ContactsOfFilter(s: seq<SiteRecord>, p: SiteRecord -> bool)
    ensures Contacts(FilterBy(s, p)) <= Contacts(s)
  {
    var f := FilterBy(s, p);
    forall e | e in Contacts(f)
      ensures e in Contacts(s)
    {
      var i :| 0 <= i < |f| && Truthy(f[i].contactEmail) && f[i].contactEmail.value == e;
      assert f[i] in multiset(f);
      assert f[i] in multiset(s);
      var j :| 0 <= j < |s| && s[j] == f[i];
    }
  }

  /** A window never counts more sites, customers, savings or carbon savings than all time. */
  lemma WindowWithinTotal(records: seq<SiteRecord>, start: int, end: int)
    ensures GetOrganisationStats(records, start, end).totalSites <= GetTotalStats(records).totalSites
    ensures GetOrganisationStats(records, start, end).uniqueCustomers <= GetTotalStats(records).uniqueCustomers
    ensures GetOrganisationStats(records, start, end).totalSavings <= GetTotalStats(records).totalSavings
    ensures GetOrganisationStats(records, start, end).totalCarbonSavings <= GetTotalStats(records).totalCarbonSavings
  {
    var active := ActiveSites(records);
    var inRange := OnboardedWithin(start, end);
    WindowOfActive(records, start, end);
    ContactsOfFilter(active, inRange);
    SubsetCardinality(Contacts(FilterBy(active, inRange)), Contacts(active));
    SumRealFilter(active, inRange, RecordSavings);
    SumRealFilter(active, inRange, RecordCarbon);
  }

  lemma SubsetCardinality(a: set<string>, b: set<string>)
    requires a <= b
    ensures |a| <= |b|
  {
    assert b == a + (b - a);
  }

  /** Two windows that do not overlap never count more sites together than all time: no site is
      counted in both the previous and the current month. */
  lemma DisjointWindows(records: seq<SiteRecord>, w1: Range, w2: Range)
    requires w1.end < w2.start
    ensures GetOrganisationStats(records, w1.start, w1.end).totalSites
          + GetOrganisationStats(records, w2.start, w2.end).totalSites
         <= GetTotalStats(records).totalSites
  {
    var active := ActiveSites(records);
    WindowOfActive(records, w1.start, w1.end);
    WindowOfActive(records, w2.start, w2.end);
    FilterDisjoint(active, OnboardedWithin(w1.start, w1.end), OnboardedWithin(w2.start, w2.end));
  }

  /** Contact emails are not case-folded: two spellings of one address count as two customers. */
  lemma CustomersAreCaseSensitive(r: SiteRecord)
    requires IsActive(r)
    ensures GetTotalStats([r.(contactEmail := Some("A@x.com")), r.(contactEmail := Some("a@x.com"))]).uniqueCustomers == 2
  {
    var up, low := "A@x.com", "a@x.com";
    var rs := [r.(contactEmail := Some(up)), r.(contactEmail := Some(low))];
    FilterAll(rs, IsActive);
    assert up != low by {
      assert up[0] != low[0];
    }
    DistinctContacts(rs[0], rs[1]);
  }

  /** Two records with different truthy contact e-mails are two customers. */
  lemma DistinctContacts(a: SiteRecord, b: SiteRecord)
    requires Truthy(a.contactEmail) && Truthy(b.contactEmail) && a.contactEmail.value != b.contactEmail.value
    ensures |Contacts([a, b])| == 2
  {
    ContactsSnoc([], a);
    assert [] + [a] == [a];
    ContactsSnoc([a], b);
    assert [a] + [b] == [a, b];
  }

  // ---------------------------------------------------------------- named windows

  /** The window of `getLast7DaysStats`: from the midnight seven days before `now` to the end of
      today, eight calendar days. */
  function Last7Days(now: int): (w: Range)
    ensures TimeOfDay(w.start) == 0 && TimeOfDay(w.end) == MsPerDay - 1
    ensures Day(w.start) == Day(now) - 7 && Day(w.end) == Day(now)
    ensures w.start <= now <= w.end
  {
    ChartHelpers.ShiftDays(now, -7);
    Range(StartOfDay(now - 7 * MsPerDay), EndOfDay(now))
  }

  /** ACTIVE and onboarded on one of the calendar days from seven days before `now` to `now`'s day. */
  predicate OnboardedInLastEightDays(x: SiteRecord, now: int) {
    IsActive(x) && Present(x.onboardDate) && Parses(x.onboardDate)
    && Day(now) - 7 <= Day(x.onboardDate.time.value) <= Day(now)
  }

  /** `getLast7DaysStats`: the sites onboarded on any of the eight calendar days from seven days
      ago to today, both whole days included. */
  function GetLast7DaysStats(records: seq<SiteRecord>, now: int): (s: OrganisationStats)
    ensures s == GetOrganisationStats(records, Last7Days(now).start, Last7Days(now).end)
    ensures forall x :: ActiveWithin(Last7Days(now).start, Last7Days(now).end)(x) <==> OnboardedInLastEightDays(x, now)
  {
    var w := Last7Days(now);
    forall t: int
      ensures w.start <= t <= w.end <==> Day(now) - 7 <= Day(t) <= Day(now)
    {
      DayWindow(t, now - 7 * MsPerDay, now);
    }
    GetOrganisationStats(records, w.start, w.end)
  }

  // ---------------------------------------------------------------- calendar months

  /** The two dates fall in the same month of the same year. */
  predicate SameMonth(a: Civil, b: Civil) {
    a.year == b.year && a.month == b.month
  }

  /** What date-fns `startOfMonth` and `endOfMonth` return for some instant: the range starts at
      midnight on the first of a month and ends at 23:59:59.999 of a day of the same month whose
      next day is a first. */
  predicate CalendarMonth(m: Range) {
    && TimeOfDay(m.start) == 0 && TimeOfDay(m.end) == MsPerDay - 1 && m.start <= m.end
    && CivilFromDays(Day(m.start)).day == 1
    && SameMonth(CivilFromDays(Day(m.start)), CivilFromDays(Day(m.end)))
    && CivilFromDays(Day(m.end) + 1).day == 1
  }

  /** `m` is the calendar month containing `now`. */
  predicate MonthAround(m: Range, now: int) {
    CalendarMonth(m) && m.start <= now <= m.end
  }

  /** `previous` is the calendar month that ends the millisecond before `current` starts, the
      month `subMonths(now, 1)` falls in. */
  predicate MonthBefore(previous: Range, current: Range) {
    CalendarMonth(previous) && previous.end + 1 == current.start
  }

  /** January and February 2000, seen from 15 February 2000 at noon: the month predicates
      describe real months. */
  lemma MonthsOf2000()
    ensures MonthAround(Range(949363200000, 951868799999), 950616000000)
    ensures MonthBefore(Range(946684800000, 949363199999), Range(949363200000, 951868799999))
  {
    assert Day(946684800000) == Day2000 && Day(949363199999) == Day2000 + 30 && Day(949363199999 + 1) == Day2000 + 31;
    assert Day(949363200000) == Day2000 + 31 && Day(951868799999) == Day2000 + 59 && Day(951868799999 + 1) == Day2000 + 60;
    JanuaryEnds2000();
    FebruaryEnds2000();
  }

  lemma JanuaryEnds2000()
    ensures CivilFromDays(Day2000) == Civil(2000, 1, 1)
    ensures CivilFromDays(Day2000 + 30) == Civil(2000, 1, 31)
  {
  }

  lemma FebruaryEnds2000()
    ensures CivilFromDays(Day2000 + 31) == Civil(2000, 2, 1)
    ensures CivilFromDays(Day2000 + 59) == Civil(2000, 2, 29)
    ensures CivilFromDays(Day2000 + 60) == Civil(2000, 3, 1)
  {
  }

  /** An instant on the same day as one inside a range of whole days is inside it too. */
  lemma SameDayInside(t: int, now: int, m: Range)
    requires TimeOfDay(m.start) == 0 && TimeOfDay(m.end) == MsPerDay - 1 && m.start <= now <= m.end
    requires Day(t) == Day(now)
    ensures m.start <= t <= m.end
  {
    DayWindow(t, m.start, m.end);
  }

  /** `getCurrentMonthStats`: the window statistics of the calendar month around `now`, whose
      bounds are given. A site onboarded on `now`'s own day is always within it. */
  function GetCurrentMonthStats(records: seq<SiteRecord>, now: int, thisMonth: Range): (s: OrganisationStats)
    requires MonthAround(thisMonth, now)
    ensures s == GetOrganisationStats(records, thisMonth.start, thisMonth.end)
    ensures forall x :: IsActive(x) && Present(x.onboardDate) && Parses(x.onboardDate)
                        && Day(x.onboardDate.time.value) == Day(now)
                        ==> ActiveWithin(thisMonth.start, thisMonth.end)(x)
  {
    forall x | IsActive(x) && Present(x.onboardDate) && Parses(x.onboardDate) && Day(x.onboardDate.time.value) == Day(now)
      ensures ActiveWithin(thisMonth.start, thisMonth.end)(x)
    {
      SameDayInside(x.onboardDate.time.value, now, thisMonth);
    }
    GetOrganisationStats(records, thisMonth.start, thisMonth.end)
  }

  /** `getPreviousMonthStats`: the window statistics of the calendar month before the one around
      `now`; both months' bounds are given. Every site it counts was onboarded before the current
      month began. */
  function GetPreviousMonthStats(records: seq<SiteRecord>, now: int, thisMonth: Range, previousMonth: Range): (s: OrganisationStats)
    requires MonthAround(thisMonth, now) && MonthBefore(previousMonth, thisMonth)
    ensures s == GetOrganisationStats(records, previousMonth.start, previousMonth.end)
    ensures forall x :: ActiveWithin(previousMonth.start, previousMonth.end)(x)
                        ==> x.onboardDate.time.value < thisMonth.start <= now
  {
    GetOrganisationStats(records, previousMonth.start, previousMonth.end)
  }

  /** The previous month and the current month never share a site, so together they count no more
      than all time. */
  lemma MonthsWithinTotal(records: seq<SiteRecord>, now: int, thisMonth: Range, previousMonth: Range)
    requires MonthAround(thisMonth, now) && MonthBefore(previousMonth, thisMonth)
    ensures forall x :: !(ActiveWithin(previousMonth.start, previousMonth.end)(x)
                          && ActiveWithin(thisMonth.start, thisMonth.end)(x))
    ensures GetPreviousMonthStats(records, now, thisMonth, previousMonth).totalSites
          + GetCurrentMonthStats(records, now, thisMonth).totalSites
         <= GetTotalStats(records).totalSites
  {
    DisjointWindows(records, previousMonth, thisMonth);
  }

  /** With no records every statistic is zero. */
  lemma EmptyStats(start: int, end: int)
    ensures GetOrganisationStats([], start, end) == OrganisationStats(0, 0, 0, 0.0, 0.0)
    ensures GetTotalStats([]) == OrganisationStats(0, 0, 0, 0.0, 0.0)
  {
  }
}
