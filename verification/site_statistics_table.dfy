/** The site statistics table (src/components/SiteStatisticsTable.tsx): one row per record with
    display fallbacks, the meter identifiers joined into text, the newest-first ordering and the
    `DD/MM/YYYY` export of the onboarding date. */
module SiteStatisticsTable {
  import opened Common
  import opened Text
  import opened Time
  import opened Records
  import opened Sequences
  import opened DateFormat
  import ChartHelpers

  const NotAvailable: string := "N/A"

  // ---------------------------------------------------------------- dates

  /** `formatDateDDMMYYYY`: 'N/A' for an empty date, otherwise the calendar date of the parsed
      instant; an Invalid Date prints NaN in all three places. */
  function FormatDateDDMMYYYY(d: DateText): (r: string)
    ensures !Present(d) ==> r == NotAvailable
    ensures Present(d) && !Parses(d) ==> r == InvalidDMY
  {
    if !Present(d) then NotAvailable
    else if !Parses(d) then InvalidDMY
    else FormatDMY(CivilFromDays(Day(d.time.value)))
  }

  /** Only a date that parses prints as a date: the text reads back as its calendar day, while
      the 'N/A' and NaN texts read back as nothing. */
  lemma FormattedDateReadsBack(d: DateText)
    requires Parses(d) ==> CivilFromDays(Day(d.time.value)).year >= 0
    ensures Present(d) && Parses(d) ==> ParseDMY(FormatDateDDMMYYYY(d)) == Some(CivilFromDays(Day(d.time.value)))
    ensures !(Present(d) && Parses(d)) ==> ParseDMY(FormatDateDDMMYYYY(d)) == None
  {
    if Present(d) && Parses(d) {
      FormatParseRoundTrip(CivilFromDays(Day(d.time.value)));
    } else if Present(d) {
      InvalidTextUnreadable();
    } else {
      NotAvailableUnreadable();
    }
  }

  lemma InvalidTextUnreadable()
    ensures ParseDMY(InvalidDMY) == None
  {
    var nan := "NaN";
    JoinThree(nan, nan, nan);
    assert nan + "/" + nan + "/" + nan == InvalidDMY;
    SplitJoin([nan, nan, nan], '/');
    FirstPartNotDigits(InvalidDMY, [nan, nan, nan]);
  }

  lemma FirstPartNotDigits(s: string, parts: seq<string>)
    requires Split(s, '/') == parts && |parts| > 0 && parts[0] != [] && parts[0][0] == 'N'
    ensures ParseDMY(s) == None
  {
    assert !AllDigits(parts[0]);
  }

  lemma NotAvailableUnreadable()
    ensures ParseDMY(NotAvailable) == None
  {
    assert ["N", "A"][1..] == ["A"];
    assert Join(["N", "A"], "/") == NotAvailable;
    SplitJoin(["N", "A"], '/');
  }

  // ---------------------------------------------------------------- meters

  /** `extractMPAN` / `extractMPRN`: the meter object's keys joined by ", ", or 'N/A' when the
      field is absent, not an object, or an object without keys. */
  function ExtractMeterKeys(m: MeterField): (r: string)
    ensures !(m.MeterObject? && |m.keys| > 0) ==> r == NotAvailable
    ensures m.MeterObject? && |m.keys| > 0 ==> r == Join(m.keys, ", ")
  {
    match m
    case MeterObject(keys) => if |keys| > 0 then Join(keys, ", ") else NotAvailable
    case _ => NotAvailable
  }

  /** The text is 'N/A' exactly when there is no key, or the only key is itself 'N/A': two or more
      keys always show their ", " separator. */
  lemma MeterNotAvailable(m: MeterField)
    ensures ExtractMeterKeys(m) == NotAvailable <==> !(m.MeterObject? && |m.keys| > 0) || m.keys == [NotAvailable]
  {
    if m.MeterObject? && |m.keys| > 1 {
      var r := ExtractMeterKeys(m);
      assert r == m.keys[0] + ", " + Join(m.keys[1..], ", ");
      assert r[|m.keys[0]|] == ',';
      assert NotAvailable[0] == 'N' && NotAvailable[1] == '/' && NotAvailable[2] == 'A';
      assert r != NotAvailable;
    }
  }

  /** Joining keys with ", " is joining them with ',' after putting a space in front of every key
      but the first. */
  lemma {:induction false} JoinCommaSpace(keys: seq<string>)
    requires |keys| >= 1
    ensures Join(keys, ", ") == Join([keys[0]] + SpaceLed(keys[1..]), ",")
    decreases |keys|
  {
    if |keys| > 1 {
      JoinCommaSpace(keys[1..]);
      assert keys[1..][1..] == keys[2..];
      assert SpaceLed(keys[1..]) == [" " + keys[1]] + SpaceLed(keys[2..]);
      JoinHeadPrefix(" ", keys[1], SpaceLed(keys[2..]), ",");
      var all := [keys[0]] + SpaceLed(keys[1..]);
      assert all[1..] == SpaceLed(keys[1..]);
    }
  }

  /** Text in front of a join belongs to its first part. */
  lemma JoinHeadPrefix(p: string, x: string, rest: seq<string>, sep: string)
    ensures p + Join([x] + rest, sep) == Join([p + x] + rest, sep)
  {
    assert ([x] + rest)[1..] == rest && ([p + x] + rest)[1..] == rest;
  }

  function SpaceLed(keys: seq<string>): (r: seq<string>)
    ensures |r| == |keys|
    ensures forall i :: 0 <= i < |keys| ==> r[i] == " " + keys[i]
  {
    seq(|keys|, i requires 0 <= i < |keys| => " " + keys[i])
  }

  /** Keys free of commas can be read back from the text: splitting at ',' gives the keys, each
      after the first with the separator's space in front. */
  lemma MeterKeysReadBack(keys: seq<string>)
    requires |keys| >= 1
    requires forall i :: 0 <= i < |keys| ==> ',' !in keys[i]
    ensures Split(ExtractMeterKeys(MeterObject(keys)), ',') == [keys[0]] + SpaceLed(keys[1..])
  {
    JoinCommaSpace(keys);
    var parts := [keys[0]] + SpaceLed(keys[1..]);
    forall i | 0 <= i < |parts|
      ensures ',' !in parts[i]
    {
      if i > 0 {
        assert parts[i] == " " + keys[i];
      }
    }
    SplitJoin(parts, ',');
  }

  // ---------------------------------------------------------------- rows

  /** One line of the table. */
  datatype SiteRow = SiteRow(address: string, agentName: string, siteAddedDate: DateText, siteStatus: string,
                             mpan: string, mprn: string, companyName: string)

  /** The projection of one record: the address falls back from `siteAddress` to `display_name`
      to 'N/A', status and company to 'N/A', and the agent is formatted from `agent_name`, or from
      'Unknown' when that is empty. No record is filtered out. */
  function RowOfRecord(r: SiteRecord): (row: SiteRow)
    ensures row.address != [] && row.siteStatus != [] && row.companyName != []
    ensures row.address == NotAvailable <==>
              (if Truthy(r.siteAddress) then r.siteAddress.value
               else if Truthy(r.displayName) then r.displayName.value else NotAvailable) == NotAvailable
    ensures Truthy(r.siteAddress) ==> row.address == r.siteAddress.value
    ensures !Truthy(r.siteAddress) && Truthy(r.displayName) ==> row.address == r.displayName.value
    ensures !Truthy(r.siteAddress) && !Truthy(r.displayName) ==> row.address == NotAvailable
    ensures Truthy(r.agentName) ==> row.agentName == ChartHelpers.FormatAgentName(r.agentName.value)
    ensures !Truthy(r.agentName) ==> row.agentName == "Unknown"
    ensures row.siteAddedDate == r.onboardDate
    ensures row.siteStatus == (if Truthy(r.siteStatus) then r.siteStatus.value else NotAvailable)
    ensures row.companyName == (if Truthy(r.companyName) then r.companyName.value else NotAvailable)
    ensures row.mpan == ExtractMeterKeys(r.elecMeter) && row.mprn == ExtractMeterKeys(r.gasMeter)
  {
    var agent := ChartHelpers.FormatAgentName(OrElse(r.agentName, "Unknown"));
    UnknownFormatsAsItself();
    SiteRow(OrElse(r.siteAddress, OrElse(r.displayName, NotAvailable)),
            agent,
            r.onboardDate,
            OrElse(r.siteStatus, NotAvailable),
            ExtractMeterKeys(r.elecMeter),
            ExtractMeterKeys(r.gasMeter),
            OrElse(r.companyName, NotAvailable))
  }

  /** 'Unknown' has no '@', so formatting leaves it as it is. */
  lemma UnknownFormatsAsItself()
    ensures ChartHelpers.FormatAgentName("Unknown") == "Unknown"
  {
    NoAtFormatsAsItself("Unknown");
  }

  /** A name without '@' is shown as it is. */
  lemma NoAtFormatsAsItself(s: string)
    requires forall k :: 0 <= k < |s| ==> s[k] != '@'
    ensures ChartHelpers.FormatAgentName(s) == s
  {
  }

  /** `data.map(...)`: exactly one row per record, in input order. */
  function Project(data: seq<SiteRecord>): (rows: seq<SiteRow>)
    ensures |rows| == |data|
    ensures forall i :: 0 <= i < |data| ==> rows[i] == RowOfRecord(data[i])
  {
    seq(|data|, i requires 0 <= i < |data| => RowOfRecord(data[i]))
  }

  // ---------------------------------------------------------------- ordering

  /** The comparator as written: an undated first row sorts after, then an undated second row
      sorts after, otherwise the later timestamp first. `Array.prototype.sort` reads a NaN result
      (an Invalid Date on either side) as 0. */
  function CompareRows(a: SiteRow, b: SiteRow): int {
    if !Present(a.siteAddedDate) then 1
    else if !Present(b.siteAddedDate) then -1
    else if Parses(a.siteAddedDate) && Parses(b.siteAddedDate) then b.siteAddedDate.time.value - a.siteAddedDate.time.value
    else 0
  }

  /** Rank of a row's date: 0 parses, 1 present but unparseable, 2 absent. */
  function DateRank(d: DateText): (k: nat)
    ensures k <= 2
  {
    if !Present(d) then 2 else if !Parses(d) then 1 else 0
  }

  /** The order the table is sorted by: dated rows newest first, then rows whose date does not
      parse, then undated rows. */
  function NewerFirst(a: SiteRow, b: SiteRow): bool {
    var ka, kb := DateRank(a.siteAddedDate), DateRank(b.siteAddedDate);
    ka < kb || (ka == kb && (ka != 0 || a.siteAddedDate.time.value >= b.siteAddedDate.time.value))
  }

  lemma NewerFirstTotal()
    ensures TotalPreorder(NewerFirst)
  {
  }

  /** Wherever the source comparator puts one row strictly first, the sort order agrees. */
  lemma ComparatorAgrees(a: SiteRow, b: SiteRow)
    ensures CompareRows(a, b) < 0 ==> NewerFirst(a, b) && !NewerFirst(b, a)
    ensures CompareRows(a, b) > 0 ==> NewerFirst(b, a)
  {
  }

  /** Two undated rows each claim to sort after the other: the comparator is not antisymmetric,
      so the relative place of undated rows is left to the sort implementation. */
  lemma UndatedRowsDisagree()
    ensures var a := SiteRow("x", "A", DateText([], None), "ACTIVE", NotAvailable, NotAvailable, "c");
            var b := SiteRow("y", "B", DateText([], None), "ACTIVE", NotAvailable, NotAvailable, "d");
            CompareRows(a, b) > 0 && CompareRows(b, a) > 0
  {
  }

  /** The comparator with undated rows compared equal to each other. */
  function CompareRowsFixed(a: SiteRow, b: SiteRow): int {
    if !Present(a.siteAddedDate) && !Present(b.siteAddedDate) then 0
    else CompareRows(a, b)
  }

  /** The corrected comparator is antisymmetric, and on rows whose dates parse or are absent it
      is exactly the sort order. */
  lemma CompareRowsFixedConsistent(a: SiteRow, b: SiteRow)
    ensures CompareRowsFixed(a, b) > 0 <==> CompareRowsFixed(b, a) < 0
    ensures CompareRowsFixed(a, b) == 0 <==> CompareRowsFixed(b, a) == 0
    ensures DateRank(a.siteAddedDate) != 1 && DateRank(b.siteAddedDate) != 1 ==>
              (CompareRowsFixed(a, b) <= 0 <==> NewerFirst(a, b))
  {
  }

  /** The table: every record's row, ordered dated rows newest first, then unparseable, then
      undated. Among rows whose dates parse or are absent, no row comes after one the corrected
      comparator puts behind it. */
  function SiteTable(data: seq<SiteRecord>): (rows: seq<SiteRow>)
    ensures |rows| == |data|
    ensures multiset(rows) == multiset(Project(data))
    ensures SortedBy(rows, NewerFirst)
    ensures forall i, j :: 0 <= i < j < |rows| && DateRank(rows[i].siteAddedDate) != 1 && DateRank(rows[j].siteAddedDate) != 1
              ==> CompareRowsFixed(rows[i], rows[j]) <= 0
  {
    NewerFirstTotal();
    SortSorted(Project(data), NewerFirst);
    var rows := Sort(Project(data), NewerFirst);
    assert |rows| == |multiset(rows)| == |multiset(Project(data))| == |data|;
    forall i, j | 0 <= i < j < |rows| && DateRank(rows[i].siteAddedDate) != 1 && DateRank(rows[j].siteAddedDate) != 1
      ensures CompareRowsFixed(rows[i], rows[j]) <= 0
    {
      CompareRowsFixedConsistent(rows[i], rows[j]);
    }
    rows
  }
}
