/** Agent-name formatting, Monday-start weeks, day-normalised range checks and the per-agent
    site counts of the charts (src/utils/chartHelpers.ts). */
module ChartHelpers {
  import opened Common
  import opened Text
  import opened Time
  import opened Records
  import opened Sequences

  // ---------------------------------------------------------------- agent names

  /** A word with its first character upper-cased and the rest lower-cased. */
  function CapitaliseWord(w: string): string {
    if w == [] then [] else [UpperChar(w[0])] + Lower(w[1..])
  }

  function CapitaliseAll(words: seq<string>): (r: seq<string>)
    ensures |r| == |words|
  {
    if words == [] then [] else [CapitaliseWord(words[0])] + CapitaliseAll(words[1..])
  }

  /** The text before the first '@' (`email.split('@')[0]`). */
  function LocalPart(email: string): string {
    Split(email, '@')[0]
  }

  /** `formatAgentName`: "first.last@domain" becomes "First Last"; a string without '@'
      (including the empty string) is returned as it is. */
  function FormatAgentName(email: string): (r: string)
    ensures email == [] || '@' !in email ==> r == email
    ensures '@' in email ==> r == Titled(email[..IndexOf(email, '@')], true)
    ensures '@' in email ==> |r| == IndexOf(email, '@') && '@' !in r && '.' !in r
  {
    if email == [] || '@' !in email then email
    else
      FormatWordsIsTitled(LocalPart(email));
      Join(CapitaliseAll(Split(LocalPart(email), '.')), " ")
  }

  /** What `FormatAgentName` makes of the local part, character by character: each '.' becomes
      a space, the first character of each dot-separated word is upper-cased and the rest
      lower-cased. `atStart` says whether `s` begins a word. */
  function Titled(s: string, atStart: bool): (r: string)
    ensures |r| == |s|
    ensures '.' !in r
    ensures '@' !in s ==> '@' !in r
  {
    if s == [] then []
    else if s[0] == '.' then [' '] + Titled(s[1..], true)
    else [if atStart then UpperChar(s[0]) else LowerChar(s[0])] + Titled(s[1..], false)
  }

  /** Position `i` of `Titled(s, atStart)`, stated on its own. */
  function TitleChar(s: string, i: nat, atStart: bool): char
    requires i < |s|
  {
    if s[i] == '.' then ' '
    else if (if i == 0 then atStart else s[i - 1] == '.') then UpperChar(s[i])
    else LowerChar(s[i])
  }

  /** `Titled` agrees with the position-wise description everywhere. */
  lemma {:induction false} TitledPointwise(s: string, atStart: bool)
    ensures forall i :: 0 <= i < |s| ==> Titled(s, atStart)[i] == TitleChar(s, i, atStart)
    decreases |s|
  {
    if s != [] {
      var b := s[0] == '.';
      TitledPointwise(s[1..], b);
      forall i | 1 <= i < |s|
        ensures Titled(s, atStart)[i] == TitleChar(s, i, atStart)
      {
        assert Titled(s, atStart)[i] == Titled(s[1..], b)[i - 1];
        assert s[1..][i - 1] == s[i];
        if i >= 2 {
          assert s[1..][i - 2] == s[i - 1];
        }
      }
    }
  }

  lemma {:induction false} TitledLowerRun(w: string, t: string)
    requires '.' !in w
    ensures Titled(w + t, false) == Lower(w) + Titled(t, false)
    decreases |w|
  {
    if w == [] {
      assert w + t == t;
    } else {
      assert (w + t)[0] == w[0] && (w + t)[1..] == w[1..] + t;
      TitledLowerRun(w[1..], t);
      assert Lower(w) == [LowerChar(w[0])] + Lower(w[1..]);
    }
  }

  /** A whole word followed by a separator (or nothing) is the capitalised word. */
  lemma TitledWord(w: string, t: string)
    requires '.' !in w
    requires t == [] || t[0] == '.'
    ensures Titled(w + t, true) == CapitaliseWord(w) + Titled(t, false)
  {
    if w == [] {
      assert w + t == t;
    } else {
      assert (w + t)[0] == w[0] && (w + t)[1..] == w[1..] + t;
      TitledLowerRun(w[1..], t);
    }
  }

  /** The split-capitalise-join pipeline equals the character-by-character description. */
  lemma {:induction false} FormatWordsIsTitled(s: string)
    ensures Join(CapitaliseAll(Split(s, '.')), " ") == Titled(s, true)
    decreases |s|
  {
    var i := IndexOf(s, '.');
    if i == |s| {
      TitledWord(s, []);
      assert s + [] == s;
    } else {
      var w, rest := s[..i], s[i + 1..];
      FormatWordsIsTitled(rest);
      var caps := CapitaliseAll(Split(rest, '.'));
      SplitAtFirst(s, i);
      CapitaliseCons(w, Split(rest, '.'));
      JoinCons(CapitaliseWord(w), caps, " ");
      TitledAtDot(s, i);
    }
  }

  /** Splitting at the first separator. */
  lemma SplitAtFirst(s: string, i: nat)
    requires i < |s| && i == IndexOf(s, '.')
    ensures Split(s, '.') == [s[..i]] + Split(s[i + 1..], '.')
  {
  }

  lemma CapitaliseCons(w: string, parts: seq<string>)
    ensures CapitaliseAll([w] + parts) == [CapitaliseWord(w)] + CapitaliseAll(parts)
  {
    assert ([w] + parts)[1..] == parts;
  }

  /** Joining a part in front of at least one other part puts the separator between them. */
  lemma JoinCons(x: string, parts: seq<string>, sep: string)
    requires |parts| >= 1
    ensures Join([x] + parts, sep) == x + sep + Join(parts, sep)
  {
    assert ([x] + parts)[1..] == parts;
  }

  /** The first word is capitalised and its '.' becomes a space that starts the next word. */
  lemma TitledAtDot(s: string, i: nat)
    requires i < |s| && i == IndexOf(s, '.')
    ensures Titled(s, true) == CapitaliseWord(s[..i]) + " " + Titled(s[i + 1..], true)
  {
    var w, rest := s[..i], s[i + 1..];
    var t := "." + rest;
    assert s[i..] == t by {
      assert s[i..][0] == s[i] == '.';
      assert s[i..][1..] == rest;
    }
    assert s == w + s[i..];
    TitledWord(w, t);
    TitledDot(rest);
    ConcatAssoc(CapitaliseWord(w), " ", Titled(rest, true));
  }

  lemma TitledDot(rest: string)
    ensures Titled("." + rest, false) == " " + Titled(rest, true)
  {
    var t := "." + rest;
    assert t[0] == '.' && t[1..] == rest;
  }

  /** The output of `FormatAgentName` has no '@', so formatting it again changes nothing. */
  lemma FormatAgentNameIdempotent(email: string)
    ensures FormatAgentName(FormatAgentName(email)) == FormatAgentName(email)
  {
  }

  /** Lower-casing the input first makes no difference to the formatted name. */
  lemma FormatAgentNameIgnoresCase(email: string)
    requires '@' in email
    ensures FormatAgentName(Lower(email)) == FormatAgentName(email)
  {
    var low := Lower(email);
    assert forall k :: 0 <= k < |email| ==> (low[k] == '@' <==> email[k] == '@');
    assert '@' in email <==> '@' in low by {
      if '@' in email {
        var k :| 0 <= k < |email| && email[k] == '@';
        assert low[k] == '@';
      }
      if '@' in low {
        var k :| 0 <= k < |low| && low[k] == '@';
        assert email[k] == '@';
      }
    }
    if '@' in email {
      var i, j := IndexOf(email, '@'), IndexOf(low, '@');
      assert low[i] == '@';
      assert email[j] == '@';
      assert i == j;
      var part := email[..i];
      assert low[..i] == Lower(part);
      TitledIgnoresCase(part, true);
      assert FormatAgentName(low) == Titled(low[..j], true);
      assert FormatAgentName(email) == Titled(part, true);
    }
  }

  lemma TitledIgnoresCase(s: string, atStart: bool)
    ensures Titled(Lower(s), atStart) == Titled(s, atStart)
  {
    var low := Lower(s);
    TitledPointwise(s, atStart);
    TitledPointwise(low, atStart);
    forall i | 0 <= i < |s|
      ensures TitleChar(low, i, atStart) == TitleChar(s, i, atStart)
    {
      assert low[i] == LowerChar(s[i]);
      if i > 0 { assert low[i - 1] == LowerChar(s[i - 1]); }
    }
  }

  // ---------------------------------------------------------------- weeks and ranges

  /** Moving an instant by whole days keeps its time of day. */
  lemma ShiftDays(t: int, k: int)
    ensures Day(t + k * MsPerDay) == Day(t) + k
    ensures TimeOfDay(t + k * MsPerDay) == TimeOfDay(t)
  {
    var d, r := Day(t), TimeOfDay(t);
    assert t + k * MsPerDay == (d + k) * MsPerDay + r;
  }

  /** `getStartOfWeek`: the Monday of the week (Monday to Sunday) containing `t`, at the same
      time of day; a Sunday goes back six days. */
  function StartOfWeek(t: int): (r: int)
    ensures Weekday(r) == 1
    ensures TimeOfDay(r) == TimeOfDay(t)
    ensures 0 <= Day(t) - Day(r) <= 6
    ensures Day(t) - Day(r) == (Weekday(t) + 6) % 7
  {
    var day := Weekday(t);
    var diff := -day + (if day == 0 then -6 else 1);
    ShiftDays(t, diff);
    t + diff * MsPerDay
  }

  /** `getEndOfWeek`: six days after the Monday, a Sunday, at the same time of day. */
  function EndOfWeek(t: int): (r: int)
    ensures Weekday(r) == 0
    ensures TimeOfDay(r) == TimeOfDay(t)
    ensures 0 <= Day(r) - Day(t) <= 6
    ensures Day(r) - Day(StartOfWeek(t)) == 6
  {
    var start := StartOfWeek(t);
    ShiftDays(start, 6);
    start + 6 * MsPerDay
  }

  /** Counting Monday-start weeks from the week of 1969-12-29 (day -3), the Monday of `t`'s week
      is the first day of week number `(Day(t) + 3) / 7`. */
  lemma StartOfWeekIndex(t: int)
    ensures Day(StartOfWeek(t)) == 7 * ((Day(t) + 3) / 7) - 3
  {
  }

  /** Two instants get the same Monday exactly when they lie in the same Monday-start week. */
  lemma {:induction false} SameWeek(a: int, b: int)
    ensures Day(StartOfWeek(a)) == Day(StartOfWeek(b)) <==> (Day(a) + 3) / 7 == (Day(b) + 3) / 7
  {
    StartOfWeekIndex(a);
    StartOfWeekIndex(b);
  }

  /** chartHelpers' `isDateInRange`: the start is moved back to its midnight and the end forward
      to 23:59:59.999, and both ends are included. An unparseable date is never in range. */
  function IsDateInRange(d: DateText, start: int, end: int): (r: bool)
    ensures r <==> Parses(d) && Day(start) <= Day(d.time.value) <= Day(end)
  {
    DayWindow(d.time.GetOr(0), start, end);
    d.time.Some? && StartOfDay(start) <= d.time.value <= EndOfDay(end)
  }

  /** The range the in-place `setHours` calls leave behind is a fixed point: re-running the check
      after the bounds were normalised by an earlier call gives the same answer. */
  lemma IsDateInRangeRepeatable(d: DateText, start: int, end: int)
    ensures IsDateInRange(d, StartOfDay(start), EndOfDay(end)) == IsDateInRange(d, start, end)
  {
  }

  datatype DateRanges = DateRanges(today: Range, yesterday: Range, thisWeek: Range)

  /** `getDateRanges` at instant `now` (every clock reading of the source taken as `now`).
      The `yesterday` range is built as `{ start: yesterday, end: new Date(yesterday.setHours(23, 59, 59, 999)) }`:
      `start` is the very Date object that `setHours` then moves to 23:59:59.999, so the range
      comes back holding that one instant at both ends. */
  function GetDateRanges(now: int): (r: DateRanges)
    ensures Day(r.today.start) == Day(now) && TimeOfDay(r.today.start) == 0 && r.today.end == now
    ensures r.yesterday.start == r.yesterday.end
    ensures Day(r.yesterday.end) == Day(now) - 1 && TimeOfDay(r.yesterday.end) == MsPerDay - 1
    ensures r.yesterday.end + 1 == r.today.start
    ensures Weekday(r.thisWeek.start) == 1 && Weekday(r.thisWeek.end) == 0
    ensures Day(r.thisWeek.end) - Day(r.thisWeek.start) == 6
    ensures Day(r.thisWeek.start) <= Day(now) <= Day(r.thisWeek.end)
    ensures TimeOfDay(r.thisWeek.start) == TimeOfDay(now) == TimeOfDay(r.thisWeek.end)
  {
    var today := StartOfDay(now);
    ShiftDays(today, -1);
    var yesterday := today - MsPerDay;
    var yesterdayEnd := EndOfDay(yesterday);
    DateRanges(Range(today, now), Range(yesterdayEnd, yesterdayEnd), Range(StartOfWeek(now), EndOfWeek(now)))
  }

  /** The returned `yesterday` range is a single instant, not a day. */
  lemma YesterdayRangeIsOneInstant(now: int)
    ensures var y := GetDateRanges(now).yesterday;
      y.start == y.end && y.start != StartOfDay(y.start)
  {
  }

  /** The ranges as evidently intended: `yesterday` starts at the previous midnight. */
  function GetDateRangesIntended(now: int): (r: DateRanges)
    ensures r.today == GetDateRanges(now).today && r.thisWeek == GetDateRanges(now).thisWeek
    ensures Day(r.yesterday.start) == Day(now) - 1 == Day(r.yesterday.end)
    ensures TimeOfDay(r.yesterday.start) == 0 && TimeOfDay(r.yesterday.end) == MsPerDay - 1
    ensures r.yesterday.end + 1 == r.today.start
  {
    var today := StartOfDay(now);
    ShiftDays(today, -1);
    var yesterday := today - MsPerDay;
    DateRanges(Range(today, now), Range(yesterday, EndOfDay(yesterday)), Range(StartOfWeek(now), EndOfWeek(now)))
  }

  /** Although `today` ends at `now`, the chart's range check stretches it to the end of the day:
      the today chart counts every record created on the current calendar day. */
  lemma TodayChartIsWholeDay(d: DateText, now: int)
    ensures var today := GetDateRanges(now).today;
      IsDateInRange(d, today.start, today.end) <==> Parses(d) && Day(d.time.value) == Day(now)
  {
  }

  /** Although the returned `yesterday` range is one instant, the range check moves its start back
      to midnight: the yesterday chart counts every record of the previous calendar day, exactly
      as the intended range does. */
  lemma YesterdayChartIsWholeDay(d: DateText, now: int)
    ensures var y := GetDateRanges(now).yesterday;
      IsDateInRange(d, y.start, y.end) <==> Parses(d) && Day(d.time.value) == Day(now) - 1
    ensures var y := GetDateRanges(now).yesterday;
      var z := GetDateRangesIntended(now).yesterday;
      IsDateInRange(d, y.start, y.end) == IsDateInRange(d, z.start, z.end)
  {
  }

  /** The this-week chart counts the records created from Monday 00:00:00.000 to Sunday
      23:59:59.999 of the current Monday-start week. */
  lemma ThisWeekChartIsWholeWeek(d: DateText, now: int)
    ensures var week := GetDateRanges(now).thisWeek;
      IsDateInRange(d, week.start, week.end) <==>
        Parses(d) && (Day(d.time.value) + 3) / 7 == (Day(now) + 3) / 7
  {
    StartOfWeekIndex(now);
  }

  // ---------------------------------------------------------------- sites per agent

  /** The organisation's address domain the charts count. */
  const EdfDomain: string := "@edfenergy.com"

  /** The first filter of `filterAndGroupSites`: ACTIVE, with a non-empty agent name whose
      trimmed form contains the organisation's domain. */
  predicate ChartEligible(r: SiteRecord) {
    IsActive(r) && Truthy(r.agentName) && Contains(Trim(r.agentName.value), EdfDomain)
  }

  /** The date filter: `created_at` is present and its day lies within the range. */
  function CreatedWithin(start: int, end: int): SiteRecord -> bool {
    (r: SiteRecord) => Present(r.createdAt) && IsDateInRange(r.createdAt, start, end)
  }

  /** Whether `filterAndGroupSites` counts a record: eligible and, when both bounds are given, created within them. */
  predicate ChartKeeps(x: SiteRecord, start: Option<int>, end: Option<int>) {
    ChartEligible(x) && (start.Some? && end.Some? ==> CreatedWithin(start.value, end.value)(x))
  }

  /** The records `filterAndGroupSites` counts, each as often as it occurs in the input. */
  function ChartRecords(records: seq<SiteRecord>, start: Option<int>, end: Option<int>): (kept: seq<SiteRecord>)
    ensures forall x :: multiset(kept)[x] == (if ChartKeeps(x, start, end) then multiset(records)[x] else 0)
  {
    var filtered := FilterBy(records, ChartEligible);
    if start.Some? && end.Some? && |filtered| > 0 then FilterBy(filtered, CreatedWithin(start.value, end.value))
    else filtered
  }

  /** One bar of a chart: a formatted agent name and the number of sites counted for it. */
  datatype AgentSites = AgentSites(name: string, sites: nat)

  function SitesOf(a: AgentSites): int {
    a.sites
  }

  function TotalSites(rows: seq<AgentSites>): int {
    SumBy(rows, SitesOf)
  }

  ghost predicate NamesDistinct(rows: seq<AgentSites>) {
    forall i, j :: 0 <= i < j < |rows| ==> rows[i].name != rows[j].name
  }

  /** The formatted agent name of every record, in order. */
  function AgentLabels(rs: seq<SiteRecord>): (labels: seq<string>)
    ensures |labels| == |rs|
    ensures forall i :: 0 <= i < |rs| ==> labels[i] == FormatAgentName(rs[i].agentName.GetOr(""))
  {
    if rs == [] then [] else [FormatAgentName(rs[0].agentName.GetOr(""))] + AgentLabels(rs[1..])
  }

  /** The index of `name` among the rows, or `|rows|`. */
  function FindName(rows: seq<AgentSites>, name: string): (i: nat)
    ensures i <= |rows|
    ensures i < |rows| ==> rows[i].name == name
    ensures i == |rows| ==> forall k :: 0 <= k < |rows| ==> rows[k].name != name
  {
    if rows == [] then 0
    else if rows[0].name == name then 0
    else 1 + FindName(rows[1..], name)
  }

  /** Counts one more occurrence of `name`: its row goes up by one, or a new row with count 1 is
      appended, so names stay in first-seen order. */
  function Bump(acc: seq<AgentSites>, name: string): seq<AgentSites> {
    var i := FindName(acc, name);
    if i < |acc| then acc[i := AgentSites(name, acc[i].sites + 1)] else acc + [AgentSites(name, 1)]
  }

  /** `rows` is the tally of `names`: one row per distinct name, holding how often it occurs,
      so that the counts add up to the number of names. */
  ghost predicate TallyOf(rows: seq<AgentSites>, names: seq<string>) {
    && NamesDistinct(rows)
    && (forall i :: 0 <= i < |rows| ==> rows[i].sites == multiset(names)[rows[i].name] >= 1)
    && (forall n :: n in names <==> exists i :: 0 <= i < |rows| && rows[i].name == n)
    && TotalSites(rows) == |names|
  }

  /** The `reduce` of `filterAndGroupSites`, keys in first-seen order. */
  function Tally(names: seq<string>): (rows: seq<AgentSites>)
    ensures TallyOf(rows, names)
    decreases |names|
  {
    if names == [] then []
    else
      var init, last := names[..|names| - 1], names[|names| - 1];
      assert names == init + [last];
      BumpTally(Tally(init), init, last);
      Bump(Tally(init), last)
  }

  /** Counting one more name keeps the tally exact. */
  lemma {:induction false} BumpTally(acc: seq<AgentSites>, init: seq<string>, last: string)
    requires TallyOf(acc, init)
    ensures TallyOf(Bump(acc, last), init + [last])
  {
    if FindName(acc, last) < |acc| {
      BumpExisting(acc, init, last);
    } else {
      BumpNew(acc, init, last);
    }
  }

  /** The name has a row already: that row counts one more, the others stay. */
  lemma {:induction false} BumpExisting(acc: seq<AgentSites>, init: seq<string>, last: string)
    requires TallyOf(acc, init)
    requires FindName(acc, last) < |acc|
    ensures TallyOf(Bump(acc, last), init + [last])
  {
    var names := init + [last];
    var rows := Bump(acc, last);
    var i := FindName(acc, last);
    assert multiset(names) == multiset(init) + multiset{last};
    assert forall n :: n in names <==> n in init || n == last;
    SumByUpdate(acc, i, AgentSites(last, acc[i].sites + 1), SitesOf);
    assert forall k :: 0 <= k < |acc| && k != i ==> rows[k] == acc[k];
    assert forall k :: 0 <= k < |acc| ==> rows[k].name == acc[k].name;
  }

  /** The name is new: its row goes at the end with a count of one, the others stay. */
  lemma {:induction false} BumpNew(acc: seq<AgentSites>, init: seq<string>, last: string)
    requires TallyOf(acc, init)
    requires FindName(acc, last) == |acc|
    ensures TallyOf(Bump(acc, last), init + [last])
  {
    var names := init + [last];
    var rows := Bump(acc, last);
    assert multiset(names) == multiset(init) + multiset{last};
    assert forall n :: n in names <==> n in init || n == last;
    SumByConcat(acc, [AgentSites(last, 1)], SitesOf);
    assert rows[|acc|].name == last;
    assert forall k :: 0 <= k < |acc| ==> rows[k] == acc[k];
    assert last !in init;
  }

  /** Most sites first (`(a, b) => b.sites - a.sites`). */
  function MoreSitesFirst(a: AgentSites, b: AgentSites): bool {
    a.sites >= b.sites
  }

  /** `filterAndGroupSites`: for each formatted agent name among the kept records, the number of
      kept records with that name, ordered by that number, largest first. */
  function FilterAndGroupSites(records: seq<SiteRecord>, start: Option<int>, end: Option<int>): (rows: seq<AgentSites>)
    ensures TallyOf(rows, AgentLabels(ChartRecords(records, start, end)))
    ensures SortedBy(rows, MoreSitesFirst)
  {
    var tally := Tally(AgentLabels(ChartRecords(records, start, end)));
    SortSorted(tally, MoreSitesFirst);
    PermutedTally(tally, Sort(tally, MoreSitesFirst), AgentLabels(ChartRecords(records, start, end)));
    Sort(tally, MoreSitesFirst)
  }

  lemma MoreSitesFirstTotal()
    ensures TotalPreorder(MoreSitesFirst)
  {
  }

  /** Any reordering of a tally is a tally of the same names. */
  lemma PermutedTally(tally: seq<AgentSites>, rows: seq<AgentSites>, labels: seq<string>)
    requires TallyOf(tally, labels)
    requires multiset(rows) == multiset(tally)
    ensures TallyOf(rows, labels)
  {
    SumByPermutation(tally, rows, SitesOf);
    forall x ensures x in rows <==> x in tally {
      assert x in rows <==> x in multiset(rows);
      assert x in tally <==> x in multiset(tally);
    }
    TallyRowsDistinct(tally, rows);
    forall n | n in labels
      ensures exists i :: 0 <= i < |rows| && rows[i].name == n
    {
      var k :| 0 <= k < |tally| && tally[k].name == n;
      assert tally[k] in rows;
    }
    forall i | 0 <= i < |rows|
      ensures rows[i].name in labels
      ensures rows[i].sites == multiset(labels)[rows[i].name] >= 1
    {
      assert rows[i] in tally;
    }
  }

  /** A reordering of a tally with distinct names still has distinct names. */
  lemma TallyRowsDistinct(tally: seq<AgentSites>, rows: seq<AgentSites>)
    requires NamesDistinct(tally)
    requires multiset(rows) == multiset(tally)
    ensures NamesDistinct(rows)
  {
    DistinctMultiset(tally);
    DistinctMultiset(rows);
    forall i, j | 0 <= i < j < |rows|
      ensures rows[i].name != rows[j].name
    {
      assert rows[i] in multiset(tally) && rows[j] in multiset(tally);
      var a :| 0 <= a < |tally| && tally[a] == rows[i];
      var b :| 0 <= b < |tally| && tally[b] == rows[j];
      assert a != b;
    }
  }
}
