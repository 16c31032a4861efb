# Site-activity dashboard: a Dafny model of its reporting logic

This project models the pure data handling of a dashboard that reports on energy sites added
by sales agents. Each site record has an agent address, a status, dates, a contact e-mail,
a login count, savings recommendations and meter fields. The dashboard turns these records into:

- **Charts:** bars of sites per agent (`src/utils/chartHelpers.ts`). Agent addresses become
  display names, records are filtered to ACTIVE sites of the company domain, the date windows
  are Monday-start weeks and whole days, and agents are counted and sorted.
- **Organisation statistics:** windowed totals (`src/utils/organisationHelpers.ts`). These are
  the site count, distinct customers, summed login counts, and savings and carbon savings of
  the strictly positive recommendations, computed over a date window, the last eight calendar
  days, a calendar month or all time.
- **The team roster:** a fixed table of four teams (`src/utils/teamMapping.ts`), searched in
  order without regard to case.
- **The daily statistics table** (`src/components/WeeklyStatsTable.tsx`):
  - a fold that groups records by onboarding day and by agent or team;
  - per-group site, customer and interaction counts;
  - the agent-to-address map and the team-leader lookup;
  - the row order, the interaction percentage and the spreadsheet export.
- **The site statistics table** (`src/components/SiteStatisticsTable.tsx`): one row per
  record with display fallbacks, meter keys joined into text, a newest-first order and the
  `DD/MM/YYYY` date export.
- **The e-mail report dialog** (`src/components/EmailReportDialog.tsx`):
  - the recipient list and its add, remove and update operations;
  - the address validator;
  - the choice of recipients and the state after sending or cancelling.

Records are immutable datatypes (`Records`). A possibly missing JavaScript value is an
`Option`, and a date field holds its raw text together with the instant `new Date(...)` gives
for it, or `None` for an Invalid Date. Instants are integer milliseconds on one timeline, with
local time equal to UTC. Money and carbon amounts are exact reals. Every operation is a pure
function. The clock and the report service are parameters: `now`, the month ranges and the
outcome of the service call.

Modules follow the source files: `ChartHelpers`, `OrganisationHelpers`, `TeamMapping`,
`WeeklyStatsTable`, `SiteStatisticsTable` and `EmailReportDialog`. They are supported by:

- `Text`: case mapping, split and join, trim, decimal digits and code-point order;
- `Time`: days, weekdays and the civil calendar;
- `DateFormat`: the `DD/MM/YYYY` text and reading it back;
- `Sequences`: filters, sums, a sort, and permutations;
- `Common`: `Option` and `Result`.

The roster stores each member's local part. The address is that local part followed by
`@edfenergy.com`, which is the same text as the source's literals.

Some behaviours of the code are easy to mistake, and the model keeps them as the code has them:

- Contact e-mails are compared exactly as stored, not lower-cased.
- The "last 7 days" window runs from midnight seven days ago to the end of today, which is eight
  calendar days.
- In the team view of the daily table, an agent outside every team is grouped under 'Unknown';
  such records are not dropped.
- The daily table applies no company-domain filter.
- A counted record whose onboarding date does not parse makes the daily table fail
  (`toISOString` throws); the record is not skipped. The model returns an error.

## Model

| member | source | states |
|---|---|---|
| TeamMapping.TeamFor | src/utils/teamMapping.ts:75-85 | the lookup yields a team exactly when some team has a member whose address equals the input ignoring case, and then it is the name of the first such team in roster order |
| TeamMapping.FirstTeamIndex | src/utils/teamMapping.ts:76-83 | the search stops at the first team with a matching member; no team before it matches, and it runs past the end only when none does |
| TeamMapping.HasMemberIgnoresCase | src/utils/teamMapping.ts:77-79 | a team has a member for an address exactly when it has one for the lower-cased address |
| TeamMapping.TeamForIgnoresCase | src/utils/teamMapping.ts:78 | lower-casing the address before the lookup never changes the team found |
| TeamMapping.RosterAddressesAreCompanyMail | src/utils/teamMapping.ts:17-70 | every member address of the static roster ends with "@edfenergy.com" |
| TeamMapping.RosterAddressesDisjoint | src/utils/teamMapping.ts:12-73 | no member address of one team is also the address of a member of another team |
| TeamMapping.RosterIsLowerCase | src/utils/teamMapping.ts:12-73 | every roster address is written without upper-case letters, so lower-casing it changes nothing |
| TeamMapping.RosterTeamsDisjoint | src/utils/teamMapping.ts:75-85 | no address, in any mix of upper and lower case, matches members of two different teams |
| TeamMapping.GetTeamForAgentIsOnlyMatch | src/utils/teamMapping.ts:75-85 | on the static roster the lookup names a team exactly when that team has a member matching the address ignoring case, so the first matching team is the only one |
| ChartHelpers.FormatAgentName | src/utils/chartHelpers.ts:8-19 | an empty input or one without '@' comes back unchanged; otherwise the result has the length of the text before the first '@' and contains neither '@' nor '.' |
| ChartHelpers.FormatWordsIsTitled | src/utils/chartHelpers.ts:15-18 | splitting at '.', capitalising each word and joining with spaces equals the character-wise description: dots become spaces, word starts upper case, the rest lower case |
| ChartHelpers.TitledPointwise | src/utils/chartHelpers.ts:15-18 | each position of the formatted name is determined by the input character there and by whether that character starts a word |
| ChartHelpers.FormatAgentNameIdempotent | src/utils/chartHelpers.ts:9-18 | formatting an already formatted name changes nothing |
| ChartHelpers.FormatAgentNameIgnoresCase | src/utils/chartHelpers.ts:15-18 | for an address with '@', lower-casing it first gives the same display name |
| ChartHelpers.TitledIgnoresCase | src/utils/chartHelpers.ts:17 | the per-word capitalisation ignores the case of its input |
| ChartHelpers.StartOfWeek | src/utils/chartHelpers.ts:21-25 | the result is a Monday 0 to 6 days back at the same time of day; a Sunday goes back six days |
| ChartHelpers.EndOfWeek | src/utils/chartHelpers.ts:27-30 | the result is the Sunday six days after that Monday, 0 to 6 days ahead, at the same time of day |
| ChartHelpers.SameWeek | src/utils/chartHelpers.ts:21-25 | two instants get the same Monday exactly when they fall in the same Monday-start week |
| ChartHelpers.StartOfWeekIndex | src/utils/chartHelpers.ts:21-25 | the Monday is the first day of the Monday-start week that contains the instant, counted from 1969-12-29 |
| ChartHelpers.IsDateInRange | src/utils/chartHelpers.ts:32-37 | a date is in range exactly when it parses and its day lies between the start's day and the end's day, both whole days included |
| ChartHelpers.IsDateInRangeRepeatable | src/utils/chartHelpers.ts:34-35 | the bounds that the in-place `setHours` leaves behind give the same answer on a later call |
| ChartHelpers.GetDateRanges | src/utils/chartHelpers.ts:73-88 | today runs from midnight to now; both ends of yesterday are the same instant, the last millisecond of the previous day, 1 ms before today starts; this week runs from Monday to Sunday around now |
| ChartHelpers.YesterdayRangeIsOneInstant | src/utils/chartHelpers.ts:85 | the returned yesterday range starts where it ends, and that instant is not a midnight |
| ChartHelpers.GetDateRangesIntended | src/utils/chartHelpers.ts:73-88 | with yesterday starting at the previous midnight, yesterday is the whole previous day and ends 1 ms before today starts; today and this week are unchanged |
| ChartHelpers.YesterdayChartIsWholeDay | src/utils/chartHelpers.ts:32-37 | because the range check moves its start back to midnight, the one-instant yesterday range still counts exactly the records of the previous calendar day, as the intended range does |
| ChartHelpers.TodayChartIsWholeDay | src/utils/chartHelpers.ts:84 | with the range check, the today range counts every record created on the current calendar day, even after now |
| ChartHelpers.ThisWeekChartIsWholeWeek | src/utils/chartHelpers.ts:86 | the this-week range counts exactly the records created in the current Monday-start week |
| ChartHelpers.ChartRecords | src/utils/chartHelpers.ts:45-58 | the kept records are the ACTIVE ones whose trimmed agent name contains the company domain; when both bounds are given, they must also have been created within them; multiplicities are kept |
| ChartHelpers.Tally | src/utils/chartHelpers.ts:61-65 | one row per distinct name, each holding how often the name occurs (at least once); the counts add up to the number of names |
| ChartHelpers.BumpTally | src/utils/chartHelpers.ts:62-64 | counting one more name keeps the tally exact |
| ChartHelpers.FilterAndGroupSites | src/utils/chartHelpers.ts:39-71 | the result tallies the display names of the kept records (distinct names, counts at least 1, summing to the kept count) and is ordered by count, largest first |
| ChartHelpers.PermutedTally | src/utils/chartHelpers.ts:68-70 | sorting the tally keeps it a tally of the same names |
| ChartHelpers.MoreSitesFirstTotal | src/utils/chartHelpers.ts:70 | the by-count order is a total preorder, so the sort is well defined |
| Time.DayWindow | src/utils/chartHelpers.ts:34-36 | an instant lies between the start of one day and the end of another exactly when its own day lies between them |
| OrganisationHelpers.OrgDateInRangeMatchesChart | src/utils/organisationHelpers.ts:12-16 | the undated check is false for an absent date and is inclusive without day normalisation; on day-aligned bounds it agrees with the chart's check |
| OrganisationHelpers.PositiveTotal | src/utils/organisationHelpers.ts:23-29 | the filter-then-reduce over one field is the sum of its strictly positive values and is never negative |
| OrganisationHelpers.PositiveTotalIsSumOfPositiveParts | src/utils/organisationHelpers.ts:23-29 | summing the filtered entries equals summing every entry's positive part |
| OrganisationHelpers.CalculateSavings | src/utils/organisationHelpers.ts:18-32 | a missing or empty list gives zero savings; otherwise each total is the sum of the strictly positive amounts, and neither is negative |
| OrganisationHelpers.CalculateSavingsAdditive | src/utils/organisationHelpers.ts:23-31 | the savings of a concatenated list are the sums of the savings of its parts |
| OrganisationHelpers.NonPositiveEntryAddsNothing | src/utils/organisationHelpers.ts:24 | an entry without a positive saving changes nothing |
| OrganisationHelpers.WindowSites | src/utils/organisationHelpers.ts:39-43 | the counted sites are exactly the ACTIVE records onboarded within the window, with multiplicities |
| OrganisationHelpers.Summarise | src/utils/organisationHelpers.ts:45-71 | sites is the number of records; customers is the number of distinct truthy contact e-mails, at most sites; interactions is the sum of login counts with missing as 0; savings and carbon savings are the sums of the strictly positive amounts over every recommendation of every site, so never negative |
| OrganisationHelpers.SiteSavingsArePooled | src/utils/organisationHelpers.ts:60-66 | adding up each site's savings equals summing the positive savings of all the sites' recommendations pooled in one list |
| OrganisationHelpers.SummariseSnoc | src/utils/organisationHelpers.ts:60-66 | one more site adds exactly its own savings and carbon savings to the totals |
| OrganisationHelpers.GetOrganisationStats | src/utils/organisationHelpers.ts:34-72 | the statistics of exactly the window's ACTIVE sites, with no domain filter: their count, distinct contacts, login total and the positive savings and carbon savings of their recommendations |
| OrganisationHelpers.ActiveSites | src/utils/organisationHelpers.ts:97 | exactly the ACTIVE records, with multiplicities |
| OrganisationHelpers.GetTotalStats | src/utils/organisationHelpers.ts:96-126 | the same statistics, savings included, over every ACTIVE site, with no date filter |
| OrganisationHelpers.WindowOfActive | src/utils/organisationHelpers.ts:39-43 | the window's sites are the ACTIVE sites filtered by onboarding date |
| OrganisationHelpers.WindowWithinTotal | src/utils/organisationHelpers.ts:96-126 | a window never has more sites, customers, savings or carbon savings than all time |
| OrganisationHelpers.DisjointWindows | src/utils/organisationHelpers.ts:39-43 | two windows that do not overlap together count no more sites than all time |
| OrganisationHelpers.CustomersAreCaseSensitive | src/utils/organisationHelpers.ts:45-47 | two spellings of one address differing only in case count as two customers |
| OrganisationHelpers.Last7Days | src/utils/organisationHelpers.ts:74-79 | the window runs from midnight seven days before now to the last millisecond of today |
| OrganisationHelpers.GetLast7DaysStats | src/utils/organisationHelpers.ts:74-79 | a site is counted exactly when it is ACTIVE and onboarded on one of the eight calendar days from seven days ago to today |
| OrganisationHelpers.GetCurrentMonthStats | src/utils/organisationHelpers.ts:81-86 | given the bounds of the calendar month around now (midnight on its first day to the last millisecond of its last day), the full window statistics of that month; a site onboarded on now's own day is always within it |
| OrganisationHelpers.GetPreviousMonthStats | src/utils/organisationHelpers.ts:88-94 | given the bounds of the calendar month that ends the millisecond before the month around now begins, the full window statistics of that month; every site it counts was onboarded before the current month began |
| OrganisationHelpers.MonthsWithinTotal | src/utils/organisationHelpers.ts:81-94 | for the current and the previous calendar month, no site is counted in both, so together they count no more than all time |
| OrganisationHelpers.MonthsOf2000 | src/utils/organisationHelpers.ts:81-94 | the month conditions describe real months: February 2000 is the month around 15 February 2000 and January 2000 the month before it |
| OrganisationHelpers.EmptyStats | src/utils/organisationHelpers.ts:34-72 | with no records every statistic is zero |
| Records.Contacts | src/utils/organisationHelpers.ts:45-47 | the set holds exactly the truthy contact e-mails of the records, as stored, and is no larger than the record count |
| WeeklyStatsTable.TeamLeaderFor | src/components/WeeklyStatsTable.tsx:16-26 | the lead of the first team in roster order with a member matching ignoring case, and 'Unknown' when no team has one |
| WeeklyStatsTable.LeaderMatchesTeam | src/components/WeeklyStatsTable.tsx:16-26 | the leader and the team name the lookup reports come from the same team, and an unmatched address has leader 'Unknown' |
| WeeklyStatsTable.GetTeamLeaderForAgent | src/components/WeeklyStatsTable.tsx:16-26 | on the static roster the result is never empty; it is 'Unknown' or the lead of a roster team |
| WeeklyStatsTable.UnmappedAgentIsUnknown | src/components/WeeklyStatsTable.tsx:58-60 | in the team view an agent outside every team is grouped under 'Unknown' |
| WeeklyStatsTable.Fold | src/components/WeeklyStatsTable.tsx:62-80 | the groups have distinct keys; each is the fold of its key with at least one site; every record has a group; the site counts add up to the number of records |
| WeeklyStatsTable.AddRecordGroups | src/components/WeeklyStatsTable.tsx:62-80 | one iteration of the loop keeps the grouping exact |
| WeeklyStatsTable.GroupOfIsSummary | src/components/WeeklyStatsTable.tsx:66-80 | a group holds the count, the distinct truthy contact e-mails and the number with a positive login count of exactly the records of its day and agent |
| WeeklyStatsTable.AgentEmails | src/components/WeeklyStatsTable.tsx:84-90 | the map's keys are the display names of all records with a truthy agent name, each mapped to the raw name of the last record carrying it |
| WeeklyStatsTable.RowsOfGroups | src/components/WeeklyStatsTable.tsx:92-103 | one row per group, in the groups' order |
| WeeklyStatsTable.GroupRows | src/components/WeeklyStatsTable.tsx:92-103 | flattening a grouping gives a table of the same records: one row per key, site counts adding up |
| WeeklyStatsTable.PermutedRows | src/components/WeeklyStatsTable.tsx:106-111 | reordering the table keeps it a table of the same records |
| WeeklyStatsTable.RowBeforeTotal | src/components/WeeklyStatsTable.tsx:106-111 | newest day first, then agent ascending, is a total preorder |
| WeeklyStatsTable.DailyRows | src/components/WeeklyStatsTable.tsx:50-111 | an error exactly when a counted record's date does not parse; otherwise one row per (day, key) of the counted records, site counts summing to their number, ordered newest day first and then by agent, no two rows with the same day and agent |
| WeeklyStatsTable.DailyRowsSummarise | src/components/WeeklyStatsTable.tsx:71-97 | each row counts its day's and agent's counted records (at least one), its distinct contacts (at most that) and those with a positive login count (at most that), and carries the agent's mapped address |
| WeeklyStatsTable.RowsSummarise | src/components/WeeklyStatsTable.tsx:92-103 | the same for any table of any records under any grouping key |
| WeeklyStatsTable.InteractionPercentage | src/components/WeeklyStatsTable.tsx:116-118 | 0 without customers, otherwise the integer nearest to 100 x interactions / customers, halves rounded up |
| WeeklyStatsTable.PercentageAtMostHundred | src/components/WeeklyStatsTable.tsx:184-186 | with no more interactions than customers the percentage is at most 100 |
| WeeklyStatsTable.PercentageCanExceedHundred | src/components/WeeklyStatsTable.tsx:74-80 | two records of one customer who both logged in make a 200% row, since interactions count records and customers count addresses |
| WeeklyStatsTable.ExportRowOf | src/components/WeeklyStatsTable.tsx:115-128 | the export keeps agent and counts; the team-leader column is empty in the team view, and in the individual view it is the roster lookup's leader for the row's address, never empty |
| WeeklyStatsTable.ExportRows | src/components/WeeklyStatsTable.tsx:115 | one export line per row, in order |
| WeeklyStatsTable.ExportReadsBack | src/components/WeeklyStatsTable.tsx:121-127 | the exported date reads back as the row's calendar day, and the percentage text is the percentage's digits followed by '%' |
| DateFormat.FormatParseRoundTrip | src/components/WeeklyStatsTable.tsx:29-35 | the `DD/MM/YYYY` text of a date with a non-negative year reads back as that date |
| DateFormat.TwoDigitsValue | src/components/SiteStatisticsTable.tsx:21-22 | padding to two digits keeps the number's value |
| SiteStatisticsTable.FormatDateDDMMYYYY | src/components/SiteStatisticsTable.tsx:18-25 | 'N/A' for an empty date, 'NaN/NaN/NaN' for one that does not parse |
| SiteStatisticsTable.FormattedDateReadsBack | src/components/SiteStatisticsTable.tsx:18-25 | a parsed date prints as text that reads back as its calendar day; 'N/A' and the NaN text read back as nothing |
| SiteStatisticsTable.ExtractMeterKeys | src/components/SiteStatisticsTable.tsx:28-43 | 'N/A' for an absent field, a non-object or an object without keys; otherwise the keys joined by ", " |
| SiteStatisticsTable.MeterNotAvailable | src/components/SiteStatisticsTable.tsx:28-43 | the text is 'N/A' exactly when there is no key or the only key is 'N/A' |
| SiteStatisticsTable.MeterKeysReadBack | src/components/SiteStatisticsTable.tsx:31 | keys without commas can be recovered by splitting the text at ',' |
| SiteStatisticsTable.RowOfRecord | src/components/SiteStatisticsTable.tsx:47-53 | the address is the site address, else the display name, else 'N/A'; status and company are the record's own when non-empty, else 'N/A'; the agent is the formatted agent name, or 'Unknown' when it is empty; the date is the record's; MPAN and MPRN are the meter keys of the electricity and gas fields |
| SiteStatisticsTable.Project | src/components/SiteStatisticsTable.tsx:46-54 | exactly one row per record, in input order, with no filter |
| SiteStatisticsTable.NewerFirstTotal | src/components/SiteStatisticsTable.tsx:57-61 | the table order is a total preorder |
| SiteStatisticsTable.ComparatorAgrees | src/components/SiteStatisticsTable.tsx:57-61 | wherever the source comparator puts one row strictly first, the table order agrees |
| SiteStatisticsTable.UndatedRowsDisagree | src/components/SiteStatisticsTable.tsx:58-59 | the comparator as written says each of two undated rows sorts after the other |
| SiteStatisticsTable.CompareRowsFixedConsistent | src/components/SiteStatisticsTable.tsx:57-61 | with undated rows compared equal, the comparator is antisymmetric and agrees with the table order on rows whose dates parse or are absent |
| SiteStatisticsTable.SiteTable | src/components/SiteStatisticsTable.tsx:46-61 | the table is a permutation of the projected rows, sorted dated newest first, then unparseable, then undated; among rows whose dates parse or are absent, the corrected comparator never puts a later row first |
| EmailReportDialog.AddEmailField | src/components/EmailReportDialog.tsx:15-17 | one more empty field at the end, the others unchanged |
| EmailReportDialog.RemoveEmailField | src/components/EmailReportDialog.tsx:19-23 | removes exactly the entry at the index when there are at least two and the index is in range, and otherwise changes nothing, so a non-empty list stays non-empty |
| EmailReportDialog.WithoutIndex | src/components/EmailReportDialog.tsx:21 | the filter on the index drops exactly that position, or nothing for an index out of range |
| EmailReportDialog.UpdateEmail | src/components/EmailReportDialog.tsx:25-29 | only the entry at the index changes and the length stays |
| EmailReportDialog.ValidateEmailMatches | src/components/EmailReportDialog.tsx:31-33 | the validator accepts exactly the strings of the form local@domain.tld with three non-empty runs free of white space and '@' |
| EmailReportDialog.ValidRecipients | src/components/EmailReportDialog.tsx:37 | the untrimmed entries whose trim is valid, in order, with multiplicities |
| EmailReportDialog.AcceptableIsValidTrim | src/components/EmailReportDialog.tsx:37 | the emptiness test is redundant: a valid address is never empty |
| EmailReportDialog.HandleSend | src/components/EmailReportDialog.tsx:35-62 | nothing is sent and nothing changes without a valid recipient; otherwise the valid list is sent; a delivery closes the dialog and resets the list to one empty field; a failure keeps it |
| EmailReportDialog.Step | src/components/EmailReportDialog.tsx:15-29 | no single action empties a non-empty list |
| EmailReportDialog.NeverEmpty | src/components/EmailReportDialog.tsx:19-23 | whatever sequence of actions follows, a non-empty list stays non-empty |
| EmailReportDialog.InitialNeverEmpty | src/components/EmailReportDialog.tsx:12 | starting from `[""]`, the dialog always shows at least one field |

## Left out

- Rendering, React state hooks, toasts, the spreadsheet and file-name generation, and the
  network call to the report service: the service's answer is a parameter of
  `EmailReportDialog.HandleSend`.
- The functions imported from modules whose source is not part of this model
  (`groupByWeekAndAgent`, `filterAndGroupSitesByTeam`, the daily, weekly, type and monthly
  statistics of `src/components/OrganisationStats.tsx`) are not modelled.
- Time zones: local time is taken to be UTC, so `getDate`/`setHours` and `toISOString` see the
  same calendar day. `new Date(text)` parsing is an input: each date field carries the instant
  it parses to.
- OrganisationHelpers.GetCurrentMonthStats, OrganisationHelpers.GetPreviousMonthStats: the
  month bounds that date-fns `startOfMonth`, `endOfMonth` and `subMonths` compute are given as
  ranges and required to be calendar months (`CalendarMonth`, `MonthAround`, `MonthBefore`),
  not computed from `now`.
- Every clock reading within one call is taken to be the same instant `now`.
- Floating point: amounts are exact reals, and the date bounds are exact integers.
- `Text.Lower` and `Text.Upper` map ASCII letters only. JavaScript's case mapping covers all of
  Unicode.
- `localeCompare` is modelled as code-point order.
- WeeklyStatsTable.DailyRows: the `YYYY-MM-DD` key is the day number. Text and number order
  agree for years 0 to 9999. The six-digit ISO years outside that range are not modelled.
- WeeklyStatsTable.InteractionPercentage: rounds the exact quotient. The source rounds a
  floating-point product, which can land on the other side of a half.
- TeamMapping.RosterAddressesAreCompanyMail: the roster is written as local parts followed by
  the common domain. The property therefore holds by construction of the addresses, rather
  than by reading each address.
- ChartHelpers.FilterAndGroupSites: rows with equal counts keep the order in which their names
  were first seen. `Object.entries` lists integer-like keys first, in ascending order, so in the
  source a display name such as "123" moves ahead of earlier names with the same count.
- SiteStatisticsTable.ExtractMeterKeys: takes the object's keys in the order given. JavaScript
  lists integer-like keys below 2^32 - 1 first, in ascending order. Meter numbers of 13 digits
  or more are not affected.
- SiteStatisticsTable.SiteTable: an Invalid Date makes the source comparator return NaN, which
  the sort treats as "equal". The model sorts by one total order, dated rows first, and proves
  that the source comparator never strictly contradicts it. It does not reproduce the order the
  engine's sort would produce.
- EmailReportDialog.Step: an update at an index outside the list is ignored. JavaScript would
  extend the array, but the dialog only passes indexes of fields on screen. The in-flight
  `sending` state, which disables the buttons, is not represented between actions.
- Field values of unexpected JavaScript types (a non-string agent name, non-numeric amounts)
  are not representable. Truthy non-array recommendation values behave as a missing list,
  which is what the source computes for them.

## Findings

| source | as written | input that shows it | evidently intended | confidence | as-written member | corrected member |
|---|---|---|---|---|---|---|
| src/utils/chartHelpers.ts:85 | `start: yesterday` is the same Date object that `yesterday.setHours(23, 59, 59, 999)` then moves, so the returned range begins at the last millisecond of yesterday | any clock reading: both ends of the yesterday range are 23:59:59.999 of the previous day | the range starts at the previous midnight; the chart is unaffected only because the range check resets the start to midnight | not executed | ChartHelpers.YesterdayRangeIsOneInstant | ChartHelpers.GetDateRangesIntended |
| src/components/SiteStatisticsTable.tsx:57-61 | the comparator returns 1 whenever the first row is undated, even when the second row is undated too | two rows that both have an empty `onboard_date`: each compares greater than the other | undated rows compare equal, so the comparator is consistent and their relative order is stable | not executed | SiteStatisticsTable.UndatedRowsDisagree | SiteStatisticsTable.CompareRowsFixedConsistent |
