/** The daily statistics table (src/components/WeeklyStatsTable.tsx): records grouped by
    onboarding day and by agent or team, each group summarised by its site count, its distinct
    customers and its interactions, the rows ordered newest day first, and the export rows with
    the team leader and the interaction percentage. */
module WeeklyStatsTable {
  import opened Common
  import opened Text
  import opened Time
  import opened Records
  import opened Sequences
  import opened TeamMapping
  import opened DateFormat
  import ChartHelpers

  datatype ViewType = Individual | TeamView

  // ---------------------------------------------------------------- team leader

  /** `getTeamLeaderForAgent` over a roster: the lead of the first team, in roster order, with a
      member whose email equals `email` ignoring case, and 'Unknown' when nobody matches. */
  function TeamLeaderFor(teams: seq<Team>, email: string): (lead: string)
    ensures (forall k :: 0 <= k < |teams| ==> !HasMember(teams[k], email)) ==> lead == "Unknown"
    ensures (exists k :: 0 <= k < |teams| && HasMember(teams[k], email)) ==>
              exists k :: 0 <= k < |teams| && HasMember(teams[k], email) && lead == teams[k].lead
                          && forall j :: 0 <= j < k ==> !HasMember(teams[j], email)
  {
    var i := FirstTeamIndex(teams, email);
    if i < |teams| then teams[i].lead else "Unknown"
  }

  /** The leader and the team name reported for an address come from the same team. */
  lemma LeaderMatchesTeam(teams: seq<Team>, email: string)
    ensures TeamFor(teams, email).None? ==> TeamLeaderFor(teams, email) == "Unknown"
    ensures TeamFor(teams, email).Some? ==>
              exists k :: 0 <= k < |teams| && TeamFor(teams, email).value == teams[k].name
                          && TeamLeaderFor(teams, email) == teams[k].lead
  {
  }

  /** `getTeamLeaderForAgent` on the static roster; it never yields an empty name. */
  function GetTeamLeaderForAgent(email: string): (lead: string)
    ensures lead != []
    ensures lead == "Unknown" || exists k :: 0 <= k < |TEAMS| && lead == TEAMS[k].lead
  {
    TeamLeaderFor(TEAMS, email)
  }

  // ---------------------------------------------------------------- which records count

  /** An agent whose inactive sites are counted too: the agent name, lower-cased, contains
      "lauren.wise". */
  predicate InactiveAllowed(r: SiteRecord) {
    r.agentName.Some? && Contains(Lower(r.agentName.value), "lauren.wise")
  }

  /** A record enters the table: it has an onboarding date and is ACTIVE, unless its agent is
      the one whose inactive sites are shown too. No domain filter applies. */
  predicate Counted(r: SiteRecord) {
    Present(r.onboardDate) && (IsActive(r) || InactiveAllowed(r))
  }

  // ---------------------------------------------------------------- grouping keys

  /** The grouping key of a counted record: the team name (or 'Unknown') in the team view, the
      formatted agent name in the individual view. */
  function AgentKey(view: ViewType, r: SiteRecord): string {
    match view
    case TeamView =>
      var team := GetTeamForAgent(OrElse(r.agentName, ""));
      if team.Some? && team.value != [] then team.value else "Unknown"
    case Individual => ChartHelpers.FormatAgentName(OrElse(r.agentName, ""))
  }

  /** In the team view an agent outside every team is grouped under 'Unknown', not dropped. */
  lemma UnmappedAgentIsUnknown(r: SiteRecord)
    requires GetTeamForAgent(OrElse(r.agentName, "")).None?
    ensures AgentKey(TeamView, r) == "Unknown"
  {
  }

  /** A group: the onboarding day (the `YYYY-MM-DD` key of the source) and the agent key. */
  datatype Key = Key(date: int, agent: string)

  /** The key of a record in the chosen view: the day of its onboarding instant and its agent
      key. Only records whose date parses are grouped, so the day of the others is immaterial. */
  function DayAgentKey(view: ViewType, r: SiteRecord): Key {
    Key(if Parses(r.onboardDate) then Day(r.onboardDate.time.value) else 0, AgentKey(view, r))
  }

  /** The same, as a function of the record. The grouping below is stated for any such
      function. */
  function KeyIn(view: ViewType): SiteRecord -> Key {
    r => DayAgentKey(view, r)
  }

  /** Membership of the group with key `k`. */
  function InGroup(key: SiteRecord -> Key, k: Key): SiteRecord -> bool {
    (x: SiteRecord) => Parses(x.onboardDate) && key(x) == k
  }

  /** The records of group `k`, in input order. */
  function Members(key: SiteRecord -> Key, recs: seq<SiteRecord>, k: Key): seq<SiteRecord> {
    FilterBy(recs, InGroup(key, k))
  }

  /** The record counts as an interaction: its login count is present and positive. */
  predicate Interacted(r: SiteRecord) {
    r.loggedInContacts.Some? && r.loggedInContacts.value > 0
  }

  // ---------------------------------------------------------------- the fold

  /** The accumulator of one group: sites, the set of contact emails and interactions. */
  datatype Group = Group(key: Key, sites: nat, contacts: set<string>, interactions: nat)

  function GroupKey(g: Group): Key {
    g.key
  }

  function GroupSites(g: Group): int {
    g.sites
  }

  /** What a group holds once it has seen exactly the records `ms`. */
  function Summary(k: Key, ms: seq<SiteRecord>): Group {
    Group(k, |ms|, Contacts(ms), |FilterBy(ms, Interacted)|)
  }

  /** One record's contribution to its group. */
  function AddTo(g: Group, r: SiteRecord): Group {
    Group(g.key, g.sites + 1,
          if Truthy(r.contactEmail) then g.contacts + {r.contactEmail.value} else g.contacts,
          if Interacted(r) then g.interactions + 1 else g.interactions)
  }

  /** The position of the group with key `k`, or `|groups|`. */
  function FindKey(groups: seq<Group>, k: Key): (i: nat)
    ensures i <= |groups|
    ensures i < |groups| ==> groups[i].key == k
    ensures i == |groups| ==> forall j :: 0 <= j < |groups| ==> groups[j].key != k
  {
    if groups == [] then 0
    else if groups[0].key == k then 0
    else 1 + FindKey(groups[1..], k)
  }

  /** One iteration of the `forEach`: the record's group is created if missing, then counted. */
  function AddRecord(groups: seq<Group>, key: SiteRecord -> Key, r: SiteRecord): seq<Group>
    requires Parses(r.onboardDate)
  {
    var k := key(r);
    var i := FindKey(groups, k);
    if i < |groups| then groups[i := AddTo(groups[i], r)]
    else groups + [AddTo(Group(k, 0, {}, 0), r)]
  }

  /** Group `k` after the fold has seen `recs`, one record at a time. */
  function GroupOf(key: SiteRecord -> Key, recs: seq<SiteRecord>, k: Key): Group
    decreases |recs|
  {
    if recs == [] then Group(k, 0, {}, 0)
    else
      var g := GroupOf(key, recs[..|recs| - 1], k);
      if InGroup(key, k)(recs[|recs| - 1]) then AddTo(g, recs[|recs| - 1]) else g
  }

  /** `groups` is the grouping of `recs`: one group per key that occurs, each as the fold leaves
      it, with the site counts adding up to the number of records. */
  ghost predicate GroupsOf(groups: seq<Group>, key: SiteRecord -> Key, recs: seq<SiteRecord>) {
    && KeysDistinct(groups, GroupKey)
    && (forall i :: 0 <= i < |groups| ==> groups[i] == GroupOf(key, recs, groups[i].key) && groups[i].sites >= 1)
    && (forall x :: x in recs && Parses(x.onboardDate) ==> exists i :: 0 <= i < |groups| && groups[i].key == key(x))
    && SumBy(groups, GroupSites) == |recs|
  }

  /** The grouping fold over records whose dates all parse, in input order. */
  function Fold(key: SiteRecord -> Key, recs: seq<SiteRecord>): (groups: seq<Group>)
    requires forall x :: x in recs ==> Parses(x.onboardDate)
    ensures GroupsOf(groups, key, recs)
    decreases |recs|
  {
    if recs == [] then []
    else
      var init, last := recs[..|recs| - 1], recs[|recs| - 1];
      assert recs == init + [last];
      AddRecordGroups(Fold(key, init), key, init, last);
      AddRecord(Fold(key, init), key, last)
  }

  /** One more record changes only its own group. */
  lemma {:induction false} GroupOfSnoc(key: SiteRecord -> Key, init: seq<SiteRecord>, r: SiteRecord, k: Key)
    ensures GroupOf(key, init + [r], k) == if InGroup(key, k)(r) then AddTo(GroupOf(key, init, k), r) else GroupOf(key, init, k)
  {
    assert (init + [r])[..|init|] == init;
  }

  /** A key that no record has leaves its group empty. */
  lemma {:induction false} GroupOfAbsent(key: SiteRecord -> Key, recs: seq<SiteRecord>, k: Key)
    requires forall x :: x in recs ==> !InGroup(key, k)(x)
    ensures GroupOf(key, recs, k) == Group(k, 0, {}, 0)
    decreases |recs|
  {
    if recs != [] {
      assert recs[|recs| - 1] in recs;
      GroupOfAbsent(key, recs[..|recs| - 1], k);
    }
  }

  /** Counting one more record keeps the grouping exact. */
  lemma {:induction false} AddRecordGroups(groups: seq<Group>, key: SiteRecord -> Key, init: seq<SiteRecord>, r: SiteRecord)
    requires Parses(r.onboardDate)
    requires GroupsOf(groups, key, init)
    ensures GroupsOf(AddRecord(groups, key, r), key, init + [r])
  {
    if FindKey(groups, key(r)) < |groups| {
      AddToExisting(groups, key, init, r);
    } else {
      AddNewGroup(groups, key, init, r);
    }
  }

  /** The record's key already has a group: that group counts it, the others stay. */
  lemma {:induction false} AddToExisting(groups: seq<Group>, key: SiteRecord -> Key, init: seq<SiteRecord>, r: SiteRecord)
    requires Parses(r.onboardDate)
    requires GroupsOf(groups, key, init)
    requires FindKey(groups, key(r)) < |groups|
    ensures GroupsOf(AddRecord(groups, key, r), key, init + [r])
  {
    var recs := init + [r];
    var k := key(r);
    var i := FindKey(groups, k);
    var next := groups[i := AddTo(groups[i], r)];
    assert next == AddRecord(groups, key, r);
    assert forall j :: 0 <= j < |groups| ==> next[j].key == groups[j].key;
    forall j | 0 <= j < |next|
      ensures next[j] == GroupOf(key, recs, next[j].key) && next[j].sites >= 1
    {
      GroupOfSnoc(key, init, r, groups[j].key);
    }
    SumByUpdate(groups, i, AddTo(groups[i], r), GroupSites);
    forall x | x in recs && Parses(x.onboardDate)
      ensures exists j :: 0 <= j < |next| && next[j].key == key(x)
    {
      if x != r {
        assert x in init;
      }
    }
  }

  /** The record's key is new: a group for it goes at the end, the others stay. */
  lemma {:induction false} AddNewGroup(groups: seq<Group>, key: SiteRecord -> Key, init: seq<SiteRecord>, r: SiteRecord)
    requires Parses(r.onboardDate)
    requires GroupsOf(groups, key, init)
    requires FindKey(groups, key(r)) == |groups|
    ensures GroupsOf(AddRecord(groups, key, r), key, init + [r])
  {
    var added := AddTo(Group(key(r), 0, {}, 0), r);
    var next := groups + [added];
    assert next == AddRecord(groups, key, r);
    NewGroupSummaries(groups, key, init, r);
    NewGroupCovers(groups, key, init, r);
    SumByConcat(groups, [added], GroupSites);
    assert SumBy([added], GroupSites) == 1;
  }

  /** After a new key: the new group has seen exactly the record, the others are unchanged. */
  lemma {:induction false} NewGroupSummaries(groups: seq<Group>, key: SiteRecord -> Key, init: seq<SiteRecord>, r: SiteRecord)
    requires Parses(r.onboardDate)
    requires GroupsOf(groups, key, init)
    requires FindKey(groups, key(r)) == |groups|
    ensures var next := groups + [AddTo(Group(key(r), 0, {}, 0), r)];
            forall j :: 0 <= j < |next| ==> next[j] == GroupOf(key, init + [r], next[j].key) && next[j].sites >= 1
  {
    var k := key(r);
    var next := groups + [AddTo(Group(k, 0, {}, 0), r)];
    forall x | x in init
      ensures !InGroup(key, k)(x)
    {
      if Parses(x.onboardDate) {
        var j :| 0 <= j < |groups| && groups[j].key == key(x);
      }
    }
    GroupOfAbsent(key, init, k);
    GroupOfSnoc(key, init, r, k);
    forall j | 0 <= j < |next|
      ensures next[j] == GroupOf(key, init + [r], next[j].key) && next[j].sites >= 1
    {
      if j < |groups| {
        GroupOfSnoc(key, init, r, groups[j].key);
      }
    }
  }

  /** After a new key: every dated record still has a group. */
  lemma {:induction false} NewGroupCovers(groups: seq<Group>, key: SiteRecord -> Key, init: seq<SiteRecord>, r: SiteRecord)
    requires GroupsOf(groups, key, init)
    ensures var next := groups + [AddTo(Group(key(r), 0, {}, 0), r)];
            forall x :: x in init + [r] && Parses(x.onboardDate) ==> exists j :: 0 <= j < |next| && next[j].key == key(x)
  {
    var next := groups + [AddTo(Group(key(r), 0, {}, 0), r)];
    forall x | x in init + [r] && Parses(x.onboardDate)
      ensures exists j :: 0 <= j < |next| && next[j].key == key(x)
    {
      if x == r {
        assert next[|groups|].key == key(r);
      } else {
        assert x in init;
        var j :| 0 <= j < |groups| && groups[j].key == key(x);
        assert next[j].key == groups[j].key;
      }
    }
  }

  /** The fold's group `k` is the summary of exactly the records with key `k`. */
  lemma {:induction false} GroupOfIsSummary(key: SiteRecord -> Key, recs: seq<SiteRecord>, k: Key)
    ensures GroupOf(key, recs, k) == Summary(k, Members(key, recs, k))
    decreases |recs|
  {
    if recs == [] {
      assert Members(key, recs, k) == [];
    } else {
      var init, last := recs[..|recs| - 1], recs[|recs| - 1];
      assert recs == init + [last];
      GroupOfIsSummary(key, init, k);
      GroupOfSnoc(key, init, last, k);
      MembersSnoc(key, init, last, k);
      if InGroup(key, k)(last) {
        SummarySnoc(k, Members(key, init, k), last);
        assert Members(key, recs, k) == Members(key, init, k) + [last];
      } else {
        assert Members(key, recs, k) == Members(key, init, k);
      }
    }
  }

  /** A group's records after one more record arrives. */
  lemma {:induction false} MembersSnoc(key: SiteRecord -> Key, init: seq<SiteRecord>, r: SiteRecord, k: Key)
    ensures Members(key, init + [r], k) == Members(key, init, k) + (if InGroup(key, k)(r) then [r] else [])
  {
    FilterConcat(init, [r], InGroup(key, k));
    assert FilterBy([r], InGroup(key, k)) == (if InGroup(key, k)(r) then [r] else []) by {
      assert [r][1..] == [];
    }
  }

  /** Summarising one more record is adding it to the summary. */
  lemma SummarySnoc(k: Key, ms: seq<SiteRecord>, r: SiteRecord)
    ensures Summary(k, ms + [r]) == AddTo(Summary(k, ms), r)
  {
    ContactsSnoc(ms, r);
    InteractedSnoc(ms, r);
  }

  lemma InteractedSnoc(ms: seq<SiteRecord>, r: SiteRecord)
    ensures |FilterBy(ms + [r], Interacted)| == |FilterBy(ms, Interacted)| + (if Interacted(r) then 1 else 0)
  {
    FilterConcat(ms, [r], Interacted);
    assert FilterBy([r], Interacted) == (if Interacted(r) then [r] else []) by {
      assert [r][1..] == [];
    }
  }

  // ---------------------------------------------------------------- rows

  /** A named agent whose formatted name is `n`. */
  predicate NamedAs(r: SiteRecord, n: string) {
    Truthy(r.agentName) && ChartHelpers.FormatAgentName(r.agentName.value) == n
  }

  /** `agentEmailMap`, built over all records (not only the counted ones): each formatted name
      maps to the raw `agent_name` of the last record carrying it. */
  function AgentEmails(data: seq<SiteRecord>): (m: map<string, string>)
    ensures EmailMapOf(m, data)
    decreases |data|
  {
    if data == [] then map[]
    else
      var init, last := data[..|data| - 1], data[|data| - 1];
      var m := AgentEmails(init);
      var next := if Truthy(last.agentName) then m[ChartHelpers.FormatAgentName(last.agentName.value) := last.agentName.value] else m;
      AgentEmailsStep(m, init, last, next);
      assert data == init + [last];
      next
  }

  /** `m` holds exactly the formatted names carried by `data`, each with the raw name of the last
      record carrying it. */
  ghost predicate EmailMapOf(m: map<string, string>, data: seq<SiteRecord>) {
    && (forall n :: n in m <==> exists i :: 0 <= i < |data| && NamedAs(data[i], n))
    && (forall n :: n in m ==> LastCarrier(m, data, n))
  }

  lemma AgentEmailsStep(m: map<string, string>, init: seq<SiteRecord>, last: SiteRecord, next: map<string, string>)
    requires EmailMapOf(m, init)
    requires next == if Truthy(last.agentName) then m[ChartHelpers.FormatAgentName(last.agentName.value) := last.agentName.value] else m
    ensures EmailMapOf(next, init + [last])
  {
    AgentEmailsKeys(m, init, last, next);
    AgentEmailsValues(m, init, last, next);
  }

  lemma AgentEmailsKeys(m: map<string, string>, init: seq<SiteRecord>, last: SiteRecord, next: map<string, string>)
    requires EmailMapOf(m, init)
    requires next == if Truthy(last.agentName) then m[ChartHelpers.FormatAgentName(last.agentName.value) := last.agentName.value] else m
    ensures forall n :: n in next <==> exists i :: 0 <= i < |init + [last]| && NamedAs((init + [last])[i], n)
  {
    var data := init + [last];
    assert forall i :: 0 <= i < |init| ==> data[i] == init[i];
    assert data[|init|] == last;
    forall n
      ensures n in next <==> exists i :: 0 <= i < |data| && NamedAs(data[i], n)
    {
      if NamedAs(last, n) {
        assert NamedAs(data[|init|], n);
      } else if n in m {
        var i :| 0 <= i < |init| && NamedAs(init[i], n);
        assert NamedAs(data[i], n);
      }
    }
  }

  lemma AgentEmailsValues(m: map<string, string>, init: seq<SiteRecord>, last: SiteRecord, next: map<string, string>)
    requires EmailMapOf(m, init)
    requires next == if Truthy(last.agentName) then m[ChartHelpers.FormatAgentName(last.agentName.value) := last.agentName.value] else m
    ensures forall n :: n in next ==> LastCarrier(next, init + [last], n)
  {
    forall n | n in next
      ensures LastCarrier(next, init + [last], n)
    {
      if NamedAs(last, n) {
        CarriedByLast(next, init, last, n);
      } else {
        assert n in m;
        CarriedEarlier(m, next, init, last, n);
      }
    }
  }

  /** Some record carries `n`, `m` maps `n` to its raw name, and no later record carries `n`. */
  ghost predicate LastCarrier(m: map<string, string>, data: seq<SiteRecord>, n: string)
    requires n in m
  {
    exists i :: 0 <= i < |data| && NamedAs(data[i], n) && m[n] == data[i].agentName.value
                && forall j :: i < j < |data| ==> !NamedAs(data[j], n)
  }

  lemma CarriedByLast(next: map<string, string>, init: seq<SiteRecord>, last: SiteRecord, n: string)
    requires NamedAs(last, n) && n in next && next[n] == last.agentName.value
    ensures LastCarrier(next, init + [last], n)
  {
    var data := init + [last];
    assert data[|init|] == last;
    assert NamedAs(data[|init|], n) && next[n] == data[|init|].agentName.value;
  }

  lemma CarriedEarlier(m: map<string, string>, next: map<string, string>, init: seq<SiteRecord>, last: SiteRecord, n: string)
    requires n in m && LastCarrier(m, init, n)
    requires !NamedAs(last, n) && n in next && next[n] == m[n]
    ensures LastCarrier(next, init + [last], n)
  {
    var data := init + [last];
    var i :| 0 <= i < |init| && NamedAs(init[i], n) && m[n] == init[i].agentName.value
             && forall j :: i < j < |init| ==> !NamedAs(init[j], n);
    assert data[i] == init[i];
    forall j | i < j < |data| ensures !NamedAs(data[j], n) {
      if j < |init| {
        assert data[j] == init[j];
      }
    }
  }

  /** `agentEmailMap.get(agent) || ''` */
  function EmailFor(m: map<string, string>, agent: string): string {
    if agent in m then m[agent] else ""
  }

  /** One line of the table. */
  datatype DailyRow = DailyRow(date: int, agent: string, agentEmail: string, sites: nat,
                               uniqueCustomers: nat, interaction: nat)

  function RowKey(row: DailyRow): Key {
    Key(row.date, row.agent)
  }

  function RowSites(row: DailyRow): int {
    row.sites
  }

  /** The row pushed for a group. */
  function RowOf(g: Group, emails: map<string, string>): DailyRow {
    DailyRow(g.key.date, g.key.agent, EmailFor(emails, g.key.agent), g.sites, |g.contacts|, g.interactions)
  }

  /** Newest day first; within a day, agents in ascending order (`localeCompare`, taken as
      code-point order). */
  function RowBefore(a: DailyRow, b: DailyRow): bool {
    a.date > b.date || (a.date == b.date && LexLe(a.agent, b.agent))
  }

  lemma RowBeforeTotal()
    ensures TotalPreorder(RowBefore)
  {
    forall a: DailyRow, b: DailyRow
      ensures RowBefore(a, b) || RowBefore(b, a)
    {
      LexTotal(a.agent, b.agent);
    }
    forall a: DailyRow, b: DailyRow, c: DailyRow | RowBefore(a, b) && RowBefore(b, c)
      ensures RowBefore(a, c)
    {
      if a.date == b.date == c.date {
        LexTransitive(a.agent, b.agent, c.agent);
      }
    }
  }

  /** `rows` is the table of `recs`: one row per (day, key) key that occurs, each holding that
      group as the fold leaves it, with the site counts adding up to the number of records. */
  ghost predicate RowsOf(rows: seq<DailyRow>, key: SiteRecord -> Key, recs: seq<SiteRecord>, emails: map<string, string>) {
    && KeysDistinct(rows, RowKey)
    && (forall row :: row in rows ==> row == RowOf(GroupOf(key, recs, RowKey(row)), emails) && row.sites >= 1)
    && (forall x :: x in recs && Parses(x.onboardDate) ==> exists row :: row in rows && RowKey(row) == key(x))
    && SumBy(rows, RowSites) == |recs|
  }

  /** The rows of a grouping, in the groups' order. */
  function RowsOfGroups(groups: seq<Group>, emails: map<string, string>): (rows: seq<DailyRow>)
    ensures |rows| == |groups|
    ensures forall i :: 0 <= i < |groups| ==> rows[i] == RowOf(groups[i], emails)
  {
    seq(|groups|, i requires 0 <= i < |groups| => RowOf(groups[i], emails))
  }

  lemma {:induction false} GroupRows(groups: seq<Group>, key: SiteRecord -> Key, recs: seq<SiteRecord>, emails: map<string, string>)
    requires GroupsOf(groups, key, recs)
    ensures RowsOf(RowsOfGroups(groups, emails), key, recs, emails)
  {
    var rows := RowsOfGroups(groups, emails);
    assert forall i :: 0 <= i < |rows| ==> RowKey(rows[i]) == groups[i].key;
    SumByPointwise(groups, GroupSites, rows, RowSites);
    forall x | x in recs && Parses(x.onboardDate)
      ensures exists row :: row in rows && RowKey(row) == key(x)
    {
      var i :| 0 <= i < |groups| && groups[i].key == key(x);
      assert rows[i] in rows;
    }
  }

  /** Any reordering of a table is a table of the same records. */
  lemma {:induction false} PermutedRows(rows: seq<DailyRow>, sorted: seq<DailyRow>, key: SiteRecord -> Key, recs: seq<SiteRecord>,
                     emails: map<string, string>)
    requires RowsOf(rows, key, recs, emails)
    requires multiset(sorted) == multiset(rows)
    ensures RowsOf(sorted, key, recs, emails)
  {
    KeysDistinctPermutation(rows, sorted, RowKey);
    SumByPermutation(rows, sorted, RowSites);
    forall row ensures row in sorted <==> row in rows {
      assert row in sorted <==> row in multiset(sorted);
      assert row in rows <==> row in multiset(rows);
    }
  }

  /** Whether some counted record has an onboarding date that does not parse. */
  predicate SomeInvalidDate(data: seq<SiteRecord>) {
    exists x :: x in data && Counted(x) && !Parses(x.onboardDate)
  }

  /** The table: an error when a counted record's date does not parse (`toISOString` throws on an
      Invalid Date); otherwise one row per (day, key) group of the counted records, ordered
      newest day first and then by agent, each pair in exactly one row. */
  function DailyRows(data: seq<SiteRecord>, view: ViewType): (r: Result<seq<DailyRow>>)
    ensures r.Err? <==> SomeInvalidDate(data)
    ensures r.Ok? ==> RowsOf(r.value, KeyIn(view), FilterBy(data, Counted), AgentEmails(data))
    ensures r.Ok? ==> SortedBy(r.value, RowBefore)
    ensures r.Ok? ==> forall i, j :: 0 <= i < j < |r.value| ==>
              r.value[i].date > r.value[j].date
              || (r.value[i].date == r.value[j].date && LexLe(r.value[i].agent, r.value[j].agent)
                  && r.value[i].agent != r.value[j].agent)
  {
    var kept := FilterBy(data, Counted);
    forall x ensures x in kept <==> x in data && Counted(x) {
      FilterMembers(data, Counted, x);
    }
    if exists x :: x in kept && !Parses(x.onboardDate) then Err("Invalid time value")
    else
      var emails := AgentEmails(data);
      var groups := Fold(KeyIn(view), kept);
      var rows := RowsOfGroups(groups, emails);
      GroupRows(groups, KeyIn(view), kept, emails);
      var sorted := Sort(rows, RowBefore);
      RowBeforeTotal();
      SortSorted(rows, RowBefore);
      PermutedRows(rows, sorted, KeyIn(view), kept, emails);
      Ok(sorted)
  }

  /** Every row of the table summarises exactly the counted records of its day and agent: their
      number, their distinct contact emails and how many of them had a logged-in contact. */
  lemma DailyRowsSummarise(data: seq<SiteRecord>, view: ViewType)
    requires DailyRows(data, view).Ok?
    ensures forall row :: row in DailyRows(data, view).value ==>
              var ms := Members(KeyIn(view), FilterBy(data, Counted), RowKey(row));
              && row.sites == |ms| >= 1
              && row.uniqueCustomers == |Contacts(ms)| <= row.sites
              && row.interaction == |FilterBy(ms, Interacted)| <= row.sites
              && row.agentEmail == EmailFor(AgentEmails(data), row.agent)
  {
    RowsSummarise(DailyRows(data, view).value, KeyIn(view), FilterBy(data, Counted), AgentEmails(data));
  }

  /** The same for any table of any records under any key. */
  lemma {:induction false} RowsSummarise(rows: seq<DailyRow>, key: SiteRecord -> Key, recs: seq<SiteRecord>, emails: map<string, string>)
    requires RowsOf(rows, key, recs, emails)
    ensures forall row :: row in rows ==>
              var ms := Members(key, recs, RowKey(row));
              && row.sites == |ms| >= 1
              && row.uniqueCustomers == |Contacts(ms)| <= row.sites
              && row.interaction == |FilterBy(ms, Interacted)| <= row.sites
              && row.agentEmail == EmailFor(emails, row.agent)
  {
    forall row | row in rows
      ensures var ms := Members(key, recs, RowKey(row));
              && row.sites == |ms| >= 1
              && row.uniqueCustomers == |Contacts(ms)| <= row.sites
              && row.interaction == |FilterBy(ms, Interacted)| <= row.sites
              && row.agentEmail == EmailFor(emails, row.agent)
    {
      GroupOfIsSummary(key, recs, RowKey(row));
    }
  }

  // ---------------------------------------------------------------- interaction percentage

  /** `Math.round((interaction / uniqueCustomers) * 100)`, or 0 without customers: the integer
      nearest to the exact percentage, halves rounded up. */
  function InteractionPercentage(interaction: nat, customers: nat): (p: nat)
    ensures customers == 0 ==> p == 0
    ensures customers > 0 ==>
              (p as real) - 0.5 <= 100.0 * (interaction as real) / (customers as real) < (p as real) + 0.5
  {
    if customers == 0 then 0
    else
      var p := (200 * interaction + customers) / (2 * customers);
      RoundingBounds(interaction, customers, p);
      p
  }

  lemma RoundingBounds(i: nat, c: nat, p: nat)
    requires c > 0 && p == (200 * i + c) / (2 * c)
    ensures (p as real) - 0.5 <= 100.0 * (i as real) / (c as real) < (p as real) + 0.5
  {
    QuotientBounds(200 * i + c, 2 * c, p);
    IntBoundsToReal(i, c, p);
    HalfBounds(p as real, c as real, i as real);
  }

  /** The quotient of a division brackets the dividend. */
  lemma QuotientBounds(n: nat, q: nat, p: nat)
    requires q > 0 && p == n / q
    ensures q * p <= n < q * p + q
  {
  }

  lemma IntBoundsToReal(i: nat, c: nat, p: nat)
    requires (2 * c) * p <= 200 * i + c < (2 * c) * p + 2 * c
    ensures 2.0 * ((p as real) * (c as real)) <= 200.0 * (i as real) + (c as real) < 2.0 * ((p as real) * (c as real)) + 2.0 * (c as real)
  {
    assert ((2 * c) * p) as real == 2.0 * ((p as real) * (c as real));
  }

  lemma HalfBounds(p: real, c: real, i: real)
    requires c > 0.0
    requires 2.0 * (p * c) <= 200.0 * i + c < 2.0 * (p * c) + 2.0 * c
    ensures p - 0.5 <= 100.0 * i / c < p + 0.5
  {
    var x := 100.0 * i / c;
    assert x * c == 100.0 * i;
    assert (p - 0.5) * c == p * c - 0.5 * c;
    assert (p + 0.5) * c == p * c + 0.5 * c;
    ScaleLe(p - 0.5, x, c);
    ScaleLt(x, p + 0.5, c);
  }

  lemma ScaleLe(a: real, b: real, c: real)
    requires c > 0.0 && a * c <= b * c
    ensures a <= b
  {
  }

  lemma ScaleLt(a: real, b: real, c: real)
    requires c > 0.0 && a * c < b * c
    ensures a < b
  {
  }

  /** With no more interactions than customers the percentage is at most 100. */
  lemma PercentageAtMostHundred(interaction: nat, customers: nat)
    requires interaction <= customers
    ensures InteractionPercentage(interaction, customers) <= 100
  {
    if customers > 0 {
      var n := 200 * interaction + customers;
      var q := 2 * customers;
      var p := n / q;
      assert n == q * p + n % q && 0 <= n % q;
      assert n < q * 101;
      FactorBound(q, p, 101);
    }
  }

  lemma FactorBound(q: nat, p: nat, m: nat)
    requires q > 0 && q * p < q * m
    ensures p < m
  {
  }

  /** Interactions count records while customers count distinct emails, so two records of one
      customer who both logged in give a 200% row. */
  lemma PercentageCanExceedHundred()
    ensures var r := SiteRecord(Some("a.b@edfenergy.com"), Some("ACTIVE"), DateText([], None),
                                DateText("2024-01-01", Some(1704067200000)), Some("c@d.com"), Some(1), None,
                                None, None, None, NoMeter, NoMeter);
            var g := Summary(Key(19723, "A.B"), [r, r]);
            g.interactions == 2 && |g.contacts| == 1 && InteractionPercentage(g.interactions, |g.contacts|) == 200
  {
    var r := SiteRecord(Some("a.b@edfenergy.com"), Some("ACTIVE"), DateText([], None),
                        DateText("2024-01-01", Some(1704067200000)), Some("c@d.com"), Some(1), None,
                        None, None, None, NoMeter, NoMeter);
    assert [r, r][..1] == [r];
    assert Contacts([r, r]) == {"c@d.com"};
    assert FilterBy([r, r], Interacted) == [r, r] by {
      assert [r, r][1..] == [r];
      assert [r][1..] == [];
    }
  }

  // ---------------------------------------------------------------- export

  /** One line of the spreadsheet export. */
  datatype ExportRow = ExportRow(date: string, agent: string, teamLeader: string, sitesAdded: nat,
                                 uniqueCustomers: nat, interactions: nat, interactionPercent: string)

  /** The export of a row: the day as `DD/MM/YYYY`, the team leader in the individual view only,
      and the percentage followed by '%'. */
  function ExportRowOf(row: DailyRow, view: ViewType): (e: ExportRow)
    ensures e.agent == row.agent && e.sitesAdded == row.sites
    ensures e.uniqueCustomers == row.uniqueCustomers && e.interactions == row.interaction
    ensures view == TeamView ==> e.teamLeader == ""
    ensures view == Individual ==> e.teamLeader == GetTeamLeaderForAgent(row.agentEmail) != ""
  {
    ExportRow(FormatDMY(CivilFromDays(row.date)), row.agent,
              if view == Individual then GetTeamLeaderForAgent(row.agentEmail) else "",
              row.sites, row.uniqueCustomers, row.interaction,
              IntToString(InteractionPercentage(row.interaction, row.uniqueCustomers)) + "%")
  }

  function ExportRows(rows: seq<DailyRow>, view: ViewType): (e: seq<ExportRow>)
    ensures |e| == |rows|
    ensures forall i :: 0 <= i < |rows| ==> e[i] == ExportRowOf(rows[i], view)
  {
    seq(|rows|, i requires 0 <= i < |rows| => ExportRowOf(rows[i], view))
  }

  /** The exported date and percentage read back as the row's calendar day and percentage. */
  lemma ExportReadsBack(row: DailyRow, view: ViewType)
    requires CivilFromDays(row.date).year >= 0
    ensures ParseDMY(ExportRowOf(row, view).date) == Some(CivilFromDays(row.date))
    ensures var t := ExportRowOf(row, view).interactionPercent;
            |t| >= 2 && t[|t| - 1] == '%'
            && DecimalValue(t[..|t| - 1]) == InteractionPercentage(row.interaction, row.uniqueCustomers)
  {
    FormatParseRoundTrip(CivilFromDays(row.date));
    var p := InteractionPercentage(row.interaction, row.uniqueCustomers);
    var t := ExportRowOf(row, view).interactionPercent;
    assert t[..|t| - 1] == NatToString(p);
    DecimalRoundTrip(p);
  }
}
