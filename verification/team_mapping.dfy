/** The static team roster and the case-insensitive lookup of an agent's team
    (src/utils/teamMapping.ts). */
module TeamMapping {
  import opened Common
  import opened Text

  /** A member and the local part of their company address; every address on the roster is in
      the company domain. */
  datatype TeamMember = TeamMember(name: string, user: string)

  /** The company domain every roster address carries. */
  const EDF_MAIL: string := "@edfenergy.com"

  /** The member's address: the local part followed by the company domain. */
  function Email(m: TeamMember): string {
    m.user + EDF_MAIL
  }

  datatype Team = Team(name: string, lead: string, members: seq<TeamMember>)

  /** The roster, in the order the lookup searches it. */
  const TEAMS: seq<Team> := [TEAM_ADAM, TEAM_RIKKI, TEAM_JOE, TEAM_TUESDAY]

  const TEAM_ADAM: Team :=
    Team("Team Adam Parkins", "Adam Parkins", [
      TeamMember("Amanda Adams", "amanda.adams"),
      TeamMember("Ben Houston", "ben.houston"),
      TeamMember("Danny Cotton", "danny.cotton"),
      TeamMember("Darren Manning", "darren.manning"),
      TeamMember("David Maddox", "david.maddox"),
      TeamMember("Dean Lipscombe", "dean.lipscombe"),
      TeamMember("Sarina Montesini", "sarina.montesini"),
      TeamMember("Sophie Michael", "sophie.michael")
  ])

  const TEAM_RIKKI: Team :=
    Team("Team Rikki Nealgrove", "Rikki Nealgrove", [
      TeamMember("Amy Randall", "amy.randall"),
      TeamMember("Chris Langridge", "chris.langridge"),
      TeamMember("Daniel Kearney", "daniel.kearney"),
      TeamMember("Catherine Hendon", "catherine.hendon"),
      TeamMember("Jennifer Hall", "jennifer.hall"),
      TeamMember("Luke Hudson-Young", "luke.hudson-young"),
      TeamMember("Matt Fricker", "matt.fricker"),
      TeamMember("Mitchell Dawes", "mitchell.dawes"),
      TeamMember("Sophie Kingston", "sophie.kingston")
  ])

  const TEAM_JOE: Team :=
    Team("Team Joe Green", "Joe Green", [
      TeamMember("Agata Siadura", "agata.siadura"),
      TeamMember("Andrew Tait", "andrew.tait"),
      TeamMember("Emma George", "emma.george"),
      TeamMember("Grace Mitchell", "grace.mitchell"),
      TeamMember("Jack Jeffrey", "jack.jeffrey"),
      TeamMember("Milchyas Ephrem", "milchyas.ephrem"),
      TeamMember("Pam Maglennon", "pam.maglennon"),
      TeamMember("Pete Emerson", "pete.emerson"),
      TeamMember("Sam Smith", "sam.smith"),
      TeamMember("Thomas Oake", "thomas.oake")
  ])

  const TEAM_TUESDAY: Team :=
    Team("Team Tuesday Jamieson", "Tuesday Jamieson", [
      TeamMember("David Monk", "david.monk"),
      TeamMember("Jenny Norris", "jenny.norris"),
      TeamMember("Kelly Howell", "kelly.howell"),
      TeamMember("Gwyn Lewis", "gwyn.lewis"),
      TeamMember("Lauren Wise", "lauren.wise"),
      TeamMember("Martin House", "martin.house"),
      TeamMember("Ben Wybrow", "ben.wybrow"),
      TeamMember("Carli Bird", "carli.bird"),
      TeamMember("Orlando Nogueir", "orlando.nogueir")
  ])

  /** The team has a member whose address equals `email` once both are lower-cased. */
  predicate HasMember(team: Team, email: string) {
    exists m :: m in team.members && Lower(Email(m)) == Lower(email)
  }

  /** The position of the first team with a matching member, or `|teams|` when there is none. */
  function FirstTeamIndex(teams: seq<Team>, email: string): (i: nat)
    ensures i <= |teams|
    ensures i < |teams| ==> HasMember(teams[i], email)
    ensures forall k :: 0 <= k < i ==> !HasMember(teams[k], email)
  {
    if teams == [] then 0
    else if HasMember(teams[0], email) then 0
    else 1 + FirstTeamIndex(teams[1..], email)
  }

  /** `getTeamForAgent` over a roster: the name of the first team, in roster order, with a member
      whose email equals `email` ignoring case; None when nobody matches. */
  function TeamFor(teams: seq<Team>, email: string): (r: Option<string>)
    ensures r.Some? <==> exists k :: 0 <= k < |teams| && HasMember(teams[k], email)
    ensures r.Some? ==> exists k :: 0 <= k < |teams| && HasMember(teams[k], email) && r.value == teams[k].name
                           && forall j :: 0 <= j < k ==> !HasMember(teams[j], email)
  {
    var i := FirstTeamIndex(teams, email);
    if i < |teams| then Some(teams[i].name) else None
  }

  /** `getTeamForAgent` on the static roster. */
  function GetTeamForAgent(email: string): Option<string> {
    TeamFor(TEAMS, email)
  }

  /** Membership ignores case. */
  lemma HasMemberIgnoresCase(team: Team, email: string)
    ensures HasMember(team, Lower(email)) == HasMember(team, email)
  {
    LowerIdempotent(email);
  }

  /** The lookup ignores case: lower-casing the address first changes nothing. */
  lemma TeamForIgnoresCase(teams: seq<Team>, email: string)
    ensures TeamFor(teams, Lower(email)) == TeamFor(teams, email)
  {
    LowerIdempotent(email);
    assert forall t :: HasMember(t, Lower(email)) == HasMember(t, email);
    FirstTeamIndexSame(teams, Lower(email), email);
  }

  lemma {:induction false} FirstTeamIndexSame(teams: seq<Team>, a: string, b: string)
    requires forall t :: HasMember(t, a) == HasMember(t, b)
    ensures FirstTeamIndex(teams, a) == FirstTeamIndex(teams, b)
    decreases |teams|
  {
    if teams != [] {
      FirstTeamIndexSame(teams[1..], a, b);
    }
  }

  predicate EndsWith(s: string, suffix: string) {
    |suffix| <= |s| && s[|s| - |suffix|..] == suffix
  }

  /** Every member address in the static roster is a company address. */
  lemma RosterAddressesAreCompanyMail()
    ensures forall i, m :: 0 <= i < |TEAMS| && m in TEAMS[i].members ==> EndsWith(Email(m), EDF_MAIL)
  {
    forall i, m | 0 <= i < |TEAMS| && m in TEAMS[i].members
      ensures EndsWith(Email(m), EDF_MAIL)
    {
      CompanyMail(m);
    }
  }

  lemma CompanyMail(m: TeamMember)
    ensures EndsWith(Email(m), EDF_MAIL)
  {
    assert Email(m)[|m.user|..] == EDF_MAIL;
  }

  /** No member address appears in two different teams. */
  lemma RosterAddressesDisjoint()
    ensures forall i, j, p, q :: 0 <= i < j < |TEAMS| && 0 <= p < |TEAMS[i].members| && 0 <= q < |TEAMS[j].members|
              ==> Email(TEAMS[i].members[p]) != Email(TEAMS[j].members[q])
  {
    forall i, j, p, q | 0 <= i < j < |TEAMS| && 0 <= p < |TEAMS[i].members| && 0 <= q < |TEAMS[j].members|
      ensures Email(TEAMS[i].members[p]) != Email(TEAMS[j].members[q])
    {
      EmailDeterminesUser(TEAMS[i].members[p], TEAMS[j].members[q]);
      if i == 0 && j == 1 { DisjointAdamRikki(); }
      else if i == 0 && j == 2 { DisjointAdamJoe(); }
      else if i == 0 { DisjointAdamTuesday(); }
      else if i == 1 && j == 2 { DisjointRikkiJoe(); }
      else if i == 1 { DisjointRikkiTuesday(); }
      else { DisjointJoeTuesday(); }
    }
  }

  /** No address, in any spelling, matches members of two different teams: the first team the
      case-insensitive lookup finds is the only one it could find. */
  lemma RosterTeamsDisjoint()
    ensures forall email, i, j :: 0 <= i < j < |TEAMS| && HasMember(TEAMS[i], email) ==> !HasMember(TEAMS[j], email)
  {
    RosterAddressesDisjoint();
    RosterIsLowerCase();
    forall email, i, j | 0 <= i < j < |TEAMS| && HasMember(TEAMS[i], email)
      ensures !HasMember(TEAMS[j], email)
    {
      var a :| a in TEAMS[i].members && Lower(Email(a)) == Lower(email);
      var p :| 0 <= p < |TEAMS[i].members| && TEAMS[i].members[p] == a;
      forall q | 0 <= q < |TEAMS[j].members|
        ensures Lower(Email(TEAMS[j].members[q])) != Lower(email)
      {
        assert Email(TEAMS[i].members[p]) != Email(TEAMS[j].members[q]);
      }
    }
  }

  /** On the static roster the lookup names a team exactly when that team has a matching member. */
  lemma GetTeamForAgentIsOnlyMatch(email: string, i: nat)
    requires i < |TEAMS|
    ensures GetTeamForAgent(email) == Some(TEAMS[i].name) <==> HasMember(TEAMS[i], email)
  {
    RosterTeamsDisjoint();
    assert forall a, b :: 0 <= a < b < |TEAMS| ==> TEAMS[a].name != TEAMS[b].name;
  }

  /** Text with no upper-case letter. */
  predicate NoUpper(s: string) {
    forall k :: 0 <= k < |s| ==> !IsUpperAscii(s[k])
  }

  lemma LowerOfNoUpper(s: string)
    requires NoUpper(s)
    ensures Lower(s) == s
  {
  }

  /** Every roster address is written in lower case, so lower-casing it changes nothing. */
  lemma RosterIsLowerCase()
    ensures forall i, p :: 0 <= i < |TEAMS| && 0 <= p < |TEAMS[i].members| ==> Lower(Email(TEAMS[i].members[p])) == Email(TEAMS[i].members[p])
  {
    forall i, p | 0 <= i < |TEAMS| && 0 <= p < |TEAMS[i].members|
      ensures Lower(Email(TEAMS[i].members[p])) == Email(TEAMS[i].members[p])
    {
      var m := TEAMS[i].members[p];
      if i == 0 { LowerAdam(); }
      else if i == 1 { LowerRikki(); }
      else if i == 2 { LowerJoe(); }
      else { LowerTuesday(); }
      assert NoUpper(EDF_MAIL);
      assert NoUpper(Email(m)) by {
        forall k | 0 <= k < |Email(m)|
          ensures !IsUpperAscii(Email(m)[k])
        {
          if k < |m.user| {
            assert Email(m)[k] == m.user[k];
          } else {
            assert Email(m)[k] == EDF_MAIL[k - |m.user|];
          }
        }
      }
      LowerOfNoUpper(Email(m));
    }
  }

  /** The local parts of Adam's team, in roster order, written apart from the names so that
      checking their letters stays cheap. */
  const ADAM_USERS: seq<string> := [
    "amanda.adams",
    "ben.houston",
    "danny.cotton",
    "darren.manning",
    "david.maddox",
    "dean.lipscombe",
    "sarina.montesini",
    "sophie.michael"
  ]

  lemma LowerAdam()
    ensures forall p :: 0 <= p < |TEAM_ADAM.members| ==> NoUpper(TEAM_ADAM.members[p].user)
  {
    UsersAdam();
    LowerAdamUsers();
  }

  lemma UsersAdam()
    ensures |TEAM_ADAM.members| == |ADAM_USERS|
    ensures forall p :: 0 <= p < |ADAM_USERS| ==> TEAM_ADAM.members[p].user == ADAM_USERS[p]
  {
  }

  lemma LowerAdamUsers()
    ensures forall p :: 0 <= p < |ADAM_USERS| ==> NoUpper(ADAM_USERS[p])
  {
  }

  /** The local parts of Rikki's team, in roster order, written apart from the names so that
      checking their letters stays cheap. */
  const RIKKI_USERS: seq<string> := [
    "amy.randall",
    "chris.langridge",
    "daniel.kearney",
    "catherine.hendon",
    "jennifer.hall",
    "luke.hudson-young",
    "matt.fricker",
    "mitchell.dawes",
    "sophie.kingston"
  ]

  lemma LowerRikki()
    ensures forall p :: 0 <= p < |TEAM_RIKKI.members| ==> NoUpper(TEAM_RIKKI.members[p].user)
  {
    UsersRikki();
    LowerRikkiUsers();
  }

  lemma UsersRikki()
    ensures |TEAM_RIKKI.members| == |RIKKI_USERS|
    ensures forall p :: 0 <= p < |RIKKI_USERS| ==> TEAM_RIKKI.members[p].user == RIKKI_USERS[p]
  {
  }

  lemma LowerRikkiUsers()
    ensures forall p :: 0 <= p < |RIKKI_USERS| ==> NoUpper(RIKKI_USERS[p])
  {
  }

  /** The local parts of Joe's team, in roster order, written apart from the names so that
      checking their letters stays cheap. */
  const JOE_USERS: seq<string> := [
    "agata.siadura",
    "andrew.tait",
    "emma.george",
    "grace.mitchell",
    "jack.jeffrey",
    "milchyas.ephrem",
    "pam.maglennon",
    "pete.emerson",
    "sam.smith",
    "thomas.oake"
  ]

  lemma LowerJoe()
    ensures forall p :: 0 <= p < |TEAM_JOE.members| ==> NoUpper(TEAM_JOE.members[p].user)
  {
    UsersJoe();
    LowerJoeUsers();
  }

  lemma UsersJoe()
    ensures |TEAM_JOE.members| == |JOE_USERS|
    ensures forall p :: 0 <= p < |JOE_USERS| ==> TEAM_JOE.members[p].user == JOE_USERS[p]
  {
  }

  lemma LowerJoeUsers()
    ensures forall p :: 0 <= p < |JOE_USERS| ==> NoUpper(JOE_USERS[p])
  {
  }

  /** The local parts of Tuesday's team, in roster order, written apart from the names so that
      checking their letters stays cheap. */
  const TUESDAY_USERS: seq<string> := [
    "david.monk",
    "jenny.norris",
    "kelly.howell",
    "gwyn.lewis",
    "lauren.wise",
    "martin.house",
    "ben.wybrow",
    "carli.bird",
    "orlando.nogueir"
  ]

  lemma LowerTuesday()
    ensures forall p :: 0 <= p < |TEAM_TUESDAY.members| ==> NoUpper(TEAM_TUESDAY.members[p].user)
  {
    UsersTuesday();
    LowerTuesdayUsers();
  }

  lemma UsersTuesday()
    ensures |TEAM_TUESDAY.members| == |TUESDAY_USERS|
    ensures forall p :: 0 <= p < |TUESDAY_USERS| ==> TEAM_TUESDAY.members[p].user == TUESDAY_USERS[p]
  {
  }

  lemma LowerTuesdayUsers()
    ensures forall p :: 0 <= p < |TUESDAY_USERS| ==> NoUpper(TUESDAY_USERS[p])
  {
  }

  /** Members with different local parts have different addresses. */
  lemma EmailDeterminesUser(a: TeamMember, b: TeamMember)
    ensures Email(a) == Email(b) ==> a.user == b.user
  {
    if Email(a) == Email(b) {
      assert a.user == Email(a)[..|a.user|];
    }
  }

  lemma DisjointAdamRikki()
    ensures forall p, q :: 0 <= p < |TEAM_ADAM.members| && 0 <= q < |TEAM_RIKKI.members| ==> TEAM_ADAM.members[p].user != TEAM_RIKKI.members[q].user
  {
  }

  lemma DisjointAdamJoe()
    ensures forall p, q :: 0 <= p < |TEAM_ADAM.members| && 0 <= q < |TEAM_JOE.members| ==> TEAM_ADAM.members[p].user != TEAM_JOE.members[q].user
  {
  }

  lemma DisjointAdamTuesday()
    ensures forall p, q :: 0 <= p < |TEAM_ADAM.members| && 0 <= q < |TEAM_TUESDAY.members| ==> TEAM_ADAM.members[p].user != TEAM_TUESDAY.members[q].user
  {
  }

  lemma DisjointRikkiJoe()
    ensures forall p, q :: 0 <= p < |TEAM_RIKKI.members| && 0 <= q < |TEAM_JOE.members| ==> TEAM_RIKKI.members[p].user != TEAM_JOE.members[q].user
  {
  }

  lemma DisjointRikkiTuesday()
    ensures forall p, q :: 0 <= p < |TEAM_RIKKI.members| && 0 <= q < |TEAM_TUESDAY.members| ==> TEAM_RIKKI.members[p].user != TEAM_TUESDAY.members[q].user
  {
  }

  lemma DisjointJoeTuesday()
    ensures forall p, q :: 0 <= p < |TEAM_JOE.members| && 0 <= q < |TEAM_TUESDAY.members| ==> TEAM_JOE.members[p].user != TEAM_TUESDAY.members[q].user
  {
  }
}
