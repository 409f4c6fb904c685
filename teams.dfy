/**
 * Team rules: the slug derived from a team's name, team creation with its
 * creator as LEADER, the caller's team list, reading one team, and adding a
 * member.
 */
module Teams {
  import opened Wrappers
  import opened JsText
  import opened Seqs
  import opened Errors
  import opened Database

  const MaxSlugLength := 50

  /** A team with its membership rows, as `createTeam` returns it. */
  datatype TeamView = TeamView(team: Team, members: seq<TeamMember>)

  /** A team with its membership rows and its number of tasks, as the read queries return it. */
  datatype TeamSummary = TeamSummary(team: Team, members: seq<TeamMember>, taskCount: nat)

  // ---- slug derivation: lowercase, whitespace runs to "-", strip [^\w-], first 50 ----

  /**
   * `toLowerCase` of one character. ASCII capitals map to small letters; the
   * Kelvin sign becomes `k` and capital I with dot above becomes `i` followed by
   * a combining dot. Every other character is kept: its real lowercase form is
   * non-ASCII and not whitespace, so the later strip step removes it either way.
   */
  function LowerChar(c: char): string {
    if IsUpper(c) then [(c as int + 32) as char]
    else if c == '\U{212A}' then "k"
    else if c == '\U{0130}' then "i\U{0307}"
    else [c]
  }

  /** `s.toLowerCase()`: no ASCII capital survives, and no character is dropped. */
  function LowerCase(s: string): (r: string)
    ensures |r| >= |s|
    ensures forall i :: 0 <= i < |r| ==> !IsUpper(r[i])
  {
    if s == [] then []
    else
      var h := LowerChar(s[0]);
      assert forall i :: 0 <= i < |h| ==> !IsUpper(h[i]);
      h + LowerCase(s[1..])
  }

  /**
   * `s.replace(/\s+/g, "-")`: each maximal run of whitespace becomes one
   * hyphen, so no whitespace is left, the string never grows, and no capital
   * appears that was not there.
   */
  function HyphenateWhitespace(s: string): (r: string)
    ensures |r| <= |s|
    ensures forall i :: 0 <= i < |r| ==> !IsWhitespace(r[i])
    ensures (forall i :: 0 <= i < |s| ==> !IsUpper(s[i])) ==> forall i :: 0 <= i < |r| ==> !IsUpper(r[i])
    decreases |s|
  {
    if s == [] then []
    else if IsWhitespace(s[0]) then
      var t := TrimStart(s);
      assert forall i :: 0 <= i < |t| ==> t[i] == s[|s| - |t| + i];
      "-" + HyphenateWhitespace(t)
    else [s[0]] + HyphenateWhitespace(s[1..])
  }

  predicate IsSlugChar(c: char) { IsLower(c) || IsDigit(c) || c == '_' || c == '-' }

  /**
   * `s.replace(/[^\w-]/g, "")`: only `\w` characters and `-` survive, the
   * string never grows, and no capital appears that was not there.
   */
  function StripNonWord(s: string): (r: string)
    ensures |r| <= |s|
    ensures forall i :: 0 <= i < |r| ==> IsWordChar(r[i]) || r[i] == '-'
    ensures (forall i :: 0 <= i < |s| ==> !IsUpper(s[i])) ==> forall i :: 0 <= i < |r| ==> !IsUpper(r[i])
  {
    if s == [] then []
    else if IsWordChar(s[0]) || s[0] == '-' then [s[0]] + StripNonWord(s[1..])
    else StripNonWord(s[1..])
  }

  lemma {:induction false} StripAppend(a: string, b: string)
    ensures StripNonWord(a + b) == StripNonWord(a) + StripNonWord(b)
  {
    if a == [] {
      assert a + b == b;
    } else {
      assert (a + b)[1..] == a[1..] + b;
      StripAppend(a[1..], b);
    }
  }

  /** `s.substring(0, n)`. */
  function Prefix(s: string, n: nat): (r: string)
    ensures |r| == if |s| <= n then |s| else n
    ensures r == s[..|r|]
  {
    if |s| <= n then s else s[..n]
  }

  /** The slug of a team name: at most 50 characters, each from `[a-z0-9_-]`. */
  function Slug(name: string): (r: string)
    ensures |r| <= MaxSlugLength
    ensures forall i :: 0 <= i < |r| ==> IsSlugChar(r[i])
  {
    Prefix(StripNonWord(HyphenateWhitespace(LowerCase(name))), MaxSlugLength)
  }

  lemma {:induction false} LowerCaseOfSlugChars(s: string)
    requires forall i :: 0 <= i < |s| ==> IsSlugChar(s[i])
    ensures LowerCase(s) == s
  {
    if s != [] { LowerCaseOfSlugChars(s[1..]); }
  }

  lemma {:induction false} HyphenateOfSlugChars(s: string)
    requires forall i :: 0 <= i < |s| ==> IsSlugChar(s[i])
    ensures HyphenateWhitespace(s) == s
  {
    if s != [] { HyphenateOfSlugChars(s[1..]); }
  }

  lemma {:induction false} StripOfSlugChars(s: string)
    requires forall i :: 0 <= i < |s| ==> IsSlugChar(s[i])
    ensures StripNonWord(s) == s
  {
    if s != [] { StripOfSlugChars(s[1..]); }
  }

  /** Deriving a slug from a slug gives it back. */
  lemma SlugIdempotent(name: string)
    ensures Slug(Slug(name)) == Slug(name)
  {
    var s := Slug(name);
    LowerCaseOfSlugChars(s);
    HyphenateOfSlugChars(s);
    StripOfSlugChars(s);
  }

  lemma {:induction false} HyphenateNoWhitespace(s: string)
    requires forall i :: 0 <= i < |s| ==> !IsWhitespace(s[i])
    ensures HyphenateWhitespace(s) == s
  {
    if s != [] { HyphenateNoWhitespace(s[1..]); }
  }

  lemma {:induction false} TrimWhitespaceRun(w: string, b: string)
    requires forall i :: 0 <= i < |w| ==> IsWhitespace(w[i])
    requires b != [] ==> !IsWhitespace(b[0])
    ensures TrimStart(w + b) == b
  {
    if w == [] {
      assert w + b == b;
    } else {
      assert (w + b)[1..] == w[1..] + b;
      TrimWhitespaceRun(w[1..], b);
    }
  }

  /** A run of whitespace between two whitespace-free strings becomes exactly one hyphen. */
  lemma {:induction false} HyphenateRun(a: string, w: string, b: string)
    requires forall i :: 0 <= i < |a| ==> !IsWhitespace(a[i])
    requires w != [] && forall i :: 0 <= i < |w| ==> IsWhitespace(w[i])
    requires forall i :: 0 <= i < |b| ==> !IsWhitespace(b[i])
    ensures HyphenateWhitespace(a + w + b) == a + "-" + b
  {
    if a == [] {
      assert a + w + b == w + b;
      HyphenateLeadingRun(w, b);
    } else {
      var s := a + w + b;
      assert s[0] == a[0] && !IsWhitespace(s[0]);
      assert s[1..] == a[1..] + w + b;
      HyphenateRun(a[1..], w, b);
      assert a + "-" + b == [a[0]] + (a[1..] + "-" + b);
    }
  }

  lemma HyphenateLeadingRun(w: string, b: string)
    requires w != [] && forall i :: 0 <= i < |w| ==> IsWhitespace(w[i])
    requires forall i :: 0 <= i < |b| ==> !IsWhitespace(b[i])
    ensures HyphenateWhitespace(w + b) == "-" + b
  {
    assert IsWhitespace((w + b)[0]);
    TrimWhitespaceRun(w, b);
    HyphenateNoWhitespace(b);
  }

  lemma {:induction false} LowerCaseAppend(a: string, b: string)
    ensures LowerCase(a + b) == LowerCase(a) + LowerCase(b)
  {
    if a == [] {
      assert a + b == b;
    } else {
      assert (a + b)[1..] == a[1..] + b;
      LowerCaseAppend(a[1..], b);
    }
  }

  /** A character that `toLowerCase` leaves alone. */
  predicate CaseStable(c: char) { !IsUpper(c) && c != '\U{212A}' && c != '\U{0130}' }

  lemma {:induction false} LowerCaseStable(s: string)
    requires forall i :: 0 <= i < |s| ==> CaseStable(s[i])
    ensures LowerCase(s) == s
  {
    if s != [] { LowerCaseStable(s[1..]); }
  }

  lemma {:induction false} StripNothingKept(s: string)
    requires forall i :: 0 <= i < |s| ==> !IsWordChar(s[i]) && s[i] != '-'
    ensures StripNonWord(s) == ""
  {
    if s != [] { StripNothingKept(s[1..]); }
  }

  lemma LowerCaseOfFour(p1: string, p2: string, p3: string, p4: string)
    ensures LowerCase(p1 + p2 + p3 + p4) == LowerCase(p1) + LowerCase(p2) + LowerCase(p3) + LowerCase(p4)
  {
    LowerCaseAppend(p1 + p2 + p3, p4);
    LowerCaseAppend(p1 + p2, p3);
    LowerCaseAppend(p1, p2);
  }

  lemma StripOfFour(p1: string, p2: string, p3: string, p4: string)
    ensures StripNonWord(p1 + p2 + p3 + p4) == StripNonWord(p1) + StripNonWord(p2) + StripNonWord(p3) + StripNonWord(p4)
  {
    StripAppend(p1 + p2 + p3, p4);
    StripAppend(p1 + p2, p3);
    StripAppend(p1, p2);
  }

  lemma LowerCaseOfQAndATeamParts(p1: string, p2: string, p3: string, p4: string)
    requires p1 == "Q&A" && p2 == " " && p3 == "T" && p4 == "eam!!"
    ensures LowerCase(p1 + p2 + p3 + p4) == "q&a" + " " + "team!!"
  {
    LowerCaseOfFour(p1, p2, p3, p4);
    assert LowerCase(p1) == "q&a" by {
      assert LowerCase(p1[2..]) == "a";
      assert LowerCase(p1[1..]) == "&a";
    }
    LowerCaseStable(p2);
    assert LowerCase(p3) == "t";
    LowerCaseStable(p4);
  }

  lemma StripOfQAndATeamParts(p1: string, p2: string, p3: string, p4: string)
    requires p1 == "q" && p2 == "&" && p3 == "a-team" && p4 == "!!"
    ensures StripNonWord(p1 + p2 + p3 + p4) == "qa-team"
  {
    StripOfFour(p1, p2, p3, p4);
    StripKeepsSlugChars(p1);
    StripDropsSymbols(p2);
    StripKeepsSlugChars(p3);
    StripDropsSymbols(p4);
    QAndATeamJoin(p1, p3);
  }

  lemma QAndATeamJoin(p1: string, p3: string)
    requires p1 == "q" && p3 == "a-team"
    ensures p1 + "" + p3 + "" == "qa-team"
  {
    assert p1 + "" + p3 + "" == p1 + p3;
    assert "qa-team"[1..] == p3;
  }

  lemma StripKeepsSlugChars(s: string)
    requires s == "q" || s == "a-team"
    ensures StripNonWord(s) == s
  {
    forall i | 0 <= i < |s| ensures IsSlugChar(s[i]) {
      if s == "q" {
        assert s[i] == 'q';
      } else {
        assert s == "a" + "-" + "team";
        assert s[i] in {'a', '-', 't', 'e', 'm'};
      }
    }
    StripOfSlugChars(s);
  }

  lemma StripDropsSymbols(s: string)
    requires s == "&" || s == "!!"
    ensures StripNonWord(s) == ""
  {
    forall i | 0 <= i < |s| ensures !IsWordChar(s[i]) && s[i] != '-' {
      assert s[i] == '&' || s[i] == '!';
    }
    StripNothingKept(s);
  }

  lemma HyphenateOfQAndATeamParts(a: string, w: string, b: string)
    requires a == "q&a" && w == " " && b == "team!!"
    ensures HyphenateWhitespace(a + w + b) == "q" + "&" + "a-team" + "!!"
  {
    HyphenateRun(a, w, b);
  }

  lemma QAndATeamSplits(name: string)
    requires name == "Q&A Team!!"
    ensures name == "Q&A" + " " + "T" + "eam!!"
  {
  }

  lemma SlugOfQAndATeam(name: string)
    requires name == "Q&A Team!!"
    ensures Slug(name) == "qa-team"
  {
    QAndATeamSplits(name);
    LowerCaseOfQAndATeamParts("Q&A", " ", "T", "eam!!");
    HyphenateOfQAndATeamParts("q&a", " ", "team!!");
    StripOfQAndATeamParts("q", "&", "a-team", "!!");
  }

  lemma LowerCaseOfQATeamParts(p1: string, p2: string, p3: string, p4: string)
    requires p1 == "QA" && p2 == " " && p3 == "T" && p4 == "eam"
    ensures LowerCase(p1 + p2 + p3 + p4) == "qa" + " " + "team"
  {
    LowerCaseOfFour(p1, p2, p3, p4);
    assert LowerCase(p1) == "qa" by {
      assert LowerCase(p1[1..]) == "a";
    }
    LowerCaseStable(p2);
    assert LowerCase(p3) == "t";
    LowerCaseStable(p4);
  }

  lemma HyphenateOfQATeamParts(a: string, w: string, b: string)
    requires a == "qa" && w == " " && b == "team"
    ensures HyphenateWhitespace(a + w + b) == "qa-team"
  {
    HyphenateRun(a, w, b);
  }

  lemma QATeamSplits(name: string)
    requires name == "QA Team"
    ensures name == "QA" + " " + "T" + "eam"
  {
  }

  lemma SlugOfQATeam(name: string)
    requires name == "QA Team"
    ensures Slug(name) == "qa-team"
  {
    QATeamSplits(name);
    LowerCaseOfQATeamParts("QA", " ", "T", "eam");
    HyphenateOfQATeamParts("qa", " ", "team");
    StripOfSlugChars("qa-team");
  }

  /** "Q&A Team!!" and "QA Team" collide: the whitespace becomes a hyphen before the punctuation goes. */
  lemma SlugExamples(n1: string, n2: string)
    requires n1 == "Q&A Team!!" && n2 == "QA Team"
    ensures Slug(n1) == Slug(n2) == "qa-team"
  {
    SlugOfQAndATeam(n1);
    SlugOfQATeam(n2);
  }

  // ---- the service operations ----

  function HasSlug(teams: seq<Team>, slug: string): bool {
    Find(teams, (t: Team) => t.slug == slug).Some?
  }

  /** The summary of one team: its rows in the membership table and its task count. */
  function Summarize(t: Team, members: seq<TeamMember>, tasks: seq<Task>): TeamSummary {
    TeamSummary(t, MembersOf(members, t.id), |TasksOf(tasks, t.id)|)
  }

  /** `getUserTeams(userId)`: every team in which the caller holds a membership. */
  function UserTeams(teams: seq<Team>, members: seq<TeamMember>, tasks: seq<Task>, userId: string): (r: seq<TeamSummary>)
    ensures forall i :: 0 <= i < |r| ==> r[i].team in teams && IsMember(members, r[i].team.id, userId)
    ensures forall t :: t in teams && IsMember(members, t.id, userId) ==> exists i :: 0 <= i < |r| && r[i].team == t
    ensures forall i :: 0 <= i < |r| ==> r[i].members == MembersOf(members, r[i].team.id)
    ensures forall i :: 0 <= i < |r| ==> r[i].taskCount == |TasksOf(tasks, r[i].team.id)|
    ensures (forall i, j :: 0 <= i < j < |teams| ==> teams[i].id != teams[j].id) ==>
              forall i, j :: 0 <= i < j < |r| ==> r[i].team.id != r[j].team.id
  {
    var mine := Filter(teams, HasMember(members, userId));
    var r := Summaries(mine, members, tasks);
    assert forall t :: t in mine ==> exists i :: 0 <= i < |mine| && mine[i] == t && r[i].team == t;
    OneSummaryPerTeam(teams, mine, HasMember(members, userId));
    r
  }

  function HasMember(members: seq<TeamMember>, userId: string): Team -> bool {
    (t: Team) => IsMember(members, t.id, userId)
  }

  /** The summary of each team, in order. */
  function Summaries(ts: seq<Team>, members: seq<TeamMember>, tasks: seq<Task>): (r: seq<TeamSummary>)
    ensures |r| == |ts|
    ensures forall i :: 0 <= i < |r| ==> r[i] == Summarize(ts[i], members, tasks)
  {
    seq(|ts|, i requires 0 <= i < |ts| => Summarize(ts[i], members, tasks))
  }

  /** Keeping some of the teams keeps their ids apart. */
  lemma OneSummaryPerTeam(teams: seq<Team>, mine: seq<Team>, p: Team -> bool)
    requires mine == Filter(teams, p)
    ensures (forall i, j :: 0 <= i < j < |teams| ==> teams[i].id != teams[j].id) ==>
              forall i, j :: 0 <= i < j < |mine| ==> mine[i].id != mine[j].id
  {
    if forall i, j :: 0 <= i < j < |teams| ==> teams[i].id != teams[j].id {
      var key := (t: Team) => t.id;
      assert Distinct(teams, key);
      FilterDistinct(teams, p, key);
      assert Distinct(mine, key);
    }
  }

  /** `getTeamById(teamId, userId)`: TEAM_NOT_FOUND is decided before NOT_MEMBER. */
  function TeamById(teams: seq<Team>, members: seq<TeamMember>, tasks: seq<Task>, teamId: string, userId: string): (r: Result<TeamSummary>)
    ensures teamId !in TeamIds(teams) <==> r == Err(Api(TeamNotFound))
    ensures teamId in TeamIds(teams) && !IsMember(members, teamId, userId) <==> r == Err(Api(NotMember))
    ensures r.Ok? <==> teamId in TeamIds(teams) && IsMember(members, teamId, userId)
    ensures r.Ok? ==> exists m :: m in r.value.members && m.userId == userId
    ensures r.Ok? ==> r.value.team in teams && r.value.team.id == teamId && r.value.members == MembersOf(members, teamId)
    ensures r.Ok? ==> r.value.taskCount == |TasksOf(tasks, teamId)|
  {
    match FindTeam(teams, teamId)
    case None => Err(Api(TeamNotFound))
    case Some(t) =>
      var s := Summarize(t, members, tasks);
      if Find(s.members, (m: TeamMember) => m.userId == userId).None? then Err(Api(NotMember))
      else Ok(s)
  }

  /** The team id is fresh, so before the insert no membership row refers to it. */
  lemma NewTeamHasOnlyItsLeader(db: seq<TeamMember>, teams: seq<Team>, teamId: string, leader: TeamMember)
    requires forall m :: m in db ==> m.teamId in TeamIds(teams)
    requires teamId !in TeamIds(teams) && leader.teamId == teamId
    ensures MembersOf(db + [leader], teamId) == [leader]
  {
    FilterAppend(db, leader, (m: TeamMember) => m.teamId == teamId);
    var before := MembersOf(db, teamId);
    if before != [] {
      assert false;
    }
  }

  /**
   * `createTeam(userId, {name, description})`: TEAM_EXISTS when another team has
   * the slug; otherwise the team and its creator's LEADER membership are
   * inserted together. The team id is the one the database generates; a
   * colliding id, or a caller who is no user, violates a constraint and fails
   * as an unexpected error with nothing written.
   */
  method CreateTeam(db: Database, userId: string, name: string, description: Option<string>, teamId: string)
    returns (r: Result<TeamView>)
    requires db.Valid()
    modifies db
    ensures db.Valid()
    ensures HasSlug(old(db.teams), Slug(name)) ==> r == Err(Api(TeamExists)) && unchanged(db)
    ensures !HasSlug(old(db.teams), Slug(name)) && (teamId in TeamIds(old(db.teams)) || userId !in UserIds(old(db.users))) ==>
              r.Err? && r.failure.Unexpected? && unchanged(db)
    ensures r.Ok? <==> !HasSlug(old(db.teams), Slug(name)) && teamId !in TeamIds(old(db.teams)) && userId in UserIds(old(db.users))
    ensures r.Ok? ==>
              var team := Team(teamId, name, Slug(name), description);
              var leader := TeamMember(teamId, userId, Leader);
              && r.value == TeamView(team, [leader])
              && db.teams == old(db.teams) + [team]
              && db.members == old(db.members) + [leader]
              && db.users == old(db.users) && db.tasks == old(db.tasks) && db.activities == old(db.activities)
  {
    var slug := Slug(name);
    if HasSlug(db.teams, slug) {
      return Err(Api(TeamExists));
    }
    if FindTeam(db.teams, teamId).Some? || FindUser(db.users, userId).None? {
      return Err(Unexpected("unique or foreign key constraint violated"));
    }
    var team := Team(teamId, name, slug, description);
    var leader := TeamMember(teamId, userId, Leader);
    NewTeamHasOnlyItsLeader(db.members, db.teams, teamId, leader);
    ghost var oldTeams := db.teams;
    DistinctAppend(db.teams, team, (t: Team) => t.id);
    DistinctAppend(db.teams, team, (t: Team) => t.slug);
    DistinctAppend(db.members, leader, (m: TeamMember) => (m.teamId, m.userId));
    db.teams := db.teams + [team];
    db.members := db.members + [leader];
    assert TeamIds(db.teams) == TeamIds(oldTeams) + {teamId};
    r := Ok(TeamView(team, MembersOf(db.members, teamId)));
  }

  /**
   * `addTeamMember(teamId, callerId, newMemberId)`: FORBIDDEN unless the caller
   * is a LEADER of the team, then USER_NOT_FOUND, then ALREADY_MEMBER; otherwise
   * one MEMBER row is inserted.
   */
  method AddTeamMember(db: Database, teamId: string, callerId: string, newMemberId: string)
    returns (r: Result<TeamMember>)
    requires db.Valid()
    modifies db
    ensures db.Valid()
    ensures r.Err? ==> unchanged(db)
    ensures var m := Membership(old(db.members), teamId, callerId);
      m.None? || m.value.role != Leader <==> r == Err(Api(LeaderOnly))
    ensures var m := Membership(old(db.members), teamId, callerId);
      m.Some? && m.value.role == Leader && newMemberId !in UserIds(old(db.users)) <==> r == Err(Api(UserNotFound))
    ensures var m := Membership(old(db.members), teamId, callerId);
      m.Some? && m.value.role == Leader && newMemberId in UserIds(old(db.users)) && IsMember(old(db.members), teamId, newMemberId)
      <==> r == Err(Api(AlreadyMember))
    ensures var m := Membership(old(db.members), teamId, callerId);
      m.Some? && m.value.role == Leader && newMemberId in UserIds(old(db.users)) && !IsMember(old(db.members), teamId, newMemberId)
      <==> r.Ok?
    ensures r.Ok? ==>
              && r.value == TeamMember(teamId, newMemberId, Member)
              && db.members == old(db.members) + [r.value]
              && db.users == old(db.users) && db.teams == old(db.teams)
              && db.tasks == old(db.tasks) && db.activities == old(db.activities)
  {
    var membership := Membership(db.members, teamId, callerId);
    if membership.None? || membership.value.role != Leader {
      return Err(Api(LeaderOnly));
    }
    if FindUser(db.users, newMemberId).None? {
      return Err(Api(UserNotFound));
    }
    if Membership(db.members, teamId, newMemberId).Some? {
      return Err(Api(AlreadyMember));
    }
    var row := TeamMember(teamId, newMemberId, Member);
    DistinctAppend(db.members, row, (m: TeamMember) => (m.teamId, m.userId));
    db.members := db.members + [row];
    r := Ok(row);
  }
}
