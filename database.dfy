/**
 * The relational store the services read and write, as in-memory tables:
 * the five entities, the unique keys and references the schema enforces,
 * and the membership lookup every team-scoped service calls first.
 */
module Database {
  import opened Wrappers
  import opened Seqs

  datatype UserRole = UserMember | UserAdmin
  datatype TeamRole = Leader | Member
  datatype Status = Todo | InProgress | Done
  datatype Priority = Low | Medium | High | Urgent

  datatype User = User(id: string, email: string, name: string, password: string, role: UserRole, createdAt: int)

  datatype Team = Team(id: string, name: string, slug: string, description: Option<string>)

  /** A membership row; `(teamId, userId)` is its unique key. */
  datatype TeamMember = TeamMember(teamId: string, userId: string, role: TeamRole)

  datatype Task = Task(
    id: string,
    title: string,
    description: Option<string>,
    status: Status,
    priority: Priority,
    dueDate: Option<int>,
    teamId: string,
    createdById: string,
    assignedToId: Option<string>,
    completedAt: Option<int>,
    createdAt: int)

  /** The JSON `details` of an activity record, as the two writers build it. */
  datatype ActivityDetails =
    | TaskCreated(title: string, priority: Priority)
    | StatusChanged(oldStatus: Status, newStatus: Status)

  datatype ActivityLog = ActivityLog(
    id: string,
    action: string,
    details: ActivityDetails,
    userId: string,
    taskId: Option<string>,
    teamId: string,
    createdAt: int)

  function UserIds(users: seq<User>): set<string> { set u | u in users :: u.id }
  function TeamIds(teams: seq<Team>): set<string> { set t | t in teams :: t.id }
  function TaskIds(tasks: seq<Task>): set<string> { set t | t in tasks :: t.id }
  function ActivityIds(logs: seq<ActivityLog>): set<string> { set a | a in logs :: a.id }

  function FindUser(users: seq<User>, id: string): (r: Option<User>)
    ensures r.Some? <==> id in UserIds(users)
    ensures r.Some? ==> r.value in users && r.value.id == id
  {
    Find(users, (u: User) => u.id == id)
  }

  function FindUserByEmail(users: seq<User>, email: string): (r: Option<User>)
    ensures r.Some? <==> exists u :: u in users && u.email == email
    ensures r.Some? ==> r.value in users && r.value.email == email
  {
    Find(users, (u: User) => u.email == email)
  }

  function FindTeam(teams: seq<Team>, id: string): (r: Option<Team>)
    ensures r.Some? <==> id in TeamIds(teams)
    ensures r.Some? ==> r.value in teams && r.value.id == id
  {
    Find(teams, (t: Team) => t.id == id)
  }

  function FindTask(tasks: seq<Task>, id: string): (r: Option<Task>)
    ensures r.Some? <==> id in TaskIds(tasks)
    ensures r.Some? ==> r.value in tasks && r.value.id == id
  {
    Find(tasks, (t: Task) => t.id == id)
  }

  /** The membership guard: the `(teamId, userId)` row, if any. */
  function Membership(members: seq<TeamMember>, teamId: string, userId: string): (r: Option<TeamMember>)
    ensures r.Some? <==> exists m :: m in members && m.teamId == teamId && m.userId == userId
    ensures r.Some? ==> r.value in members && r.value.teamId == teamId && r.value.userId == userId
  {
    Find(members, (m: TeamMember) => m.teamId == teamId && m.userId == userId)
  }

  predicate IsMember(members: seq<TeamMember>, teamId: string, userId: string) {
    Membership(members, teamId, userId).Some?
  }

  /** Every membership row of a team, in table order. */
  function MembersOf(members: seq<TeamMember>, teamId: string): (r: seq<TeamMember>)
    ensures forall m :: m in r <==> m in members && m.teamId == teamId
  {
    Filter(members, (m: TeamMember) => m.teamId == teamId)
  }

  /** Every task of a team, in table order. */
  function TasksOf(tasks: seq<Task>, teamId: string): (r: seq<Task>)
    ensures forall t :: t in r <==> t in tasks && t.teamId == teamId
  {
    Filter(tasks, (t: Task) => t.teamId == teamId)
  }

  /** The unique keys and the references the schema enforces. */
  ghost predicate Consistent(users: seq<User>, teams: seq<Team>, members: seq<TeamMember>, tasks: seq<Task>, logs: seq<ActivityLog>) {
    && Distinct(users, (u: User) => u.id)
    && Distinct(users, (u: User) => u.email)
    && Distinct(teams, (t: Team) => t.id)
    && Distinct(teams, (t: Team) => t.slug)
    && Distinct(members, (m: TeamMember) => (m.teamId, m.userId))
    && (forall m :: m in members ==> m.teamId in TeamIds(teams) && m.userId in UserIds(users))
    && Distinct(tasks, (t: Task) => t.id)
    && (forall t :: t in tasks ==>
          && t.teamId in TeamIds(teams)
          && t.createdById in UserIds(users)
          && (t.assignedToId.Some? ==> t.assignedToId.value in UserIds(users)))
    && Distinct(logs, (a: ActivityLog) => a.id)
    && (forall a :: a in logs ==> a.teamId in TeamIds(teams) && a.userId in UserIds(users))
  }

  /** Appending a row whose key is new keeps a unique index. */
  lemma DistinctAppend<T, K>(s: seq<T>, x: T, key: T -> K)
    requires Distinct(s, key)
    requires forall y :: y in s ==> key(y) != key(x)
    ensures Distinct(s + [x], key)
  {
    forall i, j | 0 <= i < j < |s + [x]| ensures key((s + [x])[i]) != key((s + [x])[j]) {
      if j == |s| { assert (s + [x])[i] == s[i] && s[i] in s; }
      else { assert (s + [x])[i] == s[i] && (s + [x])[j] == s[j]; }
    }
  }

  /** The store: one table per entity, updated in place by the services. */
  class Database {
    var users: seq<User>
    var teams: seq<Team>
    var members: seq<TeamMember>
    var tasks: seq<Task>
    var activities: seq<ActivityLog>

    ghost predicate Valid()
      reads this
    {
      Consistent(users, teams, members, tasks, activities)
    }

    constructor ()
      ensures Valid()
      ensures users == [] && teams == [] && members == [] && tasks == [] && activities == []
    {
      users, teams, members, tasks, activities := [], [], [], [], [];
    }
  }
}
