/**
 * The team dashboard reads: the status counts with the overdue count and the
 * completion rate, the per-member breakdown, and the overdue list. All three
 * are gated by membership and change nothing.
 */
module Analytics {
  import opened Wrappers
  import opened Seqs
  import opened Errors
  import opened Database

  datatype Overview = Overview(
    totalTasks: nat,
    completedTasks: nat,
    inProgressTasks: nat,
    todoTasks: nat,
    overdueTasks: nat,
    completionRate: nat)

  datatype UserStats = UserStats(userId: string, name: string, email: string, total: nat, completed: nat, inProgress: nat, todo: nat)

  /** `status: { not: "DONE" }, dueDate: { lt: now }`; a missing due date never compares below `now`. */
  predicate IsOverdue(t: Task, now: int)
    ensures t.dueDate.None? || t.status == Done ==> !IsOverdue(t, now)
  {
    t.status != Done && t.dueDate.Some? && t.dueDate.value < now
  }

  /** Once overdue, a task stays overdue as the clock moves on, until it is marked DONE. */
  lemma OverdueUntilDone(t: Task, now: int, later: int)
    requires IsOverdue(t, now) && now <= later
    ensures IsOverdue(t, later)
    ensures !IsOverdue(t.(status := Done), later)
  {
  }

  // The `where` clauses, each built in one place so that every count over the
  // same clause is a count over the same predicate.

  function OfTeam(teamId: string): Task -> bool { (t: Task) => t.teamId == teamId }
  function OfTeamWithStatus(teamId: string, s: Status): Task -> bool { (t: Task) => t.teamId == teamId && t.status == s }
  function OfTeamNotDone(teamId: string): Task -> bool { (t: Task) => t.teamId == teamId && t.status != Done }
  function OfTeamOverdue(teamId: string, now: int): Task -> bool { (t: Task) => t.teamId == teamId && IsOverdue(t, now) }
  function WithStatus(s: Status): Task -> bool { (t: Task) => t.status == s }
  function AssignedIn(teamId: string, userId: string): Task -> bool {
    (t: Task) => t.teamId == teamId && t.assignedToId == Some(userId)
  }
  function AssignedWithStatus(teamId: string, userId: string, s: Status): Task -> bool {
    (t: Task) => t.teamId == teamId && t.assignedToId == Some(userId) && t.status == s
  }
  function Never(): Task -> bool { (t: Task) => false }
  function Always(): Task -> bool { (t: Task) => true }

  /** `Math.round(completed / total * 100)`, or 0 when there are no tasks, in exact arithmetic rounding halves up. */
  function CompletionRate(completed: nat, total: nat): (r: nat)
    requires completed <= total
    ensures total == 0 ==> r == 0
    ensures r <= 100
    ensures total > 0 ==> 2 * r * total - total <= 200 * completed < 2 * r * total + total
  {
    if total == 0 then 0
    else
      var r := (200 * completed + total) / (2 * total);
      RoundingBounds(200 * completed + total, 2 * total, r);
      assert r * (2 * total) < 202 * total;
      assert r < 101 by {
        if r >= 101 {
          MulMonotone(101, r, 2 * total);
        }
      }
      r
  }

  lemma RoundingBounds(n: nat, d: nat, q: nat)
    requires d > 0 && q == n / d
    ensures q * d <= n < q * d + d
  {
  }

  lemma MulMonotone(a: nat, b: nat, c: nat)
    requires a <= b
    ensures a * c <= b * c
  {
  }

  /** The counts in `getOverview`, once the caller is known to be a member. */
  function OverviewOf(tasks: seq<Task>, teamId: string, now: int): (o: Overview)
    ensures o.totalTasks == |Filter(tasks, OfTeam(teamId))|
    ensures o.completedTasks == |Filter(tasks, OfTeamWithStatus(teamId, Done))|
    ensures o.inProgressTasks == |Filter(tasks, OfTeamWithStatus(teamId, InProgress))|
    ensures o.todoTasks == |Filter(tasks, OfTeamWithStatus(teamId, Todo))|
    ensures o.overdueTasks == |Filter(tasks, OfTeamOverdue(teamId, now))|
    ensures o.totalTasks == o.completedTasks + o.inProgressTasks + o.todoTasks
    ensures o.overdueTasks <= o.totalTasks - o.completedTasks
    ensures o.completionRate == CompletionRate(o.completedTasks, o.totalTasks)
    ensures o.completionRate <= 100 && (o.totalTasks == 0 ==> o.completionRate == 0)
  {
    var total := |Filter(tasks, OfTeam(teamId))|;
    var completed := |Filter(tasks, OfTeamWithStatus(teamId, Done))|;
    var inProgress := |Filter(tasks, OfTeamWithStatus(teamId, InProgress))|;
    var todo := |Filter(tasks, OfTeamWithStatus(teamId, Todo))|;
    var overdue := |Filter(tasks, OfTeamOverdue(teamId, now))|;
    StatusCountsAddUp(tasks, teamId);
    OverdueAreNotDone(tasks, teamId, now);
    Overview(total, completed, inProgress, todo, overdue, CompletionRate(completed, total))
  }

  /** Status takes exactly three values, so the three status counts add up to the team's count. */
  lemma StatusCountsAddUp(tasks: seq<Task>, teamId: string)
    ensures |Filter(tasks, OfTeam(teamId))| ==
              |Filter(tasks, OfTeamWithStatus(teamId, Done))| + |Filter(tasks, OfTeamWithStatus(teamId, InProgress))|
              + |Filter(tasks, OfTeamWithStatus(teamId, Todo))|
  {
    FilterSplit3(tasks, OfTeam(teamId), OfTeamWithStatus(teamId, Done), OfTeamWithStatus(teamId, InProgress),
                 OfTeamWithStatus(teamId, Todo));
  }

  /** An overdue task is never DONE, so there are no more overdue tasks than unfinished ones. */
  lemma OverdueAreNotDone(tasks: seq<Task>, teamId: string, now: int)
    ensures |Filter(tasks, OfTeamOverdue(teamId, now))| + |Filter(tasks, OfTeamWithStatus(teamId, Done))|
              <= |Filter(tasks, OfTeam(teamId))|
  {
    FilterWeaker(tasks, OfTeamOverdue(teamId, now), OfTeamNotDone(teamId));
    FilterSplit3(tasks, OfTeam(teamId), OfTeamWithStatus(teamId, Done), OfTeamNotDone(teamId), Never());
    FilterNone(tasks, Never());
  }

  /** `getOverview(teamId, userId)`: NOT_MEMBER for an outsider, otherwise the counts at time `now`. */
  function GetOverview(members: seq<TeamMember>, tasks: seq<Task>, teamId: string, userId: string, now: int)
    : (r: Result<Overview>)
    ensures !IsMember(members, teamId, userId) <==> r == Err(Api(NotMember))
    ensures r.Ok? <==> IsMember(members, teamId, userId)
    ensures r.Ok? ==>
              && r.value.totalTasks == |TasksOf(tasks, teamId)|
              && r.value.completedTasks == |Filter(tasks, OfTeamWithStatus(teamId, Done))|
              && r.value.inProgressTasks == |Filter(tasks, OfTeamWithStatus(teamId, InProgress))|
              && r.value.todoTasks == |Filter(tasks, OfTeamWithStatus(teamId, Todo))|
              && r.value.overdueTasks == |Filter(tasks, OfTeamOverdue(teamId, now))|
              && r.value.totalTasks == r.value.completedTasks + r.value.inProgressTasks + r.value.todoTasks
              && r.value.completionRate == CompletionRate(r.value.completedTasks, r.value.totalTasks)
  {
    if Membership(members, teamId, userId).None? then Err(Api(NotMember))
    else
      assert TasksOf(tasks, teamId) == Filter(tasks, OfTeam(teamId)) by {
        FilterSame(tasks, (t: Task) => t.teamId == teamId, OfTeam(teamId));
      }
      Ok(OverviewOf(tasks, teamId, now))
  }

  /** Two predicates that agree on every row keep the same rows. */
  lemma {:induction false} FilterSame(s: seq<Task>, p: Task -> bool, q: Task -> bool)
    requires forall t :: p(t) == q(t)
    ensures Filter(s, p) == Filter(s, q)
  {
    if s != [] { FilterSame(s[1..], p, q); }
  }

  // ---- getTasksPerUser ----

  /** The breakdown of one member: this team's tasks assigned to them, by status. */
  function StatsOf(u: User, tasks: seq<Task>, teamId: string): (s: UserStats)
    ensures s.userId == u.id && s.name == u.name && s.email == u.email
    ensures s.total == |Filter(tasks, AssignedIn(teamId, u.id))|
    ensures s.completed == |Filter(tasks, AssignedWithStatus(teamId, u.id, Done))|
    ensures s.inProgress == |Filter(tasks, AssignedWithStatus(teamId, u.id, InProgress))|
    ensures s.todo == |Filter(tasks, AssignedWithStatus(teamId, u.id, Todo))|
    ensures s.total == s.completed + s.inProgress + s.todo
  {
    var theirs := Filter(tasks, AssignedIn(teamId, u.id));
    var completed := |Filter(theirs, WithStatus(Done))|;
    var inProgress := |Filter(theirs, WithStatus(InProgress))|;
    var todo := |Filter(theirs, WithStatus(Todo))|;
    FilterFilter(tasks, AssignedIn(teamId, u.id), WithStatus(Done), AssignedWithStatus(teamId, u.id, Done));
    FilterFilter(tasks, AssignedIn(teamId, u.id), WithStatus(InProgress), AssignedWithStatus(teamId, u.id, InProgress));
    FilterFilter(tasks, AssignedIn(teamId, u.id), WithStatus(Todo), AssignedWithStatus(teamId, u.id, Todo));
    FilterSplit3(theirs, Always(), WithStatus(Done), WithStatus(InProgress), WithStatus(Todo));
    FilterAll(theirs, Always());
    UserStats(u.id, u.name, u.email, |theirs|, completed, inProgress, todo)
  }

  /** `e` is the breakdown of some user who belongs to the team. */
  ghost predicate IsMemberEntry(users: seq<User>, members: seq<TeamMember>, tasks: seq<Task>, teamId: string, e: UserStats) {
    exists u :: u in users && IsMember(members, teamId, u.id) && e == StatsOf(u, tasks, teamId)
  }

  function InTeam(members: seq<TeamMember>, teamId: string): User -> bool {
    (u: User) => IsMember(members, teamId, u.id)
  }

  /**
   * `getTasksPerUser(teamId, userId)`: NOT_MEMBER for an outsider; otherwise one
   * entry per user who belongs to the team, in table order, including members
   * with no assigned task. Under the unique user id, no user has two entries.
   */
  function TasksPerUser(users: seq<User>, members: seq<TeamMember>, tasks: seq<Task>, teamId: string, userId: string)
    : (r: Result<seq<UserStats>>)
    ensures !IsMember(members, teamId, userId) <==> r == Err(Api(NotMember))
    ensures r.Ok? <==> IsMember(members, teamId, userId)
    ensures r.Ok? ==> forall u :: u in users && IsMember(members, teamId, u.id) ==>
              exists i :: 0 <= i < |r.value| && r.value[i] == StatsOf(u, tasks, teamId)
    ensures r.Ok? ==> forall i :: 0 <= i < |r.value| ==> IsMemberEntry(users, members, tasks, teamId, r.value[i])
    ensures r.Ok? ==> forall i :: 0 <= i < |r.value| ==>
              r.value[i].total == r.value[i].completed + r.value[i].inProgress + r.value[i].todo
    ensures r.Ok? && (forall i, j :: 0 <= i < j < |users| ==> users[i].id != users[j].id) ==>
              forall i, j :: 0 <= i < j < |r.value| ==> r.value[i].userId != r.value[j].userId
  {
    if Membership(members, teamId, userId).None? then Err(Api(NotMember))
    else
      var inTeam := Filter(users, InTeam(members, teamId));
      var stats := seq(|inTeam|, i requires 0 <= i < |inTeam| => StatsOf(inTeam[i], tasks, teamId));
      StatsCoverMembers(users, members, tasks, teamId, inTeam, stats);
      OneEntryPerUser(users, members, teamId, inTeam);
      Ok(stats)
  }

  lemma StatsCoverMembers(users: seq<User>, members: seq<TeamMember>, tasks: seq<Task>, teamId: string,
                          inTeam: seq<User>, stats: seq<UserStats>)
    requires inTeam == Filter(users, InTeam(members, teamId))
    requires |stats| == |inTeam| && forall i :: 0 <= i < |inTeam| ==> stats[i] == StatsOf(inTeam[i], tasks, teamId)
    ensures forall u :: u in users && IsMember(members, teamId, u.id) ==>
              exists i :: 0 <= i < |stats| && stats[i] == StatsOf(u, tasks, teamId)
    ensures forall i :: 0 <= i < |stats| ==> IsMemberEntry(users, members, tasks, teamId, stats[i])
    ensures forall i :: 0 <= i < |stats| ==> stats[i].total == stats[i].completed + stats[i].inProgress + stats[i].todo
  {
    forall u | u in users && IsMember(members, teamId, u.id)
      ensures exists i :: 0 <= i < |stats| && stats[i] == StatsOf(u, tasks, teamId)
    {
      assert InTeam(members, teamId)(u);
      assert u in inTeam;
      var i :| 0 <= i < |inTeam| && inTeam[i] == u;
      assert stats[i] == StatsOf(u, tasks, teamId);
    }
    forall i | 0 <= i < |stats| ensures IsMemberEntry(users, members, tasks, teamId, stats[i]) {
      EntryOfMember(users, members, teamId, inTeam, i);
      assert stats[i] == StatsOf(inTeam[i], tasks, teamId);
    }
    forall i | 0 <= i < |stats| ensures stats[i].total == stats[i].completed + stats[i].inProgress + stats[i].todo {
      var st := StatsOf(inTeam[i], tasks, teamId);
      assert stats[i] == st;
    }
  }

  /** Filtering the users keeps their ids unique. */
  lemma OneEntryPerUser(users: seq<User>, members: seq<TeamMember>, teamId: string, inTeam: seq<User>)
    requires inTeam == Filter(users, InTeam(members, teamId))
    ensures (forall i, j :: 0 <= i < j < |users| ==> users[i].id != users[j].id) ==>
              forall i, j :: 0 <= i < j < |inTeam| ==> inTeam[i].id != inTeam[j].id
  {
    if forall i, j :: 0 <= i < j < |users| ==> users[i].id != users[j].id {
      var key := (u: User) => u.id;
      assert Distinct(users, key);
      FilterDistinct(users, InTeam(members, teamId), key);
      assert Distinct(inTeam, key);
    }
  }

  lemma EntryOfMember(users: seq<User>, members: seq<TeamMember>, teamId: string, inTeam: seq<User>, i: int)
    requires inTeam == Filter(users, InTeam(members, teamId))
    requires 0 <= i < |inTeam|
    ensures inTeam[i] in users && IsMember(members, teamId, inTeam[i].id)
  {
    assert inTeam[i] in inTeam;
    assert InTeam(members, teamId)(inTeam[i]) == IsMember(members, teamId, inTeam[i].id);
  }

  // ---- getOverdueTasks ----

  /** Sorting key of `orderBy: { dueDate: "asc" }`; every overdue task has a due date. */
  function DueKey(t: Task): int { if t.dueDate.Some? then t.dueDate.value else 0 }

  /** `getOverdueTasks(teamId, userId)`: NOT_MEMBER for an outsider; otherwise the team's overdue tasks, earliest due first. */
  function OverdueTasks(members: seq<TeamMember>, tasks: seq<Task>, teamId: string, userId: string, now: int)
    : (r: Result<seq<Task>>)
    ensures !IsMember(members, teamId, userId) <==> r == Err(Api(NotMember))
    ensures r.Ok? <==> IsMember(members, teamId, userId)
    ensures r.Ok? ==> forall t :: t in r.value <==> t in tasks && t.teamId == teamId && IsOverdue(t, now)
    ensures r.Ok? ==> forall i, j :: 0 <= i < j < |r.value| ==>
              r.value[i].dueDate.Some? && r.value[j].dueDate.Some? && r.value[i].dueDate.value <= r.value[j].dueDate.value
    ensures r.Ok? ==> multiset(r.value) == multiset(Filter(tasks, OfTeamOverdue(teamId, now)))
  {
    if Membership(members, teamId, userId).None? then Err(Api(NotMember))
    else
      var overdue := Filter(tasks, OfTeamOverdue(teamId, now));
      var sorted := SortBy(overdue, DueKey);
      OverdueListFacts(tasks, teamId, now, overdue, sorted);
      Ok(sorted)
  }

  lemma OverdueListFacts(tasks: seq<Task>, teamId: string, now: int, overdue: seq<Task>, sorted: seq<Task>)
    requires overdue == Filter(tasks, OfTeamOverdue(teamId, now))
    requires multiset(sorted) == multiset(overdue) && Ascending(sorted, DueKey)
    ensures forall t :: t in sorted <==> t in tasks && t.teamId == teamId && IsOverdue(t, now)
    ensures forall i, j :: 0 <= i < j < |sorted| ==>
              sorted[i].dueDate.Some? && sorted[j].dueDate.Some? && sorted[i].dueDate.value <= sorted[j].dueDate.value
  {
    forall t ensures t in sorted <==> t in tasks && t.teamId == teamId && IsOverdue(t, now) {
      assert t in sorted <==> t in multiset(sorted);
      assert t in overdue <==> t in multiset(overdue);
      assert OfTeamOverdue(teamId, now)(t) <==> t.teamId == teamId && IsOverdue(t, now);
    }
    forall i | 0 <= i < |sorted| ensures sorted[i].dueDate.Some? {
      assert sorted[i] in multiset(overdue);
    }
    forall i, j | 0 <= i < j < |sorted|
      ensures sorted[i].dueDate.Some? && sorted[j].dueDate.Some? && sorted[i].dueDate.value <= sorted[j].dueDate.value
    {
      assert sorted[i] in multiset(overdue) && sorted[j] in multiset(overdue);
      assert DueKey(sorted[i]) <= DueKey(sorted[j]);
    }
  }

  /** For the same store and instant, the overview's overdue count is the length of the overdue list. */
  lemma OverdueCountMatchesList(members: seq<TeamMember>, tasks: seq<Task>, teamId: string, userId: string, now: int)
    requires IsMember(members, teamId, userId)
    ensures GetOverview(members, tasks, teamId, userId, now).value.overdueTasks
            == |OverdueTasks(members, tasks, teamId, userId, now).value|
  {
    var list := OverdueTasks(members, tasks, teamId, userId, now).value;
    assert |multiset(list)| == |list|;
    assert |multiset(Filter(tasks, OfTeamOverdue(teamId, now)))| == |Filter(tasks, OfTeamOverdue(teamId, now))|;
  }
}
