/**
 * The task lifecycle: creation with its `task_created` record, the filtered
 * and paginated team list, reading one task with its history, the
 * field-by-field update with its `status_changed` record, and deletion.
 */
module Tasks {
  import opened Wrappers
  import opened JsText
  import opened Seqs
  import opened Errors
  import opened Database
  import opened Pagination
  import opened Activity

  /**
   * The body of `createTask`; an absent field is `None`, and so is an empty
   * priority, due date or assignee, while an empty description stays the
   * empty string. Dates are already parsed to clock values.
   */
  datatype CreateTaskRequest = CreateTaskRequest(
    title: string,
    description: Option<string>,
    priority: Option<Priority>,
    dueDate: Option<int>,
    assignedToId: Option<string>)

  /**
   * The body of `updateTask`; `None` stands for a field that is absent or
   * `null`. An empty status or due date is `None` as well, because the update
   * falls back on `||` for those two; for the other fields only absence and
   * `null` fall back (`??`).
   */
  datatype UpdateTaskRequest = UpdateTaskRequest(
    title: Option<string>,
    description: Option<string>,
    priority: Option<Priority>,
    dueDate: Option<int>,
    status: Option<Status>,
    assignedToId: Option<string>)

  /** The query filters of `getTeamTasks`; an absent or empty filter is `None`. */
  datatype TaskFilters = TaskFilters(status: Option<Status>, assignedToId: Option<string>, priority: Option<Priority>)

  /** A task with its activity records, as `getTaskById` returns it. */
  datatype TaskDetail = TaskDetail(task: Task, activities: seq<ActivityLog>)

  // ---- createTask ----

  /** The guards of `createTask`: the caller is a member, and a given assignee is one too. */
  predicate MayCreate(members: seq<TeamMember>, teamId: string, userId: string, data: CreateTaskRequest) {
    && IsMember(members, teamId, userId)
    && (Truthy(data.assignedToId) ==> IsMember(members, teamId, data.assignedToId.value))
  }

  /** The row `createTask` inserts. */
  function NewTask(id: string, teamId: string, userId: string, data: CreateTaskRequest, now: int): (t: Task)
    ensures t.id == id && t.teamId == teamId && t.createdById == userId && t.createdAt == now
    ensures t.status == Todo && t.completedAt == None
    ensures t.title == data.title && t.description == data.description && t.dueDate == data.dueDate
    ensures data.priority.None? ==> t.priority == Medium
    ensures data.priority.Some? ==> t.priority == data.priority.value
    ensures t.assignedToId.Some? <==> Truthy(data.assignedToId)
    ensures t.assignedToId.Some? ==> t.assignedToId == data.assignedToId
  {
    Task(id, data.title, data.description, Todo, data.priority.GetOr(Medium), data.dueDate,
         teamId, userId, OrNull(data.assignedToId), None, now)
  }

  /** The `task_created` record of a new task: it names the task, its team and the creator, with the title and priority it was created with. */
  function CreatedLog(id: string, task: Task, userId: string, now: int): (l: ActivityLog)
    ensures l.id == id && l.action == "task_created" && l.userId == userId && l.createdAt == now
    ensures l.taskId == Some(task.id) && l.teamId == task.teamId
    ensures l.details.TaskCreated? && l.details.title == task.title && l.details.priority == task.priority
  {
    ActivityLog(id, "task_created", TaskCreated(task.title, task.priority), userId, Some(task.id), task.teamId, now)
  }

  /** A membership row names an existing team and user. */
  lemma MemberIsKnown(users: seq<User>, teams: seq<Team>, members: seq<TeamMember>, tasks: seq<Task>, logs: seq<ActivityLog>,
                      teamId: string, userId: string)
    requires Consistent(users, teams, members, tasks, logs)
    requires IsMember(members, teamId, userId)
    ensures teamId in TeamIds(teams) && userId in UserIds(users)
  {
    var m := Membership(members, teamId, userId).value;
    assert m in members;
  }

  /**
   * `createTask(teamId, userId, data)`: NOT_MEMBER, then INVALID_ASSIGNEE; then
   * the task is inserted with status TODO, followed by its `task_created`
   * record. The two inserts are separate writes: when the second one fails,
   * the task stays inserted.
   */
  method CreateTask(db: Database, teamId: string, userId: string, data: CreateTaskRequest,
                    taskId: string, logId: string, now: int)
    returns (r: Result<Task>)
    requires db.Valid()
    modifies db
    ensures db.Valid()
    ensures !IsMember(old(db.members), teamId, userId) <==> r == Err(Api(NotMember))
    ensures IsMember(old(db.members), teamId, userId) && !MayCreate(old(db.members), teamId, userId, data)
            <==> r == Err(Api(InvalidAssignee))
    ensures r.Err? && r.failure.Api? ==> unchanged(db)
    ensures MayCreate(old(db.members), teamId, userId, data) && taskId in TaskIds(old(db.tasks)) ==>
              r.Err? && r.failure.Unexpected? && unchanged(db)
    ensures r.Ok? <==>
              MayCreate(old(db.members), teamId, userId, data) && taskId !in TaskIds(old(db.tasks)) && logId !in ActivityIds(old(db.activities))
    ensures MayCreate(old(db.members), teamId, userId, data) && taskId !in TaskIds(old(db.tasks)) ==>
              && db.tasks == old(db.tasks) + [NewTask(taskId, teamId, userId, data, now)]
              && db.users == old(db.users) && db.teams == old(db.teams) && db.members == old(db.members)
    ensures MayCreate(old(db.members), teamId, userId, data) && taskId !in TaskIds(old(db.tasks)) && logId in ActivityIds(old(db.activities)) ==>
              r.Err? && r.failure.Unexpected? && db.activities == old(db.activities)
    ensures r.Ok? ==>
              && r.value == NewTask(taskId, teamId, userId, data, now)
              && db.activities == old(db.activities) + [CreatedLog(logId, r.value, userId, now)]
  {
    if Membership(db.members, teamId, userId).None? {
      return Err(Api(NotMember));
    }
    if Truthy(data.assignedToId) && Membership(db.members, teamId, data.assignedToId.value).None? {
      return Err(Api(InvalidAssignee));
    }
    if FindTask(db.tasks, taskId).Some? {
      return Err(Unexpected("unique constraint violated on task id"));
    }
    MemberIsKnown(db.users, db.teams, db.members, db.tasks, db.activities, teamId, userId);
    if Truthy(data.assignedToId) {
      MemberIsKnown(db.users, db.teams, db.members, db.tasks, db.activities, teamId, data.assignedToId.value);
    }
    var task := NewTask(taskId, teamId, userId, data, now);
    r := WriteCreate(db, task, logId, now);
  }

  /**
   * The two writes of `createTask`: the task row, then its `task_created`
   * record. A colliding record id fails the second write after the first is
   * done.
   */
  method WriteCreate(db: Database, task: Task, logId: string, now: int) returns (r: Result<Task>)
    requires db.Valid() && task.id !in TaskIds(db.tasks)
    requires task.teamId in TeamIds(db.teams) && task.createdById in UserIds(db.users)
    requires task.assignedToId.Some? ==> task.assignedToId.value in UserIds(db.users)
    modifies db
    ensures db.Valid()
    ensures db.tasks == old(db.tasks) + [task]
    ensures db.users == old(db.users) && db.teams == old(db.teams) && db.members == old(db.members)
    ensures r.Ok? <==> logId !in ActivityIds(old(db.activities))
    ensures r.Ok? ==> r.value == task && db.activities == old(db.activities) + [CreatedLog(logId, task, task.createdById, now)]
    ensures r.Err? ==> r.failure.Unexpected? && db.activities == old(db.activities)
  {
    DistinctAppend(db.tasks, task, (t: Task) => t.id);
    db.tasks := db.tasks + [task];
    if FindActivity(db.activities, logId).Some? {
      return Err(Unexpected("unique constraint violated on activity id"));
    }
    var log := CreatedLog(logId, task, task.createdById, now);
    DistinctAppend(db.activities, log, (a: ActivityLog) => a.id);
    db.activities := db.activities + [log];
    r := Ok(task);
  }

  function FindActivity(logs: seq<ActivityLog>, id: string): (r: Option<ActivityLog>)
    ensures r.Some? <==> id in ActivityIds(logs)
  {
    Find(logs, (a: ActivityLog) => a.id == id)
  }

  // ---- getTeamTasks ----

  /** A task passes the `where` of `getTeamTasks`: its team, and every filter that is given. */
  predicate Matches(t: Task, teamId: string, f: TaskFilters) {
    && t.teamId == teamId
    && (f.status.Some? ==> t.status == f.status.value)
    && (Truthy(f.assignedToId) ==> t.assignedToId == f.assignedToId)
    && (f.priority.Some? ==> t.priority == f.priority.value)
  }

  function Matching(tasks: seq<Task>, teamId: string, f: TaskFilters): (r: seq<Task>)
    ensures forall t :: t in r <==> t in tasks && Matches(t, teamId, f)
  {
    Filter(tasks, (t: Task) => Matches(t, teamId, f))
  }

  /** Sorting by this key ascending is `orderBy: { createdAt: "desc" }`. */
  function TaskRecency(t: Task): int { -t.createdAt }

  ghost predicate NewestTasksFirst(s: seq<Task>) {
    forall i, j :: 0 <= i < j < |s| ==> s[i].createdAt >= s[j].createdAt
  }

  /** Every matching task, newest first: the ordered result the page window is cut from. */
  function MatchingNewestFirst(tasks: seq<Task>, teamId: string, f: TaskFilters): (r: seq<Task>)
    ensures NewestTasksFirst(r)
    ensures multiset(r) == multiset(Matching(tasks, teamId, f))
  {
    var r := SortBy(Matching(tasks, teamId, f), TaskRecency);
    assert forall i, j :: 0 <= i < j < |r| ==> TaskRecency(r[i]) <= TaskRecency(r[j]);
    r
  }

  /**
   * `getTeamTasks(teamId, userId, filters, pagination)`: NOT_MEMBER for an
   * outsider; otherwise the window `skip (page - 1) * limit, take limit` of the
   * matching tasks newest first, with the count of every match.
   */
  function TeamTasks(members: seq<TeamMember>, tasks: seq<Task>, teamId: string, userId: string,
                     filters: TaskFilters, pagination: PaginationParams)
    : (r: Result<PaginatedResponse<Task>>)
    requires pagination.page >= 1 && pagination.limit >= 1
    ensures !IsMember(members, teamId, userId) <==> r == Err(Api(NotMember))
    ensures r.Ok? <==> IsMember(members, teamId, userId)
    ensures r.Ok? ==>
              && r.value.total == |Matching(tasks, teamId, filters)|
              && r.value.page == pagination.page && r.value.limit == pagination.limit
              && r.value.pages == CeilDiv(r.value.total, pagination.limit)
              && |r.value.data| <= pagination.limit
              && NewestTasksFirst(r.value.data)
              && (forall t :: t in r.value.data ==> t in tasks && Matches(t, teamId, filters))
              && r.value.data == Window(MatchingNewestFirst(tasks, teamId, filters), (pagination.page - 1) * pagination.limit, pagination.limit)
  {
    if Membership(members, teamId, userId).None? then Err(Api(NotMember))
    else
      var ordered := MatchingNewestFirst(tasks, teamId, filters);
      var skip := (pagination.page - 1) * pagination.limit;
      var page := Window(ordered, skip, pagination.limit);
      PageOfMatches(tasks, teamId, filters, skip, pagination.limit);
      var response := CreatePaginatedResponse(page, |Matching(tasks, teamId, filters)|, pagination.page, pagination.limit);
      assert response.pages == CeilDiv(response.total, pagination.limit);
      Ok(response)
  }

  /** A window of the ordered matches is itself newest first and holds only matching tasks of the table. */
  lemma PageOfMatches(tasks: seq<Task>, teamId: string, f: TaskFilters, skip: nat, take: nat)
    ensures var w := Window(MatchingNewestFirst(tasks, teamId, f), skip, take);
      && NewestTasksFirst(w)
      && forall t :: t in w ==> t in tasks && Matches(t, teamId, f)
  {
    var ordered := MatchingNewestFirst(tasks, teamId, f);
    var w := Window(ordered, skip, take);
    forall i, j | 0 <= i < j < |w| ensures w[i].createdAt >= w[j].createdAt {
      assert w[i] == ordered[skip + i] && w[j] == ordered[skip + j];
    }
    forall t | t in w ensures t in tasks && Matches(t, teamId, f) {
      var i :| 0 <= i < |w| && w[i] == t;
      assert ordered[skip + i] == t;
      assert t in multiset(ordered);
      assert t in multiset(Matching(tasks, teamId, f));
    }
  }

  /** No two tasks of `s` were created at the same instant. */
  ghost predicate DistinctTimes(s: seq<Task>) {
    forall i, j :: 0 <= i < j < |s| ==> s[i].createdAt != s[j].createdAt
  }

  /**
   * When no two tasks share a creation time, `orderBy: { createdAt: "desc" }`
   * leaves the database no choice: two newest-first arrangements of the same
   * tasks are the same sequence.
   */
  lemma {:induction false} NewestFirstIsUnique(a: seq<Task>, b: seq<Task>)
    requires NewestTasksFirst(a) && NewestTasksFirst(b)
    requires multiset(a) == multiset(b)
    requires DistinctTimes(a)
    ensures a == b
  {
    assert |a| == |b| by {
      assert |multiset(a)| == |multiset(b)|;
    }
    if a != [] {
      NewestComesFirst(a, b);
      TailMultiset(a);
      TailMultiset(b);
      NewestFirstIsUnique(a[1..], b[1..]);
    }
  }

  /** The newest task heads both arrangements. */
  lemma NewestComesFirst(a: seq<Task>, b: seq<Task>)
    requires a != [] && NewestTasksFirst(a) && NewestTasksFirst(b)
    requires multiset(a) == multiset(b)
    requires DistinctTimes(a)
    ensures b != [] && a[0] == b[0]
  {
    assert a[0] in multiset(b);
    var j :| 0 <= j < |b| && b[j] == a[0];
    assert b[0] in multiset(a);
    var i :| 0 <= i < |a| && a[i] == b[0];
    assert b[0].createdAt >= b[j].createdAt;
    assert a[0].createdAt >= a[i].createdAt;
  }

  lemma TailMultiset(a: seq<Task>)
    requires a != []
    ensures multiset(a[1..]) == multiset(a) - multiset{a[0]}
  {
    assert a == [a[0]] + a[1..];
  }

  /**
   * With distinct creation times, any order the database may return for one
   * page query is the order every other page query sees, so the pages of
   * `PagesCoverAllMatches` are the pages the service serves.
   */
  lemma OrderIsForcedByDistinctTimes(tasks: seq<Task>, teamId: string, f: TaskFilters, order: seq<Task>)
    requires NewestTasksFirst(order) && multiset(order) == multiset(Matching(tasks, teamId, f))
    requires DistinctTimes(order)
    ensures order == MatchingNewestFirst(tasks, teamId, f)
  {
    NewestFirstIsUnique(order, MatchingNewestFirst(tasks, teamId, f));
  }

  /**
   * Reading pages 1 to `pages` one after another gives every matching task
   * exactly once, newest first: with `TeamTasks`, page `p` is the `p`-th window
   * of this order and `pages` is `CeilDiv(total, limit)`. The order is the one
   * `MatchingNewestFirst` fixes; tasks with equal `createdAt` may come back in
   * another order from another query (see `OrderIsForcedByDistinctTimes`).
   */
  lemma PagesCoverAllMatches(tasks: seq<Task>, teamId: string, f: TaskFilters, limit: nat)
    requires limit >= 1
    ensures var ordered := MatchingNewestFirst(tasks, teamId, f);
      Paged(ordered, limit, CeilDiv(|Matching(tasks, teamId, f)|, limit)) == ordered
  {
    var ordered := MatchingNewestFirst(tasks, teamId, f);
    var total := |Matching(tasks, teamId, f)|;
    assert |ordered| == total by {
      assert |multiset(ordered)| == |multiset(Matching(tasks, teamId, f))|;
    }
    PagedIsPrefix(ordered, limit, CeilDiv(total, limit));
  }

  // ---- getTaskById ----

  /** `getTaskById(taskId, userId)`: TASK_NOT_FOUND, then NOT_MEMBER of the task's team; the task with its records newest first. */
  function TaskById(tasks: seq<Task>, members: seq<TeamMember>, logs: seq<ActivityLog>, taskId: string, userId: string)
    : (r: Result<TaskDetail>)
    ensures taskId !in TaskIds(tasks) <==> r == Err(Api(TaskNotFound))
    ensures var t := FindTask(tasks, taskId);
      t.Some? && !IsMember(members, t.value.teamId, userId) <==> r == Err(Api(NotMember))
    ensures r.Ok? <==> var t := FindTask(tasks, taskId); t.Some? && IsMember(members, t.value.teamId, userId)
    ensures r.Ok? ==>
              && r.value.task in tasks && r.value.task.id == taskId
              && IsMember(members, r.value.task.teamId, userId)
              && NewestFirst(r.value.activities)
              && multiset(r.value.activities) == multiset(LogsOfTask(logs, taskId))
  {
    match FindTask(tasks, taskId)
    case None => Err(Api(TaskNotFound))
    case Some(t) =>
      if Membership(members, t.teamId, userId).None? then Err(Api(NotMember))
      else Ok(TaskDetail(t, SortNewestFirst(LogsOfTask(logs, taskId))))
  }

  /** A task read by id carries the same history, with the same errors, as the task's activity feed. */
  lemma TaskByIdAgreesWithFeed(tasks: seq<Task>, members: seq<TeamMember>, logs: seq<ActivityLog>, taskId: string, userId: string)
    ensures var d := TaskById(tasks, members, logs, taskId, userId);
      var f := TaskActivities(tasks, members, logs, taskId, userId);
      && (d.Ok? <==> f.Ok?)
      && (d.Err? ==> f.Err? && d.failure == f.failure)
      && (d.Ok? ==> d.value.activities == f.value)
  {
  }

  // ---- updateTask ----

  /**
   * The merge of `updateTask`: `??` keeps the old title, description, priority
   * and assignee when the field is absent or null; a falsy status or due date
   * keeps the old one; `completedAt` is rewritten on every call.
   */
  function Merge(t: Task, data: UpdateTaskRequest, now: int): (u: Task)
    ensures u.id == t.id && u.teamId == t.teamId && u.createdById == t.createdById && u.createdAt == t.createdAt
    ensures u.title == (if data.title.Some? then data.title.value else t.title)
    ensures u.description == (if data.description.Some? then data.description else t.description)
    ensures u.priority == (if data.priority.Some? then data.priority.value else t.priority)
    ensures u.dueDate == (if data.dueDate.Some? then data.dueDate else t.dueDate)
    ensures u.status == (if data.status.Some? then data.status.value else t.status)
    ensures u.assignedToId == (if data.assignedToId.Some? then data.assignedToId else t.assignedToId)
    ensures u.completedAt.Some? <==> u.status == Done
    ensures u.completedAt.Some? ==> u.completedAt.value == now
  {
    var status := data.status.GetOr(t.status);
    Task(t.id,
         data.title.GetOr(t.title),
         if data.description.Some? then data.description else t.description,
         status,
         data.priority.GetOr(t.priority),
         if data.dueDate.Some? then data.dueDate else t.dueDate,
         t.teamId,
         t.createdById,
         if data.assignedToId.Some? then data.assignedToId else t.assignedToId,
         if status == Done then Some(now) else None,
         t.createdAt)
  }

  /** Applying the same update twice at the same instant is the same as applying it once. */
  lemma MergeIdempotent(t: Task, data: UpdateTaskRequest, now: int)
    ensures Merge(Merge(t, data, now), data, now) == Merge(t, data, now)
  {
  }

  /** An empty update changes nothing but `completedAt`, which it sets or clears by the current status. */
  lemma EmptyUpdateOnlyTouchesCompletion(t: Task, now: int)
    ensures var u := Merge(t, UpdateTaskRequest(None, None, None, None, None, None), now);
      u == t.(completedAt := if t.status == Done then Some(now) else None)
  {
  }

  /** The table with the row of `u.id` replaced by `u`, in place. */
  function ReplaceTask(tasks: seq<Task>, u: Task): (r: seq<Task>)
    ensures |r| == |tasks|
    ensures forall i :: 0 <= i < |r| ==> r[i].id == tasks[i].id
    ensures forall i :: 0 <= i < |r| ==> r[i] == (if tasks[i].id == u.id then u else tasks[i])
  {
    seq(|tasks|, i requires 0 <= i < |tasks| => if tasks[i].id == u.id then u else tasks[i])
  }

  /** Replacing a row keeps the id index unique and the set of ids the same. */
  lemma ReplaceKeepsIds(tasks: seq<Task>, u: Task)
    requires Distinct(tasks, (t: Task) => t.id)
    ensures Distinct(ReplaceTask(tasks, u), (t: Task) => t.id)
    ensures TaskIds(ReplaceTask(tasks, u)) == TaskIds(tasks)
  {
    var r := ReplaceTask(tasks, u);
    forall id | id in TaskIds(tasks) ensures id in TaskIds(r) {
      var t :| t in tasks && t.id == id;
      var i :| 0 <= i < |tasks| && tasks[i] == t;
      assert r[i].id == id && r[i] in r;
    }
    forall id | id in TaskIds(r) ensures id in TaskIds(tasks) {
      var t :| t in r && t.id == id;
      var i :| 0 <= i < |r| && r[i] == t;
      assert tasks[i].id == id && tasks[i] in tasks;
    }
  }

  /** The `status_changed` record of an update: it names the task and its team, with the status before and after. */
  function StatusLog(id: string, t: Task, u: Task, userId: string, now: int): (l: ActivityLog)
    ensures l.id == id && l.action == "status_changed" && l.userId == userId && l.createdAt == now
    ensures l.taskId == Some(t.id) && l.teamId == t.teamId
    ensures l.details.StatusChanged? && l.details.oldStatus == t.status && l.details.newStatus == u.status
  {
    ActivityLog(id, "status_changed", StatusChanged(t.status, u.status), userId, Some(t.id), t.teamId, now)
  }

  /** A task row of a consistent store keeps its references when it is merged with a known assignee. */
  lemma MergedRowIsConsistent(db: Database, t: Task, u: Task)
    requires db.Valid() && t in db.tasks
    requires u.id == t.id && u.teamId == t.teamId && u.createdById == t.createdById
    requires u.assignedToId.Some? ==> u.assignedToId.value in UserIds(db.users)
    ensures Consistent(db.users, db.teams, db.members, ReplaceTask(db.tasks, u), db.activities)
  {
    ReplaceKeepsIds(db.tasks, u);
    var r := ReplaceTask(db.tasks, u);
    forall x | x in r
      ensures x.teamId in TeamIds(db.teams) && x.createdById in UserIds(db.users)
      ensures x.assignedToId.Some? ==> x.assignedToId.value in UserIds(db.users)
    {
      var i :| 0 <= i < |r| && r[i] == x;
      assert db.tasks[i] in db.tasks;
    }
  }

  /**
   * `updateTask(taskId, userId, data)`: TASK_NOT_FOUND, then NOT_MEMBER of the
   * task's team; then the merged row replaces the old one, and a
   * `status_changed` record is appended when the status differs. A new
   * assignee is not checked for membership; one that is no user breaks the
   * foreign key and fails with nothing written. As in `createTask`, a failing
   * second write leaves the first in place.
   */
  method UpdateTask(db: Database, taskId: string, userId: string, data: UpdateTaskRequest, logId: string, now: int)
    returns (r: Result<Task>)
    requires db.Valid()
    modifies db
    ensures db.Valid()
    ensures taskId !in TaskIds(old(db.tasks)) <==> r == Err(Api(TaskNotFound))
    ensures var t := FindTask(old(db.tasks), taskId);
      t.Some? && !IsMember(old(db.members), t.value.teamId, userId) <==> r == Err(Api(NotMember))
    ensures r.Err? && r.failure.Api? ==> unchanged(db)
    ensures db.users == old(db.users) && db.teams == old(db.teams) && db.members == old(db.members)
    ensures var t := FindTask(old(db.tasks), taskId);
      t.Some? && IsMember(old(db.members), t.value.teamId, userId) && data.assignedToId.Some? && data.assignedToId.value !in UserIds(old(db.users)) ==>
        r.Err? && r.failure.Unexpected? && unchanged(db)
    ensures r.Ok? ==>
              var t := FindTask(old(db.tasks), taskId).value;
              && r.value == Merge(t, data, now)
              && db.tasks == ReplaceTask(old(db.tasks), r.value)
              && (t.status != r.value.status ==> db.activities == old(db.activities) + [StatusLog(logId, t, r.value, userId, now)])
              && (t.status == r.value.status ==> db.activities == old(db.activities))
    ensures var t := FindTask(old(db.tasks), taskId);
      && t.Some? && IsMember(old(db.members), t.value.teamId, userId)
      && (data.assignedToId.Some? ==> data.assignedToId.value in UserIds(old(db.users)))
      && t.value.status != Merge(t.value, data, now).status && logId in ActivityIds(old(db.activities))
      ==> && r.Err? && r.failure.Unexpected?
          && db.tasks == ReplaceTask(old(db.tasks), Merge(t.value, data, now))
          && db.activities == old(db.activities)
    ensures var t := FindTask(old(db.tasks), taskId);
      && t.Some? && IsMember(old(db.members), t.value.teamId, userId)
      && (data.assignedToId.Some? ==> data.assignedToId.value in UserIds(old(db.users)))
      && (t.value.status == Merge(t.value, data, now).status || logId !in ActivityIds(old(db.activities)))
      <==> r.Ok?
  {
    var found := FindTask(db.tasks, taskId);
    if found.None? {
      return Err(Api(TaskNotFound));
    }
    var task := found.value;
    if Membership(db.members, task.teamId, userId).None? {
      return Err(Api(NotMember));
    }
    if data.assignedToId.Some? && FindUser(db.users, data.assignedToId.value).None? {
      return Err(Unexpected("foreign key constraint violated on assignee"));
    }
    var updated := Merge(task, data, now);
    r := WriteUpdate(db, task, updated, userId, logId, now);
  }

  /**
   * The two writes of `updateTask`: the merged row replaces the old one, then
   * the `status_changed` record is inserted when the status differs. A
   * colliding record id fails the second write after the first is done.
   */
  method WriteUpdate(db: Database, task: Task, updated: Task, userId: string, logId: string, now: int)
    returns (r: Result<Task>)
    requires db.Valid() && task in db.tasks && IsMember(db.members, task.teamId, userId)
    requires updated.id == task.id && updated.teamId == task.teamId && updated.createdById == task.createdById
    requires updated.assignedToId.Some? ==> updated.assignedToId.value in UserIds(db.users)
    modifies db
    ensures db.Valid()
    ensures db.users == old(db.users) && db.teams == old(db.teams) && db.members == old(db.members)
    ensures db.tasks == ReplaceTask(old(db.tasks), updated)
    ensures r.Ok? <==> task.status == updated.status || logId !in ActivityIds(old(db.activities))
    ensures r.Ok? ==> r.value == updated
    ensures r.Ok? && task.status != updated.status ==>
              db.activities == old(db.activities) + [StatusLog(logId, task, updated, userId, now)]
    ensures task.status == updated.status || r.Err? ==> db.activities == old(db.activities)
    ensures r.Err? ==> r.failure.Unexpected?
  {
    MergedRowIsConsistent(db, task, updated);
    db.tasks := ReplaceTask(db.tasks, updated);
    if task.status != updated.status {
      if FindActivity(db.activities, logId).Some? {
        return Err(Unexpected("unique constraint violated on activity id"));
      }
      MemberIsKnown(db.users, db.teams, db.members, db.tasks, db.activities, task.teamId, userId);
      var log := StatusLog(logId, task, updated, userId, now);
      DistinctAppend(db.activities, log, (a: ActivityLog) => a.id);
      db.activities := db.activities + [log];
    }
    r := Ok(updated);
  }

  // ---- deleteTask ----

  predicate IsLeader(members: seq<TeamMember>, teamId: string, userId: string) {
    var m := Membership(members, teamId, userId);
    m.Some? && m.value.role == Leader
  }

  /** The table without the rows of this id. */
  function WithoutTask(tasks: seq<Task>, id: string): (r: seq<Task>)
    ensures forall t :: t in r <==> t in tasks && t.id != id
    ensures id !in TaskIds(r)
  {
    Filter(tasks, (t: Task) => t.id != id)
  }

  /** Under a unique id index, deleting an existing id removes exactly one row. */
  lemma {:induction false} WithoutTaskRemovesOne(tasks: seq<Task>, id: string)
    requires Distinct(tasks, (t: Task) => t.id)
    requires id in TaskIds(tasks)
    ensures |WithoutTask(tasks, id)| == |tasks| - 1
  {
    var rest := tasks[1..];
    assert Distinct(rest, (t: Task) => t.id) by {
      forall i, j | 0 <= i < j < |rest| ensures rest[i].id != rest[j].id {
        assert rest[i] == tasks[i + 1] && rest[j] == tasks[j + 1];
      }
    }
    if tasks[0].id == id {
      forall t | t in rest ensures t.id != id {
        var j :| 0 <= j < |rest| && rest[j] == t;
        assert tasks[j + 1] == t;
      }
      FilterAll(rest, (t: Task) => t.id != id);
    } else {
      var t :| t in tasks && t.id == id;
      assert t in rest by {
        assert tasks == [tasks[0]] + rest;
      }
      WithoutTaskRemovesOne(rest, id);
    }
  }

  /**
   * `deleteTask(taskId, userId)`: TASK_NOT_FOUND; the creator may delete
   * without a membership check, anyone else must be a LEADER of the task's
   * team or gets FORBIDDEN. The activity records of the task stay.
   */
  method DeleteTask(db: Database, taskId: string, userId: string) returns (r: Result<Task>)
    requires db.Valid()
    modifies db
    ensures db.Valid()
    ensures taskId !in TaskIds(old(db.tasks)) <==> r == Err(Api(TaskNotFound))
    ensures var t := FindTask(old(db.tasks), taskId);
      t.Some? && t.value.createdById != userId && !IsLeader(old(db.members), t.value.teamId, userId)
      <==> r == Err(Api(CreatorOrLeaderOnly))
    ensures var t := FindTask(old(db.tasks), taskId);
      t.Some? && (t.value.createdById == userId || IsLeader(old(db.members), t.value.teamId, userId)) <==> r.Ok?
    ensures r.Err? ==> unchanged(db)
    ensures r.Ok? ==>
              && r.value == FindTask(old(db.tasks), taskId).value
              && db.tasks == WithoutTask(old(db.tasks), taskId)
              && |db.tasks| == |old(db.tasks)| - 1
              && db.users == old(db.users) && db.teams == old(db.teams)
              && db.members == old(db.members) && db.activities == old(db.activities)
  {
    var found := FindTask(db.tasks, taskId);
    if found.None? {
      return Err(Api(TaskNotFound));
    }
    var task := found.value;
    if task.createdById != userId {
      var membership := Membership(db.members, task.teamId, userId);
      if membership.None? || membership.value.role != Leader {
        return Err(Api(CreatorOrLeaderOnly));
      }
    }
    WithoutTaskRemovesOne(db.tasks, taskId);
    var rest := WithoutTask(db.tasks, taskId);
    assert Distinct(rest, (t: Task) => t.id) by {
      FilterDistinct(db.tasks, (t: Task) => t.id != taskId, (t: Task) => t.id);
    }
    db.tasks := rest;
    r := Ok(task);
  }
}
