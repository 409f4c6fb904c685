/**
 * The activity feeds: a task's log and a team's recent log, both gated by
 * team membership and ordered newest first.
 */
module Activity {
  import opened Wrappers
  import opened Seqs
  import opened Errors
  import opened Database

  /** `getTeamActivities` reads at most this many records. */
  const TeamFeedCap := 100

  /** Sorting by this key ascending is `orderBy: { createdAt: "desc" }`. */
  function Recency(a: ActivityLog): int { -a.createdAt }

  ghost predicate NewestFirst(logs: seq<ActivityLog>) {
    forall i, j :: 0 <= i < j < |logs| ==> logs[i].createdAt >= logs[j].createdAt
  }

  /** The records, newest first; records with equal timestamps come in the database's order. */
  function SortNewestFirst(logs: seq<ActivityLog>): (r: seq<ActivityLog>)
    ensures NewestFirst(r)
    ensures multiset(r) == multiset(logs)
  {
    var r := SortBy(logs, Recency);
    assert forall i, j :: 0 <= i < j < |r| ==> Recency(r[i]) <= Recency(r[j]);
    r
  }

  /** The records that name this task. */
  function LogsOfTask(logs: seq<ActivityLog>, taskId: string): (r: seq<ActivityLog>)
    ensures forall a :: a in r <==> a in logs && a.taskId == Some(taskId)
  {
    Filter(logs, (a: ActivityLog) => a.taskId == Some(taskId))
  }

  /** The records of this team. */
  function LogsOfTeam(logs: seq<ActivityLog>, teamId: string): (r: seq<ActivityLog>)
    ensures forall a :: a in r <==> a in logs && a.teamId == teamId
  {
    Filter(logs, (a: ActivityLog) => a.teamId == teamId)
  }

  /**
   * `getTaskActivities(taskId, userId)`: TASK_NOT_FOUND, then NOT_MEMBER of the
   * task's own team; otherwise every record of the task, newest first, uncapped.
   */
  function TaskActivities(tasks: seq<Task>, members: seq<TeamMember>, logs: seq<ActivityLog>, taskId: string, userId: string)
    : (r: Result<seq<ActivityLog>>)
    ensures taskId !in TaskIds(tasks) <==> r == Err(Api(TaskNotFound))
    ensures var t := FindTask(tasks, taskId);
      t.Some? && !IsMember(members, t.value.teamId, userId) <==> r == Err(Api(NotMember))
    ensures r.Ok? <==> var t := FindTask(tasks, taskId); t.Some? && IsMember(members, t.value.teamId, userId)
    ensures r.Ok? ==> NewestFirst(r.value) && multiset(r.value) == multiset(LogsOfTask(logs, taskId))
  {
    match FindTask(tasks, taskId)
    case None => Err(Api(TaskNotFound))
    case Some(t) =>
      if Membership(members, t.teamId, userId).None? then Err(Api(NotMember))
      else Ok(SortNewestFirst(LogsOfTask(logs, taskId)))
  }

  /**
   * `getTeamActivities(teamId, userId)`: NOT_MEMBER for an outsider; otherwise
   * the team's 100 most recent records, newest first.
   */
  function TeamActivities(members: seq<TeamMember>, logs: seq<ActivityLog>, teamId: string, userId: string)
    : (r: Result<seq<ActivityLog>>)
    ensures !IsMember(members, teamId, userId) <==> r == Err(Api(NotMember))
    ensures r.Ok? <==> IsMember(members, teamId, userId)
    ensures r.Ok? ==>
              && NewestFirst(r.value)
              && |r.value| == (if |LogsOfTeam(logs, teamId)| <= TeamFeedCap then |LogsOfTeam(logs, teamId)| else TeamFeedCap)
              && multiset(r.value) <= multiset(LogsOfTeam(logs, teamId))
  {
    if Membership(members, teamId, userId).None? then Err(Api(NotMember))
    else
      var sorted := SortNewestFirst(LogsOfTeam(logs, teamId));
      var n := if |sorted| <= TeamFeedCap then |sorted| else TeamFeedCap;
      assert sorted == sorted[..n] + sorted[n..];
      Ok(sorted[..n])
  }

  /** Every record of the team left out of the feed is no newer than every record in it. */
  lemma TeamFeedIsMostRecent(members: seq<TeamMember>, logs: seq<ActivityLog>, teamId: string, userId: string)
    requires IsMember(members, teamId, userId)
    ensures var feed := TeamActivities(members, logs, teamId, userId).value;
      forall x, y :: x in multiset(LogsOfTeam(logs, teamId)) - multiset(feed) && y in feed ==> x.createdAt <= y.createdAt
  {
    var all := LogsOfTeam(logs, teamId);
    var sorted := SortNewestFirst(all);
    var n := if |sorted| <= TeamFeedCap then |sorted| else TeamFeedCap;
    var feed := TeamActivities(members, logs, teamId, userId).value;
    assert feed == sorted[..n];
    assert Ascending(sorted, Recency) by {
      assert forall i, j :: 0 <= i < j < |sorted| ==> Recency(sorted[i]) <= Recency(sorted[j]);
    }
    AscendingPrefixLeast(sorted, Recency, n);
    forall x: ActivityLog, y: ActivityLog | x in multiset(all) - multiset(feed) && y in feed ensures x.createdAt <= y.createdAt {
      assert Recency(y) <= Recency(x);
    }
  }

  /** A team's feed holds only that team's records, and every one of them is in the log. */
  lemma TeamFeedBelongsToTeam(members: seq<TeamMember>, logs: seq<ActivityLog>, teamId: string, userId: string)
    requires IsMember(members, teamId, userId)
    ensures forall a :: a in TeamActivities(members, logs, teamId, userId).value ==> a in logs && a.teamId == teamId
  {
    var feed := TeamActivities(members, logs, teamId, userId).value;
    forall a | a in feed ensures a in logs && a.teamId == teamId {
      assert a in multiset(feed);
      assert a in multiset(LogsOfTeam(logs, teamId));
    }
  }

  /** A task's feed holds exactly the records that name the task. */
  lemma TaskFeedIsExact(tasks: seq<Task>, members: seq<TeamMember>, logs: seq<ActivityLog>, taskId: string, userId: string)
    requires TaskActivities(tasks, members, logs, taskId, userId).Ok?
    ensures forall a :: a in TaskActivities(tasks, members, logs, taskId, userId).value <==> a in logs && a.taskId == Some(taskId)
  {
    var feed := TaskActivities(tasks, members, logs, taskId, userId).value;
    forall a ensures a in feed <==> a in logs && a.taskId == Some(taskId) {
      assert a in feed <==> a in multiset(feed);
      assert a in LogsOfTask(logs, taskId) <==> a in multiset(LogsOfTask(logs, taskId));
    }
  }
}
