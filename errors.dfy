/**
 * The single tagged application error, the failures a service call can end
 * in, and the top-level mapping from a failure to the HTTP reply.
 */
module Errors {
  import opened Wrappers

  /** An error the services raise on purpose: an HTTP status, a message and an optional machine-readable code. */
  datatype ApiError = ApiError(statusCode: int, message: string, code: Option<string>)

  /** What a service call can throw: an `ApiError`, or anything else (a database constraint violation, say). */
  datatype Failure = Api(error: ApiError) | Unexpected(detail: string)

  datatype Result<+T> = Ok(value: T) | Err(failure: Failure)

  /** The JSON error body: `{error, code}`; a `code` of `undefined` is omitted when serialised. */
  datatype ErrorBody = ErrorBody(error: string, code: Option<string>)

  datatype Reply = Reply(statusCode: int, body: ErrorBody)

  const InternalServerError: string := "Internal server error"

  /** The reply the error handler sends for a failure. */
  function HandleError(f: Failure): (r: Reply)
    ensures f.Api? ==> r.statusCode == f.error.statusCode
    ensures f.Api? ==> r.body.error == f.error.message && r.body.code == f.error.code
    ensures f.Unexpected? ==> r.statusCode == 500
    ensures f.Unexpected? ==> r.body == ErrorBody("Internal server error", None)
  {
    match f
    case Api(e) => Reply(e.statusCode, ErrorBody(e.message, e.code))
    case Unexpected(_) => Reply(500, ErrorBody(InternalServerError, None))
  }

  /** Nothing about an unexpected failure reaches the client: any two of them get the same reply. */
  lemma UnexpectedDoesNotLeak(d1: string, d2: string)
    ensures HandleError(Unexpected(d1)) == HandleError(Unexpected(d2))
  {
  }

  /** Two application errors get the same reply only when they carry the same status, message and code. */
  lemma ApiErrorReplyInjective(e1: ApiError, e2: ApiError)
    requires HandleError(Api(e1)) == HandleError(Api(e2))
    ensures e1 == e2
  {
  }

  // The application errors, by code, with the status and message each service raises them with.
  const EmailExists := ApiError(400, "User with this email already exists", Some("EMAIL_EXISTS"))
  const InvalidCredentials := ApiError(401, "Invalid email or password", Some("INVALID_CREDENTIALS"))
  const UserNotFound := ApiError(404, "User not found", Some("USER_NOT_FOUND"))
  const TeamExists := ApiError(400, "Team with this name already exists", Some("TEAM_EXISTS"))
  const TeamNotFound := ApiError(404, "Team not found", Some("TEAM_NOT_FOUND"))
  const NotMember := ApiError(403, "You are not a member of this team", Some("NOT_MEMBER"))
  const LeaderOnly := ApiError(403, "Only team leaders can add members", Some("FORBIDDEN"))
  const AlreadyMember := ApiError(400, "User is already a member of this team", Some("ALREADY_MEMBER"))
  const TaskNotFound := ApiError(404, "Task not found", Some("TASK_NOT_FOUND"))
  const InvalidAssignee := ApiError(400, "Assignee is not a member of this team", Some("INVALID_ASSIGNEE"))
  const CreatorOrLeaderOnly := ApiError(403, "Only creator or team leader can delete task", Some("FORBIDDEN"))
}
