# TaskFlow Lite: a verified model of the service layer

TaskFlow Lite is a team task tracker. Its Express/Prisma backend has services for accounts, teams, tasks, analytics and activity feeds. A JWT middleware guards every route, and a React client includes a registration page. This project models the rules these services apply, over an in-memory store, and proves what they promise.

The project has these modules:

- **Database** (`database.dfy`):
  - the five tables, as `seq` fields of one `Database` object that the write operations update in place;
  - `Valid()`, which states the unique keys and references the schema enforces (user id and email, team id and slug, the `(teamId, userId)` membership key, task ids, activity ids, and the references from memberships, tasks and activity records to their team and users). An activity record's task id is not a reference, because the records of a deleted task stay;
  - the membership lookup that every team-scoped service runs first.
- **Errors**: `ApiError`, the failure of a service call (an `ApiError`, or an unexpected error such as a constraint violation), and `handleError`'s mapping to an HTTP reply.
- **Pagination**: `parseInt(x, 10) || default` with its clamps, and the paginated envelope.
- **Teams**: the slug pipeline (lower-case, whitespace runs to `-`, strip `[^\w-]`, first 50 characters), `createTeam`, `getUserTeams`, `getTeamById` and `addTeamMember`.
- **Tasks**: `createTask`, `getTeamTasks`, `getTaskById`, `updateTask` and `deleteTask`.
- **Analytics**: `getOverview`, `getTasksPerUser` and `getOverdueTasks`.
- **Activity**: `getTaskActivities` and `getTeamActivities`.
- **Auth**: `register`, `login` and `getUserById`.
- **Jwt**:
  - token signing and verification with one secret per token kind;
  - bearer-token extraction from the `Authorization` header;
  - `authenticate` and `authorize`, as methods on the `Exchange` object of one request.
- **RegisterForm**: the password strength score with its label and colour, and the checks `handleSubmit` makes before it calls `register`, as a method on the page's state.
- **JsText** and **Seqs**: the JavaScript string semantics the rules depend on, and the generic filtering, sorting and windowing the database queries perform.
  - JsText covers `\s`, `\w`, UTF-16 `.length` and truthiness.
  - Seqs models `where`, `orderBy`, and `skip`/`take`.

Outside inputs are parameters:

- identifiers that the database generates;
- the clock (`now`);
- the bcrypt `hash` and `compare` functions;
- jsonwebtoken's `sign` and `verify`;
- the environment variables holding the secrets;
- the outcome of the client's `register` request.

A service that throws returns `Err`. An `ApiError` leaves the store unchanged. A write that violates a unique key or a foreign key returns `Err(Unexpected(..))`, which becomes a 500 reply.

`createTask` and `updateTask` make two writes with no transaction between them. The model keeps that: when the activity insert fails, the task write stays.

## Model

| member | source | states |
|---|---|---|
| Errors.HandleError | server/src/utils/errors.ts:12-30 | an `ApiError` keeps its status, message and code; anything else is 500 "Internal server error" with no code |
| Errors.UnexpectedDoesNotLeak | server/src/utils/errors.ts:23-29 | two unexpected errors get identical replies, so no detail reaches the client |
| Errors.ApiErrorReplyInjective | server/src/utils/errors.ts:13-21 | different application errors get different replies |
| Pagination.OrDefault | server/src/utils/pagination.ts:15-16 | `x \|\| d` yields `d` exactly when `x` is NaN, zero, or `d` itself |
| Pagination.ParseInt | server/src/utils/pagination.ts:15-16 | absent gives NaN; a string that starts with a digit gives a non-negative number; a negative result needs a leading `-` after the whitespace |
| Pagination.ParsePagination | server/src/utils/pagination.ts:14-19 | for every query, page ≥ 1 and 1 ≤ limit ≤ 100 |
| Pagination.PageIsPositiveParseOrOne | server/src/utils/pagination.ts:15 | the page is the parsed number when that is ≥ 1, and 1 when it is absent, NaN, zero or negative |
| Pagination.LimitRule | server/src/utils/pagination.ts:16 | the limit is 10 when absent, NaN or 0; otherwise the parsed number clamped to [1, 100] |
| Pagination.ParseIntLeadingDigits | server/src/utils/pagination.ts:15-16 | `parseInt` reads the leading digits and ignores what follows |
| Pagination.ParseIntNegative | server/src/utils/pagination.ts:15-16 | a leading minus sign negates the digits that follow it |
| Pagination.NotANumber | server/src/utils/pagination.ts:15-16 | a string that starts with no whitespace, sign or digit parses to NaN |
| Pagination.ExamplesLimit | server/src/utils/pagination.ts:16 | absent, "abc" and "0" give 10; "-5" gives 1; "500" gives 100; "7abc" gives 7 |
| Pagination.ExamplesPage | server/src/utils/pagination.ts:15 | absent, "0", "x" and "-5" give page 1; "7abc" gives 7 |
| Pagination.CeilDiv | server/src/utils/pagination.ts:32 | pages is the least n with n·limit ≥ total, and 0 exactly when total is 0 |
| Pagination.CreatePaginatedResponse | server/src/utils/pagination.ts:21-34 | data, total, page and limit pass through unchanged; pages = ⌈total / limit⌉ |
| JsText.Utf16Length | client/src/pages/RegisterPage.tsx:35 | `.length` counts UTF-16 code units: between one and two per character |
| JsText.OrNull | server/src/services/taskService.ts:56 | `x \|\| null` keeps a non-empty string and maps absent or empty to null |
| Database.Membership | server/src/services/taskService.ts:11-18 | the `(teamId, userId)` lookup finds a row iff the table holds one with that key, and it is that row |
| Teams.Prefix | server/src/services/teamService.ts:14 | `substring(0, 50)` keeps the start of the string: all of it when it has at most 50 characters, else exactly 50 |
| Teams.LowerCase | server/src/services/teamService.ts:11 | no ASCII capital survives `toLowerCase`, and the result is no shorter than the input |
| Teams.HyphenateWhitespace | server/src/services/teamService.ts:12 | no whitespace is left, the string never grows, and no capital appears that was not there |
| Teams.HyphenateRun | server/src/services/teamService.ts:12 | a whitespace run between two whitespace-free strings becomes exactly one `-` |
| Teams.StripNonWord | server/src/services/teamService.ts:13 | only `\w` characters and `-` survive, the string never grows, and no capital appears that was not there |
| Teams.Slug | server/src/services/teamService.ts:10-14 | every slug is at most 50 characters from `[a-z0-9_-]` |
| Teams.SlugIdempotent | server/src/services/teamService.ts:10-14 | deriving the slug of a slug gives it back |
| Teams.SlugExamples | server/src/services/teamService.ts:10-27 | "Q&A Team!!" and "QA Team" both give "qa-team", so the second team is refused as TEAM_EXISTS |
| Teams.NewTeamHasOnlyItsLeader | server/src/services/teamService.ts:30-41 | a new team's only membership row is its creator as LEADER |
| Teams.CreateTeam | server/src/services/teamService.ts:8-58 | TEAM_EXISTS iff the slug is taken, with nothing written; otherwise the team and the creator's LEADER row are added; a colliding id or unknown user fails with nothing written |
| Teams.UserTeams | server/src/services/teamService.ts:60-90 | exactly the teams where the caller holds a membership, each with its membership rows and its task count; with unique team ids, no team is listed twice |
| Teams.TeamById | server/src/services/teamService.ts:92-130 | TEAM_NOT_FOUND iff the id is absent; NOT_MEMBER iff the team exists but the caller is not in it; success iff the team exists and the caller is a member, giving the team with its rows, the caller among them, and its task count |
| Teams.AddTeamMember | server/src/services/teamService.ts:132-182 | FORBIDDEN iff the caller is not the team's LEADER, then USER_NOT_FOUND, then ALREADY_MEMBER, each an iff; success iff none of them applies, and then exactly one MEMBER row is appended |
| Tasks.NewTask | server/src/services/taskService.ts:48-58 | the new row has status TODO, priority defaulting to MEDIUM, no completion time, and an assignee iff a non-empty one was given |
| Tasks.CreatedLog | server/src/services/taskService.ts:70-81 | the `task_created` record names the creator, the task and its team, with the title and priority the task was created with |
| Tasks.CreateTask | server/src/services/taskService.ts:9-84 | NOT_MEMBER, then INVALID_ASSIGNEE, each an iff and writing nothing; success appends the task and its `task_created` record; a colliding log id leaves the task written and fails as unexpected |
| Tasks.WriteCreate | server/src/services/taskService.ts:48-81 | the task row is appended whatever follows; the `task_created` record is appended iff its id is free, and only then is the call a success |
| Tasks.Matching | server/src/services/taskService.ts:114-124 | a task is listed iff it is in the team and meets every given filter |
| Tasks.MatchingNewestFirst | server/src/services/taskService.ts:126-137 | the matches, newest first, as a permutation of the matching tasks |
| Tasks.TeamTasks | server/src/services/taskService.ts:86-150 | NOT_MEMBER iff an outsider asks and success iff a member asks, giving the window skip (page−1)·limit, take limit, of the matches newest first; total counts every match; pages = ⌈total / limit⌉ |
| Tasks.PageOfMatches | server/src/services/taskService.ts:137-139 | a page is newest first and holds only matching tasks of the table |
| Tasks.PagesCoverAllMatches | server/src/services/taskService.ts:137-149 | in the single newest-first order the model fixes, pages 1 to `pages` read in turn give every match exactly once, in order (ties in `createdAt` see Left out) |
| Tasks.NewestFirstIsUnique | server/src/services/taskService.ts:137-139 | two newest-first arrangements of the same tasks with distinct creation times are equal |
| Tasks.OrderIsForcedByDistinctTimes | server/src/services/taskService.ts:126-139 | when the matching tasks have distinct `createdAt`, every newest-first arrangement of them is the one the model pages through |
| Tasks.TaskById | server/src/services/taskService.ts:152-191 | TASK_NOT_FOUND iff the id is absent; NOT_MEMBER iff the caller is not in the task's team; success iff the task exists and the caller is in its team, giving the task with all its records, newest first |
| Tasks.TaskByIdAgreesWithFeed | server/src/services/taskService.ts:162-164 | reading a task by id gives the same history and the same errors as the task's activity feed |
| Tasks.Merge | server/src/services/taskService.ts:220-233 | `??` keeps title, description, priority and assignee when absent; a falsy status or due date keeps the old one; completedAt is set iff the new status is DONE |
| Tasks.MergeIdempotent | server/src/services/taskService.ts:223-233 | applying the same update twice at one instant equals applying it once |
| Tasks.EmptyUpdateOnlyTouchesCompletion | server/src/services/taskService.ts:226-232 | an empty update changes nothing but completedAt |
| Tasks.ReplaceTask | server/src/services/taskService.ts:223-224 | the update replaces the row with that id in place and touches no other row |
| Tasks.ReplaceKeepsIds | server/src/services/taskService.ts:223-224 | the update keeps task ids unique and the same set of ids |
| Tasks.MergedRowIsConsistent | server/src/services/taskService.ts:223-242 | a merged row with a known assignee keeps the store's references valid |
| Tasks.StatusLog | server/src/services/taskService.ts:245-257 | the `status_changed` record names the caller, the task and its team, with the status before and after |
| Tasks.UpdateTask | server/src/services/taskService.ts:193-261 | TASK_NOT_FOUND, then NOT_MEMBER, each an iff and writing nothing; success iff the task is found, the caller is a member, a given assignee is a user, and a status change has a free log id; success replaces the row with the merge and appends `status_changed` iff the status changed; an assignee who is no user fails with nothing written; a failing log insert leaves the update in place |
| Tasks.WriteUpdate | server/src/services/taskService.ts:223-257 | the merged row replaces the old one whatever follows; a changed status appends `status_changed` iff its id is free, and the call fails only when that insert does |
| Tasks.WithoutTask | server/src/services/taskService.ts:292-294 | after the delete, no row has that id and every other row remains |
| Tasks.WithoutTaskRemovesOne | server/src/services/taskService.ts:292-294 | deleting an existing id removes exactly one row |
| Tasks.DeleteTask | server/src/services/taskService.ts:263-295 | TASK_NOT_FOUND iff the id is absent; FORBIDDEN iff the caller is neither the creator nor a LEADER of the team; success iff neither applies, and then exactly that row is removed and the other tables are unchanged |
| Analytics.IsOverdue | server/src/services/analyticsService.ts:37-43 | a task without a due date, or one that is DONE, is never overdue |
| Analytics.OverdueUntilDone | server/src/services/analyticsService.ts:37-43 | an overdue task stays overdue as time passes, and stops being overdue once it is DONE |
| Analytics.CompletionRate | server/src/services/analyticsService.ts:52-53 | 0 without tasks; otherwise the percentage rounded to the nearest integer, within [0, 100] |
| Analytics.OverviewOf | server/src/services/analyticsService.ts:26-54 | each count is the number of the team's tasks in that status, or overdue; total = done + in progress + todo; overdue ≤ total − done; the rate is `CompletionRate` of done and total, in [0, 100] |
| Analytics.StatusCountsAddUp | server/src/services/analyticsService.ts:33-36 | the three status counts add up to the team's task count |
| Analytics.OverdueAreNotDone | server/src/services/analyticsService.ts:34-43 | overdue and done tasks are disjoint, so their counts add up to no more than the total |
| Analytics.GetOverview | server/src/services/analyticsService.ts:7-55 | NOT_MEMBER iff an outsider asks and success iff a member asks, giving the team's task count, the count in each status, the overdue count, and the rate of done over total |
| Analytics.StatsOf | server/src/services/analyticsService.ts:98-107 | one user's tasks in the team, with each status count equal to the number of that user's team tasks in that status |
| Analytics.TasksPerUser | server/src/services/analyticsService.ts:57-108 | NOT_MEMBER iff an outsider asks and success iff a member asks, giving one entry per team member, including members with no tasks, and only members; with unique user ids, no user has two entries |
| Analytics.StatsCoverMembers | server/src/services/analyticsService.ts:76-107 | every team member has an entry and every entry is a member's |
| Analytics.OverdueTasks | server/src/services/analyticsService.ts:110-145 | NOT_MEMBER iff an outsider asks and success iff a member asks, giving exactly the team's unfinished tasks due before now, earliest due first |
| Analytics.OverdueListFacts | server/src/services/analyticsService.ts:129-144 | the sorted list holds exactly the overdue tasks, and every one has a due date in ascending order |
| Analytics.OverdueCountMatchesList | server/src/services/analyticsService.ts:37-43 | the overview's overdue count equals the length of the overdue list at the same instant |
| Activity.SortNewestFirst | server/src/services/activityService.ts:41 | `orderBy createdAt desc` gives a permutation, newest first |
| Activity.LogsOfTask | server/src/services/activityService.ts:34-35 | a record is selected iff it names the task |
| Activity.LogsOfTeam | server/src/services/activityService.ts:64-65 | a record is selected iff it belongs to the team |
| Activity.TaskActivities | server/src/services/activityService.ts:7-43 | TASK_NOT_FOUND, then NOT_MEMBER of the task's team, each an iff; success iff the task exists and the caller is in its team, giving all the task's records, newest first, uncapped |
| Activity.TeamActivities | server/src/services/activityService.ts:45-77 | NOT_MEMBER iff an outsider asks and success iff a member asks, giving min(n, 100) of the team's n records, newest first |
| Activity.TeamFeedIsMostRecent | server/src/services/activityService.ts:74-75 | every record left out of the team feed is no newer than every record in it |
| Activity.TeamFeedBelongsToTeam | server/src/services/activityService.ts:64-75 | the team feed holds only that team's records |
| Activity.TaskFeedIsExact | server/src/services/activityService.ts:34-42 | the task feed holds exactly the records naming the task |
| Auth.Public | server/src/services/authService.ts:34-40 | the returned user is the row without the password |
| Auth.NewUser | server/src/services/authService.ts:27-33 | the inserted row has role MEMBER and the hash of the password, never the password itself |
| Auth.Register | server/src/services/authService.ts:9-44 | EMAIL_EXISTS iff the email is taken, with nothing written; success iff the email is free and the generated id is unused, and then one MEMBER row holding the hash of the password is appended and returned without it |
| Auth.Login | server/src/services/authService.ts:46-80 | an unknown email and a wrong password both give INVALID_CREDENTIALS; success iff a user has that email and the password matches its hash, giving that user |
| Auth.LoginFailuresLookAlike | server/src/services/authService.ts:52-72 | every failed login gets the same 401 reply, so the reply does not reveal whether the email exists |
| Auth.LoginAfterRegister | server/src/services/authService.ts:46-80 | after registering with a fresh email, logging in with the same password succeeds |
| Auth.UserById | server/src/services/authService.ts:82-99 | USER_NOT_FOUND iff the id is absent and success iff it is present, giving that user without the password |
| Auth.ReadAfterRegister | server/src/services/authService.ts:82-99 | the user `register` returns is the one `getUserById` then finds |
| Jwt.AccessSecret | server/src/utils/jwt.ts:17 | `JWT_SECRET` when it is set and non-empty, else "secret" |
| Jwt.RefreshSecret | server/src/utils/jwt.ts:24 | `JWT_REFRESH_SECRET` when it is set and non-empty, else "refresh-secret" |
| Jwt.GenerateAccessToken | server/src/utils/jwt.ts:12-21 | the `{id, email, role}` claims, signed with `JWT_SECRET` when set and with "secret" otherwise |
| Jwt.GenerateRefreshToken | server/src/utils/jwt.ts:23-28 | the `{id}` claims, signed with `JWT_REFRESH_SECRET` when set and with "refresh-secret" otherwise |
| Jwt.VerifyAccessToken | server/src/utils/jwt.ts:30-36 | verification under the same access secret the signer uses |
| Jwt.VerifyRefreshToken | server/src/utils/jwt.ts:38-47 | verification under the same refresh secret the signer uses |
| Jwt.AccessTokenRoundTrip | server/src/utils/jwt.ts:12-36 | an access token verifies back to its {id, email, role} payload |
| Jwt.RefreshTokenIsNoAccessToken | server/src/utils/jwt.ts:23-36 | when the two secrets differ, a refresh token verifies as a refresh token and not as an access token |
| Jwt.DefaultsKeepTokensApart | server/src/utils/jwt.ts:17-36 | with neither secret configured, a refresh token is refused where an access token is expected |
| Jwt.Split | server/src/utils/jwt.ts:55 | `split(" ")` gives at least one piece and no piece contains a space |
| Jwt.JoinSplit | server/src/utils/jwt.ts:55 | joining the pieces with spaces gives back the header |
| Jwt.ExtractToken | server/src/utils/jwt.ts:54-60 | a token is the non-empty second piece of the header split on single spaces |
| Jwt.AnySchemeIsAccepted | server/src/utils/jwt.ts:55 | any first word, not only `Bearer`, passes on the token after it |
| Jwt.NoTokenCases | server/src/utils/jwt.ts:55-60 | a header without a space, or with two spaces after the first word, has no token |
| Jwt.UserOfClaims | server/src/utils/jwt.ts:68-72 | `req.user` copies id, email and role; a refresh payload leaves email and role undefined |
| Jwt.Authorize | server/src/utils/jwt.ts:77-91 | 401 iff there is no user; 403 iff the user's role is not listed; otherwise next, each an iff |
| Jwt.AuthorizeAfterAuthenticate | server/src/utils/jwt.ts:68-90 | an authenticated user passes the role gate iff its token had access claims with a listed role |
| Jwt.Exchange.Authenticate | server/src/utils/jwt.ts:49-75 | 401 "No token provided", then 401 "Invalid or expired token", leaving user and next untouched; otherwise sets the user from the claims and calls next once |
| Jwt.Exchange.AuthorizeRoles | server/src/utils/jwt.ts:77-91 | answers with the gate's rejection, or calls next once |
| RegisterForm.GetPasswordStrength | client/src/pages/RegisterPage.tsx:33-41 | the score is the number of criteria met, at most 5 |
| RegisterForm.ExcellentIffAllCriteria | client/src/pages/RegisterPage.tsx:35-39 | score 5 iff the password has at least 8 code units, a capital, a small letter, a digit and another character |
| RegisterForm.Strength | client/src/pages/RegisterPage.tsx:33-41 | one point per criterion met, so at most 5, and 0 for the empty password |
| RegisterForm.NonEmptyScoresAtLeastOne | client/src/pages/RegisterPage.tsx:36-39 | every non-empty password meets at least one class criterion |
| RegisterForm.AppendNeverLowers | client/src/pages/RegisterPage.tsx:33-41 | typing one more character never lowers the score |
| RegisterForm.StrengthLabel | client/src/pages/RegisterPage.tsx:43-44 | the label lookup is in range, and blank only for score 0 |
| RegisterForm.StrengthColor | client/src/pages/RegisterPage.tsx:43-45 | the colour lookup is in range, and blank only for score 0 |
| RegisterForm.IndicatorIsNeverBlank | client/src/pages/RegisterPage.tsx:261-281 | when the indicator shows (a non-empty password) it has a label and a colour |
| RegisterForm.SubmitGuard | client/src/pages/RegisterPage.tsx:51-59 | the mismatch message iff the passwords differ; the length message iff they match but are under 6 code units; no message otherwise |
| RegisterForm.FailureMessage | client/src/pages/RegisterPage.tsx:67-69 | the server's error when it is non-empty, else the fallback; never empty |
| RegisterForm.Form.HandleSubmit | client/src/pages/RegisterPage.tsx:47-73 | a failed check sets its message and calls nothing; otherwise `register` is called once, then it navigates home or shows the failure message, and loading ends off |

## Left out

- Persistence machinery is not modelled:
  - query execution;
  - `include`/`select` projections (a task is returned as its row, without the creator and assignee objects);
  - `_count` beyond the task count;
  - `updatedAt`.
- Generated ids (cuid) and timestamps are parameters. A colliding id is modelled as a failure, not prevented.
- `Promise.all` reads are modelled as sequential reads of one snapshot.
- Concurrency between requests is not modelled: every operation is atomic apart from the two writes noted above.
- Deleting a task leaves its activity records as they are. The schema's referential action for them is not part of this model.
- Enumeration values arrive already typed. A query string with an unknown status or priority, which Prisma rejects with a 500, is not modelled.
- Dates arrive already parsed: `new Date(...)` is a clock value, and an unparsable date is not modelled.
- Activity `details` are a datatype, not the JSON string `JSON.stringify` produces.
- Query parameters are strings or absent. Arrays or objects from repeated keys are not modelled.
- Pagination.ParseInt: computes the exact integer. JavaScript's `parseInt` returns a double: a page above 2^53 is rounded, and a digit string of more than about 309 digits becomes Infinity, so `skip` is Infinity and the query fails, where the model returns an empty page.
- Analytics.CompletionRate: rounds halves up in exact arithmetic. The source rounds a floating-point quotient. At exact halves the two can differ, so only the bounds and the zero case are claimed to match.
- Tasks.PagesCoverAllMatches: the model fixes one newest-first order, also among tasks with equal `createdAt`, and every page query reuses it. The database leaves the order of ties unspecified from one query to the next, so a task tied with another at a page boundary may appear on two pages or on none. `Tasks.OrderIsForcedByDistinctTimes` shows that the order is forced when the creation times are distinct.
- Tasks.TeamTasks: requires page ≥ 1 and limit ≥ 1. Its only caller passes the output of `parsePagination`, which guarantees both.
- Pagination.CreatePaginatedResponse: requires limit ≥ 1 (a limit of 0 would give Infinity or NaN pages). No caller can pass 0.
- bcrypt hashing and comparison are parameters. Their cost factor and salting are not modelled.
- jsonwebtoken signing and verification are parameters:
  - Token expiry (`JWT_EXPIRE_IN`, `JWT_REFRESH_EXPIRE_IN`) and the token format (RFC 7519) are not modelled.
  - A failed verification is one `None`, whatever the reason.
  - Payloads other than the two claim shapes are not modelled.
- Console logging in `handleError` is not modelled.
- RegisterForm.Form.HandleSubmit:
  - The awaited `register` request is reduced to its outcome. The intermediate render while loading is not modelled.
  - The browser's `required` checks on the inputs and `preventDefault` are not modelled.
- The React rendering of the page, apart from the strength indicator's lookups, is not modelled.
- Controllers, routes, the Express error-handler middleware, the axios client and seeding are not part of this model.
