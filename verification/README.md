# nextjob-api in Dafny

A model of the request-handling core of nextjob-api, an Express and Mongoose
backend for a job board. It covers:

- the one-time-passcode utility: issuing a six-digit code with a ten-minute
  lifetime, and verifying and consuming it;
- the `users` collection: schema validators, the pre-save hook that hashes a
  modified password, and `comparePassword`;
- every handler of the user/auth controller;
- the bearer-token gate in front of the protected routes;
- the job handlers: list, read, create, update and delete, with ownership
  checks;
- the zod request schemas for users and jobs;
- the validation middleware and the error middleware.

Each handler is a pure step function. It takes the collection (a sequence of
documents in natural order, so `findOne` is the first match) and the request,
and returns the reply together with the collection afterwards. A reply is either
a sent JSON response or an error handed to `next`, which the error middleware
then turns into a response. The outside world enters only as parameters:

- the clock is a number of milliseconds;
- `Math.random()` is a draw `r < 900000`;
- the new ObjectId is a parameter the driver would choose;
- token verification is an oracle from token strings to user ids;
- zod's URL and e-mail checks are oracles;
- whether the OTP e-mail was delivered is a parameter.

bcrypt is replaced by an injective, deterministic stand-in that keeps the
`$2a$10$` prefix of cost factor 10.

Files:

| file | module | what it models |
|---|---|---|
| common.dfy | `Common` | options, results, request fields, thrown errors, handler replies |
| otp.dfy | `Otp` | `src/utils/otp.ts` over the `otps` collection |
| user_model.dfy | `UserModel` | `src/models/user.model.ts` |
| auth_controller.dfy | `AuthController` | `src/controllers/auth.controller.ts` |
| auth_middleware.dfy | `AuthMiddleware` | `src/middleware/auth.middleware.ts` |
| job_model.dfy | `JobModel` | `src/models/job.model.ts` and `src/types/JobTypes.ts` |
| zod.dfy | `Zod` | the part of zod's `safeParse` result that is read |
| job_schema.dfy | `JobSchema` | `src/validators/job.schema.ts` |
| auth_schema.dfy | `AuthSchema` | `src/validators/auth.schema.ts` |
| middleware.dfy | `ValidateMiddleware`, `ErrorMiddleware` | the two generic middlewares |
| job_controller.dfy | `JobController` | `src/controllers/job.controller.ts` and the PUT route |

The OTP expiry test follows the code: `expiresAt < now` rejects, so a code is
still accepted at the exact instant it expires.

## Model

| member | source | states |
|---|---|---|
| Common.FirstIndex | src/controllers/auth.controller.ts:18 | `findOne` picks the first document in natural order that matches, and finds none only when no document matches |
| Otp.GenerateOtp | src/utils/otp.ts:4-5 | every draw gives a six-character all-digit code with no leading zero, whose value is 100000 + r |
| Otp.DecimalRoundTrip | src/utils/otp.ts:5 | reading back the decimal text `toString` produces gives the number again |
| Otp.DecimalWidth | src/utils/otp.ts:5 | a number with k digits is written as exactly k characters without a leading zero |
| Otp.DeleteFirstEffect | src/utils/otp.ts:11 | `findOneAndDelete({ email })` removes exactly one record of that email when there is one, and no record of any other email |
| Otp.RecordViolations | src/models/otp.model.ts:9-13 | a record is refused exactly when its email or its code is the empty string, which the `required` validators treat as missing |
| Otp.CreateAndSendOtp | src/utils/otp.ts:7-20 | an empty email makes `create` throw a validation error after the delete has run, so that email loses one record and no mail is attempted; otherwise the new record holds the code and expires ten minutes after now, the email keeps one record per earlier record or gets its first, and the mail is attempted with the given result; other emails' records are untouched either way |
| Otp.StoreIgnoresDelivery | src/utils/otp.ts:13-19 | the collection and the code after issuing are the same whether or not the mail went out, because the send comes after the write |
| Otp.IssueKeepsOneRecord | src/utils/otp.ts:11-17 | from a collection with at most one record per email, issuing keeps that invariant and leaves exactly one record for a non-empty email, the new one, and none for the empty email |
| Otp.VerifyOtp | src/utils/otp.ts:22-36 | the outcome is not-found, mismatch, expired or accepted, each exactly under its condition, checked in that order; acceptance consumes one record of that email and nothing else |
| Otp.Thrown | src/utils/otp.ts:25-33 | `verifyOtp` throws exactly when it rejects, and what it throws is an Error with no status and a non-empty message |
| Otp.RejectionIs500 | src/utils/otp.ts:25-33 | the error thrown on any rejection becomes a 500 through the error middleware, with a message that names the failed check: not-found, invalid or expired |
| Otp.VerifyIsSingleUse | src/utils/otp.ts:35 | after a successful verification, the same email finds no record, whatever code and time follow |
| Otp.IssueThenVerify | src/utils/otp.ts:7-36 | right after issuing at t0, verifying at t1 succeeds exactly when the email is non-empty, the code matches and t1 ≤ t0 + 10 minutes; otherwise a non-empty email gets mismatch or expired and the empty email gets not-found |
| UserModel.ParseRole | src/models/user.model.ts:19 | the enum validator accepts exactly EMPLOYER, USER and ADMIN, and names the role it read |
| UserModel.RoleRoundTrip | src/models/user.model.ts:9 | every role survives printing and re-reading |
| UserModel.Hash | src/models/user.model.ts:26 | a hash carries the cost-10 prefix, differs from the plain password and determines it |
| UserModel.HashInjective | src/models/user.model.ts:26 | two passwords with the same hash are equal |
| UserModel.ComparePasswordExact | src/models/user.model.ts:30-34 | once the stored hash is that of p, p is the only password that matches |
| UserModel.RehashLocksOut | src/models/user.model.ts:24-28 | hashing an already hashed password locks its owner out, which is why the hook skips unmodified passwords |
| UserModel.InvalidPaths | src/models/user.model.ts:15-19 | validation fails exactly when an assigned name, email or password is empty or an assigned role is outside the enum |
| UserModel.SaveUser | src/models/user.model.ts:13-28 | a save succeeds exactly when validation passes and the new email is not another user's; only the saved document changes, field by field as assigned; an assigned password is stored as a hash that only it matches; unique ids and emails are kept |
| UserModel.CreateUser | src/models/user.model.ts:13-28 | creation succeeds exactly when every required field is non-empty, the role is valid and neither id nor email is in use; the new user is appended, unverified, with its password hashed |
| UserModel.RemoveUser | src/controllers/auth.controller.ts:137 | deleting one user keeps the collection valid and leaves no user with that id |
| AuthController.RegisterUser | src/controllers/auth.controller.ts:6-36 | missing fields give 400 "All fields are required."; a taken email gives 400 "User already exists."; otherwise 201 with the new id, name, email, role and a token for that id, exactly when the model's validators pass and the id is free, and in every other case the store's error is forwarded without a status (a 500 through the error middleware); the collection changes only on 201 and stays valid |
| AuthController.LoginUser | src/controllers/auth.controller.ts:38-71 | missing fields give 400; otherwise 200 with credentials exactly when the first user with that email matches the password, and 401 "Invalid credentials." in every other case |
| AuthController.LoginFailuresLookAlike | src/controllers/auth.controller.ts:49-57 | an unknown email and a wrong password for a known email get the same 401 reply |
| AuthController.LoginIgnoresVerification | src/controllers/auth.controller.ts:49-57 | login never consults `isVerified` |
| AuthController.RegisterThenLogin | src/controllers/auth.controller.ts:18-67 | a freshly registered user logs in at once with the same email and password and gets a token for the new id |
| AuthController.LogoutUser | src/controllers/auth.controller.ts:73-83 | logout is a 200 message that leaves the collection as it was |
| AuthController.GetUserProfile | src/controllers/auth.controller.ts:85-100 | 404 exactly when the caller's id has no record; otherwise 200 with that stored record, password removed |
| AuthController.GetUserById | src/controllers/auth.controller.ts:157-172 | 404 exactly when no user has the id; otherwise 200 with that user, password removed |
| AuthController.GetUserByEmail | src/controllers/auth.controller.ts:256-273 | 404 exactly when no user has the email; otherwise 200 with that user, password removed |
| AuthController.GetAllUsers | src/controllers/auth.controller.ts:144-155 | 200 with every stored user, in order, passwords removed |
| AuthController.GetUserRole | src/controllers/auth.controller.ts:218-233 | 404 exactly when the caller's record is gone; otherwise 200 with its role alone |
| AuthController.RegisterThenRead | src/controllers/auth.controller.ts:23-32 | after a 201 registration the new user, unverified and without password, is what the email and id reads return, and it is the last entry of the user list |
| AuthController.UpdateUserProfile | src/controllers/auth.controller.ts:102-124 | with the caller found, the save succeeds (200) exactly when a truthy new email is not another user's; only truthy name, email and password are assigned, never the role; other fields and other users are unchanged; the password is rehashed only when given; a failing save writes nothing; the collection stays valid |
| AuthController.UpdateUserProfileAsWritten | src/controllers/auth.controller.ts:102-124 | stores the same as the corrected handler and sends a reply exactly when it does, the 404 or a 200; that 200 carries the same user, plus the new password hash whenever a password was given; without a password it is the corrected handler |
| AuthController.ProfileUpdateLeaksHash | src/controllers/auth.controller.ts:109-120 | a concrete request on which the handler as written returns the stored hash and the corrected one does not |
| AuthController.UpdateUserById | src/controllers/auth.controller.ts:174-197 | with the user found, 200 exactly when a truthy new email is not another user's and a truthy role is one of the enum; otherwise as the profile update, with a truthy role assigned too; a failing save writes nothing |
| AuthController.UpdateUserByEmail | src/controllers/auth.controller.ts:275-300 | the same update, with the same success condition, on the first user with the email in the path |
| AuthController.UpdateUserRole | src/controllers/auth.controller.ts:235-254 | with the caller found, 200 exactly when the role is one of the enum, and then only that user's role changes; every other reply is 404 or a forwarded error, and writes nothing |
| AuthController.RoleUpdateThenRead | src/controllers/auth.controller.ts:218-254 | after a successful role update, the role read and the profile read both show the new role |
| AuthController.DeleteUserProfile | src/controllers/auth.controller.ts:126-142 | 404 and no change when the caller's record is gone; otherwise exactly that record is removed |
| AuthController.DeleteUserById | src/controllers/auth.controller.ts:199-216 | 404 and no change for an unknown id; otherwise exactly that user is removed, by any caller |
| AuthController.DeleteThenNotFound | src/controllers/auth.controller.ts:157-216 | after a delete, reading, updating or deleting the same id is a 404 that changes nothing |
| AuthMiddleware.SplitJoin | src/middleware/auth.middleware.ts:19 | splitting the header on spaces loses nothing: joining the parts gives it back |
| AuthMiddleware.BearerTokenIsSecondSegment | src/middleware/auth.middleware.ts:13-19 | for "Bearer " + t, with no space in t, the token read is t, even when further segments follow |
| AuthMiddleware.Authenticate | src/middleware/auth.middleware.ts:6-32 | a missing or non-Bearer header gives 401 "No token provided"; otherwise the request proceeds exactly when the token verifies to the id of a stored user, and then carries that user without the password; every other case is 401 "User not found" |
| AuthMiddleware.LogoutKeepsTokensValid | src/controllers/auth.controller.ts:73-83 | logout revokes nothing: the gate accepts every header it accepted before, with the same user |
| AuthMiddleware.GateThenProfile | src/middleware/auth.middleware.ts:12-28 | a valid token for a stored user passes the gate, and the profile handler then answers 200 with that user |
| JobModel.EnumRoundTrips | src/models/job.model.ts:9-22 | every workplace type, employment type and salary frequency survives printing and re-reading |
| JobModel.ModelViolations | src/models/job.model.ts:6-28 | no path is reported exactly when every required string is non-empty and every enum value is one of its list |
| JobModel.CastJob | src/models/job.model.ts:4-42 | a job input is refused exactly when the model's validators fail, with the failing paths; otherwise every field is stored as given |
| JobSchema.Issues | src/validators/job.schema.ts:3-73 | the schema reports no issue exactly when every field meets its length, enum, positivity or URL rule |
| JobSchema.SafeParse | src/validators/job.schema.ts:3-73 | parsing succeeds exactly when the schema accepts the body |
| JobSchema.ShortTitleReportedFirst | src/validators/job.schema.ts:4-9 | a title under three characters is the first issue, with the schema's message |
| JobSchema.EmployerKeyIgnored | src/validators/job.schema.ts:3-73 | the schema has no `employer` key, so adding one to a body changes nothing in the parse |
| JobSchema.AcceptedInputFitsModel | src/validators/job.schema.ts:3-73 | a body the schema accepts also passes the job model's validators |
| AuthSchema.SchemaRolesAreModelRoles | src/validators/auth.schema.ts:7 | the schemas' role enum and the user model's enum are the same set |
| AuthSchema.AcceptedRegistrationSucceeds | src/validators/auth.schema.ts:3-8 | a body `createUserSchema` accepts registers with 201 when the email and id are new |
| AuthSchema.AcceptedLoginHasFields | src/validators/auth.schema.ts:16-19 | a body `loginUserSchema` accepts never gets the missing-fields reply, only 200 or 401 |
| AuthSchema.UpdateSchemaIgnoresPassword | src/validators/auth.schema.ts:10-14 | `updateUserSchema` does not look at the password, and a body it accepts carries a valid role |
| AuthSchema.GeneratedCodePassesVerifySchema | src/validators/auth.schema.ts:21-24 | every generated code passes `verifyEmailSchema`'s length check |
| ValidateMiddleware.FieldErrors | src/middleware/validate.middleware.ts:10-13 | one error entry per issue, in order, with the issue's path and message |
| ValidateMiddleware.Validate | src/middleware/validate.middleware.ts:4-23 | `next` is called exactly when parsing succeeded; otherwise a 400 "Validation Error" envelope lists every issue |
| ErrorMiddleware.HandleError | src/middleware/error.middleware.ts:3-20 | the status is the error's when truthy, else 500; the message is the error's when non-empty, else "Internal Server Error"; success is false; the stack appears only outside production |
| ErrorMiddleware.UnlabelledErrorIs500 | src/middleware/error.middleware.ts:9-10 | an error without a status, such as a store failure, becomes a 500 that keeps its message |
| JobController.InsertByAge | src/controllers/job.controller.ts:15 | inserting into a newest-first list keeps it newest-first and adds exactly that job |
| JobController.SortNewestFirst | src/controllers/job.controller.ts:12-15 | the result is ordered by `createdAt` descending and is a permutation of the stored jobs |
| JobController.GetAllJobs | src/controllers/job.controller.ts:6-25 | 200 "Jobs fetched successfully" with every stored job, each as often as stored, newest first |
| JobController.GetJobById | src/controllers/job.controller.ts:27-50 | a 404 "Job not found" error exactly when no job has the id; otherwise 200 with that job |
| JobController.CreateReadDelete | src/controllers/job.controller.ts:27-157 | a created job reads back as itself, its creator can delete it, and then reading it is a 404 |
| JobController.MissingJobIs404 | src/controllers/job.controller.ts:38-40 | a missing job reaches the client as 404 "Job not found" with success false |
| JobController.CreateJob | src/controllers/job.controller.ts:52-93 | 201 exactly when the model's validators pass and the id is new; the job is appended, owned by the caller, with both timestamps now; a failure writes nothing and carries no status; ids stay unique |
| JobController.CreateIgnoresBodyEmployer | src/controllers/job.controller.ts:69-80 | an `employer` key in the body changes nothing: the created job belongs to the caller |
| JobController.UpdateJobById | src/controllers/job.controller.ts:95-128 | 404 and no change exactly when the caller owns no job with the id; an owned job is always updated, with 201 and that job's fields replaced and `updatedAt` now; no job changes owner or id, and jobs of other owners are untouched |
| JobController.UpdateJobByIdAsWritten | src/controllers/job.controller.ts:101-109 | an owned job is always updated with a 201; the stored job is the corrected update's except that an `employer` key in the body becomes its owner; no other job changes and the reply carries the stored job; without the key it is the corrected handler |
| JobController.UpdateAsWrittenTransfersOwnership | src/controllers/job.controller.ts:101-109 | a concrete request by which an owner hands a job to another user and then cannot delete it, while the corrected update keeps the owner |
| JobController.DeleteJobById | src/controllers/job.controller.ts:130-157 | 404 and no change exactly when the caller owns no job with the id; an owned job is always deleted, with 200 and the job as it was; the first job with the id is removed, and with unique ids exactly that job is removed and no job with the id remains |
| JobController.OthersJobsUntouchable | src/controllers/job.controller.ts:105-147 | a job owned by someone else is neither changed nor removed by the caller's update or delete |
| JobController.PutJobRoute | src/routes/job.routes.ts:37-42 | with the corrected handler: a body the schema rejects gets the 400 validation envelope and the handler does not run; one it accepts reaches the update handler |
| JobController.PutJobRouteAsWritten | src/routes/job.routes.ts:37-42 | the route as it is wired, to the handler as written: the same 400 for a rejected body, and the as-written update for an accepted one |
| JobController.RouteAsWrittenTransfersOwnership | src/routes/job.routes.ts:37-42 | through the route as written, a schema-accepted body with an `employer` key hands job 7 from owner 1 to user 2, while the corrected route keeps owner 1 |

## Left out

- Sending the OTP e-mail (nodemailer) is not modelled; only whether it was delivered is a parameter. A failed send rejects the promise after the record is stored, and the model keeps that order. `createAndSendOtp` and `verifyOtp` have no caller among the routes, so their thrown errors are modelled as outcomes, not as replies of a handler.
- JWT signing, the secret and the seven-day expiry are left out. `generateToken` is the value `Jwt(id)` and `verifyToken` is an oracle that never throws, as the source's try/catch makes it.
- bcrypt's random salt and its cost are left out. The stand-in hash is deterministic and injective, which is all `comparePassword` relies on.
- zod's type errors are left out: missing keys, values of the wrong JSON type, and its `required_error` and `invalid_type_error` messages. Request bodies are typed here, with absent string fields as `None`. zod's URL and e-mail grammars are oracles.
- `populate("employer", ...)` in the job reads is left out. The model returns the stored owner id in place of the populated user.
- ObjectId cast errors are left out. An id in the path or body that is not a valid ObjectId makes Mongoose throw a CastError, and ids here are numbers.
- The users' `createdAt`/`updatedAt` timestamps are left out. The user replies serialise the whole document, so the client receives both fields, but the model's replies carry neither.
- The jobs' `appliedCandidates` is left out. The corrected handlers never write it, but the as-written `updateJobById` would write it from the body like any other schema path. `JobController.UpdateJobByIdAsWritten` models only the `employer` key among such paths.
- Failures of the database calls themselves (a lost connection, a timeout) are left out. In the source they reach `next(error)` and become a 500 through the error middleware; here every query and write succeeds unless a validator or a unique index refuses it.
- The text of store errors is abbreviated. `UserModel.DbErrorToAppError`, `JobController.CreateJob` and `Otp.CreateAndSendOtp` keep the collection and the failing paths ("users validation failed: role"), but not Mongoose's per-path detail ("role: `X` is not a valid enum value for path `role`."). The error middleware sends `message` to the client, so the real text is longer.
- UserModel.HashInjective: holds of the stand-in hash only. bcryptjs reads just the first 72 bytes of a password, so two passwords that agree on those bytes share a hash and both match.
- UserModel.ComparePasswordExact: the same 72-byte limit applies; with bcryptjs, "only p matches" holds for passwords of at most 72 bytes.
- The routes to `getAllEmployerJobs`, `getAllUserAppliedJobs`, `applyToJob` and `getApplicantsForJob` are left out, because those handlers do not exist in the controller.
- Route wiring is modelled only for PUT /jobs/:id (`JobController.PutJobRouteAsWritten` and its corrected twin `JobController.PutJobRoute`: `validateMiddleware(createJobSchema)`, then the handler, with the caller the gate supplies as a parameter). The other routes differ. GET /jobs has no gate. POST /jobs runs the same validation as PUT before `createJob`. GET and DELETE /jobs/:id have only the gate. Register, login and logout are public. Every other user route has only the gate. The handlers are modelled on their own, and `AuthMiddleware.GateThenProfile` composes the gate with one of them.
- The `ApiError` class (`src/utils/apiError.ts`) is not part of this model. It is taken to set `statusCode` and `message` like `new Error(message)` plus a status.
- Query-operator injection is left out. An object such as `{ "$ne": null }` in a string field is impossible with typed bodies.
- Concurrency between requests and the asynchronous ordering of database calls are left out. Each handler is one atomic step.
- String lengths are counted in characters, not UTF-16 code units.
- `console.log` output and the HTML of the OTP e-mail are left out.
- JobController.PutJobRoute: composes the corrected `UpdateJobById`, not the handler the route reaches. `JobController.PutJobRouteAsWritten` is the route as wired, and `JobController.RouteAsWrittenTransfersOwnership` shows that the validation in front of it does not prevent the ownership transfer.
- JobController.UpdateJobById: requires that the body passes the job model's validators. `findOneAndUpdate` runs no validators, and the only route to it validates the body with `createJobSchema` first (`JobController.PutJobRoute` discharges this).
- AuthController.UpdateUserById: models the corrected reply without the password hash. The as-written leak is shown on the profile update alone (see Findings).
- AuthController.UpdateUserByEmail: models the corrected reply without the password hash, for the same reason as `AuthController.UpdateUserById`.
- Otp.CreateAndSendOtp: states the per-email record counts and that other emails are untouched, not the exact position of every surviving record.

## Findings

| source | as written | input that shows it | evidently intended | confidence | as-written member | corrected member |
|---|---|---|---|---|---|---|
| src/controllers/auth.controller.ts:109-120 | The user is loaded with `select("-password")`. A truthy `password` is assigned, `save()` hashes it, and `res.json(user)` sends the document, new hash included. The same code is at lines 181-193 and 282-296. | a profile update with body `{ "password": "secret2" }` for a stored user | the reply omits the password, like every other user reply | not executed; high | AuthController.UpdateUserProfileAsWritten (shown by AuthController.ProfileUpdateLeaksHash) | AuthController.UpdateUserProfile |
| src/controllers/job.controller.ts:101-109 | The whole request body is the update document. The validation middleware does not strip keys outside the schema, and `employer` is a schema path, so it is written. | the owner sends PUT /jobs/7 with a valid body plus `"employer": "<another user's id>"` | a job's owner never changes through an update, as `createJob` fixes it to the caller | not executed; medium | JobController.UpdateJobByIdAsWritten (shown by JobController.UpdateAsWrittenTransfersOwnership and, through the route, JobController.RouteAsWrittenTransfersOwnership) | JobController.UpdateJobById |
