/** The handlers of `src/controllers/job.controller.ts` as step functions over
    the `jobs` collection. `caller` is the id of the user the authorization gate
    attached (req.user.id); `newId` is the ObjectId the driver assigns and `now`
    is the clock Mongoose reads for the timestamps. Errors are thrown as
    ApiError(status, message) and answered by the error middleware. */
module JobController {
  import opened Common
  import opened JobModel
  import ErrorMiddleware
  import JobSchema
  import ValidateMiddleware

  const JobsFetched := "Jobs fetched successfully"
  const JobFetched := "Job fetched successfully"
  const JobCreated := "Job created successfully"
  const JobUpdated := "Job updated successfully"
  const JobDeleted := "Job deleted successfully"
  const JobNotFound := "Job not found"
  const CannotUpdate := "Job not found or you're not authorized to update it"
  const CannotDelete := "Job not found or you're not authorized to delete it"

  datatype JobBody =
    | JobEnvelope(success: bool, message: string, data: Job)
    | JobsEnvelope(success: bool, message: string, items: seq<Job>)  // sent as `data`

  type JobStep = Step<Jobs, JobBody>

  // ---------------------------------------------------------------------
  // Lookups

  /** Position of `findById(id)`. */
  function IndexOfJob(jobs: Jobs, id: ObjectId): (i: Option<nat>)
    ensures i.Some? ==> i.value < |jobs| && jobs[i.value].id == id
    ensures i.Some? ==> forall j :: 0 <= j < i.value ==> jobs[j].id != id
    ensures i.None? ==> forall j :: 0 <= j < |jobs| ==> jobs[j].id != id
  {
    FirstIndex(jobs, (j: Job) => j.id == id)
  }

  /** Position of `findOne({ _id: id, employer: caller })`. */
  function IndexOfOwned(jobs: Jobs, id: ObjectId, caller: ObjectId): (i: Option<nat>)
    ensures i.Some? ==> i.value < |jobs| && jobs[i.value].id == id && jobs[i.value].employer == caller
    ensures i.None? ==> forall j :: 0 <= j < |jobs| ==> !(jobs[j].id == id && jobs[j].employer == caller)
    ensures i.Some? ==> forall j :: 0 <= j < i.value ==> !(jobs[j].id == id && jobs[j].employer == caller)
  {
    FirstIndex(jobs, (j: Job) => j.id == id && j.employer == caller)
  }

  // ---------------------------------------------------------------------
  // getAllJobs: sort({ createdAt: -1 })

  predicate NewestFirst(s: Jobs) {
    forall i, j :: 0 <= i < j < |s| ==> s[i].createdAt >= s[j].createdAt
  }

  /** Insert `x` into a newest-first list, keeping it newest-first. */
  function InsertByAge(x: Job, s: Jobs): (r: Jobs)
    requires NewestFirst(s)
    ensures NewestFirst(r)
    ensures multiset(r) == multiset(s) + multiset{x}
    ensures |r| == |s| + 1 && (r[0] == x || (s != [] && r[0] == s[0]))
  {
    if s == [] || x.createdAt >= s[0].createdAt then [x] + s
    else
      var rest := InsertByAge(x, s[1..]);
      assert s == [s[0]] + s[1..];
      assert forall k :: 0 <= k < |rest| ==> rest[k].createdAt <= rest[0].createdAt <= s[0].createdAt;
      [s[0]] + rest
  }

  /** The jobs in newest-first order: the same jobs, each as often as stored. */
  method SortNewestFirst(jobs: Jobs) returns (sorted: Jobs)
    ensures NewestFirst(sorted)
    ensures multiset(sorted) == multiset(jobs)
  {
    sorted := [];
    var i := 0;
    while i < |jobs|
      invariant 0 <= i <= |jobs|
      invariant NewestFirst(sorted)
      invariant multiset(sorted) == multiset(jobs[..i])
    {
      sorted := InsertByAge(jobs[i], sorted);
      assert jobs[..i + 1] == jobs[..i] + [jobs[i]];
      i := i + 1;
    }
    assert jobs[..|jobs|] == jobs;
  }

  /** `getAllJobs`: every stored job, newest first. */
  method GetAllJobs(jobs: Jobs) returns (r: Reply<JobBody>)
    ensures r.Sent? && r.status == 200 && r.body.JobsEnvelope?
    ensures r.body.success && r.body.message == JobsFetched
    ensures NewestFirst(r.body.items) && multiset(r.body.items) == multiset(jobs)
  {
    var sorted := SortNewestFirst(jobs);
    r := Sent(200, JobsEnvelope(true, JobsFetched, sorted));
  }

  // ---------------------------------------------------------------------
  // getJobById

  /** `getJobById`: the stored job, or ApiError(404, "Job not found"). */
  function GetJobById(jobs: Jobs, id: ObjectId): (r: Reply<JobBody>)
    ensures IndexOfJob(jobs, id).None? <==> r == Forward(Raise(Some(404), JobNotFound))
    ensures IndexOfJob(jobs, id).Some? ==> r.Sent?
    ensures r.Sent? ==> r.status == 200 && r.body == JobEnvelope(true, JobFetched, jobs[IndexOfJob(jobs, id).value])
  {
    match IndexOfJob(jobs, id)
    case None => Forward(Raise(Some(404), JobNotFound))
    case Some(i) => Sent(200, JobEnvelope(true, JobFetched, jobs[i]))
  }

  /** A missing job reaches the client as a 404 "Job not found" with `success: false`. */
  lemma MissingJobIs404(jobs: Jobs, id: ObjectId, nodeEnv: Option<string>, now: nat)
    requires forall j :: 0 <= j < |jobs| ==> jobs[j].id != id
    ensures GetJobById(jobs, id).Forward?
    ensures var resp := ErrorMiddleware.HandleError(GetJobById(jobs, id).error, nodeEnv, now);
      resp.status == 404 && resp.body.message == JobNotFound && !resp.body.success
  {
    assert IndexOfJob(jobs, id).None?;
  }

  // ---------------------------------------------------------------------
  // createJob

  /** `createJob`: the body's fields are copied, the owner is always the caller
      (an `employer` key in the body is ignored), and Mongoose validates and
      stamps both timestamps with `now`. */
  function CreateJob(jobs: Jobs, caller: ObjectId, input: JobInput, newId: ObjectId, now: nat): (s: JobStep)
    ensures s.reply.Sent? <==> MeetsModel(input) && IndexOfJob(jobs, newId).None?
    ensures s.reply.Forward? ==> s.store == jobs && s.reply.error.statusCode.None?
    ensures s.reply.Sent? ==>
      var job := Job(newId, CastJob(input).value, caller, now, now);
      && s.reply == Sent(201, JobEnvelope(true, JobCreated, job))
      && s.store == jobs + [job]
    ensures UniqueIds(jobs) ==> UniqueIds(s.store)
  {
    match CastJob(input)
    case Err(paths) => Step(Forward(Raise(None, "jobs validation failed: " + JoinPaths(paths))), jobs)
    case Ok(fields) =>
      if IndexOfJob(jobs, newId).Some? then
        Step(Forward(Raise(None, "E11000 duplicate key error collection: jobs index: _id_")), jobs)
      else
        var job := Job(newId, fields, caller, now, now);
        Step(Sent(201, JobEnvelope(true, JobCreated, job)), jobs + [job])
  }

  /** Whatever owner a client writes into the body, the created job belongs to the caller. */
  lemma CreateIgnoresBodyEmployer(jobs: Jobs, caller: ObjectId, input: JobInput, other: Option<ObjectId>, newId: ObjectId, now: nat)
    ensures CreateJob(jobs, caller, input.(employer := other), newId, now) == CreateJob(jobs, caller, input, newId, now)
    ensures CreateJob(jobs, caller, input, newId, now).reply.Sent? ==>
            CreateJob(jobs, caller, input, newId, now).reply.body.data.employer == caller
  {
    assert ModelViolations(input.(employer := other)) == ModelViolations(input);
  }

  // ---------------------------------------------------------------------
  // updateJobById

  /** `updateJobById` (corrected): `findOneAndUpdate({ _id: id, employer: caller },
      body, { new: true })`. Only a job the caller owns is changed: its fields
      are replaced and `updatedAt` is set, its id, owner and `createdAt` stay.
      The route validates the body with `createJobSchema` first and
      findOneAndUpdate runs no validators, hence the requirement. */
  function UpdateJobById(jobs: Jobs, caller: ObjectId, id: ObjectId, input: JobInput, now: nat): (s: JobStep)
    requires CastJob(input).Ok?
    ensures IndexOfOwned(jobs, id, caller).None? <==> s == Step(Forward(Raise(Some(404), CannotUpdate)), jobs)
    ensures IndexOfOwned(jobs, id, caller).Some? ==> s.reply.Sent?
    ensures s.reply.Sent? ==>
      var i := IndexOfOwned(jobs, id, caller).value;
      var job := jobs[i].(fields := CastJob(input).value, updatedAt := now);
      && s.reply == Sent(201, JobEnvelope(true, JobUpdated, job))
      && s.store == jobs[i := job]
    ensures |s.store| == |jobs|
    ensures forall k :: 0 <= k < |jobs| ==> s.store[k].id == jobs[k].id && s.store[k].employer == jobs[k].employer
    ensures forall k :: 0 <= k < |jobs| && jobs[k].employer != caller ==> s.store[k] == jobs[k]
    ensures UniqueIds(jobs) ==> UniqueIds(s.store)
  {
    match IndexOfOwned(jobs, id, caller)
    case None => Step(Forward(Raise(Some(404), CannotUpdate)), jobs)
    case Some(i) =>
      var job := jobs[i].(fields := CastJob(input).value, updatedAt := now);
      Step(Sent(201, JobEnvelope(true, JobUpdated, job)), jobs[i := job])
  }

  /** `updateJobById` as written: the whole request body is the update, and
      the validation middleware does not strip keys outside the schema, so an
      `employer` key in the body is written too. */
  function UpdateJobByIdAsWritten(jobs: Jobs, caller: ObjectId, id: ObjectId, input: JobInput, now: nat): (s: JobStep)
    requires CastJob(input).Ok?
    ensures IndexOfOwned(jobs, id, caller).None? <==> s == Step(Forward(Raise(Some(404), CannotUpdate)), jobs)
    ensures IndexOfOwned(jobs, id, caller).Some? ==> s.reply.Sent? && s.reply.status == 201
    ensures input.employer.None? ==> s == UpdateJobById(jobs, caller, id, input, now)
    ensures |s.store| == |jobs|
    ensures s.reply.Sent? && input.employer.Some? ==>
            s.store[IndexOfOwned(jobs, id, caller).value].employer == input.employer.value
    ensures s.reply.Sent? ==>
            var i := IndexOfOwned(jobs, id, caller).value;
            var fixed := UpdateJobById(jobs, caller, id, input, now).store[i];
            && s.store[i] == fixed.(employer := s.store[i].employer)
            && (forall k :: 0 <= k < |jobs| && k != i ==> s.store[k] == jobs[k])
            && s.reply.body == JobEnvelope(true, JobUpdated, s.store[i])
  {
    match IndexOfOwned(jobs, id, caller)
    case None => Step(Forward(Raise(Some(404), CannotUpdate)), jobs)
    case Some(i) =>
      var owner := if input.employer.Some? then input.employer.value else jobs[i].employer;
      var job := jobs[i].(fields := CastJob(input).value, employer := owner, updatedAt := now);
      Step(Sent(201, JobEnvelope(true, JobUpdated, job)), jobs[i := job])
  }

  /** A sample body that passes `createJobSchema`, plus an `employer` key. */
  function SampleInput(employer: Option<ObjectId>): (input: JobInput)
    ensures MeetsModel(input)
  {
    JobInput("Backend developer", "Build and run the job board API", "Engineering", "REMOTE", "FULL_TIME",
             ["TypeScript"], SalaryInput("MONTHLY", 5000.0), Company("Acme", "https://acme.example/logo.png", "Pune"),
             employer)
  }

  /** Counterexample: with the body as written, owner 1 hands job 7 to user 2
      and then can no longer delete it; the corrected update keeps the owner. */
  lemma UpdateAsWrittenTransfersOwnership()
    ensures var fields := CastJob(SampleInput(None)).value;
      var jobs := [Job(7, fields, 1, 0, 0)];
      var moved := UpdateJobByIdAsWritten(jobs, 1, 7, SampleInput(Some(2)), 5).store;
      && moved[0].employer == 2
      && DeleteJobById(moved, 1, 7).reply == Forward(Raise(Some(404), CannotDelete))
      && UpdateJobById(jobs, 1, 7, SampleInput(Some(2)), 5).store[0].employer == 1
  {
    var jobs := [Job(7, CastJob(SampleInput(None)).value, 1, 0, 0)];
    assert IndexOfOwned(jobs, 7, 1) == Some(0);
    var moved := UpdateJobByIdAsWritten(jobs, 1, 7, SampleInput(Some(2)), 5).store;
    assert IndexOfOwned(moved, 7, 1).None?;
  }

  // ---------------------------------------------------------------------
  // deleteJobById

  /** `deleteJobById`: only a job the caller owns is deleted, by id, and the
      reply carries the job as it was before deletion. */
  function DeleteJobById(jobs: Jobs, caller: ObjectId, id: ObjectId): (s: JobStep)
    ensures IndexOfOwned(jobs, id, caller).None? <==> s == Step(Forward(Raise(Some(404), CannotDelete)), jobs)
    ensures IndexOfOwned(jobs, id, caller).Some? ==> s.reply.Sent?
    ensures s.reply.Sent? ==> IndexOfJob(jobs, id).Some? && s.store == RemoveAt(jobs, IndexOfJob(jobs, id).value)
    ensures s.reply.Sent? ==>
      s.reply == Sent(200, JobEnvelope(true, JobDeleted, jobs[IndexOfOwned(jobs, id, caller).value]))
    ensures s.reply.Sent? && UniqueIds(jobs) ==>
      && s.store == RemoveAt(jobs, IndexOfOwned(jobs, id, caller).value)
      && |s.store| == |jobs| - 1
      && UniqueIds(s.store)
      && forall k :: 0 <= k < |s.store| ==> s.store[k].id != id
  {
    match IndexOfOwned(jobs, id, caller)
    case None => Step(Forward(Raise(Some(404), CannotDelete)), jobs)
    case Some(i) =>
      // findByIdAndDelete(id) removes the first job with that id
      var j := IndexOfJob(jobs, id).value;
      assert UniqueIds(jobs) ==> j == i;
      Step(Sent(200, JobEnvelope(true, JobDeleted, jobs[i])), RemoveAt(jobs, j))
  }

  /** A created job can be read back by anyone and deleted by its creator,
      after which reading it is the 404 "Job not found". */
  lemma CreateReadDelete(jobs: Jobs, caller: ObjectId, input: JobInput, newId: ObjectId, now: nat)
    requires UniqueIds(jobs)
    requires CreateJob(jobs, caller, input, newId, now).reply.Sent?
    ensures var created := CreateJob(jobs, caller, input, newId, now);
      var job := created.reply.body.data;
      && GetJobById(created.store, newId) == Sent(200, JobEnvelope(true, JobFetched, job))
      && DeleteJobById(created.store, caller, newId).reply == Sent(200, JobEnvelope(true, JobDeleted, job))
      && GetJobById(DeleteJobById(created.store, caller, newId).store, newId) == Forward(Raise(Some(404), JobNotFound))
  {
    var created := CreateJob(jobs, caller, input, newId, now);
    var n := |jobs|;
    assert created.store[n].id == newId && created.store[n].employer == caller;
    assert forall j :: 0 <= j < n ==> created.store[j] == jobs[j];
    assert IndexOfJob(created.store, newId) == Some(n);
    assert IndexOfOwned(created.store, newId, caller) == Some(n);
  }

  /** A job owned by someone else is never changed or removed by the caller. */
  lemma OthersJobsUntouchable(jobs: Jobs, caller: ObjectId, id: ObjectId, input: JobInput, now: nat, k: nat)
    requires UniqueIds(jobs) && CastJob(input).Ok?
    requires k < |jobs| && jobs[k].employer != caller
    ensures UpdateJobById(jobs, caller, id, input, now).store[k] == jobs[k]
    ensures jobs[k] in DeleteJobById(jobs, caller, id).store
  {
    var s := DeleteJobById(jobs, caller, id);
    if s.reply.Sent? {
      var i := IndexOfOwned(jobs, id, caller).value;
      assert i != k;
      if k < i {
        assert s.store[k] == jobs[k];
      } else {
        assert s.store[k - 1] == jobs[k];
      }
    }
  }

  // ---------------------------------------------------------------------
  // PUT /jobs/:id: validateMiddleware(createJobSchema), then updateJobById

  datatype RouteReply = Invalid(outcome: ValidateMiddleware.Outcome) | Handled(step: JobStep)

  /** The route's pipeline after the gate, with the corrected handler: a body
      the schema rejects gets the 400 validation envelope and the handler never
      runs; one it accepts meets the handler's requirement. */
  function PutJobRoute(jobs: Jobs, caller: ObjectId, id: ObjectId, input: JobInput, isUrl: string -> bool, now: nat): (r: RouteReply)
    ensures !JobSchema.Accepts(input, isUrl) ==> r.Invalid? && r.outcome.Respond? && r.outcome.status == 400
    ensures JobSchema.Accepts(input, isUrl) ==> CastJob(input).Ok? && r == Handled(UpdateJobById(jobs, caller, id, input, now))
  {
    match ValidateMiddleware.Validate(JobSchema.SafeParse(input, isUrl))
    case Respond(status, success, message, errors) => Invalid(ValidateMiddleware.Respond(status, success, message, errors))
    case CallNext =>
      JobSchema.AcceptedInputFitsModel(input, isUrl);
      Handled(UpdateJobById(jobs, caller, id, input, now))
  }

  /** The same pipeline with the handler as written, which is what the route
      reaches: the schema's verdict ignores an `employer` key, so it does not
      stop the key from reaching the update. */
  function PutJobRouteAsWritten(jobs: Jobs, caller: ObjectId, id: ObjectId, input: JobInput, isUrl: string -> bool, now: nat): (r: RouteReply)
    ensures !JobSchema.Accepts(input, isUrl) ==> r.Invalid? && r.outcome.Respond? && r.outcome.status == 400
    ensures JobSchema.Accepts(input, isUrl) ==> CastJob(input).Ok? && r == Handled(UpdateJobByIdAsWritten(jobs, caller, id, input, now))
  {
    match ValidateMiddleware.Validate(JobSchema.SafeParse(input, isUrl))
    case Respond(status, success, message, errors) => Invalid(ValidateMiddleware.Respond(status, success, message, errors))
    case CallNext =>
      JobSchema.AcceptedInputFitsModel(input, isUrl);
      Handled(UpdateJobByIdAsWritten(jobs, caller, id, input, now))
  }

  /** Through the route as written, a body the schema accepts still hands the
      owner's job to the user named in its `employer` key. */
  lemma RouteAsWrittenTransfersOwnership(isUrl: string -> bool)
    requires isUrl(SampleInput(None).company.logo)
    ensures var jobs := [Job(7, CastJob(SampleInput(None)).value, 1, 0, 0)];
      var r := PutJobRouteAsWritten(jobs, 1, 7, SampleInput(Some(2)), isUrl, 5);
      && r.Handled? && r.step.reply.Sent? && r.step.store[0].employer == 2
      && PutJobRoute(jobs, 1, 7, SampleInput(Some(2)), isUrl, 5).step.store[0].employer == 1
  {
    var jobs := [Job(7, CastJob(SampleInput(None)).value, 1, 0, 0)];
    assert JobSchema.Accepts(SampleInput(Some(2)), isUrl);
    assert IndexOfOwned(jobs, 7, 1) == Some(0);
  }
}
