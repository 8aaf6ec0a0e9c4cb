/** The `jobs` collection: the record of `src/types/JobTypes.ts` with the enums
    and required paths of `src/models/job.model.ts`, and the casting and
    validation Mongoose applies when a job is created from request input.
 */
module JobModel {
  import opened Common

  datatype WorkplaceType = Remote | Hybrid | Onsite
  datatype EmploymentType = FullTime | PartTime | Contract | Internship | Freelance
  datatype Frequency = Monthly | Yearly

  const WorkplaceNames: seq<string> := ["REMOTE", "HYBRID", "ONSITE"]
  const EmploymentNames: seq<string> := ["FULL_TIME", "PART_TIME", "CONTRACT", "INTERNSHIP", "FREELANCE"]
  const FrequencyNames: seq<string> := ["MONTHLY", "YEARLY"]

  function WorkplaceName(w: WorkplaceType): (s: string)
    ensures s in WorkplaceNames
  {
    match w
    case Remote => "REMOTE"
    case Hybrid => "HYBRID"
    case Onsite => "ONSITE"
  }

  function ParseWorkplace(s: string): (w: Option<WorkplaceType>)
    ensures w.Some? <==> s in WorkplaceNames
    ensures w.Some? ==> WorkplaceName(w.value) == s
  {
    if s == "REMOTE" then Some(Remote)
    else if s == "HYBRID" then Some(Hybrid)
    else if s == "ONSITE" then Some(Onsite)
    else None
  }

  function EmploymentName(e: EmploymentType): (s: string)
    ensures s in EmploymentNames
  {
    match e
    case FullTime => "FULL_TIME"
    case PartTime => "PART_TIME"
    case Contract => "CONTRACT"
    case Internship => "INTERNSHIP"
    case Freelance => "FREELANCE"
  }

  function ParseEmployment(s: string): (e: Option<EmploymentType>)
    ensures e.Some? <==> s in EmploymentNames
    ensures e.Some? ==> EmploymentName(e.value) == s
  {
    if s == "FULL_TIME" then Some(FullTime)
    else if s == "PART_TIME" then Some(PartTime)
    else if s == "CONTRACT" then Some(Contract)
    else if s == "INTERNSHIP" then Some(Internship)
    else if s == "FREELANCE" then Some(Freelance)
    else None
  }

  function FrequencyName(f: Frequency): (s: string)
    ensures s in FrequencyNames
  {
    match f
    case Monthly => "MONTHLY"
    case Yearly => "YEARLY"
  }

  function ParseFrequency(s: string): (f: Option<Frequency>)
    ensures f.Some? <==> s in FrequencyNames
    ensures f.Some? ==> FrequencyName(f.value) == s
  {
    if s == "MONTHLY" then Some(Monthly)
    else if s == "YEARLY" then Some(Yearly)
    else None
  }

  /** Every enum value survives printing and re-reading. */
  lemma EnumRoundTrips(w: WorkplaceType, e: EmploymentType, f: Frequency)
    ensures ParseWorkplace(WorkplaceName(w)) == Some(w)
    ensures ParseEmployment(EmploymentName(e)) == Some(e)
    ensures ParseFrequency(FrequencyName(f)) == Some(f)
  {
  }

  datatype Salary = Salary(frequency: Frequency, amount: real)
  datatype Company = Company(name: string, logo: string, location: string)

  /** The fields a client supplies (IJob without `employer`), as stored. */
  datatype JobFields = JobFields(
    title: string,
    description: string,
    category: string,
    workplaceType: WorkplaceType,
    employmentType: EmploymentType,
    skills: seq<string>,
    salary: Salary,
    company: Company)

  /** A stored job: its id, its fields, its owner and the schema's timestamps. */
  datatype Job = Job(id: ObjectId, fields: JobFields, employer: ObjectId, createdAt: nat, updatedAt: nat)

  /** The `jobs` collection in natural order. */
  type Jobs = seq<Job>

  predicate UniqueIds(jobs: Jobs) {
    forall i, j :: 0 <= i < j < |jobs| ==> jobs[i].id != jobs[j].id
  }

  // ---------------------------------------------------------------------
  // Request input

  datatype SalaryInput = SalaryInput(frequency: string, amount: real)

  /** A job request body, already of the right JSON types. `employer` is a key
      outside the schema that a client may still send. */
  datatype JobInput = JobInput(
    title: string,
    description: string,
    category: string,
    workplaceType: string,
    employmentType: string,
    skills: seq<string>,
    salary: SalaryInput,
    company: Company,
    employer: Option<ObjectId>)

  /** The model's required and enum validators hold for a job built from `input`. */
  predicate MeetsModel(input: JobInput) {
    && input.title != "" && input.description != "" && input.category != ""
    && ParseWorkplace(input.workplaceType).Some?
    && ParseEmployment(input.employmentType).Some?
    && ParseFrequency(input.salary.frequency).Some?
    && input.company.name != "" && input.company.logo != "" && input.company.location != ""
  }

  /** The paths whose required or enum validator fails, in schema order. */
  function ModelViolations(input: JobInput): (bad: seq<string>)
    ensures bad == [] <==> MeetsModel(input)
  {
    var text := (if input.title == "" then ["title"] else [])
      + (if input.description == "" then ["description"] else [])
      + (if input.category == "" then ["category"] else []);
    var kinds := (if ParseWorkplace(input.workplaceType).None? then ["workplaceType"] else [])
      + (if ParseEmployment(input.employmentType).None? then ["employmentType"] else [])
      + (if ParseFrequency(input.salary.frequency).None? then ["salary.frequency"] else []);
    var company := (if input.company.name == "" then ["company.name"] else [])
      + (if input.company.logo == "" then ["company.logo"] else [])
      + (if input.company.location == "" then ["company.location"] else []);
    assert |text + kinds + company| == |text| + |kinds| + |company|;
    text + kinds + company
  }

  /** Casting `input` to the schema: either the failing paths or the stored
      fields, which then carry every input value unchanged. */
  function CastJob(input: JobInput): (r: Result<JobFields, seq<string>>)
    ensures r.Err? <==> !MeetsModel(input)
    ensures r.Err? ==> r.error == ModelViolations(input)
    ensures r.Ok? ==>
      && r.value.title == input.title && r.value.description == input.description
      && r.value.category == input.category && r.value.skills == input.skills
      && WorkplaceName(r.value.workplaceType) == input.workplaceType
      && EmploymentName(r.value.employmentType) == input.employmentType
      && FrequencyName(r.value.salary.frequency) == input.salary.frequency
      && r.value.salary.amount == input.salary.amount
      && r.value.company == input.company
  {
    var bad := ModelViolations(input);
    if bad != [] then Err(bad)
    else Ok(JobFields(
      input.title, input.description, input.category,
      ParseWorkplace(input.workplaceType).value,
      ParseEmployment(input.employmentType).value,
      input.skills,
      Salary(ParseFrequency(input.salary.frequency).value, input.salary.amount),
      input.company))
  }
}
