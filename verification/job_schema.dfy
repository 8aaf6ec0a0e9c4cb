/** `createJobSchema` of `src/validators/job.schema.ts`, as a predicate and as
    the issue list `safeParse` reports. zod's URL check is the oracle `isUrl`. */
module JobSchema {
  import opened Common
  import opened Zod
  import opened JobModel

  /** The enum lists as the schema spells them (separately from the model). */
  const SchemaWorkplaceTypes: seq<string> := ["REMOTE", "HYBRID", "ONSITE"]
  const SchemaEmploymentTypes: seq<string> := ["FULL_TIME", "PART_TIME", "CONTRACT", "INTERNSHIP", "FREELANCE"]
  const SchemaFrequencies: seq<string> := ["MONTHLY", "YEARLY"]

  /** zod's `.url()`: `new URL(s)` must parse, which never holds for the empty
      string (a URL needs a scheme); beyond that the oracle `isUrl` decides. */
  predicate UrlCheck(s: string, isUrl: string -> bool) {
    s != "" && isUrl(s)
  }

  /** What the schema accepts, field by field. */
  predicate Accepts(input: JobInput, isUrl: string -> bool) {
    && |input.title| >= 3
    && |input.description| >= 10
    && |input.category| >= 3
    && input.workplaceType in SchemaWorkplaceTypes
    && input.employmentType in SchemaEmploymentTypes
    && |input.skills| >= 1
    && input.salary.frequency in SchemaFrequencies
    && input.salary.amount > 0.0
    && |input.company.name| >= 2
    && UrlCheck(input.company.logo, isUrl)
    && |input.company.location| >= 2
  }

  predicate TextOk(input: JobInput) {
    |input.title| >= 3 && |input.description| >= 10 && |input.category| >= 3
  }

  predicate KindOk(input: JobInput) {
    input.workplaceType in SchemaWorkplaceTypes && input.employmentType in SchemaEmploymentTypes
  }

  predicate SalaryOk(input: JobInput) {
    input.salary.frequency in SchemaFrequencies && input.salary.amount > 0.0
  }

  predicate CompanyOk(input: JobInput, isUrl: string -> bool) {
    |input.company.name| >= 2 && UrlCheck(input.company.logo, isUrl) && |input.company.location| >= 2
  }

  function TextIssues(input: JobInput): (issues: seq<Issue>)
    ensures issues == [] <==> TextOk(input)
  {
    var a := MinLength(input.title, 3, ["title"], "Title must be at least 3 characters long");
    var b := MinLength(input.description, 10, ["description"], "Description must be at least 10 characters long");
    var c := MinLength(input.category, 3, ["category"], "Category must be at least 3 characters long");
    assert |a + b + c| == |a| + |b| + |c|;
    a + b + c
  }

  function KindIssues(input: JobInput): (issues: seq<Issue>)
    ensures issues == [] <==> KindOk(input)
  {
    var a := OneOf(input.workplaceType, SchemaWorkplaceTypes, ["workplaceType"],
                   "Workplace type must be one of: REMOTE, HYBRID, ONSITE");
    var b := OneOf(input.employmentType, SchemaEmploymentTypes, ["employmentType"],
                   "Employment type must be one of: FULL_TIME, PART_TIME, CONTRACT, INTERNSHIP, FREELANCE");
    assert |a + b| == |a| + |b|;
    a + b
  }

  function SalaryIssues(input: JobInput): (issues: seq<Issue>)
    ensures issues == [] <==> SalaryOk(input)
  {
    var a := OneOf(input.salary.frequency, SchemaFrequencies, ["salary", "frequency"],
                   "Salary frequency must be either MONTHLY or YEARLY");
    var b := Check(input.salary.amount > 0.0, "too_small", ["salary", "amount"], "Salary amount must be a positive number");
    assert |a + b| == |a| + |b|;
    a + b
  }

  function CompanyIssues(input: JobInput, isUrl: string -> bool): (issues: seq<Issue>)
    ensures issues == [] <==> CompanyOk(input, isUrl)
  {
    var a := MinLength(input.company.name, 2, ["company", "name"], "Company name must be at least 2 characters long");
    var b := Check(UrlCheck(input.company.logo, isUrl), "invalid_string", ["company", "logo"], "Company logo must be a valid URL");
    var c := MinLength(input.company.location, 2, ["company", "location"], "Company location must be at least 2 characters long");
    assert |a + b + c| == |a| + |b| + |c|;
    a + b + c
  }

  /** The issues `createJobSchema.safeParse` reports, one per failed field, in
      the order the schema declares the fields. */
  function Issues(input: JobInput, isUrl: string -> bool): (issues: seq<Issue>)
    ensures issues == [] <==> Accepts(input, isUrl)
  {
    var t := TextIssues(input);
    var k := KindIssues(input);
    var sk := Check(|input.skills| >= 1, "too_small", ["skills"], "At least one skill is required");
    var sa := SalaryIssues(input);
    var co := CompanyIssues(input, isUrl);
    assert |t + k + sk + sa + co| == |t| + |k| + |sk| + |sa| + |co|;
    t + k + sk + sa + co
  }

  function SafeParse(input: JobInput, isUrl: string -> bool): (r: ParseResult)
    ensures r.Parsed? <==> Accepts(input, isUrl)
  {
    FromIssues(Issues(input, isUrl))
  }

  /** A title that is too short is reported first, with the schema's message,
      even when other fields fail too. */
  lemma ShortTitleReportedFirst(input: JobInput, isUrl: string -> bool)
    requires |input.title| < 3
    ensures Issues(input, isUrl)[0] == Issue("too_small", ["title"], "Title must be at least 3 characters long")
  {
    assert TextIssues(input)[0] == Issue("too_small", ["title"], "Title must be at least 3 characters long");
  }

  /** Every input the schema accepts also passes the job model's enum and
      required validators, so creating a job from it cannot fail validation. */
  lemma AcceptedInputFitsModel(input: JobInput, isUrl: string -> bool)
    requires Accepts(input, isUrl)
    ensures MeetsModel(input)
    ensures CastJob(input).Ok?
  {
    assert SchemaWorkplaceTypes == WorkplaceNames;
    assert SchemaEmploymentTypes == EmploymentNames;
    assert SchemaFrequencies == FrequencyNames;
    assert input.title != "" && input.description != "" && input.category != "";
    assert input.company.name != "" && input.company.location != "";
  }

  /** `createJobSchema` has no `employer` key and the validation middleware
      passes the original body on, so an `employer` key neither fails nor
      changes the parse. */
  lemma EmployerKeyIgnored(input: JobInput, isUrl: string -> bool, other: Option<ObjectId>)
    ensures SafeParse(input.(employer := other), isUrl) == SafeParse(input, isUrl)
  {
    assert Issues(input.(employer := other), isUrl) == Issues(input, isUrl);
  }
}
