/** The zod schemas of `src/validators/auth.schema.ts` as predicates over the
    request bodies, with zod's e-mail check as the oracle `isEmail`, and how
    they line up with the user model, the controller and the OTP codes. */
module AuthSchema {
  import opened Common
  import opened UserModel
  import opened AuthController
  import Otp

  /** The role enum as the schemas spell it. */
  const SchemaRoles: seq<string> := ["EMPLOYER", "USER", "ADMIN"]

  datatype VerifyEmailBody = VerifyEmailBody(email: Field, otp: Field)

  /** `z.string().min(n)`: present and at least `n` characters long. */
  predicate MinLength(f: Field, n: nat) {
    f.Some? && |f.value| >= n
  }

  /** `z.string().email()`: present and accepted by the e-mail pattern, which
      never matches the empty string. */
  predicate EmailCheck(f: Field, isEmail: string -> bool) {
    f.Some? && f.value != "" && isEmail(f.value)
  }

  /** `z.enum(["EMPLOYER", "USER", "ADMIN"])`. */
  predicate RoleCheck(f: Field) {
    f.Some? && f.value in SchemaRoles
  }

  /** `createUserSchema`. */
  predicate CreateUserAccepts(b: RegisterBody, isEmail: string -> bool) {
    MinLength(b.name, 2) && EmailCheck(b.email, isEmail) && MinLength(b.password, 6) && RoleCheck(b.role)
  }

  /** `updateUserSchema`: name, email and role only; a password is not looked at. */
  predicate UpdateUserAccepts(b: UpdateBody, isEmail: string -> bool) {
    MinLength(b.name, 2) && EmailCheck(b.email, isEmail) && RoleCheck(b.role)
  }

  /** `loginUserSchema`. */
  predicate LoginUserAccepts(b: LoginBody, isEmail: string -> bool) {
    EmailCheck(b.email, isEmail) && MinLength(b.password, 6)
  }

  /** `verifyEmailSchema`: the code must be exactly six characters. */
  predicate VerifyEmailAccepts(b: VerifyEmailBody, isEmail: string -> bool) {
    EmailCheck(b.email, isEmail) && b.otp.Some? && |b.otp.value| == Otp.CodeLength
  }

  /** The schemas' role enum and the user model's enum are the same set. */
  lemma SchemaRolesAreModelRoles(s: string)
    ensures s in SchemaRoles <==> ParseRole(s).Some?
    ensures s in SchemaRoles ==> RoleName(ParseRole(s).value) == s
  {
    assert SchemaRoles == RoleNames;
  }

  /** A body `createUserSchema` accepts passes the controller's field check and
      the model's validators: with a new email and a fresh id it registers. */
  lemma AcceptedRegistrationSucceeds(users: Users, b: RegisterBody, isEmail: string -> bool, newId: ObjectId)
    requires CreateUserAccepts(b, isEmail)
    requires IndexOfEmail(users, b.email.value).None? && IndexOfId(users, newId).None?
    ensures RegisterUser(users, b, newId).reply.Sent? && RegisterUser(users, b, newId).reply.status == 201
  {
    SchemaRolesAreModelRoles(b.role.value);
  }

  /** A body `loginUserSchema` accepts never gets the "All fields are required." reply. */
  lemma AcceptedLoginHasFields(users: Users, b: LoginBody, isEmail: string -> bool)
    requires LoginUserAccepts(b, isEmail)
    ensures LoginUser(users, b) != Sent(400, Message(MissingFields))
    ensures LoginUser(users, b).status in {200, 401}
  {
  }

  /** `updateUserSchema` does not depend on the password, and a body it accepts
      carries a role the model's enum validator accepts. */
  lemma UpdateSchemaIgnoresPassword(b: UpdateBody, p: Field, isEmail: string -> bool)
    ensures UpdateUserAccepts(b.(password := p), isEmail) == UpdateUserAccepts(b, isEmail)
    ensures UpdateUserAccepts(b, isEmail) ==> ParseRole(b.role.value).Some?
  {
    if UpdateUserAccepts(b, isEmail) {
      SchemaRolesAreModelRoles(b.role.value);
    }
  }

  /** Every code `generateOtp` draws passes `verifyEmailSchema`'s length check. */
  lemma GeneratedCodePassesVerifySchema(email: Field, r: nat, isEmail: string -> bool)
    requires r < Otp.Span && EmailCheck(email, isEmail)
    ensures VerifyEmailAccepts(VerifyEmailBody(email, Some(Otp.GenerateOtp(r))), isEmail)
  {
  }
}
