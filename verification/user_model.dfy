/** The `users` collection of `src/models/user.model.ts`: the record, the
    schema's validators (required fields, role enum, unique email), the pre-save
    hook that hashes a modified password, and `comparePassword`.

    bcrypt is replaced by an injective stand-in, `Hash`, that keeps bcrypt's
    "$2a$10$" prefix (cost factor 10) and is deterministic, so `bcrypt.compare(p, h)`
    becomes `h == Hash(p)`.
 */
module UserModel {
  import opened Common

  datatype Role = Employer | User | Admin

  /** The schema's role enum, in declaration order. */
  const RoleNames: seq<string> := ["EMPLOYER", "USER", "ADMIN"]

  function RoleName(r: Role): (s: string)
    ensures s in RoleNames
  {
    match r
    case Employer => "EMPLOYER"
    case User => "USER"
    case Admin => "ADMIN"
  }

  /** Mongoose's enum validator on `role`: only the three names are accepted. */
  function ParseRole(s: string): (r: Option<Role>)
    ensures r.Some? <==> s in RoleNames
    ensures r.Some? ==> RoleName(r.value) == s
  {
    if s == "EMPLOYER" then Some(Employer)
    else if s == "USER" then Some(User)
    else if s == "ADMIN" then Some(Admin)
    else None
  }

  lemma RoleRoundTrip(r: Role)
    ensures ParseRole(RoleName(r)) == Some(r)
  {
  }

  // ---------------------------------------------------------------------
  // Password hashing

  const HashPrefix: string := "$2a$10$"

  predicate IsHash(s: string) {
    |HashPrefix| <= |s| && s[..|HashPrefix|] == HashPrefix
  }

  /** `bcrypt.hash(plain, 10)`, as an injective function. */
  function Hash(plain: string): (digest: string)
    ensures IsHash(digest) && digest != plain
    ensures digest[|HashPrefix|..] == plain
  {
    HashPrefix + plain
  }

  lemma HashInjective(a: string, b: string)
    requires Hash(a) == Hash(b)
    ensures a == b
  {
    assert a == Hash(a)[|HashPrefix|..];
  }

  // ---------------------------------------------------------------------
  // Documents

  datatype UserDoc = UserDoc(id: ObjectId, name: string, email: string, password: string, isVerified: bool, role: Role)

  /** The `users` collection in natural order. */
  type Users = seq<UserDoc>

  /** A user as handed out: `select("-password")`. */
  datatype PublicUser = PublicUser(id: ObjectId, name: string, email: string, isVerified: bool, role: Role)

  function Sanitize(u: UserDoc): (p: PublicUser)
    ensures p.id == u.id && p.name == u.name && p.email == u.email
    ensures p.isVerified == u.isVerified && p.role == u.role
  {
    PublicUser(u.id, u.name, u.email, u.isVerified, u.role)
  }

  /** `comparePassword`: bcrypt.compare of the candidate against the stored hash. */
  predicate ComparePassword(u: UserDoc, candidate: string) {
    u.password == Hash(candidate)
  }

  /** Once the stored hash is that of `p`, `p` is the only password that matches. */
  lemma ComparePasswordExact(u: UserDoc, p: string, q: string)
    requires u.password == Hash(p)
    ensures ComparePassword(u, q) <==> q == p
  {
    if ComparePassword(u, q) {
      HashInjective(p, q);
    }
  }

  /** Why the pre-save hook checks `isModified("password")`: hashing the stored
      hash again on an unrelated save would lock the user out. */
  lemma RehashLocksOut(u: UserDoc, p: string)
    requires u.password == Hash(p)
    ensures !ComparePassword(u.(password := Hash(u.password)), p)
  {
    assert |Hash(Hash(p))| != |Hash(p)|;
  }

  /** Schema constraints on one stored user: the required strings are non-empty
      and the password holds a hash (role is one of the enum by its type). */
  predicate WellFormedUser(u: UserDoc) {
    u.name != "" && u.email != "" && IsHash(u.password)
  }

  /** The collection invariant: ids and emails are unique (the `_id` index and
      the `unique: true` index on email), and every user is well formed. */
  predicate Valid(users: Users) {
    && (forall i, j :: 0 <= i < j < |users| ==> users[i].id != users[j].id)
    && (forall i, j :: 0 <= i < j < |users| ==> users[i].email != users[j].email)
    && (forall i :: 0 <= i < |users| ==> WellFormedUser(users[i]))
  }

  /** Position of `findById(id)`. */
  function IndexOfId(users: Users, id: ObjectId): (i: Option<nat>)
    ensures i.Some? ==> i.value < |users| && users[i.value].id == id
    ensures i.Some? ==> forall j :: 0 <= j < i.value ==> users[j].id != id
    ensures i.None? ==> forall j :: 0 <= j < |users| ==> users[j].id != id
  {
    FirstIndex(users, (u: UserDoc) => u.id == id)
  }

  /** Position of `findOne({ email })`. */
  function IndexOfEmail(users: Users, email: string): (i: Option<nat>)
    ensures i.Some? ==> i.value < |users| && users[i.value].email == email
    ensures i.Some? ==> forall j :: 0 <= j < i.value ==> users[j].email != email
    ensures i.None? ==> forall j :: 0 <= j < |users| ==> users[j].email != email
  {
    FirstIndex(users, (u: UserDoc) => u.email == email)
  }

  // ---------------------------------------------------------------------
  // Saving

  /** Assignments made to a loaded document before `save()`: `None` leaves the
      path untouched. An assignment of `undefined` is written as `Some("")`,
      which the required validator rejects in the same way. */
  datatype Patch = Patch(name: Option<string>, email: Option<string>, password: Option<string>, role: Option<string>)

  /** Failures raised by `save()` / `create()`: a ValidationError naming the
      paths that failed, or the E11000 duplicate-key error of a unique index. */
  datatype DbError = ValidationFailed(paths: seq<string>) | DuplicateKey(path: string)

  /** The error handed to `next`: neither error carries a statusCode. */
  function DbErrorToAppError(e: DbError): (a: AppError)
    ensures a.statusCode.None?
  {
    match e
    case ValidationFailed(paths) => Raise(None, "users validation failed: " + JoinPaths(paths))
    case DuplicateKey(path) => Raise(None, "E11000 duplicate key error collection: users index: " + path + "_1")
  }

  /** Validators run on the assigned paths, in schema order. */
  function InvalidPaths(p: Patch): (bad: seq<string>)
    ensures bad == [] <==>
      && (p.name.Some? ==> p.name.value != "")
      && (p.email.Some? ==> p.email.value != "")
      && (p.password.Some? ==> p.password.value != "")
      && (p.role.Some? ==> ParseRole(p.role.value).Some?)
  {
    (if p.name.Some? && p.name.value == "" then ["name"] else [])
    + (if p.email.Some? && p.email.value == "" then ["email"] else [])
    + (if p.password.Some? && p.password.value == "" then ["password"] else [])
    + (if p.role.Some? && ParseRole(p.role.value).None? then ["role"] else [])
  }

  /** Would writing `email` for the user at `i` collide with another user's email? */
  predicate EmailTaken(users: Users, i: nat, email: string) {
    exists j :: 0 <= j < |users| && j != i && users[j].email == email
  }

  datatype Saved = Saved(users: Users, doc: UserDoc) | SaveFailed(error: DbError)

  /** `save()` of the document at `i` after the assignments `p`: validate, run the
      pre-save hook (hash the password only when it was assigned), then write;
      a new email that another user holds fails on the unique index. */
  function SaveUser(users: Users, i: nat, p: Patch): (r: Saved)
    requires i < |users|
    ensures r.Saved? <==> InvalidPaths(p) == [] && !(p.email.Some? && EmailTaken(users, i, p.email.value))
    ensures r.Saved? ==> |r.users| == |users| && r.users[i] == r.doc
    ensures r.Saved? ==> forall j :: 0 <= j < |users| && j != i ==> r.users[j] == users[j]
    ensures r.Saved? ==> r.doc.id == users[i].id && r.doc.isVerified == users[i].isVerified
    ensures r.Saved? ==> r.doc.name == (if p.name.Some? then p.name.value else users[i].name)
    ensures r.Saved? ==> r.doc.email == (if p.email.Some? then p.email.value else users[i].email)
    ensures r.Saved? ==> r.doc.role == (if p.role.Some? then ParseRole(p.role.value).value else users[i].role)
    ensures r.Saved? && p.password.None? ==> r.doc.password == users[i].password
    ensures r.Saved? && p.password.Some? ==> forall q :: ComparePassword(r.doc, q) <==> q == p.password.value
    ensures r.Saved? && Valid(users) ==> Valid(r.users)
  {
    var bad := InvalidPaths(p);
    if bad != [] then SaveFailed(ValidationFailed(bad))
    else if p.email.Some? && EmailTaken(users, i, p.email.value) then SaveFailed(DuplicateKey("email"))
    else
      var u := users[i];
      var doc := UserDoc(
        u.id,
        if p.name.Some? then p.name.value else u.name,
        if p.email.Some? then p.email.value else u.email,
        if p.password.Some? then Hash(p.password.value) else u.password,
        u.isVerified,
        if p.role.Some? then ParseRole(p.role.value).value else u.role);
      var users' := users[i := doc];
      assert p.password.Some? ==> forall q :: ComparePassword(doc, q) <==> q == p.password.value by {
        if p.password.Some? {
          forall q ensures ComparePassword(doc, q) <==> q == p.password.value {
            ComparePasswordExact(doc, p.password.value, q);
          }
        }
      }
      assert Valid(users) ==> Valid(users') by {
        if Valid(users) {
          forall a, b | 0 <= a < b < |users'| ensures users'[a].email != users'[b].email {
            if a == i || b == i {
              var other := if a == i then b else a;
              assert other != i;
              if p.email.None? {
                assert users'[other] == users[other];
              }
            }
          }
        }
      }
      Saved(users', doc)
  }

  /** `User.create(...)`: validate, hash the password, then insert; a reused id or
      email fails on its unique index. A new user starts unverified. */
  function CreateUser(users: Users, id: ObjectId, name: string, email: string, password: string, role: string): (r: Saved)
    ensures r.Saved? <==>
      && name != "" && email != "" && password != "" && ParseRole(role).Some?
      && IndexOfId(users, id).None? && IndexOfEmail(users, email).None?
    ensures r.Saved? ==> r.users == users + [r.doc]
    ensures r.Saved? ==> r.doc == UserDoc(id, name, email, Hash(password), false, ParseRole(role).value)
    ensures r.Saved? && Valid(users) ==> Valid(r.users)
  {
    var bad := InvalidPaths(Patch(Some(name), Some(email), Some(password), Some(role)));
    if bad != [] then SaveFailed(ValidationFailed(bad))
    else if IndexOfId(users, id).Some? then SaveFailed(DuplicateKey("_id"))
    else if IndexOfEmail(users, email).Some? then SaveFailed(DuplicateKey("email"))
    else
      var doc := UserDoc(id, name, email, Hash(password), false, ParseRole(role).value);
      Saved(users + [doc], doc)
  }

  /** `deleteOne` of the user at `i`. */
  function RemoveUser(users: Users, i: nat): (r: Users)
    requires i < |users|
    ensures r == RemoveAt(users, i)
    ensures Valid(users) ==> Valid(r) && forall j :: 0 <= j < |r| ==> r[j].id != users[i].id
  {
    RemoveAt(users, i)
  }
}
