/** The handlers of `src/controllers/auth.controller.ts` as step functions from
    (users, request) to (reply, users'). Handlers behind the authorization gate
    receive the gate's `PublicUser` (req.user). A token is the abstract signed
    value `Jwt(subject)` that `generateToken` returns.
 */
module AuthController {
  import opened Common
  import opened UserModel

  const MissingFields := "All fields are required."
  const UserExists := "User already exists."
  const InvalidCredentials := "Invalid credentials."
  const LoggedOut := "Logged out successfully."
  const UserNotFound := "User not found."
  const UserDeleted := "User deleted successfully."
  const RoleUpdated := "User role updated successfully."

  /** `generateToken(id)`: a signed token whose subject is the user id. */
  datatype Token = Jwt(subject: ObjectId)

  datatype RegisterBody = RegisterBody(name: Field, email: Field, password: Field, role: Field)
  datatype LoginBody = LoginBody(email: Field, password: Field)
  datatype ProfileBody = ProfileBody(name: Field, email: Field, password: Field)
  datatype UpdateBody = UpdateBody(name: Field, email: Field, password: Field, role: Field)

  /** JSON bodies the handlers send. None of them but `ProfileWithPassword`
      (the as-written update reply) has a password field. */
  datatype AuthBody =
    | Message(text: string)
    | Credentials(id: ObjectId, name: string, email: string, role: Role, token: Token)
    | Profile(user: PublicUser)
    | ProfileWithPassword(user: PublicUser, password: string)
    | UserList(users: seq<PublicUser>)
    | RoleOnly(role: Role)

  type AuthStep = Step<Users, AuthBody>

  function NotFound(users: Users): (s: AuthStep)
    ensures s.reply == Sent(404, Message(UserNotFound)) && s.store == users
  {
    Step(Sent(404, Message(UserNotFound)), users)
  }

  // ---------------------------------------------------------------------
  // registerUser / loginUser / logoutUser

  /** `registerUser`: all four fields truthy, email not yet taken, then create.
      `newId` is the ObjectId the driver assigns. */
  function RegisterUser(users: Users, body: RegisterBody, newId: ObjectId): (s: AuthStep)
    ensures !(Truthy(body.name) && Truthy(body.email) && Truthy(body.password) && Truthy(body.role))
            ==> s == Step(Sent(400, Message(MissingFields)), users)
    ensures Truthy(body.name) && Truthy(body.email) && Truthy(body.password) && Truthy(body.role)
            && IndexOfEmail(users, body.email.value).Some?
            ==> s == Step(Sent(400, Message(UserExists)), users)
    ensures s.reply.Sent? && s.reply.status == 201 <==>
            && Truthy(body.name) && Truthy(body.email) && Truthy(body.password) && Truthy(body.role)
            && IndexOfEmail(users, body.email.value).None?
            && ParseRole(body.role.value).Some? && IndexOfId(users, newId).None?
    ensures s.reply.Sent? && s.reply.status == 201 ==>
            var role := ParseRole(body.role.value).value;
            && s.reply.body == Credentials(newId, body.name.value, body.email.value, role, Jwt(newId))
            && s.store == users + [UserDoc(newId, body.name.value, body.email.value, Hash(body.password.value), false, role)]
    ensures !(s.reply.Sent? && s.reply.status == 201) ==> s.store == users
    ensures Truthy(body.name) && Truthy(body.email) && Truthy(body.password) && Truthy(body.role)
            && IndexOfEmail(users, body.email.value).None? && !(s.reply.Sent? && s.reply.status == 201)
            ==> s.reply.Forward? && s.reply.error.statusCode.None?
    ensures Valid(users) ==> Valid(s.store)
  {
    if !(Truthy(body.name) && Truthy(body.email) && Truthy(body.password) && Truthy(body.role)) then
      Step(Sent(400, Message(MissingFields)), users)
    else if IndexOfEmail(users, body.email.value).Some? then
      Step(Sent(400, Message(UserExists)), users)
    else
      match CreateUser(users, newId, body.name.value, body.email.value, body.password.value, body.role.value)
      case SaveFailed(e) => Step(Forward(DbErrorToAppError(e)), users)
      case Saved(users', u) => Step(Sent(201, Credentials(u.id, u.name, u.email, u.role, Jwt(u.id))), users')
  }

  /** `loginUser`. It only reads the collection, so it returns a reply alone. */
  function LoginUser(users: Users, body: LoginBody): (r: Reply<AuthBody>)
    ensures !(Truthy(body.email) && Truthy(body.password)) ==> r == Sent(400, Message(MissingFields))
    ensures Truthy(body.email) && Truthy(body.password) ==>
            (r.Sent? && r.status == 200 <==>
               IndexOfEmail(users, body.email.value).Some?
               && ComparePassword(users[IndexOfEmail(users, body.email.value).value], body.password.value))
    ensures Truthy(body.email) && Truthy(body.password) && !(r.Sent? && r.status == 200)
            ==> r == Sent(401, Message(InvalidCredentials))
    ensures r.Sent? && r.status == 200 ==>
            var u := users[IndexOfEmail(users, body.email.value).value];
            r.body == Credentials(u.id, u.name, u.email, u.role, Jwt(u.id))
  {
    if !(Truthy(body.email) && Truthy(body.password)) then Sent(400, Message(MissingFields))
    else match IndexOfEmail(users, body.email.value)
      case None => Sent(401, Message(InvalidCredentials))
      case Some(i) =>
        var u := users[i];
        if !ComparePassword(u, body.password.value) then Sent(401, Message(InvalidCredentials))
        else Sent(200, Credentials(u.id, u.name, u.email, u.role, Jwt(u.id)))
  }

  /** An unknown email and a wrong password for a known email get the very same
      reply, so the reply does not reveal whether an account exists. */
  lemma LoginFailuresLookAlike(users: Users, unknown: string, i: nat, wrong: string)
    requires i < |users| && Valid(users)
    requires unknown != "" && wrong != ""
    requires IndexOfEmail(users, unknown).None?
    requires !ComparePassword(users[i], wrong)
    ensures LoginUser(users, LoginBody(Some(unknown), Some(wrong)))
         == LoginUser(users, LoginBody(Some(users[i].email), Some(wrong)))
         == Sent(401, Message(InvalidCredentials))
  {
    assert users[i].email != "";
    var k := IndexOfEmail(users, users[i].email);
    assert k == Some(i);
  }

  /** Login never consults `isVerified`: flipping it changes no reply. */
  lemma LoginIgnoresVerification(users: Users, i: nat, flag: bool, body: LoginBody)
    requires i < |users|
    ensures LoginUser(users[i := users[i].(isVerified := flag)], body) == LoginUser(users, body)
  {
    var users' := users[i := users[i].(isVerified := flag)];
    if Truthy(body.email) {
      var e := body.email.value;
      assert forall j :: 0 <= j < |users| ==> users'[j].email == users[j].email;
      assert forall j :: 0 <= j < |users| ==> users'[j].password == users[j].password;
      assert IndexOfEmail(users', e) == IndexOfEmail(users, e);
    }
  }

  /** A freshly registered user can log in at once with the same email and
      password (verification is not required), and gets a token for the new id. */
  lemma RegisterThenLogin(users: Users, body: RegisterBody, newId: ObjectId)
    requires Valid(users)
    requires RegisterUser(users, body, newId).reply.Sent? && RegisterUser(users, body, newId).reply.status == 201
    ensures var users' := RegisterUser(users, body, newId).store;
      LoginUser(users', LoginBody(body.email, body.password)).Sent?
      && LoginUser(users', LoginBody(body.email, body.password)).status == 200
      && LoginUser(users', LoginBody(body.email, body.password)).body.token == Jwt(newId)
  {
    var users' := RegisterUser(users, body, newId).store;
    var e := body.email.value;
    var k := IndexOfEmail(users', e);
    assert users'[|users|].email == e;
    assert forall j :: 0 <= j < |users| ==> users'[j] == users[j];
    assert k == Some(|users|);
  }

  /** `logoutUser`: a fixed 200 reply; no collection is touched, no cookie is
      cleared and no token is revoked. */
  function LogoutUser(users: Users): (s: AuthStep)
    ensures s.reply.Sent? && s.reply.status == 200 && s.reply.body.Message?
    ensures s.store == users
  {
    Step(Sent(200, Message(LoggedOut)), users)
  }

  // ---------------------------------------------------------------------
  // Reads

  /** The 200 reply for a found user, password removed. */
  function ProfileOf(users: Users, i: Option<nat>): (r: Reply<AuthBody>)
    requires i.Some? ==> i.value < |users|
    ensures i.None? ==> r == Sent(404, Message(UserNotFound))
    ensures i.Some? ==> r == Sent(200, Profile(Sanitize(users[i.value])))
  {
    match i
    case None => Sent(404, Message(UserNotFound))
    case Some(k) => Sent(200, Profile(Sanitize(users[k])))
  }

  /** `getUserProfile`: the caller's own stored record, password removed. */
  function GetUserProfile(users: Users, me: PublicUser): (r: Reply<AuthBody>)
    ensures IndexOfId(users, me.id).None? <==> r == Sent(404, Message(UserNotFound))
    ensures IndexOfId(users, me.id).Some? ==> r == Sent(200, Profile(Sanitize(users[IndexOfId(users, me.id).value])))
    ensures r.Sent? && r.status == 200 ==>
            exists i :: 0 <= i < |users| && users[i].id == me.id && r.body == Profile(Sanitize(users[i]))
  {
    ProfileOf(users, IndexOfId(users, me.id))
  }

  /** `getUserById`. */
  function GetUserById(users: Users, id: ObjectId): (r: Reply<AuthBody>)
    ensures IndexOfId(users, id).None? <==> r == Sent(404, Message(UserNotFound))
    ensures IndexOfId(users, id).Some? ==> r == Sent(200, Profile(Sanitize(users[IndexOfId(users, id).value])))
    ensures r.Sent? && r.status == 200 ==>
            exists i :: 0 <= i < |users| && users[i].id == id && r.body == Profile(Sanitize(users[i]))
  {
    ProfileOf(users, IndexOfId(users, id))
  }

  /** `getUserByEmail`. */
  function GetUserByEmail(users: Users, email: string): (r: Reply<AuthBody>)
    ensures IndexOfEmail(users, email).None? <==> r == Sent(404, Message(UserNotFound))
    ensures IndexOfEmail(users, email).Some? ==> r == Sent(200, Profile(Sanitize(users[IndexOfEmail(users, email).value])))
    ensures r.Sent? && r.status == 200 ==>
            exists i :: 0 <= i < |users| && users[i].email == email && r.body == Profile(Sanitize(users[i]))
  {
    ProfileOf(users, IndexOfEmail(users, email))
  }

  /** `getAllUsers`: every stored user, in natural order, password removed. */
  function GetAllUsers(users: Users): (r: Reply<AuthBody>)
    ensures r.Sent? && r.status == 200 && r.body.UserList?
    ensures |r.body.users| == |users|
    ensures forall i :: 0 <= i < |users| ==> r.body.users[i] == Sanitize(users[i])
  {
    Sent(200, UserList(seq(|users|, i requires 0 <= i < |users| => Sanitize(users[i]))))
  }

  /** `getUserRole`. */
  function GetUserRole(users: Users, me: PublicUser): (r: Reply<AuthBody>)
    ensures IndexOfId(users, me.id).None? <==> r == Sent(404, Message(UserNotFound))
    ensures IndexOfId(users, me.id).Some? ==> r == Sent(200, RoleOnly(users[IndexOfId(users, me.id).value].role))
    ensures r.Sent? && r.status == 200 ==>
            exists i :: 0 <= i < |users| && users[i].id == me.id && r.body == RoleOnly(users[i].role)
  {
    match IndexOfId(users, me.id)
    case None => Sent(404, Message(UserNotFound))
    case Some(i) => Sent(200, RoleOnly(users[i].role))
  }

  // ---------------------------------------------------------------------
  // Updates

  /** The JSON of the saved document: the corrected handlers send it without
      the password. */
  function SavedReply(doc: UserDoc): (body: AuthBody)
    ensures body == Profile(Sanitize(doc))
  {
    Profile(Sanitize(doc))
  }

  /** The JSON of the saved document as the source sends it: the document was
      loaded without its password, but assigning one and saving puts the hash
      produced by the pre-save hook on it, and `res.json(user)` prints it. */
  function SavedReplyAsWritten(doc: UserDoc, p: Patch): (body: AuthBody)
    ensures p.password.Some? ==> body == ProfileWithPassword(Sanitize(doc), doc.password)
    ensures p.password.None? ==> body == Profile(Sanitize(doc))
  {
    if p.password.Some? then ProfileWithPassword(Sanitize(doc), doc.password) else Profile(Sanitize(doc))
  }

  /** Load the user at `i`, apply `p`, save, reply 200 with the saved user. */
  function UpdateAt(users: Users, i: Option<nat>, p: Patch): (s: AuthStep)
    requires i.Some? ==> i.value < |users|
    ensures i.None? ==> s == NotFound(users)
    ensures s.reply.Forward? ==> s.store == users
    ensures i.Some? && s.reply.Sent? ==> SaveUser(users, i.value, p).Saved?
    ensures i.Some? && s.reply.Sent? ==>
            s.store == SaveUser(users, i.value, p).users
            && s.reply == Sent(200, SavedReply(SaveUser(users, i.value, p).doc))
    ensures i.Some? && s.reply.Forward? ==> SaveUser(users, i.value, p).SaveFailed?
    ensures Valid(users) ==> Valid(s.store)
  {
    match i
    case None => NotFound(users)
    case Some(k) =>
      match SaveUser(users, k, p)
      case SaveFailed(e) => Step(Forward(DbErrorToAppError(e)), users)
      case Saved(users', doc) => Step(Sent(200, SavedReply(doc)), users')
  }

  /** `updateUserProfile`: only truthy name, email and password are assigned
      (never the role); every other field and every other user is unchanged; the
      stored hash changes only when a password is given, and then matches it. */
  function UpdateUserProfile(users: Users, me: PublicUser, body: ProfileBody): (s: AuthStep)
    ensures IndexOfId(users, me.id).None? ==> s == NotFound(users)
    ensures IndexOfId(users, me.id).Some? ==>
            (s.reply.Sent? <==> !(Truthy(body.email) && EmailTaken(users, IndexOfId(users, me.id).value, body.email.value)))
    ensures s.reply.Forward? ==> s.store == users
    ensures IndexOfId(users, me.id).Some? && s.reply.Sent? ==>
            var i := IndexOfId(users, me.id).value;
            var u := users[i];
            && |s.store| == |users|
            && (forall j :: 0 <= j < |users| && j != i ==> s.store[j] == users[j])
            && s.store[i] == u.(name := if Truthy(body.name) then body.name.value else u.name,
                                email := if Truthy(body.email) then body.email.value else u.email,
                                password := if Truthy(body.password) then Hash(body.password.value) else u.password)
            && s.reply == Sent(200, Profile(Sanitize(s.store[i])))
    ensures Valid(users) ==> Valid(s.store)
  {
    UpdateAt(users, IndexOfId(users, me.id), Patch(Assigned(body.name), Assigned(body.email), Assigned(body.password), None))
  }

  /** `updateUserProfile` as written: identical except that its 200 reply prints
      the new password hash whenever a password was given. */
  function UpdateUserProfileAsWritten(users: Users, me: PublicUser, body: ProfileBody): (s: AuthStep)
    ensures s.store == UpdateUserProfile(users, me, body).store
    ensures IndexOfId(users, me.id).None? ==> s == NotFound(users)
    ensures s.reply.Sent? <==> UpdateUserProfile(users, me, body).reply.Sent?
    ensures IndexOfId(users, me.id).Some? && s.reply.Sent? ==> s.reply.status == 200
    ensures s.reply.Forward? ==> s.reply == UpdateUserProfile(users, me, body).reply
    ensures s.reply.Sent? && s.reply.status == 200 && Truthy(body.password) ==>
            s.reply.body.ProfileWithPassword? && s.reply.body.password == Hash(body.password.value)
    ensures s.reply.Sent? && s.reply.status == 200 ==>
            && (s.reply.body.Profile? || s.reply.body.ProfileWithPassword?)
            && UpdateUserProfile(users, me, body).reply == Sent(200, Profile(s.reply.body.user))
    ensures !Truthy(body.password) ==> s == UpdateUserProfile(users, me, body)
  {
    var p := Patch(Assigned(body.name), Assigned(body.email), Assigned(body.password), None);
    match IndexOfId(users, me.id)
    case None => NotFound(users)
    case Some(k) =>
      match SaveUser(users, k, p)
      case SaveFailed(e) => Step(Forward(DbErrorToAppError(e)), users)
      case Saved(users', doc) => Step(Sent(200, SavedReplyAsWritten(doc, p)), users')
  }

  /** A concrete request on which the as-written profile update returns the
      stored hash, while the corrected handler does not. */
  lemma ProfileUpdateLeaksHash()
    ensures var ana := UserDoc(1, "Ana", "ana@x.com", Hash("secret1"), false, User);
      var body := ProfileBody(None, None, Some("secret2"));
      && UpdateUserProfileAsWritten([ana], Sanitize(ana), body).reply
         == Sent(200, ProfileWithPassword(Sanitize(ana), Hash("secret2")))
      && UpdateUserProfile([ana], Sanitize(ana), body).reply == Sent(200, Profile(Sanitize(ana)))
  {
    var ana := UserDoc(1, "Ana", "ana@x.com", Hash("secret1"), false, User);
    assert !EmailTaken([ana], 0, "ana@x.com");
  }

  /** `updateUserById`: like the profile update, and a truthy role is assigned too
      (a role outside the enum fails validation and is forwarded). */
  function UpdateUserById(users: Users, id: ObjectId, body: UpdateBody): (s: AuthStep)
    ensures IndexOfId(users, id).None? ==> s == NotFound(users)
    ensures IndexOfId(users, id).Some? ==>
            (s.reply.Sent? <==>
               && !(Truthy(body.email) && EmailTaken(users, IndexOfId(users, id).value, body.email.value))
               && !(Truthy(body.role) && ParseRole(body.role.value).None?))
    ensures s.reply.Forward? ==> s.store == users
    ensures Truthy(body.role) && ParseRole(body.role.value).None? ==> s.store == users && !(s.reply.Sent? && s.reply.status == 200)
    ensures IndexOfId(users, id).Some? && s.reply.Sent? ==> s.reply.status == 200
    ensures IndexOfId(users, id).Some? && s.reply.Sent? ==>
            var i := IndexOfId(users, id).value;
            var u := users[i];
            && |s.store| == |users|
            && (forall j :: 0 <= j < |users| && j != i ==> s.store[j] == users[j])
            && s.store[i] == u.(name := if Truthy(body.name) then body.name.value else u.name,
                                email := if Truthy(body.email) then body.email.value else u.email,
                                password := if Truthy(body.password) then Hash(body.password.value) else u.password,
                                role := if Truthy(body.role) then ParseRole(body.role.value).value else u.role)
            && s.reply == Sent(200, Profile(Sanitize(s.store[i])))
    ensures Valid(users) ==> Valid(s.store)
  {
    UpdateAt(users, IndexOfId(users, id), Patch(Assigned(body.name), Assigned(body.email), Assigned(body.password), Assigned(body.role)))
  }

  /** `updateUserByEmail`: the same update on the user `findOne({ email })` returns. */
  function UpdateUserByEmail(users: Users, email: string, body: UpdateBody): (s: AuthStep)
    ensures IndexOfEmail(users, email).None? ==> s == NotFound(users)
    ensures IndexOfEmail(users, email).Some? ==>
            (s.reply.Sent? <==>
               && !(Truthy(body.email) && EmailTaken(users, IndexOfEmail(users, email).value, body.email.value))
               && !(Truthy(body.role) && ParseRole(body.role.value).None?))
    ensures s.reply.Forward? ==> s.store == users
    ensures Truthy(body.role) && ParseRole(body.role.value).None? ==> s.store == users && !(s.reply.Sent? && s.reply.status == 200)
    ensures IndexOfEmail(users, email).Some? && s.reply.Sent? ==> s.reply.status == 200
    ensures IndexOfEmail(users, email).Some? && s.reply.Sent? ==>
            var i := IndexOfEmail(users, email).value;
            var u := users[i];
            && |s.store| == |users|
            && (forall j :: 0 <= j < |users| && j != i ==> s.store[j] == users[j])
            && s.store[i] == u.(name := if Truthy(body.name) then body.name.value else u.name,
                                email := if Truthy(body.email) then body.email.value else u.email,
                                password := if Truthy(body.password) then Hash(body.password.value) else u.password,
                                role := if Truthy(body.role) then ParseRole(body.role.value).value else u.role)
            && s.reply == Sent(200, Profile(Sanitize(s.store[i])))
    ensures Valid(users) ==> Valid(s.store)
  {
    UpdateAt(users, IndexOfEmail(users, email), Patch(Assigned(body.name), Assigned(body.email), Assigned(body.password), Assigned(body.role)))
  }

  /** `updateUserRole`: the role is assigned unconditionally, so a missing or
      empty role fails the required validator and one outside the enum fails
      the enum validator; both are forwarded and nothing is written. */
  function UpdateUserRole(users: Users, me: PublicUser, role: Field): (s: AuthStep)
    ensures IndexOfId(users, me.id).None? ==> s == NotFound(users)
    ensures IndexOfId(users, me.id).Some? ==>
            (s.reply == Sent(200, Message(RoleUpdated)) <==> role.Some? && ParseRole(role.value).Some?)
    ensures s.reply.Forward? ==> s.store == users
    ensures s.reply != Sent(200, Message(RoleUpdated)) ==> s.store == users
    ensures s.reply.Sent? ==> s.reply == Sent(200, Message(RoleUpdated)) || s.reply == Sent(404, Message(UserNotFound))
    ensures s.reply == Sent(200, Message(RoleUpdated)) ==>
            var i := IndexOfId(users, me.id).value;
            s.store == users[i := users[i].(role := ParseRole(role.value).value)]
    ensures Valid(users) ==> Valid(s.store)
  {
    var p := Patch(None, None, None, Some(if role.Some? then role.value else ""));
    match IndexOfId(users, me.id)
    case None => NotFound(users)
    case Some(k) =>
      match SaveUser(users, k, p)
      case SaveFailed(e) => Step(Forward(DbErrorToAppError(e)), users)
      case Saved(users', doc) =>
        assert users' == users[k := users[k].(role := ParseRole(role.value).value)];
        Step(Sent(200, Message(RoleUpdated)), users')
  }

  /** A successful role update is what the role read returns afterwards, and
      it changes neither the caller's profile apart from the role nor anyone else. */
  lemma RoleUpdateThenRead(users: Users, me: PublicUser, role: Field)
    requires UpdateUserRole(users, me, role).reply == Sent(200, Message(RoleUpdated))
    ensures role.Some? && ParseRole(role.value).Some?
    ensures var after := UpdateUserRole(users, me, role).store;
      && GetUserRole(after, me) == Sent(200, RoleOnly(ParseRole(role.value).value))
      && GetUserProfile(after, me).Sent? && GetUserProfile(after, me).body.user.role == ParseRole(role.value).value
  {
    var after := UpdateUserRole(users, me, role).store;
    var i := IndexOfId(users, me.id).value;
    assert |after| == |users|;
    assert forall j :: 0 <= j < |users| ==> after[j].id == users[j].id;
    assert IndexOfId(after, me.id) == Some(i);
  }

  /** A registration is visible to every reader: by email, by id, and as the
      last entry of the user list, unverified and without its password. */
  lemma RegisterThenRead(users: Users, body: RegisterBody, newId: ObjectId)
    requires Valid(users)
    requires RegisterUser(users, body, newId).reply.Sent? && RegisterUser(users, body, newId).reply.status == 201
    ensures var after := RegisterUser(users, body, newId).store;
      var shown := PublicUser(newId, body.name.value, body.email.value, false, ParseRole(body.role.value).value);
      && GetUserByEmail(after, body.email.value) == Sent(200, Profile(shown))
      && GetUserById(after, newId) == Sent(200, Profile(shown))
      && GetAllUsers(after).body.users == GetAllUsers(users).body.users + [shown]
  {
    var after := RegisterUser(users, body, newId).store;
    var n := |users|;
    assert after[n].email == body.email.value && after[n].id == newId;
    assert forall j :: 0 <= j < n ==> after[j] == users[j];
    assert IndexOfEmail(after, body.email.value) == Some(n);
    assert IndexOfId(after, newId) == Some(n);
  }

  // ---------------------------------------------------------------------
  // Deletes

  function DeleteAt(users: Users, i: Option<nat>): (s: AuthStep)
    requires i.Some? ==> i.value < |users|
    ensures i.None? ==> s == NotFound(users)
    ensures i.Some? ==> s == Step(Sent(200, Message(UserDeleted)), RemoveAt(users, i.value))
    ensures Valid(users) ==> Valid(s.store)
  {
    match i
    case None => NotFound(users)
    case Some(k) => Step(Sent(200, Message(UserDeleted)), RemoveUser(users, k))
  }

  /** `deleteUserProfile`: 404 and no change when the caller's record is gone;
      otherwise exactly that record is removed. */
  function DeleteUserProfile(users: Users, me: PublicUser): (s: AuthStep)
    ensures IndexOfId(users, me.id).None? ==> s == NotFound(users)
    ensures IndexOfId(users, me.id).Some? ==>
            && s.reply == Sent(200, Message(UserDeleted))
            && |s.store| == |users| - 1
            && s.store == RemoveAt(users, IndexOfId(users, me.id).value)
    ensures Valid(users) ==> Valid(s.store) && IndexOfId(s.store, me.id).None?
  {
    DeleteAt(users, IndexOfId(users, me.id))
  }

  /** `deleteUserById`: the same on the id from the path, for any caller (no role check). */
  function DeleteUserById(users: Users, id: ObjectId): (s: AuthStep)
    ensures IndexOfId(users, id).None? ==> s == NotFound(users)
    ensures IndexOfId(users, id).Some? ==>
            && s.reply == Sent(200, Message(UserDeleted))
            && |s.store| == |users| - 1
            && s.store == RemoveAt(users, IndexOfId(users, id).value)
    ensures Valid(users) ==> Valid(s.store) && IndexOfId(s.store, id).None?
  {
    DeleteAt(users, IndexOfId(users, id))
  }

  /** After a delete, reading, updating or deleting the same id again is a 404
      that changes nothing. */
  lemma DeleteThenNotFound(users: Users, id: ObjectId, body: UpdateBody)
    requires Valid(users)
    ensures var after := DeleteUserById(users, id).store;
      && GetUserById(after, id) == Sent(404, Message(UserNotFound))
      && UpdateUserById(after, id, body) == NotFound(after)
      && DeleteUserById(after, id) == NotFound(after)
  {
  }
}
