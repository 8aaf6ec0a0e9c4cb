/** The authorization gate of `src/middleware/auth.middleware.ts`. Token
    verification (`verifyToken` of `src/utils/jwt.ts`) is an oracle that maps a
    token string to the id it was signed for, or to nothing; it never throws.
 */
module AuthMiddleware {
  import opened Common
  import opened UserModel
  import AuthController

  const BearerPrefix := "Bearer "
  const NoToken := "Unauthorized: No token provided"
  const NoUser := "Unauthorized: User not found"

  /** The gate either answers 401 itself (and `next` is never called) or calls
      `next` once with the resolved user attached to the request. */
  datatype Gate = Reject(status: int, message: string) | Proceed(user: PublicUser)

  predicate StartsWith(s: string, prefix: string) {
    |prefix| <= |s| && s[..|prefix|] == prefix
  }

  /** Position of the first space in `s`. */
  function FirstSpace(s: string): (i: Option<nat>)
    ensures i.Some? ==> i.value < |s| && s[i.value] == ' ' && ' ' !in s[..i.value]
    ensures i.None? <==> ' ' !in s
  {
    if s == [] then None
    else if s[0] == ' ' then Some(0)
    else match FirstSpace(s[1..])
      case None => None
      case Some(k) =>
        assert s[..k + 1] == [s[0]] + s[1..][..k];
        Some(k + 1)
  }

  /** `String.prototype.split(" ")`. */
  function Split(s: string): (parts: seq<string>)
    ensures |parts| >= 1
    ensures forall k :: 0 <= k < |parts| ==> ' ' !in parts[k]
    decreases |s|
  {
    match FirstSpace(s)
    case None => [s]
    case Some(i) => [s[..i]] + Split(s[i + 1..])
  }

  /** `Array.prototype.join(" ")`. */
  function Join(parts: seq<string>): string
    requires |parts| >= 1
  {
    if |parts| == 1 then parts[0] else parts[0] + " " + Join(parts[1..])
  }

  /** Splitting on spaces loses nothing: joining the parts gives the header back. */
  lemma {:induction false} SplitJoin(s: string)
    ensures Join(Split(s)) == s
    decreases |s|
  {
    match FirstSpace(s)
    case None =>
    case Some(i) =>
      SplitJoin(s[i + 1..]);
      assert Split(s)[1..] == Split(s[i + 1..]);
      assert s == s[..i] + " " + s[i + 1..];
  }

  /** A segment without a space followed by a space starts the split. */
  lemma SplitAfterSpace(a: string, b: string)
    requires ' ' !in a
    ensures Split(a + " " + b) == [a] + Split(b)
  {
    var s := a + " " + b;
    assert s[..|a|] == a;
    assert s[|a|] == ' ';
    assert FirstSpace(s) == Some(|a|);
    assert s[|a| + 1..] == b;
  }

  /** `authHeader.split(" ")[1]`: a header that starts with "Bearer " always has a second segment. */
  function BearerToken(header: string): (token: string)
    requires StartsWith(header, BearerPrefix)
    ensures ' ' !in token
  {
    var rest := header[|BearerPrefix|..];
    assert header == "Bearer" + " " + rest;
    SplitAfterSpace("Bearer", rest);
    Split(header)[1]
  }

  /** The token is the text between the first and the second space: a header
      "Bearer " + t with no space in t yields t, and any trailing segments are ignored. */
  lemma BearerTokenIsSecondSegment(t: string, trailing: string)
    requires ' ' !in t
    ensures BearerToken(BearerPrefix + t) == t
    ensures BearerToken(BearerPrefix + t + " " + trailing) == t
  {
    assert BearerPrefix + t == "Bearer" + " " + t;
    SplitAfterSpace("Bearer", t);
    assert Split(t) == [t];
    assert BearerPrefix + t + " " + trailing == "Bearer" + " " + (t + " " + trailing);
    SplitAfterSpace("Bearer", t + " " + trailing);
    SplitAfterSpace(t, trailing);
  }

  /** `authMiddleware`: a missing header, or one not starting with "Bearer ", is
      401 "no token"; a token the oracle rejects, or whose id has no user, is 401
      "user not found"; otherwise the stored user, password removed, is attached. */
  function Authenticate(users: Users, header: Field, verify: string -> Option<ObjectId>): (g: Gate)
    ensures !(Truthy(header) && StartsWith(header.value, BearerPrefix)) ==> g == Reject(401, NoToken)
    ensures Truthy(header) && StartsWith(header.value, BearerPrefix) ==>
            var id := verify(BearerToken(header.value));
            (g.Proceed? <==> id.Some? && IndexOfId(users, id.value).Some?)
            && (g.Reject? ==> g == Reject(401, NoUser))
            && (g.Proceed? ==> g.user == Sanitize(users[IndexOfId(users, id.value).value]))
    ensures g.Proceed? ==> exists i :: 0 <= i < |users| && g.user == Sanitize(users[i])
  {
    if !Truthy(header) || !StartsWith(header.value, BearerPrefix) then Reject(401, NoToken)
    else
      match verify(BearerToken(header.value))
      case None => Reject(401, NoUser)
      case Some(id) =>
        match IndexOfId(users, id)
        case None => Reject(401, NoUser)
        case Some(i) => Proceed(Sanitize(users[i]))
  }

  /** Logging out revokes nothing: every header the gate accepted before
      logout it accepts afterwards, with the same user. */
  lemma LogoutKeepsTokensValid(users: Users, header: Field, verify: string -> Option<ObjectId>)
    ensures Authenticate(AuthController.LogoutUser(users).store, header, verify) == Authenticate(users, header, verify)
    ensures AuthController.LogoutUser(users).reply.Sent?
  {
  }

  /** A request whose token verifies to the id of a stored user passes the gate
      with that user, and the protected profile handler then never answers 404. */
  lemma GateThenProfile(users: Users, t: string, i: nat, verify: string -> Option<ObjectId>)
    requires Valid(users) && i < |users| && ' ' !in t
    requires verify(t) == Some(users[i].id)
    ensures Authenticate(users, Some(BearerPrefix + t), verify) == Proceed(Sanitize(users[i]))
    ensures AuthController.GetUserProfile(users, Sanitize(users[i]))
         == Sent(200, AuthController.Profile(Sanitize(users[i])))
  {
    BearerTokenIsSecondSegment(t, "");
    assert IndexOfId(users, users[i].id) == Some(i);
  }
}
