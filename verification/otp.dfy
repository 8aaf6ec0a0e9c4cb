/** The one-time-passcode flow of `src/utils/otp.ts` over the `otps` collection
    of `src/models/otp.model.ts`. Time is an explicit number of milliseconds,
    the random draw is a parameter, and sending the e-mail is an outcome that
    does not touch the collection.
 */
module Otp {
  import opened Common
  import ErrorMiddleware

  /** Lifetime of an issued code: ten minutes, in milliseconds. */
  const TtlMs: nat := 10 * 60 * 1000

  /** Codes are the integers Lowest .. Lowest + Span - 1, i.e. 100000 .. 999999. */
  const Lowest: nat := 100000
  const Span: nat := 900000

  /** Length demanded of a code by the e-mail verification schema. */
  const CodeLength: nat := 6

  datatype OtpRecord = OtpRecord(email: string, otp: string, expiresAt: nat)

  /** The `otps` collection in natural order; `email` is not a unique key. */
  type OtpStore = seq<OtpRecord>

  // ---------------------------------------------------------------------
  // Decimal rendering: Number.prototype.toString on a non-negative integer.

  function Pow10(k: nat): (p: nat)
    ensures p >= 1
  {
    if k == 0 then 1 else 10 * Pow10(k - 1)
  }

  function DigitChar(d: nat): (c: char)
    requires d < 10
    ensures '0' <= c <= '9'
  {
    ('0' as int + d) as char
  }

  function DigitValue(c: char): nat {
    if '0' <= c <= '9' then c as int - '0' as int else 0
  }

  predicate IsDigits(s: string) {
    forall i :: 0 <= i < |s| ==> '0' <= s[i] <= '9'
  }

  /** Decimal notation of `n`, most significant digit first. */
  function Decimal(n: nat): (s: string)
    ensures |s| >= 1 && IsDigits(s)
  {
    if n < 10 then [DigitChar(n)] else Decimal(n / 10) + [DigitChar(n % 10)]
  }

  /** The number a string of decimal digits denotes. */
  function ParseDecimal(s: string): nat {
    if s == [] then 0 else 10 * ParseDecimal(s[..|s| - 1]) + DigitValue(s[|s| - 1])
  }

  /** Reading the decimal notation of `n` gives back `n`. */
  lemma {:induction false} DecimalRoundTrip(n: nat)
    ensures ParseDecimal(Decimal(n)) == n
  {
    var s := Decimal(n);
    if n >= 10 {
      assert s[..|s| - 1] == Decimal(n / 10);
      DecimalRoundTrip(n / 10);
    }
  }

  /** A number with exactly `k` digits is written with `k` characters and no leading zero. */
  lemma {:induction false} DecimalWidth(n: nat, k: nat)
    requires 1 <= k && Pow10(k - 1) <= n < Pow10(k)
    ensures |Decimal(n)| == k && Decimal(n)[0] != '0'
  {
    if k > 1 {
      assert Pow10(k) == 10 * Pow10(k - 1);
      assert Pow10(k - 1) == 10 * Pow10(k - 2);
      assert n >= 10;
      DecimalWidth(n / 10, k - 1);
      assert Decimal(n) == Decimal(n / 10) + [DigitChar(n % 10)];
    }
  }

  // ---------------------------------------------------------------------
  // generateOtp

  /** `generateOtp`: `r` stands for floor(Math.random() * 900000), so the code is
      the decimal string of 100000 + r: six digits, no leading zero. */
  function GenerateOtp(r: nat): (code: string)
    requires r < Span
    ensures |code| == CodeLength && code[0] != '0' && IsDigits(code)
    ensures ParseDecimal(code) == Lowest + r
  {
    assert Pow10(5) == Lowest && Pow10(6) == Lowest + Span;
    DecimalWidth(Lowest + r, 6);
    DecimalRoundTrip(Lowest + r);
    Decimal(Lowest + r)
  }

  // ---------------------------------------------------------------------
  // The collection

  /** All records stored for `email`, in natural order. */
  function RecordsFor(store: OtpStore, email: string): seq<OtpRecord> {
    if store == [] then []
    else (if store[0].email == email then [store[0]] else []) + RecordsFor(store[1..], email)
  }

  function Count(store: OtpStore, email: string): nat {
    |RecordsFor(store, email)|
  }

  /** The invariant createAndSendOtp aims at: no email has two records. */
  ghost predicate UniquePerEmail(store: OtpStore) {
    forall e :: Count(store, e) <= 1
  }

  /** Position of the record `findOne({ email })` returns. */
  function FirstFor(store: OtpStore, email: string): (i: Option<nat>)
    ensures i.Some? ==> i.value < |store| && store[i.value].email == email
    ensures i.Some? ==> forall j :: 0 <= j < i.value ==> store[j].email != email
    ensures i.None? ==> forall j :: 0 <= j < |store| ==> store[j].email != email
  {
    FirstIndex(store, (r: OtpRecord) => r.email == email)
  }

  /** A record of `email` with none before it is the one `findOne` picks. */
  lemma FirstForAt(store: OtpStore, email: string, i: nat)
    requires i < |store| && store[i].email == email
    requires forall j :: 0 <= j < i ==> store[j].email != email
    ensures FirstFor(store, email) == Some(i)
  {
  }

  /** The record `findOne({ email })` returns. */
  function Current(store: OtpStore, email: string): (rec: Option<OtpRecord>)
    ensures rec.Some? ==> rec.value.email == email
  {
    match FirstFor(store, email)
    case None => None
    case Some(i) => Some(store[i])
  }

  /** `findOneAndDelete({ email })` and `deleteOne({ email })`: drop the first match. */
  function DeleteFirst(store: OtpStore, email: string): OtpStore {
    match FirstFor(store, email)
    case None => store
    case Some(i) => RemoveAt(store, i)
  }

  lemma {:induction false} RecordsForAppend(a: OtpStore, b: OtpStore, e: string)
    ensures RecordsFor(a + b, e) == RecordsFor(a, e) + RecordsFor(b, e)
  {
    if a == [] {
      assert a + b == b;
    } else {
      assert (a + b)[0] == a[0];
      assert (a + b)[1..] == a[1..] + b;
      RecordsForAppend(a[1..], b, e);
      var head := if a[0].email == e then [a[0]] else [];
      assert RecordsFor(a + b, e) == head + (RecordsFor(a[1..], e) + RecordsFor(b, e));
    }
  }

  lemma {:induction false} RecordsForNone(s: OtpStore, e: string)
    requires forall j :: 0 <= j < |s| ==> s[j].email != e
    ensures RecordsFor(s, e) == []
  {
    if s != [] {
      RecordsForNone(s[1..], e);
    }
  }

  lemma {:induction false} RecordsForEmpty(s: OtpStore, e: string)
    requires RecordsFor(s, e) == []
    ensures forall j :: 0 <= j < |s| ==> s[j].email != e
  {
    if s != [] {
      RecordsForEmpty(s[1..], e);
      assert forall j :: 1 <= j < |s| ==> s[j] == s[1..][j - 1];
    }
  }

  /** Splitting the records around position `i`. */
  lemma RecordsForAround(s: OtpStore, i: nat, e: string)
    requires i < |s|
    ensures RecordsFor(s, e)
         == RecordsFor(s[..i], e) + (if s[i].email == e then [s[i]] else []) + RecordsFor(s[i + 1..], e)
  {
    assert s == s[..i] + ([s[i]] + s[i + 1..]);
    RecordsForAppend(s[..i], [s[i]] + s[i + 1..], e);
    RecordsForAppend([s[i]], s[i + 1..], e);
    assert ([s[i]] + s[i + 1..])[1..] == s[i + 1..];
    assert [s[i]][1..] == [];
  }

  /** Deleting the first record of `email` removes exactly that record from its
      list and leaves the lists of all other emails alone. */
  lemma DeleteFirstEffect(s: OtpStore, email: string, other: string)
    ensures Count(DeleteFirst(s, email), email) == if Count(s, email) == 0 then 0 else Count(s, email) - 1
    ensures other != email ==> RecordsFor(DeleteFirst(s, email), other) == RecordsFor(s, other)
  {
    match FirstFor(s, email)
    case None =>
      RecordsForNone(s, email);
    case Some(i) =>
      var d := RemoveAt(s, i);
      assert d == s[..i] + s[i + 1..];
      RecordsForAround(s, i, email);
      RecordsForAround(s, i, other);
      RecordsForAppend(s[..i], s[i + 1..], email);
      RecordsForAppend(s[..i], s[i + 1..], other);
  }

  lemma CountZeroIffAbsent(s: OtpStore, email: string)
    ensures Count(s, email) == 0 <==> FirstFor(s, email).None?
  {
    match FirstFor(s, email)
    case None =>
      RecordsForNone(s, email);
    case Some(i) =>
      RecordsForAround(s, i, email);
  }

  // ---------------------------------------------------------------------
  // createAndSendOtp

  /** Result of `sendOtpEmail`: resolved, or rejected by the mail transport. */
  datatype Delivery = Delivered | SendFailed

  /** How `createAndSendOtp` ends: the mail was attempted with the given result,
      or `create` threw a validation error and no mail was attempted. */
  datatype Outcome = Attempted(delivery: Delivery) | CreateFailed(error: AppError)

  datatype Issued = Issued(store: OtpStore, code: string, outcome: Outcome)

  /** Paths of `otpSchema` whose `required` validator rejects the record: an
      empty string counts as missing. `expiresAt` is always a date here. */
  function RecordViolations(rec: OtpRecord): (paths: seq<string>)
    ensures paths == [] <==> rec.email != "" && rec.otp != ""
  {
    (if rec.email == "" then ["email"] else []) + (if rec.otp == "" then ["otp"] else [])
  }

  /** `createAndSendOtp`: draw a code, delete the email's first record, store the
      new record, and only then try to send it. `create` refuses an empty email,
      after the delete has already happened, and then nothing is sent. */
  function CreateAndSendOtp(store: OtpStore, email: string, r: nat, now: nat, delivery: Delivery): (res: Issued)
    requires r < Span
    ensures |res.code| == CodeLength && IsDigits(res.code) && ParseDecimal(res.code) == Lowest + r
    ensures res.outcome.CreateFailed? <==> email == ""
    ensures res.outcome.CreateFailed? ==>
      res.outcome.error == Raise(None, "otps validation failed: email")
      && Count(res.store, email) == (if Count(store, email) == 0 then 0 else Count(store, email) - 1)
    ensures res.outcome.Attempted? ==>
      && res.outcome.delivery == delivery
      && |res.store| > 0 && res.store[|res.store| - 1] == OtpRecord(email, res.code, now + TtlMs)
      && Count(res.store, email) == (if Count(store, email) == 0 then 1 else Count(store, email))
    ensures forall other :: other != email ==> RecordsFor(res.store, other) == RecordsFor(store, other)
  {
    var code := GenerateOtp(r);
    var record := OtpRecord(email, code, now + TtlMs);
    var kept := DeleteFirst(store, email);
    DeleteFirstEffect(store, email, email);
    assert forall other :: other != email ==> RecordsFor(kept, other) == RecordsFor(store, other) by {
      forall other | other != email
        ensures RecordsFor(kept, other) == RecordsFor(store, other)
      {
        DeleteFirstEffect(store, email, other);
      }
    }
    var paths := RecordViolations(record);
    if paths != [] then
      Issued(kept, code, CreateFailed(Raise(None, "otps validation failed: " + JoinPaths(paths))))
    else
      var stored := kept + [record];
      assert Count(stored, email) == if Count(store, email) == 0 then 1 else Count(store, email) by {
        RecordsForAppend(kept, [record], email);
      }
      assert forall other :: other != email ==> RecordsFor(stored, other) == RecordsFor(store, other) by {
        forall other | other != email
          ensures RecordsFor(stored, other) == RecordsFor(store, other)
        {
          RecordsForAppend(kept, [record], other);
        }
      }
      Issued(stored, code, Attempted(delivery))
  }

  /** The mail is sent after the record is written, so whether it went out
      changes neither the collection nor the code. */
  lemma StoreIgnoresDelivery(store: OtpStore, email: string, r: nat, now: nat)
    requires r < Span
    ensures CreateAndSendOtp(store, email, r, now, Delivered).store == CreateAndSendOtp(store, email, r, now, SendFailed).store
    ensures CreateAndSendOtp(store, email, r, now, Delivered).code == CreateAndSendOtp(store, email, r, now, SendFailed).code
  {
  }

  /** From a collection with at most one record per email, issuing keeps that
      invariant and leaves exactly one record for the email, the new one; for
      the empty email, which `create` refuses, it leaves none. */
  lemma IssueKeepsOneRecord(store: OtpStore, email: string, r: nat, now: nat, delivery: Delivery)
    requires r < Span && UniquePerEmail(store)
    ensures var res := CreateAndSendOtp(store, email, r, now, delivery);
      && UniquePerEmail(res.store)
      && (email != "" ==> Count(res.store, email) == 1
                          && Current(res.store, email) == Some(OtpRecord(email, res.code, now + TtlMs)))
      && (email == "" ==> Count(res.store, email) == 0 && Current(res.store, email).None?)
  {
    var res := CreateAndSendOtp(store, email, r, now, delivery);
    var s := res.store;
    assert Count(store, email) <= 1;
    if email == "" {
      CountZeroIffAbsent(s, email);
    } else {
      var last := |s| - 1;
      RecordsForAround(s, last, email);
      assert s[last + 1..] == [];
      assert RecordsFor(s[last + 1..], email) == [];
      assert RecordsFor(s[..last], email) == [];
      RecordsForEmpty(s[..last], email);
      assert forall j :: 0 <= j < last ==> s[..last][j] == s[j];
      FirstForAt(s, email, last);
    }
    forall e ensures Count(s, e) <= 1 {
      if e != email {
        assert RecordsFor(s, e) == RecordsFor(store, e);
        assert Count(store, e) <= 1;
      }
    }
  }

  // ---------------------------------------------------------------------
  // verifyOtp

  datatype OtpError = NotFound | Mismatch | Expired

  function ErrorMessage(e: OtpError): string {
    match e
    case NotFound => "OTP not found or expired"
    case Mismatch => "Invalid OTP"
    case Expired => "OTP expired"
  }

  datatype Verification = Accepted(store: OtpStore) | Rejected(error: OtpError)

  /** What `verifyOtp` throws: nothing on acceptance, otherwise `new Error(message)`,
      a plain Error with no status. */
  function Thrown(v: Verification): (err: Option<AppError>)
    ensures err.Some? <==> v.Rejected?
    ensures err.Some? ==> err.value.statusCode.None? && err.value.message != ""
    ensures err.Some? ==> err.value.message == ErrorMessage(v.error)
  {
    match v
    case Accepted(_) => None
    case Rejected(e) => Some(Raise(None, ErrorMessage(e)))
  }

  /** `verifyOtp`: look up the email's record, then reject in the fixed order
      not-found, mismatch, expired; on success consume the record. Expiry is
      strict: a record is still good at `now == expiresAt`. A rejection throws
      and so never writes to the collection. */
  function VerifyOtp(store: OtpStore, email: string, input: string, now: nat): (v: Verification)
    ensures v == Rejected(NotFound) <==> Current(store, email).None?
    ensures v == Rejected(Mismatch) <==> Current(store, email).Some? && Current(store, email).value.otp != input
    ensures v == Rejected(Expired)
        <==> Current(store, email).Some? && Current(store, email).value.otp == input
             && Current(store, email).value.expiresAt < now
    ensures v.Accepted?
        <==> Current(store, email).Some? && Current(store, email).value.otp == input
             && now <= Current(store, email).value.expiresAt
    ensures v.Accepted? ==> Count(v.store, email) == Count(store, email) - 1
    ensures v.Accepted? ==> forall other :: other != email ==> RecordsFor(v.store, other) == RecordsFor(store, other)
  {
    match Current(store, email)
    case None => Rejected(NotFound)
    case Some(rec) =>
      if rec.otp != input then Rejected(Mismatch)
      else if rec.expiresAt < now then Rejected(Expired)
      else
        assert Count(DeleteFirst(store, email), email) == Count(store, email) - 1 by {
          DeleteFirstEffect(store, email, email);
          CountZeroIffAbsent(store, email);
        }
        assert forall other :: other != email ==> RecordsFor(DeleteFirst(store, email), other) == RecordsFor(store, other) by {
          forall other | other != email
            ensures RecordsFor(DeleteFirst(store, email), other) == RecordsFor(store, other)
          {
            DeleteFirstEffect(store, email, other);
          }
        }
        Accepted(DeleteFirst(store, email))
  }

  /** A code is single-use: after a successful verification, repeating it with
      the same code finds no record, and the invariant still holds. */
  lemma VerifyIsSingleUse(store: OtpStore, email: string, input: string, now: nat, later: nat)
    requires UniquePerEmail(store)
    requires VerifyOtp(store, email, input, now).Accepted?
    ensures var after := VerifyOtp(store, email, input, now).store;
      VerifyOtp(after, email, input, later) == Rejected(NotFound) && UniquePerEmail(after)
  {
    var after := VerifyOtp(store, email, input, now).store;
    assert Count(store, email) <= 1;
    CountZeroIffAbsent(store, email);
    assert Count(after, email) == 0;
    CountZeroIffAbsent(after, email);
    forall e ensures Count(after, e) <= 1 {
      if e != email {
        assert RecordsFor(after, e) == RecordsFor(store, e);
        assert Count(store, e) <= 1;
      }
    }
  }

  /** End to end: right after issuing a code at time `t0`, verifying at `t1`
      succeeds exactly when the email is non-empty, the code matches and
      `t1 <= t0 + 10 minutes`; a wrong code is rejected as a mismatch whatever
      the time; for the empty email nothing was stored and the answer is
      not-found. */
  lemma IssueThenVerify(store: OtpStore, email: string, r: nat, t0: nat, delivery: Delivery, input: string, t1: nat)
    requires r < Span && UniquePerEmail(store)
    ensures var issued := CreateAndSendOtp(store, email, r, t0, delivery);
      && (VerifyOtp(issued.store, email, input, t1).Accepted? <==>
            email != "" && input == issued.code && t1 <= t0 + TtlMs)
      && (email != "" && input != issued.code ==> VerifyOtp(issued.store, email, input, t1) == Rejected(Mismatch))
      && (email != "" && input == issued.code && t1 > t0 + TtlMs ==>
            VerifyOtp(issued.store, email, input, t1) == Rejected(Expired))
      && (email == "" ==> VerifyOtp(issued.store, email, input, t1) == Rejected(NotFound))
  {
    IssueKeepsOneRecord(store, email, r, t0, delivery);
  }

  /** Whichever check of `verifyOtp` fails, the thrown error reaches the client
      through the error middleware as a 500 carrying that check's message. */
  lemma RejectionIs500(store: OtpStore, email: string, input: string, now: nat, nodeEnv: Option<string>, t: nat)
    requires VerifyOtp(store, email, input, now).Rejected?
    ensures var e := VerifyOtp(store, email, input, now).error;
      var resp := ErrorMiddleware.HandleError(Thrown(VerifyOtp(store, email, input, now)).value, nodeEnv, t);
      && resp.status == 500
      && resp.body.message == ErrorMessage(e)
      && (e == NotFound <==> resp.body.message == "OTP not found or expired")
      && (e == Mismatch <==> resp.body.message == "Invalid OTP")
      && (e == Expired <==> resp.body.message == "OTP expired")
  {
  }
}
