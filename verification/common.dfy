/** Shared vocabulary of the job-board backend model: optional values, document
    ids, request-body fields, thrown errors and what a request handler does with
    a request. Every MongoDB collection is modelled as a sequence of documents in
    natural (insertion) order, so `findOne` is "the first match".
 */
module Common {

  datatype Option<+T> = None | Some(value: T)

  datatype Result<+T, +E> = Ok(value: T) | Err(error: E)

  /** A MongoDB ObjectId; only its identity matters here. */
  type ObjectId = nat

  /** A string field of a JSON request body: absent (`undefined`) or present. */
  type Field = Option<string>

  /** JavaScript truthiness of a string field: present and not the empty string. */
  predicate Truthy(f: Field) {
    f.Some? && f.value != ""
  }

  /** The value a handler assigns by `if (x) doc.x = x`: only truthy fields are assigned. */
  function Assigned(f: Field): (a: Option<string>)
    ensures a.Some? <==> Truthy(f)
    ensures a.Some? ==> a.value == f.value
  {
    if Truthy(f) then Some(f.value) else None
  }

  /** An Error object raised inside a handler. Only ApiError sets `statusCode`;
      `stack` is the V8 trace, of which the model keeps the first line. */
  datatype AppError = AppError(statusCode: Option<int>, message: string, stack: Option<string>)

  /** `new Error(message)` (no status) or `new ApiError(status, message)`. */
  function Raise(statusCode: Option<int>, message: string): (e: AppError)
    ensures e.statusCode == statusCode && e.message == message && e.stack.Some?
  {
    AppError(statusCode, message, Some("Error: " + message))
  }

  /** What a handler does with one request: send a JSON response, or hand an
      error to `next` (the error middleware then answers). */
  datatype Reply<+B> = Sent(status: int, body: B) | Forward(error: AppError)

  /** A handler's reply together with the collection as it stands afterwards. */
  datatype Step<+S, +B> = Step(reply: Reply<B>, store: S)

  /** Position of the first element satisfying `p`: the document `findOne`,
      `findById` and `findOneAndDelete` select in a collection. */
  function FirstIndex<T>(s: seq<T>, p: T -> bool): (i: Option<nat>)
    ensures i.Some? ==> i.value < |s| && p(s[i.value])
    ensures i.Some? ==> forall j :: 0 <= j < i.value ==> !p(s[j])
    ensures i.None? ==> forall j :: 0 <= j < |s| ==> !p(s[j])
  {
    if s == [] then None
    else if p(s[0]) then Some(0)
    else match FirstIndex(s[1..], p)
      case None => None
      case Some(k) => Some(k + 1)
  }

  /** The failing paths as a Mongoose ValidationError lists them. */
  function JoinPaths(paths: seq<string>): string {
    if paths == [] then "" else if |paths| == 1 then paths[0] else paths[0] + ", " + JoinPaths(paths[1..])
  }

  /** Removal of the document at position `i`, as `deleteOne` does it. */
  function RemoveAt<T>(s: seq<T>, i: nat): (r: seq<T>)
    requires i < |s|
    ensures |r| == |s| - 1
    ensures forall j :: 0 <= j < i ==> r[j] == s[j]
    ensures forall j :: i <= j < |r| ==> r[j] == s[j + 1]
  {
    s[..i] + s[i + 1..]
  }
}
