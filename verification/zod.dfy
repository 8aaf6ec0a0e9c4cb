/** The part of zod's `safeParse` result the middleware reads: a list of issues,
    each with a path into the body and a message, in schema order. */
module Zod {

  datatype Issue = Issue(code: string, path: seq<string>, message: string)

  datatype ParseResult = Parsed | ParseFailed(issues: seq<Issue>)

  /** One check of a schema: no issue when it holds, one issue otherwise. */
  function Check(ok: bool, code: string, path: seq<string>, message: string): (issues: seq<Issue>)
    ensures issues == [] <==> ok
    ensures !ok ==> issues == [Issue(code, path, message)]
  {
    if ok then [] else [Issue(code, path, message)]
  }

  /** `z.string().min(n, message)`. */
  function MinLength(s: string, n: nat, path: seq<string>, message: string): (issues: seq<Issue>)
    ensures issues == [] <==> |s| >= n
  {
    Check(|s| >= n, "too_small", path, message)
  }

  /** `z.enum(allowed, { message })`. */
  function OneOf(s: string, allowed: seq<string>, path: seq<string>, message: string): (issues: seq<Issue>)
    ensures issues == [] <==> s in allowed
  {
    Check(s in allowed, "invalid_enum_value", path, message)
  }

  /** `safeParse` succeeds exactly when no check produced an issue. */
  function FromIssues(issues: seq<Issue>): (r: ParseResult)
    ensures r.Parsed? <==> issues == []
    ensures r.ParseFailed? ==> r.issues == issues
  {
    if issues == [] then Parsed else ParseFailed(issues)
  }
}
