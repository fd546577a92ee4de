/** The domain errors and the messages they carry. */
module Errors {

  /** `Missing`: the key is not present; `Duplicate`: a unique name collides;
      `Invalid`: pydantic's ValidationError, carrying the name of the field
      whose bounds failed. */
  datatype Error = Missing(msg: string) | Duplicate(msg: string) | Invalid(msg: string)

  datatype Result<+T> = Ok(value: T) | Err(error: Error)

  /** Characters that Python's repr() of a str writes as an escape (the
      printable subset this model covers). */
  predicate Special(c: char) {
    c == '\\' || c == '\'' || c == '"' || c == '\n' || c == '\r' || c == '\t'
  }

  /** A string repr() shows verbatim between single quotes. */
  predicate Plain(s: string) {
    forall i :: 0 <= i < |s| ==> !Special(s[i])
  }

  /** How repr() writes one character when `q` is the enclosing quote. */
  function EscapeChar(c: char, q: char): (r: string)
    ensures |r| >= 1
    ensures !Special(c) ==> r == [c]
  {
    if c == '\\' then "\\\\"
    else if (c == '\'' || c == '"') && c == q then ['\\', q]
    else if c == '\n' then "\\n"
    else if c == '\r' then "\\r"
    else if c == '\t' then "\\t"
    else [c]
  }

  /** The body of repr(s) between its quotes. */
  function Escape(s: string, q: char): (r: string)
    ensures |r| >= |s|
    ensures Plain(s) ==> r == s
  {
    if s == [] then []
    else
      assert Plain(s) ==> Plain(s[1..]) && !Special(s[0]) by {
        if Plain(s) { forall i | 0 <= i < |s[1..]| ensures !Special(s[1..][i]) { assert s[1..][i] == s[i + 1]; } }
      }
      var r := EscapeChar(s[0], q) + Escape(s[1..], q);
      assert Plain(s) ==> r == [s[0]] + s[1..];
      r
  }

  /** Python's repr() of a str, as the `{x!r}` in the error messages uses it:
      double quotes when the string holds a single quote and no double quote,
      single quotes otherwise. */
  function Repr(s: string): (r: string)
    ensures |r| >= |s| + 2
    ensures r[0] == r[|r| - 1] && (r[0] == '\'' || r[0] == '"')
    ensures Plain(s) ==> r == "'" + s + "'"
  {
    var q := if '\'' in s && '"' !in s then '"' else '\'';
    [q] + Escape(s, q) + [q]
  }
}
