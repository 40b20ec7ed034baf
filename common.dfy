/** Small shared vocabulary: optional values, HTTP responses and the string
    primitives (`startsWith`, `endsWith`, `lastIndexOf`, `substring`) that the
    route handlers and filename helpers use. */
module Common {

  datatype Option<+T> = None | Some(value: T)

  /** The JSON answer of a route handler: the body on success (status 200),
      or the status and the `error` text of an error body. */
  datatype Response<+T> = Ok(body: T) | Fail(status: int, error: string)

  predicate StartsWith(s: string, prefix: string) {
    |prefix| <= |s| && s[..|prefix|] == prefix
  }

  predicate EndsWith(s: string, suffix: string) {
    |suffix| <= |s| && s[|s| - |suffix|..] == suffix
  }

  /** JavaScript truthiness of an optional string: present and not empty. */
  predicate Truthy(s: Option<string>) {
    s.Some? && s.value != ""
  }

  /** `s.lastIndexOf(c)`: the greatest index holding `c`, or -1 when there is none. */
  function LastIndexOf(s: string, c: char): (r: int)
    ensures -1 <= r < |s|
    ensures r >= 0 ==> s[r] == c
    ensures forall j :: r < j < |s| ==> s[j] != c
  {
    if |s| == 0 then -1
    else if s[|s| - 1] == c then |s| - 1
    else LastIndexOf(s[..|s| - 1], c)
  }

  /** JavaScript's `s.substring(start, end)`: both bounds are clamped to
      `[0, |s|]` and swapped when the first exceeds the second. */
  function Substring(s: string, start: int, end: int): (r: string)
    ensures |r| <= |s|
    ensures 0 <= start <= end <= |s| ==> r == s[start..end]
  {
    var a := Clamp(start, |s|);
    var b := Clamp(end, |s|);
    if a <= b then s[a..b] else s[b..a]
  }

  function Clamp(x: int, n: nat): (r: nat)
    ensures r <= n
  {
    if x < 0 then 0 else if x > n then n else x
  }

  function Min(a: int, b: int): int {
    if a <= b then a else b
  }
}
