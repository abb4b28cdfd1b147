/** Values shared by every service: optional values and failures, timestamps,
    the user record, and the JavaScript string tests the services rely on
    (truthiness of `||` chains and `String.prototype.trim`). */
module Base {

  datatype Option<+T> = None | Some(value: T)

  /** A call either returns a value or throws an `Error` with a message. */
  datatype Result<+T> = Ok(value: T) | Err(message: string)

  /** A JavaScript `Date`, as milliseconds since the epoch. */
  type Instant = int

  /** Prisma's auto-incremented integer user id. */
  type UserId = int

  const MinuteMs: int := 60000
  const HourMs: int := 3600000

  /** A row of the user table, as far as the services read it. */
  datatype User = User(id: UserId, email: string, name: Option<string>, password: Option<string>)

  /** `findUnique({ where: { id } })` on the user table: the first row with that id. */
  function FindUser(users: seq<User>, id: UserId): (r: Option<User>)
    ensures r.Some? <==> exists i :: 0 <= i < |users| && users[i].id == id
    ensures r.Some? ==> r.value in users && r.value.id == id
  {
    if users == [] then None
    else if users[0].id == id then Some(users[0])
    else FindUser(users[1..], id)
  }

  /** An optional string is truthy in JavaScript when it is present and not `''`. */
  predicate Truthy(s: Option<string>) {
    s.Some? && s.value != ""
  }

  /** JavaScript `s || fallback` for an optional string. */
  function OrElse(s: Option<string>, fallback: string): string {
    if Truthy(s) then s.value else fallback
  }

  /** The characters `String.prototype.trim` removes: WhiteSpace and
      LineTerminator of ECMAScript (section 12.2 and 12.3 of ECMA-262). */
  predicate IsJsWhitespace(c: char) {
    || c == '\t' || c == '\n' || c == '\U{B}' || c == '\U{C}' || c == '\r' || c == ' '
    || c == '\U{A0}' || c == '\U{1680}' || ('\U{2000}' <= c <= '\U{200A}')
    || c == '\U{2028}' || c == '\U{2029}' || c == '\U{202F}' || c == '\U{205F}'
    || c == '\U{3000}' || c == '\U{FEFF}'
  }

  function TrimStart(s: string): (r: string)
    ensures |r| <= |s|
    ensures r != [] ==> !IsJsWhitespace(r[0])
  {
    if s != [] && IsJsWhitespace(s[0]) then TrimStart(s[1..]) else s
  }

  function TrimEnd(s: string): (r: string)
    ensures |r| <= |s|
  {
    if s != [] && IsJsWhitespace(s[|s| - 1]) then TrimEnd(s[..|s| - 1]) else s
  }

  /** `String.prototype.trim`. */
  function Trim(s: string): string {
    TrimEnd(TrimStart(s))
  }

  predicate AllWhitespace(s: string) {
    forall i :: 0 <= i < |s| ==> IsJsWhitespace(s[i])
  }

  /** `s && s.trim()`: present, and something is left once trimmed. */
  predicate NonBlank(s: Option<string>) {
    s.Some? && Trim(s.value) != ""
  }

  lemma {:induction false} TrimStartEmptyIff(s: string)
    ensures TrimStart(s) == "" <==> AllWhitespace(s)
  {
    if s != [] && IsJsWhitespace(s[0]) {
      TrimStartEmptyIff(s[1..]);
      assert AllWhitespace(s) <==> AllWhitespace(s[1..]) by {
        if AllWhitespace(s[1..]) {
          forall i | 0 <= i < |s| ensures IsJsWhitespace(s[i]) {
            if i > 0 { assert s[i] == s[1..][i - 1]; }
          }
        }
      }
    }
  }

  lemma {:induction false} TrimEndOfNonEmpty(s: string)
    requires s != [] && !IsJsWhitespace(s[0])
    ensures TrimEnd(s) != ""
  {
    if IsJsWhitespace(s[|s| - 1]) {
      assert |s| > 1;
      TrimEndOfNonEmpty(s[..|s| - 1]);
    }
  }

  /** A string is blank for `trim` exactly when every character is white space. */
  lemma TrimEmptyIffAllWhitespace(s: string)
    ensures Trim(s) == "" <==> AllWhitespace(s)
  {
    TrimStartEmptyIff(s);
    var t := TrimStart(s);
    if t != "" {
      assert !IsJsWhitespace(t[0]);
      TrimEndOfNonEmpty(t);
    }
  }
}
