/** The bearer-token middleware: header present, exactly two space-separated
    parts, scheme "Bearer" in any letter case, then token verification. The
    first check that fails decides the reply; verification itself is a
    parameter. */
module AuthMiddleware {

  import opened Common
  import opened Crypto

  /** What the middleware sets as `req.user`. */
  datatype Subject = Subject(id: Option<int>, role: Option<string>)

  /** The role test the admin gate and the product rules apply to `req.user.role`. */
  predicate IsAdminRole(role: Option<string>)
  {
    role == Some("admin")
  }

  /** Either `next()` with the subject, or an early reply. */
  datatype Gate = Pass(subject: Subject) | Deny(status: int, error: string)

  const MissingToken := "Access token is missing"
  const BadHeaderFormat := "Token error: Invalid authorization header format"
  const MalformattedToken := "Token error: Malformatted token"
  const InvalidToken := "Invalid or expired token"

  // ---------------------------------------------------------------------
  // String.prototype.split with a one-character separator

  /** `s.split(sep)`: the pieces between separators, empty pieces kept. */
  function Split(s: string, sep: char): (parts: seq<string>)
    ensures |parts| >= 1
    ensures forall i :: 0 <= i < |parts| ==> sep !in parts[i]
  {
    if |s| == 0 then [""]
    else
      var rest := Split(s[1..], sep);
      if s[0] == sep then [""] + rest else [[s[0]] + rest[0]] + rest[1..]
  }

  /** `parts.join(sep)`. */
  function Join(parts: seq<string>, sep: char): string
    requires |parts| >= 1
  {
    if |parts| == 1 then parts[0] else parts[0] + [sep] + Join(parts[1..], sep)
  }

  /** The number of occurrences of `c` in `s`. */
  function Count(s: string, c: char): nat
  {
    if |s| == 0 then 0 else (if s[0] == c then 1 else 0) + Count(s[1..], c)
  }

  /** Splitting loses nothing: joining the parts gives the header back. */
  lemma {:induction false} JoinSplit(s: string, sep: char)
    ensures Join(Split(s, sep), sep) == s
  {
    if |s| > 0 {
      var rest := Split(s[1..], sep);
      JoinSplit(s[1..], sep);
      if s[0] != sep && |rest| > 1 {
        assert Join(rest, sep) == rest[0] + [sep] + Join(rest[1..], sep);
        assert ([[s[0]] + rest[0]] + rest[1..])[1..] == rest[1..];
      }
    }
  }

  /** There is one part more than there are separators. */
  lemma {:induction false} SplitLength(s: string, sep: char)
    ensures |Split(s, sep)| == Count(s, sep) + 1
  {
    if |s| > 0 {
      SplitLength(s[1..], sep);
    }
  }

  /** The first part is the text before the first separator, and the other
      parts are those of the text after it. */
  lemma {:induction false} SplitFirst(s: string, sep: char)
    ensures var p := Split(s, sep);
      && |p[0]| <= |s| && p[0] == s[..|p[0]|]
      && (|p| == 1 ==> p[0] == s)
      && (|p| > 1 ==> |p[0]| < |s| && s[|p[0]|] == sep && p[1..] == Split(s[|p[0]| + 1..], sep))
  {
    if |s| > 0 {
      SplitFirst(s[1..], sep);
      var rest := Split(s[1..], sep);
      if s[0] != sep && |rest| > 1 {
        assert s[1..][|rest[0]| + 1..] == s[|rest[0]| + 2..];
      }
    }
  }

  // ---------------------------------------------------------------------
  // The scheme test /^Bearer$/i

  /** ASCII lower-casing. For the letters of "Bearer", a case-insensitive
      regular expression without the `u` flag matches exactly the ASCII
      upper and lower case letters. */
  function LowerAscii(c: char): char
  {
    if 'A' <= c <= 'Z' then (c as int + 32) as char else c
  }

  predicate IsBearerScheme(scheme: string)
  {
    |scheme| == 6 && forall i :: 0 <= i < 6 ==> LowerAscii(scheme[i]) == "bearer"[i]
  }

  // ---------------------------------------------------------------------
  // The middleware

  function Authenticate(header: Option<string>, verify: string -> Option<Decoded>): Gate
  {
    if !TruthyText(header) then Deny(401, MissingToken)
    else
      var parts := Split(header.value, ' ');
      if |parts| != 2 then Deny(401, BadHeaderFormat)
      else if !IsBearerScheme(parts[0]) then Deny(401, MalformattedToken)
      else match verify(parts[1])
        case None => Deny(403, InvalidToken)
        case Some(decoded) => Pass(Subject(decoded.userId, decoded.role))
  }

  /** The header shape the first three checks accept: six letters spelling
      "bearer" in any case, one space, and a token holding no space. */
  predicate BearerForm(h: string)
  {
    |h| >= 7 && IsBearerScheme(h[..6]) && h[6] == ' ' && ' ' !in h[7..]
  }

  lemma {:induction false} NoSeparatorCount(s: string, sep: char)
    requires sep !in s
    ensures Count(s, sep) == 0
  {
    if |s| > 0 {
      assert sep !in s[1..];
      NoSeparatorCount(s[1..], sep);
    }
  }

  /** Splitting a header with exactly one space gives the text before and the
      text after it. */
  lemma SplitInTwo(h: string, sep: char)
    requires Count(h, sep) == 1
    ensures var p := Split(h, sep);
      |p| == 2 && |p[0]| < |h| && h[|p[0]|] == sep && p[0] == h[..|p[0]|] && p[1] == h[|p[0]| + 1..]
  {
    SplitLength(h, sep);
    SplitFirst(h, sep);
    var p := Split(h, sep);
    var tail := h[|p[0]| + 1..];
    SplitFirst(tail, sep);
    SplitLength(tail, sep);
  }

  /** The middleware read off the header itself: which reply each header
      gets, in the order of the checks. A missing or empty header is 401; a
      header without exactly one space is 401; a header whose part before the
      space is not "Bearer" in some letter case is 401; a failed verification
      is 403, not 401; otherwise the subject is the verified payload's
      `userId` and `role`. */
  lemma AuthenticateCharacterized(header: Option<string>, verify: string -> Option<Decoded>)
    ensures !TruthyText(header) ==> Authenticate(header, verify) == Deny(401, MissingToken)
    ensures TruthyText(header) && Count(header.value, ' ') != 1 ==>
      Authenticate(header, verify) == Deny(401, BadHeaderFormat)
    ensures TruthyText(header) && Count(header.value, ' ') == 1 && !BearerForm(header.value) ==>
      Authenticate(header, verify) == Deny(401, MalformattedToken)
    ensures TruthyText(header) && BearerForm(header.value) ==>
      Authenticate(header, verify) ==
        match verify(header.value[7..])
        case None => Deny(403, InvalidToken)
        case Some(d) => Pass(Subject(d.userId, d.role))
  {
    if TruthyText(header) {
      var h := header.value;
      SplitLength(h, ' ');
      if Count(h, ' ') == 1 {
        SplitInTwo(h, ' ');
      }
      if BearerForm(h) {
        var rest := [' '] + h[7..];
        assert h == h[..6] + rest;
        assert ' ' !in h[..6] by {
          assert forall i :: 0 <= i < 6 ==> LowerAscii(h[..6][i]) == "bearer"[i];
        }
        CountSplitsAround(h[..6], rest, ' ');
        NoSeparatorCount(h[..6], ' ');
        NoSeparatorCount(h[7..], ' ');
        assert rest[0] == ' ' && rest[1..] == h[7..];
        assert Count(rest, ' ') == 1;
        SplitInTwo(h, ' ');
      }
    }
  }

  lemma {:induction false} CountSplitsAround(a: string, b: string, c: char)
    ensures Count(a + b, c) == Count(a, c) + Count(b, c)
  {
    if |a| > 0 {
      assert (a + b)[0] == a[0];
      assert (a + b)[1..] == a[1..] + b;
      CountSplitsAround(a[1..], b, c);
    } else {
      assert a + b == b;
    }
  }
}
