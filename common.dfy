/** Values shared by every handler: optional request fields, JavaScript
    truthiness, HTTP replies and the decimal rendering of numbers. */
module Common {

  datatype Option<+T> = None | Some(value: T)

  /** What a handler sends back: a status code with a JSON body, or a status
      code with the `{ error: ... }` message. */
  datatype Reply<+T> = Ok(status: int, body: T) | Err(status: int, error: string)

  /** `!x` is false for a request-body string field: present and not "". */
  predicate TruthyText(x: Option<string>)
  {
    x.Some? && x.value != ""
  }

  /** `!x` is false for a request-body number field: present and not 0. */
  predicate TruthyNumber(x: Option<int>)
  {
    x.Some? && x.value != 0
  }

  /** `x || null` on a string field. */
  function TextOrNull(x: Option<string>): (r: Option<string>)
    ensures r.Some? <==> TruthyText(x)
    ensures r.Some? ==> r == x
  {
    if TruthyText(x) then x else None
  }

  /** `x || null` on a number field. */
  function NumberOrNull(x: Option<int>): (r: Option<int>)
    ensures r.Some? <==> TruthyNumber(x)
    ensures r.Some? ==> r == x
  {
    if TruthyNumber(x) then x else None
  }

  /** `x || fallback` on a string field. */
  function TextOr(x: Option<string>, fallback: string): (r: string)
    ensures TruthyText(x) ==> r == x.value
    ensures !TruthyText(x) ==> r == fallback
  {
    if TruthyText(x) then x.value else fallback
  }

  // ---------------------------------------------------------------------
  // Decimal rendering, as JavaScript's template literals print an integer.

  function DigitChar(d: nat): (c: char)
    requires d < 10
  {
    ('0' as int + d) as char
  }

  function DigitValue(c: char): int
  {
    c as int - '0' as int
  }

  /** The decimal digits of `n`, most significant first, without leading zeros. */
  function Digits(n: nat): (s: string)
    ensures |s| >= 1
    ensures forall i :: 0 <= i < |s| ==> '0' <= s[i] <= '9'
  {
    if n < 10 then [DigitChar(n)] else Digits(n / 10) + [DigitChar(n % 10)]
  }

  /** `${n}` for an integer `n`. */
  function Decimal(n: int): (s: string)
    ensures |s| >= 1
  {
    if n < 0 then "-" + Digits(-n) else Digits(n)
  }

  /** Reads back a string of decimal digits. */
  function DigitsValue(s: string): int
  {
    if |s| == 0 then 0 else DigitsValue(s[..|s| - 1]) * 10 + DigitValue(s[|s| - 1])
  }

  /** Reads back an optionally signed decimal string. */
  function DecimalValue(s: string): int
  {
    if |s| > 0 && s[0] == '-' then -DigitsValue(s[1..]) else DigitsValue(s)
  }

  lemma {:induction false} DigitsRoundTrip(n: nat)
    ensures DigitsValue(Digits(n)) == n
  {
    if n >= 10 {
      var s := Digits(n);
      assert s[..|s| - 1] == Digits(n / 10);
      assert DigitValue(s[|s| - 1]) == n % 10;
      DigitsRoundTrip(n / 10);
      assert DigitsValue(s) == (n / 10) * 10 + n % 10;
    }
  }

  /** Decimal rendering is injective: reading the text back gives the number. */
  lemma DecimalRoundTrip(n: int)
    ensures DecimalValue(Decimal(n)) == n
  {
    if n < 0 {
      assert Decimal(n)[1..] == Digits(-n);
      DigitsRoundTrip(-n);
    } else {
      DigitsRoundTrip(n);
    }
  }

  /** `t` occurs in `s` as a contiguous piece. */
  predicate Contains(s: string, t: string)
  {
    exists i :: 0 <= i <= |s| && t <= s[i..]
  }
}
