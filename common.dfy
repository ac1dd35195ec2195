/**
 * Byte-level vocabulary shared by the relay server and the client:
 * bytes, text as UTF-8 bytes, optional values, Python truthiness of
 * strings, UTF-8 well-formedness and decimal rendering of integers.
 */
module Common {

  newtype byte = x: int | 0 <= x < 256

  /** The UTF-8 encoding of a Python `str`. Two strings are equal exactly
      when their encodings are, so ids, names, call ids and chat contents
      are all modelled by their bytes. */
  type Text = seq<byte>

  datatype Option<T> = None | Some(value: T)

  const NUL: byte := 0
  const UNDERSCORE: byte := 95

  /** `"None"`, what an f-string renders for a missing value. */
  const NONE_TEXT: Text := [78, 111, 110, 101]

  /** A Python string used as a condition: a missing value and the empty
      string are false, every other string is true. */
  predicate Truthy(o: Option<Text>)
  {
    o.Some? && o.value != []
  }

  /** `f"{x}"` for a value that is either a string or None. */
  function Render(o: Option<Text>): (r: Text)
    ensures o.Some? ==> r == o.value
    ensures o.None? ==> r == NONE_TEXT
  {
    match o
    case None => NONE_TEXT
    case Some(t) => t
  }

  // ---------------------------------------------------------------------
  // UTF-8 well-formedness (the byte sequences `bytes.decode('utf-8')`
  // accepts), following the grammar of section 4 of RFC 3629.
  // ---------------------------------------------------------------------

  predicate IsTail(b: byte)
  {
    0x80 <= b <= 0xBF
  }

  /** Length of the well-formed character that starts `s`, or 0 when `s`
      does not start with one. */
  function LeadLength(s: seq<byte>): (n: nat)
    requires s != []
    ensures n <= 4 && n <= |s|
    ensures s[0] < 0x80 ==> n == 1
  {
    var b := s[0];
    if b < 0x80 then 1
    else if 0xC2 <= b <= 0xDF then
      (if |s| >= 2 && IsTail(s[1]) then 2 else 0)
    else if b == 0xE0 then
      (if |s| >= 3 && 0xA0 <= s[1] <= 0xBF && IsTail(s[2]) then 3 else 0)
    else if (0xE1 <= b <= 0xEC) || (0xEE <= b <= 0xEF) then
      (if |s| >= 3 && IsTail(s[1]) && IsTail(s[2]) then 3 else 0)
    else if b == 0xED then
      (if |s| >= 3 && 0x80 <= s[1] <= 0x9F && IsTail(s[2]) then 3 else 0)
    else if b == 0xF0 then
      (if |s| >= 4 && 0x90 <= s[1] <= 0xBF && IsTail(s[2]) && IsTail(s[3]) then 4 else 0)
    else if 0xF1 <= b <= 0xF3 then
      (if |s| >= 4 && IsTail(s[1]) && IsTail(s[2]) && IsTail(s[3]) then 4 else 0)
    else if b == 0xF4 then
      (if |s| >= 4 && 0x80 <= s[1] <= 0x8F && IsTail(s[2]) && IsTail(s[3]) then 4 else 0)
    else 0
  }

  predicate Utf8Valid(s: seq<byte>)
    decreases |s|
  {
    s == [] || (LeadLength(s) > 0 && Utf8Valid(s[LeadLength(s)..]))
  }

  predicate IsAscii(s: seq<byte>)
  {
    forall i :: 0 <= i < |s| ==> s[i] < 0x80
  }

  /** Plain ASCII text always decodes. */
  lemma {:induction false} AsciiIsUtf8(s: seq<byte>)
    requires IsAscii(s)
    ensures Utf8Valid(s)
    decreases |s|
  {
    if s != [] {
      assert LeadLength(s) == 1;
      assert IsAscii(s[1..]) by {
        forall i | 0 <= i < |s[1..]| ensures s[1..][i] < 0x80 {
          assert s[1..][i] == s[i + 1];
        }
      }
      AsciiIsUtf8(s[1..]);
    }
  }

  // ---------------------------------------------------------------------
  // Decimal rendering of a non-negative integer, `str(n)`.
  // ---------------------------------------------------------------------

  predicate IsDigit(b: byte)
  {
    48 <= b <= 57
  }

  predicate AllDigits(s: seq<byte>)
  {
    forall i :: 0 <= i < |s| ==> IsDigit(s[i])
  }

  function DecimalText(n: nat): (r: Text)
    ensures r != [] && AllDigits(r)
    ensures |r| == 1 <==> n < 10
    decreases n
  {
    if n < 10 then [(48 + n) as byte]
    else DecimalText(n / 10) + [(48 + n % 10) as byte]
  }

  /** `int(s)` for a string of decimal digits. */
  function DecimalValue(s: seq<byte>): nat
    requires AllDigits(s)
    decreases |s|
  {
    if s == [] then 0
    else 10 * DecimalValue(s[..|s| - 1]) + (s[|s| - 1] - 48) as nat
  }

  lemma {:induction false} DecimalRoundTrip(n: nat)
    ensures DecimalValue(DecimalText(n)) == n
    decreases n
  {
    var r := DecimalText(n);
    if n >= 10 {
      assert r[..|r| - 1] == DecimalText(n / 10);
      DecimalRoundTrip(n / 10);
    }
  }

  /** Distinct seconds render to distinct texts. */
  lemma DecimalInjective(n: nat, m: nat)
    requires DecimalText(n) == DecimalText(m)
    ensures n == m
  {
    DecimalRoundTrip(n);
    DecimalRoundTrip(m);
  }
}
