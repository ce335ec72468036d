/** Byte-string helpers with the meaning they have in the C locale. */
module Text {

  function LowerChar(c: char): char {
    if 'A' <= c <= 'Z' then (c as int + 32) as char else c
  }

  function UpperChar(c: char): char {
    if 'a' <= c <= 'z' then (c as int - 32) as char else c
  }

  predicate IsDigit(c: char) {
    '0' <= c <= '9'
  }

  predicate IsAlpha(c: char) {
    'a' <= c <= 'z' || 'A' <= c <= 'Z'
  }

  predicate IsSpace(c: char) {
    c == ' ' || 9 <= c as int <= 13
  }

  function Lower(s: string): string {
    seq(|s|, i requires 0 <= i < |s| => LowerChar(s[i]))
  }

  /** `t` occurs in `s` at position `i`. */
  predicate OccursAt(s: string, t: string, i: nat) {
    i + |t| <= |s| && s[i..i + |t|] == t
  }

  predicate Contains(s: string, t: string) {
    exists i: nat :: i <= |s| && OccursAt(s, t, i)
  }

  lemma Reassociate(a: string, b: string, c: string)
    ensures (a + b) + c == a + (b + c)
  {
  }

  /** normalize_bambu_status_token: letters and digits only, in upper case. */
  function Normalize(s: string): string {
    if s == [] then []
    else if IsAlpha(s[0]) || IsDigit(s[0]) then [UpperChar(s[0])] + Normalize(s[1..])
    else Normalize(s[1..])
  }

  lemma {:induction false} NormalizeIsIdempotent(s: string)
    ensures Normalize(Normalize(s)) == Normalize(s)
  {
    if s != [] {
      NormalizeIsIdempotent(s[1..]);
      if IsAlpha(s[0]) || IsDigit(s[0]) {
        assert Normalize(s)[1..] == Normalize(s[1..]);
      }
    }
  }

  // ----- decimal numbers

  function Decimal(n: nat): (s: string)
    ensures s != "" && forall k :: 0 <= k < |s| ==> IsDigit(s[k])
  {
    (if n < 10 then "" else Decimal(n / 10)) + [('0' as int + n % 10) as char]
  }

  /** The number the leading digits of `s` write, behind `acc`. */
  function LeadingNumber(s: string, acc: nat): nat
    decreases |s|
  {
    if s == "" || !IsDigit(s[0]) then acc else LeadingNumber(s[1..], 10 * acc + (s[0] as int - '0' as int))
  }

  function SkipSpaces(s: string): string {
    if s != "" && IsSpace(s[0]) then SkipSpaces(s[1..]) else s
  }

  /** strtol in base ten for a 32-bit long. */
  function ParseLong(s: string): int {
    var t := SkipSpaces(s);
    var signed := t != "" && t[0] in {'+', '-'};
    var magnitude: int := LeadingNumber(if signed then t[1..] else t, 0);
    if signed && t[0] == '-' then (if magnitude > 0x8000_0000 then -0x8000_0000 else -magnitude)
    else if magnitude > 0x7FFF_FFFF then 0x7FFF_FFFF else magnitude
  }

  lemma {:induction false} LeadingNumberSnoc(s: string, d: char, acc: nat)
    requires IsDigit(d) && forall k :: 0 <= k < |s| ==> IsDigit(s[k])
    ensures LeadingNumber(s + [d], acc) == 10 * LeadingNumber(s, acc) + (d as int - '0' as int)
    decreases |s|
  {
    if s == "" {
      assert (s + [d])[1..] == "";
    } else {
      assert (s + [d])[1..] == s[1..] + [d];
      LeadingNumberSnoc(s[1..], d, 10 * acc + (s[0] as int - '0' as int));
    }
  }

  lemma {:induction false} LeadingNumberOfDecimal(n: nat)
    ensures LeadingNumber(Decimal(n), 0) == n
  {
    var d := ('0' as int + n % 10) as char;
    if n < 10 {
      assert Decimal(n) == "" + [d];
      LeadingNumberSnoc("", d, 0);
    } else {
      LeadingNumberOfDecimal(n / 10);
      LeadingNumberSnoc(Decimal(n / 10), d, 0);
    }
  }

  /** Printing a number and reading it back gives the number. */
  lemma ParseLongOfDecimal(n: nat)
    requires n <= 0x7FFF_FFFF
    ensures ParseLong(Decimal(n)) == n
  {
    LeadingNumberOfDecimal(n);
    assert IsDigit(Decimal(n)[0]);
  }
}
