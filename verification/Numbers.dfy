/** How stored numbers are read back. */
module Numbers {
  import opened Text

  lemma {:induction false} LeadingNumberStops(digits: string, rest: string, acc: nat)
    requires (forall k :: 0 <= k < |digits| ==> IsDigit(digits[k])) && (rest == "" || !IsDigit(rest[0]))
    ensures LeadingNumber(digits + rest, acc) == LeadingNumber(digits, acc)
    decreases |digits|
  {
    if digits == "" {
      assert digits + rest == rest;
    } else {
      assert (digits + rest)[1..] == digits[1..] + rest;
      LeadingNumberStops(digits[1..], rest, 10 * acc + (digits[0] as int - '0' as int));
    }
  }

  /** A number is read behind blanks and one sign, up to the first byte that is no digit, and is kept within
      32 bits; a text that begins otherwise reads as 0. */
  lemma NumbersRead(n: nat, rest: string)
    requires rest == "" || !IsDigit(rest[0])
    ensures ParseLong(Decimal(n) + rest) == if n <= 0x7FFF_FFFF then n else 0x7FFF_FFFF
    ensures ParseLong("+" + (Decimal(n) + rest)) == if n <= 0x7FFF_FFFF then n else 0x7FFF_FFFF
    ensures ParseLong("-" + (Decimal(n) + rest)) == -(if n <= 0x8000_0000 then n else 0x8000_0000)
  {
    hide LeadingNumber, Decimal, SkipSpaces, ParseLong;
    var t := Decimal(n) + rest;
    LeadingNumberStops(Decimal(n), rest, 0);
    LeadingNumberOfDecimal(n);
    SignsRead(t);
  }

  lemma SignsRead(t: string)
    requires t != "" && IsDigit(t[0])
    ensures var n: int := LeadingNumber(t, 0);
      && ParseLong(t) == ParseLong("+" + t) == (if n <= 0x7FFF_FFFF then n else 0x7FFF_FFFF)
      && ParseLong("-" + t) == -(if n <= 0x8000_0000 then n else 0x8000_0000)
  {
    hide LeadingNumber;
    assert ("+" + t)[1..] == t && ("-" + t)[1..] == t;
  }

  lemma BlanksAreSkipped(c: char, s: string)
    requires c == ' ' || 9 <= c as int <= 13
    ensures ParseLong([c] + s) == ParseLong(s)
  {
    assert ([c] + s)[1..] == s;
    hide LeadingNumber;
  }

  lemma NoNumberIsZero(s: string)
    requires s == "" || !(IsDigit(s[0]) || s[0] in {'+', '-'} || IsSpace(s[0]))
    ensures ParseLong(s) == 0
  {
  }
}
