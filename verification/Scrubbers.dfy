/** The filters a log line passes on its way to the debug log: each edits the line in place, shrinking
    and growing it under its own cursor. */
module Scrubbers {
  import opened Text

  // ----- hardware addresses

  const MAC: nat := 17
  const MAC_MARK := ['[', 'M', 'A', 'C', ']']

  predicate IsHex(c: char) {
    '0' <= c <= '9' || 'a' <= c <= 'f' || 'A' <= c <= 'F'
  }

  predicate MacChar(c: char, k: nat) {
    if k % 3 == 2 then c == ':' else IsHex(c)
  }

  /** HH:HH:HH:HH:HH:HH */
  predicate IsMac(w: string) {
    |w| == MAC && forall k :: 0 <= k < MAC ==> MacChar(w[k], k)
  }

  predicate MacAt(s: string, i: nat) {
    i + MAC <= |s| && IsMac(s[i..i + MAC])
  }

  predicate NoMac(s: string) {
    forall i: nat :: i < |s| ==> !MacAt(s, i)
  }

  function MacScrubbed(s: string): string {
    if |s| < MAC then s
    else if MacAt(s, 0) then MAC_MARK + MacScrubbed(s[MAC..])
    else [s[0]] + MacScrubbed(s[1..])
  }

  /** Up to its first mark the scrubbed text is the text. */
  lemma {:induction false} ScrubbedPrefix(s: string, n: nat)
    requires n <= |MacScrubbed(s)| && '[' !in MacScrubbed(s)[..n]
    ensures n <= |s| && MacScrubbed(s)[..n] == s[..n]
  {
    hide MacAt;
    if |s| >= MAC && n > 0 {
      assert MacScrubbed(s)[..n][0] == MacScrubbed(s)[0];
      if !MacAt(s, 0) {
        assert MacScrubbed(s)[..n][1..] == MacScrubbed(s[1..])[..n - 1];
        ScrubbedPrefix(s[1..], n - 1);
      }
    }
  }

  lemma MacHasNoBrackets(w: string)
    ensures IsMac(w) ==> '[' !in w && ']' !in w
  {
    if IsMac(w) {
      assert forall k :: 0 <= k < MAC ==> MacChar(w[k], k) && w[k] !in {'[', ']'};
    }
  }

  lemma MacAtSuffix(s: string, drop: nat, i: nat)
    requires drop <= i && drop <= |s|
    ensures MacAt(s, i) <==> MacAt(s[drop..], i - drop)
  {
    if i + MAC <= |s| {
      assert s[drop..][i - drop..i - drop + MAC] == s[i..i + MAC];
    }
  }

  /** No address survives, not even one pieced together from the text around a mark. */
  lemma {:induction false} NoMacSurvives(s: string)
    ensures NoMac(MacScrubbed(s))
  {
    hide MacAt;
    var r := MacScrubbed(s);
    if |s| >= MAC {
      var drop, rest := if MacAt(s, 0) then 5 else 1, if MacAt(s, 0) then s[MAC..] else s[1..];
      NoMacSurvives(rest);
      assert r[drop..] == MacScrubbed(rest);
      forall i: nat | i < |r| ensures !MacAt(r, i) {
        if i >= drop {
          MacAtSuffix(r, drop, i);
        } else {
          NotAcrossTheCut(s, i);
        }
      }
    } else {
      ShortHasNoMac(r);
    }
  }

  /** In plain words: no 17 characters of the result are an address. */
  lemma NoSeventeenAreAnAddress(s: string, i: nat)
    requires i + 17 <= |MacScrubbed(s)|
    ensures !IsMac(Seventeen(MacScrubbed(s), i))
  {
    NoMacSurvives(s);
    assert !MacAt(MacScrubbed(s), i);
  }

  lemma ShortHasNoMac(r: string)
    requires |r| < MAC
    ensures NoMac(r)
  {
  }

  lemma WindowHoldsTheMark(s: string, i: nat)
    requires MacAt(s, 0) && i < 5 && i + MAC <= |MacScrubbed(s)|
    ensures ']' in MacScrubbed(s)[i..i + MAC]
  {
    assert MacScrubbed(s)[i..i + MAC][4 - i] == ']';
  }

  lemma NotAcrossTheCut(s: string, i: nat)
    requires |s| >= MAC && i < if MacAt(s, 0) then 5 else 1
    ensures !MacAt(MacScrubbed(s), i)
  {
    hide IsMac;
    var r := MacScrubbed(s);
    if i + MAC <= |r| {
      MacHasNoBrackets(r[i..i + MAC]);
      if MacAt(s, 0) {
        WindowHoldsTheMark(s, i);
      } else if '[' !in r[..MAC] {
        ScrubbedPrefix(s, MAC);
      }
    }
  }

  /** A text without addresses is left alone; with NoMacSurvives, scrubbing twice is scrubbing once. */
  lemma {:induction false} NoMacIsUntouched(s: string)
    requires NoMac(s)
    ensures MacScrubbed(s) == s
  {
    hide IsMac;
    if |s| >= MAC {
      forall i: nat | i < |s[1..]| ensures !MacAt(s[1..], i) {
        MacAtSuffix(s, 1, i + 1);
      }
      NoMacIsUntouched(s[1..]);
    }
  }

  lemma MacScrubTwice(s: string)
    ensures MacScrubbed(MacScrubbed(s)) == MacScrubbed(s)
  {
    NoMacSurvives(s);
    NoMacIsUntouched(MacScrubbed(s));
  }

  /** What an address looks like: six pairs of hexadecimal digits with colons between them. */
  lemma AddressShape(w: string)
    ensures IsMac(w) <==>
            |w| == 17 && forall k :: 0 <= k < 17 ==>
              if k in {2, 5, 8, 11, 14} then w[k] == ':'
              else '0' <= w[k] <= '9' || 'a' <= w[k] <= 'f' || 'A' <= w[k] <= 'F'
  {
    assert forall k :: 0 <= k < 17 ==> (k % 3 == 2 <==> k in {2, 5, 8, 11, 14});
    assert |w| == 17 ==> forall k :: 0 <= k < 17 ==>
      (MacChar(w[k], k) <==> if k in {2, 5, 8, 11, 14} then w[k] == ':' else IsHex(w[k]));
  }

  function Seventeen(s: string, i: nat): string
    requires i + 17 <= |s|
  {
    s[i..i + 17]
  }

  /** The first address becomes the mark; what is in front of it stays, and what is behind it is treated alike. */
  lemma {:induction false} FirstAddressIsReplaced(s: string, i: nat)
    requires i + 17 <= |s| && IsMac(Seventeen(s, i)) && forall j: nat :: j < i ==> !IsMac(Seventeen(s, j))
    ensures MacScrubbed(s) == s[..i] + "[MAC]" + MacScrubbed(s[i + 17..])
  {
    hide IsMac;
    if i > 0 {
      forall j: nat | j < i ensures Seventeen(s[1..], j) == Seventeen(s, j + 1) {
      }
      assert !MacAt(s, 0) by {
        assert !IsMac(Seventeen(s, 0));
      }
      FirstAddressIsReplaced(s[1..], i - 1);
      assert s[1..][i - 1 + 17..] == s[i + 17..] && [s[0]] + s[1..][..i - 1] == s[..i];
      Reassociate([s[0]], s[1..][..i - 1], "[MAC]" + MacScrubbed(s[i + 17..]));
    }
  }

  lemma MacStep(t: string)
    requires |t| >= MAC
    ensures MacAt(t, 0) ==> MacScrubbed(t) == MAC_MARK + MacScrubbed(t[MAC..])
    ensures !MacAt(t, 0) ==> MacScrubbed(t) == [t[0]] + MacScrubbed(t[1..])
  {
    hide MacAt;
  }

  /** A text too short for an address is left alone. */
  lemma ShortIsUntouched(t: string)
    ensures |t| < MAC ==> MacScrubbed(t) == t
  {
    hide MacAt;
  }

  /** scrub_mac */
  method ScrubMac(input: string) returns (s: string)
    ensures s == MacScrubbed(input)
  {
    hide MacAt, MacScrubbed;
    s := input;
    var i := 0;
    assert s[..0] + MacScrubbed(s[0..]) == MacScrubbed(input) by {
      assert s[0..] == s;
    }
    while i + MAC <= |s|
      invariant i <= |s| && s[..i] + MacScrubbed(s[i..]) == MacScrubbed(input)
      decreases |s| - i
    {
      var ok := IsMacWindow(s, i);
      ghost var done, rest := s[..i], s[i..];
      MacAtSuffix(s, i, i);
      MacStep(rest);
      if ok {
        s := s[..i] + MAC_MARK + s[i + MAC..];
        i := i + 5;
        assert s[i..] == rest[MAC..] && s[..i] == done + MAC_MARK;
        Reassociate(done, MAC_MARK, MacScrubbed(rest[MAC..]));
      } else {
        i := i + 1;
        assert s[i..] == rest[1..] && s[..i] == done + [rest[0]];
        Reassociate(done, [rest[0]], MacScrubbed(rest[1..]));
      }
    }
    ShortIsUntouched(s[i..]);
    assert s[..i] + s[i..] == s;
  }

  method IsMacWindow(s: string, i: nat) returns (ok: bool)
    requires i + MAC <= |s|
    ensures ok == MacAt(s, i)
  {
    ok := true;
    var b := 0;
    ghost var w := s[i..i + MAC];
    while b < 6 && ok
      invariant b <= 6
      invariant ok == forall k :: 0 <= k < 3 * b && k < MAC ==> MacChar(w[k], k)
    {
      var p := i + 3 * b;
      ghost var seen := forall k :: 0 <= k < 3 * b && k < MAC ==> MacChar(w[k], k);
      ok := IsHex(s[p]) && IsHex(s[p + 1]);
      if b < 5 {
        ok := ok && s[p + 2] == ':';
      }
      assert MacChar(w[3 * b], 3 * b) == IsHex(s[p]) && MacChar(w[3 * b + 1], 3 * b + 1) == IsHex(s[p + 1]);
      assert b < 5 ==> MacChar(w[3 * b + 2], 3 * b + 2) == (s[p + 2] == ':');
      b := b + 1;
    }
  }
}
