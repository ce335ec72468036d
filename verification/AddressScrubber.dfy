/** The address filter of the debug log: which dotted addresses it replaces. */
module AddressScrubber {
  import opened Text
  import opened KeyScrubber

  // ----- one address

  /** How many digits a text starts with. */
  function DigitRun(s: string): (n: nat)
    ensures n <= |s| && (s != "" && IsDigit(s[0]) ==> n > 0)
  {
    if s == "" || !IsDigit(s[0]) then 0 else 1 + DigitRun(s[1..])
  }

  datatype Run = Run(length: nat, isAddress: bool)

  /** The dotted digit groups a text starts with, behind `groups` earlier ones. Four groups of one to
      three digits are an address, unless a dot follows. */
  function ScanRun(s: string, groups: nat): (r: Run)
    ensures r.length <= |s| && (s != "" && IsDigit(s[0]) ==> r.length > 0)
    decreases |s|
  {
    var g := DigitRun(s);
    if g == 0 || g > 3 then Run(g, false)
    else if g < |s| && s[g] == '.' then
      var rest := ScanRun(s[g + 1..], groups + 1);
      Run(g + 1 + rest.length, rest.isAddress)
    else Run(g, groups == 3)
  }

  predicate WordChar(c: char) {
    IsAlpha(c) || c == '_'
  }

  /** The text with its addresses replaced; no address begins right behind a letter. */
  function AddressesHidden(s: string, behindWord: bool): string
    decreases |s|
  {
    if s == "" then ""
    else if !IsDigit(s[0]) || behindWord then [s[0]] + AddressesHidden(s[1..], WordChar(s[0]))
    else
      var run := ScanRun(s, 0);
      (if run.isAddress then IP_MARK else s[..run.length]) + AddressesHidden(s[run.length..], false)
  }

  // ----- the loops

  method SkipDigits(s: string, i: nat) returns (stop: nat)
    requires i <= |s|
    ensures stop == i + DigitRun(s[i..])
  {
    stop := i;
    while stop < |s| && IsDigit(s[stop])
      invariant i <= stop <= |s| && DigitRun(s[i..]) == stop - i + DigitRun(s[stop..])
    {
      assert s[stop..][1..] == s[stop + 1..];
      stop := stop + 1;
    }
  }

  /** One group of a run, in terms of the whole line. */
  lemma RunStep(s: string, at: nat, end: nat, groups: nat)
    requires at <= |s| && end == at + DigitRun(s[at..])
    ensures end <= |s|
    ensures end == at || end - at > 3 ==> ScanRun(s[at..], groups) == Run(end - at, false)
    ensures 0 < end - at <= 3 && end < |s| && s[end] == '.' ==>
              var rest := ScanRun(s[end + 1..], groups + 1);
              ScanRun(s[at..], groups) == Run(end + 1 - at + rest.length, rest.isAddress)
    ensures 0 < end - at <= 3 && !(end < |s| && s[end] == '.') ==>
              ScanRun(s[at..], groups) == Run(end - at, groups == 3)
  {
    hide DigitRun;
    var here := s[at..];
    if end < |s| {
      assert here[end - at] == s[end] && here[end - at + 1..] == s[end + 1..];
    }
  }

  /** One run of dotted digit groups from `i`; `stop` is where it ends. */
  method ScanGroups(s: string, i: nat) returns (stop: nat, isAddress: bool)
    requires i < |s| && IsDigit(s[i])
    ensures i < stop <= |s| && Run(stop - i, isAddress) == ScanRun(s[i..], 0)
  {
    hide DigitRun, ScanRun;
    stop := i;
    var dots, groups := 0, 0;
    var valid := true;
    ghost var whole := ScanRun(s[i..], 0);
    ghost var rest := whole;
    assert s[i..][0] == s[i];
    while stop < |s|
      invariant i <= stop <= |s| && valid && dots == groups
      invariant rest == ScanRun(s[stop..], groups)
      invariant whole == Run(stop - i + rest.length, rest.isAddress)
      decreases |s| - stop
    {
      var start := stop;
      stop := SkipDigits(s, start);
      RunStep(s, start, stop, groups);
      if stop == start || stop - start > 3 {
        valid := false;
        break;
      }
      groups := groups + 1;
      if stop < |s| && s[stop] == '.' {
        dots := dots + 1;
        stop := stop + 1;
        rest := ScanRun(s[stop..], groups);
      } else {
        break;
      }
    }
    NothingIsNoAddress(groups);
    isAddress := valid && dots == 3 && groups == 4;
  }

  lemma NothingIsNoAddress(groups: nat)
    ensures ScanRun([], groups) == Run(0, false)
  {
  }

  predicate BehindWord(s: string, i: nat)
    requires i <= |s|
  {
    i > 0 && WordChar(s[i - 1])
  }

  /** One turn of the filter, in terms of the whole line. */
  lemma HiddenStep(s: string, i: nat)
    requires i < |s|
    ensures var rest, run := AddressesHidden(s[i..], BehindWord(s, i)), ScanRun(s[i..], 0);
      if !IsDigit(s[i]) || BehindWord(s, i) then
        rest == [s[i]] + AddressesHidden(s[i + 1..], BehindWord(s, i + 1))
      else
        rest == (if run.isAddress then IP_MARK else s[i..i + run.length])
                + AddressesHidden(s[i + run.length..], false)
  {
    hide ScanRun, WordChar;
    var here := s[i..];
    assert here[0] == s[i] && here[1..] == s[i + 1..];
    var n := ScanRun(here, 0).length;
    assert here[n..] == s[i + n..] && here[..n] == s[i..i + n];
  }

  lemma RunEndsNoWord(s: string, i: nat, n: nat)
    requires i < |s| && IsDigit(s[i]) && n == ScanRun(s[i..], 0).length
    ensures i + n <= |s| && !BehindWord(s, i + n)
  {
    RunHoldsNoWord(s[i..], 0);
    assert s[i..][n - 1] == s[i + n - 1];
  }

  lemma {:induction false} RunHoldsNoWord(s: string, groups: nat)
    ensures forall k :: 0 <= k < ScanRun(s, groups).length ==> IsDigit(s[k]) || s[k] == '.'
    ensures var n := ScanRun(s, groups).length; n < |s| ==> !IsDigit(s[n])
    decreases |s|
  {
    var g := DigitRun(s);
    DigitRunIsDigits(s);
    if 0 < g <= 3 && g < |s| && s[g] == '.' {
      RunHoldsNoWord(s[g + 1..], groups + 1);
    }
  }

  lemma {:induction false} DigitRunIsDigits(s: string)
    ensures forall k :: 0 <= k < DigitRun(s) ==> IsDigit(s[k])
    ensures DigitRun(s) < |s| ==> !IsDigit(s[DigitRun(s)])
  {
    if s != "" && IsDigit(s[0]) {
      DigitRunIsDigits(s[1..]);
    }
  }

  /** scrub_ipv4 */
  method ScrubIpv4(input: string) returns (s: string)
    ensures s == AddressesHidden(input, false)
  {
    hide AddressesHidden, ScanRun, IsDigit, IsAlpha;
    s := input;
    var i := 0;
    ghost var done := "";
    assert s[0..] == s;
    while i < |s|
      invariant 0 <= i <= |s| && s[..i] == done
      invariant done + AddressesHidden(s[i..], BehindWord(s, i)) == AddressesHidden(input, false)
      decreases |s| - i
    {
      HiddenStep(s, i);
      ghost var before, rest := s, AddressesHidden(s[i..], BehindWord(s, i));
      if !IsDigit(s[i]) || (i > 0 && (IsAlpha(s[i - 1]) || s[i - 1] == '_')) {
        Reassociate(done, [s[i]], AddressesHidden(s[i + 1..], BehindWord(s, i + 1)));
        done := done + [s[i]];
        i := i + 1;
        continue;
      }
      var stop, isAddress := ScanGroups(s, i);
      RunEndsNoWord(s, i, stop - i);
      Reassociate(done, if isAddress then IP_MARK else s[i..stop], AddressesHidden(s[stop..], false));
      if isAddress {
        s := s[..i] + IP_MARK + s[stop..];
        done := done + IP_MARK;
        i := i + 4;
        assert s[i..] == before[stop..] && s[i - 1] == ']';
        MarkEndsNoWord();
      } else {
        done := done + s[i..stop];
        i := stop;
      }
    }
    NothingIsHidden();
    assert s[i..] == [] && s == s[..i];
  }

  lemma MarkEndsNoWord()
    ensures !IsAlpha(']')
  {
  }

  lemma NothingIsHidden()
    ensures forall b :: AddressesHidden([], b) == []
  {
  }

  // ----- which addresses are found

  predicate Group(g: string) {
    1 <= |g| <= 3 && forall k :: 0 <= k < |g| ==> IsDigit(g[k])
  }

  function Dotted(a: string, b: string, c: string, d: string): string {
    a + ['.'] + b + ['.'] + c + ['.'] + d
  }

  predicate NumberChar(c: char) {
    IsDigit(c) || c == '.'
  }

  /** Nothing that would continue a dotted number follows. */
  predicate EndsNumber(s: string) {
    s == "" || !NumberChar(s[0])
  }

  /** An address may begin behind this text. */
  predicate Separated(s: string) {
    s == "" ||
    var c := s[|s| - 1];
    !('0' <= c <= '9' || c == '.' || 'a' <= c <= 'z' || 'A' <= c <= 'Z' || c == '_')
  }

  lemma {:induction false} DigitRunOf(g: string, rest: string)
    requires forall k :: 0 <= k < |g| ==> IsDigit(g[k])
    requires rest == "" || !IsDigit(rest[0])
    ensures DigitRun(g + rest) == |g|
  {
    if g != "" {
      assert (g + rest)[1..] == g[1..] + rest;
      DigitRunOf(g[1..], rest);
    } else {
      assert g + rest == rest;
    }
  }

  lemma GroupAndDot(g: string, rest: string, groups: nat)
    requires Group(g)
    ensures var run := ScanRun(rest, groups + 1);
      ScanRun(g + (['.'] + rest), groups) == Run(|g| + 1 + run.length, run.isAddress)
  {
    hide DigitRun;
    var s := g + (['.'] + rest);
    DigitRunOf(g, ['.'] + rest);
    assert s[|g|] == '.' && s[|g| + 1..] == rest;
  }

  lemma LastGroup(g: string, rest: string, groups: nat)
    requires Group(g) && EndsNumber(rest)
    ensures ScanRun(g + rest, groups) == Run(|g|, groups == 3)
  {
    hide DigitRun;
    DigitRunOf(g, rest);
  }

  lemma DottedParts(a: string, b: string, c: string, d: string, rest: string)
    ensures Dotted(a, b, c, d) + rest == a + (['.'] + (b + (['.'] + (c + (['.'] + (d + rest))))))
  {
  }

  lemma DottedLength(a: string, b: string, c: string, d: string)
    ensures |Dotted(a, b, c, d)| == |a| + |b| + |c| + |d| + 3
  {
  }

  /** Three groups and their dots are read, whatever the fourth one makes of them. */
  lemma ThreeGroupsAreRead(a: string, b: string, c: string, d: string, rest: string)
    requires Group(a) && Group(b) && Group(c)
    ensures var last := ScanRun(d + rest, 3);
      ScanRun(Dotted(a, b, c, d) + rest, 0) == Run(|a| + |b| + |c| + 3 + last.length, last.isAddress)
  {
    hide ScanRun, Group, Dotted;
    DottedParts(a, b, c, d, rest);
    var third := d + rest;
    var second := c + (['.'] + third);
    var first := b + (['.'] + second);
    GroupAndDot(c, third, 2);
    GroupAndDot(b, second, 1);
    GroupAndDot(a, first, 0);
  }

  lemma AddressIsScanned(a: string, b: string, c: string, d: string, rest: string)
    requires Group(a) && Group(b) && Group(c) && Group(d) && EndsNumber(rest)
    ensures ScanRun(Dotted(a, b, c, d) + rest, 0) == Run(|Dotted(a, b, c, d)|, true)
  {
    hide ScanRun, Group, EndsNumber, Dotted;
    ThreeGroupsAreRead(a, b, c, d, rest);
    LastGroup(d, rest, 3);
    DottedLength(a, b, c, d);
  }

  lemma {:induction false} DigitRunStopsInside(s: string, rest: string)
    requires s != "" && !IsDigit(s[|s| - 1])
    ensures DigitRun(s) < |s| && DigitRun(s + rest) == DigitRun(s)
  {
    if IsDigit(s[0]) {
      assert (s + rest)[1..] == s[1..] + rest;
      DigitRunStopsInside(s[1..], rest);
    }
  }

  /** What stands behind a character that no number holds does not matter to a scan before it. */
  lemma {:induction false} ScanStopsInside(s: string, rest: string, groups: nat)
    requires s != "" && !NumberChar(s[|s| - 1])
    ensures ScanRun(s, groups).length < |s| && ScanRun(s + rest, groups) == ScanRun(s, groups)
    decreases |s|
  {
    var g := DigitRun(s);
    DigitRunStopsInside(s, rest);
    if 0 < g <= 3 && s[g] == '.' {
      assert (s + rest)[g + 1..] == s[g + 1..] + rest;
      ScanStopsInside(s[g + 1..], rest, groups + 1);
    }
  }

  lemma FirstStep(s: string, behindWord: bool)
    requires s != ""
    ensures var all, run := AddressesHidden(s, behindWord), ScanRun(s, 0);
      if !IsDigit(s[0]) || behindWord then all == [s[0]] + AddressesHidden(s[1..], WordChar(s[0]))
      else all == (if run.isAddress then IP_MARK else s[..run.length]) + AddressesHidden(s[run.length..], false)
  {
    hide ScanRun, WordChar;
  }

  /** The filter works on both sides of such a character as on texts of their own. */
  lemma {:induction false} HiddenPiecewise(s: string, rest: string, behindWord: bool)
    requires s != "" && !NumberChar(s[|s| - 1])
    ensures AddressesHidden(s + rest, behindWord) ==
            AddressesHidden(s, behindWord) + AddressesHidden(rest, WordChar(s[|s| - 1]))
    decreases |s|
  {
    hide ScanRun, AddressesHidden, WordChar;
    var last := AddressesHidden(rest, WordChar(s[|s| - 1]));
    FirstStep(s, behindWord);
    FirstStep(s + rest, behindWord);
    if !IsDigit(s[0]) || behindWord {
      assert (s + rest)[1..] == s[1..] + rest;
      if |s| > 1 {
        HiddenPiecewise(s[1..], rest, WordChar(s[0]));
        Reassociate([s[0]], AddressesHidden(s[1..], WordChar(s[0])), last);
      } else {
        NothingIsHidden();
      }
    } else {
      ScanStopsInside(s, rest, 0);
      var run := ScanRun(s, 0);
      var n := run.length;
      assert (s + rest)[n..] == s[n..] + rest && (s + rest)[..n] == s[..n];
      HiddenPiecewise(s[n..], rest, false);
      Reassociate(if run.isAddress then IP_MARK else s[..n], AddressesHidden(s[n..], false), last);
    }
  }

  /** Every stand-alone address is replaced, and the text on either side is treated as if alone. */
  lemma StandAloneAddressIsHidden(before: string, a: string, b: string, c: string, d: string, after: string)
    requires Group(a) && Group(b) && Group(c) && Group(d)
    requires Separated(before) && EndsNumber(after)
    ensures AddressesHidden(before + (Dotted(a, b, c, d) + after), false) ==
            AddressesHidden(before, false) + (IP_MARK + AddressesHidden(after, false))
  {
    hide ScanRun;
    var tail := Dotted(a, b, c, d) + after;
    assert tail[0] == a[0];
    AddressIsScanned(a, b, c, d, after);
    assert tail[|Dotted(a, b, c, d)|..] == after;
    assert AddressesHidden(tail, false) == IP_MARK + AddressesHidden(after, false);
    if before != "" {
      HiddenPiecewise(before, tail, false);
    } else {
      assert before + tail == tail;
    }
  }

  lemma NoGroup(s: string, groups: nat)
    requires s == "" || !IsDigit(s[0])
    ensures ScanRun(s, groups) == Run(0, false)
  {
  }

  lemma SentenceIsScanned(a: string, b: string, c: string, d: string, rest: string)
    requires Group(a) && Group(b) && Group(c) && Group(d) && (rest == "" || !IsDigit(rest[0]))
    ensures ScanRun(Dotted(a, b, c, d) + (['.'] + rest), 0) == Run(|Dotted(a, b, c, d)| + 1, false)
  {
    hide ScanRun, Group, Dotted;
    NoGroup(rest, 4);
    ThreeGroupsAreRead(a, b, c, d, ['.'] + rest);
    GroupAndDot(d, rest, 3);
    DottedLength(a, b, c, d);
  }

  /** An address that ends a sentence is not hidden: the dot is taken for the start of a fifth group. */
  lemma AddressBeforeAPeriodStays(before: string, a: string, b: string, c: string, d: string, after: string)
    requires Group(a) && Group(b) && Group(c) && Group(d)
    requires Separated(before) && (after == "" || !IsDigit(after[0]))
    ensures AddressesHidden(before + (Dotted(a, b, c, d) + (['.'] + after)), false) ==
            AddressesHidden(before, false) + (Dotted(a, b, c, d) + ['.'] + AddressesHidden(after, false))
  {
    hide AddressesHidden, Dotted;
    SentenceTail(a, b, c, d, after);
    if before != "" {
      HiddenPiecewise(before, Dotted(a, b, c, d) + (['.'] + after), false);
    } else {
      NothingIsHidden();
      EmptyFront(Dotted(a, b, c, d) + (['.'] + after));
      EmptyFront(Dotted(a, b, c, d) + ['.'] + AddressesHidden(after, false));
    }
  }

  lemma EmptyFront(s: string)
    ensures "" + s == s
  {
  }

  lemma SentenceTail(a: string, b: string, c: string, d: string, after: string)
    requires Group(a) && Group(b) && Group(c) && Group(d) && (after == "" || !IsDigit(after[0]))
    ensures AddressesHidden(Dotted(a, b, c, d) + (['.'] + after), false) ==
            Dotted(a, b, c, d) + ['.'] + AddressesHidden(after, false)
  {
    hide ScanRun;
    var tail := Dotted(a, b, c, d) + (['.'] + after);
    assert tail[0] == a[0];
    SentenceIsScanned(a, b, c, d, after);
    var n := |Dotted(a, b, c, d)| + 1;
    assert tail[n..] == after && tail[..n] == Dotted(a, b, c, d) + ['.'];
    hide AddressesHidden;
    FirstStep(tail, false);
  }

  lemma DotIsNoAddress(a: string, b: string, c: string, d: string, after: string)
    requires Group(a) && Group(b) && Group(c) && Group(d)
    ensures !ScanRun(Dotted(a, b, c, d) + (['.'] + after), 0).isAddress
  {
    hide ScanRun, Group, Dotted;
    ThreeGroupsAreRead(a, b, c, d, ['.'] + after);
    GroupAndDot(d, after, 3);
    AddressIsLong(after, 4);
  }

  /** Behind four groups only a dot makes a difference: with one, whatever follows it, they are no address. */
  lemma DotDecides(a: string, b: string, c: string, d: string, rest: string)
    requires Group(a) && Group(b) && Group(c) && Group(d) && (rest == "" || !IsDigit(rest[0]))
    ensures ScanRun(Dotted(a, b, c, d) + rest, 0).isAddress <==> rest == "" || rest[0] != '.'
  {
    hide ScanRun, Group, Dotted;
    if rest != "" && rest[0] == '.' {
      DotIsNoAddress(a, b, c, d, rest[1..]);
      assert rest == ['.'] + rest[1..];
    } else {
      AddressIsScanned(a, b, c, d, rest);
    }
  }

  /** Four groups of one to three digits stand at the start, and nothing that would go on with them. */
  predicate StartsWithAddress(s: string, a: string, b: string, c: string, d: string) {
    && Group(a) && Group(b) && Group(c) && Group(d)
    && Dotted(a, b, c, d) <= s && EndsNumber(s[|Dotted(a, b, c, d)|..])
  }

  lemma DotOrNot(s: string, groups: nat)
    requires ScanRun(s, groups).isAddress
    ensures var g := DigitRun(s); Group(s[..g])
    ensures var g := DigitRun(s);
      if groups < 3 then g < |s| && s[g] == '.' && ScanRun(s[g + 1..], groups + 1).isAddress
      else ScanRun(s, groups).length == g && EndsNumber(s[g..])
  {
    var g := DigitRun(s);
    DigitRunIsDigits(s);
    if 0 < g <= 3 && g < |s| && s[g] == '.' {
      AddressIsLong(s[g + 1..], groups + 1);
    }
  }

  lemma FirstGroup(s: string, groups: nat) returns (g: string, rest: string)
    requires groups < 3 && ScanRun(s, groups).isAddress
    ensures Group(g) && s == g + (['.'] + rest) && ScanRun(rest, groups + 1).isAddress
  {
    hide ScanRun, DigitRun, Group;
    DotOrNot(s, groups);
    g, rest := s[..DigitRun(s)], s[DigitRun(s) + 1..];
  }

  lemma FourthGroup(s: string) returns (g: string, rest: string)
    requires ScanRun(s, 3).isAddress
    ensures Group(g) && s == g + rest && EndsNumber(rest)
  {
    hide ScanRun, DigitRun, Group, EndsNumber;
    DotOrNot(s, 3);
    g, rest := s[..DigitRun(s)], s[DigitRun(s)..];
  }

  /** What the scan takes for an address is one. */
  lemma ScannedIsAddress(s: string) returns (a: string, b: string, c: string, d: string)
    requires ScanRun(s, 0).isAddress
    ensures StartsWithAddress(s, a, b, c, d)
  {
    hide ScanRun, Group, EndsNumber, Dotted;
    var first, second, third, rest;
    a, first := FirstGroup(s, 0);
    b, second := FirstGroup(first, 1);
    c, third := FirstGroup(second, 2);
    d, rest := FourthGroup(third);
    DottedParts(a, b, c, d, rest);
    AddressInFront(s, Dotted(a, b, c, d), rest);
  }

  lemma AddressInFront(s: string, front: string, rest: string)
    requires s == front + rest
    ensures front <= s && s[|front|..] == rest
  {
  }

  /** The scan finds an address exactly where one stands. */
  lemma AddressExactly(s: string)
    ensures ScanRun(s, 0).isAddress <==>
            exists a: string, b: string, c: string, d: string :: StartsWithAddress(s, a, b, c, d)
  {
    hide ScanRun;
    if ScanRun(s, 0).isAddress {
      var a, b, c, d := ScannedIsAddress(s);
    }
    if a: string, b: string, c: string, d: string :| StartsWithAddress(s, a, b, c, d) {
      AddressIsScanned(a, b, c, d, s[|Dotted(a, b, c, d)|..]);
      assert s == Dotted(a, b, c, d) + s[|Dotted(a, b, c, d)|..];
    }
  }

  lemma DottedNumberTail(a: string, b: string, c: string, d: string, after: string)
    requires Group(a) && Group(b) && Group(c) && Group(d)
    ensures Dotted(a, b, c, d) <= AddressesHidden(Dotted(a, b, c, d) + (['.'] + after), false)
  {
    hide ScanRun, AddressesHidden, Group, Dotted;
    var s, front := Dotted(a, b, c, d) + (['.'] + after), Dotted(a, b, c, d);
    ThreeGroupsAreRead(a, b, c, d, ['.'] + after);
    GroupAndDot(d, after, 3);
    DottedLength(a, b, c, d);
    DotIsNoAddress(a, b, c, d, after);
    StartsWithDigit(a, b, c, d, ['.'] + after);
    FirstStep(s, false);
    assert s[..ScanRun(s, 0).length][..|front|] == front;
  }

  lemma StartsWithDigit(a: string, b: string, c: string, d: string, rest: string)
    requires Group(a)
    ensures Dotted(a, b, c, d) + rest != "" && IsDigit((Dotted(a, b, c, d) + rest)[0])
    ensures IsDigit(Dotted(a, b, c, d)[0])
  {
    assert Dotted(a, b, c, d)[0] == a[0];
  }

  /** A number of four groups that stands apart is hidden exactly if no dot follows; otherwise it stays. */
  lemma SeparatedAddressExactly(before: string, a: string, b: string, c: string, d: string, rest: string)
    requires Group(a) && Group(b) && Group(c) && Group(d)
    requires Separated(before) && (rest == "" || !IsDigit(rest[0]))
    ensures var front := AddressesHidden(before, false);
      var r := AddressesHidden(before + (Dotted(a, b, c, d) + rest), false);
      && (r == front + (IP_MARK + AddressesHidden(rest, false)) <==> rest == "" || rest[0] != '.')
      && (rest != "" && rest[0] == '.' ==> front + Dotted(a, b, c, d) <= r)
  {
    hide AddressesHidden, Group, Dotted, ScanRun;
    if rest == "" || rest[0] != '.' {
      StandAloneAddressIsHidden(before, a, b, c, d, rest);
    } else {
      var tail := Dotted(a, b, c, d) + rest;
      assert rest == ['.'] + rest[1..];
      DottedNumberTail(a, b, c, d, rest[1..]);
      StartsWithDigit(a, b, c, d, rest);
      if before != "" {
        HiddenPiecewise(before, tail, false);
      } else {
        NothingIsHidden();
        EmptyFront(tail);
        EmptyFront(AddressesHidden(tail, false));
      }
      NumberIsNoMark(AddressesHidden(before, false), Dotted(a, b, c, d), AddressesHidden(tail, false),
                     AddressesHidden(rest, false));
    }
  }

  lemma NumberIsNoMark(front: string, number: string, r: string, rest: string)
    requires number <= r && number != "" && IsDigit(number[0])
    ensures front + number <= front + r && front + r != front + (IP_MARK + rest)
  {
    assert (front + r)[|front|] == number[0];
    assert (front + (IP_MARK + rest))[|front|] == '[';
  }

  /** The letter in front protects one digit only: a version such as v12.3.4.5 loses its tail. */
  lemma LetterGuardsOneDigit(letter: char, digit: char, a: string, b: string, c: string, d: string, after: string)
    requires 'a' <= letter <= 'z' || 'A' <= letter <= 'Z' || letter == '_'
    requires IsDigit(digit) && EndsNumber(after)
    requires Group(a) && Group(b) && Group(c) && Group(d)
    ensures AddressesHidden([letter, digit] + (Dotted(a, b, c, d) + after), false) ==
            [letter, digit] + (IP_MARK + AddressesHidden(after, false))
  {
    assert WordChar(letter);
    hide AddressesHidden, Group, Dotted, EndsNumber, WordChar;
    LetterAndDigit(letter, digit, Dotted(a, b, c, d) + after);
    StandAloneAddressIsHidden("", a, b, c, d, after);
    NothingIsHidden();
    assert "" + (Dotted(a, b, c, d) + after) == Dotted(a, b, c, d) + after;
    assert "" + (IP_MARK + AddressesHidden(after, false)) == IP_MARK + AddressesHidden(after, false);
  }

  lemma LetterAndDigit(letter: char, digit: char, tail: string)
    requires WordChar(letter) && IsDigit(digit)
    ensures AddressesHidden([letter, digit] + tail, false) == [letter, digit] + AddressesHidden(tail, false)
  {
    hide ScanRun, AddressesHidden;
    var s := [letter, digit] + tail;
    assert s[1..] == [digit] + tail && s[1..][1..] == tail;
    FirstStep(s, false);
    FirstStep(s[1..], true);
    assert [letter] + ([digit] + AddressesHidden(tail, false)) == [letter, digit] + AddressesHidden(tail, false);
  }

  // ----- what is left

  /** The filter starts its output as it starts its input, unless that is a digit. */
  lemma FirstIsKept(s: string, behindWord: bool)
    ensures s == "" ==> AddressesHidden(s, behindWord) == ""
    ensures s != "" && !IsDigit(s[0]) ==>
              AddressesHidden(s, behindWord) != "" && AddressesHidden(s, behindWord)[0] == s[0]
  {
    hide ScanRun, WordChar;
  }

  lemma LastRun(s: string, r: string, groups: nat)
    requires var g := DigitRun(s); !(0 < g <= 3 && g < |s| && s[g] == '.')
    requires var g := DigitRun(s); if g < |s| then r != "" && r[0] == s[g] else r == ""
    ensures ScanRun(s[..DigitRun(s)] + r, groups) == ScanRun(s, groups)
  {
    hide DigitRun;
    var g := DigitRun(s);
    DigitRunIsDigits(s);
    DigitRunOf(s[..g], r);
    assert g < |s| ==> (s[..g] + r)[g] == s[g];
  }

  lemma RunUnfolds(s: string, groups: nat)
    ensures var g := DigitRun(s);
      if 0 < g <= 3 && g < |s| && s[g] == '.' then
        var rest := ScanRun(s[g + 1..], groups + 1);
        ScanRun(s, groups) == Run(g + 1 + rest.length, rest.isAddress)
      else ScanRun(s, groups).length == g
  {
    hide DigitRun;
  }

  /** A scan depends on the run and the character behind it alone. */
  lemma {:induction false} ScanSeesTheNext(s: string, r: string, groups: nat)
    requires var n := ScanRun(s, groups).length; if n < |s| then r != "" && r[0] == s[n] else r == ""
    ensures ScanRun(s[..ScanRun(s, groups).length] + r, groups) == ScanRun(s, groups)
    decreases |s|
  {
    hide DigitRun, ScanRun;
    var g := DigitRun(s);
    RunUnfolds(s, groups);
    if 0 < g <= 3 && g < |s| && s[g] == '.' {
      ScanSeesTheNext(s[g + 1..], r, groups + 1);
      DottedRun(s, ScanRun(s[g + 1..], groups + 1).length, r, groups);
    } else {
      LastRun(s, r, groups);
    }
  }

  lemma DottedRun(s: string, m: nat, r: string, groups: nat)
    requires var g := DigitRun(s); 0 < g <= 3 && g + 1 + m <= |s| && s[g] == '.'
    ensures var g := DigitRun(s);
      var rest := ScanRun(s[g + 1..][..m] + r, groups + 1);
      ScanRun(s[..g + 1 + m] + r, groups) == Run(g + 1 + rest.length, rest.isAddress)
  {
    hide DigitRun, ScanRun;
    var g := DigitRun(s);
    DigitRunIsDigits(s);
    assert s[..g + 1 + m] + r == s[..g] + (['.'] + (s[g + 1..][..m] + r));
    GroupAndDot(s[..g], s[g + 1..][..m] + r, groups);
  }

  lemma MarkIsKept(rest: string)
    ensures AddressesHidden(IP_MARK + rest, false) == IP_MARK + AddressesHidden(rest, false)
  {
    hide ScanRun, AddressesHidden;
    HiddenPiecewise(IP_MARK, rest, false);
    NoDigitIsUntouched(IP_MARK, false);
  }

  /** Filtering twice is filtering once. */
  lemma {:induction false} HiddenTwice(s: string, behindWord: bool)
    ensures AddressesHidden(AddressesHidden(s, behindWord), behindWord) == AddressesHidden(s, behindWord)
    decreases |s|
  {
    hide ScanRun, AddressesHidden, WordChar;
    NothingIsHidden();
    if s != "" {
      var r := AddressesHidden(s, behindWord);
      FirstStep(s, behindWord);
      if !IsDigit(s[0]) || behindWord {
        HiddenTwice(s[1..], WordChar(s[0]));
        FirstStep(r, behindWord);
        assert r[1..] == AddressesHidden(s[1..], WordChar(s[0]));
      } else {
        RunIsKept(s);
      }
    }
  }

  lemma {:induction false} RunIsKept(s: string)
    requires s != "" && IsDigit(s[0])
    ensures AddressesHidden(AddressesHidden(s, false), false) == AddressesHidden(s, false)
    decreases |s|, 0
  {
    hide ScanRun, AddressesHidden, WordChar;
    var r, run := AddressesHidden(s, false), ScanRun(s, 0);
    var n := run.length;
    var rest := AddressesHidden(s[n..], false);
    FirstStep(s, false);
    HiddenTwice(s[n..], false);
    if run.isAddress {
      MarkIsKept(rest);
    } else {
      RunHoldsNoWord(s, 0);
      FirstIsKept(s[n..], false);
      ScanSeesTheNext(s, rest, 0);
      FirstStep(r, false);
      assert r[..n] == s[..n] && r[n..] == rest;
    }
  }

  lemma {:induction false} HiddenIsNoLonger(s: string, behindWord: bool)
    ensures |AddressesHidden(s, behindWord)| <= |s|
    decreases |s|
  {
    hide ScanRun, AddressesHidden, WordChar;
    NothingIsHidden();
    if s != "" {
      FirstStep(s, behindWord);
      if !IsDigit(s[0]) || behindWord {
        HiddenIsNoLonger(s[1..], WordChar(s[0]));
      } else {
        AddressIsLong(s, 0);
        HiddenIsNoLonger(s[ScanRun(s, 0).length..], false);
      }
    }
  }

  lemma {:induction false} AddressIsLong(s: string, groups: nat)
    ensures ScanRun(s, groups).isAddress ==> groups <= 3 && ScanRun(s, groups).length >= 7 - 2 * groups
    decreases |s|
  {
    var g := DigitRun(s);
    if 0 < g <= 3 && g < |s| && s[g] == '.' {
      AddressIsLong(s[g + 1..], groups + 1);
    }
  }

  /** No stand-alone address is left in a filtered text. */
  lemma NoAddressSurvives(s: string, before: string, a: string, b: string, c: string, d: string, after: string)
    requires Group(a) && Group(b) && Group(c) && Group(d)
    requires Separated(before) && EndsNumber(after)
    ensures AddressesHidden(s, false) != before + (Dotted(a, b, c, d) + after)
  {
    hide AddressesHidden;
    HiddenIsNoLonger(before, false);
    HiddenIsNoLonger(after, false);
    StandAloneAddressIsHidden(before, a, b, c, d, after);
    HiddenTwice(s, false);
  }

  /** A text without digits is left alone. */
  lemma {:induction false} NoDigitIsUntouched(s: string, behindWord: bool)
    requires forall k :: 0 <= k < |s| ==> !IsDigit(s[k])
    ensures AddressesHidden(s, behindWord) == s
  {
    if s != "" {
      NoDigitIsUntouched(s[1..], WordChar(s[0]));
    }
  }
}
