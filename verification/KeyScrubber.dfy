/** Hiding the values behind a key: the guarantee of one pass of in-place replacements. */
module KeyScrubber {
  import opened Text

  datatype Rule = Rule(key: string, terminators: string, replacement: string)

  /** strchr also finds the byte that ends the terminator list. */
  predicate Ends(c: char, r: Rule) {
    c in r.terminators || c as int == 0
  }

  /** The first terminator at or after `from`, or the length. */
  function ValueEnd(s: string, from: nat, r: Rule): (end: nat)
    requires from <= |s|
    ensures from <= end <= |s|
    ensures forall k :: from <= k < end ==> !Ends(s[k], r)
    ensures end < |s| ==> Ends(s[end], r)
    decreases |s| - from
  {
    if from == |s| || Ends(s[from], r) then from else ValueEnd(s, from + 1, r)
  }

  /** The first occurrence of `key` at or after `from`, or the length. */
  function Locate(s: string, key: string, from: nat): (p: nat)
    requires from <= |s| && key != ""
    ensures from <= p <= |s|
    ensures forall k :: from <= k < p ==> !OccursAt(s, key, k)
    ensures p < |s| ==> OccursAt(s, key, p)
    decreases |s| - from
  {
    if from == |s| || OccursAt(s, key, from) then from else Locate(s, key, from + 1)
  }

  function Mark(emptyValue: bool, r: Rule): string {
    if emptyValue then "" else r.replacement
  }

  /** The text with every value found behind the key replaced, from left to right. */
  function Hidden(s: string, r: Rule): string
    requires r.key != ""
    decreases |s|
  {
    var p := Locate(s, r.key, 0);
    if p == |s| then s
    else
      var value := p + |r.key|;
      var end := ValueEnd(s, value, r);
      s[..value] + Mark(end == value, r) + Hidden(s[end..], r)
  }

  lemma OccursInSuffix(s: string, key: string, drop: nat, i: nat)
    requires drop <= i && drop <= |s|
    ensures OccursAt(s, key, i) <==> OccursAt(s[drop..], key, i - drop)
  {
    if i + |key| <= |s| {
      assert s[drop..][i - drop..i - drop + |key|] == s[i..i + |key|];
    }
  }

  lemma OccursInPrefix(s: string, r: string, k: nat, needle: string, i: nat)
    requires k <= |s| && k <= |r| && s[..k] == r[..k] && i + |needle| <= k
    ensures OccursAt(r, needle, i) == OccursAt(s, needle, i)
  {
    assert r[i..i + |needle|] == r[..k][i..i + |needle|] && s[i..i + |needle|] == s[..k][i..i + |needle|];
  }

  lemma LocateInSuffix(s: string, key: string, from: nat)
    requires from <= |s| && key != ""
    ensures Locate(s[from..], key, 0) == Locate(s, key, from) - from
  {
    hide Locate, OccursAt;
    var p, q := Locate(s, key, from), Locate(s[from..], key, 0);
    OccursInSuffix(s, key, from, p);
    OccursInSuffix(s, key, from, from + q);
  }

  lemma ValueEndInSuffix(s: string, drop: nat, from: nat, r: Rule)
    requires drop <= from <= |s|
    ensures ValueEnd(s[drop..], from - drop, r) == ValueEnd(s, from, r) - drop
  {
    hide ValueEnd, Ends;
    var e, f := ValueEnd(s, from, r), ValueEnd(s[drop..], from - drop, r);
    assert forall k :: from - drop <= k < f ==> s[drop..][k] == s[drop + k];
    assert f < |s[drop..]| ==> s[drop..][f] == s[drop + f];
    assert forall k :: from <= k < e ==> s[k] == s[drop..][k - drop];
    assert e < |s| ==> s[e] == s[drop..][e - drop];
  }

  lemma HiddenFirst(t: string, r: Rule, p: nat)
    requires r.key != "" && p == Locate(t, r.key, 0)
    ensures p == |t| ==> Hidden(t, r) == t
    ensures p < |t| ==>
      && p + |r.key| <= |t|
      && var end := ValueEnd(t, p + |r.key|, r);
         Hidden(t, r) == t[..p + |r.key|] + Mark(end == p + |r.key|, r) + Hidden(t[end..], r)
  {
    hide Locate, ValueEnd, OccursAt, Mark, Ends;
    if p < |t| {
      RoomForKey(t, r.key, p);
    }
  }

  /** The first key keeps its place, the value behind it, up to a terminator, a NUL or the end of the line,
      becomes the mark, and what is behind that is treated alike; an empty value stays empty. */
  lemma FirstValueIsReplaced(s: string, r: Rule, p: nat, end: nat)
    requires r.key != "" && OccursAt(s, r.key, p) && forall j: nat :: j < p ==> !OccursAt(s, r.key, j)
    requires p + |r.key| <= end <= |s|
    requires forall k :: p + |r.key| <= k < end ==> s[k] !in r.terminators && s[k] as int != 0
    requires end < |s| ==> s[end] in r.terminators || s[end] as int == 0
    ensures Hidden(s, r) ==
            s[..p + |r.key|] + (if end > p + |r.key| then r.replacement else "") + Hidden(s[end..], r)
  {
    hide Locate, ValueEnd, OccursAt, Hidden;
    RoomForKey(s, r.key, p);
    assert Locate(s, r.key, 0) == p;
    assert ValueEnd(s, p + |r.key|, r) == end;
    HiddenFirst(s, r, p);
  }

  lemma HiddenStep(s: string, at: nat, p: nat, r: Rule)
    requires at <= |s| && r.key != "" && p == Locate(s, r.key, at)
    ensures p == |s| ==> Hidden(s[at..], r) == s[at..]
    ensures p < |s| ==>
      && p + |r.key| <= |s|
      && var value := p + |r.key|;
         var end := ValueEnd(s, value, r);
         Hidden(s[at..], r) == s[at..value] + Mark(end == value, r) + Hidden(s[end..], r)
  {
    hide Locate, ValueEnd, OccursAt, Mark, Ends, Hidden;
    LocateInSuffix(s, r.key, at);
    HiddenFirst(s[at..], r, p - at);
    if p < |s| {
      var value := p + |r.key|;
      var end := ValueEnd(s, value, r);
      ValueEndInSuffix(s, at, value, r);
      assert s[at..][..value - at] == s[at..value];
      assert s[at..][end - at..] == s[end..];
    }
  }

  /** scrub_kv */
  method ScrubKv(input: string, r: Rule) returns (s: string)
    requires r.key != ""
    ensures s == Hidden(input, r)
  {
    hide Locate, ValueEnd, OccursAt, Hidden, Mark, Ends;
    s := input;
    var pos := 0;
    assert s[0..] == s;
    ghost var done := "";
    while true
      invariant 0 <= pos <= |s| && s[..pos] == done
      invariant done + Hidden(s[pos..], r) == Hidden(input, r)
      decreases |s| - pos
    {
      var p := Locate(s, r.key, pos);
      HiddenStep(s, pos, p, r);
      if p == |s| {
        assert s == s[..pos] + s[pos..];
        break;
      }
      var value := p + |r.key|;
      ghost var final := s[pos..value] + Mark(ValueEnd(s, value, r) == value, r);
      ghost var rest := s[ValueEnd(s, value, r)..];
      s, pos := ReplaceValue(s, pos, value, r);
      Reassociate(done, final, Hidden(rest, r));
      done := done + final;
    }
  }

  /** One turn of the loop: what precedes the new position is final, what follows it is unread. */
  method ReplaceValue(before: string, at: nat, value: nat, r: Rule) returns (s: string, pos: nat)
    requires at < value <= |before|
    ensures pos <= |s| && |s| - pos < |before| - at
    ensures var end := ValueEnd(before, value, r);
      && s[..pos] == before[..at] + (before[at..value] + Mark(end == value, r))
      && s[pos..] == before[end..]
  {
    var end := ScanValue(before, value, r);
    assert before[..value] == before[..at] + before[at..value];
    if end > value {
      s := before[..value] + r.replacement + before[end..];
      pos := value + |r.replacement|;
    } else {
      s := before;
      pos := end;
    }
    assert s[..pos] == before[..value] + Mark(end == value, r);
  }

  lemma RoomForKey(s: string, key: string, i: nat)
    requires OccursAt(s, key, i)
    ensures i + |key| <= |s|
  {
  }

  method ScanValue(s: string, value: nat, r: Rule) returns (end: nat)
    requires value <= |s|
    ensures end == ValueEnd(s, value, r)
  {
    end := value;
    while end < |s| && !Ends(s[end], r)
      invariant value <= end <= |s| && ValueEnd(s, end, r) == ValueEnd(s, value, r)
    {
      end := end + 1;
    }
  }

  // ----- the guarantee

  predicate Borderless(key: string) {
    forall j :: 0 < j < |key| ==> key[j..] != key[..|key| - j]
  }

  /** What the rules in use have in common. */
  ghost predicate Fit(r: Rule) {
    && r.key != "" && Borderless(r.key)
    && r.replacement != "" && r.replacement[|r.replacement| - 1] !in r.key
    && (forall i: nat :: !OccursAt(r.replacement, r.key, i))
    && (forall k :: 0 <= k < |r.replacement| ==> !Ends(r.replacement[k], r))
  }

  function Value(s: string, from: nat, r: Rule): string
    requires from <= |s|
  {
    s[from..ValueEnd(s, from, r)]
  }

  /** Behind the key at `i` stands nothing, or the replacement. */
  ghost predicate TameAt(s: string, r: Rule, i: nat) {
    OccursAt(s, r.key, i) ==> Value(s, i + |r.key|, r) in {"", r.replacement}
  }

  ghost predicate Tame(s: string, r: Rule) {
    forall i: nat :: i <= |s| ==> TameAt(s, r, i)
  }

  lemma TameInSuffix(s: string, r: Rule, drop: nat, i: nat)
    requires drop <= i && drop <= |s|
    ensures TameAt(s, r, i) <==> TameAt(s[drop..], r, i - drop)
  {
    hide ValueEnd;
    OccursInSuffix(s, r.key, drop, i);
    if OccursAt(s, r.key, i) {
      var from := i + |r.key|;
      ValueEndInSuffix(s, drop, from, r);
      assert s[drop..][from - drop..ValueEnd(s, from, r) - drop] == s[from..ValueEnd(s, from, r)];
    }
  }

  /** The rest of the text still begins with its terminator. */
  lemma HiddenKeepsTheHead(s: string, r: Rule)
    requires r.key != ""
    ensures s == "" <==> Hidden(s, r) == ""
    ensures s != "" ==> Hidden(s, r)[0] == s[0]
  {
    hide Locate, ValueEnd;
  }

  /** The key does not occur before, across or inside what the first replacement left behind. */
  lemma OnlyTheFirstKey(s: string, r: Rule, tail: string, i: nat)
    requires Fit(r)
    requires var p := Locate(s, r.key, 0); p < |s| && i != p
    ensures var head := s[..Locate(s, r.key, 0) + |r.key|];
      && (i < |head| + |r.replacement| ==> !OccursAt(head + r.replacement + tail, r.key, i))
      && (i < |head| ==> !OccursAt(head + tail, r.key, i))
  {
    hide Locate;
    var p := Locate(s, r.key, 0);
    var n := |r.key|;
    var head := s[..p + n];
    if i < |head| {
      NotNearTheKey(s, r.key, p, tail, i);
      NotNearTheKey(s, r.key, p, r.replacement + tail, i);
    }
    assert head + (r.replacement + tail) == head + r.replacement + tail;
    if |head| <= i < |head| + |r.replacement| {
      NotInTheMark(r, head, tail, i - |head|);
    }
  }

  lemma NotNearTheKey(s: string, key: string, p: nat, tail: string, i: nat)
    requires key != "" && Borderless(key) && OccursAt(s, key, p) && i != p && i < p + |key|
    requires forall k :: 0 <= k < p ==> !OccursAt(s, key, k)
    ensures !OccursAt(s[..p + |key|] + tail, key, i)
  {
    var head := s[..p + |key|];
    var t := head + tail;
    assert t[..p + |key|] == head;
    assert head[p..] == key;
    hide OccursAt, Borderless;
    if i < p {
      OccursInPrefix(s, t, p + |key|, key, i);
    } else if OccursAt(t, key, i) {
      OverlapIsABorder(t, key, p, i);
    }
  }

  /** Where the key stands at `p` and at `i` within it, it begins as it ends. */
  lemma OverlapIsABorder(t: string, key: string, p: nat, i: nat)
    requires p < i < p + |key| <= |t| && t[p..p + |key|] == key && OccursAt(t, key, i)
    ensures !Borderless(key)
  {
    var n, j := |key|, i - p;
    assert t[i..p + n] == t[p..p + n][j..] == key[j..];
    assert t[i..p + n] == t[i..i + n][..n - j] == key[..n - j];
  }

  lemma NotInTheMark(r: Rule, head: string, tail: string, j: nat)
    requires Fit(r) && j < |r.replacement|
    ensures !OccursAt(head + r.replacement + tail, r.key, |head| + j)
  {
    var n, m := |r.key|, |r.replacement|;
    var t := head + r.replacement + tail;
    if j + n <= m {
      assert t[|head| + j..|head| + j + n] == r.replacement[j..j + n];
      assert !OccursAt(r.replacement, r.key, j);
    } else if |head| + j + n <= |t| {
      assert t[|head| + j..|head| + j + n][m - 1 - j] == r.replacement[m - 1];
    }
  }

  lemma FirstKeyIsTame(s: string, r: Rule, p: nat, mark: string, rest: string)
    requires Fit(r) && OccursAt(s, r.key, p) && mark in {"", r.replacement}
    requires rest != "" ==> Ends(rest[0], r)
    ensures TameAt(s[..p + |r.key|] + mark + rest, r, p)
  {
    hide OccursAt, Borderless;
    var from := p + |r.key|;
    RoomForKey(s, r.key, p);
    var t := s[..from] + mark + rest;
    var end := ValueEnd(t, from, r);
    assert forall k :: 0 <= k < |mark| ==> t[from + k] == mark[k] && !Ends(mark[k], r);
    assert end == from + |mark| by {
      assert rest != "" ==> t[from + |mark|] == rest[0];
      assert forall k :: from <= k < from + |mark| ==> t[k] == mark[k - from];
    }
    assert t[from..end] == mark;
  }

  /** After one pass every key in the text, wherever it stands, has only the mark behind it. */
  lemma {:induction false} EveryValueIsHidden(s: string, r: Rule)
    requires Fit(r)
    ensures Tame(Hidden(s, r), r)
    decreases |s|
  {
    hide Locate, ValueEnd, Fit, TameAt, Borderless;
    assert r.key != "" by {
      KeyOfFit(r);
    }
    var p := Locate(s, r.key, 0);
    var h := Hidden(s, r);
    if p == |s| {
      forall i: nat | i <= |h| ensures TameAt(h, r, i) {
        NoKeyIsTame(s, r, i);
      }
    } else {
      var value := p + |r.key|;
      var end := ValueEnd(s, value, r);
      var rest := Hidden(s[end..], r);
      EveryValueIsHidden(s[end..], r);
      HiddenKeepsTheHead(s[end..], r);
      forall i: nat | i <= |h| ensures TameAt(h, r, i) {
        FirstStepIsTame(s, r, Mark(end == value, r), rest, i);
      }
    }
  }

  lemma FirstStepIsTame(s: string, r: Rule, mark: string, rest: string, i: nat)
    requires r.key != "" && Fit(r) && Locate(s, r.key, 0) < |s| && Tame(rest, r) && mark in {"", r.replacement}
    requires rest != "" ==> Ends(rest[0], r)
    ensures TameAt(s[..Locate(s, r.key, 0) + |r.key|] + mark + rest, r, i)
  {
    hide Locate, TameAt, Fit, OccursAt;
    var p := Locate(s, r.key, 0);
    var value := p + |r.key|;
    RoomForKey(s, r.key, p);
    var h := s[..value] + mark + rest;
    if i == p {
      FirstKeyIsTame(s, r, p, mark, rest);
    } else if i < value + |mark| {
      OnlyTheFirstKey(s, r, rest, i);
      assert s[..value] + "" + rest == s[..value] + rest;
      NotThere(h, r, i);
    } else if i <= |h| {
      assert h[value + |mark|..] == rest;
      TameInSuffix(h, r, value + |mark|, i);
    } else {
      PastTheEnd(h, r, i);
    }
  }

  lemma PastTheEnd(s: string, r: Rule, i: nat)
    requires i > |s|
    ensures TameAt(s, r, i)
  {
  }

  lemma KeyOfFit(r: Rule)
    requires Fit(r)
    ensures r.key != ""
  {
  }

  lemma NotThere(s: string, r: Rule, i: nat)
    requires !OccursAt(s, r.key, i)
    ensures TameAt(s, r, i)
  {
  }

  lemma NoKeyIsTame(s: string, r: Rule, i: nat)
    requires r.key != "" && Locate(s, r.key, 0) == |s|
    ensures TameAt(s, r, i)
  {
    hide Locate;
  }

  /** A tame text is left alone; with EveryValueIsHidden, hiding twice is hiding once. */
  lemma {:induction false} TameIsUntouched(s: string, r: Rule)
    requires r.key != "" && Tame(s, r)
    ensures Hidden(s, r) == s
    decreases |s|
  {
    hide Locate, ValueEnd, TameAt, OccursAt;
    var p := Locate(s, r.key, 0);
    if p < |s| {
      RoomForKey(s, r.key, p);
      var value := p + |r.key|;
      var end := ValueEnd(s, value, r);
      forall i: nat | i <= |s[end..]| ensures TameAt(s[end..], r, i) {
        assert TameAt(s, r, i + end);
        TameInSuffix(s, r, end, i + end);
      }
      TameIsUntouched(s[end..], r);
      TameValueIsItsMark(s, r, p);
      assert s == s[..value] + s[value..end] + s[end..];
    }
  }

  lemma TameValueIsItsMark(s: string, r: Rule, p: nat)
    requires OccursAt(s, r.key, p) && TameAt(s, r, p)
    ensures var value := p + |r.key|;
      var end := ValueEnd(s, value, r);
      s[value..end] == Mark(end == value, r)
  {
  }

  lemma HidingTwice(s: string, r: Rule)
    requires Fit(r)
    ensures Hidden(Hidden(s, r), r) == Hidden(s, r)
  {
    hide Hidden, Tame;
    EveryValueIsHidden(s, r);
    TameIsUntouched(Hidden(s, r), r);
  }

  // ----- the rules in use

  const BLANKS := [' ', '\t', '\n', '\r', ',']
  const HIDDEN_MARK := ['[', 'h', 'i', 'd', 'd', 'e', 'n', ']']
  const IP_MARK := ['[', 'I', 'P', ']']

  /** A key with a letter the mark lacks cannot stand in the mark. */
  lemma FitByLetters(r: Rule, missing: nat)
    requires r.key != "" && Borderless(r.key) && ']' !in r.key
    requires r.terminators in {BLANKS, [',']} && r.replacement in {HIDDEN_MARK, IP_MARK}
    requires missing < |r.key| && r.key[missing] !in r.replacement
    ensures Fit(r)
  {
    hide Borderless;
    forall i: nat ensures !OccursAt(r.replacement, r.key, i) {
      if i + |r.key| <= |r.replacement| {
        assert r.replacement[i..i + |r.key|][missing] == r.replacement[i + missing];
      }
    }
    assert forall k :: 0 <= k < |r.replacement| ==> !Ends(r.replacement[k], r);
  }

  /** The last letter stands nowhere else, so no end of the key is a beginning of it. */
  lemma BorderlessByLastLetter(key: string)
    requires key != "" && key[|key| - 1] !in key[..|key| - 1]
    ensures Borderless(key)
  {
    forall j | 0 < j < |key| ensures key[j..] != key[..|key| - j] {
      assert key[j..][|key| - j - 1] == key[|key| - 1];
      assert key[..|key| - j][|key| - j - 1] == key[..|key| - 1][|key| - j - 1];
    }
  }

  lemma ShortRulesAreFit()
    ensures Fit(Rule("SSID=", BLANKS, HIDDEN_MARK)) && Fit(Rule("PASS=", BLANKS, HIDDEN_MARK))
    ensures Fit(Rule("IP=", BLANKS, IP_MARK)) && Fit(Rule("ip: ", BLANKS, IP_MARK))
    ensures Fit(Rule("mask: ", BLANKS, IP_MARK)) && Fit(Rule("gw: ", BLANKS, IP_MARK))
  {
    hide Fit, Borderless;
    FitByLastLetter("SSID=", HIDDEN_MARK);
    FitByLastLetter("PASS=", HIDDEN_MARK);
    FitByLastLetter("IP=", IP_MARK);
    FitByLastLetter("ip: ", IP_MARK);
    FitByLastLetter("mask: ", IP_MARK);
    FitByLastLetter("gw: ", IP_MARK);
  }

  lemma FitByLastLetter(key: string, mark: string)
    requires key != "" && key[|key| - 1] in {'=', ' '} && key[|key| - 1] !in key[..|key| - 1] && ']' !in key
    requires mark in {HIDDEN_MARK, IP_MARK}
    ensures Fit(Rule(key, BLANKS, mark))
  {
    hide Fit, Borderless;
    BorderlessByLastLetter(key);
    FitByLetters(Rule(key, BLANKS, mark), |key| - 1);
  }

  lemma BorderlessByNextToLastLetter(key: string)
    requires |key| >= 2 && key[0] != key[|key| - 1] && key[|key| - 2] !in key[..|key| - 2]
    ensures Borderless(key)
  {
    var n := |key|;
    forall j | 0 < j < n ensures key[j..] != key[..n - j] {
      if j == n - 1 {
        assert key[j..][0] == key[n - 1] && key[..n - j][0] == key[0];
      } else {
        assert key[j..][n - j - 2] == key[n - 2];
        assert key[..n - j][n - j - 2] == key[..n - 2][n - j - 2];
      }
    }
  }

  /** The rule for "connected with ", whose last letter stands twice. */
  lemma NetworkNameRuleIsFit()
    ensures Fit(Rule("connected with ", [','], HIDDEN_MARK))
  {
    hide Fit, Borderless;
    var key := "connected with ";
    assert key[13] == 'h' && key[14] == ' ' && 'h' !in key[..13];
    BorderlessByNextToLastLetter(key);
    FitByLetters(Rule(key, [','], HIDDEN_MARK), 0);
  }
}
