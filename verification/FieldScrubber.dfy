/** Hiding the quoted value behind a quoted key, in a line of structured text. */
module FieldScrubber {
  import opened Text
  import opened Scrubbers
  import opened KeyScrubber

  const QUOTE := ['"']

  predicate IsFiller(c: char) {
    c == ' ' || c == ':'
  }

  /** The first character at or after `from` that can be the start of a value, or the length. */
  function SkipFiller(s: string, from: nat): (p: nat)
    requires from <= |s|
    ensures from <= p <= |s|
    ensures forall k :: from <= k < p ==> IsFiller(s[k])
    ensures p < |s| ==> !IsFiller(s[p])
    decreases |s| - from
  {
    if from == |s| || !IsFiller(s[from]) then from else SkipFiller(s, from + 1)
  }

  /** A quoted key: what the filter looks for. */
  function Needle(key: string): string {
    QUOTE + key + QUOTE
  }

  /** A quoted value stands behind `at`: its text begins at `start` and its closing quote is at `stop`. */
  datatype Value = NoValue | Value(start: nat, stop: nat)

  function ValueBehind(s: string, at: nat): (v: Value)
    requires at <= |s|
    ensures v.Value? ==> at < v.start <= v.stop < |s| && s[v.start - 1] == s[v.stop] == '"'
  {
    var p := SkipFiller(s, at);
    if p < |s| && s[p] == '"' then
      var stop := Locate(s, QUOTE, p + 1);
      if stop < |s| then
        QuoteAt(s, stop);
        Value(p + 1, stop)
      else NoValue
    else NoValue
  }

  lemma QuoteAt(s: string, i: nat)
    ensures OccursAt(s, QUOTE, i) <==> i < |s| && s[i] == '"'
  {
    if i < |s| { assert s[i..i + 1] == [s[i]]; }
  }

  /** Where the text before a replaced value ends, and where the search goes on. */
  function KeptUntil(at: nat, v: Value): nat {
    if v.Value? then v.start else at
  }

  function Resumes(at: nat, v: Value): nat {
    if v.Value? then v.stop else at
  }

  function Shown(v: Value): string {
    if v.Value? then HIDDEN_MARK else ""
  }

  /** The text with the value behind every key it comes across replaced, from left to right. */
  function FieldsHidden(s: string, needle: string): string
    requires needle != ""
    decreases |s|
  {
    var p := Locate(s, needle, 0);
    if p == |s| then s
    else
      RoomForKey(s, needle, p);
      var at := p + |needle|;
      var v := ValueBehind(s, at);
      s[..KeptUntil(at, v)] + Shown(v) + FieldsHidden(s[Resumes(at, v)..], needle)
  }

  // ----- one turn

  lemma SkipFillerInSuffix(s: string, drop: nat, from: nat)
    requires drop <= from <= |s|
    ensures SkipFiller(s[drop..], from - drop) == SkipFiller(s, from) - drop
    decreases |s| - from
  {
    hide SkipFiller, IsFiller;
    var p, q := SkipFiller(s, from), SkipFiller(s[drop..], from - drop);
    assert forall k :: from - drop <= k < q ==> s[drop..][k] == s[drop + k];
    assert q < |s[drop..]| ==> s[drop..][q] == s[drop + q];
    assert forall k :: from <= k < p ==> s[k] == s[drop..][k - drop];
    assert p < |s| ==> s[p] == s[drop..][p - drop];
  }

  lemma LocateFromInSuffix(s: string, needle: string, drop: nat, from: nat)
    requires drop <= from <= |s| && needle != ""
    ensures Locate(s[drop..], needle, from - drop) == Locate(s, needle, from) - drop
  {
    hide Locate, OccursAt;
    LocateInSuffix(s, needle, from);
    LocateInSuffix(s[drop..], needle, from - drop);
    assert s[drop..][from - drop..] == s[from..];
  }

  lemma ValueInSuffix(s: string, drop: nat, at: nat)
    requires drop <= at <= |s|
    ensures var v, w := ValueBehind(s, at), ValueBehind(s[drop..], at - drop);
      && KeptUntil(at - drop, w) == KeptUntil(at, v) - drop && Resumes(at - drop, w) == Resumes(at, v) - drop
      && Shown(w) == Shown(v)
  {
    hide Locate, SkipFiller, OccursAt;
    SkipFillerInSuffix(s, drop, at);
    var p := SkipFiller(s, at);
    if p < |s| && s[p] == '"' {
      LocateFromInSuffix(s, QUOTE, drop, p + 1);
    }
  }

  lemma ValueIsBehind(s: string, at: nat)
    requires at <= |s|
    ensures var v := ValueBehind(s, at); at <= KeptUntil(at, v) <= Resumes(at, v) <= |s|
  {
    hide ValueBehind;
  }

  lemma CutInSuffix(s: string, from: nat, k: nat, n: nat)
    requires from <= k <= |s| && from <= n <= |s|
    ensures s[from..][..k - from] == s[from..k] && s[from..][n - from..] == s[n..]
  {
  }

  lemma FieldFirst(t: string, p: nat, needle: string)
    requires needle != "" && p == Locate(t, needle, 0)
    ensures p == |t| ==> FieldsHidden(t, needle) == t
    ensures p < |t| ==>
      && p + |needle| <= |t|
      && var at := p + |needle|; var v := ValueBehind(t, at);
         FieldsHidden(t, needle) == t[..KeptUntil(at, v)] + Shown(v) + FieldsHidden(t[Resumes(at, v)..], needle)
  {
    hide Locate, OccursAt, ValueBehind, Shown;
    if p < |t| {
      RoomForKey(t, needle, p);
    }
  }

  /** Behind `at`, after nothing but blanks and colons, the quotes at `open` and `close` hold a value. */
  ghost predicate Quotes(s: string, at: nat, open: nat, close: nat) {
    && at <= open < close < |s| && s[open] == s[close] == '"'
    && (forall k :: at <= k < open ==> s[k] == ' ' || s[k] == ':') && (forall k :: open < k < close ==> s[k] != '"')
  }

  /** The first key decides: what stands between the next two quotes becomes the mark, if only blanks and
      colons come before them. What is in front of it stays, and what is behind, the closing quote first, is
      treated alike. */
  lemma FirstKeyDecides(s: string, key: string, p: nat, open: nat, close: nat)
    requires OccursAt(s, Needle(key), p) && forall k: nat :: k < p ==> !OccursAt(s, Needle(key), k)
    requires Quotes(s, p + |key| + 2, open, close)
    ensures open < close < |s|
    ensures FieldsHidden(s, Needle(key)) == s[..open + 1] + "[hidden]" + FieldsHidden(s[close..], Needle(key))
  {
    hide *;
    KeyIsLocated(s, key, p);
    QuotedIsValue(s, p + |key| + 2, open, close);
    ValueIsReplaced(s, Needle(key), p, open + 1, close);
  }

  lemma ValueIsReplaced(s: string, needle: string, p: nat, start: nat, stop: nat)
    requires needle != "" && p + |needle| <= |s| && p == Locate(s, needle, 0) < |s|
    requires ValueBehind(s, p + |needle|) == Value(start, stop)
    ensures stop < |s| && start <= stop
    ensures FieldsHidden(s, needle) == s[..start] + "[hidden]" + FieldsHidden(s[stop..], needle)
  {
    hide Locate, OccursAt, FieldsHidden, ValueBehind, HIDDEN_MARK;
    FieldFirst(s, p, needle);
    MarkText();
  }

  lemma MarkText()
    ensures HIDDEN_MARK == "[hidden]"
  {
  }

  /** Behind `at`, after nothing but blanks and colons, stands no quote, or one that is never closed. */
  ghost predicate OpensNothing(s: string, at: nat, q: nat) {
    && at <= q <= |s| && (forall k :: at <= k < q ==> s[k] == ' ' || s[k] == ':')
    && (q == |s| || s[q] !in {' ', ':', '"'} || (s[q] == '"' && forall k :: q < k < |s| ==> s[k] != '"'))
  }

  /** Otherwise the key is passed over. */
  lemma KeyWithoutValueStays(s: string, key: string, p: nat, q: nat)
    requires OccursAt(s, Needle(key), p) && forall k: nat :: k < p ==> !OccursAt(s, Needle(key), k)
    requires OpensNothing(s, p + |key| + 2, q)
    ensures p + |key| + 2 <= |s|
    ensures FieldsHidden(s, Needle(key)) ==
            s[..p + |key| + 2] + FieldsHidden(s[p + |key| + 2..], Needle(key))
  {
    hide *;
    KeyIsLocated(s, key, p);
    OpenIsNoValue(s, p + |key| + 2, q);
    KeyIsPassed(s, Needle(key), p);
  }

  lemma KeyIsPassed(s: string, needle: string, p: nat)
    requires needle != "" && p + |needle| <= |s| && p == Locate(s, needle, 0) < |s|
    requires ValueBehind(s, p + |needle|) == NoValue
    ensures FieldsHidden(s, needle) == s[..p + |needle|] + FieldsHidden(s[p + |needle|..], needle)
  {
    hide Locate, OccursAt, FieldsHidden, ValueBehind;
    FieldFirst(s, p, needle);
    assert s[..p + |needle|] + "" == s[..p + |needle|];
  }

  lemma NeedleIsQuoted(key: string)
    ensures Needle(key) == "\"" + key + "\"" && |Needle(key)| == |key| + 2
  {
  }

  lemma KeyIsLocated(s: string, key: string, p: nat)
    requires OccursAt(s, Needle(key), p) && forall k: nat :: k < p ==> !OccursAt(s, Needle(key), k)
    ensures |Needle(key)| == |key| + 2 && p + |key| + 2 <= |s| && Locate(s, Needle(key), 0) == p
  {
    NeedleIsQuoted(key);
    hide Locate, OccursAt, Needle;
    RoomForKey(s, Needle(key), p);
  }

  lemma FillerEndsAt(s: string, at: nat, q: nat)
    requires at <= q <= |s| && forall k :: at <= k < q ==> s[k] == ' ' || s[k] == ':'
    requires q == |s| || s[q] !in {' ', ':'}
    ensures SkipFiller(s, at) == q
  {
    hide SkipFiller;
  }

  lemma QuotedIsValue(s: string, at: nat, open: nat, close: nat)
    requires Quotes(s, at, open, close)
    ensures at <= open < close < |s| && ValueBehind(s, at) == Value(open + 1, close)
  {
    hide Locate, OccursAt, SkipFiller;
    FillerEndsAt(s, at, open);
    forall k: nat ensures OccursAt(s, QUOTE, k) <==> k < |s| && s[k] == '"' {
      QuoteAt(s, k);
    }
  }

  lemma OpenIsNoValue(s: string, at: nat, q: nat)
    requires OpensNothing(s, at, q)
    ensures at <= |s| && ValueBehind(s, at) == NoValue
  {
    hide Locate, OccursAt, SkipFiller;
    FillerEndsAt(s, at, q);
    forall k: nat ensures OccursAt(s, QUOTE, k) <==> k < |s| && s[k] == '"' {
      QuoteAt(s, k);
    }
  }

  /** One turn of the filter, in terms of the whole line. */
  lemma FieldStep(s: string, from: nat, p: nat, needle: string)
    requires needle != "" && from <= |s| && p == Locate(s, needle, from)
    ensures p == |s| ==> FieldsHidden(s[from..], needle) == s[from..]
    ensures p < |s| ==>
      && p + |needle| <= |s|
      && var at := p + |needle|; var v := ValueBehind(s, at);
         FieldsHidden(s[from..], needle) ==
         s[from..KeptUntil(at, v)] + Shown(v) + FieldsHidden(s[Resumes(at, v)..], needle)
  {
    hide Locate, OccursAt, ValueBehind, FieldsHidden, KeptUntil, Resumes, Shown;
    LocateInSuffix(s, needle, from);
    FieldFirst(s[from..], p - from, needle);
    if p < |s| {
      var at := p + |needle|;
      ValueInSuffix(s, from, at);
      ValueIsBehind(s, at);
      CutInSuffix(s, from, KeptUntil(at, ValueBehind(s, at)), Resumes(at, ValueBehind(s, at)));
    }
  }

  // ----- the mark and the filter before it

  /** A window on either side of the mark is a window of the text; any other window holds a bracket. */
  lemma WindowAtMark(s: string, start: nat, stop: nat, i: nat)
    requires start <= stop <= |s| && i + MAC <= start + 8 + (|s| - stop)
    ensures var w := (s[..start] + HIDDEN_MARK + s[stop..])[i..i + MAC];
      && (i + MAC <= start ==> w == s[i..i + MAC])
      && (i >= start + 8 ==> w == s[i - start - 8 + stop..i - start - 8 + stop + MAC])
      && (start < i + MAC && i <= start ==> '[' in w)
      && (start < i < start + 8 ==> ']' in w)
  {
    var t := s[..start] + HIDDEN_MARK + s[stop..];
    assert forall k :: 0 <= k < start ==> t[k] == s[k];
    assert t[start] == '[' && t[start + 7] == ']';
    assert forall k :: start + 8 <= k < |t| ==> t[k] == s[k - start - 8 + stop];
    var w := t[i..i + MAC];
    if start < i + MAC && i <= start {
      assert w[start - i] == '[';
    } else if start < i < start + 8 {
      assert w[start + 7 - i] == ']';
    }
  }

  /** A mark between two texts joins no address. */
  lemma MarkKeepsNoMac(s: string, start: nat, stop: nat)
    requires start <= stop <= |s| && NoMac(s)
    ensures NoMac(s[..start] + HIDDEN_MARK + s[stop..])
  {
    hide IsMac;
    var t := s[..start] + HIDDEN_MARK + s[stop..];
    assert |t| == start + 8 + (|s| - stop);
    forall i: nat | i < |t| ensures !MacAt(t, i) {
      if i + MAC <= |t| {
        WindowAtMark(s, start, stop, i);
        MacHasNoBrackets(t[i..i + MAC]);
        if i + MAC <= start {
          assert !MacAt(s, i);
        } else if i >= start + 8 {
          assert !MacAt(s, i - start - 8 + stop);
        }
      }
    }
  }

  // ----- the loop

  /** scrub_json_field */
  method ScrubJsonField(input: string, key: string) returns (s: string)
    ensures s == FieldsHidden(input, Needle(key))
    ensures NoMac(input) ==> NoMac(s)
  {
    hide NoMac, Locate, OccursAt, FieldsHidden, ValueBehind, KeptUntil, Resumes, Shown;
    var needle := ['"'] + key + ['"'];
    s := input;
    var pos := 0;
    ghost var done := "";
    assert s[0..] == s;
    while true
      invariant 0 <= pos <= |s| && s[..pos] == done
      invariant NoMac(input) ==> NoMac(s)
      invariant done + FieldsHidden(s[pos..], needle) == FieldsHidden(input, needle)
      decreases |s| - pos
    {
      var p := Locate(s, needle, pos);
      FieldStep(s, pos, p, needle);
      if p == |s| {
        assert s == s[..pos] + s[pos..];
        break;
      }
      ghost var at := p + |needle|;
      ghost var v := ValueBehind(s, at);
      ValueIsBehind(s, at);
      ghost var final, rest := s[pos..KeptUntil(at, v)] + Shown(v), s[Resumes(at, v)..];
      s, pos := ReplaceField(s, pos, p + |needle|);
      Reassociate(done, final, FieldsHidden(rest, needle));
      done := done + final;
    }
  }

  /** One turn of the loop behind a key: what precedes the new position is final, what follows it is unread. */
  method ReplaceField(before: string, from: nat, at: nat) returns (s: string, pos: nat)
    requires from < at <= |before|
    ensures pos <= |s| && |s| - pos < |before| - from
    ensures var v := ValueBehind(before, at);
      && s[..pos] == before[..from] + (before[from..KeptUntil(at, v)] + Shown(v))
      && s[pos..] == before[Resumes(at, v)..]
    ensures NoMac(before) ==> NoMac(s)
  {
    hide NoMac, Locate, OccursAt, SkipFiller, IsFiller;
    s, pos := before, at;
    assert before[..at] == before[..from] + (before[from..at] + "");
    var p := ScanFiller(before, at);
    if p < |s| && s[p] == '"' {
      var start := p + 1;
      var stop := Locate(s, QUOTE, start);
      if stop < |s| {
        if NoMac(s) {
          MarkKeepsNoMac(s, start, stop);
        }
        s := s[..start] + HIDDEN_MARK + s[stop..];
        pos := start + 8;
        assert s[..pos] == before[..from] + (before[from..start] + HIDDEN_MARK);
      }
    }
  }

  method ScanFiller(s: string, from: nat) returns (p: nat)
    requires from <= |s|
    ensures p == SkipFiller(s, from)
  {
    p := from;
    while p < |s| && s[p] in {' ', ':'}
      invariant from <= p <= |s| && SkipFiller(s, p) == SkipFiller(s, from)
    {
      p := p + 1;
    }
  }

  // ----- the guarantee

  lemma FirstOccurrenceStays(s: string, r: string, needle: string, p: nat)
    requires needle != "" && p == Locate(s, needle, 0) < |s| && p + |needle| <= |s|
    requires |r| >= p + |needle| && r[..p + |needle|] == s[..p + |needle|]
    ensures Locate(r, needle, 0) == p
  {
    hide Locate, OccursAt;
    forall i: nat | i <= p ensures OccursAt(r, needle, i) == OccursAt(s, needle, i) {
      OccursInPrefix(s, r, p + |needle|, needle, i);
    }
  }

  /** Up to the end of the first key nothing changes. */
  lemma BeforeFirstValue(s: string, needle: string)
    requires needle != ""
    ensures var p := Locate(s, needle, 0);
      && (p == |s| ==> FieldsHidden(s, needle) == s)
      && (p < |s| ==>
            && p + |needle| <= |s| && p + |needle| <= |FieldsHidden(s, needle)|
            && FieldsHidden(s, needle)[..p + |needle|] == s[..p + |needle|])
  {
    hide Locate, OccursAt, ValueBehind, FieldsHidden, Shown;
    var p := Locate(s, needle, 0);
    FieldFirst(s, p, needle);
    if p < |s| {
      ValueIsBehind(s, p + |needle|);
    }
  }

  lemma NeedleLength(key: string)
    ensures |Needle(key)| == |key| + 2
  {
  }

  lemma NeedleHasQuotes(s: string, key: string, i: nat)
    requires OccursAt(s, Needle(key), i)
    ensures |Needle(key)| == |key| + 2 && i + |key| + 1 < |s| && s[i] == '"' && s[i + |key| + 1] == '"'
  {
    var n := Needle(key);
    assert s[i..i + |n|][0] == n[0] && s[i..i + |n|][|key| + 1] == n[|key| + 1];
  }

  lemma SkipFillerIs(s: string, from: nat, p: nat)
    requires from <= p <= |s| && forall k :: from <= k < p ==> IsFiller(s[k])
    requires p < |s| ==> !IsFiller(s[p])
    ensures SkipFiller(s, from) == p
  {
    hide SkipFiller, IsFiller;
  }

  lemma LocateQuote(s: string, from: nat, p: nat)
    requires from <= p < |s| && s[p] == '"' && forall k :: from <= k < p ==> s[k] != '"'
    ensures Locate(s, QUOTE, from) == p
  {
    hide Locate, OccursAt;
    QuoteAt(s, p);
    QuoteAt(s, Locate(s, QUOTE, from));
  }

  lemma QuoteIsFound(s: string, from: nat, p: nat)
    requires from <= p < |s| && s[p] == '"'
    ensures Locate(s, QUOTE, from) <= p
  {
    hide Locate, OccursAt;
    QuoteAt(s, p);
  }

  /** Where no value follows, none follows after filtering. */
  lemma NoValueStays(t: string, key: string)
    requires ValueBehind(t, 0).NoValue?
    ensures ValueBehind(FieldsHidden(t, Needle(key)), 0).NoValue?
  {
    hide Locate, OccursAt, FieldsHidden, SkipFiller;
    var r, q, f := FieldsHidden(t, Needle(key)), Locate(t, Needle(key), 0), SkipFiller(t, 0);
    BeforeFirstValue(t, Needle(key));
    if q < |t| {
      NeedleHasQuotes(t, key, q);
      if f < |t| && t[f] == '"' {
        QuoteIsFound(t, f + 1, if f < q then q else q + |key| + 1);
      } else {
        assert forall k :: 0 <= k < q + |Needle(key)| ==> r[k] == r[..q + |Needle(key)|][k] == t[k];
        SkipFillerIs(r, 0, f);
      }
    }
  }

  /** A replaced value reads as the mark. */
  lemma MarkIsTheValue(s: string, r: string, at: nat, v: Value, rest: string)
    requires at <= |s| && v == ValueBehind(s, at) && v.Value?
    requires r == s[..v.start] + HIDDEN_MARK + rest && rest != "" && rest[0] == '"'
    ensures ValueBehind(r, at) == Value(v.start, v.start + 8) && r[v.start..v.start + 8] == HIDDEN_MARK
  {
    hide Locate, OccursAt, SkipFiller, IsFiller;
    assert forall k :: 0 <= k < v.start ==> r[k] == s[k];
    assert IsFiller('"') == false;
    SkipFillerIs(r, at, v.start - 1);
    assert r[v.start + 8] == rest[0];
    assert forall k :: 0 <= k < 8 ==> r[v.start + k] == HIDDEN_MARK[k] != '"';
    LocateQuote(r, v.start, v.start + 8);
  }

  /** Keys in use are made of letters and underscores. */
  predicate WordKey(key: string) {
    key != "" && forall k :: 0 <= k < |key| ==> IsAlpha(key[k]) || key[k] == '_'
  }

  /** No key begins on the closing quote of another one. */
  ghost predicate NoChain(s: string, needle: string)
    requires needle != ""
  {
    forall i: nat :: OccursAt(s, needle, i) ==> !OccursAt(s, needle, i + |needle| - 1)
  }

  /** If the key stands at `i` with a value behind it, the value is the mark. */
  predicate HiddenAt(s: string, needle: string, i: nat) {
    OccursAt(s, needle, i) ==>
      var v := ValueBehind(s, i + |needle|);
      v.Value? ==> s[v.start..v.stop] == HIDDEN_MARK
  }

  lemma ChainInSuffix(s: string, needle: string, drop: nat)
    requires needle != "" && drop <= |s| && NoChain(s, needle)
    ensures NoChain(s[drop..], needle)
  {
    hide OccursAt;
    forall i: nat | OccursAt(s[drop..], needle, i) ensures !OccursAt(s[drop..], needle, i + |needle| - 1) {
      OccursInSuffix(s, needle, drop, drop + i);
      OccursInSuffix(s, needle, drop, drop + i + |needle| - 1);
    }
  }

  lemma ValueShifts(s: string, drop: nat, at: nat)
    requires drop <= at <= |s|
    ensures var v, w := ValueBehind(s, at), ValueBehind(s[drop..], at - drop);
      && v.Value? == w.Value?
      && (v.Value? ==> drop <= v.start <= v.stop <= |s| && w == Value(v.start - drop, v.stop - drop))
  {
    hide ValueBehind;
    ValueInSuffix(s, drop, at);
  }

  lemma SliceInSuffix(s: string, drop: nat, a: nat, b: nat)
    requires drop <= a <= b <= |s|
    ensures s[drop..][a - drop..b - drop] == s[a..b]
  {
  }

  lemma HiddenInSuffix(s: string, needle: string, drop: nat, i: nat)
    requires needle != "" && drop <= i && drop <= |s|
    ensures HiddenAt(s, needle, i) <==> HiddenAt(s[drop..], needle, i - drop)
  {
    hide OccursAt, ValueBehind;
    OccursInSuffix(s, needle, drop, i);
    if OccursAt(s, needle, i) {
      RoomForKey(s, needle, i);
      ValueShifts(s, drop, i + |needle|);
      var v := ValueBehind(s, i + |needle|);
      if v.Value? {
        SliceInSuffix(s, drop, v.start, v.stop);
      }
    }
  }

  lemma WordKeyIsPlain(key: string, k: nat)
    requires WordKey(key) && k < |key|
    ensures key[k] != '"' && !IsFiller(key[k]) && key[k] != '['
  {
  }

  lemma KeyBehindQuote(s: string, key: string, i: nat)
    requires WordKey(key) && OccursAt(s, Needle(key), i)
    ensures i + |key| + 1 < |s| && s[i] == '"'
    ensures forall k :: i < k <= i + |key| ==> s[k] != '"' && !IsFiller(s[k]) && s[k] != '['
  {
    NeedleHasQuotes(s, key, i);
    var n := Needle(key);
    forall k | i < k <= i + |key| ensures s[k] != '"' && !IsFiller(s[k]) && s[k] != '[' {
      assert s[i..i + |n|][k - i] == n[k - i] == key[k - i - 1];
      WordKeyIsPlain(key, k - i - 1);
    }
  }

  /** The quotes between the start of a key and its value. */
  lemma QuotesInFront(s: string, key: string, p: nat, v: Value, k: nat)
    requires WordKey(key) && OccursAt(s, Needle(key), p) && p + |key| + 2 <= |s|
    requires v == ValueBehind(s, p + |key| + 2) && v.Value? && p < k < v.start - 1 && s[k] == '"'
    ensures IsFiller(s[k + 1]) || s[k + 1] == '"'
  {
    hide Locate, OccursAt, SkipFiller, Needle, WordKey;
    KeyBehindQuote(s, key, p);
  }

  /** No other key begins between a key and the value behind it, ... */
  lemma NoKeyBeforeValue(s: string, r: string, key: string, p: nat, v: Value, i: nat)
    requires WordKey(key) && OccursAt(s, Needle(key), p) && p + |key| + 2 <= |s|
    requires v == ValueBehind(s, p + |key| + 2) && v.Value? && p < i < v.start - 1
    requires |r| >= v.start && r[..v.start] == s[..v.start]
    ensures !OccursAt(r, Needle(key), i)
  {
    hide OccursAt, ValueBehind, WordKey, IsFiller, Needle;
    if OccursAt(r, Needle(key), i) {
      KeyBehindQuote(r, key, i);
      KeyIsNotEmpty(key);
      SamePrefix(s, r, v.start, i);
      SamePrefix(s, r, v.start, i + 1);
      QuotesInFront(s, key, p, v, i);
    }
  }

  /** ... nor in the mark, its opening quote included. */
  lemma NoKeyInMark(r: string, key: string, start: nat, i: nat)
    requires WordKey(key) && start + 8 <= |r| && r[start..start + 8] == HIDDEN_MARK && start <= i + 1 < start + 9
    ensures !OccursAt(r, Needle(key), i)
  {
    hide OccursAt, WordKey, IsFiller, Needle;
    MarkIsPlain(r, start);
    if OccursAt(r, Needle(key), i) {
      KeyBehindQuote(r, key, i);
      KeyIsNotEmpty(key);
    }
  }

  lemma NoKeyInFront(s: string, r: string, key: string, p: nat, v: Value, i: nat)
    requires WordKey(key) && p == Locate(s, Needle(key), 0) < |s| && p + |key| + 2 <= |s|
    requires v == ValueBehind(s, p + |key| + 2) && v.Value?
    requires |r| >= v.start + 8 && r[..v.start] == s[..v.start] && r[v.start..v.start + 8] == HIDDEN_MARK
    requires i < v.start + 8 && i != p
    ensures !OccursAt(r, Needle(key), i)
  {
    hide Locate, OccursAt, ValueBehind, WordKey, IsFiller, Needle;
    NeedleLength(key);
    if i < p {
      OccursInPrefix(s, r, v.start, Needle(key), i);
    } else if i < v.start - 1 {
      NoKeyBeforeValue(s, r, key, p, v, i);
    } else {
      NoKeyInMark(r, key, v.start, i);
    }
  }

  lemma KeyIsNotEmpty(key: string)
    requires WordKey(key)
    ensures |key| > 0
  {
  }

  lemma SamePrefix(s: string, r: string, k: nat, i: nat)
    requires i < k <= |s| && k <= |r| && r[..k] == s[..k]
    ensures r[i] == s[i]
  {
    assert r[..k][i] == s[..k][i];
  }

  lemma MarkIsPlain(r: string, start: nat)
    requires start + 8 <= |r| && r[start..start + 8] == HIDDEN_MARK
    ensures r[start] == '[' && forall k :: start <= k < start + 8 ==> r[k] != '"'
  {
    assert r[start] == r[start..start + 8][0];
    assert forall k :: start <= k < start + 8 ==> r[k] == r[start..start + 8][k - start];
  }

  lemma ReplacedHead(s: string, r: string, key: string, p: nat, v: Value, i: nat)
    requires WordKey(key) && p == Locate(s, Needle(key), 0) < |s| && p + |key| + 2 <= |s|
    requires v == ValueBehind(s, p + |key| + 2) && v.Value? && r == FieldsHidden(s, Needle(key))
    requires i < v.start + 8
    ensures HiddenAt(r, Needle(key), i)
  {
    hide Locate, OccursAt, ValueBehind, FieldsHidden, WordKey, Needle;
    NeedleLength(key);
    MarkReplaces(s, r, key, p, v);
    if i != p {
      NoKeyInFront(s, r, key, p, v, i);
    }
  }

  lemma MarkReplaces(s: string, r: string, key: string, p: nat, v: Value)
    requires p == Locate(s, Needle(key), 0) < |s| && p + |key| + 2 <= |s|
    requires v == ValueBehind(s, p + |key| + 2) && v.Value? && r == FieldsHidden(s, Needle(key))
    ensures |r| >= v.start + 8 && r[..v.start] == s[..v.start] && r[v.start..v.start + 8] == HIDDEN_MARK
    ensures ValueBehind(r, p + |key| + 2) == Value(v.start, v.start + 8)
    ensures r[v.start + 8..] == FieldsHidden(s[v.stop..], Needle(key))
  {
    hide Locate, OccursAt, ValueBehind, FieldsHidden, Needle;
    NeedleLength(key);
    FieldFirst(s, p, Needle(key));
    FirstIsKept(s[v.stop..], Needle(key));
    MarkIsTheValue(s, r, p + |key| + 2, v, FieldsHidden(s[v.stop..], Needle(key)));
  }

  lemma FirstIsKept(s: string, needle: string)
    requires s != "" && needle != ""
    ensures FieldsHidden(s, needle) != "" && FieldsHidden(s, needle)[0] == s[0]
  {
    hide Locate, OccursAt, FieldsHidden;
    var p := Locate(s, needle, 0);
    BeforeFirstValue(s, needle);
    if p < |s| {
      SamePrefix(s, FieldsHidden(s, needle), p + |needle|, 0);
    }
  }

  /** A key without a value behind it still has none. */
  lemma NothingReplaces(s: string, r: string, key: string, p: nat)
    requires p == Locate(s, Needle(key), 0) < |s| && p + |key| + 2 <= |s|
    requires ValueBehind(s, p + |key| + 2).NoValue? && r == FieldsHidden(s, Needle(key))
    ensures var at := p + |key| + 2;
      && r == s[..at] + FieldsHidden(s[at..], Needle(key)) && ValueBehind(r, at).NoValue?
  {
    hide Locate, OccursAt, ValueBehind, FieldsHidden, Needle;
    NeedleLength(key);
    var at := p + |key| + 2;
    FieldFirst(s, p, Needle(key));
    assert r == s[..at] + FieldsHidden(s[at..], Needle(key));
    ValueInSuffix(s, at, at);
    NoValueStays(s[at..], key);
    assert r[at..] == FieldsHidden(s[at..], Needle(key));
    ValueInSuffix(r, at, at);
  }

  /** Before the closing quote of such a key, no value shows. */
  lemma SkippedHead(s: string, r: string, key: string, p: nat, i: nat)
    requires WordKey(key) && p == Locate(s, Needle(key), 0) < |s| && p + |key| + 2 <= |s| && i < p + |key| + 1
    requires ValueBehind(s, p + |key| + 2).NoValue? && r == FieldsHidden(s, Needle(key))
    ensures HiddenAt(r, Needle(key), i)
  {
    hide Locate, OccursAt, ValueBehind, FieldsHidden, WordKey, Needle;
    NeedleLength(key);
    NothingReplaces(s, r, key, p);
    if i < p {
      OccursInPrefix(s, r, p + |key| + 2, Needle(key), i);
    } else if i > p {
      NoKeyInKey(s, r, key, p, i);
    }
  }

  lemma NoKeyInKey(s: string, r: string, key: string, p: nat, i: nat)
    requires WordKey(key) && OccursAt(s, Needle(key), p) && p < i < p + |key| + 1 <= |s|
    requires p + |key| + 1 <= |r| && r[..p + |key| + 1] == s[..p + |key| + 1]
    ensures !OccursAt(r, Needle(key), i)
  {
    hide OccursAt, WordKey, Needle;
    if OccursAt(r, Needle(key), i) {
      KeyBehindQuote(s, key, p);
      KeyBehindQuote(r, key, i);
      SamePrefix(s, r, p + |key| + 1, i);
    }
  }

  // ----- a key on the closing quote of another one

  /** Two texts that agree past two more quotes have the same value there. */
  lemma SameValue(s: string, r: string, k: nat, at: nat, d: nat, e: nat)
    requires at <= d < e < k <= |s| && k <= |r| && r[..k] == s[..k] && s[d] == s[e] == '"'
    ensures ValueBehind(r, at) == ValueBehind(s, at) && Resumes(at, ValueBehind(s, at)) < k
  {
    hide Locate, OccursAt, SkipFiller;
    var p := SkipFiller(s, at);
    assert p <= d by {
      QuoteIsNoFiller();
    }
    assert forall j :: 0 <= j < k ==> r[j] == r[..k][j] == s[j];
    SkipFillerIs(r, at, p);
    if s[p] == '"' {
      QuoteIsFound(s, p + 1, if p < d then d else e);
      QuoteAt(s, Locate(s, QUOTE, p + 1));
      LocateStops(s, p + 1);
      LocateQuote(r, p + 1, Locate(s, QUOTE, p + 1));
    }
  }

  lemma QuoteIsNoFiller()
    ensures !IsFiller('"')
  {
  }

  /** The first quote has no quote in front of it. */
  lemma LocateStops(s: string, from: nat)
    requires from <= |s|
    ensures forall j :: from <= j < Locate(s, QUOTE, from) ==> s[j] != '"'
  {
    hide Locate, OccursAt;
    forall j | from <= j < Locate(s, QUOTE, from) ensures s[j] != '"' {
      QuoteAt(s, j);
    }
  }

  /** A key that begins on the last character before a cut shows the same after filtering behind it. */
  lemma SharedQuoteStays(s: string, r: string, key: string, at: nat)
    requires WordKey(key) && 0 < at <= |s| && r == s[..at] + FieldsHidden(s[at..], Needle(key))
    ensures HiddenAt(r, Needle(key), at - 1) <==> HiddenAt(s, Needle(key), at - 1)
  {
    hide Locate, OccursAt, ValueBehind, FieldsHidden, WordKey, Needle;
    NeedleLength(key);
    var rest := s[at..];
    var q := Locate(rest, Needle(key), 0);
    BeforeFirstValue(rest, Needle(key));
    if q == |rest| {
      assert r == s;
    } else {
      var k := at + q + |key| + 2;
      AgreeAcross(s, r, at, q + |key| + 2, FieldsHidden(rest, Needle(key)));
      OccursInPrefix(s, r, k, Needle(key), at - 1);
      if OccursAt(s, Needle(key), at - 1) {
        OccursInSuffix(s, Needle(key), at, at + q);
        SharedQuoteValue(s, r, key, at, q);
      }
    }
  }

  lemma AgreeAcross(s: string, r: string, at: nat, n: nat, kept: string)
    requires at <= |s| && n <= |s[at..]| && n <= |kept| && kept[..n] == s[at..][..n] && r == s[..at] + kept
    ensures at + n <= |r| && r[..at + n] == s[..at + n]
  {
    assert s[..at + n] == s[..at] + s[at..][..n];
    assert r[..at + n] == s[..at] + kept[..n];
  }

  lemma SharedQuoteValue(s: string, r: string, key: string, at: nat, q: nat)
    requires WordKey(key) && 0 < at && at + q + |key| + 2 <= |s| && at + q + |key| + 2 <= |r|
    requires r[..at + q + |key| + 2] == s[..at + q + |key| + 2]
    requires OccursAt(s, Needle(key), at - 1) && OccursAt(s, Needle(key), at + q)
    requires OccursAt(r, Needle(key), at - 1)
    ensures HiddenAt(r, Needle(key), at - 1) <==> HiddenAt(s, Needle(key), at - 1)
  {
    hide Locate, OccursAt, ValueBehind, WordKey, Needle, IsFiller, SkipFiller;
    NeedleLength(key);
    KeyIsNotEmpty(key);
    KeyBehindQuote(s, key, at - 1);
    KeyBehindQuote(s, key, at + q);
    NeedleHasQuotes(s, key, at + q);
    var e, k := at + |key| + 1, at + q + |key| + 2;
    if q <= |key| {
      SamePrefix(s, r, k, e);
      PlainIsNoValue(s, e);
      PlainIsNoValue(r, e);
    } else {
      SameValue(s, r, k, e, at + q, k - 1);
      SameSlice(s, r, k, ValueBehind(s, e));
    }
  }

  lemma PlainIsNoValue(s: string, at: nat)
    requires at < |s| && !IsFiller(s[at]) && s[at] != '"'
    ensures ValueBehind(s, at).NoValue?
  {
    SkipFillerIs(s, at, at);
  }

  lemma SameSlice(s: string, r: string, k: nat, v: Value)
    requires k <= |s| && k <= |r| && r[..k] == s[..k] && (v.Value? ==> v.start <= v.stop < k)
    ensures v.Value? ==> r[v.start..v.stop] == s[v.start..v.stop]
  {
    if v.Value? {
      assert r[v.start..v.stop] == r[..k][v.start..v.stop] && s[v.start..v.stop] == s[..k][v.start..v.stop];
    }
  }

  // ----- the law

  /** Going through the line as the filter does: a key without a value behind it is passed by as a whole,
      and the key on its closing quote, if there is one, has a value to show. */
  predicate ChainLeaks(s: string, needle: string)
    requires needle != ""
    decreases |s|
  {
    var p := Locate(s, needle, 0);
    p < |s| &&
    (RoomForKey(s, needle, p);
     var at := p + |needle|;
     var v := ValueBehind(s, at);
     ChainLeaks(s[Resumes(at, v)..], needle) || (v.NoValue? && !HiddenAt(s, needle, at - 1)))
  }

  lemma LeaksUnfolds(s: string, needle: string, p: nat)
    requires needle != "" && p == Locate(s, needle, 0)
    ensures p == |s| ==> !ChainLeaks(s, needle)
    ensures p < |s| ==>
      && p + |needle| <= |s|
      && var at := p + |needle|; var v := ValueBehind(s, at);
         ChainLeaks(s, needle) ==
           (ChainLeaks(s[Resumes(at, v)..], needle) || (v.NoValue? && !HiddenAt(s, needle, at - 1)))
  {
    hide Locate, OccursAt, ValueBehind, HiddenAt;
    if p < |s| {
      RoomForKey(s, needle, p);
    }
  }

  lemma LeaksFirst(s: string, key: string, p: nat)
    requires p == Locate(s, Needle(key), 0)
    ensures p == |s| ==> !ChainLeaks(s, Needle(key))
    ensures p < |s| ==>
      && p + |key| + 2 <= |s|
      && var at := p + |key| + 2; var v := ValueBehind(s, at);
         ChainLeaks(s, Needle(key)) ==
           (ChainLeaks(s[Resumes(at, v)..], Needle(key)) || (v.NoValue? && !HiddenAt(s, Needle(key), at - 1)))
  {
    hide Locate, OccursAt, ValueBehind, HiddenAt, ChainLeaks, Needle;
    NeedleLength(key);
    LeaksUnfolds(s, Needle(key), p);
  }

  /** No occurrence of the key in the text shows a value. */
  ghost predicate AllHidden(s: string, key: string) {
    forall i: nat :: HiddenAt(s, Needle(key), i)
  }

  lemma AllHiddenSplits(r: string, key: string, cut: nat)
    requires cut <= |r|
    ensures AllHidden(r, key) <==> AllHidden(r[cut..], key) && forall i: nat | i < cut :: HiddenAt(r, Needle(key), i)
  {
    hide HiddenAt, Needle;
    NeedleLength(key);
    if AllHidden(r, key) {
      forall j: nat ensures HiddenAt(r[cut..], Needle(key), j) {
        HiddenInSuffix(r, Needle(key), cut, cut + j);
      }
    }
    if AllHidden(r[cut..], key) {
      forall i: nat | cut <= i ensures HiddenAt(r, Needle(key), i) {
        HiddenInSuffix(r, Needle(key), cut, i);
      }
    }
  }

  lemma NothingToHide(s: string, key: string)
    requires Locate(s, Needle(key), 0) == |s|
    ensures AllHidden(s, key)
  {
    hide Locate, ValueBehind;
  }

  lemma ReplacedStep(s: string, r: string, key: string, p: nat, v: Value)
    requires WordKey(key) && p == Locate(s, Needle(key), 0) < |s| && p + |key| + 2 <= |s|
    requires v == ValueBehind(s, p + |key| + 2) && v.Value? && r == FieldsHidden(s, Needle(key))
    ensures AllHidden(r, key) <==> AllHidden(FieldsHidden(s[v.stop..], Needle(key)), key)
  {
    hide Locate, OccursAt, ValueBehind, FieldsHidden, WordKey, Needle, HiddenAt, AllHidden;
    MarkReplaces(s, r, key, p, v);
    AllHiddenSplits(r, key, v.start + 8);
    forall i: nat | i < v.start + 8 ensures HiddenAt(r, Needle(key), i) {
      ReplacedHead(s, r, key, p, v, i);
    }
  }

  lemma SkippedStep(s: string, r: string, key: string, p: nat)
    requires WordKey(key) && p == Locate(s, Needle(key), 0) < |s| && p + |key| + 2 <= |s|
    requires ValueBehind(s, p + |key| + 2).NoValue? && r == FieldsHidden(s, Needle(key))
    ensures var at := p + |key| + 2;
      AllHidden(r, key) <==>
      AllHidden(FieldsHidden(s[at..], Needle(key)), key) && HiddenAt(s, Needle(key), at - 1)
  {
    hide Locate, OccursAt, ValueBehind, FieldsHidden, WordKey, Needle, HiddenAt, AllHidden;
    NeedleLength(key);
    NothingReplaces(s, r, key, p);
    var at := p + |key| + 2;
    assert r[at..] == FieldsHidden(s[at..], Needle(key));
    AllHiddenSplits(r, key, at);
    SharedQuoteStays(s, r, key, at);
    forall i: nat | i < at - 1 ensures HiddenAt(r, Needle(key), i) {
      SkippedHead(s, r, key, p, i);
    }
  }

  /** Every value behind the key is hidden in the filtered text, wherever the key stands there, exactly if
      no key on the closing quote of a passed one shows a value in the line as it came. */
  lemma {:induction false} HiddenExactly(s: string, key: string)
    requires WordKey(key)
    ensures (forall i: nat :: HiddenAt(FieldsHidden(s, Needle(key)), Needle(key), i)) <==> !ChainLeaks(s, Needle(key))
    decreases |s|
  {
    hide Locate, OccursAt, ValueBehind, FieldsHidden, WordKey, Needle, HiddenAt, ChainLeaks;
    NeedleLength(key);
    var r, p := FieldsHidden(s, Needle(key)), Locate(s, Needle(key), 0);
    LeaksFirst(s, key, p);
    assert AllHidden(r, key) <==> !ChainLeaks(s, Needle(key)) by {
      if p == |s| {
        FieldFirst(s, p, Needle(key));
        NothingToHide(s, key);
      } else {
        var v := ValueBehind(s, p + |key| + 2);
        ValueIsBehind(s, p + |key| + 2);
        HiddenExactly(s[Resumes(p + |key| + 2, v)..], key);
        if v.Value? {
          ReplacedStep(s, r, key, p, v);
        } else {
          SkippedStep(s, r, key, p);
        }
      }
    }
  }

  lemma {:induction false} NoChainNoLeak(s: string, key: string)
    requires NoChain(s, Needle(key))
    ensures !ChainLeaks(s, Needle(key))
    decreases |s|
  {
    hide Locate, OccursAt, ValueBehind, Needle, ChainLeaks, NoChain;
    NeedleLength(key);
    var p := Locate(s, Needle(key), 0);
    LeaksFirst(s, key, p);
    if p < |s| {
      var next := Resumes(p + |key| + 2, ValueBehind(s, p + |key| + 2));
      ValueIsBehind(s, p + |key| + 2);
      ChainInSuffix(s, Needle(key), next);
      NoChainNoLeak(s[next..], key);
      NoKeyOnQuote(s, Needle(key), p);
    }
  }

  lemma NoKeyOnQuote(s: string, needle: string, p: nat)
    requires needle != "" && NoChain(s, needle) && OccursAt(s, needle, p)
    ensures HiddenAt(s, needle, p + |needle| - 1)
  {
    hide OccursAt, ValueBehind;
  }

  /** So it is wherever no two keys share a quote. */
  lemma EveryFieldIsHidden(s: string, key: string)
    requires WordKey(key) && NoChain(s, Needle(key))
    ensures forall i: nat :: HiddenAt(FieldsHidden(s, Needle(key)), Needle(key), i)
  {
    hide FieldsHidden, Needle, HiddenAt, ChainLeaks, NoChain, WordKey;
    NoChainNoLeak(s, key);
    HiddenExactly(s, key);
  }

  /** A text without the key is left alone. */
  lemma NoKeyIsUntouched(s: string, key: string)
    requires !Contains(s, Needle(key))
    ensures FieldsHidden(s, Needle(key)) == s
  {
    hide Locate, OccursAt, FieldsHidden, Needle;
    NeedleLength(key);
    FieldFirst(s, Locate(s, Needle(key), 0), Needle(key));
  }

  /** Filtering twice is filtering once. */
  lemma {:induction false} FieldsHiddenTwice(s: string, key: string)
    ensures FieldsHidden(FieldsHidden(s, Needle(key)), Needle(key)) == FieldsHidden(s, Needle(key))
    decreases |s|
  {
    hide Locate, OccursAt, ValueBehind, FieldsHidden, Needle;
    NeedleLength(key);
    var r, p := FieldsHidden(s, Needle(key)), Locate(s, Needle(key), 0);
    FieldFirst(s, p, Needle(key));
    if p < |s| {
      ValueIsBehind(s, p + |key| + 2);
      FieldsHiddenTwice(s[Resumes(p + |key| + 2, ValueBehind(s, p + |key| + 2))..], key);
      BeforeFirstValue(s, Needle(key));
      FirstOccurrenceStays(s, r, Needle(key), p);
      FilteredStep(s, r, key, p);
    }
  }

  lemma FilteredStep(s: string, r: string, key: string, p: nat)
    requires p == Locate(s, Needle(key), 0) < |s| && p + |key| + 2 <= |s| && r == FieldsHidden(s, Needle(key))
    requires Locate(r, Needle(key), 0) == p
    requires var at := p + |key| + 2; var next := Resumes(at, ValueBehind(s, at));
      next <= |s| &&
      var rest := FieldsHidden(s[next..], Needle(key)); FieldsHidden(rest, Needle(key)) == rest
    ensures FieldsHidden(r, Needle(key)) == r
  {
    hide Locate, OccursAt, ValueBehind, FieldsHidden, Needle;
    NeedleLength(key);
    if ValueBehind(s, p + |key| + 2).Value? {
      MarkReplaces(s, r, key, p, ValueBehind(s, p + |key| + 2));
    } else {
      NothingReplaces(s, r, key, p);
      assert r[p + |key| + 2..] == FieldsHidden(s[p + |key| + 2..], Needle(key));
    }
    SecondPass(r, key, p);
  }

  lemma SecondPass(r: string, key: string, p: nat)
    requires p == Locate(r, Needle(key), 0) < |r| && p + |key| + 2 <= |r|
    requires var at := p + |key| + 2; var v := ValueBehind(r, at);
      Resumes(at, v) <= |r| && KeptUntil(at, v) <= Resumes(at, v)
      && r[KeptUntil(at, v)..Resumes(at, v)] == Shown(v)
      && FieldsHidden(r[Resumes(at, v)..], Needle(key)) == r[Resumes(at, v)..]
    ensures FieldsHidden(r, Needle(key)) == r
  {
    hide Locate, OccursAt, ValueBehind, FieldsHidden, Needle, KeptUntil, Resumes, Shown;
    NeedleLength(key);
    FieldFirst(r, p, Needle(key));
    var at, v := p + |key| + 2, ValueBehind(r, p + |key| + 2);
    var k, n := KeptUntil(at, v), Resumes(at, v);
    assert r == r[..k] + r[k..n] + r[n..];
  }

  // ----- a value that stays

  /** A key, a second one that begins on its closing quote, and the value behind that one. */
  function Chained(key: string, value: string): string {
    Needle(key) + (key + ['"', ':', '"'] + value + QUOTE)
  }

  lemma ChainedValue(key: string, value: string)
    requires WordKey(key) && '"' !in value
    ensures var line, at := Chained(key, value), 2 * |key| + 3;
      at <= |line| && ValueBehind(line, at) == Value(at + 2, at + 2 + |value|)
      && line[at + 2..at + 2 + |value|] == value
  {
    hide Locate, OccursAt, SkipFiller;
    var line, at := Chained(key, value), 2 * |key| + 3;
    assert line[at] == ':' && line[at + 1] == '"' && line[at + 2 + |value|] == '"';
    assert forall k :: 0 <= k < |value| ==> line[at + 2 + k] == value[k];
    SkipFillerIs(line, at, at + 1);
    LocateQuote(line, at + 2, at + 2 + |value|);
  }

  /** The second key is not found, and its value is not hidden. */
  lemma ChainedKeyLeaks(key: string, value: string)
    requires WordKey(key) && '"' !in value && value != key
    ensures OccursAt(Chained(key, value), Needle(key), |key| + 1)
    ensures FieldsHidden(Chained(key, value), Needle(key)) == Chained(key, value)
  {
    hide Locate, OccursAt, FieldsHidden, SkipFiller, WordKey, Needle, Chained, IsFiller;
    var line, tail, n := Chained(key, value), key + ['"', ':', '"'] + value + QUOTE, |key| + 2;
    ChainedParts(key, value);
    KeyIsNotEmpty(key);
    WordKeyIsPlain(key, 0);
    TailHasNoKey(key, value);
    NeedleLength(key);
    FieldFirst(tail, |tail|, Needle(key));
    FirstKeyIsFound(line, Needle(key));
    FieldFirst(line, 0, Needle(key));
    SkipFillerIs(line, n, n);
    assert line == line[..n] + "" + tail;
  }

  lemma ShownValue(s: string, needle: string, i: nat, value: string)
    requires OccursAt(s, needle, i) && i + |needle| <= |s| && ValueBehind(s, i + |needle|).Value?
    requires var v := ValueBehind(s, i + |needle|); s[v.start..v.stop] == value != HIDDEN_MARK
    ensures !HiddenAt(s, needle, i)
  {
    hide OccursAt, ValueBehind;
  }

  /** So such a line is one of those where a value shows. */
  lemma ChainedKeyShows(key: string, value: string)
    requires WordKey(key) && '"' !in value && value != key && value != HIDDEN_MARK
    ensures !HiddenAt(FieldsHidden(Chained(key, value), Needle(key)), Needle(key), |key| + 1)
    ensures ChainLeaks(Chained(key, value), Needle(key))
  {
    hide OccursAt, ValueBehind, FieldsHidden, WordKey, Needle, Chained, ChainLeaks, HiddenAt;
    NeedleLength(key);
    ChainedKeyLeaks(key, value);
    ChainedValue(key, value);
    ShownValue(Chained(key, value), Needle(key), |key| + 1, value);
    HiddenExactly(Chained(key, value), key);
  }

  lemma FirstKeyIsFound(s: string, needle: string)
    requires needle != "" && OccursAt(s, needle, 0)
    ensures Locate(s, needle, 0) == 0
  {
  }

  lemma ChainedParts(key: string, value: string)
    requires WordKey(key)
    ensures var line, n := Chained(key, value), |key| + 2;
      && OccursAt(line, Needle(key), 0) && OccursAt(line, Needle(key), |key| + 1)
      && |line| > n && line[n] == key[0] && line[n..] == key + ['"', ':', '"'] + value + QUOTE
  {
    var line, n := Chained(key, value), |key| + 2;
    assert line[0..n] == Needle(key);
    assert line[|key| + 1..|key| + 1 + n] == Needle(key);
  }

  lemma TailHasNoKey(key: string, value: string)
    requires WordKey(key) && '"' !in value && value != key
    ensures var tail := key + ['"', ':', '"'] + value + QUOTE; Locate(tail, Needle(key), 0) == |tail|
  {
    hide Locate, OccursAt;
    var tail := key + ['"', ':', '"'] + value + QUOTE;
    var i := Locate(tail, Needle(key), 0);
    if i < |tail| {
      NoKeyInTail(key, value, i);
    }
  }

  lemma QuotesOfTail(key: string, value: string)
    requires WordKey(key) && '"' !in value
    ensures var tail := key + ['"', ':', '"'] + value + QUOTE;
      && |tail| == |key| + |value| + 4 && tail[|key| + 1] == ':'
      && forall k :: 0 <= k < |tail| && tail[k] == '"' ==> k in {|key|, |key| + 2, |key| + 3 + |value|}
  {
    forall k | 0 <= k < |key| ensures key[k] != '"' {
      WordKeyIsPlain(key, k);
    }
  }

  lemma NoKeyInTail(key: string, value: string, i: nat)
    requires WordKey(key) && '"' !in value && value != key
    ensures !OccursAt(key + ['"', ':', '"'] + value + QUOTE, Needle(key), i)
  {
    hide OccursAt, Needle, WordKey;
    QuotesOfTail(key, value);
    KeyIsNotEmpty(key);
    if OccursAt(key + ['"', ':', '"'] + value + QUOTE, Needle(key), i) {
      KeyBehindQuote(key + ['"', ':', '"'] + value + QUOTE, key, i);
      NeedleHasQuotes(key + ['"', ':', '"'] + value + QUOTE, key, i);
      QuotedValue(key, value);
    }
  }

  lemma QuotedValue(key: string, value: string)
    requires |key| == |value| && OccursAt(key + ['"', ':', '"'] + value + QUOTE, Needle(key), |key| + 2)
    ensures value == key
  {
    var tail, i := key + ['"', ':', '"'] + value + QUOTE, |key| + 2;
    assert tail[i..i + |key| + 2][1..1 + |key|] == Needle(key)[1..1 + |key|] == key;
    assert tail[i + 1..i + 1 + |value|] == value;
  }
}
