/** Why one early-breaking pass over the sorted table finds the right text. */
module ErrorTableLaws {
  import opened ErrorTable

  // ----- order

  lemma {:induction false} CompareZeroIsEqual(a: string, b: string)
    ensures Compare(a, b) == 0 <==> a == b
  {
    if a != [] && b != [] && a[0] == b[0] {
      CompareZeroIsEqual(a[1..], b[1..]);
      assert a == [a[0]] + a[1..] && b == [b[0]] + b[1..];
    }
  }

  lemma PlaceZeroIsAsked(e: Entry, q: Query)
    ensures Place(e, q) == 0 <==> Asked(e, q)
  {
    CompareZeroIsEqual(e.code, q.code);
  }

  /** Nothing after an entry past the query belongs to it. */
  lemma {:induction false} NothingPastTheQuery(es: seq<Entry>, q: Query)
    requires Sorted(es, q.signedChar) && es != [] && Place(es[0], q) > 0
    ensures Group(es, q) == []
    decreases |es|
  {
    PlaceZeroIsAsked(es[0], q);
    if |es| > 1 {
      assert InOrder(es[0], es[1], q.signedChar);
      if Asked(es[1], q) {
        assert false;
      }
      var rest := [es[0]] + es[2..];
      NothingPastTheQuery(rest, q);
      assert es[1..][1..] == es[2..] && rest[1..] == es[2..];
    }
  }

  /** On a sorted table, skipping and breaking lose nothing: the scan sees exactly its group. */
  lemma {:induction false} ScanSeesItsGroup(es: seq<Entry>, q: Query, f: Found)
    requires Sorted(es, q.signedChar)
    ensures Scan(es, q, f) == Scan(Group(es, q), q, f)
  {
    if es != [] {
      var e, rest := es[0], es[1..];
      PlaceZeroIsAsked(e, q);
      if Place(e, q) > 0 {
        NothingPastTheQuery(es, q);
      } else if Place(e, q) < 0 {
        ScanSeesItsGroup(rest, q, f);
        assert Group(es, q) == Group(rest, q);
      } else {
        var g := f.(fallback := Kept(f.fallback, e.message));
        ScanSeesItsGroup(rest, q, g);
        ScanSeesItsGroup(rest, q, g.(default := Kept(f.default, e.message)));
        assert Group(es, q)[1..] == Group(rest, q);
      }
    }
  }

  ghost predicate AllAsked(g: seq<Entry>, q: Query) {
    forall k :: 0 <= k < |g| ==> Asked(g[k], q)
  }

  lemma {:induction false} GroupIsAsked(es: seq<Entry>, q: Query)
    ensures AllAsked(Group(es, q), q)
  {
    if es != [] {
      GroupIsAsked(es[1..], q);
    }
  }

  function Upto(g: seq<Entry>, m: nat): seq<Entry>
    requires m <= |g|
  {
    if m < |g| then g[..m + 1] else g
  }

  lemma {:induction false} ScanOfAGroup(g: seq<Entry>, q: Query, f: Found)
    requires AllAsked(g, q) && f.matched == ""
    ensures var m := FirstMatch(g, q.token);
      Scan(g, q, f) == Found(if m < |g| then g[m].message else "",
                             Kept(f.default, FirstText(g[..m], true)),
                             Kept(f.fallback, FirstText(Upto(g, m), false)))
  {
    hide ModelMatches, IsDefault, Asked, Place;
    if g != [] {
      var e, rest := g[0], g[1..];
      var m := FirstMatch(g, q.token);
      DefaultsNeverMatch(e.models, q.token);
      assert Place(e, q) == 0 by {
        assert Asked(g[0], q);
        PlaceZeroIsAsked(e, q);
      }
      assert AllAsked(rest, q) by {
        assert forall k :: 0 <= k < |rest| ==> rest[k] == g[k + 1];
      }
      var h := f.(fallback := Kept(f.fallback, e.message));
      if IsDefault(e.models) {
        h := h.(default := Kept(f.default, e.message));
      }
      if ModelMatches(e.models, q.token) {
        assert g[..0] == [] && g[..1] == [e] && g[..1][1..] == [];
      } else {
        ScanOfAGroup(rest, q, h);
        assert g[..m][1..] == rest[..m - 1];
        assert Upto(g, m)[1..] == Upto(rest, m - 1);
      }
    }
  }

  lemma DefaultsNeverMatch(models: string, token: string)
    ensures !(IsDefault(models) && ModelMatches(models, token))
  {
  }

  lemma {:induction false} FirstTextSkipsTheEmptyEnd(g: seq<Entry>, e: Entry)
    requires e.message == ""
    ensures FirstText(g + [e], false) == FirstText(g, false)
  {
    if g != [] {
      assert (g + [e])[1..] == g[1..] + [e];
      FirstTextSkipsTheEmptyEnd(g[1..], e);
    } else {
      assert (g + [e])[1..] == [];
    }
  }

  lemma BestOfAGroup(g: seq<Entry>, q: Query)
    requires AllAsked(g, q)
    ensures Best(Scan(g, q, NOTHING)) == Answer(g, q.token)
  {
    hide ModelMatches, IsDefault, Asked, Scan, FirstText, FirstMatch, AllAsked;
    var m := FirstMatch(g, q.token);
    ScanOfAGroup(g, q, NOTHING);
    if m < |g| && g[m].message == "" {
      FirstTextSkipsTheEmptyEnd(g[..m], g[m]);
      assert g[..m] + [g[m]] == g[..m + 1];
    } else if m == |g| {
      assert g[..m] == g;
    }
  }

  /** The whole lookup, for every sorted table and every query. */
  lemma SortedScanAnswers(es: seq<Entry>, q: Query)
    requires Sorted(es, q.signedChar)
    ensures Best(Scan(es, q, NOTHING)) == Answer(Group(es, q), q.token)
  {
    hide Scan, Answer, Best, Group, AllAsked;
    ScanSeesItsGroup(es, q, NOTHING);
    GroupIsAsked(es, q);
    BestOfAGroup(Group(es, q), q);
  }

  // ----- tables without empty messages

  ghost predicate NoEmptyMessage(es: seq<Entry>) {
    forall k :: 0 <= k < |es| ==> es[k].message != ""
  }

  lemma {:induction false} GroupKeepsMessages(es: seq<Entry>, q: Query)
    requires NoEmptyMessage(es)
    ensures NoEmptyMessage(Group(es, q))
  {
    if es != [] {
      GroupKeepsMessages(es[1..], q);
    }
  }

  /** `i` is the first index of `g` whose entry is a default. */
  ghost predicate FirstDefaultAt(g: seq<Entry>, i: int) {
    0 <= i < |g| && IsDefault(g[i].models) && forall k :: 0 <= k < i ==> !IsDefault(g[k].models)
  }

  lemma {:induction false} FirstTextOfFullMessages(g: seq<Entry>, defaultsOnly: bool)
    requires NoEmptyMessage(g)
    ensures !defaultsOnly && g != [] ==> FirstText(g, defaultsOnly) == g[0].message
    ensures defaultsOnly ==> forall i :: FirstDefaultAt(g, i) ==> FirstText(g, defaultsOnly) == g[i].message
  {
    if g != [] && defaultsOnly && !IsDefault(g[0].models) {
      FirstTextOfFullMessages(g[1..], true);
      forall i | FirstDefaultAt(g, i) ensures FirstText(g, true) == g[i].message {
        assert FirstDefaultAt(g[1..], i - 1) by {
          assert forall k :: 0 <= k < i - 1 ==> g[1..][k] == g[k + 1];
        }
      }
    }
  }

  /** With every message present: the first entry for the model, else the first default, else the
      first entry of the code, taken over the whole table. */
  lemma FullTableAnswer(es: seq<Entry>, q: Query)
    requires Sorted(es, q.signedChar) && NoEmptyMessage(es)
    ensures var g, r := Group(es, q), Best(Scan(es, q, NOTHING));
      var m := FirstMatch(g, q.token);
      && (m < |g| ==> r == g[m].message)
      && (m == |g| ==> forall i :: FirstDefaultAt(g, i) ==> r == g[i].message)
      && (m == |g| && (forall i :: !FirstDefaultAt(g, i)) ==> r == if g == [] then "" else g[0].message)
  {
    hide ModelMatches, Scan, Group;
    SortedScanAnswers(es, q);
    GroupKeepsMessages(es, q);
    var g := Group(es, q);
    var m := FirstMatch(g, q.token);
    if m == |g| {
      assert g[..m] == g;
      FirstTextOfFullMessages(g, true);
      FirstTextOfFullMessages(g, false);
      if FirstText(g, true) != "" {
        var i := SomeFirstDefault(g);
      }
    }
  }

  lemma {:induction false} SomeFirstDefault(g: seq<Entry>) returns (i: nat)
    requires FirstText(g, true) != ""
    ensures FirstDefaultAt(g, i)
  {
    if IsDefault(g[0].models) {
      i := 0;
    } else {
      i := SomeFirstDefault(g[1..]);
      i := i + 1;
      assert forall k :: 0 < k < i ==> g[k] == g[1..][k - 1];
    }
  }

  // ----- fixed-width hexadecimal

  function Pow16(w: nat): (p: nat)
    ensures p > 0
  {
    if w == 0 then 1 else 16 * Pow16(w - 1)
  }

  function Sign(x: int): int {
    if x < 0 then -1 else if x == 0 then 0 else 1
  }

  lemma {:induction false} CompareSnoc(a: string, b: string, x: char, y: char)
    requires |a| == |b|
    ensures Compare(a + [x], b + [y]) ==
            if Compare(a, b) != 0 then Compare(a, b) else if x == y then 0 else if x < y then -1 else 1
  {
    if a == [] {
      assert a + [x] == [x] && b + [y] == [y];
    } else {
      assert (a + [x])[1..] == a[1..] + [x] && (b + [y])[1..] == b[1..] + [y];
      CompareSnoc(a[1..], b[1..], x, y);
    }
  }

  /** Upper-case hexadecimal of one width orders as the numbers do. */
  lemma {:induction false} HexOrderIsNumericOrder(m: nat, n: nat, width: nat)
    requires m < Pow16(width) && n < Pow16(width)
    ensures Compare(Hex(m, width), Hex(n, width)) == Sign(m - n)
  {
    if width > 0 {
      HexOrderIsNumericOrder(m / 16, n / 16, width - 1);
      CompareSnoc(Hex(m / 16, width - 1), Hex(n / 16, width - 1), Digit(m % 16), Digit(n % 16));
    }
  }

  /** Entry `e` is the table's line for number `n` of domain `d`. */
  ghost predicate Denotes(e: Entry, d: Domain, n: nat) {
    e.domain == Marker(d) && n < Pow16(Width(d)) && e.code == Hex(n, Width(d))
  }

  ghost predicate Before(d: Domain, m: nat, c: Domain, n: nat) {
    if d == c then m <= n else d.PrintError?
  }

  ghost predicate NumericallySorted(es: seq<Entry>, ds: seq<Domain>, ns: seq<nat>) {
    && |es| == |ds| == |ns|
    && (forall i :: 0 <= i < |es| ==> Denotes(es[i], ds[i], ns[i]))
    && (forall i, j :: 0 <= i < j < |es| ==> Before(ds[i], ns[i], ds[j], ns[j]))
  }

  /** A table in numeric order is in the order the scan relies on, whatever the sign of char. */
  lemma NumericOrderIsTableOrder(es: seq<Entry>, ds: seq<Domain>, ns: seq<nat>, signedChar: bool)
    requires NumericallySorted(es, ds, ns)
    ensures Sorted(es, signedChar)
  {
    hide Hex, Compare, Pow16;
    forall i, j | 0 <= i < j < |es| ensures InOrder(es[i], es[j], signedChar) {
      assert Denotes(es[i], ds[i], ns[i]) && Denotes(es[j], ds[j], ns[j]);
      assert Before(ds[i], ns[i], ds[j], ns[j]);
      if ds[i] == ds[j] {
        HexOrderIsNumericOrder(ns[i], ns[j], Width(ds[i]));
      }
    }
  }

  /** A query for a code in range asks for the entries of exactly that number. */
  lemma QueryMeansItsNumber(e: Entry, d: Domain, n: nat, c: Domain, code: nat, token: string, signedChar: bool)
    requires Denotes(e, d, n) && code < Pow16(Width(c))
    ensures Asked(e, QueryFor(c, code, token, signedChar)) <==> (d == c && n == code)
  {
    hide Hex, Compare;
    assert Pow16(8) == 0x1_0000_0000 by {
      assert Pow16(4) == 0x1_0000;
    }
    assert FormatCode(c, code) == Hex(code, Width(c));
    if d == c {
      HexOrderIsNumericOrder(n, code, Width(c));
      CompareZeroIsEqual(Hex(n, Width(c)), Hex(code, Width(c)));
    }
  }

  // ----- the text form

  predicate IsField(s: string) {
    '\t' !in s && '\n' !in s && '\r' !in s
  }

  predicate IsRow(domain: string, e: Entry) {
    && domain != "" && domain[0] == e.domain && e.domain != '#'
    && IsField(domain) && IsField(e.code) && IsField(e.models) && IsField(e.message)
  }

  function Row(domain: string, e: Entry): string {
    domain + ['\t'] + e.code + ['\t'] + e.models + ['\t'] + e.message
  }

  lemma FindIs(s: string, c: char, from: nat, at: nat)
    requires from <= at <= |s| && (at < |s| ==> s[at] == c)
    requires c !in s[from..at]
    ensures Find(s, c, from) == at
  {
    assert forall k :: from <= k < at ==> s[k] in s[from..at];
  }

  /** The fields of a row lie between its tabs. */
  lemma RowFields(domain: string, e: Entry)
    requires domain != ""
    ensures var line, t1 := Row(domain, e), |domain|;
      var t2 := t1 + 1 + |e.code|;
      var t3 := t2 + 1 + |e.models|;
      && t1 < t2 < t3 < |line| && line[t1] == '\t' && line[t2] == '\t' && line[t3] == '\t'
      && line[0] == domain[0] && line[0..t1] == domain && line[t1 + 1..t2] == e.code
      && line[t2 + 1..t3] == e.models && line[t3 + 1..] == e.message
  {
  }

  /** Writing a row and reading it back gives the row. */
  lemma RowRoundTrip(domain: string, e: Entry)
    requires IsRow(domain, e)
    ensures ParseLine(Row(domain, e)) == Parsed(e) && '\n' !in Row(domain, e)
    ensures StripEnd(Row(domain, e)) == Row(domain, e)
  {
    hide Find, Row, StripEnd;
    RowFields(domain, e);
    RowEndsCleanly(domain, e);
    var line := Row(domain, e);
    var t1 := |domain|;
    var t2 := t1 + 1 + |e.code|;
    FindIs(line, '\t', 0, t1);
    FindIs(line, '\t', t1 + 1, t2);
    FindIs(line, '\t', t2 + 1, t2 + 1 + |e.models|);
  }

  lemma RowEndsCleanly(domain: string, e: Entry)
    requires IsRow(domain, e)
    ensures '\n' !in Row(domain, e) && StripEnd(Row(domain, e)) == Row(domain, e)
  {
    hide Find, ParseLine;
    var line := Row(domain, e);
    if |e.message| > 0 {
      assert line[|line| - 1] == e.message[|e.message| - 1];
    }
  }

  lemma FirstLine(domain: string, e: Entry, rest: string)
    requires IsRow(domain, e)
    ensures Table(Row(domain, e) + ['\n'] + rest) == [e] + Table(rest)
  {
    hide Find, ParseLine, StripEnd;
    RowRoundTrip(domain, e);
    var text := Row(domain, e) + ['\n'] + rest;
    var end := |Row(domain, e)|;
    assert text[0..end] == Row(domain, e) == text[..end];
    assert text[end] == '\n' && text != [];
    FindIs(text, '\n', 0, end);
    assert text[end + 1..] == rest;
  }

  function Print(es: seq<Entry>): string {
    if es == [] then "" else Row([es[0].domain], es[0]) + ['\n'] + Print(es[1..])
  }

  /** Printing a table and reading it back is the identity. */
  lemma {:induction false} TableRoundTrip(es: seq<Entry>)
    requires forall k :: 0 <= k < |es| ==> IsRow([es[k].domain], es[k])
    ensures Table(Print(es)) == es
  {
    if es != [] {
      TableRoundTrip(es[1..]);
      FirstLine([es[0].domain], es[0], Print(es[1..]));
    }
  }

  // ----- the mark at the start of the shipped table

  /** The shipped file begins with the bytes EF BB BF: what was meant as a comment is a row, of the
      domain EF. Where char is signed the row is skipped; where it is unsigned it comes after every
      domain, so the scan stops at once and no code is ever found. */
  lemma MarkedHeaderDecidesTheLookup(domain: string, header: Entry, rest: string,
                                     d: Domain, code: nat, token: string)
    requires IsRow(domain, header) && header.domain as int == 0xEF
    ensures var text := Row(domain, header) + ['\n'] + rest;
      && (rest != "" ==> Uncached(text, true, d, code, token) == Uncached(rest, true, d, code, token))
      && Uncached(text, false, d, code, token) == ""
  {
    hide Find, ParseLine, StripEnd, Hex, ModelMatches, IsRow, Table, Scan;
    FirstLine(domain, header, rest);
    SkipOrStop(header, Table(rest), QueryFor(d, code, token, true));
    SkipOrStop(header, Table(rest), QueryFor(d, code, token, false));
  }

  lemma SkipOrStop(header: Entry, es: seq<Entry>, q: Query)
    requires header.domain as int == 0xEF && q.marker in {'E', 'H'}
    ensures Scan([header] + es, q, NOTHING) == if q.signedChar then Scan(es, q, NOTHING) else NOTHING
  {
    assert ([header] + es)[1..] == es;
  }
}
