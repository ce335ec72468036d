/** What the error table's text form, codes and model lists mean, and which text a stored table gives. */
module ErrorTextLaws {
  import opened Text
  import opened ErrorTable
  import opened ErrorTableLaws

  // ----- lines

  /** A line is an entry exactly if it is a row: a domain that begins with no hash sign, three tabs, and a
      message that may hold more of them. */
  lemma RowsExactly(line: string, e: Entry)
    ensures ParseLine(line) == Parsed(e) <==> exists domain :: IsLine(line, domain, e)
  {
    hide Find, ParseLine, IsLine;
    if ParseLine(line) == Parsed(e) {
      FieldsOfLine(line, e, Find(line, '\t', 0));
    }
    if domain :| IsLine(line, domain, e) {
      LineIsParsed(line, domain, e);
    }
  }

  ghost predicate IsLine(line: string, domain: string, e: Entry) {
    && line == Row(domain, e) && domain != "" && domain[0] == e.domain && e.domain != '#'
    && '\t' !in domain && '\t' !in e.code && '\t' !in e.models
  }

  lemma LineIsParsed(line: string, domain: string, e: Entry)
    requires IsLine(line, domain, e)
    ensures ParseLine(line) == Parsed(e)
  {
    hide Find, Row;
    var t1 := |domain|;
    var t2 := t1 + 1 + |e.code|;
    RowFields(domain, e);
    FindIs(line, '\t', 0, t1);
    FindIs(line, '\t', t1 + 1, t2);
    FindIs(line, '\t', t2 + 1, t2 + 1 + |e.models|);
  }

  lemma CutAtTab(line: string, tab: nat, end: nat)
    requires tab < end <= |line| && line[tab] == '\t'
    ensures line[..end] == line[..tab] + ['\t'] + line[tab + 1..end]
  {
  }

  lemma TabsOfLine(line: string, t1: nat, t2: nat, t3: nat)
    requires t1 < t2 < t3 < |line| && line[t1] == '\t' && line[t2] == '\t' && line[t3] == '\t'
    ensures line ==
            line[..t1] + ['\t'] + line[t1 + 1..t2] + ['\t'] + line[t2 + 1..t3] + ['\t'] + line[t3 + 1..]
  {
    CutAtTab(line, t1, t2);
    CutAtTab(line, t2, t3);
    CutAtTab(line, t3, |line|);
    assert line[..|line|] == line;
  }

  lemma NoTabBetween(line: string, from: nat, end: nat)
    requires from <= end <= |line| && forall k :: from <= k < end ==> line[k] != '\t'
    ensures '\t' !in line[from..end]
  {
  }

  lemma TabsOfEntry(line: string, e: Entry, t1: nat) returns (t2: nat, t3: nat)
    requires ParseLine(line) == Parsed(e) && t1 == Find(line, '\t', 0)
    ensures 0 < t1 < t2 < t3 < |line| && line[t1] == '\t' && line[t2] == '\t' && line[t3] == '\t'
    ensures e == Entry(line[0], line[t1 + 1..t2], line[t2 + 1..t3], line[t3 + 1..]) && line[0] != '#'
    ensures '\t' !in line[0..t1] && '\t' !in line[t1 + 1..t2] && '\t' !in line[t2 + 1..t3]
  {
    hide Find;
    t2 := Find(line, '\t', t1 + 1);
    t3 := Find(line, '\t', t2 + 1);
    NoTabBetween(line, 0, t1);
    NoTabBetween(line, t1 + 1, t2);
    NoTabBetween(line, t2 + 1, t3);
  }

  lemma FieldsOfLine(line: string, e: Entry, t1: nat)
    requires ParseLine(line) == Parsed(e) && t1 == Find(line, '\t', 0)
    ensures t1 <= |line| && IsLine(line, line[..t1], e)
  {
    hide Find, ParseLine;
    var t2, t3 := TabsOfEntry(line, e, t1);
    TabsOfLine(line, t1, t2, t3);
    assert line[0..t1] == line[..t1];
  }

  /** Any text up to a line feed is one line; what ends it otherwise does not count. */
  lemma OneLine(line: string, rest: string)
    requires '\n' !in line
    ensures Table(line + ['\n'] + rest) == LineEntries(line) + Table(rest)
    ensures LineEntries(line + ['\r']) == LineEntries(line)
  {
    hide ParseLine;
    var text := line + ['\n'] + rest;
    assert text[0..|line|] == line == text[..|line|];
    FindIs(text, '\n', 0, |line|);
    assert text[|line| + 1..] == rest;
    assert (line + ['\r'])[..|line|] == line;
  }

  // ----- codes

  /** The number a text of capital hexadecimal digits writes. */
  function Number(hex: string): nat {
    if hex == "" then 0
    else
      var c := hex[|hex| - 1];
      16 * Number(hex[..|hex| - 1]) +
      (if '0' <= c <= '9' then c as nat - '0' as nat
       else if 'A' <= c <= 'F' then c as nat - 'A' as nat + 10 else 0)
  }

  predicate IsHexDigit(c: char) {
    '0' <= c <= '9' || 'A' <= c <= 'F'
  }

  lemma {:induction false} HexReadsBack(n: nat, width: nat)
    requires n < Pow16(width)
    ensures |Hex(n, width)| == width && Number(Hex(n, width)) == n
    ensures forall k :: 0 <= k < width ==> IsHexDigit(Hex(n, width)[k])
  {
    if width > 0 {
      HexReadsBack(n / 16, width - 1);
      assert Hex(n, width)[..width - 1] == Hex(n / 16, width - 1);
    }
  }

  /** A query: print errors are asked for under E with 8 digits of their low 32 bits, alerts of the printer
      under H with 16. */
  lemma QueryText(d: Domain, code: nat, token: string, signedChar: bool)
    requires code < Pow16(16)
    ensures var q := QueryFor(d, code, token, signedChar);
      && q.marker == (if d == PrintError then 'E' else 'H') && q.token == token && q.signedChar == signedChar
      && |q.code| == (if d == PrintError then 8 else 16)
      && Number(q.code) == (if d == PrintError then code % 0x1_0000_0000 else code)
      && forall k :: 0 <= k < |q.code| ==> IsHexDigit(q.code[k])
  {
    hide Hex, Pow16, Number;
    LowWord();
    HexReadsBack(code % 0x1_0000_0000, 8);
    HexReadsBack(code, 16);
  }

  lemma LowWord()
    ensures Pow16(8) == 0x1_0000_0000
  {
    assert Pow16(4) == 0x1_0000;
  }

  /** A domain letter compares by its byte; where char is signed, the bytes from 80 on come before all others. */
  lemma LetterOrder(c: char, signedChar: bool)
    ensures c as int < 128 || !signedChar ==> Rank(c, signedChar) == c as int
    ensures 128 <= c as int < 256 && signedChar ==> Rank(c, signedChar) + 256 == c as int
  {
  }

  // ----- model lists

  /** The items of a comma-separated list. */
  function Items(list: string): seq<string> {
    var comma := Find(list, ',', 0);
    if comma == |list| then [list] else [list[..comma]] + Items(list[comma + 1..])
  }

  lemma ItemBehindComma(list: string, token: string, comma: nat, i: nat)
    requires comma < |list| && list[comma] == ',' && comma < i
    ensures ItemAt(list, token, i) <==> ItemAt(list[comma + 1..], token, i - comma - 1)
  {
    var rest, j := list[comma + 1..], i - comma - 1;
    if i + |token| <= |list| {
      assert rest[j..j + |token|] == list[i..i + |token|];
    }
  }

  lemma FirstItem(list: string, token: string, comma: nat)
    requires comma == Find(list, ',', 0)
    ensures ItemAt(list, token, 0) <==> token == list[..comma]
  {
    hide Find;
    if ItemAt(list, token, 0) {
      assert forall k :: 0 <= k < |token| ==> list[k] == list[0..|token|][k] && list[k] in token;
      assert list[0..|token|] == token;
    }
    assert list[0..comma] == list[..comma];
    assert forall k :: 0 <= k < comma ==> list[..comma][k] == list[k];
  }

  lemma NoItemInside(list: string, token: string, comma: nat, i: nat)
    requires comma == Find(list, ',', 0) && 0 < i <= comma
    ensures !ItemAt(list, token, i)
  {
    hide Find;
  }

  lemma {:induction false} ItemsAreAt(list: string, token: string)
    ensures token in Items(list) <==> exists i: nat :: i <= |list| && ItemAt(list, token, i)
    decreases |list|
  {
    hide Find, ItemAt;
    var comma := Find(list, ',', 0);
    FirstItem(list, token, comma);
    forall i: nat | 0 < i <= comma ensures !ItemAt(list, token, i) {
      NoItemInside(list, token, comma, i);
    }
    ItemsSplit(list, token, comma);
    if comma < |list| {
      var rest := list[comma + 1..];
      ItemsAreAt(rest, token);
      if j: nat :| j <= |rest| && ItemAt(rest, token, j) {
        ItemBehindComma(list, token, comma, j + comma + 1);
      }
      if i: nat :| comma < i <= |list| && ItemAt(list, token, i) {
        ItemBehindComma(list, token, comma, i);
        assert i - comma - 1 <= |rest| && ItemAt(rest, token, i - comma - 1);
      }
    }
  }

  lemma ItemsSplit(list: string, token: string, comma: nat)
    requires comma == Find(list, ',', 0)
    ensures token in Items(list) <==> token == list[..comma] || (comma < |list| && token in Items(list[comma + 1..]))
  {
    hide Find;
    if comma == |list| {
      assert list[..comma] == list;
      hide Items;
      LastItem(list, comma);
    } else {
      MoreItems(list, comma);
      hide Items;
    }
  }

  lemma LastItem(list: string, comma: nat)
    requires comma == Find(list, ',', 0) == |list|
    ensures Items(list) == [list]
  {
    hide Find;
  }

  lemma MoreItems(list: string, comma: nat)
    requires comma == Find(list, ',', 0) < |list|
    ensures Items(list) == [list[..comma]] + Items(list[comma + 1..])
  {
    hide Find;
  }

  /** An entry is meant for a model exactly if its list names it; the lists "" and "-" name none, and a model
      that is not known is named by none. */
  lemma NamedExactly(models: string, token: string)
    ensures ModelMatches(models, token) <==>
            models != "" && models != "-" && token != "" && token != "UNKNOWN" && token in Items(models)
    ensures IsDefault(models) <==> models == "" || models == "-"
  {
    hide Items, ItemAt;
    ItemsAreAt(models, token);
  }

  // ----- a stored table, from text to text

  lemma {:induction false} GroupHolds(es: seq<Entry>, q: Query, e: Entry)
    ensures e in Group(es, q) <==> e in es && Asked(e, q)
  {
    hide Asked;
    if es != [] {
      GroupHolds(es[1..], q, e);
    }
  }

  /** A printed table in numeric order, every message there: what is read from it for a code is a message of
      that code, the model's own if it has one and else one for every model if there is one; and there is one
      exactly if the code is listed. */
  lemma ListedCodesAreTold(
    es: seq<Entry>, ds: seq<Domain>, ns: seq<nat>, d: Domain, code: nat, token: string, signedChar: bool)
    requires NumericallySorted(es, ds, ns) && NoEmptyMessage(es)
    requires forall k :: 0 <= k < |es| ==> IsRow([es[k].domain], es[k])
    requires 0 < code < Pow16(Width(d))
    ensures var told := Uncached(Print(es), signedChar, d, code, token);
      var q := QueryFor(d, code, token, signedChar);
      && (told != "" <==> exists k :: 0 <= k < |es| && ds[k] == d && ns[k] == code)
      && (told != "" ==> exists e :: e in es && Asked(e, q) && e.message == told)
      && ((exists e :: e in es && Asked(e, q) && ModelMatches(e.models, token)) ==>
            exists e :: e in es && Asked(e, q) && ModelMatches(e.models, token) && e.message == told)
  {
    var q := QueryFor(d, code, token, signedChar);
    hide Scan, Group, Asked, NumericallySorted, Print, Table, ModelMatches, IsRow, NoEmptyMessage, QueryFor, Best,
         FirstMatch, Sorted;
    SameSize(es, ds, ns);
    TableRoundTrip(es);
    NumericOrderIsTableOrder(es, ds, ns, signedChar);
    QueryKeeps(d, code, token, signedChar);
    FullTableAnswer(es, q);
    AnswerOfGroup(es, q);
    EmptyPrint(es);
    forall k | 0 <= k < |es| ensures Asked(es[k], q) <==> ds[k] == d && ns[k] == code {
      EntryDenotes(es, ds, ns, k);
      QueryMeansItsNumber(es[k], ds[k], ns[k], d, code, token, signedChar);
    }
    forall e ensures e in Group(es, q) <==> e in es && Asked(e, q) {
      GroupHolds(es, q, e);
    }
  }

  lemma QueryKeeps(d: Domain, code: nat, token: string, signedChar: bool)
    ensures var q := QueryFor(d, code, token, signedChar); q.signedChar == signedChar && q.token == token
  {
  }

  lemma SameSize(es: seq<Entry>, ds: seq<Domain>, ns: seq<nat>)
    requires NumericallySorted(es, ds, ns)
    ensures |es| == |ds| == |ns|
  {
  }

  lemma EntryDenotes(es: seq<Entry>, ds: seq<Domain>, ns: seq<nat>, k: nat)
    requires NumericallySorted(es, ds, ns) && k < |es|
    ensures |ds| == |es| == |ns| && Denotes(es[k], ds[k], ns[k])
  {
  }

  lemma EmptyPrint(es: seq<Entry>)
    ensures Print(es) == "" ==> es == []
  {
  }

  lemma AnswerOfGroup(es: seq<Entry>, q: Query)
    requires Sorted(es, q.signedChar) && NoEmptyMessage(es)
    ensures var g, r := Group(es, q), Best(Scan(es, q, NOTHING));
      && (g == [] ==> r == "") && (r != "" <==> g != [])
      && (g != [] ==> exists e :: e in g && e.message == r)
      && ((exists e :: e in g && ModelMatches(e.models, q.token)) ==>
            exists e :: e in g && ModelMatches(e.models, q.token) && e.message == r)
  {
    hide Scan, Group, ModelMatches, Best, IsDefault;
    FullTableAnswer(es, q);
    GroupKeepsMessages(es, q);
    var g := Group(es, q);
    var m := FirstMatch(g, q.token);
    if m < |g| {
      assert g[m] in g;
    } else if i :| FirstDefaultAt(g, i) {
      assert g[i] in g;
    } else if g != [] {
      assert g[0] in g;
    }
  }
}
