/** The embedded error table: its text form, its order, and what one scan over it collects. */
module ErrorTable {
  import opened Text

  datatype Domain = PrintError | DeviceHms

  datatype Entry = Entry(domain: char, code: string, models: string, message: string)

  datatype OptEntry = Invalid | Parsed(entry: Entry)

  /** `signedChar` is the compiler's reading of a plain char, which the order of domains depends on. */
  datatype Query = Query(marker: char, code: string, token: string, signedChar: bool)

  datatype Found = Found(matched: string, default: string, fallback: string)

  const NOTHING := Found("", "", "")

  // ----- lines and fields

  /** The first `c` at or after `from`, or the length. */
  function Find(s: string, c: char, from: nat): (i: nat)
    requires from <= |s|
    ensures from <= i <= |s|
    ensures forall k :: from <= k < i ==> s[k] != c
    ensures i < |s| ==> s[i] == c
    decreases |s| - from
  {
    if from == |s| || s[from] == c then from else Find(s, c, from + 1)
  }

  function StripEnd(line: string): string {
    if line != [] && line[|line| - 1] in {'\r', '\n'} then StripEnd(line[..|line| - 1]) else line
  }

  function ParseLine(line: string): OptEntry {
    if line == [] || line[0] == '#' then Invalid
    else
      var tab1 := Find(line, '\t', 0);
      if tab1 == |line| then Invalid
      else
        var tab2 := Find(line, '\t', tab1 + 1);
        if tab2 == |line| then Invalid
        else
          var tab3 := Find(line, '\t', tab2 + 1);
          if tab3 == |line| || tab1 == 0 then Invalid
          else Parsed(Entry(line[0], line[tab1 + 1..tab2], line[tab2 + 1..tab3], line[tab3 + 1..]))
  }

  function LineEntries(line: string): seq<Entry> {
    var p := ParseLine(StripEnd(line));
    if p.Parsed? then [p.entry] else []
  }

  /** The entries of the table, one per well-formed line. */
  function Table(text: string): seq<Entry>
    decreases |text|
  {
    if text == [] then []
    else
      var end := Find(text, '\n', 0);
      LineEntries(text[..end]) + (if end < |text| then Table(text[end + 1..]) else [])
  }

  // ----- codes

  function Digit(d: nat): char
    requires d < 16
  {
    (if d < 10 then '0' as int + d else 'A' as int + d - 10) as char
  }

  function Hex(n: nat, width: nat): (s: string)
    ensures |s| == width
  {
    if width == 0 then [] else Hex(n / 16, width - 1) + [Digit(n % 16)]
  }

  function Width(d: Domain): nat {
    if d.DeviceHms? then 16 else 8
  }

  function Marker(d: Domain): char {
    if d.DeviceHms? then 'H' else 'E'
  }

  /** A print error keeps its low 32 bits. */
  function FormatCode(d: Domain, code: nat): string {
    if d.DeviceHms? then Hex(code, 16) else Hex(code % 0x1_0000_0000, 8)
  }

  // ----- models

  predicate IsDefault(models: string) {
    models == "" || models == "-"
  }

  /** `token` is one of the comma-separated items of `models`, at position `i`. */
  predicate ItemAt(models: string, token: string, i: nat) {
    && OccursAt(models, token, i) && ',' !in token
    && (i == 0 || models[i - 1] == ',')
    && (i + |token| == |models| || models[i + |token|] == ',')
  }

  predicate ModelMatches(models: string, token: string) {
    && !IsDefault(models) && token != "" && token != "UNKNOWN"
    && exists i: nat :: i <= |models| && ItemAt(models, token, i)
  }

  // ----- the scan

  /** The value a plain char compares by. */
  function Rank(c: char, signedChar: bool): int {
    if signedChar && 128 <= c as int < 256 then c as int - 256 else c as int
  }

  /** Byte order, shorter first: string_view::compare. */
  function Compare(a: string, b: string): int {
    if a == [] then if b == [] then 0 else -1
    else if b == [] then 1
    else if a[0] != b[0] then if a[0] < b[0] then -1 else 1
    else Compare(a[1..], b[1..])
  }

  /** Below, at or above the queried domain and code. */
  function Place(e: Entry, q: Query): int {
    var d := Rank(e.domain, q.signedChar) - Rank(q.marker, q.signedChar);
    if d != 0 then d else Compare(e.code, q.code)
  }

  function Kept(earlier: string, message: string): string {
    if earlier == "" then message else earlier
  }

  /** The early-breaking loop over the entries. */
  function Scan(es: seq<Entry>, q: Query, f: Found): Found {
    if es == [] || Place(es[0], q) > 0 then f
    else if Place(es[0], q) < 0 then Scan(es[1..], q, f)
    else
      var e := es[0];
      var g := f.(fallback := Kept(f.fallback, e.message));
      if IsDefault(e.models) then Scan(es[1..], q, g.(default := Kept(f.default, e.message)))
      else if ModelMatches(e.models, q.token) then g.(matched := e.message)
      else Scan(es[1..], q, g)
  }

  function Best(f: Found): string {
    if f.matched != "" then f.matched else if f.default != "" then f.default else f.fallback
  }

  function QueryFor(d: Domain, code: nat, token: string, signedChar: bool): Query {
    Query(Marker(d), FormatCode(d, code), token, signedChar)
  }

  function Uncached(text: string, signedChar: bool, d: Domain, code: nat, token: string): string {
    if code == 0 || text == "" then "" else Best(Scan(Table(text), QueryFor(d, code, token, signedChar), NOTHING))
  }

  // ----- what a caller wants from the table, without any scan

  predicate Asked(e: Entry, q: Query) {
    e.domain == q.marker && e.code == q.code
  }

  /** The entries for the queried code. */
  function Group(es: seq<Entry>, q: Query): seq<Entry> {
    if es == [] then []
    else (if Asked(es[0], q) then [es[0]] else []) + Group(es[1..], q)
  }

  /** The first entry for this model, or the length. */
  function FirstMatch(g: seq<Entry>, token: string): (m: nat)
    ensures m <= |g|
    ensures forall k :: 0 <= k < m ==> !ModelMatches(g[k].models, token)
    ensures m < |g| ==> ModelMatches(g[m].models, token)
  {
    if g == [] || ModelMatches(g[0].models, token) then 0 else 1 + FirstMatch(g[1..], token)
  }

  /** The first message that is not empty; `defaultsOnly` skips entries for particular models. */
  function FirstText(g: seq<Entry>, defaultsOnly: bool): (t: string)
    ensures t == "" <==> forall k | 0 <= k < |g| :: g[k].message == "" || (defaultsOnly && !IsDefault(g[k].models))
  {
    if g == [] then ""
    else if g[0].message != "" && (defaultsOnly ==> IsDefault(g[0].models)) then g[0].message
    else FirstText(g[1..], defaultsOnly)
  }

  /** The model's own message; else the default message; else any message. */
  function Answer(g: seq<Entry>, token: string): string {
    var m := FirstMatch(g, token);
    var earlier := g[..m];
    if m < |g| && g[m].message != "" then g[m].message
    else if FirstText(earlier, true) != "" then FirstText(earlier, true)
    else FirstText(earlier, false)
  }

  predicate InOrder(a: Entry, b: Entry, signedChar: bool) {
    var d := Rank(a.domain, signedChar) - Rank(b.domain, signedChar);
    d < 0 || (d == 0 && Compare(a.code, b.code) <= 0)
  }

  predicate Sorted(es: seq<Entry>, signedChar: bool) {
    forall i, j :: 0 <= i < j < |es| ==> InOrder(es[i], es[j], signedChar)
  }
}
