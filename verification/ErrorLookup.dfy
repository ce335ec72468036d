/** The lookup as it runs: a cursor over the embedded text, and a cache of one answer. */
module ErrorLookup {
  import opened Text
  import opened ErrorTable
  import opened PrinterState
  import opened ReportFold

  /** model_list_matches */
  method ModelListMatches(models: string, token: string) returns (matches: bool)
    ensures matches == ModelMatches(models, token)
  {
    if models == "" || models == "-" || token == "" || token == "UNKNOWN" {
      return false;
    }
    var cursor := 0;
    while cursor < |models|
      invariant cursor <= |models| && (cursor == 0 || models[cursor - 1] == ',')
      invariant forall i: nat :: i < cursor ==> !ItemAt(models, token, i)
      decreases |models| - cursor
    {
      var end := Find(models, ',', cursor);
      OnlyItemAtCursor(models, token, cursor, end);
      if models[cursor..end] == token {
        return true;
      }
      if end == |models| {
        break;
      }
      cursor := end + 1;
    }
    return false;
  }

  lemma OnlyItemAtCursor(models: string, token: string, cursor: nat, end: nat)
    requires cursor < |models| && cursor <= end <= |models| && token != ""
    requires forall k :: cursor <= k < end ==> models[k] != ','
    requires end < |models| ==> models[end] == ','
    requires cursor == 0 || models[cursor - 1] == ','
    ensures ItemAt(models, token, cursor) <==> models[cursor..end] == token
    ensures forall i: nat :: cursor < i <= end ==> !ItemAt(models, token, i)
  {
    assert ',' !in models[cursor..end];
    if models[cursor..end] == token {
      assert cursor + |token| == end;
    }
    if ItemAt(models, token, cursor) {
      var stop := cursor + |token|;
      assert models[cursor..stop] == token;
      assert forall k :: cursor <= k < stop ==> models[k] == token[k - cursor] && models[k] in token;
    }
    OccurrenceBegins(models, token, end);
  }

  lemma OccurrenceBegins(s: string, t: string, i: nat)
    requires t != ""
    ensures OccursAt(s, t, i) ==> i < |s| && s[i] == t[0] && t[0] in t
  {
    if OccursAt(s, t, i) {
      assert s[i..i + |t|][0] == s[i];
    }
  }

  /** What is left of the text behind a cursor, which may stand one past the end. */
  function Rest(text: string, cursor: nat): string {
    if cursor <= |text| then text[cursor..] else ""
  }

  lemma FindInSuffix(text: string, c: char, cursor: nat)
    requires cursor <= |text|
    ensures Find(text[cursor..], c, 0) == Find(text, c, cursor) - cursor
  {
    hide Find;
    var rest := text[cursor..];
    assert forall i :: cursor <= i < |text| ==> text[i] == rest[i - cursor];
    assert forall i :: 0 <= i < |rest| ==> rest[i] == text[i + cursor];
  }

  lemma FirstLineOf(t: string, end: nat)
    requires t != "" && end == Find(t, '\n', 0)
    ensures Table(t) == LineEntries(t[..end]) + Table(Rest(t, end + 1))
  {
    hide LineEntries, Find;
    if end == |t| {
      EmptyTable();
    }
  }

  lemma NextLine(text: string, cursor: nat, end: nat)
    requires cursor < |text| && end == Find(text, '\n', cursor)
    ensures Table(Rest(text, cursor)) == LineEntries(text[cursor..end]) + Table(Rest(text, end + 1))
  {
    hide LineEntries, Find, Table;
    FindInSuffix(text, '\n', cursor);
    var t := text[cursor..];
    FirstLineOf(t, end - cursor);
    assert t[..end - cursor] == text[cursor..end];
    assert Rest(t, end - cursor + 1) == Rest(text, end + 1);
  }

  method Strip(input: string) returns (line: string)
    ensures line == StripEnd(input)
  {
    line := input;
    while line != [] && line[|line| - 1] in {'\r', '\n'}
      invariant StripEnd(line) == StripEnd(input)
      decreases |line|
    {
      line := line[..|line| - 1];
    }
  }

  /** lookup_error_text_uncached */
  method LookupUncached(text: string, signedChar: bool, d: Domain, code: nat, token: string)
    returns (message: string)
    ensures message == Uncached(text, signedChar, d, code, token)
  {
    hide Table, ParseLine, StripEnd, Find, Place, ModelMatches, IsDefault, FormatCode, Marker;
    if code == 0 || text == "" {
      return "";
    }
    var q := QueryFor(d, code, token, signedChar);
    var found := NOTHING;
    var cursor := 0;
    var broken := false;
    assert Rest(text, 0) == text;
    while cursor < |text| && !broken
      invariant cursor <= |text| + 1
      invariant Scan(Table(text), q, NOTHING) ==
                if broken then found else Scan(Table(Rest(text, cursor)), q, found)
      decreases |text| + 1 - cursor, !broken
    {
      var end := Find(text, '\n', cursor);
      NextLine(text, cursor, end);
      ghost var later := Table(Rest(text, end + 1));
      var line := Strip(text[cursor..end]);
      cursor := end + 1;
      var parsed := ParseLine(line);
      if parsed.Invalid? {
        assert [] + later == later;
        continue;
      }
      var entry := parsed.entry;
      ghost var es := [entry] + later;
      assert es[1..] == later;
      var place := Place(entry, q);
      if place < 0 {
        continue;
      }
      if place > 0 {
        broken := true;
      } else {
        found, broken := Collect(found, entry, q);
      }
    }
    assert cursor >= |text| ==> Rest(text, cursor) == "" && Table(Rest(text, cursor)) == [] by {
      EmptyTable();
    }
    message := if found.matched != "" then found.matched
               else if found.default != "" then found.default else found.fallback;
  }

  lemma EmptyTable()
    ensures Table("") == []
  {
  }

  /** The body of the scan for an entry of the queried code. */
  method Collect(before: Found, entry: Entry, q: Query) returns (found: Found, stop: bool)
    requires Place(entry, q) == 0
    ensures forall later: seq<Entry> {:trigger Scan([entry] + later, q, before)} ::
              Scan([entry] + later, q, before) == if stop then found else Scan(later, q, found)
  {
    hide Place, ModelMatches;
    found := before;
    stop := false;
    if found.fallback == "" {
      found := found.(fallback := entry.message);
    }
    if entry.models == "" || entry.models == "-" {
      if found.default == "" {
        found := found.(default := entry.message);
      }
    } else {
      stop := ModelListMatches(entry.models, q.token);
      if stop {
        found := found.(matched := entry.message);
      }
    }
    forall later: seq<Entry> ensures Scan([entry] + later, q, before) == if stop then found else Scan(later, q, found) {
      assert ([entry] + later)[1..] == later;
    }
  }

  // ----- the cache

  datatype Cache = Empty | Held(domain: Domain, code: nat, model: Model, text: string)

  class ErrorTexts {
    const table: string
    const signedChar: bool
    const tokenOf: Model -> string
    var cache: Cache

    ghost predicate Valid()
      reads this
    {
      cache.Held? ==> cache.text == Uncached(table, signedChar, cache.domain, cache.code, tokenOf(cache.model))
    }

    constructor (table: string, signedChar: bool, tokenOf: Model -> string)
      ensures Valid() && this.table == table && this.signedChar == signedChar && this.tokenOf == tokenOf
    {
      this.table := table;
      this.signedChar := signedChar;
      this.tokenOf := tokenOf;
      cache := Empty;
    }

    /** lookup_error_text: whatever was asked before, the answer is that of a fresh scan. */
    method Lookup(d: Domain, code: nat, model: Model) returns (message: string)
      requires Valid()
      modifies this`cache
      ensures Valid()
      ensures message == Uncached(table, signedChar, d, code, tokenOf(model))
      ensures cache == if code == 0 then old(cache) else Held(d, code, model, message)
    {
      hide Table, Scan, QueryFor;
      if code == 0 {
        return "";
      }
      if cache.Held? && cache.domain == d && cache.code == code && cache.model == model {
        return cache.text;
      }
      message := LookupUncached(table, signedChar, d, code, tokenOf(model));
      cache := Held(d, code, model, message);
    }

    /** resolve_primary_hms_detail */
    method PrimaryHmsDetail(codes: seq<nat>, count: int, model: Model) returns (detail: string)
      requires Valid()
      modifies this`cache
      ensures Valid()
      ensures detail == HmsDetail(codes, count, HmsTexts(table, signedChar, tokenOf(model)))
    {
      hide Uncached, GenericHms, GenericCount, IsSuppressed;
      ghost var told := HmsTexts(table, signedChar, tokenOf(model));
      var first := 0;
      for i := 0 to |codes|
        invariant Valid()
        invariant FirstTold(codes[..i], told) == "" && first == FirstDisplayable(codes[..i])
      {
        assert codes[..i + 1] == codes[..i] + [codes[i]];
        FirstToldSnoc(codes[..i], codes[i], told);
        if codes[i] == 0 || IsSuppressed(codes[i]) {
          continue;
        }
        if first == 0 {
          first := codes[i];
        }
        detail := Lookup(DeviceHms, codes[i], model);
        if detail != "" {
          assert codes == codes[..i + 1] + codes[i + 1..];
          FirstToldOfPrefix(codes[..i + 1], codes[i + 1..], told);
          return;
        }
      }
      assert codes[..|codes|] == codes;
      detail := if first != 0 then GenericHms(first) else GenericCount(count);
    }
  }

  // ----- the text shown for a fault

  predicate Displayable(code: nat) {
    code != 0 && !IsSuppressed(code)
  }

  function HmsTexts(table: string, signedChar: bool, token: string): nat -> string {
    (code: nat) => Uncached(table, signedChar, DeviceHms, code, token)
  }

  /** The first text the table has for a code that may be shown. */
  function FirstTold(codes: seq<nat>, told: nat -> string): string {
    if codes == [] then ""
    else if Displayable(codes[0]) && told(codes[0]) != "" then told(codes[0])
    else FirstTold(codes[1..], told)
  }

  function FirstDisplayable(codes: seq<nat>): nat {
    if codes == [] then 0 else if Displayable(codes[0]) then codes[0] else FirstDisplayable(codes[1..])
  }

  lemma {:induction false} FirstToldSnoc(codes: seq<nat>, code: nat, told: nat -> string)
    ensures FirstTold(codes + [code], told) ==
            if FirstTold(codes, told) != "" then FirstTold(codes, told)
            else if Displayable(code) then told(code) else ""
    ensures FirstDisplayable(codes + [code]) ==
            if FirstDisplayable(codes) != 0 then FirstDisplayable(codes) else if Displayable(code) then code else 0
  {
    if codes == [] {
      assert (codes + [code])[1..] == [];
    } else {
      assert (codes + [code])[1..] == codes[1..] + [code];
      FirstToldSnoc(codes[1..], code, told);
    }
  }

  lemma {:induction false} FirstToldOfPrefix(codes: seq<nat>, more: seq<nat>, told: nat -> string)
    requires FirstTold(codes, told) != ""
    ensures FirstTold(codes + more, told) == FirstTold(codes, told)
  {
    assert (codes + more)[1..] == codes[1..] + more;
    if !(Displayable(codes[0]) && told(codes[0]) != "") {
      FirstToldOfPrefix(codes[1..], more, told);
    }
  }

  function GenericHms(code: nat): string {
    if code == 0 then "" else "HMS " + Hex(code, 16)[..8] + "_" + Hex(code, 16)[8..]
  }

  function GenericCount(count: int): string {
    if count <= 0 then "" else "HMS alerts: " + Decimal(count)
  }

  function GenericPrintError(code: int): string {
    var hex := Hex(code % 0x1_0000_0000, 8);
    if code == 0 then "" else "Print error " + hex[..4] + "_" + hex[4..]
  }

  function HmsDetail(codes: seq<nat>, count: int, told: nat -> string): string {
    if FirstTold(codes, told) != "" then FirstTold(codes, told)
    else if FirstDisplayable(codes) != 0 then GenericHms(FirstDisplayable(codes))
    else GenericCount(count)
  }

  /** format_resolved_error_detail */
  method ResolvedErrorDetail(texts: ErrorTexts, printError: int, codes: seq<nat>, count: int, model: Model)
    returns (detail: string)
    requires texts.Valid()
    modifies texts`cache
    ensures texts.Valid()
    ensures var token := texts.tokenOf(model);
      var told := Uncached(texts.table, texts.signedChar, PrintError, printError % 0x1_0000_0000, token);
      detail == if printError == 0 then HmsDetail(codes, count, HmsTexts(texts.table, texts.signedChar, token))
                else if told != "" then told else GenericPrintError(printError)
  {
    hide Uncached, HmsDetail, GenericPrintError;
    if printError != 0 {
      detail := texts.Lookup(PrintError, printError % 0x1_0000_0000, model);
      if detail == "" {
        detail := GenericPrintError(printError);
      }
    } else {
      detail := texts.PrimaryHmsDetail(codes, count, model);
    }
  }
}
