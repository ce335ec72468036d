/** The printer-profile table as rows of a key-value store. */
module ProfileStore {
  import opened Numbers
  import opened Text

  const MAX_PROFILES: nat := 16

  datatype Field = Serial | Host | Access | Name | ModelName | CloudBound

  datatype Key = Count | Active | Cell(slot: nat, field: Field) | LegacyHost | LegacySerial | LegacyAccess | LegacyPort

  type Store = map<Key, string>

  datatype Profile = Profile(serial: string, host: string, access: string, name: string, model: string,
                             cloudBound: bool)

  /** What the six cells of a slot hold. */
  datatype Row = Row(serial: string, host: string, access: string, name: string, model: string, cloud: string)

  const BLANK := Row("", "", "", "", "", "")

  /** load_string: a key never written reads as the empty string. */
  function Load(kv: Store, key: Key): string {
    if key in kv then kv[key] else ""
  }

  // ----- the stored table

  function CountOf(kv: Store): (count: nat)
    ensures count <= MAX_PROFILES
  {
    var parsed := ParseLong(Load(kv, Count));
    if Load(kv, Count) != "" && 0 <= parsed <= MAX_PROFILES then parsed else 0
  }

  function ActiveOf(kv: Store): (active: nat)
    ensures active < MAX_PROFILES
  {
    var parsed := ParseLong(Load(kv, Active));
    if Load(kv, Active) != "" && 0 <= parsed < MAX_PROFILES then parsed else 0
  }

  function RowAt(kv: Store, slot: nat): Row {
    Row(Load(kv, Cell(slot, Serial)), Load(kv, Cell(slot, Host)), Load(kv, Cell(slot, Access)),
        Load(kv, Cell(slot, Name)), Load(kv, Cell(slot, ModelName)), Load(kv, Cell(slot, CloudBound)))
  }

  /** Slots at and above the count hold nothing. */
  ghost predicate Clean(kv: Store) {
    forall slot :: CountOf(kv) <= slot < MAX_PROFILES ==> RowAt(kv, slot) == BLANK
  }

  // ----- the table a user sees

  datatype Printers = Printers(rows: seq<Row>, active: nat)

  function View(kv: Store): Printers {
    Printers(seq(CountOf(kv), (slot: nat) => RowAt(kv, slot)), ActiveOf(kv))
  }

  function Encode(p: Profile): Row {
    Row(p.serial, p.host, p.access, p.name, p.model, if p.cloudBound then "1" else "0")
  }

  function Decode(r: Row): Profile {
    Profile(r.serial, r.host, r.access, r.name, r.model, r.cloud == "1")
  }

  datatype Listed = Listed(index: nat, profile: Profile)

  /** A row with neither serial nor host is not shown. */
  predicate Shown(r: Row) {
    r.serial != "" || r.host != ""
  }

  function Listing(rows: seq<Row>): seq<Listed> {
    if rows == [] then []
    else
      var last := |rows| - 1;
      Listing(rows[..last]) + if Shown(rows[last]) then [Listed(last, Decode(rows[last]))] else []
  }

  /** Writing a slot past the end leaves a gap of blank rows. */
  function Saved(t: Printers, slot: nat, r: Row): Printers {
    t.(rows := if slot < |t.rows| then t.rows[slot := r]
               else t.rows + seq(slot - |t.rows|, _ => BLANK) + [r])
  }

  /** The cells between the count and a slot above it. */
  function LeftOver(kv: Store, slot: nat): seq<Row> {
    var count := CountOf(kv);
    seq(if slot > count then slot - count else 0, (k: nat) => RowAt(kv, count + k))
  }

  /** Writing a slot past the end takes up whatever cells lie in between. */
  function SavedOver(t: Printers, between: seq<Row>, slot: nat, r: Row): Printers {
    t.(rows := if slot < |t.rows| then t.rows[slot := r] else t.rows + between + [r])
  }

  /** In a clean store that is only blank rows. */
  lemma CleanSaveLeavesBlanks(kv: Store, slot: nat, r: Row)
    requires slot < MAX_PROFILES && Clean(kv)
    ensures SavedOver(View(kv), LeftOver(kv, slot), slot, r) == Saved(View(kv), slot, r)
  {
    hide CountOf, ActiveOf, RowAt;
    var count := CountOf(kv);
    if slot >= count {
      assert LeftOver(kv, slot) == seq(slot - count, _ => BLANK);
    }
  }

  function Removed(t: Printers, slot: nat): Printers
    requires slot < |t.rows|
  {
    Printers(t.rows[..slot] + t.rows[slot + 1..],
             if t.active == slot then 0 else if t.active > slot then t.active - 1 else t.active)
  }

  function ActiveProfile(t: Printers): Profile {
    if t.active < |t.rows| && Shown(t.rows[t.active]) then Decode(t.rows[t.active]) else Decode(BLANK)
  }

  // ----- laws

  /** Deleting another printer never changes which printer is active. */
  lemma ActivePrinterSurvivesDeletion(t: Printers, slot: nat)
    requires slot < |t.rows| && t.active < |t.rows|
    ensures var after := Removed(t, slot);
      && (t.active != slot ==> after.active < |after.rows| && after.rows[after.active] == t.rows[t.active]
                               && ActiveProfile(after) == ActiveProfile(t))
      && (t.active == slot ==> after.active == 0)
  {
  }

  function RemovedAll(t: Printers, slots: seq<nat>): Printers {
    if slots == [] then t
    else
      var u := RemovedAll(t, slots[..|slots| - 1]);
      var slot := slots[|slots| - 1];
      if slot < |u.rows| then Removed(u, slot) else u
  }

  /** Over any number of deletions: an active printer that is never itself deleted stays the active one. */
  lemma {:induction false} ActivePrinterSurvivesDeletions(t: Printers, slots: seq<nat>)
    requires t.active < |t.rows|
    requires forall n :: 0 <= n < |slots| ==> slots[n] != RemovedAll(t, slots[..n]).active
    ensures var after := RemovedAll(t, slots);
      after.active < |after.rows| && after.rows[after.active] == t.rows[t.active]
  {
    hide Removed;
    if slots != [] {
      var init, slot := slots[..|slots| - 1], slots[|slots| - 1];
      assert forall n :: 0 <= n < |init| ==> init[..n] == slots[..n];
      ActivePrinterSurvivesDeletions(t, init);
      var u := RemovedAll(t, init);
      assert slot != u.active;
      if slot < |u.rows| {
        ActivePrinterSurvivesDeletion(u, slot);
      }
    }
  }

  /** Deleting two printers gives the same table in either order. */
  lemma DeletionsCommute(t: Printers, first: nat, second: nat)
    requires first < second < |t.rows|
    ensures Removed(Removed(t, first), second - 1) == Removed(Removed(t, second), first)
  {
    var a, b := Removed(Removed(t, first), second - 1).rows, Removed(Removed(t, second), first).rows;
    assert forall k :: 0 <= k < |a| ==>
      a[k] == t.rows[if k < first then k else if k < second - 1 then k + 1 else k + 2] && b[k] == a[k];
    assert a == b;
  }

  /** The rows in front keep their slot, the rows behind move down by one, and nothing else exists. */
  lemma DeletionKeepsEveryOtherRow(t: Printers, slot: nat, other: nat)
    requires slot < |t.rows| && other < |t.rows| && other != slot
    ensures var after := Removed(t, slot).rows;
      |after| == |t.rows| - 1 && after[if other < slot then other else other - 1] == t.rows[other]
  {
  }

  lemma {:induction false} ListingIsTheShownRows(rows: seq<Row>, slot: nat, p: Profile)
    ensures Listed(slot, p) in Listing(rows) <==> slot < |rows| && Shown(rows[slot]) && p == Decode(rows[slot])
  {
    if rows != [] {
      ListingIsTheShownRows(rows[..|rows| - 1], slot, p);
    }
  }

  /** What is saved is what is listed, when it has a serial or a host. */
  lemma SavedProfileIsListed(t: Printers, slot: nat, p: Profile)
    ensures Listed(slot, p) in Listing(Saved(t, slot, Encode(p)).rows) <==> p.serial != "" || p.host != ""
  {
    ListingIsTheShownRows(Saved(t, slot, Encode(p)).rows, slot, p);
  }

  /** Saving one profile leaves the listing of every other slot alone. */
  lemma SavingListsTheOthersUnchanged(t: Printers, slot: nat, r: Row, other: nat, p: Profile)
    requires other != slot
    ensures Listed(other, p) in Listing(Saved(t, slot, r).rows) <==> Listed(other, p) in Listing(t.rows)
  {
    ListingIsTheShownRows(Saved(t, slot, r).rows, other, p);
    ListingIsTheShownRows(t.rows, other, p);
  }

  /** Appending a row and deleting it again gives the table back. */
  lemma DeletingTheNewestUndoesSaving(t: Printers, r: Row)
    requires t.active < |t.rows|
    ensures Removed(Saved(t, |t.rows|, r), |t.rows|) == t
  {
    assert t.rows + [] + [r] == t.rows + [r];
    assert (t.rows + [r])[..|t.rows|] == t.rows;
  }

  /** The count and the active slot are read back as written; a count above 16, a slot that is none of the 16
      and a text that is no number read as 0. */
  lemma CountersRead(kv: Store, n: nat, rest: string)
    requires rest == "" || !IsDigit(rest[0])
    ensures Load(kv, Count) == Decimal(n) + rest ==> CountOf(kv) == if n <= 16 then n else 0
    ensures Load(kv, Active) == Decimal(n) + rest ==> ActiveOf(kv) == if n < 16 then n else 0
    ensures Load(kv, Count) == "" ==> CountOf(kv) == 0
    ensures Load(kv, Active) == "" ==> ActiveOf(kv) == 0
  {
    hide ParseLong, Decimal;
    NumbersRead(n, rest);
  }

  /** Anything that reads as a negative number reads as 0. */
  lemma NegativeCountersRead(kv: Store, n: nat)
    ensures Load(kv, Count) == "-" + Decimal(n) ==> CountOf(kv) == 0
    ensures Load(kv, Active) == "-" + Decimal(n) ==> ActiveOf(kv) == 0
  {
    hide ParseLong, Decimal;
    assert Decimal(n) + "" == Decimal(n);
    NumbersRead(n, "");
  }

  /** What is read of a profile is what was saved of it. */
  lemma ProfileRoundTrip(p: Profile)
    ensures Decode(Encode(p)) == p
    ensures Encode(p).cloud in {"0", "1"}
  {
  }

  /** Saving writes one row, whatever lies in the others: those up to it now count, those behind it still do. */
  lemma SavingWritesOneRow(kv: Store, slot: nat, r: Row, i: nat)
    ensures var rows := SavedOver(View(kv), LeftOver(kv, slot), slot, r).rows;
      && |rows| == (if slot < CountOf(kv) then CountOf(kv) else slot + 1)
      && (i < |rows| ==> rows[i] == if i == slot then r else RowAt(kv, i))
  {
    hide CountOf, ActiveOf, RowAt;
  }

  // ----- legacy settings

  datatype Legacy = Legacy(host: string, serial: string, access: string, port: string)

  datatype Settings = Settings(printers: Printers, legacy: Legacy)

  function Migrated(s: Settings): Settings {
    if |s.printers.rows| > 0 || (s.legacy.host == "" && s.legacy.serial == "" && s.legacy.access == "") then s
    else
      var row := Row(s.legacy.serial, s.legacy.host, s.legacy.access, "", "", "0");
      Settings(Printers([row], 0), Legacy("", "", "", ""))
  }

  /** The old settings become the one profile exactly where there is none yet and they name anything; it is
      then the active one, and they are cleared. */
  lemma MigrationHappensExactly(s: Settings)
    ensures var l, t := s.legacy, Migrated(s);
      && (t != s <==> s.printers.rows == [] && (l.host != "" || l.serial != "" || l.access != ""))
      && (t != s ==>
            (&& Listing(t.printers.rows) ==
                (if l.serial == "" && l.host == "" then []
                 else [Listed(0, Profile(l.serial, l.host, l.access, "", "", false))])
             && |t.printers.rows| == 1 && t.printers.active == 0
             && t.printers.rows[0].access == l.access && t.legacy == Legacy("", "", "", "")))
  {
    if s.printers.rows == [] {
      var row := Row(s.legacy.serial, s.legacy.host, s.legacy.access, "", "", "0");
      assert [row][..0] == [] && Listing([]) == [];
    }
  }

  /** Migrating twice is migrating once, also after any number of profiles have been deleted. */
  lemma MigrationIsIdempotent(s: Settings, later: Printers)
    ensures Migrated(Migrated(s)) == Migrated(s)
    ensures Migrated(s) != s ==> Migrated(Settings(later, Migrated(s).legacy)).printers == later
  {
  }

  // ----- the text of the keys

  function Suffix(f: Field): string {
    match f
    case Serial => "ser"
    case Host => "host"
    case Access => "acc"
    case Name => "name"
    case ModelName => "mdl"
    case CloudBound => "cld"
  }

  function Rest(key: Key): string {
    match key
    case Count => "count"
    case Active => "active"
    case LegacyHost => "host"
    case LegacySerial => "serial"
    case LegacyAccess => "access"
    case LegacyPort => "port"
    case Cell(slot, f) => Decimal(slot) + ['_'] + Suffix(f)
  }

  function KeyText(key: Key): string {
    "prn_" + Rest(key)
  }

  /** The names the table is stored under. */
  lemma KeyNames()
    ensures KeyText(Count) == "prn_count" && KeyText(Active) == "prn_active"
    ensures KeyText(LegacyHost) == "prn_host" && KeyText(LegacySerial) == "prn_serial"
    ensures KeyText(LegacyAccess) == "prn_access" && KeyText(LegacyPort) == "prn_port"
  {
    hide Decimal;
  }

  lemma CellNames(slot: nat)
    ensures KeyText(Cell(slot, Serial)) == "prn_" + Decimal(slot) + "_ser"
    ensures KeyText(Cell(slot, Host)) == "prn_" + Decimal(slot) + "_host"
    ensures KeyText(Cell(slot, Access)) == "prn_" + Decimal(slot) + "_acc"
    ensures KeyText(Cell(slot, Name)) == "prn_" + Decimal(slot) + "_name"
    ensures KeyText(Cell(slot, ModelName)) == "prn_" + Decimal(slot) + "_mdl"
    ensures KeyText(Cell(slot, CloudBound)) == "prn_" + Decimal(slot) + "_cld"
  {
    hide Decimal;
    CellName(slot, Serial);
    CellName(slot, Host);
    CellName(slot, Access);
    CellName(slot, Name);
    CellName(slot, ModelName);
    CellName(slot, CloudBound);
    hide KeyText, Rest;
  }

  lemma CellName(slot: nat, f: Field)
    ensures KeyText(Cell(slot, f)) == "prn_" + Decimal(slot) + ("_" + Suffix(f))
  {
    hide Decimal, Suffix;
    assert Decimal(slot) + ['_'] + Suffix(f) == Decimal(slot) + ("_" + Suffix(f));
    assert "prn_" + (Decimal(slot) + ("_" + Suffix(f))) == "prn_" + Decimal(slot) + ("_" + Suffix(f));
  }

  predicate Digits(s: string) {
    forall k :: 0 <= k < |s| ==> IsDigit(s[k])
  }

  lemma SplitAtMark(a: string, x: string, b: string, y: string)
    requires Digits(a) && Digits(b) && a + ['_'] + x == b + ['_'] + y
    ensures a == b && x == y
  {
    var s := a + ['_'] + x;
    assert s[|a|] == '_' && s[|b|] == '_';
    assert s == b + ['_'] + y;
    assert forall k :: 0 <= k < |a| ==> s[k] == a[k] && IsDigit(s[k]);
    assert forall k :: 0 <= k < |b| ==> s[k] == b[k] && IsDigit(s[k]);
    assert |a| == |b|;
    assert a == s[..|a|] && b == s[..|a|];
    assert x == s[|a| + 1..] && y == s[|a| + 1..];
  }

  lemma SuffixesDiffer(f: Field, g: Field)
    requires Suffix(f) == Suffix(g)
    ensures f == g
  {
    assert Suffix(f)[0] == Suffix(g)[0];
  }

  lemma CellTextsDiffer(i: nat, f: Field, j: nat, g: Field)
    requires Rest(Cell(i, f)) == Rest(Cell(j, g))
    ensures i == j && f == g
  {
    hide Suffix, Decimal;
    SplitAtMark(Decimal(i), Suffix(f), Decimal(j), Suffix(g));
    LeadingNumberOfDecimal(i);
    LeadingNumberOfDecimal(j);
    SuffixesDiffer(f, g);
  }

  lemma ScalarBeginsWithALetter(key: Key)
    ensures Rest(key) != ""
    ensures key.Cell? <==> IsDigit(Rest(key)[0])
  {
    hide Suffix;
    if key.Cell? {
      assert Rest(key)[0] == Decimal(key.slot)[0];
    }
  }

  /** Two keys of the table are never written the same: no cell hides a counter or another cell. */
  lemma KeyTextsDiffer(k: Key, l: Key)
    requires KeyText(k) == KeyText(l)
    ensures k == l
  {
    hide Suffix, Decimal, Rest;
    assert Rest(k) == KeyText(k)[4..] && Rest(l) == KeyText(l)[4..];
    ScalarBeginsWithALetter(k);
    ScalarBeginsWithALetter(l);
    if k.Cell? {
      CellTextsDiffer(k.slot, k.field, l.slot, l.field);
    } else {
      ScalarTextsDiffer(k, l);
    }
  }

  lemma ScalarTextsDiffer(k: Key, l: Key)
    requires !k.Cell? && !l.Cell? && Rest(k) == Rest(l)
    ensures k == l
  {
    assert |Rest(k)| == |Rest(l)| && Rest(k)[0] == Rest(l)[0] && Rest(k)[1] == Rest(l)[1];
  }
}