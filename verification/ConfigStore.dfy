/** The profile operations as they run, one stored key at a time. */
module ConfigStoreObject {
  import opened Text
  import opened ProfileStore

  datatype EspErr = Ok | InvalidArg | NotFound

  /** Every slot but `slot` keeps its cells, and every key that is no cell keeps its value. */
  ghost predicate OnlySlotChanged(before: Store, after: Store, slot: nat) {
    forall key: Key :: !(key.Cell? && key.slot == slot) ==> Load(after, key) == Load(before, key)
  }

  ghost predicate OnlyKeyChanged(before: Store, after: Store, key: Key) {
    forall k: Key :: k != key ==> Load(after, k) == Load(before, k)
  }

  /** The rows behind `slot` have moved down by one and the last is blank. */
  ghost predicate Shifted(before: Store, after: Store, slot: nat, count: nat) {
    forall i: nat :: RowAt(after, i) == ShiftedRow(before, slot, count, i)
  }

  function ShiftedRow(before: Store, slot: nat, count: nat, i: nat): Row {
    if slot <= i < count - 1 then RowAt(before, i + 1) else if i == count - 1 then BLANK else RowAt(before, i)
  }

  lemma ShiftIsRemoval(before: Store, after: Store, slot: nat)
    requires slot < CountOf(before) && CountOf(after) == CountOf(before) - 1
    requires Shifted(before, after, slot, CountOf(before))
    ensures View(after).rows == Removed(View(before), slot).rows
    ensures Clean(before) ==> Clean(after)
  {
    hide CountOf, ActiveOf, RowAt;
    var rows := Removed(View(before), slot).rows;
    forall i: nat | i < |rows| ensures View(after).rows[i] == rows[i] {
      assert View(after).rows[i] == RowAt(after, i);
      assert rows[i] == RowAt(before, if i < slot then i else i + 1);
    }
    assert View(after).rows == rows;
    if Clean(before) {
      forall i | CountOf(after) <= i < MAX_PROFILES ensures RowAt(after, i) == BLANK {
        assert i == CountOf(before) - 1 || RowAt(before, i) == BLANK;
      }
    }
  }

  class ConfigStore {
    var kv: Store

    constructor (kv: Store)
      ensures this.kv == kv
    {
      this.kv := kv;
    }

    /** save_string; the write is taken to succeed. */
    method SaveString(key: Key, value: string)
      modifies this
      ensures kv == old(kv)[key := value]
    {
      kv := kv[key := value];
    }

    method LoadCount() returns (count: nat)
      ensures count == CountOf(kv)
    {
      var text := Load(kv, Count);
      if text == "" {
        return 0;
      }
      var parsed := ParseLong(text);
      count := if 0 <= parsed <= MAX_PROFILES then parsed else 0;
    }

    method LoadActive() returns (active: nat)
      ensures active == ActiveOf(kv)
    {
      var text := Load(kv, Active);
      if text == "" {
        return 0;
      }
      var parsed := ParseLong(text);
      active := if 0 <= parsed < MAX_PROFILES then parsed else 0;
    }

    method SaveCount(count: nat)
      requires count <= MAX_PROFILES
      modifies this
      ensures CountOf(kv) == count && OnlyKeyChanged(old(kv), kv, Count)
    {
      hide ParseLong, Decimal;
      ParseLongOfDecimal(count);
      SaveString(Count, Decimal(count));
    }

    /** save_active_printer_index; an index out of range is stored but read back as 0. */
    method SaveActive(index: nat)
      requires index < 256
      modifies this
      ensures ActiveOf(kv) == if index < MAX_PROFILES then index else 0
      ensures OnlyKeyChanged(old(kv), kv, Active)
    {
      hide ParseLong, Decimal;
      ParseLongOfDecimal(index);
      SaveString(Active, Decimal(index));
    }

    method WriteRow(slot: nat, row: Row)
      modifies this
      ensures RowAt(kv, slot) == row && OnlySlotChanged(old(kv), kv, slot)
    {
      SaveString(Cell(slot, Serial), row.serial);
      SaveString(Cell(slot, Host), row.host);
      SaveString(Cell(slot, Access), row.access);
      SaveString(Cell(slot, Name), row.name);
      SaveString(Cell(slot, ModelName), row.model);
      SaveString(Cell(slot, CloudBound), row.cloud);
    }

    /** load_printer_profiles */
    method LoadProfiles() returns (profiles: seq<Listed>)
      ensures profiles == Listing(View(kv).rows)
    {
      hide CountOf, ActiveOf, RowAt;
      var count := LoadCount();
      ghost var rows := View(kv).rows;
      profiles := [];
      for i := 0 to count
        invariant profiles == Listing(rows[..i])
      {
        var row := RowAt(kv, i);
        if row.serial != "" || row.host != "" {
          profiles := profiles + [Listed(i, Decode(row))];
        }
        assert rows[..i + 1][..i] == rows[..i];
      }
      assert rows[..count] == rows;
    }

    /** save_printer_profile */
    method SaveProfile(slot: nat, p: Profile) returns (err: EspErr)
      modifies this
      ensures err == if slot >= MAX_PROFILES then InvalidArg else Ok
      ensures err == InvalidArg ==> kv == old(kv)
      ensures err == Ok ==> View(kv) == SavedOver(View(old(kv)), LeftOver(old(kv), slot), slot, Encode(p))
      ensures err == Ok && Clean(old(kv)) ==> View(kv) == Saved(View(old(kv)), slot, Encode(p))
      ensures Clean(old(kv)) ==> Clean(kv)
      ensures LegacyOf(kv) == LegacyOf(old(kv))
    {
      hide CountOf, ActiveOf, RowAt, Encode, Load;
      if slot >= MAX_PROFILES {
        return InvalidArg;
      }
      ghost var before := kv;
      WriteRow(slot, Encode(p));
      ghost var written := kv;
      SlotFrame(before, written, slot);
      var count := LoadCount();
      if slot >= count {
        SaveCount(slot + 1);
        KeyFrame(written, kv, Count);
      }
      assert View(kv).rows == SavedOver(View(before), LeftOver(before, slot), slot, Encode(p)).rows;
      if Clean(before) {
        CleanSaveLeavesBlanks(before, slot, Encode(p));
      }
      return Ok;
    }

    /** delete_printer_profile */
    method DeleteProfile(slot: nat) returns (err: EspErr)
      modifies this
      ensures err == if slot >= MAX_PROFILES then InvalidArg
                     else if slot >= CountOf(old(kv)) then NotFound else Ok
      ensures err != Ok ==> kv == old(kv)
      ensures err == Ok ==> View(kv) == Removed(View(old(kv)), slot)
      ensures Clean(old(kv)) ==> Clean(kv)
      ensures LegacyOf(kv) == LegacyOf(old(kv))
    {
      hide CountOf, ActiveOf, RowAt, Load;
      if slot >= MAX_PROFILES {
        return InvalidArg;
      }
      var count := LoadCount();
      if slot >= count {
        return NotFound;
      }
      ghost var before := kv;
      ShiftDown(slot, count);
      ghost var shifted := kv;
      SaveCount(count - 1);
      KeyFrame(shifted, kv, Count);
      var active := LoadActive();
      ghost var counted := kv;
      if active == slot {
        SaveActive(0);
        KeyFrame(counted, kv, Active);
      } else if active > slot && active > 0 {
        SaveActive(active - 1);
        KeyFrame(counted, kv, Active);
      }
      ShiftIsRemoval(before, kv, slot);
      return Ok;
    }

    /** The loop of the deletion, and the clearing of the slot it vacates. */
    method ShiftDown(slot: nat, count: nat)
      requires slot < count == CountOf(kv)
      modifies this
      ensures Shifted(old(kv), kv, slot, count)
      ensures CountOf(kv) == CountOf(old(kv)) && ActiveOf(kv) == ActiveOf(old(kv)) && LegacyOf(kv) == LegacyOf(old(kv))
    {
      hide CountOf, ActiveOf, RowAt, Load;
      var i := slot;
      while i + 1 < count
        invariant slot <= i < count
        invariant forall j: nat :: RowAt(kv, j) == RowAt(old(kv), if slot <= j < i then j + 1 else j)
        invariant CountOf(kv) == count && ActiveOf(kv) == ActiveOf(old(kv)) && LegacyOf(kv) == LegacyOf(old(kv))
      {
        ghost var before := kv;
        var next := RowAt(kv, i + 1);
        WriteRow(i, next);
        SlotFrame(before, kv, i);
        i := i + 1;
      }
      ghost var before := kv;
      WriteRow(count - 1, BLANK);
      SlotFrame(before, kv, count - 1);
    }

    /** load_active_printer_profile */
    method LoadActiveProfile() returns (p: Profile)
      ensures p == ActiveProfile(View(kv))
    {
      hide CountOf, ActiveOf, RowAt, Decode;
      var active := LoadActive();
      var profiles := LoadProfiles();
      ghost var rows := View(kv).rows;
      for i := 0 to |profiles|
        invariant forall j :: 0 <= j < i ==> profiles[j].index != active
      {
        if profiles[i].index == active {
          ListingIsTheShownRows(rows, active, profiles[i].profile);
          assert profiles[i] in profiles;
          return profiles[i].profile;
        }
      }
      if active < |rows| {
        ListingIsTheShownRows(rows, active, Decode(rows[active]));
      }
      return Decode(BLANK);
    }

    /** migrate_legacy_printer_profile */
    method Migrate()
      modifies this
      ensures Clean(old(kv)) ==> Clean(kv)
      ensures SettingsOf(kv) == Migrated(SettingsOf(old(kv)))
      ensures var kv0 := old(kv);
        var host, serial, access := Load(kv0, LegacyHost), Load(kv0, LegacySerial), Load(kv0, LegacyAccess);
        CountOf(kv0) == 0 && (host != "" || serial != "" || access != "") ==>
        View(kv) == Printers([Row(serial, host, access, "", "", "0")], 0)
    {
      hide CountOf, ActiveOf, RowAt, Load;
      var count := LoadCount();
      if count > 0 {
        return;
      }
      var host := Load(kv, LegacyHost);
      var serial := Load(kv, LegacySerial);
      var access := Load(kv, LegacyAccess);
      if host == "" && serial == "" && access == "" {
        return;
      }
      ghost var before := kv;
      var _ := SaveProfile(0, Profile(serial, host, access, "", "", false));
      assert View(kv).rows == [Row(serial, host, access, "", "", "0")] by {
        assert View(before).rows == [];
      }
      ghost var saved := kv;
      SaveActive(0);
      KeyFrame(saved, kv, Active);
      ClearLegacy();
      assert View(kv).rows == [Row(serial, host, access, "", "", "0")];
    }

    method ClearLegacy()
      modifies this
      ensures LegacyOf(kv) == Legacy("", "", "", "")
      ensures CountOf(kv) == CountOf(old(kv)) && ActiveOf(kv) == ActiveOf(old(kv))
      ensures forall i: nat :: RowAt(kv, i) == RowAt(old(kv), i)
      ensures Clean(kv) <==> Clean(old(kv))
    {
      hide ParseLong;
      SaveString(LegacyHost, "");
      SaveString(LegacySerial, "");
      SaveString(LegacyAccess, "");
      SaveString(LegacyPort, "");
      assert Load(kv, Count) == Load(old(kv), Count) && Load(kv, Active) == Load(old(kv), Active);
    }
  }

  function LegacyOf(kv: Store): Legacy {
    Legacy(Load(kv, LegacyHost), Load(kv, LegacySerial), Load(kv, LegacyAccess), Load(kv, LegacyPort))
  }

  function SettingsOf(kv: Store): Settings {
    Settings(View(kv), LegacyOf(kv))
  }

  /** Writing the cells of a slot changes no other row and no counter. */
  lemma SlotFrame(before: Store, after: Store, slot: nat)
    requires OnlySlotChanged(before, after, slot)
    ensures forall i: nat :: i != slot ==> RowAt(after, i) == RowAt(before, i)
    ensures CountOf(after) == CountOf(before) && ActiveOf(after) == ActiveOf(before)
    ensures LegacyOf(after) == LegacyOf(before)
  {
    hide Load, ParseLong;
    assert Load(after, Count) == Load(before, Count) && Load(after, Active) == Load(before, Active);
  }

  lemma KeyFrame(before: Store, after: Store, key: Key)
    requires key in {Count, Active} && OnlyKeyChanged(before, after, key)
    ensures forall i: nat :: RowAt(after, i) == RowAt(before, i)
    ensures key == Active ==> CountOf(after) == CountOf(before)
    ensures key == Count ==> ActiveOf(after) == ActiveOf(before)
    ensures LegacyOf(after) == LegacyOf(before)
  {
    hide Load, ParseLong;
    if key == Active {
      assert Load(after, Count) == Load(before, Count);
    } else {
      assert Load(after, Active) == Load(before, Active);
    }
  }
}
