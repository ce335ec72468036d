/** The AMS part of a report handler, as it rewrites the table in place: loops over the arrays of the
    report, then, in the cloud client, over the table. */
module AmsReport {
  import opened ReportFold
  import opened AmsTable
  import opened AmsLaws

  class TrayTable {
    var now: int
    var tar: int
    var count: nat
    var units: seq<Unit>

    ghost predicate Valid()
      reads this
    {
      Shaped(Ams(count, units))
    }

    ghost function View(): TrayState
      reads this
    {
      TrayState(now, tar, Ams(count, units))
    }

    constructor ()
      ensures Valid() && View() == CLEARED
    {
      now, tar, count, units := -1, -1, 0, EMPTY.units;
      new;
      ClearedIsRight();
    }

    /** clear_live_telemetry, for the fields of the table. */
    method ClearTelemetry()
      modifies this
      ensures Valid() && View() == CLEARED
    {
      now, tar, count, units := -1, -1, 0, EMPTY.units;
      ClearedIsRight();
    }

    /** The loop over a "tray" array. */
    method WriteTrays(u: nat, items: seq<TrayItem>, c: Client)
      requires u < |units|
      modifies this`units
      ensures units == old(units)[u := old(units)[u].(trays := TraysAfter(old(units)[u].trays, items, u, c, now))]
    {
      hide Written, IdOf;
      ghost var before := units[u].trays;
      for k := 0 to |items|
        invariant |units| == |old(units)|
        invariant units == old(units)[u := old(units)[u].(trays := TraysAfter(before, items[..k], u, c, now))]
      {
        assert items[..k + 1][..k] == items[..k];
        var id := IdOf(items[k].id, k, c);
        if id < 0 || id >= |units[u].trays| {
          continue;
        }
        var tray := Written(units[u].trays[id], items[k], GlobalIndex(u, id), c, now);
        units := units[u := units[u].(trays := units[u].trays[id := tray])];
      }
      assert items[..|items|] == items;
    }

    /** The loop over the "ams" array. */
    method WriteUnits(items: seq<UnitItem>, c: Client)
      requires Valid()
      modifies this`units, this`count
      ensures Valid() && Ams(count, units) == UnitsAfter(old(Ams(count, units)), items, c, now)
    {
      hide Shaped, TraysAfter, ClimateAfter, IdOf;
      ghost var before := Ams(count, units);
      ShapedSize(before);
      var unitCount: nat := count;
      for k := 0 to |items|
        invariant |units| == MAX_UNITS && count == before.count
        invariant Ams(unitCount, units) == UnitsAfter(before, items[..k], c, now)
      {
        assert items[..k + 1][..k] == items[..k];
        var id := IdOf(items[k].id, k, c);
        if id < 0 || id >= MAX_UNITS {
          continue;
        }
        if id + 1 > unitCount {
          unitCount := id + 1;
        }
        ghost var was := units;
        units := units[id := Unit(true, ClimateAfter(units[id].climate, items[k]), units[id].trays)];
        if items[k].trays.TrayArray? {
          WriteTrays(id, items[k].trays.items, c);
        }
        assert units == was[id := UnitAfter(was[id], items[k], id, c, now)];
      }
      assert items[..|items|] == items;
      count := unitCount;
      UnitsStayShaped(before, items, c, now);
    }

    /** The marking pass: every tray of every counted unit. */
    method MarkTrays()
      requires Valid()
      modifies this`units
      ensures Valid() && Ams(count, units) == Marked(old(Ams(count, units)), now)
    {
      hide Shaped, MarkedTrays;
      ghost var before := Ams(count, units);
      ShapedSize(before);
      var u := 0;
      while u < count && u < MAX_UNITS
        invariant u <= count && u <= MAX_UNITS && |units| == MAX_UNITS
        invariant forall v :: 0 <= v < MAX_UNITS ==>
          units[v] == if v < u then MarkedUnit(before.units[v], v, now) else before.units[v]
      {
        MarkOneUnit(u);
        u := u + 1;
      }
      MarkingStaysShaped(before, now);
      assert units == MarkedUnits(before, now);
    }

    method MarkOneUnit(u: nat)
      requires u < |units|
      modifies this`units
      ensures units == old(units)[u := MarkedUnit(old(units)[u], u, now)]
    {
      hide MarkedTray;
      ghost var before := units[u].trays;
      var trays := units[u].trays;
      for t := 0 to |trays|
        invariant units == old(units) && |trays| == |before|
        invariant forall s :: 0 <= s < |trays| ==>
          trays[s] == if s < t then MarkedTray(before[s], u, s, now) else before[s]
      {
        var active := trays[t].present && now == GlobalIndex(u, t);
        MarkedTrayIs(trays[t], u, t, now);
        trays := trays[t := trays[t].(active := active)];
      }
      units := units[u := units[u].(trays := trays)];
      assert trays == MarkedTrays(before, u, now);
    }

    /** The AMS part of handle_report_payload in either client. */
    method HandleReport(r: OptAmsObject, c: Client)
      requires Valid()
      modifies this
      ensures Valid() && View() == Next(old(View()), r, c)
    {
      hide Shaped, UnitsAfter, Marked;
      if r.NoAmsObject? {
        return;
      }
      var o := r.o;
      now, tar := OrElse(o.now, now), OrElse(o.tar, tar);
      if o.snow >= 0 && o.snow != now {
        now := o.snow;
      }
      if o.units.UnitArray? {
        WriteUnits(o.units.items, c);
      }
      if c.Cloud? {
        MarkTrays();
      }
    }
  }

  lemma ShapedSize(a: Ams)
    requires Shaped(a)
    ensures |a.units| == MAX_UNITS && a.count <= MAX_UNITS
    ensures forall u :: 0 <= u < MAX_UNITS ==> |a.units[u].trays| == MAX_TRAYS
  {
    Shapes(a);
  }

  lemma MarkedTrayIs(tray: Tray, u: nat, t: nat, now: int)
    ensures MarkedTray(tray, u, t, now) == tray.(active := tray.present && now == GlobalIndex(u, t))
  {
  }

  /** extract_extruder_snow_tray_now: only the first entry of the main extruder is believed. */
  method ExtractSnow(infos: seq<Extruder>) returns (snow: int)
    ensures forall k :: 0 <= k < |infos| && infos[k].id == 0 && (forall j :: 0 <= j < k ==> infos[j].id != 0) ==>
              snow == if infos[k].snow.Given? then DecodeSnow(infos[k].snow.value) else -1
    ensures (forall k :: 0 <= k < |infos| ==> infos[k].id != 0) ==> snow == -1
  {
    for k := 0 to |infos|
      invariant forall j :: 0 <= j < k ==> infos[j].id != 0
    {
      if infos[k].id == 0 {
        if infos[k].snow.Absent? {
          return -1;
        }
        var amsId, slot := (infos[k].snow.value / 256) % 256, infos[k].snow.value % 256;
        if amsId == 255 {
          return 254;
        }
        return if amsId >= 128 then amsId else amsId * 4 + slot;
      }
    }
    return -1;
  }
}
