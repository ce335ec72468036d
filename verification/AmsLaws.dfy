/** Which tray is active, over every sequence of reports. */
module AmsLaws {
  import opened ReportFold
  import opened AmsTable

  /** The table has its shape, units stand below the count, and nothing is in an absent unit. */
  predicate TrayShaped(unit: Unit, tray: Tray) {
    (tray.present ==> unit.present) && (tray.active ==> tray.present)
  }

  ghost predicate UnitShaped(unit: Unit) {
    |unit.trays| == MAX_TRAYS && forall t :: 0 <= t < MAX_TRAYS ==> TrayShaped(unit, unit.trays[t])
  }

  ghost predicate Shaped(a: Ams) {
    && |a.units| == MAX_UNITS && a.count <= MAX_UNITS
    && forall u :: 0 <= u < MAX_UNITS ==> UnitShaped(a.units[u]) && (a.units[u].present ==> u < a.count)
  }

  predicate TrayRight(tray: Tray, u: nat, t: nat, now: int) {
    tray.active <==> tray.present && now == GlobalIndex(u, t)
  }

  /** A tray is active exactly when it is present and the printer reports its number. */
  ghost predicate Right(s: TrayState)
    requires Shaped(s.ams)
  {
    forall u, t :: 0 <= u < MAX_UNITS && 0 <= t < MAX_TRAYS ==> TrayRight(s.ams.units[u].trays[t], u, t, s.now)
  }

  // ----- both clients keep the shape

  lemma {:induction false} TraysStayShaped(unit: Unit, items: seq<TrayItem>, u: nat, c: Client, now: int)
    requires UnitShaped(unit)
    ensures UnitShaped(Unit(true, unit.climate, TraysAfter(unit.trays, items, u, c, now)))
  {
    hide OnlyMetadata, Refreshed, GlobalIndex, IdOf;
    var before := Unit(true, unit.climate, unit.trays);
    assert UnitShaped(before) by {
      assert forall t :: 0 <= t < MAX_TRAYS ==> TrayShaped(unit, unit.trays[t]) && TrayShaped(before, before.trays[t]);
    }
    if items != [] {
      TraysStayShaped(unit, items[..|items| - 1], u, c, now);
      var r := TraysAfter(unit.trays, items[..|items| - 1], u, c, now);
      var mid := Unit(true, unit.climate, r);
      var after := Unit(true, unit.climate, TraysAfter(unit.trays, items, u, c, now));
      forall t | 0 <= t < MAX_TRAYS ensures TrayShaped(after, after.trays[t]) {
        assert TrayShaped(mid, mid.trays[t]);
      }
    }
  }

  lemma UnitStaysShaped(unit: Unit, i: UnitItem, u: nat, c: Client, now: int)
    requires UnitShaped(unit)
    ensures UnitShaped(UnitAfter(unit, i, u, c, now))
  {
    hide ClimateAfter, TraysAfter;
    var after := UnitAfter(unit, i, u, c, now);
    if i.trays.TrayArray? {
      TraysStayShaped(unit, i.trays.items, u, c, now);
      var same := Unit(true, unit.climate, after.trays);
      assert forall t :: 0 <= t < MAX_TRAYS ==> TrayShaped(same, same.trays[t]) && TrayShaped(after, after.trays[t]);
    } else {
      assert forall t :: 0 <= t < MAX_TRAYS ==> TrayShaped(unit, unit.trays[t]) && TrayShaped(after, after.trays[t]);
    }
  }

  lemma {:induction false} UnitsStayShaped(a: Ams, items: seq<UnitItem>, c: Client, now: int)
    requires Shaped(a)
    ensures Shaped(UnitsAfter(a, items, c, now))
  {
    hide UnitShaped, IdOf;
    if items != [] {
      var last := |items| - 1;
      UnitsStayShaped(a, items[..last], c, now);
      var r := UnitsAfter(a, items[..last], c, now);
      var id := IdOf(items[last].id, last, c);
      if 0 <= id < MAX_UNITS {
        UnitStaysShaped(r.units[id], items[last], id, c, now);
      }
    }
  }

  lemma MarkingStaysShaped(a: Ams, now: int)
    requires Shaped(a)
    ensures Shaped(Marked(a, now))
  {
    var m := Marked(a, now);
    forall u | 0 <= u < MAX_UNITS ensures UnitShaped(m.units[u]) {
      assert UnitShaped(a.units[u]);
      assert forall t :: 0 <= t < MAX_TRAYS ==>
        TrayShaped(a.units[u], a.units[u].trays[t]) && TrayShaped(m.units[u], m.units[u].trays[t]);
    }
  }

  lemma NextStaysShaped(s: TrayState, r: OptAmsObject, c: Client)
    requires Shaped(s.ams)
    ensures Shaped(Next(s, r, c).ams)
    ensures Next(s, r, c).ams.count >= s.ams.count
  {
    hide Shaped, UnitsAfter, MarkedUnits, NowAfter;
    if r.AmsReported? {
      var now := NowAfter(s, r.o);
      if r.o.units.UnitArray? {
        UnitsStayShaped(s.ams, r.o.units.items, c, now);
      }
      MarkingStaysShaped(Rewritten(s, r.o, c), now);
    }
  }

  // ----- the cloud client is always right

  lemma MarkingIsRight(a: Ams, s: TrayState)
    requires Shaped(a) && s.ams == Marked(a, s.now) && Shaped(s.ams)
    ensures Right(s)
  {
    forall u, t | 0 <= u < MAX_UNITS && 0 <= t < MAX_TRAYS ensures TrayRight(s.ams.units[u].trays[t], u, t, s.now) {
      assert UnitShaped(a.units[u]) && TrayShaped(a.units[u], a.units[u].trays[t]);
    }
  }

  lemma ClearedIsRight()
    ensures Shaped(CLEARED.ams) && Right(CLEARED)
  {
    assert UnitShaped(EMPTY_UNIT);
  }

  /** Over every sequence of reports the cloud client shows as active exactly the tray that is present
      and reported. */
  lemma {:induction false} CloudIsAlwaysRight(events: seq<Event>)
    ensures var s := Run(events, Cloud); Shaped(s.ams) && Right(s)
  {
    hide Shaped, Right, Next;
    ClearedIsRight();
    if events != [] {
      var init, last := events[..|events| - 1], events[|events| - 1];
      CloudIsAlwaysRight(init);
      var s := Run(init, Cloud);
      if last.Report? {
        NextStaysShaped(s, last.r, Cloud);
        CloudStepIsRight(s, last.r);
      }
    }
  }

  lemma CloudStepIsRight(s: TrayState, r: OptAmsObject)
    requires Shaped(s.ams) && Right(s) && Shaped(Next(s, r, Cloud).ams)
    ensures Right(Next(s, r, Cloud))
  {
    hide Shaped, UnitsAfter, Marked, NowAfter, Right;
    if r.AmsReported? {
      if r.o.units.UnitArray? {
        UnitsStayShaped(s.ams, r.o.units.items, Cloud, NowAfter(s, r.o));
      }
      MarkingIsRight(Rewritten(s, r.o, Cloud), Next(s, r, Cloud));
    }
  }

  /** So at most one tray is ever active. */
  lemma AtMostOneActiveTray(s: TrayState, u: nat, t: nat, v: nat, w: nat)
    requires Shaped(s.ams) && Right(s)
    requires u < MAX_UNITS && v < MAX_UNITS && t < MAX_TRAYS && w < MAX_TRAYS
    requires s.ams.units[u].trays[t].active && s.ams.units[v].trays[w].active
    ensures u == v && t == w
  {
    assert TrayRight(s.ams.units[u].trays[t], u, t, s.now) && TrayRight(s.ams.units[v].trays[w], v, w, s.now);
  }

  // ----- the local client is right about what the report lists

  /** The report has an entry for this tray. */
  ghost predicate TrayListed(items: seq<TrayItem>, t: int) {
    exists k :: 0 <= k < |items| && items[k].id == t
  }

  ghost predicate Lists(i: UnitItem, u: int, t: int) {
    i.id == u && i.trays.TrayArray? && TrayListed(i.trays.items, t)
  }

  ghost predicate Listed(items: seq<UnitItem>, u: int, t: int) {
    exists k :: 0 <= k < |items| && Lists(items[k], u, t)
  }

  ghost predicate ListedBy(o: AmsObject, u: int, t: int) {
    o.units.UnitArray? && Listed(o.units.items, u, t)
  }

  lemma {:induction false} LocalTray(trays: seq<Tray>, items: seq<TrayItem>, u: nat, t: nat, now: int)
    requires t < |trays|
    ensures var after := TraysAfter(trays, items, u, Local, now)[t];
      if TrayListed(items, t) then TrayRight(after, u, t, now) else after == trays[t]
  {
    hide OnlyMetadata, Refreshed, GlobalIndex;
    if items != [] {
      var init, last := items[..|items| - 1], items[|items| - 1];
      LocalTray(trays, init, u, t, now);
      TrayListedInit(items, t);
    } else {
      assert !TrayListed(items, t);
    }
  }

  lemma TrayListedInit(items: seq<TrayItem>, t: int)
    requires items != []
    ensures TrayListed(items, t) <==> TrayListed(items[..|items| - 1], t) || items[|items| - 1].id == t
  {
    var init := items[..|items| - 1];
    if TrayListed(init, t) {
      var k :| 0 <= k < |init| && init[k].id == t;
      assert items[k].id == t;
    }
  }

  lemma ListedInit(items: seq<UnitItem>, u: int, t: int)
    requires items != []
    ensures Listed(items, u, t) <==> Listed(items[..|items| - 1], u, t) || Lists(items[|items| - 1], u, t)
  {
    hide Lists;
    var init := items[..|items| - 1];
    if Listed(init, u, t) {
      var k :| 0 <= k < |init| && Lists(init[k], u, t);
      assert Lists(items[k], u, t);
    }
  }

  lemma {:induction false} LocalUnits(a: Ams, items: seq<UnitItem>, u: nat, t: nat, now: int)
    requires Shaped(a) && u < MAX_UNITS && t < MAX_TRAYS
    ensures Shaped(UnitsAfter(a, items, Local, now))
    ensures var after := UnitsAfter(a, items, Local, now).units[u].trays[t];
      if Listed(items, u, t) then TrayRight(after, u, t, now) else after == a.units[u].trays[t]
  {
    hide TraysAfter, TrayListed, ClimateAfter, TrayRight;
    UnitsStayShaped(a, items, Local, now);
    if items != [] {
      var init, last := items[..|items| - 1], items[|items| - 1];
      UnitsStayShaped(a, init, Local, now);
      LocalUnits(a, init, u, t, now);
      ListedInit(items, u, t);
      if last.id == u && last.trays.TrayArray? {
        LocalTray(UnitsAfter(a, init, Local, now).units[u].trays, last.trays.items, u, t, now);
      }
    } else {
      assert !Listed(items, u, t);
    }
  }

  /** Every tray whose number is the old or the new one is absent, or rewritten by the report. */
  ghost predicate AnnouncesTheSwap(s: TrayState, o: AmsObject)
    requires Shaped(s.ams)
  {
    forall u, t :: 0 <= u < MAX_UNITS && 0 <= t < MAX_TRAYS && GlobalIndex(u, t) in {s.now, NowAfter(s, o)} ==>
      !s.ams.units[u].trays[t].present || ListedBy(o, u, t)
  }

  /** The local client marks only the trays a report lists, so it stays right exactly when the reported
      number does not change, or the report lists the trays it changes between. */
  lemma LocalStaysRightExactly(s: TrayState, o: AmsObject)
    requires Shaped(s.ams) && Right(s)
    ensures Shaped(Next(s, AmsReported(o), Local).ams)
    ensures Right(Next(s, AmsReported(o), Local)) <==> NowAfter(s, o) == s.now || AnnouncesTheSwap(s, o)
  {
    hide Shaped, Next, TrayRight, ListedBy, GlobalIndex;
    NextStaysShaped(s, AmsReported(o), Local);
    var after, now := Next(s, AmsReported(o), Local), NowAfter(s, o);
    NextIs(s, o);
    Shapes(s.ams);
    Shapes(after.ams);
    forall u, t | 0 <= u < MAX_UNITS && 0 <= t < MAX_TRAYS
      ensures TrayRight(after.ams.units[u].trays[t], u, t, now) <==>
              ListedBy(o, u, t) || !s.ams.units[u].trays[t].present || now == s.now
              || GlobalIndex(u, t) !in {s.now, now}
    {
      LocalStepTray(s, o, u, t);
    }
  }

  /** One report that lists only the tray changed to leaves the local client with two active trays. */
  lemma LocalCanShowTwoActiveTrays(s: TrayState, info: Info)
    requires Shaped(s.ams) && Right(s) && s.now == 0
    requires |s.ams.units[0].trays| == MAX_TRAYS && s.ams.units[0].trays[0].present
    ensures var item := TrayItem(1, true, true, 3, info, false);
      var o := AmsObject(Given(1), Absent, -1, UnitArray([UnitItem(0, -1, -1, -999.0, TrayArray([item]))]));
      var after := Next(s, AmsReported(o), Local).ams.units[0].trays;
      |after| == MAX_TRAYS && after[0].active && after[1].active
  {
    var item := TrayItem(1, true, true, 3, info, false);
    var unit := UnitItem(0, -1, -1, -999.0, TrayArray([item]));
    OneItem(s.ams, unit, Local, 1);
    OneTray(s.ams.units[0].trays, item, 0, Local, 1);
    assert TrayRight(s.ams.units[0].trays[0], 0, 0, s.now);
  }

  lemma OneItem(a: Ams, i: UnitItem, c: Client, now: int)
    requires 0 <= i.id < |a.units|
    ensures UnitsAfter(a, [i], c, now).units == a.units[i.id := UnitAfter(a.units[i.id], i, i.id, c, now)]
  {
    hide UnitAfter;
    assert [i][..0] == [];
    assert UnitsAfter(a, [], c, now) == a;
  }

  lemma OneTray(trays: seq<Tray>, i: TrayItem, u: nat, c: Client, now: int)
    requires 0 <= i.id < |trays|
    ensures TraysAfter(trays, [i], u, c, now) == trays[i.id := Written(trays[i.id], i, GlobalIndex(u, i.id), c, now)]
  {
    hide Written;
    assert [i][..0] == [];
    assert TraysAfter(trays, [], u, c, now) == trays;
  }

  lemma Shapes(a: Ams)
    requires Shaped(a)
    ensures |a.units| == MAX_UNITS && forall u :: 0 <= u < MAX_UNITS ==> |a.units[u].trays| == MAX_TRAYS
  {
    forall u | 0 <= u < MAX_UNITS ensures |a.units[u].trays| == MAX_TRAYS {
      assert UnitShaped(a.units[u]);
    }
  }

  lemma NextIs(s: TrayState, o: AmsObject)
    ensures Next(s, AmsReported(o), Local) == TrayState(NowAfter(s, o), OrElse(o.tar, s.tar), Rewritten(s, o, Local))
  {
  }

  lemma LocalStepTray(s: TrayState, o: AmsObject, u: nat, t: nat)
    requires Shaped(s.ams) && u < MAX_UNITS && t < MAX_TRAYS && Shaped(Rewritten(s, o, Local))
    requires TrayRight(s.ams.units[u].trays[t], u, t, s.now)
    ensures var now := NowAfter(s, o);
      TrayRight(Rewritten(s, o, Local).units[u].trays[t], u, t, now) <==>
      ListedBy(o, u, t) || !s.ams.units[u].trays[t].present || now == s.now || GlobalIndex(u, t) !in {s.now, now}
  {
    hide UnitsAfter, NowAfter, Listed, GlobalIndex;
    if o.units.UnitArray? {
      LocalUnits(s.ams, o.units.items, u, t, NowAfter(s, o));
    }
  }

  // ----- the number in the newer protocol

  /** The newer number of a tray of the table decodes to its older one. */
  lemma SnowNamesTheTray(u: nat, t: nat)
    requires u < MAX_UNITS && t < MAX_TRAYS
    ensures DecodeSnow(256 * u + t) == GlobalIndex(u, t)
  {
  }

  /** The low 16 bits pack the unit and the slot; unit 255 is the external spool, and units from 128 on have
      one slot. */
  lemma SnowTable(unit: nat, slot: nat, high: int)
    requires unit < 256 && slot < 256
    ensures DecodeSnow(65536 * high + 256 * unit + slot) ==
            if unit == 255 then 254 else if unit >= 128 then unit else 4 * unit + slot
  {
    var q := 256 * high + unit;
    assert 65536 * high + 256 * unit + slot == 256 * q + slot;
    LowByte(q, slot);
    LowByte(high, unit);
  }

  lemma LowByte(q: int, r: nat)
    requires r < 256
    ensures (256 * q + r) / 256 == q && (256 * q + r) % 256 == r
  {
  }

  // ----- what the table remembers

  /** A tray: an item with at most an id and one more field empties it, any other refreshes what it tells of. */
  lemma TrayTold(tray: Tray, i: TrayItem, index: nat, c: Client, now: int)
    ensures var after, told := Written(tray, i, index, c, now), i.given;
      if i.fields <= 2 && i.hasId && !i.hasType then after == Tray(false, false, Info("", "", 0, -1))
      else
        && after.present && (after.active <==> if c == Local then now == index else tray.active)
        && after.info.material == (if told.material == "" then tray.info.material else told.material)
        && after.info.name == (if told.name == "" then tray.info.name else told.name)
        && after.info.color == (if i.hasColor then told.color else tray.info.color)
        && after.info.remain == (if 0 <= told.remain <= 100 then told.remain else tray.info.remain)
  {
  }

  /** The items of a list that speak of tray or unit `n`: by their id, or for the cloud client by their place. */
  predicate SpeaksOf(id: int, position: nat, n: nat, c: Client) {
    id == n || (id < 0 && c == Cloud && position == n)
  }

  /** The items for tray `t`, in order. */
  function ItemsFor(items: seq<TrayItem>, t: nat, c: Client): seq<TrayItem> {
    if items == [] then []
    else
      var last := |items| - 1;
      ItemsFor(items[..last], t, c) + if SpeaksOf(items[last].id, last, t, c) then [items[last]] else []
  }

  function ToldInTurn(tray: Tray, items: seq<TrayItem>, index: nat, c: Client, now: int): Tray {
    if items == [] then tray
    else Written(ToldInTurn(tray, items[..|items| - 1], index, c, now), items[|items| - 1], index, c, now)
  }

  lemma IdSpeaks(id: int, position: nat, n: nat, c: Client)
    ensures SpeaksOf(id, position, n, c) <==> IdOf(id, position, c) == n
  {
  }

  lemma TrayStep(trays: seq<Tray>, items: seq<TrayItem>, u: nat, t: nat, c: Client, now: int)
    requires t < |trays| && items != []
    ensures var last := |items| - 1;
      var before := TraysAfter(trays, items[..last], u, c, now);
      TraysAfter(trays, items, u, c, now)[t] ==
      if SpeaksOf(items[last].id, last, t, c) then Written(before[t], items[last], 4 * u + t, c, now) else before[t]
  {
    hide Written, IdOf, SpeaksOf;
    IdSpeaks(items[|items| - 1].id, |items| - 1, t, c);
  }

  lemma TurnStep(tray: Tray, items: seq<TrayItem>, t: nat, index: nat, c: Client, now: int)
    requires items != []
    ensures var last := |items| - 1;
      var before := ToldInTurn(tray, ItemsFor(items[..last], t, c), index, c, now);
      ToldInTurn(tray, ItemsFor(items, t, c), index, c, now) ==
      if SpeaksOf(items[last].id, last, t, c) then Written(before, items[last], index, c, now) else before
  {
    hide Written, SpeaksOf, ToldInTurn;
    var last := |items| - 1;
    var earlier := ItemsFor(items[..last], t, c);
    assert ItemsFor(items, t, c) == if SpeaksOf(items[last].id, last, t, c) then earlier + [items[last]] else earlier;
    OneMoreTurn(tray, earlier, items[last], index, c, now);
  }

  lemma OneMoreTurn(tray: Tray, items: seq<TrayItem>, i: TrayItem, index: nat, c: Client, now: int)
    ensures ToldInTurn(tray, items + [i], index, c, now) ==
            Written(ToldInTurn(tray, items, index, c, now), i, index, c, now)
  {
    hide Written;
    assert (items + [i])[..|items|] == items;
  }

  /** Every tray is told by its own items, in their order, and by nothing else. */
  lemma {:induction false} TraysAreToldByTheirOwnItems(
    trays: seq<Tray>, items: seq<TrayItem>, u: nat, t: nat, c: Client, now: int)
    requires t < |trays|
    ensures TraysAfter(trays, items, u, c, now)[t] ==
            ToldInTurn(trays[t], ItemsFor(items, t, c), 4 * u + t, c, now)
  {
    hide Written, SpeaksOf;
    if items != [] {
      hide TraysAfter, ToldInTurn, ItemsFor;
      TraysAreToldByTheirOwnItems(trays, items[..|items| - 1], u, t, c, now);
      TrayStep(trays, items, u, t, c, now);
      TurnStep(trays[t], items, t, 4 * u + t, c, now);
    }
  }

  lemma UnitIsThere(unit: Unit, i: UnitItem, u: nat, c: Client, now: int)
    ensures UnitAfter(unit, i, u, c, now).present
  {
  }

  /** The units a list speaks of are present and counted; the others stay as they were. */
  lemma {:induction false} UnitsTold(a: Ams, items: seq<UnitItem>, c: Client, now: int, u: nat)
    requires u < |a.units|
    ensures var after := UnitsAfter(a, items, c, now);
      if exists k :: 0 <= k < |items| && SpeaksOf(items[k].id, k, u, c)
      then after.units[u].present && after.count > u
      else after.units[u] == a.units[u]
  {
    hide UnitAfter, IdOf, SpeaksOf;
    if items != [] {
      var init, last := items[..|items| - 1], |items| - 1;
      UnitsTold(a, init, c, now, u);
      assert forall k :: 0 <= k < |init| ==> init[k] == items[k];
      IdSpeaks(items[last].id, last, u, c);
      UnitIsThere(UnitsAfter(a, init, c, now).units[u], items[last], u, c, now);
    }
  }

  /** The count goes up to the last unit that is there, or stays. */
  lemma {:induction false} CountIsOfAUnit(a: Ams, items: seq<UnitItem>, c: Client, now: int)
    ensures var after := UnitsAfter(a, items, c, now);
      after.count == a.count || (after.count <= |a.units| && after.units[after.count - 1].present)
  {
    hide UnitAfter, IdOf;
    if items != [] {
      var init, last := items[..|items| - 1], |items| - 1;
      CountIsOfAUnit(a, init, c, now);
      var r := UnitsAfter(a, init, c, now);
      var id := IdOf(items[last].id, last, c);
      if 0 <= id < |r.units| {
        UnitIsThere(r.units[id], items[last], id, c, now);
      }
    }
  }

  /** A unit: a humidity in percent comes before the index, which stands for the middle of its range, and
      only temperatures from 0 to 100 degrees count. */
  lemma UnitTold(unit: Unit, i: UnitItem, u: nat, c: Client, now: int)
    ensures var after := UnitAfter(unit, i, u, c, now);
      && after.present
      && after.climate.humidity == (if 0 <= i.humidityRaw <= 100 then i.humidityRaw
                                    else if i.humidityIndex == 1 then 10 else if i.humidityIndex == 2 then 30
                                    else if i.humidityIndex == 3 then 48 else if i.humidityIndex == 4 then 63
                                    else if i.humidityIndex == 5 then 85 else unit.climate.humidity)
      && after.climate.celsius == (if 0.0 <= i.celsius <= 100.0 then i.celsius else unit.climate.celsius)
      && (i.trays.NoTrayArray? ==> after.trays == unit.trays)
      && (i.trays.TrayArray? ==> after.trays == TraysAfter(unit.trays, i.trays.items, u, c, now))
  {
    hide TraysAfter;
  }

  // ----- the numbers over all runs

  /** The number of the tray in use: the last one told since the table was cleared. */
  function LastNow(events: seq<Event>): int {
    if events == [] then -1
    else
      var before := LastNow(events[..|events| - 1]);
      match events[|events| - 1]
      case Clear => -1
      case Report(r) =>
        if r.NoAmsObject? then before
        else if r.o.snow >= 0 then r.o.snow
        else if r.o.now.Given? then r.o.now.value else before
  }

  function LastTar(events: seq<Event>): int {
    if events == [] then -1
    else
      var before := LastTar(events[..|events| - 1]);
      match events[|events| - 1]
      case Clear => -1
      case Report(r) => if r.AmsReported? && r.o.tar.Given? then r.o.tar.value else before
  }

  lemma {:induction false} NumbersAreTheLastTold(events: seq<Event>, c: Client)
    ensures Run(events, c).now == LastNow(events) && Run(events, c).tar == LastTar(events)
  {
    hide UnitsAfter, Marked;
    if events != [] {
      NumbersAreTheLastTold(events[..|events| - 1], c);
    }
  }

  /** A cleared table holds nothing: four units of four trays, none of them there. */
  lemma ClearedHoldsNothing()
    ensures CLEARED.now == -1 && CLEARED.tar == -1 && CLEARED.ams.count == 0 && |CLEARED.ams.units| == 4
    ensures forall u :: 0 <= u < 4 ==> !CLEARED.ams.units[u].present && |CLEARED.ams.units[u].trays| == 4
    ensures forall u, t :: 0 <= u < 4 && 0 <= t < 4 ==>
              CLEARED.ams.units[u].trays[t] == Tray(false, false, Info("", "", 0, -1))
    ensures forall u :: 0 <= u < 4 ==> CLEARED.ams.units[u].climate == Climate(-1, 0.0)
  {
  }
}
