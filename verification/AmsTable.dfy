/** The filament trays of the AMS units: what a report writes into the table, and how the cloud client
    and the local client mark the active tray. */
module AmsTable {
  import opened ReportFold

  const MAX_UNITS: nat := 4
  const MAX_TRAYS: nat := 4

  datatype Info = Info(material: string, name: string, color: nat, remain: int)

  const NO_INFO := Info("", "", 0, -1)

  datatype Tray = Tray(present: bool, active: bool, info: Info)

  datatype Climate = Climate(humidity: int, celsius: real)

  datatype Unit = Unit(present: bool, climate: Climate, trays: seq<Tray>)

  datatype Ams = Ams(count: nat, units: seq<Unit>)

  const NO_TRAY := Tray(false, false, NO_INFO)
  const EMPTY_UNIT := Unit(false, Climate(-1, 0.0), [NO_TRAY, NO_TRAY, NO_TRAY, NO_TRAY])
  const EMPTY := Ams(0, [EMPTY_UNIT, EMPTY_UNIT, EMPTY_UNIT, EMPTY_UNIT])

  // ----- what a report holds

  /** One object of a "tray" array; `id` is negative where it is missing, and `tray_type` decides with
      the number of fields whether the slot is empty. */
  datatype TrayItem = TrayItem(id: int, hasId: bool, hasType: bool, fields: nat, given: Info, hasColor: bool)

  datatype OptTrays = NoTrayArray | TrayArray(items: seq<TrayItem>)

  datatype UnitItem = UnitItem(id: int, humidityRaw: int, humidityIndex: int, celsius: real, trays: OptTrays)

  datatype Client = Cloud | Local

  // ----- one tray

  predicate OnlyMetadata(i: TrayItem) {
    i.fields <= 2 && i.hasId && !i.hasType
  }

  function Refreshed(info: Info, i: TrayItem): Info {
    Info(if i.given.material != "" then i.given.material else info.material,
         if i.given.name != "" then i.given.name else info.name,
         if i.hasColor then i.given.color else info.color,
         if 0 <= i.given.remain <= 100 then i.given.remain else info.remain)
  }

  /** The number a printer reports for a tray. */
  function GlobalIndex(u: nat, t: nat): nat {
    u * MAX_TRAYS + t
  }

  /** The local client marks the tray as it writes it; the cloud client leaves that for later. */
  function Written(tray: Tray, i: TrayItem, index: nat, c: Client, now: int): Tray {
    if OnlyMetadata(i) then Tray(false, false, NO_INFO)
    else Tray(true, if c.Local? then now == index else tray.active, Refreshed(tray.info, i))
  }

  /** The cloud client falls back to the position in the array, the local client skips the item. */
  function IdOf(id: int, position: nat, c: Client): int {
    if id < 0 && c.Cloud? then position else id
  }

  function TraysAfter(trays: seq<Tray>, items: seq<TrayItem>, u: nat, c: Client, now: int): (r: seq<Tray>)
    ensures |r| == |trays|
  {
    if items == [] then trays
    else
      var last := |items| - 1;
      var r := TraysAfter(trays, items[..last], u, c, now);
      var id := IdOf(items[last].id, last, c);
      if 0 <= id < |r| then r[id := Written(r[id], items[last], GlobalIndex(u, id), c, now)] else r
  }

  // ----- units

  function HumidityAfter(earlier: int, i: UnitItem): int {
    if 0 <= i.humidityRaw <= 100 then i.humidityRaw
    else match i.humidityIndex
      case 1 => 10
      case 2 => 30
      case 3 => 48
      case 4 => 63
      case 5 => 85
      case _ => earlier
  }

  function ClimateAfter(c: Climate, i: UnitItem): Climate {
    Climate(HumidityAfter(c.humidity, i), if 0.0 <= i.celsius <= 100.0 then i.celsius else c.celsius)
  }

  function UnitAfter(unit: Unit, i: UnitItem, u: nat, c: Client, now: int): Unit {
    Unit(true, ClimateAfter(unit.climate, i),
         if i.trays.TrayArray? then TraysAfter(unit.trays, i.trays.items, u, c, now) else unit.trays)
  }

  function UnitsAfter(a: Ams, items: seq<UnitItem>, c: Client, now: int): (r: Ams)
    ensures |r.units| == |a.units| && r.count >= a.count
  {
    if items == [] then a
    else
      var last := |items| - 1;
      var r := UnitsAfter(a, items[..last], c, now);
      var id := IdOf(items[last].id, last, c);
      if 0 <= id < |r.units| then
        Ams(if id + 1 > r.count then id + 1 else r.count,
            r.units[id := UnitAfter(r.units[id], items[last], id, c, now)])
      else r
  }

  // ----- the marking pass of the cloud client

  function MarkedTray(tray: Tray, u: nat, t: nat, now: int): Tray {
    tray.(active := tray.present && now == GlobalIndex(u, t))
  }

  function MarkedTrays(trays: seq<Tray>, u: nat, now: int): (r: seq<Tray>)
    ensures |r| == |trays|
  {
    seq(|trays|, t requires 0 <= t < |trays| => MarkedTray(trays[t], u, t, now))
  }

  function MarkedUnit(unit: Unit, u: nat, now: int): Unit {
    unit.(trays := MarkedTrays(unit.trays, u, now))
  }

  function MarkedUnits(a: Ams, now: int): (r: seq<Unit>)
    ensures |r| == |a.units|
  {
    seq(|a.units|, u requires 0 <= u < |a.units| =>
      if u < a.count then MarkedUnit(a.units[u], u, now) else a.units[u])
  }

  function Marked(a: Ams, now: int): Ams {
    a.(units := MarkedUnits(a, now))
  }

  // ----- a whole report

  datatype OptUnitItems = NoUnitArray | UnitArray(items: seq<UnitItem>)

  /** The "ams" object; `snow` is -1 where the newer protocol says nothing. */
  datatype AmsObject = AmsObject(now: OptInt, tar: OptInt, snow: int, units: OptUnitItems)

  datatype OptAmsObject = NoAmsObject | AmsReported(o: AmsObject)

  /** `ams` is EMPTY until the first report with units allocates it; an empty table behaves the same. */
  datatype TrayState = TrayState(now: int, tar: int, ams: Ams)

  const CLEARED := TrayState(-1, -1, EMPTY)

  function NowAfter(s: TrayState, o: AmsObject): int {
    if o.snow >= 0 then o.snow else OrElse(o.now, s.now)
  }

  function Rewritten(s: TrayState, o: AmsObject, c: Client): Ams {
    if o.units.UnitArray? then UnitsAfter(s.ams, o.units.items, c, NowAfter(s, o)) else s.ams
  }

  function Next(s: TrayState, r: OptAmsObject, c: Client): TrayState {
    if r.NoAmsObject? then s
    else
      var now := NowAfter(s, r.o);
      var ams := Rewritten(s, r.o, c);
      TrayState(now, OrElse(r.o.tar, s.tar), if c.Cloud? then Marked(ams, now) else ams)
  }

  datatype Event = Report(r: OptAmsObject) | Clear

  /** Any sequence of reports and clearings. */
  function Run(events: seq<Event>, c: Client): TrayState {
    if events == [] then CLEARED
    else
      var s := Run(events[..|events| - 1], c);
      match events[|events| - 1]
      case Report(r) => Next(s, r, c)
      case Clear => CLEARED
  }

  // ----- the number in the newer protocol

  /** One object of device.extruder.info; `snow` is missing or not a number where absent. */
  datatype Extruder = Extruder(id: int, snow: OptInt)

  function DecodeSnow(snow: int): int {
    var amsId, slot := (snow / 256) % 256, snow % 256;
    if amsId == 255 then 254 else if amsId >= 128 then amsId else 4 * amsId + slot
  }
}
