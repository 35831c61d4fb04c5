/** The database of a remote device's attributes: services whose slots fill from the front. */
module GattDb {
  import opened Bytes

  const EXT_PROPER_UUID := "00002900-0000-1000-8000-00805f9b34fb"
  const DB_HASH_UUID := "00002b2a-0000-1000-8000-00805f9b34fb"
  const PROP_EXT_PROP: byte := 0x80
  const UINT16_MAX: nat := 0xffff

  /** What fills the slots behind a service declaration. A characteristic takes two slots: its
      declaration, whose handle is one less than that of its value, and its value. */
  datatype Item =
    | Incl(handle: u16, start: u16, end: u16)
    | Chrc(valueHandle: u16, properties: byte, uuid: string, value: seq<byte>)
    | Desc(handle: u16, uuid: string, value: seq<byte>)

  datatype Service = Service(start: u16, num: u16, primary: bool, uuid: string, active: bool, items: seq<Item>)

  datatype Db = Db(services: seq<Service>, nextHandle: u16)

  function Width(i: Item): nat {
    if i.Chrc? then 2 else 1
  }

  function FirstHandle(i: Item): int {
    if i.Chrc? then i.valueHandle - 1 else i.handle
  }

  function LastHandle(i: Item): u16 {
    if i.Chrc? then i.valueHandle else i.handle
  }

  function End(s: Service): int {
    s.start + s.num - 1
  }

  function Slots(items: seq<Item>): nat {
    if items == [] then 0 else Slots(items[..|items| - 1]) + Width(items[|items| - 1])
  }

  /** The handle in the last slot that is taken. */
  function Top(s: Service): u16 {
    if s.items == [] then s.start else LastHandle(s.items[|s.items| - 1])
  }

  // ----- insertion -----

  /** get_attribute_index: there are so many free slots behind those that are taken. */
  predicate HasRoom(s: Service, slots: nat) {
    1 + Slots(s.items) + slots <= s.num
  }

  /** service_insert_included: handle 0 asks for the one behind the last slot. */
  function InsertIncluded(s: Service, handle: u16, included: Service): Option<Service> {
    if !HasRoom(s, 1) || (handle != 0 && handle <= s.start) then None
    else
      var h := if handle == 0 then (Top(s) + 1) % 0x1_0000 else handle;
      Some(s.(items := s.items + [Incl(h, included.start, End(included) % 0x1_0000)]))
  }

  /** service_insert_characteristic, given the handle of the value. */
  function InsertCharacteristic(s: Service, handle: u16, uuid: string, properties: byte): Option<Service> {
    if (handle != 0 && handle <= s.start) || handle == UINT16_MAX || !HasRoom(s, 2) then None
    else
      var h := if handle == 0 then (Top(s) + 2) % 0x1_0000 else handle;
      Some(s.(items := s.items + [Chrc(h, properties, uuid, [])]))
  }

  function InsertDescriptor(s: Service, handle: u16, uuid: string): Option<Service> {
    if !HasRoom(s, 1) || (handle != 0 && handle <= s.start) then None
    else
      var h := if handle == 0 then (Top(s) + 1) % 0x1_0000 else handle;
      Some(s.(items := s.items + [Desc(h, uuid, [])]))
  }

  datatype Place = Overlaps(i: nat) | Before(i: nat)

  /** The range has one of its ends in the service. */
  predicate Meets(s: Service, start: int, end: int) {
    s.start <= start <= End(s) || s.start <= end <= End(s)
  }

  /** find_insert_loc: the first service from i on that the range meets, or that lies behind it. */
  function InsertLoc(ss: seq<Service>, start: int, end: int, i: nat): (p: Place)
    requires i <= |ss|
    ensures i <= p.i <= |ss|
    ensures forall j :: i <= j < p.i ==> !Meets(ss[j], start, end) && ss[j].start <= end
    ensures p.Overlaps? ==> p.i < |ss| && Meets(ss[p.i], start, end)
    ensures p.Before? && p.i < |ss| ==> !Meets(ss[p.i], start, end) && end < ss[p.i].start
    decreases |ss| - i
  {
    if i == |ss| then Before(i)
    else if Meets(ss[i], start, end) then Overlaps(i)
    else if end < ss[i].start then Before(i)
    else InsertLoc(ss, start, end, i + 1)
  }

  /** gatt_db_insert_service: a service that is there already is found again. */
  function InsertService(db: Db, handle: u16, uuid: string, primary: bool, num: u16): Option<Db> {
    var h := if handle == 0 then db.nextHandle else handle;
    if num < 1 || h + num - 1 > UINT16_MAX then None
    else
      match InsertLoc(db.services, h, h + num - 1, 0)
      case Overlaps(i) =>
        var s := db.services[i];
        if s.primary == primary && s.uuid == uuid && s.num == num && s.start == h then Some(db) else None
      case Before(i) =>
        var ss := Inserted(db.services, i, Service(h, num, primary, uuid, false, []));
        Some(Db(ss, (if h + num > db.nextHandle then h + num else db.nextHandle) % 0x1_0000))
  }

  // ----- lookup -----

  /** gatt_db_get_service: the first service from i on whose range holds the handle, or their number. */
  function FindService(ss: seq<Service>, h: u16, i: nat): (k: nat)
    requires i <= |ss|
    ensures i <= k <= |ss| && (k < |ss| ==> ss[k].start <= h <= End(ss[k]))
    ensures forall j :: i <= j < k ==> !(ss[j].start <= h <= End(ss[j]))
    decreases |ss| - i
  {
    if i == |ss| || ss[i].start <= h <= End(ss[i]) then i else FindService(ss, h, i + 1)
  }

  predicate HasHandle(s: Service, h: u16) {
    h == s.start || exists i :: 0 <= i < |s.items| && (h == FirstHandle(s.items[i]) || h == LastHandle(s.items[i]))
  }

  /** gatt_db_get_attribute: the index of its service. */
  function GetAttribute(ss: seq<Service>, h: u16): (r: Option<nat>)
    ensures r.Some? ==> r.value < |ss|
  {
    if h == 0 then None
    else
      var k := FindService(ss, h, 0);
      if k < |ss| && HasHandle(ss[k], h) then Some(k) else None
  }

  // ----- the descriptors of a characteristic -----

  /** The low byte of the first descriptor for extended properties, from i on up to the next item of
      another kind, that has a two-byte value and is not zero. */
  function ExtFrom(items: seq<Item>, i: nat): byte
    requires i <= |items|
    decreases |items| - i
  {
    if i == |items| || !items[i].Desc? then 0
    else if items[i].uuid == EXT_PROPER_UUID && |items[i].value| == 2 && items[i].value[0] != 0 then items[i].value[0]
    else ExtFrom(items, i + 1)
  }

  /** get_char_extended_prop: looked at only if the property bit is set. */
  function ExtProps(items: seq<Item>, i: nat): byte
    requires i < |items| && items[i].Chrc?
  {
    if items[i].properties / PROP_EXT_PROP % 2 == 1 then ExtFrom(items, i + 1) else 0
  }

  // ----- what every database satisfies -----

  /** Ranges ascend without overlap. */
  ghost predicate Ascending(ss: seq<Service>) {
    && (forall i :: 0 <= i < |ss| ==> 1 <= ss[i].start && 1 <= ss[i].num && End(ss[i]) <= UINT16_MAX)
    && (forall i, j :: 0 <= i < j < |ss| ==> End(ss[i]) < ss[j].start)
  }

  /** In ascending ranges a handle leads to the one service that holds it. */
  lemma FindIs(ss: seq<Service>, h: u16, k: nat)
    requires Ascending(ss) && k < |ss| && ss[k].start <= h <= End(ss[k])
    ensures FindService(ss, h, 0) == k
  {
    assert FindService(ss, h, 0) <= k;
  }

  /** Lookup of ranges does not look at items. */
  lemma {:induction false} FindSame(ss: seq<Service>, ts: seq<Service>, h: u16, i: nat)
    requires |ss| == |ts| && i <= |ss|
    requires forall j :: 0 <= j < |ss| ==> ss[j].start == ts[j].start && ss[j].num == ts[j].num
    ensures FindService(ss, h, i) == FindService(ts, h, i)
    decreases |ss| - i
  {
    if i < |ss| && !(ss[i].start <= h <= End(ss[i])) {
      FindSame(ss, ts, h, i + 1);
    }
  }

  /** A service behind all others goes to the end. */
  lemma {:induction false} InsertLast(ss: seq<Service>, start: int, end: int, i: nat)
    requires i <= |ss| && start <= end && forall j :: 0 <= j < |ss| ==> End(ss[j]) < start
    ensures InsertLoc(ss, start, end, i) == Before(|ss|)
    decreases |ss| - i
  {
    if i < |ss| {
      InsertLast(ss, start, end, i + 1);
    }
  }

  /** The services with another one at this place. */
  function Inserted(ss: seq<Service>, i: nat, s: Service): seq<Service>
    requires i <= |ss|
  {
    ss[..i] + [s] + ss[i..]
  }

  /** Only the ends of the range are looked at: a place found for it keeps the ranges apart exactly if
      no service lies wholly inside. */
  lemma PlaceIsFreeIff(ss: seq<Service>, s: Service)
    requires Ascending(ss) && 1 <= s.start && 1 <= s.num && End(s) <= UINT16_MAX
    ensures var p := InsertLoc(ss, s.start, End(s), 0);
            p.Before? ==>
              (Ascending(Inserted(ss, p.i, s)) <==> forall j :: 0 <= j < |ss| ==> !Inside(ss[j], s))
  {
    var p := InsertLoc(ss, s.start, End(s), 0);
    hide InsertLoc, Inserted, Ascending;
    if p.Before? {
      if j :| 0 <= j < |ss| && Inside(ss[j], s) {
        InsideBreaks(ss, p.i, s, j);
      } else {
        InsertedAscends(ss, p.i, s);
      }
    }
  }

  lemma {:induction false} InsertedAscends(ss: seq<Service>, i: nat, s: Service)
    requires Ascending(ss) && i <= |ss| && 1 <= s.start && 1 <= s.num && End(s) <= UINT16_MAX
    requires forall j :: 0 <= j < i ==> !Meets(ss[j], s.start, End(s)) && ss[j].start <= End(s)
    requires i < |ss| ==> End(s) < ss[i].start
    requires forall j :: 0 <= j < |ss| ==> !Inside(ss[j], s)
    ensures Ascending(Inserted(ss, i, s))
  {
    var r := Inserted(ss, i, s);
    assert forall j :: 0 <= j < |r| ==> r[j] == if j < i then ss[j] else if j == i then s else ss[j - 1];
    hide Inserted;
    forall j, k | 0 <= j < k < |r|
      ensures End(r[j]) < r[k].start
    {
      if k == i {
        assert !Inside(ss[j], s);
      } else if j == i {
        assert ss[i].start <= ss[k - 1].start;
      }
    }
  }

  lemma InsideBreaks(ss: seq<Service>, i: nat, s: Service, j: nat)
    requires i <= |ss| && j < |ss| && Inside(ss[j], s) && 1 <= s.num
    ensures !Ascending(Inserted(ss, i, s))
  {
    var r := Inserted(ss, i, s);
    assert r[i] == s && r[if j < i then j else j + 1] == ss[j];
  }

  /** A range around a service is not seen to overlap it. */
  lemma ContainedServiceIsMissed(s: Service, inner: Service)
    requires s.start == 3 && s.num == 8 && inner.start == 5 && inner.num == 2
    ensures InsertLoc([inner], s.start, End(s), 0) == Before(1) && !Ascending(Inserted([inner], 1, s))
  {
    var r := Inserted([inner], 1, s);
    assert r[0] == inner && r[1] == s;
    assert InsertLoc([inner], s.start, End(s), 1) == Before(1);
  }

  /** The service lies between the ends of the other one. */
  predicate Inside(s: Service, outer: Service) {
    outer.start < s.start && End(s) < End(outer)
  }

  lemma SlotsSnoc(items: seq<Item>, i: Item)
    ensures Slots(items + [i]) == Slots(items) + Width(i)
  {
    assert (items + [i])[..|items|] == items;
  }

  lemma {:induction false} SlotsConcat(xs: seq<Item>, ys: seq<Item>)
    ensures Slots(xs + ys) == Slots(xs) + Slots(ys)
  {
    if ys == [] {
      assert xs + ys == xs;
    } else {
      var n := |ys| - 1;
      assert xs + ys == (xs + ys[..n]) + [ys[n]];
      SlotsConcat(xs, ys[..n]);
      SlotsSnoc(xs + ys[..n], ys[n]);
    }
  }
}
