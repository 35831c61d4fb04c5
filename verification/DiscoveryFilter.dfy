/** The discovery filters of the clients, the kernel filter they are merged into, and the match of
    a found device against them. */
module DiscoveryFilter {
  import opened Bytes

  const DISTANCE_VAL_INVALID: int := 0x7FFF
  const HCI_RSSI_INVALID: int := 127
  const PATHLOSS_MAX: int := 137
  const TX_POWER_INVALID: int := 127

  datatype Bearer = BrEdr | LePublic | LeRandom

  const SCAN_TYPE_BREDR: set<Bearer> := {BrEdr}
  const SCAN_TYPE_LE: set<Bearer> := {LePublic, LeRandom}

  /** A UUID is the number that its canonical text shows: both have the same order. */
  datatype Filter = Filter(types: set<Bearer>, rssi: int, pathloss: int, uuids: seq<nat>,
                           duplicate: bool, discoverable: bool)

  /** A client discovers with a filter of its own or, regularly, with none. */
  type Wish = Option<Filter>

  datatype KernelFilter = KernelFilter(types: set<Bearer>, rssi: int, uuids: seq<nat>)

  function ScanType(bredr: bool, le: bool): set<Bearer> {
    (if bredr then SCAN_TYPE_BREDR else {}) + (if le then SCAN_TYPE_LE else {})
  }

  // ----- parsing the filter of a client -----

  /** One dictionary entry; Other has an unknown key or a value of the wrong type. */
  datatype Entry =
    | Uuids(uuids: seq<Option<nat>>)
    | Rssi(rssi: int)
    | Pathloss(pathloss: nat)
    | Transport(name: string)
    | DuplicateData(duplicate: bool)
    | Discoverable(discoverable: bool)
    | Other

  /** What every filter that a client can set satisfies. */
  predicate Accepted(f: Filter) {
    && (f.rssi == DISTANCE_VAL_INVALID || -127 <= f.rssi <= 20)
    && (f.pathloss == DISTANCE_VAL_INVALID || f.pathloss <= PATHLOSS_MAX)
    && (f.rssi == DISTANCE_VAL_INVALID || f.pathloss == DISTANCE_VAL_INVALID)
  }

  ghost predicate WellFormed(e: Entry) {
    match e
    case Uuids(us) => None !in us
    case Rssi(r) => -127 <= r <= 20
    case Pathloss(p) => p <= PATHLOSS_MAX
    case Transport(name) => name in {"bredr", "le", "auto"}
    case Other => false
    case _ => true
  }

  ghost predicate Names(e: Entry, u: nat) {
    e.Uuids? && Some(u) in e.uuids
  }

  /** An entry is malformed, or both kinds of limit are given. */
  ghost predicate Malformed(entries: seq<Entry>) {
    || (exists i :: 0 <= i < |entries| && !WellFormed(entries[i]))
    || ((exists i :: 0 <= i < |entries| && entries[i].Rssi?)
        && (exists i :: 0 <= i < |entries| && entries[i].Pathloss?))
  }

  method ParseUuids(us: seq<Option<nat>>, f: Filter) returns (r: Option<Filter>)
    ensures r.Some? <==> None !in us
    ensures r.Some? ==> r.value == f.(uuids := r.value.uuids)
    ensures r.Some? ==> forall u :: u in r.value.uuids <==> u in f.uuids || Some(u) in us
  {
    var uuids := f.uuids;
    for i := 0 to |us|
      invariant None !in us[..i]
      invariant forall u :: u in uuids <==> u in f.uuids || Some(u) in us[..i]
    {
      if us[i].None? {
        return None;
      }
      assert us[..i + 1] == us[..i] + [us[i]];
      uuids := [us[i].value] + uuids;
    }
    assert us[..|us|] == us;
    return Some(f.(uuids := uuids));
  }

  // Of each kind of entry the last one counts; "auto" is no entry.

  ghost function TypesOf(scan: set<Bearer>, entries: seq<Entry>): set<Bearer> {
    if entries == [] then scan
    else if entries[|entries| - 1] == Transport("bredr") then SCAN_TYPE_BREDR
    else if entries[|entries| - 1] == Transport("le") then SCAN_TYPE_LE
    else TypesOf(scan, entries[..|entries| - 1])
  }

  ghost function RssiOf(entries: seq<Entry>): int {
    if entries == [] then DISTANCE_VAL_INVALID
    else if entries[|entries| - 1].Rssi? then entries[|entries| - 1].rssi
    else RssiOf(entries[..|entries| - 1])
  }

  ghost function PathlossOf(entries: seq<Entry>): int {
    if entries == [] then DISTANCE_VAL_INVALID
    else if entries[|entries| - 1].Pathloss? then entries[|entries| - 1].pathloss
    else PathlossOf(entries[..|entries| - 1])
  }

  ghost function DuplicateOf(entries: seq<Entry>): bool {
    entries != []
    && if entries[|entries| - 1].DuplicateData? then entries[|entries| - 1].duplicate
       else DuplicateOf(entries[..|entries| - 1])
  }

  ghost function DiscoverableOf(entries: seq<Entry>): bool {
    entries != []
    && if entries[|entries| - 1].Discoverable? then entries[|entries| - 1].discoverable
       else DiscoverableOf(entries[..|entries| - 1])
  }

  /** The filter says what the entries say, and names exactly their UUIDs. */
  ghost predicate Says(f: Filter, scan: set<Bearer>, entries: seq<Entry>) {
    && f.types == TypesOf(scan, entries) && f.rssi == RssiOf(entries) && f.pathloss == PathlossOf(entries)
    && f.duplicate == DuplicateOf(entries) && f.discoverable == DiscoverableOf(entries)
    && forall u :: u in f.uuids <==> exists i :: 0 <= i < |entries| && Names(entries[i], u)
  }

  lemma SaysMore(f: Filter, scan: set<Bearer>, entries: seq<Entry>, k: nat, f': Filter)
    requires k < |entries| && Says(f, scan, entries[..k])
    requires f' == match entries[k]
                   case Uuids(us) => f.(uuids := f'.uuids)
                   case Rssi(v) => f.(rssi := v)
                   case Pathloss(v) => f.(pathloss := v)
                   case Transport(name) => if name == "bredr" then f.(types := SCAN_TYPE_BREDR)
                                           else if name == "le" then f.(types := SCAN_TYPE_LE) else f
                   case DuplicateData(v) => f.(duplicate := v)
                   case Discoverable(v) => f.(discoverable := v)
                   case Other => f
    requires forall u :: u in f'.uuids <==> u in f.uuids || Names(entries[k], u)
    ensures Says(f', scan, entries[..k + 1])
  {
    var before, after := entries[..k], entries[..k + 1];
    assert after[..k] == before;
    assert forall u :: (exists i :: 0 <= i <= k && Names(after[i], u))
                  <==> (exists i :: 0 <= i < k && Names(before[i], u)) || Names(after[k], u);
  }

  /** None is an error; Some(None) an empty dictionary, which stands for regular discovery. */
  method ParseFilter(scan: set<Bearer>, entries: seq<Entry>) returns (r: Option<Wish>)
    ensures r == Some(None) <==> entries == []
    ensures r.None? <==> Malformed(entries)
    ensures r.Some? && r.value.Some? ==> Accepted(r.value.value) && Says(r.value.value, scan, entries)
  {
    var f := Filter(scan, DISTANCE_VAL_INVALID, DISTANCE_VAL_INVALID, [], false, false);
    hide Says;
    SaysNothing(f, scan);
    for k := 0 to |entries|
      invariant f.rssi == DISTANCE_VAL_INVALID || -127 <= f.rssi <= 20
      invariant f.pathloss == DISTANCE_VAL_INVALID || f.pathloss <= PATHLOSS_MAX
      invariant f.rssi != DISTANCE_VAL_INVALID <==> exists i :: 0 <= i < k && entries[i].Rssi?
      invariant f.pathloss != DISTANCE_VAL_INVALID <==> exists i :: 0 <= i < k && entries[i].Pathloss?
      invariant forall i :: 0 <= i < k ==> WellFormed(entries[i])
      invariant Says(f, scan, entries[..k])
    {
      var e := entries[k];
      ghost var before := f;
      match e {
        case Uuids(us) =>
          var parsed := ParseUuids(us, f);
          if parsed.None? { return None; }
          f := parsed.value;
        case Rssi(v) =>
          if v > 20 || v < -127 { return None; }
          f := f.(rssi := v);
        case Pathloss(v) =>
          if v > PATHLOSS_MAX { return None; }
          f := f.(pathloss := v);
        case Transport(name) =>
          if name == "bredr" {
            f := f.(types := SCAN_TYPE_BREDR);
          } else if name == "le" {
            f := f.(types := SCAN_TYPE_LE);
          } else if name != "auto" {
            return None;
          }
        case DuplicateData(v) => f := f.(duplicate := v);
        case Discoverable(v) => f := f.(discoverable := v);
        case Other => return None;
      }
      SaysMore(before, scan, entries, k, f);
    }
    assert entries[..|entries|] == entries;
    if entries == [] {
      return Some(None);
    }
    if f.pathloss != DISTANCE_VAL_INVALID && f.rssi != DISTANCE_VAL_INVALID {
      return None;
    }
    return Some(Some(f));
  }

  lemma SaysNothing(f: Filter, scan: set<Bearer>)
    requires f == Filter(scan, DISTANCE_VAL_INVALID, DISTANCE_VAL_INVALID, [], false, false)
    ensures Says(f, scan, [])
  {
  }

  // ----- merging -----

  ghost predicate AllAccepted(cs: seq<Wish>) {
    forall f :: Some(f) in cs ==> Accepted(f)
  }

  ghost predicate Filtered(cs: seq<Wish>) {
    exists f :: Some(f) in cs
  }

  ghost predicate NoLimit(cs: seq<Wish>) {
    exists f :: Some(f) in cs && f.rssi == DISTANCE_VAL_INVALID
  }

  ghost predicate AnyUuid(cs: seq<Wish>) {
    exists f :: Some(f) in cs && f.uuids == []
  }

  ghost predicate Scans(cs: seq<Wish>, b: Bearer) {
    exists f :: Some(f) in cs && b in f.types
  }

  ghost predicate Named(cs: seq<Wish>, u: nat) {
    exists f :: Some(f) in cs && u in f.uuids
  }

  ghost predicate Ascending(us: seq<nat>) {
    forall i, j :: 0 <= i < j < |us| ==> us[i] < us[j]
  }

  /** The lowest limit if every filter sets one; the value that stands for none otherwise. */
  ghost predicate LowestLimit(cs: seq<Wish>, rssi: int) {
    if Filtered(cs) && !NoLimit(cs)
    then (exists f :: Some(f) in cs && f.rssi == rssi) && forall f :: Some(f) in cs ==> rssi <= f.rssi
    else rssi == HCI_RSSI_INVALID
  }

  ghost predicate UnionOfUuids(cs: seq<Wish>, us: seq<nat>) {
    Ascending(us) && forall u :: u in us <==> Named(cs, u)
  }

  /** The merged filter; None asks for regular discovery. */
  ghost predicate Merged(cs: seq<Wish>, scan: set<Bearer>, k: Option<KernelFilter>) {
    if None in cs then
      k == if Filtered(cs) then Some(KernelFilter(scan, HCI_RSSI_INVALID, [])) else None
    else
      && k.Some?
      && (forall b :: b in k.value.types <==> Scans(cs, b))
      && LowestLimit(cs, k.value.rssi)
      && if AnyUuid(cs) then k.value.uuids == [] else UnionOfUuids(cs, k.value.uuids)
  }

  method ExtractUniqueUuid(u: nat, us: seq<nat>) returns (r: seq<nat>)
    requires Ascending(us)
    ensures Ascending(r) && forall v :: v in r <==> v in us || v == u
  {
    if u in us {
      return us;
    }
    var i := 0;
    while i < |us| && us[i] < u
      invariant i <= |us| && forall j :: 0 <= j < i ==> us[j] < u
    {
      i := i + 1;
    }
    InsertAscending(us, i, u);
    r := us[..i] + [u] + us[i..];
  }

  lemma InsertAscending(us: seq<nat>, i: nat, u: nat)
    requires Ascending(us) && i <= |us| && u !in us
    requires (forall j :: 0 <= j < i ==> us[j] < u) && (i < |us| ==> u <= us[i])
    ensures Ascending(us[..i] + [u] + us[i..])
    ensures forall v :: v in us[..i] + [u] + us[i..] <==> v in us || v == u
  {
    assert forall j :: i < j < |us| ==> us[i] < us[j];
    assert i < |us| ==> us[i] in us;
    assert us == us[..i] + us[i..];
  }

  lemma OneMore(cs: seq<Wish>, k: nat)
    requires k < |cs|
    ensures forall c :: c in cs[..k + 1] <==> c in cs[..k] || c == cs[k]
  {
    assert cs[..k + 1] == cs[..k] + [cs[k]];
  }

  /** rssi while merging: out of range as long as no filter has been seen. */
  ghost predicate LimitSoFar(cs: seq<Wish>, rssi: int) {
    if Filtered(cs) then LowestLimit(cs, rssi) else rssi == DISTANCE_VAL_INVALID
  }

  lemma LimitStep(cs: seq<Wish>, k: nat, rssi: int, f: Filter)
    requires k < |cs| && cs[k] == Some(f) && AllAccepted(cs) && LimitSoFar(cs[..k], rssi)
    ensures LimitSoFar(cs[..k + 1],
              if f.rssi == DISTANCE_VAL_INVALID then HCI_RSSI_INVALID
              else if rssi != HCI_RSSI_INVALID && rssi >= f.rssi then f.rssi
              else if f.pathloss != DISTANCE_VAL_INVALID then HCI_RSSI_INVALID else rssi)
  {
    OneMore(cs, k);
    var p := cs[..k];
    assert cs[k] in cs;
    assert Some(f) in cs[..k + 1];
    assert forall g :: Some(g) in p ==> Some(g) in cs;
  }

  method MergeDiscoveryFilters(cs: seq<Wish>, scan: set<Bearer>) returns (k: Option<KernelFilter>)
    requires AllAccepted(cs)
    ensures Merged(cs, scan, k)
  {
    var rssi, types, uuids: seq<nat> := DISTANCE_VAL_INVALID, {}, [];
    var emptyUuid, regular, filtered := false, false, false;
    hide LimitSoFar, LowestLimit;
    LimitStart();
    for i := 0 to |cs|
      invariant regular <==> None in cs[..i]
      invariant filtered <==> Filtered(cs[..i])
      invariant emptyUuid <==> AnyUuid(cs[..i])
      invariant forall b :: b in types <==> Scans(cs[..i], b)
      invariant LimitSoFar(cs[..i], rssi)
      invariant UnionOfUuids(cs[..i], uuids)
    {
      OneMore(cs, i);
      if cs[i].None? {
        LimitKeeps(cs, i, rssi);
        regular := true;
        continue;
      }
      var item := cs[i].value;
      LimitStep(cs, i, rssi, item);
      filtered := true;
      types := types + item.types;
      if item.rssi == DISTANCE_VAL_INVALID {
        rssi := HCI_RSSI_INVALID;
      } else if rssi != HCI_RSSI_INVALID && rssi >= item.rssi {
        rssi := item.rssi;
      } else if item.pathloss != DISTANCE_VAL_INVALID {
        rssi := HCI_RSSI_INVALID;
      }
      if |item.uuids| == 0 {
        emptyUuid := true;
      }
      uuids := ExtractUniqueUuids(cs, i, item, uuids);
    }
    assert cs[..|cs|] == cs;
    LimitEnd(cs, rssi);
    if rssi == DISTANCE_VAL_INVALID {
      rssi := HCI_RSSI_INVALID;
    }
    if emptyUuid {
      uuids := [];
    }
    if regular {
      if !filtered {
        return None;
      }
      return Some(KernelFilter(scan, HCI_RSSI_INVALID, []));
    }
    return Some(KernelFilter(types, rssi, uuids));
  }

  method ExtractUniqueUuids(cs: seq<Wish>, k: nat, item: Filter, us: seq<nat>) returns (r: seq<nat>)
    requires k < |cs| && cs[k] == Some(item) && UnionOfUuids(cs[..k], us)
    ensures UnionOfUuids(cs[..k + 1], r)
  {
    r := us;
    for j := 0 to |item.uuids|
      invariant Ascending(r) && forall u :: u in r <==> u in us || u in item.uuids[..j]
    {
      assert item.uuids[..j + 1] == item.uuids[..j] + [item.uuids[j]];
      r := ExtractUniqueUuid(item.uuids[j], r);
    }
    assert item.uuids[..|item.uuids|] == item.uuids;
    OneMore(cs, k);
    assert forall u :: Named(cs[..k + 1], u) <==> Named(cs[..k], u) || u in item.uuids by {
      assert Some(item) in cs[..k + 1];
    }
  }

  lemma LimitStart()
    ensures LimitSoFar([], DISTANCE_VAL_INVALID)
  {
  }

  lemma LimitKeeps(cs: seq<Wish>, k: nat, rssi: int)
    requires k < |cs| && cs[k] == None && LimitSoFar(cs[..k], rssi)
    ensures LimitSoFar(cs[..k + 1], rssi)
  {
    OneMore(cs, k);
    assert forall f :: Some(f) in cs[..k + 1] <==> Some(f) in cs[..k];
  }

  lemma LimitEnd(cs: seq<Wish>, rssi: int)
    requires AllAccepted(cs) && LimitSoFar(cs, rssi)
    ensures LowestLimit(cs, if rssi == DISTANCE_VAL_INVALID then HCI_RSSI_INVALID else rssi)
  {
  }

  // ----- found devices -----

  datatype Device = Device(bearer: Bearer, rssi: int, txPower: int, services: seq<nat>)

  predicate Overlap(us: seq<nat>, vs: seq<nat>) {
    exists u :: u in us && u in vs
  }

  /** What the kernel does with a filter: 127 stands for no limit, no UUIDs for any UUID. */
  predicate KernelPasses(k: KernelFilter, d: Device) {
    && d.bearer in k.types
    && (k.rssi == HCI_RSSI_INVALID || k.rssi <= d.rssi)
    && (k.uuids == [] || Overlap(k.uuids, d.services))
  }

  predicate UuidMatch(f: Filter, d: Device) {
    f.uuids == [] || Overlap(f.uuids, d.services)
  }

  predicate RssiMatch(f: Filter, d: Device) {
    f.rssi == DISTANCE_VAL_INVALID || f.rssi <= d.rssi
  }

  predicate PathlossMatch(f: Filter, d: Device) {
    f.pathloss == DISTANCE_VAL_INVALID || (d.txPower != TX_POWER_INVALID && d.txPower - d.rssi <= f.pathloss)
  }

  /** The device is one the client asks for. */
  ghost predicate Wanted(c: Wish, d: Device) {
    || c.None?
    || (d.bearer in c.value.types && UuidMatch(c.value, d) && RssiMatch(c.value, d) && PathlossMatch(c.value, d))
  }

  /** Some wish is regular, or its UUIDs match and one of its limits is met or absent. */
  ghost predicate Matches(cs: seq<Wish>, d: Device) {
    exists c :: c in cs && (c.None? || (UuidMatch(c.value, d) && (RssiMatch(c.value, d) || PathlossMatch(c.value, d))))
  }

  method IsFilterMatch(cs: seq<Wish>, d: Device) returns (found: bool)
    ensures found <==> Matches(cs, d)
  {
    found := false;
    var k := 0;
    while k < |cs| && !found
      invariant k <= |cs|
      invariant if found then Matches(cs, d) else !Matches(cs[..k], d)
    {
      OneMore(cs, k);
      if cs[k].None? {
        found := true;
        k := k + 1;
        continue;
      }
      var item := cs[k].value;
      if item.uuids == [] {
        found := true;
      } else {
        var m := 0;
        while m < |item.uuids| && !found
          invariant m <= |item.uuids|
          invariant found ==> Overlap(item.uuids, d.services)
          invariant !found ==> forall j :: 0 <= j < m ==> item.uuids[j] !in d.services
        {
          if item.uuids[m] in d.services {
            found := true;
          }
          m := m + 1;
        }
      }
      assert found <==> UuidMatch(item, d);
      if found {
        if item.rssi == DISTANCE_VAL_INVALID || item.rssi <= d.rssi || item.pathloss == DISTANCE_VAL_INVALID
           || (d.txPower != TX_POWER_INVALID && d.txPower - d.rssi <= item.pathloss)
        {
          return true;
        }
        found := false;
      }
      k := k + 1;
    }
    if !found {
      assert cs[..k] == cs;
    }
  }

  // ----- what the merged filter is worth -----

  /** Without a regular client, the kernel passes exactly the devices whose bearer some filter
      scans, whose UUIDs some filter accepts and whose signal some filter accepts. */
  lemma KernelPassesExactly(cs: seq<Wish>, scan: set<Bearer>, k: KernelFilter, d: Device)
    requires Merged(cs, scan, Some(k)) && AllAccepted(cs) && None !in cs
    ensures KernelPasses(k, d) <==>
              && Scans(cs, d.bearer)
              && (exists f :: Some(f) in cs && UuidMatch(f, d))
              && (exists f :: Some(f) in cs && RssiMatch(f, d))
  {
    assert Scans(cs, d.bearer) ==> Filtered(cs);
    if Filtered(cs) {
      LimitMatch(cs, k.rssi, d);
      UuidsMatch(cs, k.uuids, d);
    }
  }

  lemma LimitMatch(cs: seq<Wish>, rssi: int, d: Device)
    requires Filtered(cs) && AllAccepted(cs) && LowestLimit(cs, rssi)
    ensures (rssi == HCI_RSSI_INVALID || rssi <= d.rssi) <==> exists f :: Some(f) in cs && RssiMatch(f, d)
  {
    if NoLimit(cs) {
      var f :| Some(f) in cs && f.rssi == DISTANCE_VAL_INVALID;
      assert RssiMatch(f, d);
    } else {
      var f :| Some(f) in cs && f.rssi == rssi;
      assert RssiMatch(f, d) <==> rssi <= d.rssi;
    }
  }

  lemma UuidsMatch(cs: seq<Wish>, us: seq<nat>, d: Device)
    requires Filtered(cs) && if AnyUuid(cs) then us == [] else UnionOfUuids(cs, us)
    ensures (us == [] || Overlap(us, d.services)) <==> exists f :: Some(f) in cs && UuidMatch(f, d)
  {
    if AnyUuid(cs) {
      var f :| Some(f) in cs && f.uuids == [];
      assert UuidMatch(f, d);
    } else {
      var f :| Some(f) in cs;
      assert f.uuids[0] in us by { assert Named(cs, f.uuids[0]); }
      if u :| u in us && u in d.services {
        var g :| Some(g) in cs && u in g.uuids;
        assert UuidMatch(g, d);
      }
      if g :| Some(g) in cs && UuidMatch(g, d) {
        var u :| u in g.uuids && u in d.services;
        assert Named(cs, u);
      }
    }
  }

  /** No device that a client wants is lost, neither in the kernel nor in the daemon. */
  lemma NoWantedDeviceIsLost(cs: seq<Wish>, scan: set<Bearer>, k: Option<KernelFilter>, c: Wish, d: Device)
    requires AllAccepted(cs) && Merged(cs, scan, k)
    requires c in cs && Wanted(c, d) && d.bearer in scan
    ensures k.None? || KernelPasses(k.value, d)
    ensures Matches(cs, d)
  {
    if None !in cs {
      KernelPassesExactly(cs, scan, k.value, d);
    }
  }

  /** No accepted filter has both limits, so the proximity test never rejects a device: a pathloss
      limit is applied neither in the kernel nor in the daemon. */
  lemma ProximityNeverRejects(cs: seq<Wish>, d: Device)
    requires AllAccepted(cs)
    ensures Matches(cs, d) <==> exists c :: c in cs && (c.None? || UuidMatch(c.value, d))
  {
  }

  ghost predicate LimitsAmong(cs: seq<Wish>, ds: seq<Wish>) {
    forall f :: Some(f) in cs ==> exists g :: Some(g) in ds && g.rssi == f.rssi
  }

  /** The filters of both lists say the same, field by field. */
  ghost predicate SayTheSame(cs: seq<Wish>, ds: seq<Wish>) {
    && (None in cs <==> None in ds) && (Filtered(cs) <==> Filtered(ds))
    && (NoLimit(cs) <==> NoLimit(ds)) && (AnyUuid(cs) <==> AnyUuid(ds))
    && (forall b :: Scans(cs, b) <==> Scans(ds, b))
    && (forall u :: Named(cs, u) <==> Named(ds, u))
    && LimitsAmong(cs, ds) && LimitsAmong(ds, cs)
  }

  /** The merged filter is determined by what the filters say, not by who says it, how often or in
      which order: comparing merged filters part by part finds the same request. */
  lemma MergedIsCanonical(cs: seq<Wish>, ds: seq<Wish>, scan: set<Bearer>, k: Option<KernelFilter>,
                          l: Option<KernelFilter>)
    requires Merged(cs, scan, k) && Merged(ds, scan, l) && SayTheSame(cs, ds)
    ensures k == l
  {
    if None !in cs {
      LimitIsDetermined(cs, ds, k.value.rssi, l.value.rssi);
      hide LowestLimit, Filtered, NoLimit, AnyUuid, Scans, Named, Ascending, LimitsAmong;
      assert k.value.types == l.value.types;
      if !AnyUuid(cs) {
        AscendingIsCanonical(k.value.uuids, l.value.uuids);
      }
    }
  }

  lemma LimitIsNotBelow(cs: seq<Wish>, ds: seq<Wish>, r: int, t: int)
    requires LowestLimit(cs, r) && LowestLimit(ds, t) && LimitsAmong(cs, ds)
    requires Filtered(cs) && !NoLimit(cs) && !NoLimit(ds)
    ensures t <= r
  {
    var f :| Some(f) in cs && f.rssi == r;
    assert Filtered(ds);
  }

  lemma LimitIsDetermined(cs: seq<Wish>, ds: seq<Wish>, r: int, t: int)
    requires LowestLimit(cs, r) && LowestLimit(ds, t) && SayTheSame(cs, ds)
    ensures r == t
  {
    hide LimitsAmong, Scans, Named, Filtered, NoLimit;
    if Filtered(cs) && !NoLimit(cs) {
      LimitIsNotBelow(cs, ds, r, t);
      LimitIsNotBelow(ds, cs, t, r);
    }
  }

  lemma {:induction false} AscendingIsCanonical(us: seq<nat>, vs: seq<nat>)
    requires Ascending(us) && Ascending(vs) && forall u :: u in us <==> u in vs
    ensures us == vs
  {
    assert us != [] ==> us[0] in vs;
    assert vs != [] ==> vs[0] in us;
    if us != [] {
      var m, n := |us| - 1, |vs| - 1;
      assert us[m] in vs && vs[n] in us;
      assert us[m] == vs[n];
      forall u
        ensures u in us[..m] <==> u in vs[..n]
      {
        if u in us[..m] {
          assert u in us && u < us[m];
        }
        if u in vs[..n] {
          assert u in vs && u < vs[n];
        }
      }
      AscendingIsCanonical(us[..m], vs[..n]);
    }
  }

  /** One list is the other up to order, repetition, and order and repetition of UUIDs. */
  ghost predicate ContainedIn(cs: seq<Wish>, ds: seq<Wish>) {
    forall c :: c in cs ==> exists d :: d in ds && SameWish(c, d)
  }

  ghost predicate SameWish(c: Wish, d: Wish) {
    if c.None? || d.None? then c == d
    else c.value == d.value.(uuids := c.value.uuids) && forall u :: u in c.value.uuids <==> u in d.value.uuids
  }

  lemma RearrangedSaysTheSame(cs: seq<Wish>, ds: seq<Wish>)
    requires ContainedIn(cs, ds) && ContainedIn(ds, cs)
    ensures SayTheSame(cs, ds)
  {
    hide ContainedIn, Filtered, NoLimit, AnyUuid, Scans, Named;
    SaysAtLeast(cs, ds);
    SaysAtLeast(ds, cs);
  }

  lemma SaysAtLeast(cs: seq<Wish>, ds: seq<Wish>)
    requires ContainedIn(cs, ds)
    ensures (None in cs ==> None in ds) && (Filtered(cs) ==> Filtered(ds))
    ensures (NoLimit(cs) ==> NoLimit(ds)) && (AnyUuid(cs) ==> AnyUuid(ds))
    ensures forall b :: Scans(cs, b) ==> Scans(ds, b)
    ensures forall u :: Named(cs, u) ==> Named(ds, u)
    ensures LimitsAmong(cs, ds)
  {
    forall f | Some(f) in cs
      ensures exists g :: Some(g) in ds && SameWish(Some(f), Some(g))
    {
      var d :| d in ds && SameWish(Some(f), d);
      assert d == Some(d.value);
    }
    if AnyUuid(cs) {
      var f :| Some(f) in cs && f.uuids == [];
      var g :| Some(g) in ds && SameWish(Some(f), Some(g));
      NoMembers(g.uuids);
    }
  }

  lemma NoMembers(us: seq<nat>)
    ensures us == [] || exists u :: u in us
  {
    if us != [] {
      assert us[0] in us;
    }
  }
}
