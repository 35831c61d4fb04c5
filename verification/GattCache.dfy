/** Loading the GATT cache of a device: two passes over the lines, services first. */
module GattCache {
  import opened Bytes
  import opened Text
  import opened GattDb
  import opened GattText
  import opened GattStore

  /** The database being filled, and which service its lines now belong to. */
  datatype Loading = Loading(db: Db, current: Option<nat>)

  // ----- lines -----

  function NumHandles(start: u16, end: u16): u16 {
    (end - start + 1) % 0x1_0000
  }

  /** The first pass declares services and skips all other lines. */
  function DeclareLine(db: Db, handle: string, value: string): Option<Db> {
    var kind :- ScanType(value);
    if !IsServiceKind(kind.0) then Some(db)
    else
      var c :- LoadService(handle, value);
      InsertService(db, c.start, c.uuid, c.primary, NumHandles(c.start, c.end))
  }

  /** The current service becomes active. */
  function Activated(l: Loading): Db {
    if l.current.Some? && l.current.value < |l.db.services|
    then
      var c := l.current.value;
      l.db.(services := l.db.services[c := l.db.services[c].(active := true)])
    else l.db
  }

  /** The service that lines now belong to. */
  function Here(l: Loading): Service
    requires l.current.Some? && l.current.value < |l.db.services|
  {
    l.db.services[l.current.value]
  }

  function WithService(l: Loading, s: Service): Loading
    requires l.current.Some? && l.current.value < |l.db.services|
  {
    l.(db := l.db.(services := l.db.services[l.current.value := s]))
  }

  /** The last item gets a value. */
  function WithValue(s: Service, value: seq<byte>): Service
    requires s.items != [] && !s.items[|s.items| - 1].Incl?
  {
    s.(items := s.items[|s.items| - 1 := s.items[|s.items| - 1].(value := value)])
  }

  /** load_incl, load_chrc and load_desc behind their scans: an attribute goes into the current service,
      and it must have got its handle. */
  function Apply(c: Command, l: Loading): Option<Loading> {
    if l.current.None? || l.current.value >= |l.db.services| then None
    else
      var s := l.db.services[l.current.value];
      match c
      case AddService(_, _, _, _) => Some(l)
      case AddIncluded(h) =>
        var k :- GetAttribute(l.db.services, h);
        var t :- InsertIncluded(s, 0, l.db.services[k]);
        Some(WithService(l, t))
      case AddChrc(h, properties, value, uuid) =>
        var t :- InsertCharacteristic(s, h, uuid, properties);
        if Top(t) == h then Some(WithService(l, WithValue(t, value))) else None
      case AddDesc(h, extended, uuid) =>
        var t :- InsertDescriptor(s, h, uuid);
        if Top(t) != h then None
        else if extended == 0 then Some(WithService(l, t))
        else Some(WithService(l, WithValue(t, [extended % 0x100, extended / 0x100])))
  }

  /** The second pass: a service line makes its service the current one. */
  function FillLine(l: Loading, handle: string, value: string): Option<Loading> {
    var kind :- ScanType(value);
    if IsServiceKind(kind.0)
    then
      var h :- ScanHex(handle, 4);
      Some(Loading(Activated(l), GetAttribute(l.db.services, h.0)))
    else
      var c :- LoadLine(handle, value);
      Apply(c, l)
  }

  // ----- files -----

  function Declared(file: CacheFile, db: Db): Option<Db> {
    if file == [] then Some(db)
    else
      var next :- DeclareLine(db, file[0].0, file[0].1);
      Declared(file[1..], next)
  }

  function Filled(file: CacheFile, l: Loading): Option<Loading> {
    if file == [] then Some(l)
    else
      var next :- FillLine(l, file[0].0, file[0].1);
      Filled(file[1..], next)
  }

  const EMPTY := Db([], 1)

  /** What a file makes of an empty database; None stands for the error code. */
  function Restored(file: CacheFile): Option<seq<Service>> {
    var db :- Declared(file, EMPTY);
    var l :- Filled(file, Loading(db, None));
    Some(Activated(l).services)
  }

  /** load_gatt_db_impl */
  method LoadFile(file: CacheFile) returns (r: Option<seq<Service>>)
    ensures r == Restored(file)
  {
    hide DeclareLine, FillLine;
    var db := EMPTY;
    for k := 0 to |file|
      invariant Declared(file[k..], db) == Declared(file, EMPTY)
    {
      assert file[k..][1..] == file[k + 1..];
      var next := DeclareLine(db, file[k].0, file[k].1);
      if next.None? {
        return None;
      }
      db := next.value;
    }
    assert file[|file|..] == [];
    var l := Loading(db, None);
    for k := 0 to |file|
      invariant Filled(file[k..], l) == Filled(file, Loading(db, None))
    {
      assert file[k..][1..] == file[k + 1..];
      var next := FillLine(l, file[k].0, file[k].1);
      if next.None? {
        return None;
      }
      l := next.value;
    }
    assert file[|file|..] == [];
    r := Some(Activated(l).services);
  }

  // ----- what stored lines do -----

  /** What the saver writes: values of extended properties are bytes. */
  predicate Saved(e: Entry) {
    Storable(e) && (e.DescLine? ==> e.extended < 0x100)
  }

  lemma KindOfSaved(e: Entry)
    requires Saved(e)
    ensures ScanType(Line(e)).Some? && (IsServiceKind(ScanType(Line(e)).value.0) <==> e.ServiceLine?)
  {
    hide ScanType, Hex16, Line;
    KindBack(e);
    if e.DescLine? {
      KindsAreNumbers(e.extended);
    }
  }

  lemma DeclareEntry(db: Db, e: Entry)
    requires Saved(e)
    ensures DeclareLine(db, Key(e), Line(e)) ==
      if e.ServiceLine? then InsertService(db, e.handle, e.uuid, e.primary, NumHandles(e.handle, e.end))
      else Some(db)
  {
    hide ScanType, LoadService, Hex16, Line, Key, InsertService, IsServiceKind;
    KindOfSaved(e);
    if e.ServiceLine? {
      ServiceBack(e);
    }
  }

  lemma FillEntry(l: Loading, e: Entry)
    requires Saved(e)
    ensures FillLine(l, Key(e), Line(e)) ==
      if e.ServiceLine? then Some(Loading(Activated(l), GetAttribute(l.db.services, e.handle)))
      else if Readable(e) then Apply(CommandOf(e), l) else None
  {
    hide ScanType, LoadLine, Hex16, Line, Key, Activated, GetAttribute, Apply, IsServiceKind, Readable;
    KindOfSaved(e);
    KeyBack(e);
    LineBack(e);
  }

  // ----- filling one service -----

  function SlotsFor(e: Entry): nat {
    if e.ServiceLine? then 0 else if e.ChrcLine? then 2 else 1
  }

  function SlotsForAll(es: seq<Entry>): nat {
    if es == [] then 0 else SlotsFor(es[0]) + SlotsForAll(es[1..])
  }

  /** The item that a line becomes behind the handle that is taken last: an include goes there, whatever
      its own handle was. */
  function NewItem(e: Entry, top: u16): Item
    requires !e.ServiceLine?
  {
    match e
    case InclLine(_, start, end, _) => Incl((top + 1) % 0x1_0000, start, end)
    case ChrcLine(_, valueHandle, properties, value, uuid) => Chrc(valueHandle, properties, uuid, value)
    case DescLine(handle, extended, uuid) =>
      Desc(handle, uuid, if extended == 0 then [] else [extended % 0x100, extended / 0x100])
  }

  function NewItems(es: seq<Entry>, top: u16): (items: seq<Item>)
    requires forall i :: 0 <= i < |es| ==> !es[i].ServiceLine?
    ensures |items| == |es|
  {
    if es == [] then [] else [NewItem(es[0], top)] + NewItems(es[1..], LastHandle(NewItem(es[0], top)))
  }

  /** The line belongs to an attribute inside this service. */
  predicate Fits(e: Entry, start: u16) {
    && Saved(e) && !e.ServiceLine?
    && (e.ChrcLine? ==> start < e.valueHandle < UINT16_MAX)
    && (e.DescLine? ==> start < e.handle)
  }

  /** An include points to the start of a service, if to any, and says where that one ends. */
  ghost predicate Targets(e: Entry, ss: seq<Service>) {
    e.InclLine? ==>
      && e.start > 0
      && var k := FindService(ss, e.start, 0); k < |ss| ==> ss[k].start == e.start && End(ss[k]) == e.end
  }

  /** The line can be loaded: it can be read, and what it includes is there. */
  ghost predicate Good(e: Entry, ss: seq<Service>) {
    Readable(e) && (e.InclLine? ==> FindService(ss, e.start, 0) < |ss|)
  }

  function Grown(l: Loading, items: seq<Item>): Loading
    requires l.current.Some? && l.current.value < |l.db.services|
  {
    var s := Here(l);
    WithService(l, s.(items := s.items + items))
  }

  lemma ApplyEntry(l: Loading, e: Entry)
    requires l.current.Some? && l.current.value < |l.db.services|
    requires Fits(e, Here(l).start) && Targets(e, l.db.services) && HasRoom(Here(l), SlotsFor(e))
    ensures (if Readable(e) then Apply(CommandOf(e), l) else None)
         == if Good(e, l.db.services) then Some(Grown(l, [NewItem(e, Top(Here(l)))])) else None
  {
    hide Readable, Slots, Storable;
    var s := Here(l);
    var item := NewItem(e, Top(s));
    match e
    case InclLine(_, _, _, _) =>
    case ChrcLine(_, valueHandle, properties, value, uuid) =>
      var t := s.(items := s.items + [Chrc(valueHandle, properties, uuid, [])]);
      assert WithValue(t, value) == s.(items := s.items + [item]);
    case DescLine(handle, extended, uuid) =>
      var t := s.(items := s.items + [Desc(handle, uuid, [])]);
      assert extended != 0 ==> WithValue(t, [extended % 0x100, extended / 0x100]) == s.(items := s.items + [item]);
  }

  lemma SameShape(l: Loading, item: Item, e: Entry)
    requires l.current.Some? && l.current.value < |l.db.services|
    ensures Targets(e, l.db.services) <==> Targets(e, Grown(l, [item]).db.services)
    ensures Good(e, l.db.services) <==> Good(e, Grown(l, [item]).db.services)
  {
    if e.InclLine? {
      FindSame(l.db.services, Grown(l, [item]).db.services, e.start, 0);
    }
  }

  ghost predicate AllGood(es: seq<Entry>, ss: seq<Service>) {
    forall i :: 0 <= i < |es| ==> Good(es[i], ss)
  }

  ghost predicate AllFit(es: seq<Entry>, start: u16, ss: seq<Service>) {
    forall i :: 0 <= i < |es| ==> Fits(es[i], start) && Targets(es[i], ss)
  }

  /** The lines behind a service line fill the service if all of them are good, and otherwise nothing
      is loaded. */
  lemma {:induction false} FillBody(es: seq<Entry>, l: Loading)
    requires l.current.Some? && l.current.value < |l.db.services|
    requires AllFit(es, Here(l).start, l.db.services) && HasRoom(Here(l), SlotsForAll(es))
    ensures forall i :: 0 <= i < |es| ==> !es[i].ServiceLine?
    ensures Filled(Lines(es), l)
         == if AllGood(es, l.db.services) then Some(Grown(l, NewItems(es, Top(Here(l))))) else None
  {
    var s := Here(l);
    if es == [] {
      GrownByNothing(l);
    } else {
      var item := NewItem(es[0], Top(s));
      var next := Grown(l, [item]);
      FillStep(es, l);
      AllGoodStep(es, l, item);
      if Good(es[0], l.db.services) {
        RoomStep(s, es, item);
        FillBody(es[1..], next);
        GrownTwice(l, item, NewItems(es[1..], LastHandle(item)));
      }
    }
  }

  lemma GrownByNothing(l: Loading)
    requires l.current.Some? && l.current.value < |l.db.services|
    ensures Grown(l, []) == l
  {
    var s := Here(l);
    assert s.(items := s.items + []) == s;
    assert l.db.services[l.current.value := s] == l.db.services;
  }

  lemma FillStep(es: seq<Entry>, l: Loading)
    requires es != [] && l.current.Some? && l.current.value < |l.db.services|
    requires AllFit(es, Here(l).start, l.db.services) && HasRoom(Here(l), SlotsForAll(es))
    ensures !es[0].ServiceLine?
    ensures Filled(Lines(es), l)
         == if Good(es[0], l.db.services)
            then Filled(Lines(es[1..]), Grown(l, [NewItem(es[0], Top(Here(l)))])) else None
  {
    hide Key, Line, FillLine, Apply, Good, Readable, Grown, Targets, Saved;
    FillEntry(l, es[0]);
    ApplyEntry(l, es[0]);
    assert Lines(es)[1..] == Lines(es[1..]);
  }

  lemma AllGoodStep(es: seq<Entry>, l: Loading, item: Item)
    requires es != [] && l.current.Some? && l.current.value < |l.db.services|
    ensures AllGood(es, l.db.services)
       <==> Good(es[0], l.db.services) && AllGood(es[1..], Grown(l, [item]).db.services)
    ensures forall start: u16 :: AllFit(es, start, l.db.services) ==>
              AllFit(es[1..], start, Grown(l, [item]).db.services)
  {
    hide Good, Targets, Fits, Grown;
    forall i | 0 <= i < |es|
      ensures Good(es[i], l.db.services) <==> Good(es[i], Grown(l, [item]).db.services)
      ensures Targets(es[i], l.db.services) <==> Targets(es[i], Grown(l, [item]).db.services)
    {
      SameShape(l, item, es[i]);
    }
    assert forall i :: 1 <= i < |es| ==> es[i] == es[1..][i - 1];
    assert forall i :: 0 <= i < |es[1..]| ==> es[1..][i] == es[i + 1];
  }

  lemma RoomStep(s: Service, es: seq<Entry>, item: Item)
    requires es != [] && HasRoom(s, SlotsForAll(es)) && Width(item) == SlotsFor(es[0])
    ensures HasRoom(s.(items := s.items + [item]), SlotsForAll(es[1..]))
  {
    SlotsSnoc(s.items, item);
  }

  lemma GrownTwice(l: Loading, item: Item, items: seq<Item>)
    requires l.current.Some? && l.current.value < |l.db.services|
    ensures Grown(Grown(l, [item]), items) == Grown(l, [item] + items)
  {
    var s := Here(l);
    assert (s.items + [item]) + items == s.items + ([item] + items);
  }

  /** Pieces of a file are loaded one after the other. */
  lemma {:induction false} FilledConcat(a: CacheFile, b: CacheFile, l: Loading)
    ensures Filled(a + b, l) == match Filled(a, l) case None => None case Some(next) => Filled(b, next)
  {
    hide FillLine;
    if a == [] {
      assert a + b == b;
    } else {
      assert (a + b)[1..] == a[1..] + b;
      var next := FillLine(l, a[0].0, a[0].1);
      if next.Some? {
        FilledConcat(a[1..], b, next.value);
      }
    }
  }

  lemma {:induction false} DeclaredConcat(a: CacheFile, b: CacheFile, db: Db)
    ensures Declared(a + b, db) == match Declared(a, db) case None => None case Some(next) => Declared(b, next)
  {
    hide DeclareLine;
    if a == [] {
      assert a + b == b;
    } else {
      assert (a + b)[1..] == a[1..] + b;
      var next := DeclareLine(db, a[0].0, a[0].1);
      if next.Some? {
        DeclaredConcat(a[1..], b, next.value);
      }
    }
  }

  /** Lines that declare no service leave the first pass alone. */
  lemma {:induction false} DeclareBody(es: seq<Entry>, db: Db)
    requires forall i :: 0 <= i < |es| ==> Saved(es[i]) && !es[i].ServiceLine?
    ensures Declared(Lines(es), db) == Some(db)
  {
    if es != [] {
      hide Key, Line, DeclareLine, Saved;
      DeclareEntry(db, es[0]);
      assert Lines(es)[1..] == Lines(es[1..]);
      DeclareBody(es[1..], db);
    }
  }

  // ----- how much a file can make -----

  /** The services and their items. */
  function Size(ss: seq<Service>): nat {
    if ss == [] then 0 else 1 + |ss[0].items| + Size(ss[1..])
  }

  lemma {:induction false} SizeConcat(ss: seq<Service>, ts: seq<Service>)
    ensures Size(ss + ts) == Size(ss) + Size(ts)
  {
    if ss == [] {
      assert ss + ts == ts;
    } else {
      assert (ss + ts)[1..] == ss[1..] + ts;
      SizeConcat(ss[1..], ts);
    }
  }

  lemma SizeAt(ss: seq<Service>, k: nat, s: Service)
    requires k < |ss|
    ensures Size(ss[k := s]) + |ss[k].items| == Size(ss) + |s.items|
  {
    SizeOne(ss, k);
    SizeOne(ss[k := s], k);
    assert ss[k := s][..k] == ss[..k] && ss[k := s][k + 1..] == ss[k + 1..];
  }

  lemma SizeOne(ss: seq<Service>, k: nat)
    requires k < |ss|
    ensures Size(ss) == Size(ss[..k]) + (1 + |ss[k].items|) + Size(ss[k + 1..])
  {
    assert ss == ss[..k] + ss[k..] && ss[k..][1..] == ss[k + 1..];
    SizeConcat(ss[..k], ss[k..]);
  }

  /** Whether both passes take the line for that of a service. */
  predicate OfService(value: string) {
    ScanType(value).Some? && IsServiceKind(ScanType(value).value.0)
  }

  function ServiceLines(file: CacheFile): (n: nat)
    ensures n <= |file|
  {
    if file == [] then 0 else (if OfService(file[0].1) then 1 else 0) + ServiceLines(file[1..])
  }

  lemma DeclareSize(db: Db, handle: string, value: string)
    ensures var r := DeclareLine(db, handle, value);
            r.Some? ==> Size(r.value.services) <= Size(db.services) + if OfService(value) then 1 else 0
  {
    hide ScanType, LoadService, InsertLoc, IsServiceKind, NumHandles;
    var r, ss := DeclareLine(db, handle, value), db.services;
    if r.Some? && r.value != db {
      var i: nat, t: Service :| i <= |ss| && t.items == [] && r.value.services == ss[..i] + [t] + ss[i..];
      assert ss == ss[..i] + ss[i..] && Size([t]) == 1;
      SizeConcat(ss[..i], ss[i..]);
      SizeConcat(ss[..i], [t]);
      SizeConcat(ss[..i] + [t], ss[i..]);
    }
  }

  lemma ActivatedSize(l: Loading)
    ensures Size(Activated(l).services) == Size(l.db.services)
  {
    if l.current.Some? && l.current.value < |l.db.services| {
      SizeAt(l.db.services, l.current.value, l.db.services[l.current.value].(active := true));
    }
  }

  lemma ApplySize(c: Command, l: Loading)
    ensures var r := Apply(c, l); r.Some? ==> Size(r.value.db.services) <= Size(l.db.services) + 1
  {
    hide GetAttribute, HasRoom;
    var r := Apply(c, l);
    if r.Some? && !c.AddService? {
      var k := l.current.value;
      SizeAt(l.db.services, k, r.value.db.services[k]);
    }
  }

  lemma FillSize(l: Loading, handle: string, value: string)
    ensures var r := FillLine(l, handle, value);
            r.Some? ==> Size(r.value.db.services) <= Size(l.db.services) + if OfService(value) then 0 else 1
  {
    hide ScanType, LoadLine, IsServiceKind, GetAttribute, Activated, Apply, ScanHex;
    ActivatedSize(l);
    var c := LoadLine(handle, value);
    if c.Some? {
      ApplySize(c.value, l);
    }
  }

  lemma {:induction false} DeclaredSize(file: CacheFile, db: Db)
    ensures var r := Declared(file, db);
            r.Some? ==> Size(r.value.services) <= Size(db.services) + ServiceLines(file)
  {
    hide DeclareLine, OfService;
    if file != [] {
      DeclareSize(db, file[0].0, file[0].1);
      var next := DeclareLine(db, file[0].0, file[0].1);
      if next.Some? {
        DeclaredSize(file[1..], next.value);
      }
    }
  }

  lemma {:induction false} FilledSize(file: CacheFile, l: Loading)
    ensures var r := Filled(file, l);
            r.Some? ==> Size(r.value.db.services) <= Size(l.db.services) + |file| - ServiceLines(file)
  {
    hide FillLine, OfService;
    if file != [] {
      FillSize(l, file[0].0, file[0].1);
      var next := FillLine(l, file[0].0, file[0].1);
      if next.Some? {
        FilledSize(file[1..], next.value);
      }
    }
  }

  /** Whatever a file holds, it makes at most one service or item for each line. */
  lemma RestoredSize(file: CacheFile)
    ensures Restored(file).Some? ==> Size(Restored(file).value) <= |file|
  {
    hide Declared, Filled, ServiceLines, Activated;
    DeclaredSize(file, EMPTY);
    var db := Declared(file, EMPTY);
    if db.Some? {
      FilledSize(file, Loading(db.value, None));
      var l := Filled(file, Loading(db.value, None));
      if l.Some? {
        ActivatedSize(l.value);
      }
    }
  }
}
