/** What comes back when the database of a device is stored and loaded again. */
module GattRoundTrip {
  import opened Bytes
  import opened Text
  import opened GattDb
  import opened GattText
  import opened GattStore
  import opened GattCache

  // ----- databases -----

  /** An attribute lies inside its service; an include points to a service of the database. */
  ghost predicate ItemOk(ss: seq<Service>, s: Service, i: Item) {
    match i
    case Incl(_, start, end) => exists k :: 0 <= k < |ss| && ss[k].start == start && End(ss[k]) == end
    case Chrc(valueHandle, _, uuid, _) => s.start < valueHandle < UINT16_MAX && Canonical(uuid)
    case Desc(handle, uuid, _) => s.start < handle && Canonical(uuid)
  }

  ghost predicate WellFormed(ss: seq<Service>) {
    && Ascending(ss)
    && forall k :: 0 <= k < |ss| ==>
         && Canonical(ss[k].uuid) && HasRoom(ss[k], 0)
         && forall i :: 0 <= i < |ss[k].items| ==> ItemOk(ss, ss[k], ss[k].items[i])
  }

  function Active(ss: seq<Service>, i: nat): seq<Service>
    requires i <= |ss|
    decreases |ss| - i
  {
    if i == |ss| then [] else (if ss[i].active then [ss[i]] else []) + Active(ss, i + 1)
  }

  /** The active services are some of the services. */
  lemma {:induction false} ActiveOnes(ss: seq<Service>, i: nat)
    requires i <= |ss|
    ensures forall s :: s in Active(ss, i) <==> exists k :: i <= k < |ss| && ss[k] == s && s.active
    decreases |ss| - i
  {
    if i < |ss| {
      ActiveOnes(ss, i + 1);
      var front, rest: seq<Service> := if ss[i].active then [ss[i]] else [], Active(ss, i + 1);
      assert Active(ss, i) == front + rest;
      hide Active;
      forall s
        ensures s in front + rest <==> exists k :: i <= k < |ss| && ss[k] == s && s.active
      {
        assert s in front + rest <==> s in front || s in rest;
        assert s in front <==> s == ss[i] && s.active;
      }
    }
  }

  /** They still ascend. */
  lemma {:induction false} ActiveAscend(ss: seq<Service>, i: nat)
    requires i <= |ss| && Ascending(ss)
    ensures Ascending(Active(ss, i))
    decreases |ss| - i
  {
    if i < |ss| {
      ActiveAscend(ss, i + 1);
      if ss[i].active {
        var rest := Active(ss, i + 1);
        ActiveOnes(ss, i + 1);
        hide Active;
        forall j | 0 <= j < |rest|
          ensures End(ss[i]) < rest[j].start
        {
          assert rest[j] in rest;
        }
        FrontAscends(ss[i], rest);
      }
    }
  }

  lemma FrontAscends(s: Service, rest: seq<Service>)
    requires Ascending(rest) && 1 <= s.start && 1 <= s.num && End(s) <= UINT16_MAX
    requires forall j :: 0 <= j < |rest| ==> End(s) < rest[j].start
    ensures Ascending([s] + rest)
  {
  }

  // ----- the loaded form of a service -----

  lemma {:induction false} InclsAreNoServices(ss: seq<Service>, items: seq<Item>, i: nat)
    requires i <= |items|
    ensures forall j :: 0 <= j < |InclEntries(ss, items, i)| ==> InclEntries(ss, items, i)[j].InclLine?
    decreases |items| - i
  {
    if i < |items| {
      hide GetAttribute;
      InclsAreNoServices(ss, items, i + 1);
    }
  }

  lemma {:induction false} StoredAreNoServices(items: seq<Item>, i: nat)
    requires i <= |items|
    ensures forall j :: 0 <= j < |StoredFrom(items, i)| ==>
              StoredFrom(items, i)[j].ChrcLine? || StoredFrom(items, i)[j].DescLine?
    decreases |items| - i
  {
    if i < |items| {
      hide Owner, ExtProps;
      StoredAreNoServices(items, i + 1);
    }
  }

  lemma ChrcsAreStored(items: seq<Item>)
    ensures ChrcEntries(items, 0) == StoredFrom(items, 0)
  {
    NestedIsOneWalk(items, 0);
    hide ChrcEntries, StoredFrom;
  }

  lemma BodyHasNoServices(ss: seq<Service>, s: Service)
    ensures forall j :: 0 <= j < |Body(ss, s)| ==> !Body(ss, s)[j].ServiceLine?
  {
    InclsAreNoServices(ss, s.items, 0);
    ChrcsAreStored(s.items);
    StoredAreNoServices(s.items, 0);
    hide InclEntries, ChrcEntries, StoredFrom;
  }

  /** What a stored service becomes. */
  function Reloaded(ss: seq<Service>, s: Service): Service {
    BodyHasNoServices(ss, s);
    s.(active := true, items := NewItems(Body(ss, s), s.start))
  }

  // ----- which lines can be loaded -----

  /** A descriptor for extended properties is stored with a value: its characteristic has the property
      bit, and some descriptor of it a two-byte value whose low byte is not zero. */
  predicate Extended(items: seq<Item>, i: nat)
    requires i < |items|
  {
    items[i].Desc? && items[i].uuid == EXT_PROPER_UUID && Owner(items, i).Some? ==> Owner(items, i).value != 0
  }

  ghost predicate IncludesActive(ss: seq<Service>, i: Item) {
    i.Incl? ==> exists k :: 0 <= k < |ss| && ss[k].start == i.start && ss[k].active
  }

  /** No line will be refused. */
  ghost predicate Loadable(ss: seq<Service>, s: Service) {
    forall i :: 0 <= i < |s.items| ==> Extended(s.items, i) && IncludesActive(ss, s.items[i])
  }

  /** An include leads to an active service, or to none. */
  lemma IncludeFound(ss: seq<Service>, k: nat)
    requires Ascending(ss) && k < |ss|
    ensures var a, h := Active(ss, 0), ss[k].start; var f := FindService(a, h, 0);
            if ss[k].active then f < |a| && a[f] == ss[k] else f == |a|
  {
    var a, h := Active(ss, 0), ss[k].start;
    var f := FindService(a, h, 0);
    ActiveOnes(ss, 0);
    ActiveAscend(ss, 0);
    hide Active;
    if f < |a| {
      assert a[f] in a;
      var j :| 0 <= j < |ss| && ss[j] == a[f] && a[f].active;
      assert j == k;
    }
  }

  /** Whether the line of an include can be loaded. */
  lemma InclGood(ss: seq<Service>, i: Item)
    requires Ascending(ss) && i.Incl?
    requires exists k :: 0 <= k < |ss| && ss[k].start == i.start && End(ss[k]) == i.end
    ensures GetAttribute(ss, i.start).Some?
    ensures var e := InclEntry(ss, i);
            && |e| == 1 && e[0].InclLine? && e[0].start == i.start && e[0].end == i.end && e[0].handle == i.handle
            && Targets(e[0], Active(ss, 0)) && (Good(e[0], Active(ss, 0)) <==> IncludesActive(ss, i))
            && exists k :: 0 <= k < |ss| && e[0].uuid == ss[k].uuid
  {
    var k :| 0 <= k < |ss| && ss[k].start == i.start && End(ss[k]) == i.end;
    FindIs(ss, i.start, k);
    IncludeFound(ss, k);
    assert HasHandle(ss[k], i.start);
    hide Active, FindService, HasHandle, Canonical;
    assert forall j :: 0 <= j < |ss| && ss[j].start == i.start ==> j == k;
  }

  lemma AllGoodConcat(es: seq<Entry>, fs: seq<Entry>, a: seq<Service>, start: u16)
    ensures AllGood(es + fs, a) <==> AllGood(es, a) && AllGood(fs, a)
    ensures AllFit(es, start, a) && AllFit(fs, start, a) ==> AllFit(es + fs, start, a)
  {
    hide Good, Fits, Targets;
    assert forall i :: 0 <= i < |es| ==> (es + fs)[i] == es[i];
    assert forall i :: 0 <= i < |fs| ==> (es + fs)[|es| + i] == fs[i];
  }

  lemma OneGood(e: Entry, a: seq<Service>, start: u16)
    ensures AllGood([e], a) <==> Good(e, a)
    ensures AllFit([e], start, a) <==> Fits(e, start) && Targets(e, a)
  {
    hide Good, Fits, Targets;
    assert [e][0] == e;
  }

  /** The line of an include. */
  lemma InclOk(ss: seq<Service>, s: Service, i: Item)
    requires WellFormed(ss) && i.Incl? && ItemOk(ss, s, i)
    ensures AllFit(InclEntry(ss, i), s.start, Active(ss, 0))
    ensures AllGood(InclEntry(ss, i), Active(ss, 0)) <==> IncludesActive(ss, i)
  {
    InclGood(ss, i);
    hide Good, Targets, IncludesActive, Canonical, InclEntry, Active, AllGood, AllFit, ItemOk;
    var e := InclEntry(ss, i);
    assert e == [e[0]];
    OneGood(e[0], Active(ss, 0), s.start);
  }

  lemma InclHead(ss: seq<Service>, s: Service, i: nat)
    requires WellFormed(ss) && s in ss && i < |s.items|
    ensures var head: seq<Entry> := if s.items[i].Incl? then InclEntry(ss, s.items[i]) else [];
            && InclEntries(ss, s.items, i) == head + InclEntries(ss, s.items, i + 1)
            && AllFit(head, s.start, Active(ss, 0))
            && (AllGood(head, Active(ss, 0)) <==> IncludesActive(ss, s.items[i]))
  {
    assert ItemOk(ss, s, s.items[i]);
    hide InclEntry, Active, WellFormed, ItemOk, Good, Fits, Targets;
    if s.items[i].Incl? {
      InclOk(ss, s, s.items[i]);
    }
  }

  lemma {:induction false} InclsOk(ss: seq<Service>, s: Service, i: nat)
    requires WellFormed(ss) && s in ss && i <= |s.items|
    ensures AllFit(InclEntries(ss, s.items, i), s.start, Active(ss, 0))
    ensures AllGood(InclEntries(ss, s.items, i), Active(ss, 0))
       <==> forall j :: i <= j < |s.items| ==> IncludesActive(ss, s.items[j])
    decreases |s.items| - i
  {
    hide InclEntry, WellFormed, IncludesActive, Good, Fits, Targets;
    if i < |s.items| {
      InclHead(ss, s, i);
      InclsOk(ss, s, i + 1);
      hide AllFit, AllGood;
      var head: seq<Entry> := if s.items[i].Incl? then InclEntry(ss, s.items[i]) else [];
      AllGoodConcat(head, InclEntries(ss, s.items, i + 1), Active(ss, 0), s.start);
    }
  }

  /** The line of a characteristic or a descriptor. */
  lemma StoredGood(ss: seq<Service>, s: Service, i: nat, a: seq<Service>)
    requires i < |s.items| && ItemOk(ss, s, s.items[i]) && !s.items[i].Incl?
    ensures AllFit(StoredAt(s.items, i), s.start, a)
    ensures AllGood(StoredAt(s.items, i), a) <==> Extended(s.items, i)
  {
    hide Canonical, Owner;
    var es := StoredAt(s.items, i);
    if es != [] {
      assert es == [es[0]];
      OneGood(es[0], a, s.start);
      hide AllGood, AllFit;
    }
  }

  lemma {:induction false} StoredOk(ss: seq<Service>, s: Service, i: nat, a: seq<Service>)
    requires i <= |s.items| && forall j :: 0 <= j < |s.items| ==> ItemOk(ss, s, s.items[j])
    ensures AllFit(StoredFrom(s.items, i), s.start, a)
    ensures AllGood(StoredFrom(s.items, i), a) <==> forall j :: i <= j < |s.items| ==> Extended(s.items, j)
    decreases |s.items| - i
  {
    if i < |s.items| {
      StoredOk(ss, s, i + 1, a);
      var rest := StoredFrom(s.items, i + 1);
      if s.items[i].Incl? {
        assert StoredFrom(s.items, i) == rest;
      } else {
        StoredGood(ss, s, i, a);
        hide Extended, AllFit, AllGood, StoredAt, ItemOk;
        AllGoodConcat(StoredAt(s.items, i), rest, a, s.start);
      }
    }
  }

  /** All lines of a service fit into it, and all of them are good exactly if it is loadable. */
  lemma BodyOk(ss: seq<Service>, s: Service)
    requires WellFormed(ss) && s in ss
    ensures AllFit(Body(ss, s), s.start, Active(ss, 0))
    ensures AllGood(Body(ss, s), Active(ss, 0)) <==> Loadable(ss, s)
  {
    ChrcsAreStored(s.items);
    InclsOk(ss, s, 0);
    StoredOk(ss, s, 0, Active(ss, 0));
    hide AllFit, AllGood, Extended, IncludesActive, Active, InclEntries, StoredFrom;
    AllGoodConcat(InclEntries(ss, s.items, 0), ChrcEntries(s.items, 0), Active(ss, 0), s.start);
  }

  lemma {:induction false} SlotsForConcat(es: seq<Entry>, fs: seq<Entry>)
    ensures SlotsForAll(es + fs) == SlotsForAll(es) + SlotsForAll(fs)
  {
    if es == [] {
      assert es + fs == fs;
    } else {
      assert (es + fs)[1..] == es[1..] + fs;
      SlotsForConcat(es[1..], fs);
    }
  }

  lemma SlotsFront(items: seq<Item>, i: nat)
    requires i < |items|
    ensures Slots(items[i..]) == Width(items[i]) + Slots(items[i + 1..])
  {
    assert items[i..] == [items[i]] + items[i + 1..];
    SlotsConcat([items[i]], items[i + 1..]);
    SlotsSnoc([], items[i]);
    assert [] + [items[i]] == [items[i]];
  }

  /** The stored items need no more slots than all of them. */
  lemma {:induction false} StoredSlots(ss: seq<Service>, items: seq<Item>, i: nat)
    requires i <= |items|
    ensures SlotsForAll(InclEntries(ss, items, i)) + SlotsForAll(StoredFrom(items, i)) <= Slots(items[i..])
    decreases |items| - i
  {
    if i < |items| {
      StoredSlots(ss, items, i + 1);
      SlotsFront(items, i);
      OneSlots(ss, items, i);
      var incls: seq<Entry> := if items[i].Incl? then InclEntry(ss, items[i]) else [];
      assert InclEntries(ss, items, i) == incls + InclEntries(ss, items, i + 1);
      assert StoredFrom(items, i) == StoredAt(items, i) + StoredFrom(items, i + 1);
      hide InclEntry, InclEntries, StoredFrom, StoredAt, SlotsForAll, Slots;
      SlotsForConcat(incls, InclEntries(ss, items, i + 1));
      SlotsForConcat(StoredAt(items, i), StoredFrom(items, i + 1));
    }
  }

  lemma OneSlots(ss: seq<Service>, items: seq<Item>, i: nat)
    requires i < |items|
    ensures var incls: seq<Entry> := if items[i].Incl? then InclEntry(ss, items[i]) else [];
            SlotsForAll(incls) + SlotsForAll(StoredAt(items, i)) <= Width(items[i])
  {
    hide GetAttribute, Owner;
  }

  lemma BodyFits(ss: seq<Service>, s: Service)
    requires HasRoom(s, 0)
    ensures HasRoom(s.(items := []), SlotsForAll(Body(ss, s)))
  {
    ChrcsAreStored(s.items);
    StoredSlots(ss, s.items, 0);
    assert s.items[0..] == s.items;
    hide InclEntries, StoredFrom, ChrcEntries;
    SlotsForConcat(InclEntries(ss, s.items, 0), ChrcEntries(s.items, 0));
  }

  // ----- the whole file -----

  function Pieces(ss: seq<Service>, a: seq<Service>): seq<Entry> {
    if a == [] then [] else ServicePiece(ss, a[0]) + Pieces(ss, a[1..])
  }

  lemma {:induction false} EntriesArePieces(ss: seq<Service>, i: nat)
    requires i <= |ss|
    ensures Entries(ss, i) == Pieces(ss, Active(ss, i))
    decreases |ss| - i
  {
    if i < |ss| {
      hide ServicePiece;
      EntriesArePieces(ss, i + 1);
      if ss[i].active {
        assert Active(ss, i)[1..] == Active(ss, i + 1);
      } else {
        assert Active(ss, i) == Active(ss, i + 1);
        assert Entries(ss, i) == [] + Entries(ss, i + 1);
      }
    }
  }

  /** A service as the first pass declares it. */
  function Bare(s: Service): Service {
    s.(active := false, items := [])
  }

  /** The first k services are declared. */
  ghost predicate DeclaredTo(a: seq<Service>, k: nat, db: Db) {
    k <= |a| && |db.services| == k && forall i :: 0 <= i < k ==> db.services[i] == Bare(a[i])
  }

  /** The line of the next service declares it, behind all others. */
  lemma DeclareService(a: seq<Service>, k: nat, db: Db)
    requires Ascending(a) && k < |a| && DeclaredTo(a, k, db) && Saved(ServiceEntry(a[k]))
    ensures var e := ServiceEntry(a[k]);
            var r := DeclareLine(db, Key(e), Line(e)); r.Some? && DeclaredTo(a, k + 1, r.value)
  {
    ServiceSize(a[k]);
    AllBefore(a, k, db);
    hide ServiceEntry, End, Ascending, DeclaredTo, Saved, DeclareLine, Key, Line, InsertService, NumHandles, Bare;
    DeclareEntry(db, ServiceEntry(a[k]));
    InsertsLast(db, a[k]);
    OneMoreDeclared(a, k, db, InsertService(db, a[k].start, a[k].uuid, a[k].primary, a[k].num).value);
  }

  lemma AllBefore(a: seq<Service>, k: nat, db: Db)
    requires Ascending(a) && k < |a| && DeclaredTo(a, k, db)
    ensures 1 <= a[k].start && 1 <= a[k].num && End(a[k]) <= UINT16_MAX
    ensures forall j :: 0 <= j < |db.services| ==> End(db.services[j]) < a[k].start
  {
  }

  lemma OneMoreDeclared(a: seq<Service>, k: nat, db: Db, next: Db)
    requires k < |a| && DeclaredTo(a, k, db) && next.services == db.services + [Bare(a[k])]
    ensures DeclaredTo(a, k + 1, next)
  {
  }

  lemma ServiceSize(s: Service)
    requires 1 <= s.start && 1 <= s.num && End(s) <= UINT16_MAX
    ensures var e := ServiceEntry(s);
            && e.ServiceLine? && e.handle == s.start && e.primary == s.primary && e.uuid == s.uuid
            && NumHandles(e.handle, e.end) == s.num
  {
  }

  lemma InsertsLast(db: Db, s: Service)
    requires 1 <= s.start && 1 <= s.num && End(s) <= UINT16_MAX
    requires forall j :: 0 <= j < |db.services| ==> End(db.services[j]) < s.start
    ensures var r := InsertService(db, s.start, s.uuid, s.primary, s.num);
            r.Some? && r.value.services == db.services + [Bare(s)]
  {
    hide InsertLoc;
    InsertLast(db.services, s.start, End(s), 0);
    var n := |db.services|;
    assert db.services[n..] == [] && db.services[..n] == db.services;
  }

  /** An active service of the database, and its lines. */
  lemma ActiveOne(ss: seq<Service>, a: seq<Service>, k: nat)
    requires WellFormed(ss) && a == Active(ss, 0) && k < |a|
    ensures Ascending(a) && a[k] in ss && Saved(ServiceEntry(a[k])) && HasRoom(a[k], 0)
    ensures forall i :: 0 <= i < |Body(ss, a[k])| ==> Saved(Body(ss, a[k])[i]) && !Body(ss, a[k])[i].ServiceLine?
  {
    ActiveOnes(ss, 0);
    ActiveAscend(ss, 0);
    hide Active;
    assert a[k] in a;
    BodyOk(ss, a[k]);
    hide Body, Saved, Targets, Loadable;
    assert Canonical(a[k].uuid);
    SavedService(a[k]);
  }

  lemma SavedService(s: Service)
    requires Canonical(s.uuid)
    ensures Saved(ServiceEntry(s))
  {
  }

  lemma DeclarePiece(ss: seq<Service>, a: seq<Service>, k: nat, db: Db)
    requires WellFormed(ss) && a == Active(ss, 0) && k < |a| && DeclaredTo(a, k, db)
    ensures var r := Declared(Lines(ServicePiece(ss, a[k])), db); r.Some? && DeclaredTo(a, k + 1, r.value)
  {
    var e, body := ServiceEntry(a[k]), Body(ss, a[k]);
    ActiveOne(ss, a, k);
    hide Active, Body, Lines, Saved, DeclareLine, WellFormed, DeclaredTo, Key, Line, Declared;
    LinesConcat([e], body);
    LinesOne(e);
    DeclaredConcat(Lines([e]), Lines(body), db);
    DeclareService(a, k, db);
    DeclareOne(e, db);
    DeclareBody(body, DeclareLine(db, Key(e), Line(e)).value);
  }

  lemma DeclareOne(e: Entry, db: Db)
    ensures Declared([(Key(e), Line(e))], db) == DeclareLine(db, Key(e), Line(e))
  {
    hide DeclareLine;
    assert [(Key(e), Line(e))][1..] == [];
  }

  lemma PiecesFrom(ss: seq<Service>, a: seq<Service>, k: nat)
    requires k < |a|
    ensures Lines(Pieces(ss, a[k..])) == Lines(ServicePiece(ss, a[k])) + Lines(Pieces(ss, a[k + 1..]))
  {
    hide Lines, ServicePiece;
    assert a[k..][1..] == a[k + 1..];
    LinesConcat(ServicePiece(ss, a[k]), Pieces(ss, a[k + 1..]));
  }

  lemma NoPieces(ss: seq<Service>, a: seq<Service>)
    requires a == []
    ensures Lines(Pieces(ss, a)) == []
  {
  }

  /** After the first pass every active service is declared. */
  lemma {:induction false} DeclareAll(ss: seq<Service>, a: seq<Service>, k: nat, db: Db)
    requires WellFormed(ss) && a == Active(ss, 0) && k <= |a| && DeclaredTo(a, k, db)
    ensures var r := Declared(Lines(Pieces(ss, a[k..])), db); r.Some? && DeclaredTo(a, |a|, r.value)
    decreases |a| - k
  {
    hide ServicePiece, WellFormed, Active, DeclaredTo, Lines, Pieces, DeclareLine;
    if k < |a| {
      DeclarePiece(ss, a, k, db);
      PiecesFrom(ss, a, k);
      hide Declared;
      var piece, rest := Lines(ServicePiece(ss, a[k])), Lines(Pieces(ss, a[k + 1..]));
      DeclaredConcat(piece, rest, db);
      DeclareAll(ss, a, k + 1, Declared(piece, db).value);
    } else {
      NoPieces(ss, a[k..]);
    }
  }

  /** How far the second pass has come: k services are filled, the last of them is the current one. */
  function Image(ss: seq<Service>, a: seq<Service>, k: nat, i: nat): Service
    requires i < |a|
  {
    if i + 1 < k then Reloaded(ss, a[i])
    else if i + 1 == k then Reloaded(ss, a[i]).(active := false)
    else Bare(a[i])
  }

  ghost predicate At(ss: seq<Service>, a: seq<Service>, k: nat, l: Loading) {
    && k <= |a| == |l.db.services| && l.current == (if k == 0 then None else Some(k - 1))
    && forall i :: 0 <= i < |a| ==> l.db.services[i] == Image(ss, a, k, i)
  }

  /** The next service becomes the current one. */
  ghost predicate Entered(ss: seq<Service>, a: seq<Service>, k: nat, l: Loading) {
    && k < |a| == |l.db.services| && l.current == Some(k)
    && forall i :: 0 <= i < |a| ==> l.db.services[i] == if i < k then Reloaded(ss, a[i]) else Bare(a[i])
  }

  lemma Enter(ss: seq<Service>, a: seq<Service>, k: nat, l: Loading)
    requires Ascending(a) && At(ss, a, k, l) && k < |a|
    ensures Entered(ss, a, k, Loading(Activated(l), GetAttribute(l.db.services, a[k].start)))
  {
    hide NewItems, Body;
    assert forall i :: 0 <= i < |a| ==> l.db.services[i].start == a[i].start && l.db.services[i].num == a[i].num;
    FindSame(l.db.services, a, a[k].start, 0);
    FindIs(a, a[k].start, k);
    hide Ascending, FindService;
    assert HasHandle(l.db.services[k], a[k].start);
    assert forall i :: 0 <= i < |a| && i + 1 == k ==> Activated(l).services[i] == Reloaded(ss, a[i]);
  }

  lemma SameRanges(es: seq<Entry>, start: u16, a: seq<Service>, b: seq<Service>)
    requires |a| == |b| && forall i :: 0 <= i < |a| ==> a[i].start == b[i].start && a[i].num == b[i].num
    ensures AllGood(es, a) <==> AllGood(es, b)
    ensures AllFit(es, start, a) <==> AllFit(es, start, b)
  {
    forall i | 0 <= i < |es|
      ensures Good(es[i], a) <==> Good(es[i], b)
      ensures Targets(es[i], a) <==> Targets(es[i], b)
    {
      if es[i].InclLine? {
        FindSame(a, b, es[i].start, 0);
      }
    }
    hide Good, Targets, Fits;
  }

  /** The lines behind its service line fill the current service. */
  lemma FillEntered(ss: seq<Service>, a: seq<Service>, k: nat, l: Loading)
    requires WellFormed(ss) && a == Active(ss, 0) && Entered(ss, a, k, l)
    ensures var r := Filled(Lines(Body(ss, a[k])), l);
            if Loadable(ss, a[k]) then r.Some? && At(ss, a, k + 1, r.value) else r == None
  {
    var s := a[k];
    ActiveOne(ss, a, k);
    BodyOk(ss, s);
    BodyFits(ss, s);
    EnteredIsBare(ss, a, k, l);
    hide Active, Body, Loadable, Filled, Slots, SlotsForAll, Lines, AllGood, AllFit, WellFormed, NewItems, Entered;
    FillBody(Body(ss, s), l);
    BodyHasNoServices(ss, s);
    hide Grown, At;
    GrownIsFilled(ss, a, k, l);
  }

  lemma EnteredIsBare(ss: seq<Service>, a: seq<Service>, k: nat, l: Loading)
    requires Entered(ss, a, k, l)
    ensures Here(l) == Bare(a[k])
    ensures AllGood(Body(ss, a[k]), a) <==> AllGood(Body(ss, a[k]), l.db.services)
    ensures AllFit(Body(ss, a[k]), a[k].start, a) <==> AllFit(Body(ss, a[k]), a[k].start, l.db.services)
  {
    hide Body, NewItems;
    SameRanges(Body(ss, a[k]), a[k].start, a, l.db.services);
  }

  lemma GrownIsFilled(ss: seq<Service>, a: seq<Service>, k: nat, l: Loading)
    requires Entered(ss, a, k, l)
    ensures forall j :: 0 <= j < |Body(ss, a[k])| ==> !Body(ss, a[k])[j].ServiceLine?
    ensures At(ss, a, k + 1, Grown(l, NewItems(Body(ss, a[k]), a[k].start)))
  {
    BodyHasNoServices(ss, a[k]);
    hide Body, NewItems;
    var items := NewItems(Body(ss, a[k]), a[k].start);
    assert [] + items == items;
    assert Grown(l, items).db.services[k] == Reloaded(ss, a[k]).(active := false);
  }

  lemma FillPiece(ss: seq<Service>, a: seq<Service>, k: nat, l: Loading)
    requires WellFormed(ss) && a == Active(ss, 0) && k < |a| && At(ss, a, k, l)
    ensures var r := Filled(Lines(ServicePiece(ss, a[k])), l);
            if Loadable(ss, a[k]) then r.Some? && At(ss, a, k + 1, r.value) else r == None
  {
    var s := a[k];
    var e, body := ServiceEntry(s), Body(ss, s);
    ActiveOne(ss, a, k);
    hide Active, Body, Lines, Loadable, Saved, WellFormed, FillLine, At, Activated, GetAttribute, Ascending, Entered;
    LinesConcat([e], body);
    LinesOne(e);
    FilledConcat(Lines([e]), Lines(body), l);
    FillEntry(l, e);
    FillOne(e, l);
    Enter(ss, a, k, l);
    hide Filled;
    FillEntered(ss, a, k, Loading(Activated(l), GetAttribute(l.db.services, s.start)));
  }

  lemma FillOne(e: Entry, l: Loading)
    ensures Filled([(Key(e), Line(e))], l) == FillLine(l, Key(e), Line(e))
  {
    hide FillLine;
    assert [(Key(e), Line(e))][1..] == [];
  }

  /** The second pass fills every service, or fails at the first that is not loadable. */
  lemma {:induction false} FillAll(ss: seq<Service>, a: seq<Service>, k: nat, l: Loading)
    requires WellFormed(ss) && a == Active(ss, 0) && k <= |a| && At(ss, a, k, l)
    ensures var r := Filled(Lines(Pieces(ss, a[k..])), l);
            if forall j :: k <= j < |a| ==> Loadable(ss, a[j]) then r.Some? && At(ss, a, |a|, r.value) else r == None
    decreases |a| - k
  {
    hide ServicePiece, WellFormed, Active, At, Loadable, Lines, Pieces, FillLine;
    if k < |a| {
      FillPiece(ss, a, k, l);
      PiecesFrom(ss, a, k);
      hide Filled;
      var piece, rest := Lines(ServicePiece(ss, a[k])), Lines(Pieces(ss, a[k + 1..]));
      FilledConcat(piece, rest, l);
      if Loadable(ss, a[k]) {
        FillAll(ss, a, k + 1, Filled(piece, l).value);
      }
    } else {
      NoPieces(ss, a[k..]);
    }
  }

  /** What a stored database becomes: its active services in their loaded form. */
  function ReloadedAll(ss: seq<Service>, a: seq<Service>): (r: seq<Service>)
    ensures |r| == |a| && forall i :: 0 <= i < |a| ==> r[i] == Reloaded(ss, a[i])
  {
    if a == [] then [] else [Reloaded(ss, a[0])] + ReloadedAll(ss, a[1..])
  }

  /** Every active service can be loaded. */
  ghost predicate AllLoadable(ss: seq<Service>) {
    forall s :: s in ss && s.active ==> Loadable(ss, s)
  }

  /** What a stored database becomes. If no two lines belong to the same handle, it is loaded in its
      loaded form if every active service is loadable, and otherwise refused as a whole. If two lines
      do, one is gone, and what is loaded is smaller. */
  ghost predicate ComesBackAs(ss: seq<Service>, r: Option<seq<Service>>) {
    if OneLineEach(Entries(ss, 0))
    then r == if AllLoadable(ss) then Some(ReloadedAll(ss, Active(ss, 0))) else None
    else r.Some? ==> Size(r.value) < |Entries(ss, 0)|
  }

  lemma CacheRoundTrip(ss: seq<Service>)
    requires WellFormed(ss)
    ensures ComesBackAs(ss, Restored(StoredFile(ss)))
  {
    StoredLines(ss);
    hide WellFormed, AllLoadable, ReloadedAll, Entries, OneLineEach, Restored, Lines, StoredFile, Size;
    if OneLineEach(Entries(ss, 0)) {
      LinesRoundTrip(ss);
    } else {
      RestoredSize(StoredFile(ss));
    }
  }

  /** The lines of all entries are loaded if every active service is loadable, and then in the loaded
      form; otherwise the whole cache is refused. */
  lemma LinesRoundTrip(ss: seq<Service>)
    requires WellFormed(ss)
    ensures Restored(Lines(Entries(ss, 0))) ==
      if AllLoadable(ss) then Some(ReloadedAll(ss, Active(ss, 0))) else None
  {
    var a := Active(ss, 0);
    EntriesArePieces(ss, 0);
    assert a[0..] == a;
    hide Lines, Pieces, Entries, WellFormed, Active, Declared, Filled, Loadable, Reloaded;
    DeclareAll(ss, a, 0, EMPTY);
    var db := Declared(Lines(Pieces(ss, a)), EMPTY).value;
    assert At(ss, a, 0, Loading(db, None));
    FillAll(ss, a, 0, Loading(db, None));
    ActiveOnes(ss, 0);
    LoadableActive(ss, a);
    if AllLoadable(ss) {
      LastActivated(ss, a, Filled(Lines(Pieces(ss, a)), Loading(db, None)).value);
    }
  }

  lemma LoadableActive(ss: seq<Service>, a: seq<Service>)
    requires forall s :: s in a <==> s in ss && s.active
    ensures AllLoadable(ss) <==> forall j :: 0 <= j < |a| ==> Loadable(ss, a[j])
  {
    hide Loadable;
    assert forall j :: 0 <= j < |a| ==> a[j] in a;
  }

  lemma LastActivated(ss: seq<Service>, a: seq<Service>, l: Loading)
    requires At(ss, a, |a|, l)
    ensures Activated(l).services == ReloadedAll(ss, a)
  {
    hide NewItems, Body, ReloadedAll;
    var r, t := Activated(l).services, ReloadedAll(ss, a);
    forall i | 0 <= i < |a|
      ensures r[i] == t[i]
    {
    }
  }

  /** Storing a database and loading the file again. */
  method StoreAndLoad(ss: seq<Service>) returns (r: Option<seq<Service>>)
    requires WellFormed(ss)
    ensures r == Restored(StoredFile(ss)) && ComesBackAs(ss, r)
  {
    var saver := new Saver();
    saver.StoreDb(ss);
    CacheRoundTrip(ss);
    r := LoadFile(saver.keyFile);
  }
}
