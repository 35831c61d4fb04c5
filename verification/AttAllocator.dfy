/** The two free-handle allocators: 16-bit services grow upwards, 128-bit services downwards. */
module AttAllocator {
  import opened Bytes
  import opened AttDatabase

  const TOP: nat := 0xffff

  /** A block of n handles inside 1..0xffff, none of them in use. */
  ghost predicate Free(db: seq<Attribute>, start: nat, n: nat) {
    1 <= start && start + n - 1 <= TOP
    && forall i :: 0 <= i < |db| ==> !(start <= db[i].handle < start + n)
  }

  ghost predicate Positive(db: seq<Attribute>) {
    forall i :: 0 <= i < |db| ==> db[i].handle > 0
  }

  ghost predicate Wide(a: Attribute) {
    IsService(a.uuid) && |a.data| == 16
  }

  ghost predicate Narrow(a: Attribute) {
    IsService(a.uuid) && |a.data| == 2
  }

  // ----- upwards -----

  ghost function Before(db: seq<Attribute>, i: nat): nat
    requires i <= |db|
  {
    if i == 0 then 0 else db[i - 1].handle
  }

  /** The gap in front of the service at i holds n handles. */
  ghost predicate FitsBefore(db: seq<Attribute>, n: nat, i: nat) {
    i < |db| && IsService(db[i].uuid) && db[i].handle - (Before(db, i) + 1) >= n
  }

  /** The lowest gap in front of a service that holds n handles, not above the first 128-bit service. */
  ghost predicate FirstFit(db: seq<Attribute>, n: nat, i: nat) {
    FitsBefore(db, n, i) && (forall j: nat :: j < i ==> !FitsBefore(db, n, j) && !Wide(db[j]))
  }

  /** What find_uuid16_avail may answer: 0, or the start given by the first fit or the free top. */
  ghost predicate Answer16(db: seq<Attribute>, n: nat, h: nat) {
    && (forall i: nat :: FirstFit(db, n, i) ==> h == Before(db, i) + 1)
    && ((forall i: nat :: !FirstFit(db, n, i)) ==>
          h == if (forall a :: a in db ==> !Wide(a)) && TOP - Before(db, |db|) >= n then Before(db, |db|) + 1 else 0)
  }

  method FindUuid16Avail(server: GattServer, nitems: u16) returns (h: u16)
    requires Sorted(server.database) && nitems > 0
    ensures Answer16(server.database, nitems, h)
  {
    hide IsService;
    var db := server.database;
    if db == [] {
      return 0x0001;
    }
    var handle: u16 := 0x0001;
    for k := 0 to |db|
      invariant handle == Before(db, k) + 1
      invariant forall j: nat :: j < k ==> !FitsBefore(db, nitems, j) && !Wide(db[j])
    {
      var a := db[k];
      if IsService(a.uuid) && a.handle - handle >= nitems {
        assert FirstFit(db, nitems, k);
        return handle;
      }
      if |a.data| == 16 && IsService(a.uuid) {
        assert Wide(db[k]);
        return 0;
      }
      if a.handle == 0xffff {
        assert forall j :: k < j < |db| ==> db[k].handle < db[j].handle;
        return 0;
      }
      handle := a.handle + 1;
    }
    return if 0xffff - handle + 1 >= nitems then handle else 0;
  }

  /** Every nonzero answer starts a free block, below every 128-bit service. */
  lemma Answer16IsFree(db: seq<Attribute>, n: nat, h: nat)
    requires Sorted(db) && n > 0 && Answer16(db, n, h) && h != 0
    ensures Free(db, h, n)
    ensures forall a :: a in db && Wide(a) ==> h + n <= a.handle
  {
    if i: nat :| FirstFit(db, n, i) {
      GapIsFree(db, n, i);
      forall a | a in db && Wide(a)
        ensures h + n <= a.handle
      {
        var j :| 0 <= j < |db| && db[j] == a;
        assert i == j || db[i].handle < db[j].handle;
      }
    } else {
      GapIsFree(db, n, |db|);
    }
  }

  lemma GapIsFree(db: seq<Attribute>, n: nat, i: nat)
    requires Sorted(db) && n > 0 && i <= |db|
    requires (if i == |db| then TOP + 1 else db[i].handle) - (Before(db, i) + 1) >= n
    ensures Free(db, Before(db, i) + 1, n)
    ensures i < |db| ==> Before(db, i) + 1 + n <= db[i].handle
  {
    assert forall j :: 0 <= j < i ==> db[j].handle <= Before(db, i);
    assert forall j :: i <= j < |db| ==> db[i].handle <= db[j].handle;
  }

  // ----- downwards -----

  /** The first service at or behind position k; the length when there is none. */
  ghost function NextService(db: seq<Attribute>, k: nat): (i: nat)
    requires k <= |db|
    ensures k <= i <= |db| && (i < |db| ==> IsService(db[i].uuid))
    ensures forall j :: k <= j < i ==> !IsService(db[j].uuid)
    decreases |db| - k
  {
    if k == |db| || IsService(db[k].uuid) then k else NextService(db, k + 1)
  }

  /** The last handle below the first service at or behind position k. */
  ghost function Ceiling(db: seq<Attribute>, k: nat): int
    requires k <= |db|
  {
    var i := NextService(db, k);
    if i == |db| then TOP else db[i].handle - 1
  }

  /** The gap behind the service at i, and behind its attributes, holds n handles. */
  ghost predicate FitsBehind(db: seq<Attribute>, n: nat, i: nat) {
    i < |db| && IsService(db[i].uuid) && Ceiling(db, i + 1) - db[NextService(db, i + 1) - 1].handle >= n
  }

  /** The highest gap behind a service that holds n handles, not below the last 16-bit service. */
  ghost predicate LastFit(db: seq<Attribute>, n: nat, i: nat) {
    FitsBehind(db, n, i) && (forall j: nat :: i < j < |db| ==> !FitsBehind(db, n, j) && !Narrow(db[j]))
  }

  /** What find_uuid128_avail may answer: below everything, handle 1 is never given out. */
  ghost predicate Answer128(db: seq<Attribute>, n: nat, h: nat) {
    && (forall i: nat :: LastFit(db, n, i) ==> h == Ceiling(db, i + 1) - n + 1)
    && ((forall i: nat :: !LastFit(db, n, i)) ==>
          h == if db == [] then TOP - n + 1
               else if (forall a :: a in db ==> !Narrow(a)) && Ceiling(db, 0) - 1 >= n
               then Ceiling(db, 0) - n + 1 else 0)
  }

  /** No service at or behind position k has room behind it or is a 16-bit one. */
  ghost predicate NoneBehind(db: seq<Attribute>, n: nat, k: nat) {
    forall j: nat :: k <= j < |db| ==> !FitsBehind(db, n, j) && !Narrow(db[j])
  }

  /** The scan's handle variable: the top attribute seen since the last service, 0 for none. */
  ghost function Pending(db: seq<Attribute>, k: nat): nat
    requires k <= |db|
  {
    if NextService(db, k) == k then 0 else db[NextService(db, k) - 1].handle
  }

  /** One step of the downward scan: how its variables move. */
  lemma ScanVariables(db: seq<Attribute>, k: nat)
    requires k < |db| && Positive(db)
    ensures (if Pending(db, k + 1) == 0 then db[k].handle else Pending(db, k + 1))
         == db[NextService(db, k + 1) - 1].handle
    ensures !IsService(db[k].uuid) ==>
              Ceiling(db, k) == Ceiling(db, k + 1) && Pending(db, k) == db[NextService(db, k + 1) - 1].handle
    ensures IsService(db[k].uuid) ==> Ceiling(db, k) == db[k].handle - 1 && Pending(db, k) == 0
  {
    hide IsService;
  }

  /** One step of the downward scan: an answer, or a step on. */
  lemma ScanStep(db: seq<Attribute>, n: nat, k: nat, end: int, handle: nat)
    requires k < |db| && NoneBehind(db, n, k + 1)
    requires end == Ceiling(db, k + 1) && handle == db[NextService(db, k + 1) - 1].handle
    ensures IsService(db[k].uuid) && end - handle >= n ==> Answer128(db, n, end - n + 1)
    ensures IsService(db[k].uuid) && end - handle < n && |db[k].data| == 2 ==> Answer128(db, n, 0)
    ensures !IsService(db[k].uuid) || (end - handle < n && |db[k].data| != 2) ==> NoneBehind(db, n, k)
  {
    hide IsService, Ceiling, NextService;
    if IsService(db[k].uuid) {
      if end - handle >= n {
        assert LastFit(db, n, k);
        assert forall i: nat :: LastFit(db, n, i) ==> i == k;
      } else if |db[k].data| == 2 {
        assert Narrow(db[k]) && !FitsBehind(db, n, k);
        assert forall i: nat :: !LastFit(db, n, i);
        assert db[k] in db;
      }
    }
  }

  lemma NothingScanned(db: seq<Attribute>, n: nat)
    ensures NoneBehind(db, n, |db|) && Ceiling(db, |db|) == TOP && Pending(db, |db|) == 0
  {
  }

  lemma ScanEnd(db: seq<Attribute>, n: nat, end: int)
    requires db != [] && NoneBehind(db, n, 0) && end == Ceiling(db, 0)
    ensures Answer128(db, n, if end - 1 >= n then end - n + 1 else 0)
  {
    hide IsService, Ceiling, NextService;
    forall a | a in db
      ensures !Narrow(a)
    {
      var j: nat :| j < |db| && db[j] == a;
    }
  }

  lemma LowestIsFirst(db: seq<Attribute>, k: nat)
    requires Sorted(db) && Positive(db) && k < |db| && db[k].handle == 1
    ensures k == 0
  {
    assert db[0].handle > 0;
  }

  method FindUuid128Avail(server: GattServer, nitems: u16) returns (h: u16)
    requires Sorted(server.database) && Positive(server.database) && nitems > 0
    ensures Answer128(server.database, nitems, h)
  {
    var db := server.database;
    if db == [] {
      return 0xffff - nitems + 1;
    }
    hide IsService, Answer128, NoneBehind, Sorted, Ceiling, Pending;
    NothingScanned(db, nitems);
    var handle: u16, end: u16 := 0, 0xffff;
    var k: nat := |db|;
    while k > 0
      invariant k <= |db| && end == Ceiling(db, k)
      invariant handle == Pending(db, k)
      invariant NoneBehind(db, nitems, k)
      decreases k
    {
      k := k - 1;
      var a := db[k];
      if handle == 0 {
        handle := a.handle;
      }
      ScanVariables(db, k);
      ScanStep(db, nitems, k, end, handle);
      if !IsService(a.uuid) {
        continue;
      }
      if end - handle >= nitems {
        return end - nitems + 1;
      }
      if |a.data| == 2 {
        return 0;
      }
      if a.handle == 0x0001 {
        LowestIsFirst(db, k);
        ScanEnd(db, nitems, 0);
        return 0;
      }
      end := a.handle - 1;
      handle := 0;
    }
    ScanEnd(db, nitems, end);
    return if end - 0x0001 >= nitems then end - nitems + 1 else 0;
  }

  // ----- which answers are free -----

  /** The last attribute in front of the first service: it belongs to none. */
  ghost function LastOrphan(db: seq<Attribute>): nat {
    Before(db, NextService(db, 0))
  }

  /** Whether what the downward allocator answers is free can be told beforehand: some gap behind a
      service holds the block, or the room below the first service reaches above every orphan
      attribute. It always is free when the database starts with a service declaration. */
  lemma Answer128IsFree(db: seq<Attribute>, n: nat, h: nat)
    requires Sorted(db) && Positive(db) && 0 < n <= TOP && Answer128(db, n, h) && h != 0
    ensures Free(db, h, n) <==>
      (exists i: nat :: LastFit(db, n, i)) || db == [] || Ceiling(db, 0) - n + 1 > LastOrphan(db)
    ensures db == [] || IsService(db[0].uuid) ==> Free(db, h, n)
    ensures forall a :: a in db && Narrow(a) ==> a.handle < h
  {
    hide IsService, NextService, Ceiling, Free, LastOrphan;
    if i: nat :| LastFit(db, n, i) {
      BehindIsFree(db, n, i);
      NarrowBelow(db, n, i);
    } else if db != [] {
      RoomBelow(db, n);
    } else {
      EverythingIsFree(n);
    }
  }

  /** Behind the last fit there is no 16-bit service. */
  lemma NarrowBelow(db: seq<Attribute>, n: nat, i: nat)
    requires Sorted(db) && LastFit(db, n, i)
    ensures forall a :: a in db && Narrow(a) ==> a.handle <= db[i].handle
  {
    hide IsService, NextService, Ceiling;
    forall a | a in db && Narrow(a)
      ensures a.handle <= db[i].handle
    {
      var j: nat :| j < |db| && db[j] == a;
    }
  }

  lemma EverythingIsFree(n: nat)
    requires 0 < n <= TOP
    ensures Free([], TOP - n + 1, n)
  {
  }

  /** The room below the first service, where attributes that no service owns may lie. */
  lemma RoomBelow(db: seq<Attribute>, n: nat)
    requires Sorted(db) && Positive(db) && db != [] && n > 0 && Ceiling(db, 0) - 1 >= n
    ensures Free(db, Ceiling(db, 0) - n + 1, n) <==> Ceiling(db, 0) - n + 1 > LastOrphan(db)
    ensures IsService(db[0].uuid) ==> LastOrphan(db) == 0
  {
    hide IsService;
    var s := NextService(db, 0);
    assert forall j :: s <= j < |db| ==> db[s].handle <= db[j].handle;
    assert forall j :: 0 <= j < s ==> db[j].handle <= db[s - 1].handle;
  }

  lemma BehindIsFree(db: seq<Attribute>, n: nat, i: nat)
    requires Sorted(db) && Positive(db) && n > 0 && FitsBehind(db, n, i)
    ensures Free(db, Ceiling(db, i + 1) - n + 1, n) && Ceiling(db, i + 1) - n + 1 > db[i].handle
  {
    var s := NextService(db, i + 1);
    assert forall j :: 0 <= j < s ==> db[j].handle <= db[s - 1].handle;
    assert forall j :: s <= j < |db| ==> db[s].handle <= db[j].handle;
  }

  /** With an attribute that no service owns, the answer can overlap it. */
  lemma OrphanOverlap(a: Attribute)
    requires !IsService(a.uuid) && a.handle == 5
    ensures Answer128([a], 0xfffe, 2) && !Free([a], 2, 0xfffe)
  {
    var db := [a];
    assert NextService(db, 0) == 1;
    assert db[0].handle == 5;
  }

  // ----- whole runs -----

  /** The attributes of one service: the declaration, then n - 1 others, on consecutive handles. */
  ghost predicate ServiceBlock(block: seq<Attribute>, h: nat, n: nat) {
    && |block| == n > 0
    && IsService(block[0].uuid) && (forall i :: 0 < i < n ==> !IsService(block[i].uuid))
    && (forall i :: 0 <= i < n ==> block[i].handle == h + i)
  }

  /** 16-bit services below 128-bit services, and every attribute owned by a service. */
  ghost predicate Ordered(db: seq<Attribute>) {
    && Sorted(db) && Positive(db)
    && (db == [] || IsService(db[0].uuid))
    && (forall a :: a in db && IsService(a.uuid) ==> Narrow(a) || Wide(a))
    && (forall a, b :: a in db && b in db && Narrow(a) && Wide(b) ==> a.handle < b.handle)
  }

  /** db' holds exactly the elements of db and of the block. */
  ghost predicate Joined(db: seq<Attribute>, block: seq<Attribute>, db': seq<Attribute>) {
    Sorted(db') && (forall a :: a in db' <==> a in db || a in block)
  }

  /** A service of either width goes where its allocator says. */
  ghost predicate Placed(db: seq<Attribute>, block: seq<Attribute>, h: nat, db': seq<Attribute>) {
    && h > 0 && 0 < |block| <= TOP && ServiceBlock(block, h, |block|) && Joined(db, block, db')
    && (if |block[0].data| == 16 then Answer128(db, |block|, h) else |block[0].data| == 2 && Answer16(db, |block|, h))
  }

  /** A service disappears with all its attributes. */
  ghost predicate Removed(db: seq<Attribute>, i: nat, db': seq<Attribute>) {
    i < |db| && IsService(db[i].uuid) && db' == db[..i] + db[NextService(db, i + 1)..]
  }

  ghost predicate Change(db: seq<Attribute>, db': seq<Attribute>) {
    (exists block, h :: Placed(db, block, h, db')) || (exists i :: Removed(db, i, db'))
  }

  lemma PlacedIsFree(db: seq<Attribute>, block: seq<Attribute>, h: nat, db': seq<Attribute>)
    requires Ordered(db) && Placed(db, block, h, db')
    ensures Free(db, h, |block|)
    ensures Wide(block[0]) ==> forall a :: a in db && Narrow(a) ==> a.handle < h
    ensures Narrow(block[0]) ==> forall a :: a in db && Wide(a) ==> h + |block| <= a.handle
  {
    hide Answer16, Answer128, IsService;
    if |block[0].data| == 16 {
      Answer128IsFree(db, |block|, h);
    } else {
      Answer16IsFree(db, |block|, h);
    }
  }

  lemma PlacedKeepsOrder(db: seq<Attribute>, block: seq<Attribute>, h: nat, db': seq<Attribute>)
    requires Ordered(db) && Placed(db, block, h, db')
    ensures Ordered(db')
  {
    hide Answer16, Answer128, IsService;
    PlacedIsFree(db, block, h, db');
    assert forall i :: 0 <= i < |db'| ==> db'[i] in db';
    assert forall a :: a in block && (Narrow(a) || Wide(a)) ==> a == block[0];
    if db' != [] {
      var a := db'[0];
      assert a in db || a in block;
      if a in block {
        assert block[0] in db' && block[0].handle <= a.handle;
      } else {
        assert db[0] in db' && db[0].handle <= a.handle;
      }
    }
  }

  lemma RemovedKeepsOrder(db: seq<Attribute>, i: nat, db': seq<Attribute>)
    requires Ordered(db) && Removed(db, i, db')
    ensures Ordered(db')
  {
    hide IsService, Narrow, Wide, NextService;
    assert forall a :: a in db' ==> a in db;
    assert i > 0 ==> db'[0] == db[0];
  }

  lemma ChangeKeepsOrder(db: seq<Attribute>, db': seq<Attribute>)
    requires Ordered(db) && Change(db, db')
    ensures Ordered(db')
  {
    hide Ordered, Placed, Removed;
    if block, h :| Placed(db, block, h, db') {
      PlacedKeepsOrder(db, block, h, db');
    } else {
      var i :| Removed(db, i, db');
      RemovedKeepsOrder(db, i, db');
    }
  }

  ghost predicate Run(dbs: seq<seq<Attribute>>) {
    |dbs| > 0 && dbs[0] == [] && forall i :: 1 <= i < |dbs| ==> Change(dbs[i - 1], dbs[i])
  }

  /** Over every run of placements and removals from the empty database, every state keeps all
      16-bit services below all 128-bit ones. */
  lemma {:induction false} RunsStayOrdered(dbs: seq<seq<Attribute>>)
    requires Run(dbs)
    ensures Ordered(dbs[|dbs| - 1])
  {
    hide Ordered, Change;
    var n := |dbs| - 1;
    if n == 0 {
      EmptyIsOrdered();
    } else {
      RunsStayOrdered(dbs[..n]);
      ChangeKeepsOrder(dbs[n - 1], dbs[n]);
    }
  }

  /** After every run, wherever an allocator points, the whole block is unused. */
  lemma RunsPlaceOnFreeHandles(dbs: seq<seq<Attribute>>, block: seq<Attribute>, h: nat, db': seq<Attribute>)
    requires Run(dbs) && Placed(dbs[|dbs| - 1], block, h, db')
    ensures Free(dbs[|dbs| - 1], h, |block|)
  {
    hide Change, Placed, Free, Ordered;
    RunsStayOrdered(dbs);
    PlacedIsFree(dbs[|dbs| - 1], block, h, db');
  }

  lemma EmptyIsOrdered()
    ensures Ordered([])
  {
  }

  ghost predicate Carries(atts: seq<Attribute>, block: seq<(Uuid, seq<byte>)>) {
    |atts| == |block| && forall i :: 0 <= i < |block| ==> atts[i].uuid == block[i].0 && atts[i].data == block[i].1
  }

  /** The attributes go in one by one; on free handles every add succeeds. */
  method AddBlock(server: GattServer, h: u16, block: seq<(Uuid, seq<byte>)>) returns (ghost atts: seq<Attribute>)
    requires Sorted(server.database) && |block| > 0 && h > 0 && Free(server.database, h, |block|)
    modifies server
    ensures Joined(old(server.database), atts, server.database) && Carries(atts, block)
    ensures forall i :: 0 <= i < |block| ==> atts[i].handle == h + i
  {
    ghost var db := server.database;
    atts := [];
    for k := 0 to |block|
      invariant Sorted(server.database) && |atts| == k
      invariant forall i :: 0 <= i < k ==>
        atts[i].handle == h + i && atts[i].uuid == block[i].0 && atts[i].data == block[i].1
      invariant forall a :: a in server.database <==> a in db || a in atts
    {
      assert forall i :: 0 <= i < |server.database| ==> server.database[i] in server.database;
      var added := server.AddNew(h + k, block[k].0, 0, 0, block[k].1);
      assert added.Some?;
      atts := atts + [added.value];
    }
  }

  /** Find a place, then add the attributes: a found place always takes the whole service. */
  method RegisterService(server: GattServer, block: seq<(Uuid, seq<byte>)>) returns (h: u16)
    requires Ordered(server.database) && 0 < |block| <= TOP
    requires IsService(block[0].0) && |block[0].1| in {2, 16}
    requires forall i :: 0 < i < |block| ==> !IsService(block[i].0)
    modifies server
    ensures Ordered(server.database)
    ensures h == 0 ==> server.database == old(server.database)
    ensures h != 0 ==> exists atts: seq<Attribute> ::
              Placed(old(server.database), atts, h, server.database) && Carries(atts, block)
  {
    hide IsService, Answer16, Answer128, Joined, Free;
    ghost var db := server.database;
    var n: u16 := |block|;
    if |block[0].1| == 16 {
      h := FindUuid128Avail(server, n);
    } else {
      h := FindUuid16Avail(server, n);
    }
    if h == 0 {
      return;
    }
    assert Free(db, h, n) by {
      if |block[0].1| == 16 { Answer128IsFree(db, n, h); } else { Answer16IsFree(db, n, h); }
    }
    ghost var atts := AddBlock(server, h, block);
    assert ServiceBlock(atts, h, n);
    assert Placed(db, atts, h, server.database) && Carries(atts, block);
    PlacedKeepsOrder(db, atts, h, server.database);
  }
}
