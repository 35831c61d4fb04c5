/** When a stored database comes back exactly as it was, and inputs for which it does not. */
module GattExact {
  import opened Bytes
  import opened Text
  import opened GattDb
  import opened GattText
  import opened GattStore
  import opened GattCache
  import opened GattRoundTrip

  // ----- when everything comes back -----

  /** A characteristic keeps its value if it has none, or the 16 bytes of the database hash. A
      descriptor keeps its value if it has none or, for extended properties, if it has those that are
      stored for its characteristic; and a characteristic has to store it at all. */
  predicate Stays(items: seq<Item>, i: nat)
    requires i < |items|
  {
    match items[i]
    case Incl(_, _, _) => false
    case Chrc(_, _, uuid, value) => value == [] || (uuid == DB_HASH_UUID && |value| == 16)
    case Desc(_, uuid, value) =>
      && Owner(items, i).Some?
      && value == if uuid == EXT_PROPER_UUID && Owner(items, i).value != 0 then [Owner(items, i).value, 0] else []
  }

  /** An item that comes back as it was: an include on the handle that its place behind the service
      declaration gives it, anything else as above. */
  predicate Kept(items: seq<Item>, start: u16, i: nat)
    requires i < |items|
  {
    if items[i].Incl? then items[i].handle == start + 1 + i && forall j :: 0 <= j < i ==> items[j].Incl?
    else Stays(items, i)
  }

  lemma {:induction false} NewIncls(es: seq<Entry>, top: u16)
    requires (forall j :: 0 <= j < |es| ==> es[j].InclLine?) && top + |es| <= UINT16_MAX
    ensures forall j :: 0 <= j < |es| ==> NewItems(es, top)[j] == Incl(top + 1 + j, es[j].start, es[j].end)
  {
    if es != [] {
      NewIncls(es[1..], top + 1);
      var rest := NewItems(es[1..], top + 1);
      assert NewItems(es, top) == [Incl(top + 1, es[0].start, es[0].end)] + rest;
    }
  }

  lemma {:induction false} NewItemsConcat(es: seq<Entry>, fs: seq<Entry>, top: u16)
    requires forall i :: 0 <= i < |es| ==> !es[i].ServiceLine?
    requires forall i :: 0 <= i < |fs| ==> fs[i].ChrcLine? || fs[i].DescLine?
    ensures forall i :: 0 <= i < |es + fs| ==> !(es + fs)[i].ServiceLine?
    ensures NewItems(es + fs, top) == NewItems(es, top) + NewItems(fs, 0)
  {
    hide NewItem;
    if es == [] {
      assert es + fs == fs;
      AnyTop(fs, top);
    } else {
      var item := NewItem(es[0], top);
      NewItemsConcat(es[1..], fs, LastHandle(item));
      NewItemsCons(es[0], es[1..] + fs, top);
      NewItemsCons(es[0], es[1..], top);
      hide NewItems;
      assert es == [es[0]] + es[1..] && es + fs == [es[0]] + (es[1..] + fs);
      var xs, ys := NewItems(es[1..], LastHandle(item)), NewItems(fs, 0);
      assert [item] + (xs + ys) == ([item] + xs) + ys;
    }
  }

  lemma NewItemsCons(e: Entry, rest: seq<Entry>, top: u16)
    requires !e.ServiceLine? && forall i :: 0 <= i < |rest| ==> !rest[i].ServiceLine?
    ensures forall i :: 0 <= i < |[e] + rest| ==> !([e] + rest)[i].ServiceLine?
    ensures NewItems([e] + rest, top) == [NewItem(e, top)] + NewItems(rest, LastHandle(NewItem(e, top)))
  {
    hide NewItem;
    assert ([e] + rest)[1..] == rest;
  }

  lemma AnyTop(fs: seq<Entry>, top: u16)
    requires forall i :: 0 <= i < |fs| ==> fs[i].ChrcLine? || fs[i].DescLine?
    ensures NewItems(fs, top) == NewItems(fs, 0)
  {
  }

  /** The item that the line of a characteristic or a descriptor becomes is the old one. */
  lemma OneStays(items: seq<Item>, i: nat)
    requires i < |items|
    ensures Stays(items, i) ==> |StoredAt(items, i)| == 1
    ensures StoredAt(items, i) != [] ==>
      var e := StoredAt(items, i)[0];
      |StoredAt(items, i)| == 1 && !e.ServiceLine? && (NewItem(e, 0) == items[i] <==> Stays(items, i))
  {
    hide Owner;
    if items[i].Desc? && Owner(items, i).Some? {
      var ext: nat := Owner(items, i).value;
      assert ext % 0x100 == ext && ext / 0x100 == 0;
    }
  }

  /** The items that the stored characteristics and descriptors from i on become. */
  function StoredItems(items: seq<Item>, i: nat): seq<Item>
    requires i <= |items|
  {
    StoredAreNoServices(items, i);
    NewItems(StoredFrom(items, i), 0)
  }

  lemma StoredItemsStep(items: seq<Item>, i: nat)
    requires i < |items|
    ensures StoredAt(items, i) == [] ==> StoredItems(items, i) == StoredItems(items, i + 1)
    ensures |StoredAt(items, i)| == 1 ==>
      && !StoredAt(items, i)[0].ServiceLine?
      && StoredItems(items, i) == [NewItem(StoredAt(items, i)[0], 0)] + StoredItems(items, i + 1)
  {
    StoredAreNoServices(items, i);
    StoredAreNoServices(items, i + 1);
    var front, rest := StoredAt(items, i), StoredFrom(items, i + 1);
    assert StoredFrom(items, i) == front + rest;
    hide StoredAt, StoredFrom;
    if front == [] {
      assert front + rest == rest;
    } else if |front| == 1 {
      assert (front + rest)[1..] == rest && (front + rest)[0] == front[0];
      AnyTop(rest, LastHandle(NewItem(front[0], 0)));
    }
  }

  /** From i on the stored items are all items exactly if each of them stays. */
  lemma {:induction false} StoredAreItems(items: seq<Item>, i: nat)
    requires i <= |items|
    ensures |StoredItems(items, i)| <= |items| - i
    ensures StoredItems(items, i) == items[i..] <==> forall j :: i <= j < |items| ==> Stays(items, j)
    decreases |items| - i
  {
    hide StoredAt, StoredFrom, Stays, NewItem;
    if i < |items| {
      StoredItemsStep(items, i);
      hide StoredItems;
      StoredAreItems(items, i + 1);
      OneStays(items, i);
      assert items[i..] == [items[i]] + items[i + 1..];
      if StoredAt(items, i) != [] {
        SameCons(NewItem(StoredAt(items, i)[0], 0), StoredItems(items, i + 1), items[i], items[i + 1..]);
      }
    } else {
      NothingStored(items);
    }
  }

  lemma NothingStored(items: seq<Item>)
    ensures StoredItems(items, |items|) == []
  {
  }

  lemma SameCons(x: Item, xs: seq<Item>, y: Item, ys: seq<Item>)
    ensures [x] + xs == [y] + ys <==> x == y && xs == ys
  {
    assert ([x] + xs)[0] == x && ([x] + xs)[1..] == xs;
    assert ([y] + ys)[0] == y && ([y] + ys)[1..] == ys;
  }

  lemma {:induction false} InclAtMost(ss: seq<Service>, items: seq<Item>, i: nat)
    requires i <= |items|
    ensures |InclEntries(ss, items, i)| <= |items| - i <= Slots(items[i..])
    decreases |items| - i
  {
    if i < |items| {
      hide GetAttribute;
      InclAtMost(ss, items, i + 1);
      SlotsFront(items, i);
      hide Slots;
    }
  }

  /** Handles behind the declaration of a service do not run out. */
  lemma InclRoom(ss: seq<Service>, s: Service)
    requires WellFormed(ss) && s in ss
    ensures s.start + |InclEntries(ss, s.items, 0)| <= UINT16_MAX
  {
    InclAtMost(ss, s.items, 0);
    assert s.items[0..] == s.items;
    hide InclEntries, Slots;
  }

  /** Includes in front are not among the stored characteristics and descriptors. */
  lemma {:induction false} SkipIncls(items: seq<Item>, n: nat)
    requires n <= |items| && forall j :: 0 <= j < n ==> items[j].Incl?
    ensures StoredItems(items, 0) == StoredItems(items, n)
  {
    hide StoredItems, NewItem;
    if n > 0 {
      SkipIncls(items, n - 1);
      StoredItemsStep(items, n - 1);
      assert StoredAt(items, n - 1) == [];
    }
  }

  lemma {:induction false} StoredAreNoIncls(items: seq<Item>, i: nat)
    requires i <= |items|
    ensures forall j :: 0 <= j < |StoredItems(items, i)| ==> !StoredItems(items, i)[j].Incl?
    decreases |items| - i
  {
    hide *;
    if i < |items| {
      StoredAreNoIncls(items, i + 1);
      StoredItemsStep(items, i);
      OneStored(items, i);
    } else {
      NothingStored(items);
    }
  }

  lemma OneStored(items: seq<Item>, i: nat)
    requires i < |items|
    ensures |StoredAt(items, i)| <= 1
    ensures StoredAt(items, i) != [] ==>
      var e := StoredAt(items, i)[0]; (e.ChrcLine? || e.DescLine?) && !NewItem(e, 0).Incl?
  {
    hide Owner;
  }

  /** If includes and stored items together are the old items, every item is kept. */
  lemma KeptFromSame(items: seq<Item>, start: u16, front: seq<Item>)
    requires front + StoredItems(items, 0) == items
    requires forall j :: 0 <= j < |front| ==> front[j].Incl? && front[j].handle == start + 1 + j
    ensures forall i :: 0 <= i < |items| ==> Kept(items, start, i)
  {
    var n, back := |front|, StoredItems(items, 0);
    StoredAreNoIncls(items, 0);
    assert forall j :: 0 <= j < n ==> items[j] == front[j];
    assert forall j :: n <= j < |items| ==> items[j] == back[j - n];
    SkipIncls(items, n);
    assert items[n..] == back;
    StoredAreItems(items, n);
    hide StoredItems, Stays;
  }

  function Leading(items: seq<Item>, i: nat): (n: nat)
    requires i <= |items|
    ensures i + n <= |items| && forall j :: i <= j < i + n ==> items[j].Incl?
    ensures i + n < |items| ==> !items[i + n].Incl?
    decreases |items| - i
  {
    if i < |items| && items[i].Incl? then 1 + Leading(items, i + 1) else 0
  }

  lemma {:induction false} NoIncls(ss: seq<Service>, items: seq<Item>, i: nat)
    requires i <= |items| && forall j :: i <= j < |items| ==> !items[j].Incl?
    ensures InclEntries(ss, items, i) == []
    decreases |items| - i
  {
    if i < |items| {
      NoIncls(ss, items, i + 1);
    }
  }

  predicate IsLineOf(e: Entry, i: Item) {
    e.InclLine? && i.Incl? && e.handle == i.handle && e.start == i.start && e.end == i.end
  }

  /** The lines of leading includes are those of the items, one for one. */
  lemma {:induction false} LeadingIncls(ss: seq<Service>, items: seq<Item>, i: nat, k: nat)
    requires i <= k <= |items|
    requires forall j :: 0 <= j < |items| ==> (items[j].Incl? <==> j < k)
    requires forall j :: 0 <= j < k ==> |InclEntry(ss, items[j])| == 1 && IsLineOf(InclEntry(ss, items[j])[0], items[j])
    ensures var es := InclEntries(ss, items, i);
            |es| == k - i && forall j :: 0 <= j < |es| ==> IsLineOf(es[j], items[i + j])
    decreases k - i
  {
    hide InclEntry;
    if i == k {
      NoIncls(ss, items, i);
    } else {
      LeadingIncls(ss, items, i + 1, k);
      var e, rest := InclEntry(ss, items[i]), InclEntries(ss, items, i + 1);
      assert InclEntries(ss, items, i) == e + rest;
      hide InclEntries;
      assert forall j :: 1 <= j < |e + rest| ==> (e + rest)[j] == rest[j - 1];
    }
  }

  /** Kept includes lead, each on the handle of its place. */
  lemma KeptLead(items: seq<Item>, start: u16, k: nat)
    requires forall i :: 0 <= i < |items| ==> Kept(items, start, i)
    requires k <= |items| && (forall j :: 0 <= j < k ==> items[j].Incl?) && (k < |items| ==> !items[k].Incl?)
    ensures forall j :: 0 <= j < |items| ==> (items[j].Incl? <==> j < k)
    ensures forall j :: 0 <= j < k ==> items[j].handle == start + 1 + j
    ensures forall j :: k <= j < |items| ==> Stays(items, j)
  {
    hide Stays;
    forall j | 0 <= j < |items|
      ensures items[j].Incl? <==> j < k
      ensures if j < k then items[j].handle == start + 1 + j else Stays(items, j)
    {
      assert Kept(items, start, j);
    }
  }

  lemma LineOfIncl(ss: seq<Service>, s: Service, j: nat)
    requires WellFormed(ss) && s in ss && j < |s.items| && s.items[j].Incl?
    ensures |InclEntry(ss, s.items[j])| == 1 && IsLineOf(InclEntry(ss, s.items[j])[0], s.items[j])
  {
    assert ItemOk(ss, s, s.items[j]);
    hide InclEntry, Targets, Good, Active;
    InclGood(ss, s.items[j]);
  }

  /** The lines of the includes in front. */
  lemma LeadingLines(ss: seq<Service>, s: Service, k: nat)
    requires WellFormed(ss) && s in ss && k <= |s.items|
    requires forall j :: 0 <= j < |s.items| ==> (s.items[j].Incl? <==> j < k)
    ensures var es := InclEntries(ss, s.items, 0);
            |es| == k && forall j :: 0 <= j < k ==> es[j].InclLine? && IsLineOf(es[j], s.items[j])
  {
    hide WellFormed, InclEntry;
    forall j | 0 <= j < k
      ensures |InclEntry(ss, s.items[j])| == 1 && IsLineOf(InclEntry(ss, s.items[j])[0], s.items[j])
    {
      LineOfIncl(ss, s, j);
    }
    LeadingIncls(ss, s.items, 0, k);
  }

  lemma InclsAreLeading(items: seq<Item>, start: u16, k: nat, es: seq<Entry>)
    requires k == |es| <= |items| && start + k <= UINT16_MAX
    requires forall j :: 0 <= j < k ==> items[j].Incl? && items[j].handle == start + 1 + j
    requires forall j :: 0 <= j < k ==> es[j].InclLine? && IsLineOf(es[j], items[j])
    ensures NewItems(es, start) == items[..k]
  {
    hide NewItem;
    NewIncls(es, start);
    hide NewItems;
    var r := NewItems(es, start);
    assert forall j :: 0 <= j < k ==> r[j] == items[j];
  }

  lemma BackIsRest(items: seq<Item>, k: nat)
    requires k <= |items| && (forall j :: 0 <= j < k ==> items[j].Incl?)
    requires forall j :: k <= j < |items| ==> Stays(items, j)
    ensures StoredItems(items, 0) == items[k..]
  {
    hide StoredItems, Stays;
    SkipIncls(items, k);
    StoredAreItems(items, k);
  }

  lemma FrontIsLeading(ss: seq<Service>, s: Service, k: nat, es: seq<Entry>)
    requires WellFormed(ss) && s in ss && k <= |s.items| && es == InclEntries(ss, s.items, 0)
    requires forall j :: 0 <= j < |s.items| ==> (s.items[j].Incl? <==> j < k)
    requires forall j :: 0 <= j < k ==> s.items[j].handle == s.start + 1 + j
    ensures (forall j :: 0 <= j < |es| ==> !es[j].ServiceLine?) && NewItems(es, s.start) == s.items[..k]
  {
    hide NewItems, WellFormed;
    InclRoom(ss, s);
    LeadingLines(ss, s, k);
    hide InclEntries;
    InclsAreLeading(s.items, s.start, k, es);
  }

  /** If every item is kept, includes and stored items together are the old items. */
  lemma SameFromKept(ss: seq<Service>, s: Service, es: seq<Entry>)
    requires WellFormed(ss) && s in ss && es == InclEntries(ss, s.items, 0)
    requires forall i :: 0 <= i < |s.items| ==> Kept(s.items, s.start, i)
    ensures (forall j :: 0 <= j < |es| ==> !es[j].ServiceLine?)
    ensures NewItems(es, s.start) + StoredItems(s.items, 0) == s.items
  {
    hide *;
    var items, k := s.items, Leading(s.items, 0);
    KeptLead(items, s.start, k);
    FrontIsLeading(ss, s, k, es);
    BackIsRest(items, k);
    assert items == items[..k] + items[k..];
  }

  /** The items of a service come back as they were exactly if each of them is kept. */
  lemma ItemsIff(ss: seq<Service>, s: Service)
    requires WellFormed(ss) && s in ss
    ensures Reloaded(ss, s).items == s.items <==> forall i :: 0 <= i < |s.items| ==> Kept(s.items, s.start, i)
  {
    var items, incls := s.items, InclEntries(ss, s.items, 0);
    InclsAreNoServices(ss, items, 0);
    StoredAreNoServices(items, 0);
    ChrcsAreStored(items);
    InclRoom(ss, s);
    hide InclEntries, StoredFrom, ChrcEntries, Kept, WellFormed;
    NewItemsConcat(incls, ChrcEntries(items, 0), s.start);
    NewIncls(incls, s.start);
    var front := NewItems(incls, s.start);
    assert Reloaded(ss, s).items == front + StoredItems(items, 0);
    hide Reloaded, NewItems, StoredItems;
    if front + StoredItems(items, 0) == items {
      KeptFromSame(items, s.start, front);
    }
    if forall i :: 0 <= i < |items| ==> Kept(items, s.start, i) {
      SameFromKept(ss, s, incls);
    }
  }

  /** A service that is stored and loaded as it was. */
  ghost predicate Unchanged(s: Service) {
    s.active && forall i :: 0 <= i < |s.items| ==> Kept(s.items, s.start, i)
  }

  lemma ServiceIff(ss: seq<Service>, s: Service)
    requires WellFormed(ss) && s in ss
    ensures Reloaded(ss, s) == s <==> Unchanged(s)
  {
    hide NewItems, Body, Kept, WellFormed;
    ItemsIff(ss, s);
  }

  lemma AllServicesIff(ss: seq<Service>, r: seq<Service>)
    requires WellFormed(ss) && |r| == |ss| && forall i :: 0 <= i < |ss| ==> r[i] == Reloaded(ss, ss[i])
    ensures r == ss <==> forall s :: s in ss ==> Unchanged(s)
  {
    hide Reloaded, WellFormed, Unchanged;
    forall i | 0 <= i < |ss|
      ensures r[i] == ss[i] <==> Unchanged(ss[i])
    {
      ServiceIff(ss, ss[i]);
    }
    if r == ss {
      assert forall i :: 0 <= i < |ss| ==> r[i] == ss[i];
    }
  }

  lemma ActiveOrNot(ss: seq<Service>)
    ensures Active(ss, 0) == ss || (|Active(ss, 0)| < |ss| && exists k :: 0 <= k < |ss| && !ss[k].active)
  {
    ActiveAll(ss, 0);
    assert ss[0..] == ss;
  }

  /** Everything comes back as it was exactly if every service is active and every item is kept. */
  lemma ReloadedIsSame(ss: seq<Service>)
    requires WellFormed(ss)
    ensures ReloadedAll(ss, Active(ss, 0)) == ss <==> forall s :: s in ss ==> Unchanged(s)
  {
    hide Reloaded, WellFormed, Kept;
    ActiveOrNot(ss);
    if Active(ss, 0) == ss {
      AllServicesIff(ss, ReloadedAll(ss, ss));
    } else {
      var k :| 0 <= k < |ss| && !ss[k].active;
      assert ss[k] in ss && !Unchanged(ss[k]);
    }
  }

  /** As many active services as services: all of them. */
  lemma {:induction false} ActiveAll(ss: seq<Service>, i: nat)
    requires i <= |ss|
    ensures |Active(ss, i)| <= |ss| - i
    ensures |Active(ss, i)| == |ss| - i ==> Active(ss, i) == ss[i..]
    ensures (forall k :: i <= k < |ss| ==> ss[k].active) ==> Active(ss, i) == ss[i..]
    decreases |ss| - i
  {
    if i < |ss| {
      ActiveAll(ss, i + 1);
      assert ss[i..] == [ss[i]] + ss[i + 1..];
    }
  }

  // ----- handles -----

  /** The handles of all attributes, in the order of the database; a characteristic stands for its
      declaration. */
  function Handles(ss: seq<Service>): seq<int> {
    if ss == [] then [] else [ss[0].start] + FirstHandles(ss[0].items) + Handles(ss[1..])
  }

  function FirstHandles(items: seq<Item>): (r: seq<int>)
    ensures |r| == |items| && forall i :: 0 <= i < |items| ==> r[i] == FirstHandle(items[i])
  {
    if items == [] then [] else [FirstHandle(items[0])] + FirstHandles(items[1..])
  }

  ghost predicate AllDifferent(hs: seq<int>) {
    forall i, j :: 0 <= i < j < |hs| ==> hs[i] != hs[j]
  }

  /** The lines belong to these handles. */
  ghost predicate HaveHandles(es: seq<Entry>, hs: seq<int>) {
    |es| == |hs| && forall i :: 0 <= i < |es| ==> es[i].handle == hs[i]
  }

  lemma HandlesConcat(es: seq<Entry>, hs: seq<int>, fs: seq<Entry>, gs: seq<int>)
    requires HaveHandles(es, hs) && HaveHandles(fs, gs)
    ensures HaveHandles(es + fs, hs + gs)
  {
  }

  lemma StoredHandle(items: seq<Item>, i: nat)
    requires i < |items| && Stays(items, i) && (items[i].Chrc? ==> 0 < items[i].valueHandle)
    ensures HaveHandles(StoredAt(items, i), [FirstHandle(items[i])])
  {
    hide Owner;
  }

  lemma {:induction false} StoredHandles(items: seq<Item>, i: nat)
    requires i <= |items| && forall j :: i <= j < |items| ==> Stays(items, j)
    requires forall j :: 0 <= j < |items| && items[j].Chrc? ==> 0 < items[j].valueHandle
    ensures HaveHandles(StoredFrom(items, i), FirstHandles(items[i..]))
    decreases |items| - i
  {
    if i < |items| {
      hide StoredAt, Stays;
      StoredHandles(items, i + 1);
      StoredHandle(items, i);
      assert StoredFrom(items, i) == StoredAt(items, i) + StoredFrom(items, i + 1);
      assert items[i..][1..] == items[i + 1..];
      hide StoredFrom;
      var rest, handles := StoredFrom(items, i + 1), FirstHandles(items[i + 1..]);
      HandlesConcat(StoredAt(items, i), [FirstHandle(items[i])], rest, handles);
    }
  }

  lemma InclIsNotStored(items: seq<Item>, i: nat)
    requires i < |items| && items[i].Incl?
    ensures StoredFrom(items, i) == StoredFrom(items, i + 1)
  {
    assert StoredAt(items, i) == [];
    hide StoredAt;
    assert StoredFrom(items, i) == [] + StoredFrom(items, i + 1);
  }

  lemma {:induction false} InclsAreNotStored(items: seq<Item>, k: nat)
    requires k <= |items| && forall j :: 0 <= j < k ==> items[j].Incl?
    ensures StoredFrom(items, 0) == StoredFrom(items, k)
  {
    hide *;
    if k > 0 {
      InclsAreNotStored(items, k - 1);
      InclIsNotStored(items, k - 1);
    }
  }

  lemma FrontHandles(ss: seq<Service>, s: Service, k: nat)
    requires WellFormed(ss) && s in ss && k <= |s.items|
    requires forall j :: 0 <= j < |s.items| ==> (s.items[j].Incl? <==> j < k)
    ensures HaveHandles(InclEntries(ss, s.items, 0), FirstHandles(s.items[..k]))
  {
    hide WellFormed, InclEntries;
    LeadingLines(ss, s, k);
  }

  lemma BackHandles(items: seq<Item>, k: nat)
    requires k <= |items| && forall j :: 0 <= j < k ==> items[j].Incl?
    requires forall j :: k <= j < |items| ==> Stays(items, j)
    requires forall j :: 0 <= j < |items| && items[j].Chrc? ==> 0 < items[j].valueHandle
    ensures HaveHandles(ChrcEntries(items, 0), FirstHandles(items[k..]))
  {
    hide *;
    InclsAreNotStored(items, k);
    StoredHandles(items, k);
    ChrcsAreStored(items);
  }

  lemma HandlesSplit(items: seq<Item>, k: nat)
    requires k <= |items|
    ensures FirstHandles(items[..k]) + FirstHandles(items[k..]) == FirstHandles(items)
  {
    hide FirstHandles;
  }

  /** If every item is kept, each has a line, in order. */
  lemma BodyHandles(ss: seq<Service>, s: Service)
    requires WellFormed(ss) && s in ss && forall i :: 0 <= i < |s.items| ==> Kept(s.items, s.start, i)
    ensures HaveHandles(Body(ss, s), FirstHandles(s.items))
  {
    hide WellFormed, Stays, Kept, InclEntries, ChrcEntries, HaveHandles, FirstHandles;
    var items, k := s.items, Leading(s.items, 0);
    PositiveValues(ss, s);
    KeptLead(items, s.start, k);
    FrontHandles(ss, s, k);
    BackHandles(items, k);
    HandlesSplit(items, k);
    HandlesConcat(InclEntries(ss, items, 0), FirstHandles(items[..k]), ChrcEntries(items, 0), FirstHandles(items[k..]));
  }

  lemma PositiveValues(ss: seq<Service>, s: Service)
    requires WellFormed(ss) && s in ss
    ensures forall j :: 0 <= j < |s.items| && s.items[j].Chrc? ==> 0 < s.items[j].valueHandle
  {
    assert forall j :: 0 <= j < |s.items| ==> ItemOk(ss, s, s.items[j]);
  }

  /** If nothing changes, the lines of a database belong to the handles of its attributes. */
  lemma {:induction false} EntryHandles(ss: seq<Service>, i: nat)
    requires WellFormed(ss) && i <= |ss| && forall s :: s in ss ==> Unchanged(s)
    ensures HaveHandles(Entries(ss, i), Handles(ss[i..]))
    decreases |ss| - i
  {
    if i < |ss| {
      hide Kept, WellFormed;
      EntryHandles(ss, i + 1);
      assert ss[i] in ss && ss[i].active;
      BodyHandles(ss, ss[i]);
      hide Body;
      assert ss[i..][1..] == ss[i + 1..];
      HandlesConcat([ServiceEntry(ss[i])], [ss[i].start], Body(ss, ss[i]), FirstHandles(ss[i].items));
      HandlesConcat(ServicePiece(ss, ss[i]), [ss[i].start] + FirstHandles(ss[i].items),
                    Entries(ss, i + 1), Handles(ss[i + 1..]));
    }
  }

  /** There are at most as many lines as attributes. */
  lemma {:induction false} EntriesAtMost(ss: seq<Service>, i: nat)
    requires WellFormed(ss) && i <= |ss|
    ensures |Entries(ss, i)| <= Size(ss[i..])
    decreases |ss| - i
  {
    if i < |ss| {
      hide WellFormed, Body;
      EntriesAtMost(ss, i + 1);
      BodyAtMost(ss, ss[i]);
      assert ss[i..][1..] == ss[i + 1..];
    }
  }

  lemma BodyAtMost(ss: seq<Service>, s: Service)
    requires WellFormed(ss) && s in ss
    ensures |Body(ss, s)| <= |s.items|
  {
    forall i | 0 <= i < |s.items| && s.items[i].Incl?
      ensures GetAttribute(ss, s.items[i].start).Some?
    {
      assert ItemOk(ss, s, s.items[i]);
      InclGood(ss, s.items[i]);
    }
    ChrcsAreStored(s.items);
    hide WellFormed, InclEntries, StoredFrom, ChrcEntries, GetAttribute;
    CountStored(ss, s.items, 0);
  }

  /** Storing a database and loading it again gives it back exactly if the handles of its attributes
      differ, its active services can be loaded, and nothing changes in any service. */
  lemma ComesBackIff(ss: seq<Service>)
    requires WellFormed(ss)
    ensures Restored(StoredFile(ss)) == Some(ss)
       <==> AllDifferent(Handles(ss)) && AllLoadable(ss) && forall s :: s in ss ==> Unchanged(s)
  {
    CacheRoundTrip(ss);
    EntriesAtMost(ss, 0);
    ReloadedIsSame(ss);
    assert ss[0..] == ss;
    hide WellFormed, AllLoadable, ReloadedAll, Entries, Restored, StoredFile, Size, Unchanged, Handles;
    if forall s :: s in ss ==> Unchanged(s) {
      EntryHandles(ss, 0);
      assert OneLineEach(Entries(ss, 0)) <==> AllDifferent(Handles(ss));
    }
  }

  // ----- what does not come back -----

  lemma UuidsAreCanonical()
    ensures Canonical(DB_HASH_UUID) && Canonical(EXT_PROPER_UUID)
  {
    assert |DB_HASH_UUID| == 36 && |EXT_PROPER_UUID| == 36;
    forall i | 0 <= i < 36
      ensures if i in {8, 13, 18, 23} then DB_HASH_UUID[i] == '-' else IsLowerHex(DB_HASH_UUID[i])
      ensures if i in {8, 13, 18, 23} then EXT_PROPER_UUID[i] == '-' else IsLowerHex(EXT_PROPER_UUID[i])
    {
    }
  }

  function OneService(uuid: string, items: seq<Item>): Service {
    Service(1, 10, true, uuid, true, items)
  }

  lemma OneOk(s: Service)
    requires s.active
    ensures AllLoadable([s]) <==> Loadable([s], s)
    ensures Active([s], 0) == [s] && ReloadedAll([s], [s]) == [Reloaded([s], s)]
    ensures Entries([s], 0) == ServicePiece([s], s)
  {
    hide Reloaded, Loadable, ServicePiece;
    assert s in [s];
    assert Active([s], 1) == [] && Entries([s], 1) == [];
    assert [s][1..] == [] && ReloadedAll([s], []) == [];
  }

  /** What a database of one service whose lines are es comes back as. */
  lemma OneIsReloaded(s: Service, es: seq<Entry>)
    requires s.active && WellFormed([s]) && es == Body([s], s) && OneLineEach([ServiceEntry(s)] + es)
    requires forall j :: 0 <= j < |es| ==> !es[j].ServiceLine?
    ensures Restored(StoredFile([s]))
         == if Loadable([s], s) then Some([s.(items := NewItems(es, s.start))]) else None
  {
    assert Reloaded([s], s) == s.(active := true, items := NewItems(es, s.start));
    assert ServicePiece([s], s) == [ServiceEntry(s)] + es;
    OneOk(s);
    CacheRoundTrip([s]);
    hide Entries, Active, AllLoadable, Loadable, Reloaded, ServiceEntry, NewItems, StoredFile, Restored, WellFormed;
  }

  lemma OneIsWellFormed(uuid: string, items: seq<Item>)
    requires Canonical(uuid) && 1 + Slots(items) <= 10
    requires forall i :: 0 <= i < |items| ==> ItemOk([OneService(uuid, items)], OneService(uuid, items), items[i])
    ensures WellFormed([OneService(uuid, items)])
  {
    hide ItemOk, Canonical, Slots;
    var s := OneService(uuid, items);
    assert forall k :: 0 <= k < |[s]| ==> [s][k] == s;
  }

  lemma SlotsOfTwo(x: Item, y: Item)
    ensures Slots([x, y]) == Width(x) + Width(y) && Slots([x]) == Width(x)
  {
    SlotsSnoc([], x);
    SlotsSnoc([x], y);
    assert [] + [x] == [x] && [x] + [y] == [x, y];
  }

  /** The descriptor of a database hash is lost: the cache loads without it. */
  lemma HashDescriptorIsLost(uuid: string)
    requires Canonical(uuid) && uuid != EXT_PROPER_UUID
    ensures var hash, desc := Chrc(3, 2, DB_HASH_UUID, []), Desc(4, uuid, []);
            var s := OneService(uuid, [hash, desc]);
            Restored(StoredFile([s])) == Some([s.(items := [hash])])
  {
    var hash, desc := Chrc(3, 2, DB_HASH_UUID, []), Desc(4, uuid, []);
    var s := OneService(uuid, [hash, desc]);
    UuidsAreCanonical();
    hide Canonical;
    SlotsOfTwo(hash, desc);
    OneIsWellFormed(uuid, [hash, desc]);
    HashBody(s, hash, desc);
    hide WellFormed, Slots, Body;
    assert Loadable([s], s);
    hide Loadable;
    OneIsReloaded(s, [ChrcEntry(hash)]);
  }

  lemma HashBody(s: Service, hash: Item, desc: Item)
    requires s.items == [hash, desc] && hash.Chrc? && hash.uuid == DB_HASH_UUID && hash.value == [] && desc.Desc?
    ensures Body([s], s) == [ChrcEntry(hash)] && NewItems([ChrcEntry(hash)], s.start) == [hash]
  {
    NoIncls([s], s.items, 0);
    assert ChrcEntries(s.items, 2) == [] && ChrcEntries(s.items, 1) == [];
    hide InclEntries;
    assert NewItems([], 0) == [];
  }

  /** An include with a gap in front of it comes back on another handle. */
  lemma IncludeMoves(uuid: string)
    requires Canonical(uuid)
    ensures var s, t := OneService(uuid, [Incl(5, 20, 20)]), Service(20, 1, false, uuid, true, []);
            Restored(StoredFile([s, t])) == Some([s.(items := [Incl(2, 20, 20)]), t])
  {
    var incl := Incl(5, 20, 20);
    var s, t := OneService(uuid, [incl]), Service(20, 1, false, uuid, true, []);
    var ss := [s, t];
    hide Canonical;
    SlotsOfTwo(incl, incl);
    TwoAreWellFormed(ss, incl);
    hide Slots, WellFormed;
    InclBody(ss, incl);
    TwoAreReloaded(ss, [InclLine(5, 20, 20, uuid)], [Incl(2, 20, 20)]);
    assert s.(active := true, items := [Incl(2, 20, 20)]) == s.(items := [Incl(2, 20, 20)]);
  }

  /** What a database of two services is loaded as, the first with a line for an include of the second. */
  lemma TwoAreReloaded(ss: seq<Service>, es: seq<Entry>, items: seq<Item>)
    requires WellFormed(ss) && |ss| == 2 && ss[0].active && ss[1].active && ss[1].items == []
    requires Body(ss, ss[0]) == es && Body(ss, ss[1]) == []
    requires |es| == 1 && !es[0].ServiceLine? && NewItems(es, ss[0].start) == items
    requires ss[0].start < es[0].handle < ss[1].start
    requires |ss[0].items| == 1 && ss[0].items[0].Incl? && ss[0].items[0].start == ss[1].start
    ensures Restored(StoredFile(ss)) == Some([ss[0].(items := items), ss[1]])
  {
    TwoLoadable(ss);
    TwoEntries(ss, es[0]);
    CacheRoundTrip(ss);
    hide Loadable, WellFormed, AllLoadable, ReloadedAll, StoredFile, Restored;
    TwoOk(ss);
    hide Body;
    assert NewItems([], ss[1].start) == [];
    hide Entries, Active, NewItems;
    assert Reloaded(ss, ss[0]) == ss[0].(items := items) && Reloaded(ss, ss[1]) == ss[1];
  }

  lemma {:induction false} TwoEntries(ss: seq<Service>, e: Entry)
    requires |ss| == 2 && ss[0].active && ss[1].active && ss[0].start < e.handle < ss[1].start
    requires Body(ss, ss[0]) == [e] && Body(ss, ss[1]) == []
    ensures OneLineEach(Entries(ss, 0))
  {
    hide Body;
    assert Entries(ss, 2) == [];
    assert Entries(ss, 0) == [ServiceEntry(ss[0]), e, ServiceEntry(ss[1])];
  }

  lemma TwoLoadable(ss: seq<Service>)
    requires |ss| == 2 && ss[1].active && ss[1].items == []
    requires |ss[0].items| == 1 && ss[0].items[0].Incl? && ss[0].items[0].start == ss[1].start
    ensures Loadable(ss, ss[0]) && Loadable(ss, ss[1])
  {
    assert IncludesActive(ss, ss[0].items[0]);
  }

  lemma TwoAreWellFormed(ss: seq<Service>, incl: Item)
    requires |ss| == 2 && Canonical(ss[0].uuid) && Canonical(ss[1].uuid)
    requires ss[0].start == 1 && ss[0].num == 10 && ss[0].items == [incl] && Slots([incl]) == 1
    requires ss[1].start == 20 && ss[1].num == 1 && ss[1].items == [] && incl == Incl(5, 20, 20)
    ensures WellFormed(ss)
  {
    hide Canonical;
    assert ss[1].start == 20 && End(ss[1]) == 20;
    assert Slots([]) == 0;
    hide Slots;
  }

  lemma TwoOk(ss: seq<Service>)
    requires |ss| == 2 && ss[0].active && ss[1].active && Loadable(ss, ss[0]) && Loadable(ss, ss[1])
    ensures AllLoadable(ss) && Active(ss, 0) == ss
    ensures ReloadedAll(ss, ss) == [Reloaded(ss, ss[0]), Reloaded(ss, ss[1])]
  {
    hide Reloaded, Loadable;
    assert Active(ss, 2) == [] && Active(ss, 1) == [ss[1]];
    assert ss == [ss[0]] + [ss[1]];
  }

  lemma InclBody(ss: seq<Service>, incl: Item)
    requires |ss| == 2 && ss[0].start == 1 && ss[0].num == 10 && ss[0].items == [incl] && incl == Incl(5, 20, 20)
    requires ss[1].start == 20 && ss[1].num == 1 && ss[1].items == []
    ensures Body(ss, ss[0]) == [InclLine(5, 20, 20, ss[1].uuid)] && Body(ss, ss[1]) == []
    ensures NewItems(Body(ss, ss[0]), 1) == [Incl(2, 20, 20)] && NewItems(Body(ss, ss[1]), 20) == []
  {
    var e := InclLine(5, 20, 20, ss[1].uuid);
    FindIs(ss, 20, 1);
    assert InclEntry(ss, incl) == [e];
    hide InclEntry;
    assert InclEntries(ss, [incl], 1) == [] && ChrcEntries([incl], 1) == [];
    assert Body(ss, ss[0]) == [e];
    hide Body;
    assert NewItems([e], 1) == [Incl(2, 20, 20)];
  }

  /** A descriptor for extended properties under a characteristic without the property bit makes the
      whole cache unreadable. */
  lemma MissingBitRefusesAll(uuid: string)
    requires Canonical(uuid) && uuid != DB_HASH_UUID
    ensures var s := OneService(uuid, [Chrc(3, 2, uuid, []), Desc(4, EXT_PROPER_UUID, [1, 0])]);
            Restored(StoredFile([s])) == None
  {
    var chrc, desc := Chrc(3, 2, uuid, []), Desc(4, EXT_PROPER_UUID, [1, 0]);
    var s := OneService(uuid, [chrc, desc]);
    UuidsAreCanonical();
    hide Canonical;
    SlotsOfTwo(chrc, desc);
    OneIsWellFormed(uuid, s.items);
    assert ExtProps(s.items, 0) == 0 && Owner(s.items, 1) == Some(0);
    assert !Extended(s.items, 1);
    assert s in [s] && !Loadable([s], s);
    hide WellFormed, Loadable, Slots;
    TwoBody(s, chrc, desc);
    OneIsReloaded(s, [ChrcEntry(chrc), DescEntry(desc, 0)]);
  }

  lemma TwoBody(s: Service, chrc: Item, desc: Item)
    requires s.items == [chrc, desc] && chrc.Chrc? && chrc.uuid != DB_HASH_UUID && desc.Desc?
    ensures Body([s], s) == [ChrcEntry(chrc), DescEntry(desc, ExtProps(s.items, 0))]
  {
    NoIncls([s], s.items, 0);
    var items, ext := s.items, ExtProps(s.items, 0);
    hide InclEntries, ChrcEntry, DescEntry, ExtProps;
    assert DescEntries(items, 2, ext) == [] && DescEntries(items, 1, ext) == [DescEntry(desc, ext)];
    assert ChrcEntries(items, 2) == [] && ChrcEntries(items, 1) == [];
  }

  /** If the value of a characteristic follows its service declaration at once, the line of its
      declaration replaces that of the service, and the whole cache is unreadable. */
  lemma SharedHandleRefusesAll(uuid: string)
    requires Canonical(uuid) && uuid != DB_HASH_UUID
    ensures var s := OneService(uuid, [Chrc(2, 2, uuid, [])]);
            && WellFormed([s]) && AllLoadable([s]) && Unchanged(s)
            && Restored(StoredFile([s])) == None
  {
    var chrc := Chrc(2, 2, uuid, []);
    var s := OneService(uuid, [chrc]);
    hide *;
    SharedIsFine(uuid, s, chrc);
    SharedFile(uuid, s, chrc);
    OnlyChrcIsRefused(ChrcEntry(chrc));
  }

  /** Nothing but the shared handle is wrong with it. */
  lemma SharedIsFine(uuid: string, s: Service, chrc: Item)
    requires Canonical(uuid) && uuid != DB_HASH_UUID
    requires chrc == Chrc(2, 2, uuid, []) && s == OneService(uuid, [chrc])
    ensures WellFormed([s]) && AllLoadable([s]) && Unchanged(s)
  {
    hide Canonical;
    SlotsOfTwo(chrc, chrc);
    OneIsWellFormed(uuid, [chrc]);
    hide WellFormed, Slots;
    assert Loadable([s], s);
  }

  lemma SharedFile(uuid: string, s: Service, chrc: Item)
    requires Canonical(uuid) && uuid != DB_HASH_UUID
    requires chrc == Chrc(2, 2, uuid, []) && s == OneService(uuid, [chrc])
    ensures var e := ChrcEntry(chrc);
            e.ChrcLine? && Saved(e) && StoredFile([s]) == [(Key(e), Line(e))]
  {
    hide Canonical, Key, Line, Entries, Body, Written;
    ChrcBody(s, chrc);
    OneOk(s);
    SecondReplacesFirst(ServiceEntry(s), ChrcEntry(chrc));
  }

  lemma SecondReplacesFirst(a: Entry, e: Entry)
    requires a.handle == e.handle
    ensures Written([], [a] + [e]) == [(Key(e), Line(e))]
  {
    hide Line, Hex16;
    WrittenOne([], a);
    WrittenOne([(Key(e), Line(a))], e);
    WrittenConcat([], [a], [e]);
  }

  lemma ChrcBody(s: Service, chrc: Item)
    requires s.items == [chrc] && chrc.Chrc? && chrc.uuid != DB_HASH_UUID
    ensures Body([s], s) == [ChrcEntry(chrc)]
  {
    NoIncls([s], s.items, 0);
    var items, ext := s.items, ExtProps(s.items, 0);
    hide InclEntries, ChrcEntry, DescEntry, ExtProps;
    assert DescEntries(items, 1, ext) == [] && ChrcEntries(items, 1) == [];
  }

  lemma OnlyChrcIsRefused(e: Entry)
    requires e.ChrcLine? && Saved(e)
    ensures Restored([(Key(e), Line(e))]) == None
  {
    DeclareEntry(EMPTY, e);
    FillEntry(Loading(EMPTY, None), e);
    hide DeclareLine, FillLine, Key, Line;
    assert [(Key(e), Line(e))][1..] == [];
  }
}
