/** Storing the database of a device: which lines the saver writes, and in which order. */
module GattStore {
  import opened Bytes
  import opened Text
  import opened GattDb
  import opened GattText

  type CacheFile = seq<(string, string)>

  // ----- lines -----

  function Lines(es: seq<Entry>): (file: CacheFile)
    ensures |file| == |es| && forall i :: 0 <= i < |es| ==> file[i] == (Key(es[i]), Line(es[i]))
  {
    if es == [] then [] else [(Key(es[0]), Line(es[0]))] + Lines(es[1..])
  }

  lemma LinesConcat(es: seq<Entry>, fs: seq<Entry>)
    ensures Lines(es + fs) == Lines(es) + Lines(fs)
  {
    hide Key, Line, Lines;
    var r, s := Lines(es + fs), Lines(es) + Lines(fs);
    forall i | 0 <= i < |r|
      ensures r[i] == s[i]
    {
      assert (es + fs)[i] == if i < |es| then es[i] else fs[i - |es|];
    }
  }

  lemma LinesOne(e: Entry)
    ensures Lines([e]) == [(Key(e), Line(e))]
  {
    hide Key, Line, Lines;
  }

  // ----- setting lines -----

  /** Where a key is found; the length of the file if it is not there. */
  function KeyAt(file: CacheFile, key: string): (i: nat)
    ensures i <= |file| && (i < |file| ==> file[i].0 == key) && forall j :: 0 <= j < i ==> file[j].0 != key
  {
    if file == [] || file[0].0 == key then 0 else 1 + KeyAt(file[1..], key)
  }

  /** g_key_file_set_string: a line that has the key already is replaced. */
  function Put(file: CacheFile, key: string, value: string): CacheFile {
    var i := KeyAt(file, key);
    if i < |file| then file[i := (key, value)] else file + [(key, value)]
  }

  /** The file after the lines of es have been set in turn. */
  function Written(file: CacheFile, es: seq<Entry>): CacheFile
    decreases |es|
  {
    if es == [] then file else Written(Put(file, Key(es[0]), Line(es[0])), es[1..])
  }

  lemma {:induction false} WrittenConcat(file: CacheFile, es: seq<Entry>, fs: seq<Entry>)
    ensures Written(file, es + fs) == Written(Written(file, es), fs)
    decreases |es|
  {
    hide Key, Line, Put;
    if es == [] {
      assert es + fs == fs;
    } else {
      assert (es + fs)[1..] == es[1..] + fs;
      WrittenConcat(Put(file, Key(es[0]), Line(es[0])), es[1..], fs);
    }
  }

  lemma WrittenOne(file: CacheFile, e: Entry)
    ensures Written(file, [e]) == Put(file, Key(e), Line(e))
  {
    hide Key, Line, Put;
    assert [e][1..] == [];
    assert Written(Put(file, Key(e), Line(e)), []) == Put(file, Key(e), Line(e));
  }

  /** A loop that has the entries of all before it and writes those of one piece has the rest before it. */
  lemma WrittenStep(file: CacheFile, piece: seq<Entry>, rest: seq<Entry>, all: seq<Entry>)
    requires all == piece + rest
    ensures Written(file, all) == Written(Written(file, piece), rest)
  {
    WrittenConcat(file, piece, rest);
    hide Written;
  }

  lemma NothingWritten(file: CacheFile, es: seq<Entry>)
    requires es == []
    ensures Written(file, es) == file
  {
  }

  // ----- lines that replace each other -----

  /** No two lines belong to the same handle. */
  predicate OneLineEach(es: seq<Entry>) {
    forall i, j :: 0 <= i < j < |es| ==> es[i].handle != es[j].handle
  }

  lemma PutGrows(file: CacheFile, key: string, value: string)
    ensures var r := Put(file, key, value);
            if HasKey(file, key) then |r| == |file| else r == file + [(key, value)]
    ensures forall k :: HasKey(Put(file, key, value), k) <==> k == key || HasKey(file, k)
  {
    var r, i := Put(file, key, value), KeyAt(file, key);
    assert i < |file| <==> HasKey(file, key);
    assert i < |r| && r[i].0 == key;
    assert forall j :: 0 <= j < |file| ==> r[j].0 == file[j].0;
    assert forall j :: 0 <= j < |r| ==> r[j].0 == if j == i then key else file[j].0;
  }

  predicate HasKey(file: CacheFile, key: string) {
    exists i :: 0 <= i < |file| && file[i].0 == key
  }

  /** No line replaces another one, or one of the file. */
  ghost predicate Fresh(file: CacheFile, es: seq<Entry>) {
    OneLineEach(es) && forall i :: 0 <= i < |es| ==> !HasKey(file, Key(es[i]))
  }

  lemma FreshStep(file: CacheFile, es: seq<Entry>)
    requires es != []
    ensures Fresh(file, es)
       <==> !HasKey(file, Key(es[0])) && Fresh(Put(file, Key(es[0]), Line(es[0])), es[1..])
  {
    var r := Put(file, Key(es[0]), Line(es[0]));
    PutGrows(file, Key(es[0]), Line(es[0]));
    hide Put, HasKey, Line, Hex16;
    forall i | 1 <= i < |es|
      ensures Key(es[i]) == Key(es[0]) <==> es[i].handle == es[0].handle
    {
      Hex16Injective(es[i].handle, es[0].handle);
    }
    assert forall i :: 1 <= i < |es| ==> es[i] == es[1..][i - 1];
    assert forall i :: 0 <= i < |es[1..]| ==> es[1..][i] == es[i + 1];
  }

  /** The file gets one line for each entry exactly if no line replaces another one. */
  lemma {:induction false} WrittenIff(file: CacheFile, es: seq<Entry>)
    ensures if Fresh(file, es) then Written(file, es) == file + Lines(es)
            else |Written(file, es)| < |file| + |es|
    decreases |es|
  {
    if es == [] {
      assert file + [] == file;
    } else {
      hide Key, Line;
      var k, v := Key(es[0]), Line(es[0]);
      FreshStep(file, es);
      PutGrows(file, k, v);
      hide Fresh, HasKey, Put;
      WrittenIff(Put(file, k, v), es[1..]);
      assert Lines(es) == [(k, v)] + Lines(es[1..]);
      hide Lines;
      assert (file + [(k, v)]) + Lines(es[1..]) == file + ([(k, v)] + Lines(es[1..]));
    }
  }

  // ----- the entries of a database -----

  function ServiceEntry(s: Service): Entry {
    ServiceLine(s.start, s.primary, End(s) % 0x1_0000, s.uuid)
  }

  /** An include has a line if there is an attribute where it points; the line names the service of
      that attribute. */
  function InclEntry(ss: seq<Service>, i: Item): seq<Entry>
    requires i.Incl?
  {
    match GetAttribute(ss, i.start)
    case None => []
    case Some(k) => [InclLine(i.handle, i.start, i.end, ss[k].uuid)]
  }

  function InclEntries(ss: seq<Service>, items: seq<Item>, i: nat): seq<Entry>
    requires i <= |items|
    decreases |items| - i
  {
    if i == |items| then []
    else (if items[i].Incl? then InclEntry(ss, items[i]) else []) + InclEntries(ss, items, i + 1)
  }

  /** The value of a database hash is stored if it has its 16 bytes. */
  function ChrcEntry(c: Item): Entry
    requires c.Chrc?
  {
    ChrcLine((c.valueHandle + 0xffff) % 0x1_0000, c.valueHandle, c.properties,
             if c.uuid == DB_HASH_UUID && |c.value| == 16 then c.value else [], c.uuid)
  }

  /** The line of a descriptor for extended properties carries those of its characteristic. */
  function DescEntry(d: Item, ext: byte): Entry
    requires d.Desc?
  {
    DescLine(d.handle, if d.uuid == EXT_PROPER_UUID then ext else 0, d.uuid)
  }

  /** The descriptors from i on, up to the next item of another kind. */
  function DescEntries(items: seq<Item>, i: nat, ext: byte): seq<Entry>
    requires i <= |items|
    decreases |items| - i
  {
    if i == |items| || !items[i].Desc? then [] else [DescEntry(items[i], ext)] + DescEntries(items, i + 1, ext)
  }

  /** A characteristic with its descriptors; those of the database hash are left out. */
  function ChrcPiece(items: seq<Item>, i: nat): seq<Entry>
    requires i < |items| && items[i].Chrc?
  {
    [ChrcEntry(items[i])]
    + if items[i].uuid == DB_HASH_UUID then [] else DescEntries(items, i + 1, ExtProps(items, i))
  }

  function ChrcEntries(items: seq<Item>, i: nat): seq<Entry>
    requires i <= |items|
    decreases |items| - i
  {
    if i == |items| then [] else (if items[i].Chrc? then ChrcPiece(items, i) else []) + ChrcEntries(items, i + 1)
  }

  function Body(ss: seq<Service>, s: Service): seq<Entry> {
    InclEntries(ss, s.items, 0) + ChrcEntries(s.items, 0)
  }

  function ServicePiece(ss: seq<Service>, s: Service): seq<Entry> {
    [ServiceEntry(s)] + Body(ss, s)
  }

  /** Only active services are stored. */
  function Entries(ss: seq<Service>, i: nat): seq<Entry>
    requires i <= |ss|
    decreases |ss| - i
  {
    if i == |ss| then [] else (if ss[i].active then ServicePiece(ss, ss[i]) else []) + Entries(ss, i + 1)
  }

  /** The file of a database. */
  function StoredFile(ss: seq<Service>): CacheFile {
    Written([], Entries(ss, 0))
  }

  /** The file is the lines of all entries if no two of them belong to the same handle; otherwise some
      are missing. */
  lemma StoredLines(ss: seq<Service>)
    ensures if OneLineEach(Entries(ss, 0)) then StoredFile(ss) == Lines(Entries(ss, 0))
            else |StoredFile(ss)| < |Entries(ss, 0)|
  {
    hide Entries, Lines, Written, Key, OneLineEach;
    WrittenIff([], Entries(ss, 0));
    assert forall key :: !HasKey([], key);
    assert [] + Lines(Entries(ss, 0)) == Lines(Entries(ss, 0));
  }

  /** gatt_saver: the file, and the extended properties of the characteristic at hand. */
  class Saver {
    var keyFile: CacheFile
    var extProps: byte

    constructor ()
      ensures keyFile == []
    {
      keyFile, extProps := [], 0;
    }

    method Set(handle: string, value: string)
      modifies this`keyFile
      ensures keyFile == Put(old(keyFile), handle, value)
    {
      keyFile := Put(keyFile, handle, value);
    }

    method StoreDesc(d: Item)
      requires d.Desc?
      modifies this`keyFile
      ensures keyFile == Written(old(keyFile), [DescEntry(d, extProps)])
    {
      WrittenOne(keyFile, DescEntry(d, extProps));
      if d.uuid == EXT_PROPER_UUID && extProps != 0 {
        Set(Hex16(d.handle), Hex16(extProps) + (":" + d.uuid));
      } else {
        Set(Hex16(d.handle), d.uuid);
      }
    }

    /** gatt_db_service_foreach_desc, from the slot behind the value on. */
    method ForeachDesc(items: seq<Item>, i: nat)
      requires i <= |items|
      modifies this`keyFile
      ensures keyFile == Written(old(keyFile), DescEntries(items, i, extProps))
    {
      hide Written, DescEntry;
      var j := i;
      while j < |items| && items[j].Desc?
        invariant i <= j <= |items|
        invariant Written(keyFile, DescEntries(items, j, extProps))
               == Written(old(keyFile), DescEntries(items, i, extProps))
        decreases |items| - j
      {
        WrittenStep(keyFile, [DescEntry(items[j], extProps)], DescEntries(items, j + 1, extProps),
                  DescEntries(items, j, extProps));
        StoreDesc(items[j]);
        j := j + 1;
      }
      NothingWritten(keyFile, DescEntries(items, j, extProps));
    }

    /** For the database hash the value has taken the place of the declaration when the descriptors
        are visited, and a value has none. */
    method StoreChrc(items: seq<Item>, i: nat)
      requires i < |items| && items[i].Chrc?
      modifies this
      ensures keyFile == Written(old(keyFile), ChrcPiece(items, i))
    {
      hide Written, DescEntries, Hex16, HexByte, HexBytes;
      var c := items[i];
      extProps := ExtProps(items, i);
      var value := c.uuid;
      if c.uuid == DB_HASH_UUID && |c.value| == 16 {
        value := HexBytes(c.value) + (":" + c.uuid);
      }
      WrittenOne(keyFile, ChrcEntry(c));
      Set(Hex16((c.valueHandle + 0xffff) % 0x1_0000),
          CHARAC + ":" + (Hex16(c.valueHandle) + (":" + (HexByte(c.properties) + (":" + value)))));
      hide ChrcEntry;
      if c.uuid == DB_HASH_UUID {
        assert ChrcPiece(items, i) == [ChrcEntry(c)];
        return;
      }
      WrittenStep(old(keyFile), [ChrcEntry(c)], DescEntries(items, i + 1, extProps), ChrcPiece(items, i));
      ForeachDesc(items, i + 1);
    }

    method StoreIncl(ss: seq<Service>, i: Item)
      requires i.Incl?
      modifies this`keyFile
      ensures keyFile == Written(old(keyFile), InclEntry(ss, i))
    {
      hide Written, Hex16, GetAttribute;
      var service := GetAttribute(ss, i.start);
      if service.None? {
        NothingWritten(keyFile, []);
        return;
      }
      WrittenOne(keyFile, InclLine(i.handle, i.start, i.end, ss[service.value].uuid));
      Set(Hex16(i.handle),
          INCLUDE + ":" + (Hex16(i.start) + (":" + (Hex16(i.end) + (":" + ss[service.value].uuid)))));
    }

    method ForeachIncl(ss: seq<Service>, items: seq<Item>)
      modifies this`keyFile
      ensures keyFile == Written(old(keyFile), InclEntries(ss, items, 0))
    {
      hide Written, InclEntry;
      for i := 0 to |items|
        invariant Written(keyFile, InclEntries(ss, items, i)) == Written(old(keyFile), InclEntries(ss, items, 0))
      {
        var piece: seq<Entry> := if items[i].Incl? then InclEntry(ss, items[i]) else [];
        WrittenStep(keyFile, piece, InclEntries(ss, items, i + 1), InclEntries(ss, items, i));
        if items[i].Incl? {
          StoreIncl(ss, items[i]);
        } else {
          NothingWritten(keyFile, piece);
        }
      }
      NothingWritten(keyFile, InclEntries(ss, items, |items|));
    }

    method ForeachChrc(items: seq<Item>)
      modifies this
      ensures keyFile == Written(old(keyFile), ChrcEntries(items, 0))
    {
      hide Written, ChrcPiece;
      for i := 0 to |items|
        invariant Written(keyFile, ChrcEntries(items, i)) == Written(old(keyFile), ChrcEntries(items, 0))
      {
        var piece: seq<Entry> := if items[i].Chrc? then ChrcPiece(items, i) else [];
        WrittenStep(keyFile, piece, ChrcEntries(items, i + 1), ChrcEntries(items, i));
        if items[i].Chrc? {
          StoreChrc(items, i);
        } else {
          NothingWritten(keyFile, piece);
        }
      }
      NothingWritten(keyFile, ChrcEntries(items, |items|));
    }

    method StoreService(ss: seq<Service>, s: Service)
      modifies this
      ensures keyFile == Written(old(keyFile), ServicePiece(ss, s))
    {
      var kind := if s.primary then PRIM_SVC else SND_SVC;
      WrittenOne(keyFile, ServiceEntry(s));
      Set(Hex16(s.start), kind + (":" + (Hex16(End(s) % 0x1_0000) + (":" + s.uuid))));
      WrittenStep(old(keyFile), [ServiceEntry(s)], Body(ss, s), ServicePiece(ss, s));
      WrittenStep(keyFile, InclEntries(ss, s.items, 0), ChrcEntries(s.items, 0), Body(ss, s));
      hide Written, InclEntries, ChrcEntries;
      ForeachIncl(ss, s.items);
      ForeachChrc(s.items);
    }

    /** store_gatt_db: the lines of every active service, in the order of the database. */
    method StoreDb(ss: seq<Service>)
      requires keyFile == []
      modifies this
      ensures keyFile == StoredFile(ss)
    {
      hide Written, ServicePiece;
      for i := 0 to |ss|
        invariant Written(keyFile, Entries(ss, i)) == StoredFile(ss)
      {
        var piece: seq<Entry> := if ss[i].active then ServicePiece(ss, ss[i]) else [];
        WrittenStep(keyFile, piece, Entries(ss, i + 1), Entries(ss, i));
        if ss[i].active {
          StoreService(ss, ss[i]);
        } else {
          NothingWritten(keyFile, piece);
        }
      }
      NothingWritten(keyFile, Entries(ss, |ss|));
    }
  }

  // ----- which attributes have a line -----

  /** The extended properties that apply to a descriptor at i; None if no characteristic stores it. */
  function Owner(items: seq<Item>, i: nat): Option<byte>
    requires i <= |items|
  {
    if i == 0 then None
    else
      match items[i - 1]
      case Incl(_, _, _) => None
      case Chrc(_, _, uuid, _) => if uuid == DB_HASH_UUID then None else Some(ExtProps(items, i - 1))
      case Desc(_, _, _) => Owner(items, i - 1)
  }

  /** Item by item: what of the characteristics and descriptors from i on is stored. */
  function StoredFrom(items: seq<Item>, i: nat): seq<Entry>
    requires i <= |items|
    decreases |items| - i
  {
    if i == |items| then []
    else StoredAt(items, i) + StoredFrom(items, i + 1)
  }

  function StoredAt(items: seq<Item>, i: nat): seq<Entry>
    requires i < |items|
  {
    match items[i]
    case Incl(_, _, _) => []
    case Chrc(_, _, _, _) => [ChrcEntry(items[i])]
    case Desc(_, _, _) => if Owner(items, i).Some? then [DescEntry(items[i], Owner(items, i).value)] else []
  }

  /** The descriptors at i that the characteristic in front of them stores. */
  function RunAt(items: seq<Item>, i: nat): seq<Entry>
    requires i <= |items|
  {
    if Owner(items, i).Some? then DescEntries(items, i, Owner(items, i).value) else []
  }

  lemma RunStep(items: seq<Item>, i: nat)
    requires i < |items|
    ensures !items[i].Desc? ==> RunAt(items, i) == []
    ensures items[i].Incl? ==> RunAt(items, i + 1) == []
    ensures items[i].Chrc? ==> ChrcPiece(items, i) == [ChrcEntry(items[i])] + RunAt(items, i + 1)
    ensures items[i].Desc? ==> RunAt(items, i) == StoredAt(items, i) + RunAt(items, i + 1)
  {
    hide ExtProps, ChrcEntry, DescEntry;
  }

  lemma Shift(a: seq<Entry>, b: seq<Entry>, c: seq<Entry>, d: seq<Entry>, rest: seq<Entry>)
    requires a + b == c + d
    ensures a + (b + rest) == c + (d + rest)
  {
    assert a + (b + rest) == (a + b) + rest && c + (d + rest) == (c + d) + rest;
  }

  /** What is stored for one item, and for the run behind it, in the two orders. */
  lemma SameStep(items: seq<Item>, i: nat)
    requires i < |items|
    ensures var piece: seq<Entry> := if items[i].Chrc? then ChrcPiece(items, i) else [];
            StoredAt(items, i) + RunAt(items, i + 1) == RunAt(items, i) + piece
  {
    RunStep(items, i);
    hide RunAt, ChrcPiece, ChrcEntry, DescEntry, Owner;
  }

  /** The nested loops over characteristics and their descriptors are one walk over the items. */
  lemma {:induction false} NestedIsOneWalk(items: seq<Item>, i: nat)
    requires i <= |items|
    ensures StoredFrom(items, i) == RunAt(items, i) + ChrcEntries(items, i)
    decreases |items| - i
  {
    hide StoredAt, ChrcPiece;
    if i < |items| {
      NestedIsOneWalk(items, i + 1);
      var piece: seq<Entry> := if items[i].Chrc? then ChrcPiece(items, i) else [];
      assert ChrcEntries(items, i) == piece + ChrcEntries(items, i + 1);
      SameStep(items, i);
      hide RunAt;
      Shift(StoredAt(items, i), RunAt(items, i + 1), RunAt(items, i), piece, ChrcEntries(items, i + 1));
    }
  }

  /** A descriptor that follows no characteristic. */
  predicate Orphan(items: seq<Item>, i: nat)
    requires i < |items|
  {
    items[i].Desc? && (i == 0 || items[i - 1].Incl?)
  }

  /** A descriptor of the database hash. */
  predicate HashDesc(items: seq<Item>, i: nat)
    requires i < |items|
  {
    items[i].Desc? && i > 0 && items[i - 1].Chrc? && items[i - 1].uuid == DB_HASH_UUID
  }

  lemma {:induction false} Owned(items: seq<Item>, i: nat)
    requires i < |items| && items[i].Desc? && Owner(items, i).None?
    ensures exists j :: 0 <= j < |items| && (Orphan(items, j) || HashDesc(items, j))
  {
    if !Orphan(items, i) && !HashDesc(items, i) {
      Owned(items, i - 1);
    }
  }

  /** Every descriptor has a line exactly if each follows a characteristic other than the database hash. */
  lemma AllStoredIff(items: seq<Item>)
    ensures (forall i :: 0 <= i < |items| && items[i].Desc? ==> Owner(items, i).Some?)
       <==> forall i :: 0 <= i < |items| ==> !Orphan(items, i) && !HashDesc(items, i)
  {
    if i :| 0 <= i < |items| && items[i].Desc? && Owner(items, i).None? {
      Owned(items, i);
    }
    if j :| 0 <= j < |items| && (Orphan(items, j) || HashDesc(items, j)) {
      assert Owner(items, j).None?;
    }
  }

  /** What is stored of a service is complete, a line for every item, exactly if no descriptor is an
      orphan or belongs to the database hash. */
  lemma CompleteIff(ss: seq<Service>, s: Service)
    requires forall i :: 0 <= i < |s.items| && s.items[i].Incl? ==> GetAttribute(ss, s.items[i].start).Some?
    ensures |Body(ss, s)| == |s.items|
       <==> forall i :: 0 <= i < |s.items| ==> !Orphan(s.items, i) && !HashDesc(s.items, i)
  {
    hide GetAttribute;
    NestedIsOneWalk(s.items, 0);
    assert ChrcEntries(s.items, 0) == StoredFrom(s.items, 0);
    CountStored(ss, s.items, 0);
    AllStoredIff(s.items);
  }

  lemma CountStep(ss: seq<Service>, items: seq<Item>, i: nat)
    requires i < |items| && (items[i].Incl? ==> GetAttribute(ss, items[i].start).Some?)
    ensures |InclEntries(ss, items, i)| == |InclEntries(ss, items, i + 1)| + if items[i].Incl? then 1 else 0
    ensures |StoredFrom(items, i)| == |StoredFrom(items, i + 1)|
              + if items[i].Chrc? || (items[i].Desc? && Owner(items, i).Some?) then 1 else 0
  {
    hide GetAttribute, Owner, ChrcEntry, DescEntry;
  }

  lemma {:induction false} CountStored(ss: seq<Service>, items: seq<Item>, i: nat)
    requires i <= |items|
    requires forall j :: i <= j < |items| && items[j].Incl? ==> GetAttribute(ss, items[j].start).Some?
    ensures |InclEntries(ss, items, i)| + |StoredFrom(items, i)| <= |items| - i
    ensures |InclEntries(ss, items, i)| + |StoredFrom(items, i)| == |items| - i
       <==> forall j :: i <= j < |items| && items[j].Desc? ==> Owner(items, j).Some?
    decreases |items| - i
  {
    hide *;
    if i < |items| {
      CountStep(ss, items, i);
      CountStored(ss, items, i + 1);
    } else {
      CountNone(ss, items);
    }
  }

  lemma CountNone(ss: seq<Service>, items: seq<Item>)
    ensures InclEntries(ss, items, |items|) == [] && StoredFrom(items, |items|) == []
  {
  }
}
