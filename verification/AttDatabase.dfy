/** The ATT attribute database: a list kept in strictly ascending handle order. */
module AttDatabase {
  import opened Bytes

  // ----- UUIDs -----

  const BASE_UUID: nat := 0x0000_0000_0000_1000_8000_00805F9B34FB
  const TWO96: nat := 0x1_0000_0000_0000_0000_0000_0000

  datatype Uuid = Uuid16(v16: u16) | Uuid32(v32: u32) | Uuid128(v128: nat)

  function To128(u: Uuid): nat {
    match u
    case Uuid16(v) => v * TWO96 + BASE_UUID
    case Uuid32(v) => v * TWO96 + BASE_UUID
    case Uuid128(v) => v
  }

  /** bt_uuid_cmp yields 0: the widths may differ. */
  predicate Same(u: Uuid, v: Uuid) {
    To128(u) == To128(v)
  }

  const PRIM_UUID := Uuid16(0x2800)
  const SND_UUID := Uuid16(0x2801)

  predicate IsService(u: Uuid) {
    Same(u, PRIM_UUID) || Same(u, SND_UUID)
  }

  // ----- the list -----

  datatype Attribute = Attribute(handle: u16, uuid: Uuid, readReq: int, writeReq: int, data: seq<byte>)

  ghost predicate Sorted(db: seq<Attribute>) {
    forall i, j :: 0 <= i < j < |db| ==> db[i].handle < db[j].handle
  }

  ghost predicate Used(db: seq<Attribute>, h: int) {
    exists i :: 0 <= i < |db| && db[i].handle == h
  }

  /** A strictly ascending list is determined by its elements. */
  lemma {:induction false} SortedIsCanonical(xs: seq<Attribute>, ys: seq<Attribute>)
    requires Sorted(xs) && Sorted(ys) && forall a :: a in xs <==> a in ys
    ensures xs == ys
  {
    assert xs != [] ==> xs[0] in ys;
    assert ys != [] ==> ys[0] in xs;
    if xs != [] {
      var x, y := xs[|xs| - 1], ys[|ys| - 1];
      assert x in ys && y in xs;
      assert x == y;
      var xs', ys' := xs[..|xs| - 1], ys[..|ys| - 1];
      forall a
        ensures a in xs' <==> a in ys'
      {
        if a in xs' {
          assert a in xs && a.handle < x.handle;
        }
        if a in ys' {
          assert a in ys && a.handle < y.handle;
        }
      }
      SortedIsCanonical(xs', ys');
    }
  }

  lemma InsertSorted(db: seq<Attribute>, i: nat, a: Attribute)
    requires Sorted(db) && i <= |db| && !Used(db, a.handle)
    requires forall k :: 0 <= k < i ==> db[k].handle < a.handle
    requires i < |db| ==> a.handle <= db[i].handle
    ensures Sorted(db[..i] + [a] + db[i..])
    ensures forall x :: x in db[..i] + [a] + db[i..] <==> x in db || x == a
  {
    assert forall k :: i < k < |db| ==> db[i].handle < db[k].handle;
    assert db == db[..i] + db[i..];
  }

  class GattServer {
    var database: seq<Attribute>

    constructor ()
      ensures database == []
    {
      database := [];
    }

    /** g_list_find_custom with handle_cmp. */
    method Find(handle: u16) returns (pos: nat)
      ensures pos <= |database|
      ensures pos < |database| ==> database[pos].handle == handle
      ensures pos == |database| ==> !Used(database, handle)
    {
      pos := 0;
      while pos < |database| && database[pos].handle != handle
        invariant pos <= |database|
        invariant forall i :: 0 <= i < pos ==> database[i].handle != handle
      {
        pos := pos + 1;
      }
    }

    /** attrib_db_add_new: refuses a used handle, otherwise the list gains exactly the new attribute. */
    method AddNew(handle: u16, uuid: Uuid, readReq: int, writeReq: int, value: seq<byte>)
      returns (added: Option<Attribute>)
      requires Sorted(database)
      modifies this
      ensures Sorted(database)
      ensures added.None? <==> old(Used(database, handle))
      ensures added.None? ==> database == old(database)
      ensures added.Some? ==> added.value == Attribute(handle, uuid, readReq, writeReq, value)
      ensures added.Some? ==> forall a :: a in database <==> a in old(database) || a == added.value
    {
      var pos := Find(handle);
      if pos < |database| {
        return None;
      }
      var a := Attribute(handle, uuid, readReq, writeReq, value);
      // g_list_insert_sorted with attribute_cmp
      var i := 0;
      while i < |database| && database[i].handle - handle < 0
        invariant i <= |database|
        invariant forall k :: 0 <= k < i ==> database[k].handle < handle
      {
        i := i + 1;
      }
      InsertSorted(database, i, a);
      database := database[..i] + [a] + database[i..];
      added := Some(a);
    }

    /** attrib_db_del: false stands for -ENOENT. */
    method Del(handle: u16) returns (found: bool)
      requires Sorted(database)
      modifies this
      ensures Sorted(database)
      ensures found <==> old(Used(database, handle))
      ensures forall a :: a in database <==> a in old(database) && a.handle != handle
    {
      var pos := Find(handle);
      if pos == |database| {
        assert forall a :: a in database ==> a.handle != handle;
        return false;
      }
      ghost var before := database;
      database := database[..pos] + database[pos + 1..];
      assert before == before[..pos] + [before[pos]] + before[pos + 1..];
      found := true;
    }

    /** attrib_db_update: value and, when given, type of one attribute change in place. */
    method Update(handle: u16, uuid: Option<Uuid>, value: seq<byte>) returns (found: bool)
      requires Sorted(database)
      modifies this
      ensures Sorted(database) && |database| == |old(database)|
      ensures found <==> old(Used(database, handle))
      ensures forall i :: 0 <= i < |database| ==>
        database[i] == if old(database)[i].handle != handle then old(database)[i]
                       else old(database)[i].(data := value,
                              uuid := if uuid.Some? then uuid.value else old(database)[i].uuid)
    {
      var pos := Find(handle);
      if pos == |database| {
        return false;
      }
      var a := database[pos].(data := value);
      if uuid.Some? {
        a := a.(uuid := uuid.value);
      }
      database := database[pos := a];
      found := true;
    }
  }
}
