/** Advertising instances: the identifiers in the bitmap are those of the live clients. */
module Advertising {
  import opened Bytes
  import opened Sequences

  // ----- the bitmap -----

  const WIDTH: nat := 32

  /** The bit for an identifier, counted from 1. */
  function Mask(id: nat): bv32
    requires 0 < id <= WIDTH
  {
    if id == 1 then 1 else Mask(id - 1) << 1
  }

  function And(a: bv32, b: bv32): bv32 {
    a & b
  }

  function Or(a: bv32, b: bv32): bv32 {
    a | b
  }

  function AndNot(a: bv32, b: bv32): bv32 {
    a & !b
  }

  predicate Has(bits: bv32, id: nat)
    requires 0 < id <= WIDTH
  {
    And(bits, Mask(id)) != 0
  }

  lemma {:induction false} MaskIsSet(id: nat)
    requires 0 < id <= WIDTH
    ensures Mask(id) != 0
    decreases WIDTH - id
  {
    if id < WIDTH {
      MaskIsSet(id + 1);
    } else {
      assert Mask(8) == 0x80;
      assert Mask(16) == 0x8000;
      assert Mask(24) == 0x80_0000;
      assert Mask(32) == 0x8000_0000;
    }
  }

  lemma {:induction false} MasksDiffer(i: nat, j: nat)
    requires 0 < i < j <= WIDTH
    ensures And(Mask(i), Mask(j)) == 0
  {
    MaskStep(j);
    if i > 1 {
      MaskStep(i);
      MasksDiffer(i - 1, j - 1);
      hide Mask, And;
      ShiftedApart(Mask(i - 1), Mask(j - 1));
    } else {
      assert Mask(1) == 1;
      hide Mask, And;
      ShiftedEven(Mask(j - 1));
    }
  }

  lemma MaskStep(id: nat)
    requires 1 < id <= WIDTH
    ensures Mask(id) == Mask(id - 1) << 1
  {
  }

  lemma ShiftedApart(a: bv32, b: bv32)
    requires And(a, b) == 0
    ensures And(a << 1, b << 1) == 0
  {
  }

  lemma ShiftedEven(a: bv32)
    ensures And(1, a << 1) == 0
  {
  }

  lemma Apart(i: nat, j: nat)
    requires 0 < i <= WIDTH && 0 < j <= WIDTH && i != j
    ensures And(Mask(i), Mask(j)) == 0
  {
    if i < j { MasksDiffer(i, j); } else { MasksDiffer(j, i); }
  }

  lemma SetOther(bits: bv32, m: bv32, n: bv32)
    requires m & n == 0
    ensures (bits | m) & n == bits & n
  {
  }

  lemma ClearOther(bits: bv32, m: bv32, n: bv32)
    requires m & n == 0
    ensures (bits & !m) & n == bits & n
  {
  }

  lemma OtherBit(bits: bv32, m: bv32, n: bv32)
    requires And(m, n) == 0
    ensures And(Or(bits, m), n) == And(bits, n)
    ensures And(AndNot(bits, m), n) == And(bits, n)
  {
    SetOther(bits, m, n);
    ClearOther(bits, m, n);
  }

  lemma OwnBit(bits: bv32, m: bv32)
    ensures And(Or(bits, m), m) == m && And(AndNot(bits, m), m) == 0
  {
  }

  function With(bits: bv32, id: nat): bv32
    requires 0 < id <= WIDTH
  {
    Or(bits, Mask(id))
  }

  function Minus(bits: bv32, id: nat): bv32
    requires 0 < id <= WIDTH
  {
    AndNot(bits, Mask(id))
  }

  /** Setting the bit of an identifier, or clearing it, is all that changes. */
  lemma SetAndClear(bits: bv32, id: nat, j: nat)
    requires 0 < id <= WIDTH && 0 < j <= WIDTH
    ensures Has(With(bits, id), j) <==> j == id || Has(bits, j)
    ensures Has(Minus(bits, id), j) <==> j != id && Has(bits, j)
  {
    hide Mask, And, Or, AndNot;
    if j == id {
      MaskIsSet(id);
      OwnBit(bits, Mask(id));
    } else {
      Apart(id, j);
      OtherBit(bits, Mask(id), Mask(j));
    }
  }

  /** ffs of the complement: the least identifier at or behind from whose bit is clear, or 0. */
  function FirstFree(bits: bv32, from: nat): (id: nat)
    requires 0 < from <= WIDTH + 1
    ensures id == 0 ==> forall j :: from <= j <= WIDTH ==> Has(bits, j)
    ensures id != 0 ==> from <= id <= WIDTH && !Has(bits, id) && forall j :: from <= j < id ==> Has(bits, j)
    decreases WIDTH + 1 - from
  {
    if from > WIDTH then 0 else if !Has(bits, from) then from else FirstFree(bits, from + 1)
  }

  /** What util_get_uid answers, in terms of the bitmap it found. */
  ghost predicate LeastClear(bits: bv32, max: nat, id: nat) {
    if id == 0 then forall j :: 0 < j <= max && j <= WIDTH ==> Has(bits, j)
    else id <= max && id <= WIDTH && !Has(bits, id) && forall j :: 0 < j < id ==> Has(bits, j)
  }

  class UidMap {
    var bits: bv32

    constructor ()
      ensures forall id :: 0 < id <= WIDTH ==> !Has(bits, id)
    {
      bits := 0;
    }

    /** util_get_uid: the least free identifier up to max, or 0 if there is none. */
    method Get(max: byte) returns (id: byte)
      modifies this
      ensures LeastClear(old(bits), max, id)
      ensures id == 0 ==> bits == old(bits)
      ensures id != 0 ==> forall j :: 0 < j <= WIDTH ==> (Has(bits, j) <==> j == id || Has(old(bits), j))
    {
      hide Has, With;
      var first := FirstFree(bits, 1);
      if first == 0 || first > max {
        return 0;
      }
      id := first;
      forall j | 0 < j <= WIDTH
        ensures Has(With(bits, id), j) <==> j == id || Has(bits, j)
      {
        SetAndClear(bits, id, j);
      }
      bits := With(bits, id);
    }

    /** util_clear_uid */
    method Clear(id: byte)
      requires id <= WIDTH
      modifies this
      ensures forall j :: 0 < j <= WIDTH ==> (Has(bits, j) <==> j != id && Has(old(bits), j))
    {
      hide Has, Minus;
      if id == 0 {
        return;
      }
      forall j | 0 < j <= WIDTH
        ensures Has(Minus(bits, id), j) <==> j != id && Has(bits, j)
      {
        SetAndClear(bits, id, j);
      }
      bits := Minus(bits, id);
    }
  }

  // ----- live clients -----

  datatype Client = Client(owner: string, path: string, instance: byte)

  function Ids(cs: seq<Client>): (r: seq<nat>)
    ensures |r| == |cs|
  {
    if cs == [] then [] else [cs[0].instance] + Ids(cs[1..])
  }

  /** Identifier by identifier: it is taken exactly if one live client holds it, and none is out of range. */
  ghost predicate Accounted(bits: bv32, live: multiset<nat>, max: nat) {
    && (forall id :: id in live ==> 0 < id <= max && id <= WIDTH)
    && (forall id :: 0 < id <= WIDTH ==> live[id] == if Has(bits, id) then 1 else 0)
  }

  /** Numbers from 1 to m, each at most once, are at most m; and m exactly if none is missing. */
  lemma {:induction false} HowMany(live: multiset<nat>, m: nat)
    requires forall id :: id in live ==> 0 < id <= m && live[id] == 1
    ensures |live| <= m
    ensures |live| == m <==> forall id :: 0 < id <= m ==> id in live
  {
    if m == 0 {
      assert live == multiset{};
    } else if m in live {
      var rest := live - multiset{m};
      assert live == rest + multiset{m};
      HowMany(rest, m - 1);
      assert forall id :: 0 < id <= m - 1 ==> (id in rest <==> id in live);
    } else {
      HowMany(live, m - 1);
    }
  }

  /** Out of maxAds instances, as many are taken as clients live. */
  lemma AccountedSize(bits: bv32, live: multiset<nat>, max: nat)
    requires Accounted(bits, live, max)
    ensures var limit := if max < WIDTH then max else WIDTH;
            |live| <= limit && (|live| == limit <==> forall id :: 0 < id <= limit ==> Has(bits, id))
  {
    hide Has;
    HowMany(live, if max < WIDTH then max else WIDTH);
  }

  /** The kernel must answer with the instance it was asked for: any other one breaks the account. */
  lemma EchoIsNeeded(bits: bv32, live: multiset<nat>, max: nat, id: nat, answer: nat)
    requires Accounted(bits, live, max) && id in live
    ensures Accounted(bits, live - multiset{id} + multiset{answer}, max) <==> answer == id
  {
    hide Has;
    if answer == id {
      assert live - multiset{id} + multiset{answer} == live;
    } else {
      assert (live - multiset{id} + multiset{answer})[id] == 0;
    }
  }

  lemma IdsGrow(cs: seq<Client>, c: Client)
    ensures Ids(cs + [c]) == Ids(cs) + [c.instance]
  {
    if cs != [] {
      assert (cs + [c])[1..] == cs[1..] + [c];
      IdsGrow(cs[1..], c);
    }
  }

  lemma IdsCons(c: Client, rest: seq<Client>)
    ensures Ids([c] + rest) == [c.instance] + Ids(rest)
    ensures multiset(Ids([c] + rest)) == multiset{c.instance} + multiset(Ids(rest))
  {
    assert ([c] + rest)[1..] == rest;
  }

  lemma {:induction false} IdsWithout(cs: seq<Client>, i: nat)
    requires i < |cs|
    ensures multiset(Ids(cs)) == multiset(Ids(Without(cs, i))) + multiset{cs[i].instance}
  {
    hide Ids, Without;
    var rest := cs[1..];
    assert cs == [cs[0]] + rest;
    IdsCons(cs[0], rest);
    WithoutFirst(cs, i);
    if i > 0 {
      IdsWithout(rest, i - 1);
      IdsCons(cs[0], Without(rest, i - 1));
    }
  }

  /** The instances of the clients that are queued, or await being freed. */
  ghost function Live(clients: seq<Client>, leaving: seq<Client>): multiset<nat> {
    multiset(Ids(clients)) + multiset(Ids(leaving))
  }

  lemma LiveSize(clients: seq<Client>, leaving: seq<Client>)
    ensures |Live(clients, leaving)| == |clients| + |leaving|
  {
  }

  lemma AccountMore(bits: bv32, bits': bv32, live: multiset<nat>, id: nat, max: nat)
    requires Accounted(bits, live, max) && 0 < id <= max && id <= WIDTH && !Has(bits, id)
    requires forall j :: 0 < j <= WIDTH ==> (Has(bits', j) <==> j == id || Has(bits, j))
    ensures Accounted(bits', live + multiset{id}, max)
  {
    hide Has;
  }

  lemma AccountLess(bits: bv32, bits': bv32, live: multiset<nat>, id: nat, max: nat)
    requires Accounted(bits, live, max) && id in live
    requires forall j :: 0 < j <= WIDTH ==> (Has(bits', j) <==> j != id && Has(bits, j))
    ensures Accounted(bits', live - multiset{id}, max)
  {
    hide Has;
    assert forall j :: j in live - multiset{id} ==> j in live;
  }

  ghost predicate LeastFree(live: multiset<nat>, id: nat) {
    id !in live && forall j :: 0 < j < id ==> j in live
  }

  /** The least clear bit is the least instance that no live client holds; there is none exactly if
      as many clients live as there are instances. */
  lemma LeastClearIsFree(bits: bv32, live: multiset<nat>, max: nat, id: nat)
    requires Accounted(bits, live, max) && LeastClear(bits, max, id)
    ensures id == 0 <==> |live| == if max < WIDTH then max else WIDTH
    ensures id != 0 ==> LeastFree(live, id)
  {
    AccountedSize(bits, live, max);
    hide Has;
    assert id != 0 ==> forall j :: 0 < j < id ==> live[j] == 1;
  }

  lemma LiveMore(clients: seq<Client>, leaving: seq<Client>, c: Client)
    ensures Live(clients + [c], leaving) == Live(clients, leaving) + multiset{c.instance}
  {
    IdsGrow(clients, c);
  }

  lemma LiveLess(clients: seq<Client>, leaving: seq<Client>)
    requires leaving != []
    ensures leaving[0].instance in Live(clients, leaving)
    ensures Live(clients, leaving[1..]) == Live(clients, leaving) - multiset{leaving[0].instance}
  {
    assert Ids(leaving) == [leaving[0].instance] + Ids(leaving[1..]);
  }

  /** A client leaves the queue to be freed later: it stays live. */
  lemma LeaveKeeps(clients: seq<Client>, leaving: seq<Client>, i: nat)
    requires i < |clients|
    ensures Live(Without(clients, i), leaving + [clients[i]]) == Live(clients, leaving)
  {
    IdsWithout(clients, i);
    IdsGrow(leaving, clients[i]);
  }

  // ----- the manager -----

  datatype Outcome = Registered | AlreadyExists | InvalidPath | NoInstance

  class Manager {
    var clients: seq<Client>
    var leaving: seq<Client>
    const instances: UidMap
    var maxAds: byte

    ghost predicate Valid()
      reads this, instances
    {
      Accounted(instances.bits, Live(clients, leaving), maxAds)
    }

    constructor ()
      ensures Valid() && fresh(instances) && maxAds == 0 && clients == [] && leaving == []
    {
      instances := new UidMap();
      clients, leaving, maxAds := [], [], 0;
    }

    /** The controller tells how many instances it supports. */
    method ReadFeatures(max: byte)
      requires Valid() && maxAds == 0
      modifies this`maxAds
      ensures Valid() && maxAds == max && clients == [] && leaving == []
    {
      AccountedSize(instances.bits, Live(clients, leaving), 0);
      LiveSize(clients, leaving);
      maxAds := max;
    }

    /** queue_find with match_client. */
    method Find(owner: string, path: string) returns (i: nat)
      ensures i <= |clients| && (i < |clients| ==> Is(clients[i], owner, path))
      ensures i == |clients| <==> forall j :: 0 <= j < |clients| ==> !Is(clients[j], owner, path)
    {
      i := 0;
      while i < |clients| && !Is(clients[i], owner, path)
        invariant i <= |clients| && forall j :: 0 <= j < i ==> !Is(clients[j], owner, path)
      {
        i := i + 1;
      }
    }

    /** A new advertisement gets the least free instance. It is refused for lack of one exactly if as
        many are live as the controller supports or the bitmap can hold. */
    method Register(owner: string, path: string) returns (r: Outcome)
      requires Valid()
      modifies this`clients, instances
      ensures Valid() && leaving == old(leaving) && maxAds == old(maxAds)
      ensures r == AlreadyExists <==> exists j :: 0 <= j < |old(clients)| && Is(old(clients)[j], owner, path)
      ensures r != AlreadyExists ==> (r == InvalidPath <==> path == "" || path[0] != '/')
      ensures r == Registered || r == NoInstance ==>
        (r == NoInstance <==> old(|clients| + |leaving|) == if maxAds < WIDTH then maxAds else WIDTH)
      ensures r != Registered ==> clients == old(clients)
      ensures r == Registered ==>
        exists id: byte ::
          clients == old(clients) + [Client(owner, path, id)] && LeastFree(Live(old(clients), leaving), id)
    {
      hide Has, Live, Accounted, LeastFree, Is;
      var i := Find(owner, path);
      if i < |clients| {
        return AlreadyExists;
      }
      if path == "" || path[0] != '/' {
        return InvalidPath;
      }
      LiveSize(clients, leaving);
      var taken := Enqueue(owner, path);
      r := if taken then Registered else NoInstance;
    }

    /** The client is queued under the least free instance, if there is one. */
    method Enqueue(owner: string, path: string) returns (taken: bool)
      requires Valid()
      modifies this`clients, instances
      ensures Valid()
      ensures !taken <==> |Live(old(clients), leaving)| == if maxAds < WIDTH then maxAds else WIDTH
      ensures !taken ==> clients == old(clients)
      ensures taken ==>
        exists id: byte ::
          clients == old(clients) + [Client(owner, path, id)] && LeastFree(Live(old(clients), leaving), id)
    {
      hide Has, Live, Accounted, LeastFree;
      var id := instances.Get(maxAds);
      LeastClearIsFree(old(instances.bits), Live(clients, leaving), maxAds, id);
      if id == 0 {
        return false;
      }
      AccountMore(old(instances.bits), instances.bits, Live(clients, leaving), id, maxAds);
      LiveMore(clients, leaving, Client(owner, path, id));
      clients := clients + [Client(owner, path, id)];
      taken := true;
    }

    /** client_remove, and the failing ends of a registration: the client is freed when idle. */
    method Remove(i: nat)
      requires Valid() && i < |clients|
      modifies this`clients, this`leaving
      ensures Valid()
      ensures clients == Without(old(clients), i) && leaving == old(leaving) + [old(clients)[i]]
    {
      LeaveKeeps(clients, leaving, i);
      hide Live, Accounted, Without;
      leaving := leaving + [clients[i]];
      clients := Without(clients, i);
    }

    method Unregister(owner: string, path: string) returns (found: bool)
      requires Valid()
      modifies this`clients, this`leaving
      ensures Valid()
      ensures found <==> exists j :: 0 <= j < |old(clients)| && Is(old(clients)[j], owner, path)
      ensures !found ==> clients == old(clients) && leaving == old(leaving)
      ensures found ==>
        exists j :: 0 <= j < |old(clients)| && Is(old(clients)[j], owner, path)
          && clients == Without(old(clients), j) && leaving == old(leaving) + [old(clients)[j]]
    {
      var i := Find(owner, path);
      if i == |clients| {
        return false;
      }
      Remove(i);
      found := true;
    }

    /** add_adv_callback: the kernel accepted the advertisement under this instance, or failed. */
    method AddComplete(i: nat, success: bool, instance: byte)
      requires Valid() && i < |clients| && instance == clients[i].instance
      modifies this`clients, this`leaving
      ensures Valid()
      ensures success ==> clients == old(clients) && leaving == old(leaving)
      ensures !success ==> clients == Without(old(clients), i) && leaving == old(leaving) + [old(clients)[i]]
    {
      if !success {
        Remove(i);
        return;
      }
      clients := clients[i := clients[i].(instance := instance)];
      assert clients == old(clients);
    }

    /** client_free_idle_cb: the instance of the client is free again. */
    method FreeIdle()
      requires Valid() && leaving != []
      modifies this`leaving, instances
      ensures Valid() && leaving == old(leaving)[1..]
    {
      hide Has, Live, Ids;
      var id := leaving[0].instance;
      LiveLess(clients, leaving);
      instances.Clear(id);
      hide Accounted;
      AccountLess(old(instances.bits), instances.bits, Live(clients, leaving), id, maxAds);
      leaving := leaving[1..];
    }

    /** get_instances: the byte that is reported is the true difference. */
    method SupportedInstances() returns (n: byte)
      requires Valid()
      ensures n == maxAds - |clients|
    {
      AccountedSize(instances.bits, Live(clients, leaving), maxAds);
      LiveSize(clients, leaving);
      hide Live, Accounted, Has;
      n := (maxAds - |clients|) % 0x100;
    }

    /** Over every run, the bitmap stays the account of the live clients. */
    method Run(events: seq<Event>)
      requires Valid()
      modifies this, instances
      ensures Valid()
    {
      for k := 0 to |events|
        invariant Valid()
      {
        hide Accounted, Live;
        match events[k]
        case Registration(owner, path) => var _ := Register(owner, path);
        case Unregistration(owner, path) => var _ := Unregister(owner, path);
        case Gone(owner, path) =>
          var i := Find(owner, path);
          if i < |clients| {
            Remove(i);
          }
        case Added(owner, path, success) =>
          var i := Find(owner, path);
          if i < |clients| {
            AddComplete(i, success, clients[i].instance);
          }
        case Idle =>
          if leaving != [] {
            FreeIdle();
          }
      }
    }
  }

  /** Gone stands for a timeout, a disconnection, or a failure to publish. */
  datatype Event =
    | Registration(owner: string, path: string)
    | Unregistration(owner: string, path: string)
    | Gone(owner: string, path: string)
    | Added(owner: string, path: string, success: bool)
    | Idle

  predicate Is(c: Client, owner: string, path: string) {
    c.owner == owner && c.path == path
  }
}
