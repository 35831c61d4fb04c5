/** The adapter's discovering clients and those that only left a filter: how the asynchronous steps
    of discovery keep both lists, the restart timer and the filter for the kernel in order. */
module DiscoveryClients {
  import opened Bytes
  import opened DiscoveryFilter

  /** A client; msg says that a reply is owed to it, watch that its disconnection is noticed. */
  datatype WatchClient = WatchClient(owner: string, filter: Wish, msg: bool, watch: bool)

  datatype Reply = Done | Later | NotReady | NotSupported | InvalidArgs | Busy | Failed

  /** Commands for the kernel. The completion of a Stop may be one of the client's. */
  datatype Command =
    | StartRegular(types: set<Bearer>)
    | StartFiltered(filter: KernelFilter)
    | Stop(client: Option<string>)

  // ----- lists of clients -----

  ghost predicate Holds(l: seq<WatchClient>, owner: string) {
    exists i :: 0 <= i < |l| && l[i].owner == owner
  }

  /** The client of this owner waits for a reply. */
  ghost predicate Owed(l: seq<WatchClient>, owner: string) {
    exists i :: 0 <= i < |l| && l[i].owner == owner && l[i].msg
  }

  /** The disconnection of this owner is noticed. */
  ghost predicate Watched(l: seq<WatchClient>, owner: string) {
    exists i :: 0 <= i < |l| && l[i].owner == owner && l[i].watch
  }

  ghost predicate Distinct(l: seq<WatchClient>) {
    forall i, j :: 0 <= i < j < |l| ==> l[i].owner != l[j].owner
  }

  ghost predicate Disjoint(l: seq<WatchClient>, m: seq<WatchClient>) {
    forall i, j :: 0 <= i < |l| && 0 <= j < |m| ==> l[i].owner != m[j].owner
  }

  /** g_slist_remove of the client with this owner. */
  function WithoutOwner(l: seq<WatchClient>, owner: string): (r: seq<WatchClient>)
    ensures forall c :: c in r ==> c in l
  {
    if l == [] then [] else if l[0].owner == owner then l[1..] else [l[0]] + WithoutOwner(l[1..], owner)
  }

  lemma {:induction false} WithoutRemoves(l: seq<WatchClient>, owner: string)
    requires Distinct(l)
    ensures Distinct(WithoutOwner(l, owner)) && !Holds(WithoutOwner(l, owner), owner)
    ensures forall c :: c in WithoutOwner(l, owner) <==> c in l && c.owner != owner
    ensures |WithoutOwner(l, owner)| >= |l| - 1
  {
    if l != [] && l[0].owner != owner {
      var rest := WithoutOwner(l[1..], owner);
      assert forall i :: 0 <= i < |l[1..]| ==> l[1..][i] == l[i + 1];
      WithoutRemoves(l[1..], owner);
      ConsDistinct(l[0], l[1..], rest);
      assert l == [l[0]] + l[1..];
    }
  }

  lemma ConsDistinct(c: WatchClient, l: seq<WatchClient>, m: seq<WatchClient>)
    requires Distinct(m) && (forall d :: d in m ==> d in l) && forall i :: 0 <= i < |l| ==> l[i].owner != c.owner
    ensures Distinct([c] + m)
  {
    assert forall j :: 0 <= j < |m| ==> m[j] in l;
  }

  lemma SubListsDisjoint(l: seq<WatchClient>, m: seq<WatchClient>, l': seq<WatchClient>, m': seq<WatchClient>)
    requires Disjoint(l, m) && (forall c :: c in l' ==> c in l) && (forall c :: c in m' ==> c in m)
    ensures Disjoint(l', m')
  {
    assert forall i :: 0 <= i < |l'| ==> l'[i] in l;
    assert forall i :: 0 <= i < |m'| ==> m'[i] in m;
  }

  function Wishes(l: seq<WatchClient>): (r: seq<Wish>)
    ensures forall w :: w in r <==> exists i :: 0 <= i < |l| && l[i].filter == w
  {
    if l == [] then []
    else
      assert l == [l[0]] + l[1..];
      [l[0].filter] + Wishes(l[1..])
  }

  method FindOwner(l: seq<WatchClient>, owner: string) returns (i: nat)
    ensures i <= |l| && (i < |l| ==> l[i].owner == owner)
    ensures i == |l| <==> !Holds(l, owner)
  {
    i := 0;
    while i < |l| && l[i].owner != owner
      invariant i <= |l| && forall j :: 0 <= j < i ==> l[j].owner != owner
    {
      i := i + 1;
    }
  }

  // ----- what every step keeps -----

  /** Every owner has at most one client, everyone who is only preset has a filter, and the restart
      timer runs only for someone. */
  ghost predicate Bookkeeping(discovering: seq<WatchClient>, preset: seq<WatchClient>, timer: bool) {
    && Distinct(discovering) && Distinct(preset) && Disjoint(discovering, preset)
    && (forall i :: 0 <= i < |preset| ==> preset[i].filter.Some?)
    && (timer ==> discovering != [])
  }

  ghost predicate Accepting(l: seq<WatchClient>) {
    forall i :: 0 <= i < |l| && l[i].filter.Some? ==> Accepted(l[i].filter.value)
  }

  /** Discovery with this filter reports every device that the wish is about. */
  ghost predicate Covers(k: Option<KernelFilter>, scan: set<Bearer>, w: Wish) {
    forall d: Device :: Wanted(w, d) && d.bearer in scan ==> k.None? || KernelPasses(k.value, d)
  }

  ghost predicate CoversAll(k: Option<KernelFilter>, scan: set<Bearer>, l: seq<WatchClient>) {
    forall i :: 0 <= i < |l| ==> Covers(k, scan, l[i].filter)
  }

  lemma MergedCovers(l: seq<WatchClient>, scan: set<Bearer>, k: Option<KernelFilter>)
    requires Accepting(l) && Merged(Wishes(l), scan, k)
    ensures CoversAll(k, scan, l)
  {
    forall i, d: Device | 0 <= i < |l| && Wanted(l[i].filter, d) && d.bearer in scan
      ensures k.None? || KernelPasses(k.value, d)
    {
      NoWantedDeviceIsLost(Wishes(l), scan, k, l[i].filter, d);
    }
  }

  /** A client leaves both lists. */
  lemma RemovalKeeps(l: seq<WatchClient>, m: seq<WatchClient>, timer: bool, owner: string)
    requires Bookkeeping(l, m, timer)
    ensures var l' := WithoutOwner(l, owner);
            && Bookkeeping(l', WithoutOwner(m, owner), timer && l' != [])
            && !Holds(l', owner) && !Holds(WithoutOwner(m, owner), owner)
    ensures |WithoutOwner(l, owner)| >= |l| - 1
  {
    WithoutRemoves(l, owner);
    WithoutRemoves(m, owner);
    SubListsDisjoint(l, m, WithoutOwner(l, owner), WithoutOwner(m, owner));
    hide Distinct, Disjoint;
    assert forall i :: 0 <= i < |WithoutOwner(m, owner)| ==> WithoutOwner(m, owner)[i] in m;
  }

  /** A client that is in neither list becomes a preset one. */
  lemma PresetKeeps(l: seq<WatchClient>, m: seq<WatchClient>, timer: bool, c: WatchClient)
    requires Bookkeeping(l, m, timer) && !Holds(l, c.owner) && !Holds(m, c.owner) && c.filter.Some?
    ensures Bookkeeping(l, [c] + m, timer)
  {
    assert forall i :: 0 <= i < |l| ==> l[i].owner != c.owner;
    ConsDistinct(c, m, m);
  }

  /** A client that is in neither list starts to discover. */
  lemma StartKeeps(l: seq<WatchClient>, m: seq<WatchClient>, timer: bool, c: WatchClient)
    requires Bookkeeping(l, m, timer) && !Holds(l, c.owner) && !Holds(m, c.owner)
    ensures Bookkeeping([c] + l, m, timer)
  {
    assert forall i :: 0 <= i < |m| ==> m[i].owner != c.owner;
    ConsDistinct(c, l, l);
  }

  /** Who starts: the preset client with its filter, or a new one without. */
  ghost predicate IsStarter(m: seq<WatchClient>, owner: string, c: WatchClient) {
    if Holds(m, owner) then c in m && c.owner == owner && !c.msg else c == WatchClient(owner, None, false, true)
  }

  class Adapter {
    const scan: set<Bearer>
    const filtersSupported: bool
    var powered: bool
    var discoveryList: seq<WatchClient>
    var setFilterList: seq<WatchClient>
    var currentFilter: Option<KernelFilter>
    var idleTimeout: bool
    var discoveryEnable: bool
    var discovering: bool
    var suspended: bool
    var filteredDiscovery: bool
    var discoveryType: set<Bearer>
    var sent: seq<Command>
    /** How many commands that start discovery the kernel still has to answer. */
    ghost var starting: nat

    ghost predicate Valid()
      reads this
    {
      && Bookkeeping(discoveryList, setFilterList, idleTimeout)
      && Accepting(discoveryList) && Accepting(setFilterList)
      && CoversAll(currentFilter, scan, discoveryList)
      && (discoveryList != [] ==> powered)
    }

    /** Discovery runs, or will. */
    ghost predicate Runs()
      reads this
    {
      discoveryEnable || idleTimeout || suspended || starting > 0
    }

    /** Nobody waits for a discovery that neither runs nor will. */
    ghost predicate Served()
      reads this
    {
      discoveryList == [] || Runs()
    }

    constructor (scan: set<Bearer>, filtersSupported: bool)
      ensures this.scan == scan && this.filtersSupported == filtersSupported
      ensures Valid() && discoveryList == [] && setFilterList == [] && !powered
      ensures !Runs() && !discovering && sent == [] && currentFilter == None
    {
      this.scan, this.filtersSupported := scan, filtersSupported;
      powered, discoveryList, setFilterList, currentFilter := false, [], [], None;
      idleTimeout, discoveryEnable, discovering, suspended, filteredDiscovery := false, false, false, false, false;
      discoveryType, sent, starting := {}, [], 0;
    }

    method TriggerStartDiscovery()
      modifies this`idleTimeout
      ensures idleTimeout == powered
    {
      idleTimeout := false;
      if powered {
        idleTimeout := true;
      }
    }

    /** discovery_remove: the client leaves both lists, or stays behind with its filter. */
    method Remove(client: WatchClient, exit: bool)
      requires Valid() && (client.filter.Some? ==> Accepted(client.filter.value))
      modifies this`discoveryList, this`setFilterList, this`idleTimeout, this`discoveryType
      ensures Valid()
      ensures discoveryList == WithoutOwner(old(discoveryList), client.owner)
      ensures setFilterList == (if !exit && client.filter.Some? then [client] else [])
                             + WithoutOwner(old(setFilterList), client.owner)
      ensures idleTimeout == (old(idleTimeout) && discoveryList != [])
    {
      hide Bookkeeping, Accepting, CoversAll;
      ghost var l, m := discoveryList, setFilterList;
      RemovalKeeps(l, m, idleTimeout, client.owner);
      Parts(l, WithoutOwner(l, client.owner), currentFilter, scan);
      Parts(m, WithoutOwner(m, client.owner), None, scan);
      if client.filter.Some? {
        AcceptingFront(WithoutOwner(m, client.owner), client);
      }
      setFilterList := WithoutOwner(setFilterList, client.owner);
      discoveryList := WithoutOwner(discoveryList, client.owner);
      if !exit && client.filter.Some? {
        PresetKeeps(discoveryList, setFilterList, idleTimeout && discoveryList != [], client);
        setFilterList := [client] + setFilterList;
      }
      if discoveryList == [] {
        discoveryType := {};
        idleTimeout := false;
      }
    }

    /** update_discovery_filter: true stands for -EINPROGRESS. */
    method UpdateFilter() returns (restarts: bool)
      requires Bookkeeping(discoveryList, setFilterList, idleTimeout) && discoveryList != [] && powered
      requires Accepting(discoveryList) && Accepting(setFilterList)
      modifies this`currentFilter, this`idleTimeout
      ensures Valid()
      ensures Merged(Wishes(discoveryList), scan, currentFilter)
      ensures !restarts <==> currentFilter == old(currentFilter) && discovering
      ensures restarts ==> idleTimeout == powered
      ensures !restarts ==> idleTimeout == old(idleTimeout)
    {
      WishesAccepted(discoveryList);
      var k := MergeDiscoveryFilters(Wishes(discoveryList), scan);
      MergedCovers(discoveryList, scan, k);
      if k == currentFilter && discovering {
        return false;
      }
      currentFilter := k;
      TriggerStartDiscovery();
      restarts := true;
    }

    /** discovery_stop: with another client discovering or the discovery idle, the client is removed
        at once; otherwise only when the kernel has stopped. */
    method StopClient(client: WatchClient, exit: bool) returns (pending: bool)
      requires Valid() && (client.filter.Some? ==> Accepted(client.filter.value))
      modifies this`discoveryList, this`setFilterList, this`idleTimeout, this`discoveryType
      modifies this`currentFilter, this`discovering, this`sent
      ensures Valid()
      ensures pending <==> old(|discoveryList|) < 2 && discoveryEnable
      ensures sent == old(sent) + if pending then [Stop(Some(client.owner))] else []
      ensures old(|discoveryList|) >= 2 ==>
        && Merged(Wishes(discoveryList), scan, currentFilter) && discovering == old(discovering)
        && idleTimeout == (old(idleTimeout) || !(currentFilter == old(currentFilter) && discovering))
      ensures old(|discoveryList|) < 2 && !pending ==>
        && !discovering && currentFilter == old(currentFilter)
        && idleTimeout == (old(idleTimeout) && discoveryList != [])
      ensures pending ==>
        && discoveryList == old(discoveryList) && setFilterList == old(setFilterList)
        && discovering == old(discovering) && currentFilter == old(currentFilter) && idleTimeout == old(idleTimeout)
      ensures !pending ==>
        && discoveryList == WithoutOwner(old(discoveryList), client.owner)
        && setFilterList == (if !exit && client.filter.Some? then [client] else [])
                          + WithoutOwner(old(setFilterList), client.owner)
    {
      if |discoveryList| >= 2 {
        RemovalKeeps(discoveryList, setFilterList, idleTimeout, client.owner);
        Remove(client, exit);
        var _ := UpdateFilter();
        return false;
      }
      if !discoveryEnable {
        Remove(client, exit);
        discovering := false;
        return false;
      }
      sent := sent + [Stop(Some(client.owner))];
      return true;
    }

    /** StartDiscovery of one client. */
    method StartDiscovery(sender: string) returns (r: Reply)
      requires Valid()
      modifies this`discoveryList, this`setFilterList, this`currentFilter, this`idleTimeout
      ensures Valid()
      ensures r in {NotReady, Busy, Later, Done}
      ensures r == NotReady <==> !powered
      ensures r == Busy <==> powered && (old(Holds(discoveryList, sender)) || Owed(old(setFilterList), sender))
      ensures r in {NotReady, Busy} ==>
        && discoveryList == old(discoveryList) && setFilterList == old(setFilterList)
        && currentFilter == old(currentFilter) && idleTimeout == old(idleTimeout)
      ensures r !in {NotReady, Busy} ==>
        && |discoveryList| > 0 && discoveryList == [discoveryList[0]] + old(discoveryList)
        && IsStarter(old(setFilterList), sender, discoveryList[0].(msg := false))
        && setFilterList == WithoutOwner(old(setFilterList), sender)
        && Merged(Wishes(discoveryList), scan, currentFilter)
        && (r == Later <==> discoveryList[0].msg)
        && (r == Later <==> !(currentFilter == old(currentFilter) && discovering))
        && idleTimeout == (r == Later || old(idleTimeout))
    {
      if !powered {
        return NotReady;
      }
      var i := FindOwner(discoveryList, sender);
      if i < |discoveryList| {
        return Busy;
      }
      ghost var l, m := discoveryList, setFilterList;
      i := FindOwner(setFilterList, sender);
      var client := WatchClient(sender, None, false, true);
      RemovalKeeps(l, m, idleTimeout, sender);
      if i < |setFilterList| {
        client := setFilterList[i];
        if client.msg {
          return Busy;
        }
      }
      if client.filter.Some? {
        AcceptedMember(m, client);
      }
      assert IsStarter(m, sender, client);
      WithoutAbsent(l, sender);
      Parts(m, WithoutOwner(m, sender), None, scan);
      hide IsStarter, Holds, Bookkeeping, Accepting, CoversAll, Merged, Wishes, Accepted;
      setFilterList := WithoutOwner(setFilterList, sender);
      var restarts := Enlist(client);
      r := if restarts then Later else Done;
    }

    /** The client joins those that discover; it gets its reply later if discovery has to be restarted. */
    method Enlist(client: WatchClient) returns (restarts: bool)
      requires Bookkeeping(discoveryList, setFilterList, idleTimeout) && powered
      requires Accepting(discoveryList) && Accepting(setFilterList)
      requires !Holds(discoveryList, client.owner) && !Holds(setFilterList, client.owner) && !client.msg
      requires client.filter.Some? ==> Accepted(client.filter.value)
      modifies this`discoveryList, this`currentFilter, this`idleTimeout
      ensures Valid()
      ensures discoveryList == [client.(msg := restarts)] + old(discoveryList)
      ensures Merged(Wishes(discoveryList), scan, currentFilter)
      ensures !restarts <==> currentFilter == old(currentFilter) && discovering
      ensures idleTimeout == if restarts then powered else old(idleTimeout)
    {
      hide Holds, Bookkeeping, Accepting, CoversAll, Merged, Wishes, Accepted;
      StartKeeps(discoveryList, setFilterList, idleTimeout, client);
      AcceptingFront(discoveryList, client);
      discoveryList := [client] + discoveryList;
      restarts := UpdateFilter();
      if restarts {
        ghost var before := discoveryList;
        discoveryList := discoveryList[0 := client.(msg := true)];
        SameParts(before, discoveryList, setFilterList, idleTimeout, currentFilter, scan);
      }
    }

    /** SetDiscoveryFilter of one client, given what ParseFilter makes of its dictionary: an empty one
        takes the filter away. */
    method SetDiscoveryFilter(sender: string, parsed: Option<Wish>) returns (r: Reply)
      requires Valid() && (parsed.Some? && parsed.value.Some? ==> Accepted(parsed.value.value))
      modifies this`discoveryList, this`setFilterList, this`currentFilter, this`idleTimeout
      ensures Valid()
      ensures r == if !powered then NotReady else if !filtersSupported then NotSupported
                   else if parsed.None? then InvalidArgs else Done
      ensures r != Done ==> discoveryList == old(discoveryList) && setFilterList == old(setFilterList)
      ensures if r == Done && old(Holds(discoveryList, sender))
              then idleTimeout == (old(idleTimeout) || !(currentFilter == old(currentFilter) && discovering))
              else idleTimeout == old(idleTimeout) && currentFilter == old(currentFilter)
      ensures r == Done && old(Holds(discoveryList, sender)) ==>
        && setFilterList == old(setFilterList) && Refiltered(old(discoveryList), sender, parsed.value, discoveryList)
        && Merged(Wishes(discoveryList), scan, currentFilter)
      ensures r == Done && !old(Holds(discoveryList, sender)) ==>
        && discoveryList == old(discoveryList)
        && if parsed.value == None then setFilterList == WithoutOwner(old(setFilterList), sender)
           else if old(Holds(setFilterList, sender))
           then Refiltered(old(setFilterList), sender, parsed.value, setFilterList)
           else setFilterList == [WatchClient(sender, parsed.value, false, true)] + old(setFilterList)
    {
      hide Accepting, CoversAll, Merged, Wishes, Distinct, Disjoint, Accepted;
      if !powered {
        return NotReady;
      }
      if !filtersSupported {
        return NotSupported;
      }
      if parsed.None? {
        return InvalidArgs;
      }
      r := Done;
      var filter := parsed.value;
      ghost var l, m := discoveryList, setFilterList;
      RemovalKeeps(l, m, idleTimeout, sender);
      var i := FindOwner(discoveryList, sender);
      if i < |discoveryList| {
        FilterKeeps(l, m, i, filter, idleTimeout);
        discoveryList := discoveryList[i := discoveryList[i].(filter := filter)];
        var _ := UpdateFilter();
        return;
      }
      i := FindOwner(setFilterList, sender);
      if i < |setFilterList| {
        if filter.Some? {
          PresetFilterKeeps(l, m, i, filter, idleTimeout);
          setFilterList := setFilterList[i := setFilterList[i].(filter := filter)];
        } else {
          WithoutAbsent(l, sender);
          Parts(m, WithoutOwner(m, sender), None, scan);
          setFilterList := WithoutOwner(setFilterList, sender);
        }
      } else if filter.Some? {
        var client := WatchClient(sender, filter, false, true);
        PresetKeeps(l, m, idleTimeout, client);
        AcceptingFront(m, client);
        setFilterList := [client] + setFilterList;
      } else {
        WithoutAbsent(m, sender);
      }
    }

    /** StopDiscovery of one client. */
    method StopDiscovery(sender: string) returns (r: Reply)
      requires Valid()
      modifies this`discoveryList, this`setFilterList, this`idleTimeout, this`discoveryType
      modifies this`currentFilter, this`discovering, this`sent
      ensures Valid()
      ensures r == NotReady <==> !powered
      ensures powered && !old(Holds(discoveryList, sender)) ==> r == Failed
      ensures r in {NotReady, Failed, Busy} ==>
        discoveryList == old(discoveryList) && setFilterList == old(setFilterList) && sent == old(sent)
      ensures r != Done ==>
        discovering == old(discovering) && currentFilter == old(currentFilter) && idleTimeout == old(idleTimeout)
      ensures r == Done && old(|discoveryList|) >= 2 ==>
        && Merged(Wishes(discoveryList), scan, currentFilter) && discovering == old(discovering)
        && idleTimeout == (old(idleTimeout) || !(currentFilter == old(currentFilter) && discovering))
      ensures r == Done && old(|discoveryList|) < 2 ==>
        discoveryList == [] && !discovering && currentFilter == old(currentFilter) && !idleTimeout
      ensures forall c :: c in old(discoveryList) && c.owner == sender && powered ==>
        if c.msg then r == Busy
        else if old(|discoveryList|) < 2 && old(discoveryEnable)
        then r == Later && discoveryList == [c.(msg := true)] && setFilterList == old(setFilterList)
             && sent == old(sent) + [Stop(Some(sender))]
        else r == Done && discoveryList == WithoutOwner(old(discoveryList), sender) && sent == old(sent)
             && setFilterList == (if c.filter.Some? then [c] else []) + WithoutOwner(old(setFilterList), sender)
    {
      if !powered {
        return NotReady;
      }
      var i := FindOwner(discoveryList, sender);
      if i == |discoveryList| {
        return Failed;
      }
      var client := discoveryList[i];
      OneClient(discoveryList, setFilterList, idleTimeout, sender);
      if client.msg {
        return Busy;
      }
      RemovalKeeps(discoveryList, setFilterList, idleTimeout, sender);
      if client.filter.Some? {
        AcceptedMember(discoveryList, client);
      }
      var pending := StopClient(client, false);
      if !pending {
        return Done;
      }
      ghost var before := discoveryList;
      discoveryList := discoveryList[i := client.(msg := true)];
      SameParts(before, discoveryList, setFilterList, idleTimeout, currentFilter, scan);
      return Later;
    }

    // ----- asynchronous steps -----

    method FindClient(owner: string) returns (found: Option<WatchClient>)
      requires Valid()
      ensures found.None? <==> !Holds(discoveryList, owner) && !Holds(setFilterList, owner)
      ensures found.Some? ==>
        found.value.owner == owner && (found.value in discoveryList || found.value in setFilterList)
      ensures found.Some? && found.value.filter.Some? ==> Accepted(found.value.filter.value)
    {
      var i := FindOwner(discoveryList, owner);
      if i < |discoveryList| {
        return Some(discoveryList[i]);
      }
      i := FindOwner(setFilterList, owner);
      return if i < |setFilterList| then Some(setFilterList[i]) else None;
    }

    /** A client that disconnects is forgotten at once exactly if two clients discover or discovery is
        idle; otherwise everything waits for the kernel to stop. */
    method Disconnect(owner: string)
      requires Valid()
      modifies this`discoveryList, this`setFilterList, this`idleTimeout, this`discoveryType
      modifies this`currentFilter, this`discovering, this`sent
      ensures Valid()
      ensures old(!Watched(discoveryList, owner) && !Watched(setFilterList, owner)) ==>
        discoveryList == old(discoveryList) && setFilterList == old(setFilterList) && sent == old(sent)
      ensures if old(!Watched(discoveryList, owner) && !Watched(setFilterList, owner))
                 || (old(|discoveryList|) < 2 && discoveryEnable)
              then discovering == old(discovering) && currentFilter == old(currentFilter)
                   && idleTimeout == old(idleTimeout)
              else if old(|discoveryList|) >= 2
              then discovering == old(discovering)
                   && idleTimeout == (old(idleTimeout) || !(currentFilter == old(currentFilter) && discovering))
              else !discovering && currentFilter == old(currentFilter)
                   && idleTimeout == (old(idleTimeout) && discoveryList != [])
      ensures forall c :: (c in old(discoveryList) || c in old(setFilterList)) && c.owner == owner && c.watch ==>
        if old(|discoveryList|) >= 2 || !old(discoveryEnable)
        then !Holds(discoveryList, owner) && !Holds(setFilterList, owner) && sent == old(sent)
             && discoveryList == WithoutOwner(old(discoveryList), owner)
             && setFilterList == WithoutOwner(old(setFilterList), owner)
        else discoveryList == old(discoveryList) && setFilterList == old(setFilterList)
             && sent == old(sent) + [Stop(Some(owner))]
    {
      ghost var l, m := discoveryList, setFilterList;
      var found := FindClient(owner);
      OneClient(l, m, idleTimeout, owner);
      if found.None? || !found.value.watch {
        return;
      }
      RemovalKeeps(l, m, idleTimeout, owner);
      hide Bookkeeping, Accepting, CoversAll;
      var _ := StopClient(found.value, true);
    }

    /** The kernel has stopped discovery for a client: it no longer discovers, but stays as a preset
        one if it has a filter, even when it is gone. */
    method StopComplete(owner: string, success: bool)
      requires Valid() && (Holds(discoveryList, owner) || Holds(setFilterList, owner))
      modifies this`discoveryList, this`setFilterList, this`idleTimeout, this`discoveryType
      modifies this`discoveryEnable, this`filteredDiscovery, this`discovering
      ensures Valid()
      ensures idleTimeout == (old(idleTimeout) && discoveryList != [])
      ensures discoveryList == WithoutOwner(old(discoveryList), owner)
      ensures forall c :: (c in old(discoveryList) || c in old(setFilterList)) && c.owner == owner ==>
        setFilterList == (if c.filter.Some? then [c.(msg := c.msg && !success)] else [])
                       + WithoutOwner(old(setFilterList), owner)
      ensures if success then !discoveryEnable && !discovering && !filteredDiscovery
              else discoveryEnable == old(discoveryEnable) && discovering == old(discovering)
                   && filteredDiscovery == old(filteredDiscovery)
    {
      ghost var l, m := discoveryList, setFilterList;
      var found := FindClient(owner);
      OneClient(l, m, idleTimeout, owner);
      hide Bookkeeping, Accepting, CoversAll;
      var client := found.value;
      if success {
        client := client.(msg := false);
        discoveryType, discoveryEnable, filteredDiscovery, discovering := {}, false, false, false;
      }
      Remove(client, false);
    }

    /** start_discovery_complete; sized says that the reply of the kernel has its proper length. */
    method StartComplete(success: bool, sized: bool, types: set<Bearer>)
      requires Valid()
      modifies this`discoveryList, this`idleTimeout, this`discoveryType, this`discoveryEnable
      modifies this`filteredDiscovery, this`discovering, this`sent, this`starting
      ensures Valid() && starting == if old(starting) == 0 then 0 else old(starting) - 1
      ensures old(discoveryList) == [] || !(sized && success) ==>
        && discoveryEnable == old(discoveryEnable) && discovering == old(discovering)
        && filteredDiscovery == old(filteredDiscovery) && discoveryType == old(discoveryType)
      ensures setFilterList == old(setFilterList) && Wishes(discoveryList) == Wishes(old(discoveryList))
      ensures sent == old(sent) + if old(discoveryList) == [] && success then [Stop(None)] else []
      ensures old(discoveryList) == [] ==> discoveryList == [] && idleTimeout == old(idleTimeout)
      ensures old(discoveryList) != [] ==>
        var c := old(discoveryList)[0];
        if sized && success
        then discoveryEnable && discovering && filteredDiscovery == currentFilter.Some? && discoveryType == types
             && discoveryList == old(discoveryList)[0 := c.(msg := false)] && idleTimeout == old(idleTimeout)
        else if c.msg
        then discoveryList == old(discoveryList)[0 := c.(watch := false)] && idleTimeout == old(idleTimeout)
        else discoveryList == old(discoveryList) && idleTimeout == if sized then powered else old(idleTimeout)
    {
      starting := if starting == 0 then 0 else starting - 1;
      if discoveryList == [] {
        if success {
          sent := sent + [Stop(None)];
        }
        return;
      }
      var client := discoveryList[0];
      hide Bookkeeping, Accepting, CoversAll, Wishes;
      if !sized && !client.msg {
        return;
      }
      if sized && success {
        discoveryType, discoveryEnable := types, true;
        filteredDiscovery := currentFilter.Some?;
        ReplyToFirst();
        discovering := true;
        return;
      }
      StartFailed();
    }

    /** The client that started last gets the reply it waits for, if any. */
    method ReplyToFirst()
      requires Valid() && discoveryList != []
      modifies this`discoveryList
      ensures Valid() && Wishes(discoveryList) == Wishes(old(discoveryList))
      ensures discoveryList == old(discoveryList)[0 := old(discoveryList)[0].(msg := false)]
    {
      var client := discoveryList[0];
      ghost var before := discoveryList;
      hide Bookkeeping, Accepting, CoversAll, Wishes;
      if client.msg {
        discoveryList := discoveryList[0 := client.(msg := false)];
        SameParts(before, discoveryList, setFilterList, idleTimeout, currentFilter, scan);
      }
    }

    /** What start_discovery_complete does at its label fail: a client that waits for its reply gets an
        error, without it the timer starts another attempt. */
    method StartFailed()
      requires Valid() && discoveryList != []
      modifies this`discoveryList, this`idleTimeout
      ensures Valid() && Wishes(discoveryList) == Wishes(old(discoveryList))
      ensures var c := old(discoveryList)[0];
        if c.msg
        then discoveryList == old(discoveryList)[0 := c.(watch := false)] && idleTimeout == old(idleTimeout)
        else discoveryList == old(discoveryList) && idleTimeout
    {
      var client := discoveryList[0];
      ghost var before := discoveryList;
      hide Bookkeeping, Accepting, CoversAll, Wishes;
      if client.msg {
        discoveryList := discoveryList[0 := client.(watch := false)];
        SameParts(before, discoveryList, setFilterList, idleTimeout, currentFilter, scan);
        return;
      }
      TriggerStartDiscovery();
      TimerKeeps(discoveryList, setFilterList, old(idleTimeout), idleTimeout);
    }

    /** The restart timer fires: a running discovery that does not fit is stopped, otherwise discovery
        starts with a filter that covers every client. */
    method StartTimeout()
      requires Valid() && idleTimeout
      modifies this`idleTimeout, this`discovering, this`sent, this`starting
      ensures Valid() && !idleTimeout && starting == old(starting) + if discoveryEnable then 0 else 1
      ensures discovering == (old(discovering) || (discoveryEnable && sent == old(sent)))
      ensures !discoveryEnable ==>
        sent == old(sent) + [if currentFilter.None? then StartRegular(scan) else StartFiltered(currentFilter.value)]
      ensures discoveryEnable ==> if currentFilter.None? && !filteredDiscovery && discoveryType == scan
        then discovering && sent == old(sent) else sent == old(sent) + [Stop(None)]
    {
      idleTimeout := false;
      if discoveryEnable {
        if currentFilter.None? && !filteredDiscovery && discoveryType == scan {
          discovering := true;
          return;
        }
        sent := sent + [Stop(None)];
        return;
      }
      starting := starting + 1;
      if currentFilter.None? {
        sent := sent + [StartRegular(scan)];
        return;
      }
      sent := sent + [StartFiltered(currentFilter.value)];
    }

    /** The kernel reports that discovery started or stopped. */
    method DiscoveringChanged(types: set<Bearer>, enabled: bool)
      requires Valid()
      modifies this`discoveryType, this`discoveryEnable, this`idleTimeout
      ensures Valid() && discoveryEnable == enabled
      ensures idleTimeout == if old(discoveryEnable) == enabled || discoveryList == [] || suspended
                             then old(idleTimeout)
                             else !enabled && powered
    {
      if discoveryEnable == enabled {
        return;
      }
      discoveryType, discoveryEnable := types, enabled;
      if discoveryList == [] || suspended {
        return;
      }
      if enabled {
        idleTimeout := false;
      } else {
        TriggerStartDiscovery();
      }
    }

    method Suspend()
      requires Valid()
      modifies this`suspended, this`idleTimeout, this`sent
      ensures Valid() && suspended && !idleTimeout
      ensures sent == old(sent) + if discoveryList != [] && discoveryEnable then [Stop(None)] else []
    {
      suspended := true;
      if discoveryList == [] {
        return;
      }
      idleTimeout := false;
      if discoveryEnable {
        sent := sent + [Stop(None)];
      }
    }

    method SuspendComplete(success: bool)
      requires Valid()
      modifies this`discoveryType, this`discoveryEnable
      ensures Valid() && discoveryEnable == (old(discoveryEnable) && !success)
    {
      if success {
        discoveryType, discoveryEnable := {}, false;
      }
    }

    method Resume()
      requires Valid()
      modifies this`suspended, this`idleTimeout
      ensures Valid() && !suspended
      ensures idleTimeout == if discoveryList == [] then old(idleTimeout) else powered
    {
      suspended := false;
      if discoveryList == [] {
        return;
      }
      TriggerStartDiscovery();
    }

    /** adapter_stop, when the controller is powered down. */
    method PowerDown()
      requires Valid()
      modifies this`powered, this`discoveryList, this`setFilterList, this`discoveryType, this`idleTimeout
      modifies this`filteredDiscovery, this`currentFilter, this`discovering
      ensures Valid() && !powered && discoveryList == [] && setFilterList == [] && !idleTimeout
      ensures currentFilter == None && !discovering && !filteredDiscovery
    {
      powered := false;
      setFilterList, discoveryList := [], [];
      discoveryType, idleTimeout := {}, false;
      filteredDiscovery, currentFilter, discovering := false, None, false;
    }

    method PowerUp()
      requires Valid()
      modifies this`powered
      ensures Valid() && powered
    {
      powered := true;
    }

    /** Who starts, if it is the only one, needs no restart: the filter is the one in force, and the
        adapter counts as discovering. */
    ghost predicate Unneeded(owner: string)
      reads this
    {
      exists c :: IsStarter(setFilterList, owner, c) && discovering && Merged([c.filter], scan, currentFilter)
    }

    /** After which events somebody waits for a discovery that neither runs nor will. */
    ghost predicate Forgets(e: Event)
      reads this
    {
      match e
      case StartRequest(owner) =>
        powered && discoveryList == [] && !Owed(setFilterList, owner) && !Runs() && Unneeded(owner)
      case Stopped(owner, success) =>
        && success && (Holds(discoveryList, owner) || Holds(setFilterList, owner))
        && WithoutOwner(discoveryList, owner) != [] && !idleTimeout && !suspended && starting == 0
      case Started(success, sized, _) =>
        && discoveryList != [] && !(sized && success) && (discoveryList[0].msg || !sized)
        && !discoveryEnable && !idleTimeout && !suspended && starting <= 1
      case Suspended(success) =>
        success && discoveryList != [] && !idleTimeout && !suspended && starting == 0
      case _ => false
    }

    method StartStep(owner: string) returns (r: Reply)
      requires Valid()
      modifies this`discoveryList, this`setFilterList, this`currentFilter, this`idleTimeout
      ensures Valid()
      ensures old(Served()) ==> (Served() <==> !old(Forgets(StartRequest(owner))))
    {
      hide Bookkeeping, Accepting, CoversAll, Merged, Wishes, IsStarter;
      ghost var l, m, timer, k := discoveryList, setFilterList, idleTimeout, currentFilter;
      r := StartDiscovery(owner);
      if l == [] && r !in {NotReady, Busy} {
        OneWish(discoveryList);
        StarterDecides(l, m, timer, owner, discoveryList[0].(msg := false), scan, k, currentFilter);
      }
    }

    /** One event. It leaves every client served exactly if it forgets none. */
    method Step(e: Event)
      requires Valid()
      modifies this
      ensures Valid()
      ensures old(Served()) ==> (Served() <==> !old(Forgets(e)))
    {
      hide Bookkeeping, Accepting, CoversAll, Merged, Wishes, IsStarter;
      match e
      case StartRequest(owner) => var _ := StartStep(owner);
      case FilterRequest(owner, entries) =>
        var parsed := ParseFilter(scan, entries);
        var _ := SetDiscoveryFilter(owner, parsed);
      case StopRequest(owner) => var _ := StopDiscovery(owner);
      case Disconnected(owner) => Disconnect(owner);
      case Stopped(owner, success) =>
        var found := FindClient(owner);
        if found.Some? {
          StopComplete(owner, success);
        }
      case Started(success, sized, types) => StartComplete(success, sized, types);
      case TimerFired =>
        if idleTimeout {
          StartTimeout();
        }
      case Reported(types, enabled) => DiscoveringChanged(types, enabled);
      case Suspending => Suspend();
      case Suspended(success) => SuspendComplete(success);
      case Resuming => Resume();
      case PoweredDown => PowerDown();
      case PoweredUp => PowerUp();
    }

    /** Whatever happens, in whatever order: the lists, the timer and the filter stay in order. */
    method Run(events: seq<Event>)
      requires Valid()
      modifies this
      ensures Valid()
    {
      for k := 0 to |events|
        invariant Valid()
      {
        Step(events[k]);
      }
    }
  }

  lemma OneWish(l: seq<WatchClient>)
    requires |l| == 1
    ensures Wishes(l) == [l[0].filter]
  {
    assert l[1..] == [];
  }

  /** The filter for the one who starts is the one in force or not, whoever starts. */
  lemma StarterDecides(l: seq<WatchClient>, m: seq<WatchClient>, timer: bool, owner: string, c: WatchClient,
                       scan: set<Bearer>, k: Option<KernelFilter>, k': Option<KernelFilter>)
    requires Bookkeeping(l, m, timer) && IsStarter(m, owner, c) && Merged([c.filter], scan, k')
    ensures (exists d :: IsStarter(m, owner, d) && Merged([d.filter], scan, k)) <==> k == k'
  {
    hide Merged;
    if d :| IsStarter(m, owner, d) && Merged([d.filter], scan, k) {
      assert d == c;
      hide IsStarter;
      RearrangedSaysTheSame([c.filter], [c.filter]);
      MergedIsCanonical([c.filter], [c.filter], scan, k, k');
    }
  }

  lemma {:induction false} RegularOnly(l: seq<WatchClient>, scan: set<Bearer>, k: Option<KernelFilter>)
    requires l != [] && Merged(Wishes(l), scan, k) && forall i :: 0 <= i < |l| ==> l[i].filter == None
    ensures k == None
  {
    assert l[0].filter in Wishes(l);
  }

  /** With only regular clients there is no need to restart a discovery that counts as running. */
  method StartRegularClient(a: Adapter, owner: string) returns (r: Reply)
    requires a.Valid() && a.powered && a.setFilterList == [] && !Holds(a.discoveryList, owner)
    requires a.currentFilter == None && forall i :: 0 <= i < |a.discoveryList| ==> a.discoveryList[i].filter == None
    modifies a`discoveryList, a`setFilterList, a`currentFilter, a`idleTimeout
    ensures a.Valid() && a.setFilterList == [] && a.currentFilter == None
    ensures r == if a.discovering then Done else Later
    ensures a.discoveryList == [WatchClient(owner, None, r == Later, true)] + old(a.discoveryList)
    ensures a.idleTimeout == (r == Later || old(a.idleTimeout))
  {
    hide Bookkeeping, Accepting, CoversAll, Merged, Wishes;
    r := a.StartDiscovery(owner);
    assert a.discoveryList[0].(msg := false) == WatchClient(owner, None, false, true);
    RegularOnly(a.discoveryList, a.scan, a.currentFilter);
  }

  /** An adapter on which one client discovers, without a filter. */
  method OneDiscovers(scan: set<Bearer>, owner: string) returns (a: Adapter)
    ensures fresh(a) && a.Valid() && a.powered && a.filtersSupported && a.scan == scan
    ensures a.discoveryList == [WatchClient(owner, None, false, true)] && a.setFilterList == []
    ensures a.discoveryEnable && a.discovering && !a.idleTimeout && !a.suspended && a.starting == 0
    ensures a.currentFilter == None && a.sent == [StartRegular(scan)]
  {
    hide Bookkeeping, Accepting, CoversAll, Merged, Wishes;
    a := new Adapter(scan, true);
    a.PowerUp();
    var r := StartRegularClient(a, owner);
    a.StartTimeout();
    a.StartComplete(true, true, scan);
  }

  lemma WithoutTheOther(c: WatchClient, d: WatchClient)
    requires c.owner != d.owner
    ensures WithoutOwner([c, d], d.owner) == [c]
  {
    assert [c, d][1..] == [d] && WithoutOwner([d], d.owner) == [];
  }

  /** A filtered client that disconnects while it alone discovers is kept as a preset one. */
  method LoneClientStaysBehind(scan: set<Bearer>, owner: string, f: Filter) returns (a: Adapter)
    requires Accepted(f)
    ensures fresh(a) && a.Valid()
    ensures a.discoveryList == [] && a.setFilterList == [WatchClient(owner, Some(f), false, true)]
  {
    hide Accepting, CoversAll, Merged, Wishes, Accepted;
    a := new Adapter(scan, true);
    a.PowerUp();
    var r := a.SetDiscoveryFilter(owner, Some(Some(f)));
    r := a.StartDiscovery(owner);
    assert a.discoveryList == [WatchClient(owner, Some(f), true, true)];
    a.StartTimeout();
    a.StartComplete(true, true, scan);
    assert a.discoveryList == [WatchClient(owner, Some(f), false, true)];
    a.Disconnect(owner);
    a.StopComplete(owner, true);
  }

  /** A preset client that disconnects stops the discovery of another one. */
  method OtherDiscoveryStops(scan: set<Bearer>, other: string, owner: string, f: Filter) returns (a: Adapter)
    requires Accepted(f) && owner != other
    ensures fresh(a) && a.Valid() && a.sent == [StartRegular(scan), Stop(Some(owner))]
    ensures a.discoveryList == [WatchClient(other, None, false, true)]
  {
    hide Accepting, CoversAll, Merged, Wishes, Accepted;
    a := OneDiscovers(scan, other);
    var r := a.SetDiscoveryFilter(owner, Some(Some(f)));
    assert a.setFilterList == [WatchClient(owner, Some(f), false, true)];
    a.Disconnect(owner);
  }

  /** An adapter on which the only client is being stopped. */
  method OneStops(scan: set<Bearer>, x: string) returns (a: Adapter)
    ensures fresh(a) && a.Valid() && a.powered
    ensures a.discoveryList == [WatchClient(x, None, true, true)] && a.setFilterList == []
    ensures a.discoveryEnable && a.discovering && !a.idleTimeout && !a.suspended && a.starting == 0
    ensures a.currentFilter == None && a.sent == [StartRegular(scan), Stop(Some(x))]
  {
    hide Bookkeeping, Accepting, CoversAll, Merged, Wishes;
    a := OneDiscovers(scan, x);
    assert a.discoveryList[0] in a.discoveryList;
    var r := a.StopDiscovery(x);
  }

  /** Who starts while the only other client is being stopped is told that all is well, and then
      forgotten: when the kernel has stopped, discovery neither runs nor will. */
  method LateStarter(scan: set<Bearer>, x: string, y: string) returns (a: Adapter, r: Reply)
    requires x != y
    ensures fresh(a) && a.Valid() && r == Done && !a.Served()
    ensures a.discoveryList == [WatchClient(y, None, false, true)]
  {
    hide Bookkeeping, Accepting, CoversAll, Merged, Wishes;
    a := OneStops(scan, x);
    r := StartRegularClient(a, y);
    WithoutTheOther(a.discoveryList[0], a.discoveryList[1]);
    a.StopComplete(x, true);
  }

  /** Discovery ends by itself while the only client is being stopped, so that stopping fails: the
      adapter still counts as discovering, and the next client is not served. */
  method RejectedStop(scan: set<Bearer>, x: string, y: string) returns (a: Adapter, r: Reply)
    ensures fresh(a) && a.Valid() && r == Done && !a.Served()
    ensures a.discoveryList == [WatchClient(y, None, false, true)]
  {
    hide Bookkeeping, Accepting, CoversAll, Merged, Wishes;
    a := OneStops(scan, x);
    a.DiscoveringChanged({}, false);
    assert a.discoveryList[0] in a.discoveryList;
    a.StopComplete(x, false);
    r := StartRegularClient(a, y);
  }

  /** An adapter on which the start of the only client has failed. */
  method OneFails(scan: set<Bearer>, x: string) returns (a: Adapter)
    ensures fresh(a) && a.Valid() && a.powered && !a.Served()
    ensures a.discoveryList == [WatchClient(x, None, true, false)]
  {
    hide Bookkeeping, Accepting, CoversAll, Merged, Wishes;
    a := new Adapter(scan, true);
    a.PowerUp();
    var r := StartRegularClient(a, x);
    a.StartTimeout();
    a.StartComplete(false, true, {});
  }

  /** A client whose start fails gets an error, but stays among those that discover; it can neither
      start again nor stop. */
  method FailedStart(scan: set<Bearer>, x: string) returns (a: Adapter, again: Reply, stopped: Reply)
    ensures fresh(a) && a.Valid() && !a.Served() && again == stopped == Busy
    ensures a.discoveryList == [WatchClient(x, None, true, false)]
  {
    hide Bookkeeping, Accepting, CoversAll, Merged, Wishes;
    a := OneFails(scan, x);
    assert a.discoveryList[0] in a.discoveryList;
    again := a.StartDiscovery(x);
    stopped := a.StopDiscovery(x);
  }

  datatype Event =
    | StartRequest(owner: string)
    | FilterRequest(owner: string, entries: seq<Entry>)
    | StopRequest(owner: string)
    | Disconnected(owner: string)
    | Stopped(owner: string, success: bool)
    | Started(success: bool, sized: bool, types: set<Bearer>)
    | TimerFired
    | Reported(types: set<Bearer>, enabled: bool)
    | Suspending
    | Suspended(success: bool)
    | Resuming
    | PoweredDown
    | PoweredUp

  /** There is one client of an owner in both lists together. */
  lemma OneClient(l: seq<WatchClient>, m: seq<WatchClient>, timer: bool, owner: string)
    requires Bookkeeping(l, m, timer)
    ensures forall c, d :: (c in l || c in m) && (d in l || d in m) && c.owner == owner && d.owner == owner ==> c == d
  {
  }

  lemma TimerKeeps(l: seq<WatchClient>, m: seq<WatchClient>, timer: bool, timer': bool)
    requires Bookkeeping(l, m, timer) && l != []
    ensures Bookkeeping(l, m, timer')
  {
    hide Distinct, Disjoint;
  }

  lemma Parts(l: seq<WatchClient>, m: seq<WatchClient>, k: Option<KernelFilter>, scan: set<Bearer>)
    requires forall c :: c in m ==> c in l
    ensures Accepting(l) ==> Accepting(m)
    ensures CoversAll(k, scan, l) ==> CoversAll(k, scan, m)
  {
    hide Covers;
    assert forall i :: 0 <= i < |m| ==> m[i] in m;
  }

  lemma WishesAccepted(l: seq<WatchClient>)
    requires Accepting(l)
    ensures AllAccepted(Wishes(l))
  {
  }

  /** Only who is owed a reply, or watched, differs. */
  lemma SameParts(l: seq<WatchClient>, l': seq<WatchClient>, m: seq<WatchClient>, timer: bool,
                  k: Option<KernelFilter>, scan: set<Bearer>)
    requires |l| == |l'| && forall i :: 0 <= i < |l| ==> l'[i].owner == l[i].owner && l'[i].filter == l[i].filter
    ensures Bookkeeping(l, m, timer) ==> Bookkeeping(l', m, timer)
    ensures Accepting(l) ==> Accepting(l')
    ensures CoversAll(k, scan, l) ==> CoversAll(k, scan, l')
    ensures Wishes(l') == Wishes(l)
  {
    hide Covers;
    if l != [] {
      SameParts(l[1..], l'[1..], m, timer, k, scan);
    }
  }

  lemma FilterKeeps(l: seq<WatchClient>, m: seq<WatchClient>, i: nat, w: Wish, timer: bool)
    requires Bookkeeping(l, m, timer) && Accepting(l) && i < |l| && (w.Some? ==> Accepted(w.value))
    ensures Bookkeeping(l[i := l[i].(filter := w)], m, timer)
    ensures Accepting(l[i := l[i].(filter := w)])
  {
    hide Accepted;
  }

  lemma PresetFilterKeeps(l: seq<WatchClient>, m: seq<WatchClient>, i: nat, w: Wish, timer: bool)
    requires Bookkeeping(l, m, timer) && Accepting(m) && i < |m| && w.Some? && Accepted(w.value)
    ensures Bookkeeping(l, m[i := m[i].(filter := w)], timer)
    ensures Accepting(m[i := m[i].(filter := w)])
  {
    hide Accepted;
  }

  lemma AcceptingFront(l: seq<WatchClient>, c: WatchClient)
    requires Accepting(l) && (c.filter.Some? ==> Accepted(c.filter.value))
    ensures Accepting([c] + l)
  {
    hide Accepted;
  }

  lemma AcceptedMember(l: seq<WatchClient>, c: WatchClient)
    requires Accepting(l) && c in l && c.filter.Some?
    ensures Accepted(c.filter.value)
  {
    hide Accepted;
  }

  /** The client of the owner has another filter; nothing else differs. */
  ghost predicate Refiltered(l: seq<WatchClient>, owner: string, w: Wish, l': seq<WatchClient>) {
    exists i :: 0 <= i < |l| && l[i].owner == owner && l' == l[i := l[i].(filter := w)]
  }

  lemma {:induction false} WithoutAbsent(l: seq<WatchClient>, owner: string)
    requires !Holds(l, owner)
    ensures WithoutOwner(l, owner) == l
  {
    if l != [] {
      assert l == [l[0]] + l[1..];
      assert forall i :: 0 <= i < |l[1..]| ==> l[1..][i] == l[i + 1];
      WithoutAbsent(l[1..], owner);
    }
  }
}
