/** The four range queries of the ATT server, and what each calls the end of a service. */
module AttQueries {
  import opened Bytes
  import opened AttDatabase

  const INVALID_HANDLE: byte := 0x01
  const ATTR_NOT_FOUND: byte := 0x0A
  const UNSUPP_GRP_TYPE: byte := 0x10

  datatype Response<+T> = Error(handle: u16, code: byte) | Found(items: seq<T>)

  // ----- which attributes a request is about -----

  /** A handle range with an optional type and an optional value. */
  datatype Query = Query(lo: int, hi: int, uuid: Option<Uuid>, value: Option<seq<byte>>)

  predicate Like(q: Query, a: Attribute) {
    && (q.uuid.Some? ==> Same(a.uuid, q.uuid.value))
    && (q.value.Some? ==> a.data == q.value.value)
  }

  predicate Hits(q: Query, a: Attribute) {
    q.lo <= a.handle <= q.hi && Like(q, a)
  }

  /** The positions below k that the query hits, in ascending order. */
  ghost function Matches(db: seq<Attribute>, q: Query, k: nat): (idx: seq<nat>)
    requires k <= |db|
    ensures forall j :: 0 <= j < |idx| ==> idx[j] < k && Hits(q, db[idx[j]])
    ensures forall i, j :: 0 <= i < j < |idx| ==> idx[i] < idx[j]
  {
    if k == 0 then []
    else if Hits(q, db[k - 1]) then Matches(db, q, k - 1) + [k - 1]
    else Matches(db, q, k - 1)
  }

  lemma {:induction false} MatchesAll(db: seq<Attribute>, q: Query, k: nat, i: nat)
    requires i < k <= |db|
    ensures i in Matches(db, q, k) <==> Hits(q, db[i])
  {
    if i < k - 1 {
      MatchesAll(db, q, k - 1, i);
    } else {
      var idx := Matches(db, q, k - 1);
      assert forall j :: 0 <= j < |idx| ==> idx[j] < k - 1;
    }
  }

  lemma {:induction false} MatchesGrow(db: seq<Attribute>, q: Query, k: nat, n: nat)
    requires k <= n <= |db|
    ensures Matches(db, q, k) <= Matches(db, q, n)
  {
    if k < n {
      MatchesGrow(db, q, k, n - 1);
    }
  }

  /** Behind an attribute above the range nothing is hit. */
  lemma {:induction false} MatchesDone(db: seq<Attribute>, q: Query, k: nat, n: nat)
    requires Sorted(db) && k < n <= |db| && db[k].handle > q.hi
    ensures Matches(db, q, n) == Matches(db, q, k)
  {
    if k < n - 1 {
      MatchesDone(db, q, k, n - 1);
      assert db[k].handle < db[n - 1].handle;
    }
  }

  /** After k attributes the first matches are known; the attribute at k is the next one, or not. */
  lemma MatchesSoFar(db: seq<Attribute>, q: Query, k: nat)
    requires Sorted(db) && k <= |db|
    ensures Matches(db, q, k) <= Matches(db, q, |db|)
    ensures k == |db| || db[k].handle > q.hi ==> Matches(db, q, k) == Matches(db, q, |db|)
    ensures k < |db| && Hits(q, db[k]) ==> Matches(db, q, k) + [k] <= Matches(db, q, |db|)
  {
    MatchesGrow(db, q, k, |db|);
    if k < |db| && db[k].handle > q.hi {
      MatchesDone(db, q, k, |db|);
    } else if k < |db| && Hits(q, db[k]) {
      MatchesGrow(db, q, k + 1, |db|);
      assert Matches(db, q, k + 1) == Matches(db, q, k) + [k];
    }
  }

  lemma MatchesStep(db: seq<Attribute>, q: Query, k: nat)
    requires k < |db|
    ensures Matches(db, q, k + 1) == if Hits(q, db[k]) then Matches(db, q, k) + [k] else Matches(db, q, k)
  {
  }

  // ----- the extent of a service -----

  predicate Stops(q: Query, a: Attribute) {
    IsService(a.uuid) || Like(q, a)
  }

  /** No new group starts behind i and before k, and the range is not left. */
  ghost predicate Open(db: seq<Attribute>, q: Query, i: nat, k: nat)
    requires k <= |db|
  {
    forall j :: i < j < k ==> !Stops(q, db[j]) && db[j].handle <= q.hi
  }

  /** The position of the last attribute of the group that starts at i, among the first k. */
  ghost function GroupLast(db: seq<Attribute>, q: Query, i: nat, k: nat): (m: nat)
    requires i < k <= |db|
    ensures i <= m < k && Open(db, q, i, m + 1)
    ensures m + 1 < k ==> Stops(q, db[m + 1]) || db[m + 1].handle > q.hi
  {
    if Open(db, q, i, k) then k - 1 else GroupLast(db, q, i, k - 1)
  }

  lemma GroupLastIs(db: seq<Attribute>, q: Query, i: nat, k: nat, m: nat)
    requires i <= m < k <= |db| && Open(db, q, i, m + 1)
    requires m + 1 < k ==> Stops(q, db[m + 1]) || db[m + 1].handle > q.hi
    ensures GroupLast(db, q, i, k) == m
  {
    hide Stops;
    var n := GroupLast(db, q, i, k);
    var afterM, afterN := if m + 1 < k then db[m + 1] else db[m], if n + 1 < k then db[n + 1] else db[n];
  }

  /** A service extends to the last attribute before the next service of either kind. */
  const WHOLE := Query(0, 0xffff, Some(PRIM_UUID), None)

  ghost function ServiceEnd(db: seq<Attribute>, i: nat): u16
    requires i < |db|
  {
    db[GroupLast(db, WHOLE, i, |db|)].handle
  }

  method FindSvcRange(server: GattServer, start: u16) returns (found: Option<(Attribute, u16)>)
    requires Sorted(server.database)
    ensures !Used(server.database, start) ==> found == None
    ensures forall i: nat :: i < |server.database| && server.database[i].handle == start ==>
      found == if IsService(server.database[i].uuid) then Some((server.database[i], ServiceEnd(server.database, i)))
               else None
  {
    hide IsService, GroupLast, Stops;
    var db := server.database;
    var l := server.Find(start);
    if l == |db| {
      return None;
    }
    var attrib := db[l];
    if !IsService(attrib.uuid) {
      return None;
    }
    var end, k := start, l + 1;
    while k < |db| && !IsService(db[k].uuid)
      invariant l < k <= |db| && end == db[k - 1].handle
      invariant forall j :: l < j < k ==> !IsService(db[j].uuid)
    {
      end := db[k].handle;
      k := k + 1;
    }
    found := Some((attrib, end));
    WholeStops(db);
    GroupLastIs(db, WHOLE, l, |db|, k - 1);
  }

  lemma WholeStops(db: seq<Attribute>)
    ensures forall a :: a in db ==> (Stops(WHOLE, a) <==> IsService(a.uuid))
    ensures forall j :: 0 <= j < |db| ==> (Stops(WHOLE, db[j]) <==> IsService(db[j].uuid)) && db[j].handle <= WHOLE.hi
  {
  }

  lemma CutEnd(db: seq<Attribute>, q: Query, i: nat)
    requires Sorted(db) && i < |db| && db[i].handle <= q.hi
    requires forall j :: 0 <= j < |db| ==> (Stops(q, db[j]) <==> Stops(WHOLE, db[j])) && db[j].handle <= WHOLE.hi
    ensures db[GroupLast(db, q, i, |db|)].handle <= q.hi
    ensures ServiceEnd(db, i) <= q.hi ==> GroupLast(db, q, i, |db|) == GroupLast(db, WHOLE, i, |db|)
  {
    hide Stops;
    var m, n := GroupLast(db, q, i, |db|), GroupLast(db, WHOLE, i, |db|);
    hide GroupLast;
    assert db[m].handle <= q.hi;
    if db[n].handle <= q.hi {
      assert forall j :: 0 <= j < n ==> db[j].handle < db[n].handle;
      GroupLastIs(db, q, i, |db|, n);
    }
  }

  /** For a service type, a group cut off at the upper handle ends where the service ends
      exactly when the service does not reach beyond that handle. */
  lemma CutEndAgrees(db: seq<Attribute>, q: Query, i: nat)
    requires Sorted(db) && i < |db| && db[i].handle <= q.hi
    requires q.uuid.Some? && IsService(q.uuid.value)
    ensures db[GroupLast(db, q, i, |db|)].handle == ServiceEnd(db, i) <==> ServiceEnd(db, i) <= q.hi
    ensures q.hi >= 0xffff ==> db[GroupLast(db, q, i, |db|)].handle == ServiceEnd(db, i)
  {
    WholeStops(db);
    assert forall j :: 0 <= j < |db| ==> (Stops(q, db[j]) <==> Stops(WHOLE, db[j]));
    hide Stops, IsService, GroupLast;
    CutEnd(db, q, i);
  }

  // ----- find by type value -----

  datatype Range = Range(start: u16, end: u16)

  /** The ranges of the matches in idx, each group followed through the first k attributes. */
  ghost predicate RangesAre(db: seq<Attribute>, q: Query, idx: seq<nat>, k: nat, ranges: seq<Range>) {
    && k <= |db| && |ranges| == |idx|
    && forall j :: 0 <= j < |idx| ==>
         idx[j] < k && ranges[j] == Range(db[idx[j]].handle, db[GroupLast(db, q, idx[j], k)].handle)
  }

  /** The groups found among the first k attributes and the position of the last attribute of
      each so far; only the latest group may still be open. */
  ghost predicate Tracked(db: seq<Attribute>, q: Query, k: nat, idx: seq<nat>, lasts: seq<nat>, open: bool) {
    && k <= |db| && |lasts| == |idx| && (open ==> |idx| > 0 && lasts[|idx| - 1] == k - 1)
    && (forall j :: 0 <= j < |idx| ==> idx[j] <= lasts[j] < k && Open(db, q, idx[j], lasts[j] + 1))
    && (forall j :: 0 <= j < |idx| ==>
          (open && j == |idx| - 1) || (lasts[j] + 1 < k && Stops(q, db[lasts[j] + 1])))
  }

  /** A new group starts at k: every earlier one is closed. */
  lemma TrackNew(db: seq<Attribute>, q: Query, k: nat, idx: seq<nat>, lasts: seq<nat>, open: bool)
    requires k < |db| && Tracked(db, q, k, idx, lasts, open) && Stops(q, db[k])
    ensures Tracked(db, q, k + 1, idx + [k], lasts + [k], true)
  {
  }

  /** The attribute at k belongs to the open group. */
  lemma TrackInside(db: seq<Attribute>, q: Query, k: nat, idx: seq<nat>, lasts: seq<nat>)
    requires k < |db| && Tracked(db, q, k, idx, lasts, true) && !Stops(q, db[k]) && db[k].handle <= q.hi
    ensures Tracked(db, q, k + 1, idx, lasts[|idx| - 1 := k], true)
  {
  }

  /** The attribute at k closes the open group, or there is none. */
  lemma TrackOutside(db: seq<Attribute>, q: Query, k: nat, idx: seq<nat>, lasts: seq<nat>, open: bool)
    requires k < |db| && Tracked(db, q, k, idx, lasts, open) && (open ==> Stops(q, db[k]))
    ensures Tracked(db, q, k + 1, idx, lasts, false)
  {
  }

  lemma TrackEnd(db: seq<Attribute>, q: Query, k: nat, idx: seq<nat>, lasts: seq<nat>, open: bool, j: nat)
    requires Tracked(db, q, k, idx, lasts, open) && j < |idx|
    requires open && k < |db| ==> Stops(q, db[k]) || db[k].handle > q.hi
    ensures idx[j] < |db| && lasts[j] == GroupLast(db, q, idx[j], |db|)
  {
    hide Stops, GroupLast;
    GroupLastIs(db, q, idx[j], |db|, lasts[j]);
  }

  lemma HitsStop(q: Query, a: Attribute)
    requires Hits(q, a)
    ensures Stops(q, a)
  {
  }

  ghost predicate Shown(db: seq<Attribute>, idx: seq<nat>, lasts: seq<nat>, ranges: seq<Range>) {
    |ranges| == |idx| == |lasts| && forall j :: 0 <= j < |ranges| ==>
      idx[j] < |db| && lasts[j] < |db| && ranges[j] == Range(db[idx[j]].handle, db[lasts[j]].handle)
  }

  /** The state of the scan: matches so far, where their groups reach, and whether the last is open. */
  ghost predicate Following(db: seq<Attribute>, q: Query, k: nat, idx: seq<nat>, lasts: seq<nat>, open: bool,
                            ranges: seq<Range>) {
    k <= |db| && idx == Matches(db, q, k) && Tracked(db, q, k, idx, lasts, open) && Shown(db, idx, lasts, ranges)
  }

  lemma FollowNew(db: seq<Attribute>, q: Query, k: nat, idx: seq<nat>, lasts: seq<nat>, open: bool, ranges: seq<Range>)
    requires k < |db| && Following(db, q, k, idx, lasts, open, ranges) && Hits(q, db[k])
    ensures Following(db, q, k + 1, idx + [k], lasts + [k], true, ranges + [Range(db[k].handle, db[k].handle)])
  {
    HitsStop(q, db[k]);
    MatchesStep(db, q, k);
    hide Stops, Hits, Matches;
    TrackNew(db, q, k, idx, lasts, open);
  }

  lemma FollowInside(db: seq<Attribute>, q: Query, k: nat, idx: seq<nat>, lasts: seq<nat>, ranges: seq<Range>)
    requires k < |db| && Following(db, q, k, idx, lasts, true, ranges)
    requires !Stops(q, db[k]) && db[k].handle <= q.hi
    ensures |lasts| == |ranges| == |idx| > 0
    ensures Following(db, q, k + 1, idx, lasts[|idx| - 1 := k], true,
                      ranges[|idx| - 1 := Range(ranges[|idx| - 1].start, db[k].handle)])
  {
    assert !Hits(q, db[k]);
    MatchesStep(db, q, k);
    hide Stops, Hits, Matches;
    TrackInside(db, q, k, idx, lasts);
  }

  lemma FollowOutside(db: seq<Attribute>, q: Query, k: nat, idx: seq<nat>, lasts: seq<nat>, open: bool,
                      ranges: seq<Range>)
    requires k < |db| && Following(db, q, k, idx, lasts, open, ranges)
    requires !Hits(q, db[k]) && (open ==> Stops(q, db[k]))
    ensures Following(db, q, k + 1, idx, lasts, false, ranges)
  {
    MatchesStep(db, q, k);
    hide Stops, Hits, Matches;
    TrackOutside(db, q, k, idx, lasts, open);
  }

  lemma FollowStart(db: seq<Attribute>, q: Query)
    ensures Following(db, q, 0, [], [], false, [])
  {
  }

  lemma FollowEnd(db: seq<Attribute>, q: Query, k: nat, idx: seq<nat>, lasts: seq<nat>, open: bool, ranges: seq<Range>)
    requires Sorted(db) && Following(db, q, k, idx, lasts, open, ranges) && (k < |db| ==> db[k].handle > q.hi)
    ensures idx == Matches(db, q, |db|) && RangesAre(db, q, idx, |db|, ranges)
  {
    if k < |db| {
      MatchesDone(db, q, k, |db|);
    }
    forall j | 0 <= j < |idx|
      ensures idx[j] < |db| && ranges[j] == Range(db[idx[j]].handle, db[GroupLast(db, q, idx[j], |db|)].handle)
    {
      TrackEnd(db, q, k, idx, lasts, open, j);
    }
  }

  /** Exactly the matching attributes, each with the end of its group inside the range. */
  method FindByType(server: GattServer, start: u16, end: u16, uuid: Uuid, value: seq<byte>)
    returns (r: Response<Range>)
    requires Sorted(server.database)
    ensures start > end || start == 0 ==> r == Error(start, INVALID_HANDLE)
    ensures var q := Query(start, end, Some(uuid), Some(value));
            var idx := Matches(server.database, q, |server.database|);
            0 < start <= end ==>
              if idx == [] then r == Error(start, ATTR_NOT_FOUND)
              else r.Found? && RangesAre(server.database, q, idx, |server.database|, r.items)
  {
    if start > end || start == 0 {
      return Error(start, INVALID_HANDLE);
    }
    ghost var q := Query(start, end, Some(uuid), Some(value));
    var db := server.database;
    var matches: seq<Range>, open, k: nat := [], false, 0;
    ghost var idx: seq<nat>, lasts: seq<nat> := [], [];
    FollowStart(db, q);
    hide IsService, Matches, Following, RangesAre;
    while k < |db|
      invariant k <= |db| && Following(db, q, k, idx, lasts, open, matches)
      invariant |matches| == |idx| && (open ==> |matches| > 0)
      invariant open ==> k > 0 && db[k - 1].handle >= start
      decreases |db| - k
    {
      var a := db[k];
      assert k > 0 ==> db[k - 1].handle < a.handle;
      if a.handle < start {
        FollowOutside(db, q, k, idx, lasts, open, matches);
        k := k + 1;
        continue;
      }
      if a.handle > end {
        break;
      }
      if Same(a.uuid, uuid) && |a.data| == |value| && a.data == value {
        FollowNew(db, q, k, idx, lasts, open, matches);
        idx, lasts := idx + [k], lasts + [k];
        matches, open := matches + [Range(a.handle, a.handle)], true;
      } else if open {
        if IsService(a.uuid) {
          FollowOutside(db, q, k, idx, lasts, open, matches);
          open := false;
        } else {
          FollowInside(db, q, k, idx, lasts, matches);
          lasts := lasts[|idx| - 1 := k];
          matches := matches[|matches| - 1 := Range(matches[|matches| - 1].start, a.handle)];
        }
      } else {
        FollowOutside(db, q, k, idx, lasts, open, matches);
      }
      k := k + 1;
    }
    FollowEnd(db, q, k, idx, lasts, open, matches);
    return if matches == [] then Error(start, ATTR_NOT_FOUND) else Found(matches);
  }

  /** The ends that find_by_type reports for a service type are those of find_svc_range exactly
      for the services inside the requested range; up to 0xffff they always agree. */
  lemma FindByTypeAgrees(db: seq<Attribute>, q: Query, ranges: seq<Range>, j: nat)
    requires Sorted(db) && RangesAre(db, q, Matches(db, q, |db|), |db|, ranges) && j < |ranges|
    requires q.uuid.Some? && IsService(q.uuid.value)
    ensures var i := Matches(db, q, |db|)[j];
            && ranges[j].start == db[i].handle
            && (ranges[j].end == ServiceEnd(db, i) <==> ServiceEnd(db, i) <= q.hi)
            && (q.hi >= 0xffff ==> ranges[j].end == ServiceEnd(db, i))
  {
    hide IsService;
    CutEndAgrees(db, q, Matches(db, q, |db|)[j]);
  }

  // ----- read by type -----

  /** The common length that the scan has settled on: zero-length values leave it unset. */
  ghost function Size(db: seq<Attribute>, idx: seq<nat>): nat
    requires forall j :: 0 <= j < |idx| ==> idx[j] < |db|
  {
    if idx == [] then 0
    else if Size(db, idx[..|idx| - 1]) != 0 then Size(db, idx[..|idx| - 1])
    else |db[idx[|idx| - 1]].data|
  }

  ghost predicate Fits(size: nat, a: Attribute) {
    size == 0 || |a.data| == size
  }

  /** The first n matches are readable and each fits those before it. */
  ghost predicate Accepted(db: seq<Attribute>, idx: seq<nat>, n: nat, status: Attribute -> byte) {
    && n <= |idx| && (forall j :: 0 <= j < |idx| ==> idx[j] < |db|)
    && forall j :: 0 <= j < n ==> status(db[idx[j]]) == 0 && Fits(Size(db, idx[..j]), db[idx[j]])
  }

  /** read_by_type: permissions are checked before lengths. */
  ghost predicate TypeAnswer(db: seq<Attribute>, idx: seq<nat>, start: u16, status: Attribute -> byte,
                             r: Response<Attribute>) {
    match r
    case Error(h, code) =>
      (idx == [] && h == start && code == ATTR_NOT_FOUND)
      || exists n: nat :: Accepted(db, idx, n, status) && n < |idx|
           && h == db[idx[n]].handle && code == status(db[idx[n]]) && code != 0
    case Found(items) =>
      && 0 < |items| <= |idx| && Accepted(db, idx, |items|, status)
      && (forall j :: 0 <= j < |items| ==> items[j] == db[idx[j]])
      && (|items| < |idx| ==>
            status(db[idx[|items|]]) == 0 && !Fits(Size(db, idx[..|items|]), db[idx[|items|]]))
  }

  /** What the scan has gathered: the accepted matches so far and the length they settled on. */
  ghost predicate Gathered(db: seq<Attribute>, idx: seq<nat>, status: Attribute -> byte,
                           items: seq<Attribute>, size: nat) {
    && Accepted(db, idx, |idx|, status) && size == Size(db, idx)
    && |items| == |idx| && forall j :: 0 <= j < |idx| ==> items[j] == db[idx[j]]
  }

  lemma GatherStep(db: seq<Attribute>, idx: seq<nat>, status: Attribute -> byte, items: seq<Attribute>,
                   size: nat, k: nat)
    requires Gathered(db, idx, status, items, size) && k < |db| && status(db[k]) == 0 && Fits(size, db[k])
    ensures Gathered(db, idx + [k], status, items + [db[k]], if size == 0 then |db[k].data| else size)
  {
    var next := idx + [k];
    assert next[..|idx|] == idx;
    assert forall j :: 0 <= j <= |idx| ==> next[..j] == idx[..j];
  }

  /** The gathered matches are the first ones of all. */
  lemma GatheredPrefix(db: seq<Attribute>, all: seq<nat>, idx: seq<nat>, status: Attribute -> byte,
                       items: seq<Attribute>, size: nat)
    requires Gathered(db, idx, status, items, size) && idx <= all
    requires forall j :: 0 <= j < |all| ==> all[j] < |db|
    ensures Accepted(db, all, |idx|, status) && all[..|idx|] == idx && size == Size(db, all[..|idx|])
    ensures |items| == |idx| && forall j :: 0 <= j < |items| ==> items[j] == db[all[j]]
  {
    assert forall j :: 0 <= j <= |idx| ==> all[..j] == idx[..j];
  }

  /** The scan stops at the match at k with an error, or because its length differs. */
  lemma TypeStops(db: seq<Attribute>, all: seq<nat>, idx: seq<nat>, k: nat, start: u16, status: Attribute -> byte,
                  items: seq<Attribute>, size: nat)
    requires Gathered(db, idx, status, items, size) && k < |db| && idx + [k] <= all
    requires forall j :: 0 <= j < |all| ==> all[j] < |db|
    ensures status(db[k]) != 0 ==> TypeAnswer(db, all, start, status, Error(db[k].handle, status(db[k])))
    ensures status(db[k]) == 0 && !Fits(size, db[k]) ==> TypeAnswer(db, all, start, status, Found(items))
  {
    GatheredPrefix(db, all, idx, status, items, size);
    assert all[|idx|] == k;
    if !Fits(size, db[k]) {
      assert idx != [];
    }
  }

  lemma TypeEnds(db: seq<Attribute>, idx: seq<nat>, start: u16, status: Attribute -> byte,
                 items: seq<Attribute>, size: nat)
    requires Gathered(db, idx, status, items, size)
    ensures TypeAnswer(db, idx, start, status, if items == [] then Error(start, ATTR_NOT_FOUND) else Found(items))
  {
  }

  method ReadByType(server: GattServer, start: u16, end: u16, uuid: Uuid, status: Attribute -> byte)
    returns (r: Response<Attribute>)
    requires Sorted(server.database)
    ensures start > end || start == 0 ==> r == Error(start, INVALID_HANDLE)
    ensures 0 < start <= end ==>
      TypeAnswer(server.database, Matches(server.database, Query(start, end, Some(uuid), None), |server.database|),
                 start, status, r)
  {
    if start > end || start == 0 {
      return Error(start, INVALID_HANDLE);
    }
    ghost var q := Query(start, end, Some(uuid), None);
    var db := server.database;
    var types: seq<Attribute>, length: nat, k: nat := [], 0, 0;
    ghost var all, idx: seq<nat> := Matches(db, q, |db|), [];
    hide IsService, Matches, Gathered, TypeAnswer;
    NothingGathered(db, q, status);
    while k < |db|
      invariant k <= |db| && idx == Matches(db, q, k) && Gathered(db, idx, status, types, length)
      decreases |db| - k
    {
      var a := db[k];
      MatchesStep(db, q, k);
      if a.handle < start {
        k := k + 1;
        continue;
      }
      if a.handle > end {
        MatchesDone(db, q, k, |db|);
        break;
      }
      if !Same(a.uuid, uuid) {
        k := k + 1;
        continue;
      }
      MatchesGrow(db, q, k + 1, |db|);
      TypeStops(db, all, idx, k, start, status, types, length);
      var st := status(a);
      if st != 0 {
        return Error(a.handle, st);
      }
      ghost var size := length;
      if length == 0 {
        length := |a.data|;
      } else if |a.data| != length {
        return Found(types);
      }
      GatherStep(db, idx, status, types, size, k);
      types, idx := types + [a], idx + [k];
      k := k + 1;
    }
    TypeEnds(db, idx, start, status, types, length);
    return if types == [] then Error(start, ATTR_NOT_FOUND) else Found(types);
  }

  lemma NothingGathered(db: seq<Attribute>, q: Query, status: Attribute -> byte)
    ensures Matches(db, q, 0) == [] && Gathered(db, [], status, [], 0)
  {
  }

  /** When the first match is not empty, the answer is the longest run of matches that all have
      its length, in strictly ascending handle order. */
  lemma TypeAnswerIsUniform(db: seq<Attribute>, idx: seq<nat>, start: u16, status: Attribute -> byte,
                            items: seq<Attribute>)
    requires Sorted(db) && TypeAnswer(db, idx, start, status, Found(items))
    requires forall i, j :: 0 <= i < j < |idx| ==> idx[i] < idx[j]
    requires db[idx[0]].data != []
    ensures forall j :: 0 <= j < |items| ==> |items[j].data| == |db[idx[0]].data|
    ensures |items| < |idx| ==> |db[idx[|items|]].data| != |db[idx[0]].data|
    ensures Sorted(items)
  {
    forall n | 0 < n <= |items|
      ensures Size(db, idx[..n]) == |db[idx[0]].data|
    {
      SizeOfNonempty(db, idx, n, status);
    }
    forall j | 0 <= j < |items|
      ensures |items[j].data| == |db[idx[0]].data|
    {
      if j > 0 {
        assert Fits(Size(db, idx[..j]), db[idx[j]]);
      }
    }
  }

  lemma {:induction false} SizeOfNonempty(db: seq<Attribute>, idx: seq<nat>, n: nat, status: Attribute -> byte)
    requires 0 < n <= |idx| && forall j :: 0 <= j < |idx| ==> idx[j] < |db|
    requires db[idx[0]].data != []
    ensures Size(db, idx[..n]) == |db[idx[0]].data|
  {
    assert idx[..n][..n - 1] == idx[..n - 1];
    if n == 1 {
      assert Size(db, idx[..0]) == 0;
    } else {
      SizeOfNonempty(db, idx, n - 1, status);
    }
  }

  /** When all values of an answer have one length: exactly if the first match is not empty, or no
      match has a value at all. */
  lemma UniformExactlyIf(db: seq<Attribute>, idx: seq<nat>, start: u16, status: Attribute -> byte,
                         items: seq<Attribute>)
    requires Sorted(db) && TypeAnswer(db, idx, start, status, Found(items))
    requires forall i, j :: 0 <= i < j < |idx| ==> idx[i] < idx[j]
    ensures (forall i, j :: 0 <= i < |items| && 0 <= j < |items| ==> |items[i].data| == |items[j].data|)
       <==> db[idx[0]].data != [] || forall j :: 0 <= j < |idx| ==> db[idx[j]].data == []
  {
    if db[idx[0]].data != [] {
      TypeAnswerIsUniform(db, idx, start, status, items);
    } else if forall j :: 0 <= j < |items| ==> db[idx[j]].data == [] {
      NoSize(db, idx[..|items|]);
    } else {
      var j :| 0 <= j < |items| && db[idx[j]].data != [];
      assert |items[j].data| != |items[0].data|;
    }
  }

  lemma {:induction false} NoSize(db: seq<Attribute>, idx: seq<nat>)
    requires forall j :: 0 <= j < |idx| ==> idx[j] < |db| && db[idx[j]].data == []
    ensures Size(db, idx) == 0
  {
    if idx != [] {
      NoSize(db, idx[..|idx| - 1]);
    }
  }

  /** An empty first match leaves the length open: values of two lengths are returned together. */
  lemma EmptyFirstMatchMixesLengths(uuid: Uuid, status: Attribute -> byte)
    requires forall a :: status(a) == 0
    ensures var db := [Attribute(1, uuid, 0, 0, []), Attribute(2, uuid, 0, 0, [7])];
            Sorted(db) && TypeAnswer(db, Matches(db, Query(1, 2, Some(uuid), None), 2), 1, status, Found(db))
  {
    var db := [Attribute(1, uuid, 0, 0, []), Attribute(2, uuid, 0, 0, [7])];
    MatchesOfTwo(db, Query(1, 2, Some(uuid), None));
    hide Matches, Same;
    MixedAnswer(db, status);
  }

  lemma MixedAnswer(db: seq<Attribute>, status: Attribute -> byte)
    requires |db| == 2 && db[0].data == [] && forall a :: status(a) == 0
    ensures TypeAnswer(db, [0, 1], 1, status, Found(db))
  {
    var idx: seq<nat> := [0, 1];
    assert idx[..1] == [0] && idx[..0] == [] && idx[..1][..0] == [];
    assert Size(db, idx[..0]) == 0 && Size(db, idx[..1]) == 0;
  }

  /** Of two attributes, the first is a match. */
  lemma MatchesOfTwo(db: seq<Attribute>, q: Query)
    requires |db| == 2 && Hits(q, db[0])
    ensures Matches(db, q, 2) == if Hits(q, db[1]) then [0, 1] else [0]
  {
    MatchesStep(db, q, 0);
    MatchesStep(db, q, 1);
    assert Matches(db, q, 0) == [];
    hide Matches, Hits;
  }

  // ----- find information -----

  datatype InfoReply = InfoError(handle: u16, code: byte) | Info(format: byte, items: seq<Attribute>) | Silent

  predicate SameWidth(u: Uuid, v: Uuid) {
    (u.Uuid16? && v.Uuid16?) || (u.Uuid32? && v.Uuid32?) || (u.Uuid128? && v.Uuid128?)
  }

  /** The longest run of attributes in range whose UUIDs have the width of the first one. */
  ghost predicate WidthRun(db: seq<Attribute>, idx: seq<nat>, items: seq<Attribute>) {
    && 0 < |items| <= |idx| && (forall j :: 0 <= j < |idx| ==> idx[j] < |db|)
    && (forall j :: 0 <= j < |items| ==> items[j] == db[idx[j]] && SameWidth(items[j].uuid, db[idx[0]].uuid))
    && (|items| < |idx| ==> !SameWidth(db[idx[|items|]].uuid, db[idx[0]].uuid))
  }

  ghost predicate InfoAnswer(db: seq<Attribute>, idx: seq<nat>, start: u16, r: InfoReply) {
    match r
    case InfoError(h, code) => idx == [] && h == start && code == ATTR_NOT_FOUND
    case Info(format, items) =>
      && WidthRun(db, idx, items)
      && ((items[0].uuid.Uuid16? && format == 1) || (items[0].uuid.Uuid128? && format == 2))
    case Silent => exists items: seq<Attribute> :: WidthRun(db, idx, items) && items[0].uuid.Uuid32?
  }

  ghost predicate Collected(db: seq<Attribute>, idx: seq<nat>, items: seq<Attribute>) {
    && |items| == |idx| && (forall j :: 0 <= j < |idx| ==> idx[j] < |db|)
    && forall j :: 0 <= j < |idx| ==> items[j] == db[idx[j]] && SameWidth(items[j].uuid, items[0].uuid)
  }

  lemma CollectStep(db: seq<Attribute>, idx: seq<nat>, items: seq<Attribute>, k: nat)
    requires Collected(db, idx, items) && k < |db|
    requires items == [] || SameWidth(db[k].uuid, items[0].uuid)
    ensures Collected(db, idx + [k], items + [db[k]])
  {
  }

  /** The scan stops behind the last match, or at the first one of another width. */
  lemma CollectEnd(db: seq<Attribute>, q: Query, k: nat, items: seq<Attribute>)
    requires Sorted(db) && k <= |db| && Collected(db, Matches(db, q, k), items) && items != []
    requires k < |db| ==> db[k].handle > q.hi || (Hits(q, db[k]) && !SameWidth(db[k].uuid, items[0].uuid))
    ensures WidthRun(db, Matches(db, q, |db|), items)
  {
    MatchesSoFar(db, q, k);
    hide SameWidth, Hits, Matches, Sorted;
    CollectedPrefix(db, Matches(db, q, |db|), Matches(db, q, k), items, k);
  }

  lemma CollectedPrefix(db: seq<Attribute>, all: seq<nat>, idx: seq<nat>, items: seq<Attribute>, k: nat)
    requires Collected(db, idx, items) && items != [] && forall j :: 0 <= j < |all| ==> all[j] < |db|
    requires idx == all || (k < |db| && idx + [k] <= all && !SameWidth(db[k].uuid, items[0].uuid))
    ensures WidthRun(db, all, items)
  {
    hide SameWidth;
    assert forall j :: 0 <= j < |idx| ==> all[j] == idx[j];
    assert idx == all || all[|idx|] == k;
  }

  method FindInfo(server: GattServer, start: u16, end: u16) returns (r: InfoReply)
    requires Sorted(server.database)
    ensures start > end || start == 0 ==> r == InfoError(start, INVALID_HANDLE)
    ensures 0 < start <= end ==>
      InfoAnswer(server.database, Matches(server.database, Query(start, end, None, None), |server.database|), start, r)
  {
    if start > end || start == 0 {
      return InfoError(start, INVALID_HANDLE);
    }
    ghost var q := Query(start, end, None, None);
    var db := server.database;
    var info: seq<Attribute>, k: nat := [], 0;
    assert Matches(db, q, 0) == [];
    assert Collected(db, [], []);
    hide Matches, Collected, WidthRun, SameWidth, Sorted;
    while k < |db|
      invariant k <= |db| && |info| == |Matches(db, q, k)| && Collected(db, Matches(db, q, k), info)
      decreases |db| - k
    {
      var a := db[k];
      MatchesStep(db, q, k);
      if a.handle < start {
        k := k + 1;
        continue;
      }
      if a.handle > end || (info != [] && !SameWidth(a.uuid, info[0].uuid)) {
        break;
      }
      CollectStep(db, Matches(db, q, k), info, k);
      info := info + [a];
      k := k + 1;
    }
    if info == [] {
      MatchesSoFar(db, q, k);
      return InfoError(start, ATTR_NOT_FOUND);
    }
    CollectEnd(db, q, k, info);
    match info[0].uuid
    case Uuid16(_) => r := Info(1, info);
    case Uuid128(_) => r := Info(2, info);
    case Uuid32(_) => r := Silent;
  }

  // ----- read by group type -----

  datatype Group = Group(handle: u16, end: u16, data: seq<byte>)

  /** The scan went through the whole list: no length stopped it, and no handle reached the end. */
  ghost predicate RanOff(db: seq<Attribute>, q: Query, idx: seq<nat>, n: nat) {
    n == |idx| && forall i :: 0 <= i < |db| ==> db[i].handle <= q.hi
  }

  /** The end of a group is cut at the upper handle; the last one runs on to the end of the database
      when the scan does. */
  ghost predicate GroupsAre(db: seq<Attribute>, q: Query, idx: seq<nat>, groups: seq<Group>) {
    && 0 < |groups| <= |idx| && (forall j :: 0 <= j < |idx| ==> idx[j] < |db|)
    && forall j :: 0 <= j < |groups| ==>
         && groups[j].handle == db[idx[j]].handle && groups[j].data == db[idx[j]].data
         && groups[j].end == if j == |groups| - 1 && RanOff(db, q, idx, |groups|) then db[|db| - 1].handle
                             else db[GroupLast(db, q, idx[j], |db|)].handle
  }

  /** read_by_group: lengths are compared before permissions are checked. */
  ghost predicate GroupAnswer(db: seq<Attribute>, q: Query, idx: seq<nat>, start: u16, status: Attribute -> byte,
                              r: Response<Group>) {
    match r
    case Error(h, code) =>
      (idx == [] && h == start && code == ATTR_NOT_FOUND)
      || exists n: nat :: Accepted(db, idx, n, status) && n < |idx| && Fits(Size(db, idx[..n]), db[idx[n]])
           && h == db[idx[n]].handle && code == status(db[idx[n]]) && code != 0
    case Found(groups) =>
      && GroupsAre(db, q, idx, groups) && Accepted(db, idx, |groups|, status)
      && (|groups| < |idx| ==> !Fits(Size(db, idx[..|groups|]), db[idx[|groups|]]))
  }

  /** The groups as the scan holds them: the end of an open one is still to be written. */
  ghost predicate Written(groups: seq<Group>, items: seq<Attribute>, ranges: seq<Range>, open: bool, lastHandle: u16) {
    && |groups| == |items| == |ranges| && (open ==> |groups| > 0)
    && (|groups| > 0 ==> lastHandle == ranges[|groups| - 1].end)
    && forall j :: 0 <= j < |groups| ==>
         && groups[j].handle == ranges[j].start && groups[j].data == items[j].data
         && (j < |groups| - 1 || !open ==> groups[j].end == ranges[j].end)
  }

  /** What a scan for groups is proved about: the groups so far and whether the last one is open. */
  datatype Trace = Trace(idx: seq<nat>, lasts: seq<nat>, open: bool, ranges: seq<Range>, items: seq<Attribute>)

  ghost predicate Scanning(db: seq<Attribute>, q: Query, status: Attribute -> byte, k: nat, t: Trace, size: nat) {
    && Following(db, q, k, t.idx, t.lasts, t.open, t.ranges) && Gathered(db, t.idx, status, t.items, size)
    && k <= |db| && forall i :: 0 <= i < k ==> db[i].handle <= q.hi
  }

  ghost predicate Grouping(db: seq<Attribute>, q: Query, status: Attribute -> byte, k: nat, t: Trace,
                           groups: seq<Group>, open: bool, size: nat, lastHandle: u16) {
    Scanning(db, q, status, k, t, size) && Written(groups, t.items, t.ranges, open, lastHandle)
  }

  lemma NoGroupsYet(db: seq<Attribute>, q: Query, status: Attribute -> byte, end: u16)
    ensures Grouping(db, q, status, 0, Trace([], [], false, [], []), [], false, 0, end)
  {
    FollowStart(db, q);
    NothingGathered(db, q, status);
  }

  lemma FoundAbove(db: seq<Attribute>, q: Query, k: nat)
    requires Sorted(db) && k < |db| && Matches(db, q, k) != []
    ensures q.lo <= db[k].handle
  {
    assert Hits(q, db[Matches(db, q, k)[0]]);
  }

  /** Below the range nothing has been found yet. */
  lemma GroupBelow(db: seq<Attribute>, q: Query, status: Attribute -> byte, k: nat, t: Trace,
                   groups: seq<Group>, open: bool, size: nat, lastHandle: u16)
    requires Sorted(db) && k < |db| && db[k].handle < q.lo && db[k].handle <= q.hi
    requires Grouping(db, q, status, k, t, groups, open, size, lastHandle)
    ensures !t.open && Grouping(db, q, status, k + 1, t, groups, open, size, lastHandle)
  {
    hide Stops, GroupLast, Gathered, Written;
    if t.idx != [] {
      FoundAbove(db, q, k);
      assert false;
    }
    FollowOutside(db, q, k, t.idx, t.lasts, t.open, t.ranges);
  }

  lemma GroupClose(db: seq<Attribute>, q: Query, status: Attribute -> byte, k: nat, t: Trace,
                   groups: seq<Group>, size: nat, lastHandle: u16)
    requires Grouping(db, q, status, k, t, groups, true, size, lastHandle)
    ensures |groups| > 0 && Grouping(db, q, status, k, t, Finished(groups, lastHandle), false, size, lastHandle)
    ensures Finished(groups, lastHandle) != []
  {
    hide Scanning;
  }

  lemma GroupInside(db: seq<Attribute>, q: Query, status: Attribute -> byte, k: nat, t: Trace,
                    groups: seq<Group>, size: nat, lastHandle: u16) returns (t': Trace)
    requires Grouping(db, q, status, k, t, groups, true, size, lastHandle) && t.open
    requires k < |db| && !Stops(q, db[k]) && db[k].handle <= q.hi
    ensures t'.open && Grouping(db, q, status, k + 1, t', groups, true, size, db[k].handle)
  {
    hide Stops, Gathered, Following;
    var n := |t.idx| - 1;
    FollowInside(db, q, k, t.idx, t.lasts, t.ranges);
    t' := t.(lasts := t.lasts[n := k], ranges := t.ranges[n := Range(t.ranges[n].start, db[k].handle)]);
  }

  lemma GroupOutside(db: seq<Attribute>, q: Query, status: Attribute -> byte, k: nat, t: Trace,
                     groups: seq<Group>, size: nat, lastHandle: u16) returns (t': Trace)
    requires Grouping(db, q, status, k, t, groups, false, size, lastHandle)
    requires k < |db| && db[k].handle <= q.hi && !Hits(q, db[k]) && (t.open ==> Stops(q, db[k]))
    ensures !t'.open && Grouping(db, q, status, k + 1, t', groups, false, size, lastHandle)
  {
    hide Stops, Hits, Gathered, Following, Written;
    FollowOutside(db, q, k, t.idx, t.lasts, t.open, t.ranges);
    t' := t.(open := false);
  }

  lemma GroupNew(db: seq<Attribute>, q: Query, status: Attribute -> byte, k: nat, t: Trace,
                 groups: seq<Group>, size: nat, lastHandle: u16) returns (t': Trace)
    requires Grouping(db, q, status, k, t, groups, false, size, lastHandle)
    requires k < |db| && db[k].handle <= q.hi && Hits(q, db[k]) && status(db[k]) == 0 && Fits(size, db[k])
    ensures t'.open && Grouping(db, q, status, k + 1, t', groups + [Group(db[k].handle, 0, db[k].data)],
                                true, |db[k].data|, db[k].handle)
  {
    hide Hits, Gathered, Following;
    FollowNew(db, q, k, t.idx, t.lasts, t.open, t.ranges);
    GatherStep(db, t.idx, status, t.items, size, k);
    t' := Trace(t.idx + [k], t.lasts + [k], true, t.ranges + [Range(db[k].handle, db[k].handle)], t.items + [db[k]]);
  }

  lemma GroupError(db: seq<Attribute>, q: Query, status: Attribute -> byte, k: nat, t: Trace,
                   groups: seq<Group>, open: bool, size: nat, lastHandle: u16, start: u16)
    requires Sorted(db) && Grouping(db, q, status, k, t, groups, open, size, lastHandle)
    requires k < |db| && Hits(q, db[k]) && Fits(size, db[k]) && status(db[k]) != 0
    ensures GroupAnswer(db, q, Matches(db, q, |db|), start, status, Error(db[k].handle, status(db[k])))
  {
    hide Written;
    MatchesSoFar(db, q, k);
    var all := Matches(db, q, |db|);
    hide Matches, Following;
    GatheredPrefix(db, all, t.idx, status, t.items, size);
    assert all[|t.idx|] == k;
  }

  lemma NoGroups(db: seq<Attribute>, q: Query, status: Attribute -> byte, k: nat, t: Trace,
                 open: bool, size: nat, lastHandle: u16, start: u16)
    requires Sorted(db) && Grouping(db, q, status, k, t, [], open, size, lastHandle)
    requires k < |db| ==> db[k].handle > q.hi || !Fits(size, db[k])
    ensures GroupAnswer(db, q, Matches(db, q, |db|), start, status, Error(start, ATTR_NOT_FOUND))
  {
    MatchesSoFar(db, q, k);
  }

  /** Where the scan stops, the range of every group is that of the group in the whole database. */
  lemma ScanRanges(db: seq<Attribute>, q: Query, status: Attribute -> byte, k: nat, t: Trace, size: nat)
    requires Scanning(db, q, status, k, t, size)
    requires k < |db| ==> Stops(q, db[k]) || db[k].handle > q.hi
    ensures |t.ranges| == |t.items| == |t.idx|
    ensures forall j :: 0 <= j < |t.idx| ==> t.idx[j] < |db| && t.items[j] == db[t.idx[j]]
    ensures forall j :: 0 <= j < |t.idx| ==>
      t.ranges[j] == Range(db[t.idx[j]].handle, db[GroupLast(db, q, t.idx[j], |db|)].handle)
  {
    hide GroupLast, Matches, Stops;
    forall j | 0 <= j < |t.idx|
      ensures t.idx[j] < |db| && t.lasts[j] == GroupLast(db, q, t.idx[j], |db|)
    {
      hide Gathered, Shown;
      TrackEnd(db, q, k, t.idx, t.lasts, t.open, j);
    }
  }

  function Finished(groups: seq<Group>, end: u16): seq<Group>
    requires groups != []
  {
    groups[|groups| - 1 := groups[|groups| - 1].(end := end)]
  }

  lemma GroupFound(db: seq<Attribute>, q: Query, status: Attribute -> byte, k: nat, t: Trace,
                   groups: seq<Group>, open: bool, size: nat, lastHandle: u16, start: u16)
    requires Sorted(db) && groups != [] && Grouping(db, q, status, k, t, groups, open, size, lastHandle)
    requires k < |db| ==> db[k].handle > q.hi || (Hits(q, db[k]) && !Fits(size, db[k]))
    ensures |db| > 0 && GroupAnswer(db, q, Matches(db, q, |db|), start, status,
                        Found(Finished(groups, if k == |db| then db[|db| - 1].handle else lastHandle)))
  {
    MatchesSoFar(db, q, k);
    var all := Matches(db, q, |db|);
    var out := Finished(groups, if k == |db| then db[|db| - 1].handle else lastHandle);
    assert k < |db| ==> Stops(q, db[k]) || db[k].handle > q.hi;
    hide GroupLast, Hits, Stops, Following, Matches;
    GatheredPrefix(db, all, t.idx, status, t.items, size);
    assert RanOff(db, q, all, |groups|) <==> k == |db|;
    hide Gathered, RanOff, Accepted, Scanning;
    ScanRanges(db, q, status, k, t, size);
    OutIsRight(db, q, all, t, k, groups, open, lastHandle);
  }

  lemma OutIsRight(db: seq<Attribute>, q: Query, all: seq<nat>, t: Trace, k: nat, groups: seq<Group>, open: bool,
                   lastHandle: u16)
    requires groups != [] && db != [] && Written(groups, t.items, t.ranges, open, lastHandle)
    requires |t.items| == |t.idx| && t.idx <= all && forall j :: 0 <= j < |all| ==> all[j] < |db|
    requires forall j :: 0 <= j < |t.idx| ==> t.items[j] == db[t.idx[j]]
    requires forall j :: 0 <= j < |t.idx| ==>
      t.ranges[j] == Range(db[t.idx[j]].handle, db[GroupLast(db, q, t.idx[j], |db|)].handle)
    requires k == |db| <==> RanOff(db, q, all, |groups|)
    ensures GroupsAre(db, q, all, Finished(groups, if k == |db| then db[|db| - 1].handle else lastHandle))
  {
    hide RanOff, GroupLast;
    assert forall j :: 0 <= j < |t.idx| ==> t.idx[j] == all[j];
  }

  method ReadByGroup(server: GattServer, start: u16, end: u16, uuid: Uuid, status: Attribute -> byte)
    returns (r: Response<Group>)
    requires Sorted(server.database)
    ensures start > end || start == 0 ==> r == Error(start, INVALID_HANDLE)
    ensures 0 < start <= end && !IsService(uuid) ==> r == Error(0, UNSUPP_GRP_TYPE)
    ensures 0 < start <= end && IsService(uuid) ==>
      var q := Query(start, end - 1, Some(uuid), None);
      GroupAnswer(server.database, q, Matches(server.database, q, |server.database|), start, status, r)
  {
    if start > end || start == 0 {
      return Error(start, INVALID_HANDLE);
    }
    if !IsService(uuid) {
      return Error(0, UNSUPP_GRP_TYPE);
    }
    ghost var q := Query(start, end - 1, Some(uuid), None);
    var db := server.database;
    var groups: seq<Group>, open, lastHandle, lastSize: nat, k: nat := [], false, end, 0, 0;
    ghost var t := Trace([], [], false, [], []);
    NoGroupsYet(db, q, status, end);
    hide Scanning, Grouping, GroupAnswer, GroupsAre, Matches, Hits, Stops, Following, Gathered, Written;
    hide Finished, Sorted, Like, Accepted, Size, IsService, Same;
    while k < |db|
      invariant k <= |db| && t.open == open && Grouping(db, q, status, k, t, groups, open, lastSize, lastHandle)
      invariant open ==> groups != []
      decreases |db| - k
    {
      var a := db[k];
      if a.handle < start {
        GroupBelow(db, q, status, k, t, groups, open, lastSize, lastHandle);
        k := k + 1;
        continue;
      }
      if a.handle >= end {
        break;
      }
      GroupStarts(q, a, lastSize);
      if open && IsService(a.uuid) {
        GroupClose(db, q, status, k, t, groups, lastSize, lastHandle);
        groups := Finished(groups, lastHandle);
        open := false;
      }
      if !Same(a.uuid, uuid) {
        if open {
          t := GroupInside(db, q, status, k, t, groups, lastSize, lastHandle);
          lastHandle := a.handle;
        } else {
          t := GroupOutside(db, q, status, k, t, groups, lastSize, lastHandle);
        }
        k := k + 1;
        continue;
      }
      if lastSize != 0 && lastSize != |a.data| {
        break;
      }
      var st := status(a);
      if st != 0 {
        GroupError(db, q, status, k, t, groups, open, lastSize, lastHandle, start);
        return Error(a.handle, st);
      }
      t := GroupNew(db, q, status, k, t, groups, lastSize, lastHandle);
      groups := groups + [Group(a.handle, 0, a.data)];
      lastSize, open, lastHandle := |a.data|, true, a.handle;
      k := k + 1;
    }
    if groups == [] {
      NoGroups(db, q, status, k, t, open, lastSize, lastHandle, start);
      return Error(start, ATTR_NOT_FOUND);
    }
    GroupFound(db, q, status, k, t, groups, open, lastSize, lastHandle, start);
    return Found(Finished(groups, if k == |db| then db[|db| - 1].handle else lastHandle));
  }

  /** A request for groups names a service type: its matches are among the services. */
  lemma GroupStarts(q: Query, a: Attribute, size: nat)
    requires q.uuid.Some? && IsService(q.uuid.value) && q.value == None
    ensures Stops(q, a) <==> IsService(a.uuid)
    ensures Hits(q, a) <==> q.lo <= a.handle <= q.hi && Same(a.uuid, q.uuid.value)
    ensures Same(a.uuid, q.uuid.value) ==> IsService(a.uuid)
    ensures Fits(size, a) <==> size == 0 || |a.data| == size
  {
  }

  /** Where read_by_group reports the end of find_svc_range: always for a group that another one
      follows. The last group reports it exactly if no service of the other kind follows, when the
      scan ran off the list, and exactly if the service ends within the range, when it did not. */
  lemma GroupEndsAgree(db: seq<Attribute>, q: Query, groups: seq<Group>, j: nat)
    requires Sorted(db) && q.uuid.Some? && IsService(q.uuid.value)
    requires GroupsAre(db, q, Matches(db, q, |db|), groups) && j < |groups|
    ensures var idx := Matches(db, q, |db|);
            var agrees := groups[j].end == ServiceEnd(db, idx[j]);
            && (j < |idx| - 1 ==> agrees)
            && (j == |idx| - 1 ==>
                  if RanOff(db, q, idx, |groups|)
                  then agrees <==> forall i :: idx[j] < i < |db| ==> !IsService(db[i].uuid)
                  else agrees <==> ServiceEnd(db, idx[j]) <= q.hi)
  {
    var idx := Matches(db, q, |db|);
    hide Matches;
    assert forall i :: 0 <= i < |idx| ==> Hits(q, db[idx[i]]);
    CutEndAgrees(db, q, idx[j]);
    WholeStops(db);
    if j < |idx| - 1 {
      assert IsService(db[idx[j + 1]].uuid);
      hide IsService, Stops, Like;
      assert GroupLast(db, WHOLE, idx[j], |db|) < idx[j + 1];
    } else if RanOff(db, q, idx, |groups|) {
      hide IsService, Stops, Like;
      var m := GroupLast(db, WHOLE, idx[j], |db|);
      assert m < |db| - 1 ==> db[m].handle < db[|db| - 1].handle;
      if m == |db| - 1 {
        assert Open(db, WHOLE, idx[j], |db|);
      }
    }
  }

  /** Some match does not have the length that those before it settled on. */
  ghost predicate Misfit(db: seq<Attribute>, idx: seq<nat>) {
    exists n: nat :: n < |idx| && (forall j :: 0 <= j < |idx| ==> idx[j] < |db|)
      && !Fits(Size(db, idx[..n]), db[idx[n]])
  }

  lemma StoppedByMisfit(db: seq<Attribute>, q: Query, idx: seq<nat>, start: u16, status: Attribute -> byte,
                        groups: seq<Group>)
    requires GroupAnswer(db, q, idx, start, status, Found(groups))
    ensures Misfit(db, idx) <==> |groups| < |idx|
  {
    hide Size, GroupLast, Fits;
  }

  /** Up to 0xffff, with nothing at 0xffff itself: every group ends where its service does exactly if
      some match does not fit the common length, or the last service of the database has the
      requested type. */
  lemma AllGroupEndsAgree(db: seq<Attribute>, q: Query, start: u16, status: Attribute -> byte, groups: seq<Group>)
    requires Sorted(db) && q.uuid.Some? && IsService(q.uuid.value) && q.hi == 0xfffe
    requires GroupAnswer(db, q, Matches(db, q, |db|), start, status, Found(groups))
    requires forall a :: a in db ==> a.handle < 0xffff
    ensures var idx := Matches(db, q, |db|);
            (forall j :: 0 <= j < |groups| ==> groups[j].end == ServiceEnd(db, idx[j]))
            <==> (Misfit(db, idx) || forall i :: idx[|idx| - 1] < i < |db| ==> !IsService(db[i].uuid))
  {
    hide IsService, Stops, Like, ServiceEnd, Hits, GroupLast;
    var idx := Matches(db, q, |db|);
    StoppedByMisfit(db, q, idx, start, status, groups);
    hide Misfit, Accepted, Fits, Size;
    forall j | 0 <= j < |groups|
      ensures groups[j].end == ServiceEnd(db, idx[j]) <==>
              (j < |idx| - 1 || forall i :: idx[|idx| - 1] < i < |db| ==> !IsService(db[i].uuid))
    {
      GroupEndsAgree(db, q, groups, j);
    }
  }

  /** A secondary service behind the last primary one is taken for a part of it. */
  lemma SecondaryServiceIsSwallowed(status: Attribute -> byte)
    requires forall a :: status(a) == 0
    ensures var db := [Attribute(1, PRIM_UUID, 0, 0, [0, 24]), Attribute(2, SND_UUID, 0, 0, [15, 24])];
            var q := Query(1, 0xfffe, Some(PRIM_UUID), None);
            && Sorted(db) && ServiceEnd(db, 0) == 1
            && GroupAnswer(db, q, Matches(db, q, 2), 1, status, Found([Group(1, 2, [0, 24])]))
  {
    var db := [Attribute(1, PRIM_UUID, 0, 0, [0, 24]), Attribute(2, SND_UUID, 0, 0, [15, 24])];
    var q := Query(1, 0xfffe, Some(PRIM_UUID), None);
    MatchesOfTwo(db, q);
    GroupLastIs(db, WHOLE, 0, 2, 0);
    hide Matches, Stops, Like;
    OneGroup(db, q, status);
  }

  /** The only match is the first of two attributes, and the scan runs off the list. */
  lemma OneGroup(db: seq<Attribute>, q: Query, status: Attribute -> byte)
    requires |db| == 2 && db[0].handle <= q.hi && db[1].handle <= q.hi && forall a :: status(a) == 0
    ensures GroupAnswer(db, q, [0], 1, status, Found([Group(db[0].handle, db[1].handle, db[0].data)]))
  {
    var idx: seq<nat> := [0];
    hide GroupLast;
    assert RanOff(db, q, idx, 1) && idx[..0] == [] && Size(db, idx[..0]) == 0;
  }
}
