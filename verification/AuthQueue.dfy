/** The queue of service authorizations: each accepted request is answered exactly once, in order,
    unless it is withdrawn. */
module AuthQueue {
  import opened Bytes
  import opened Sequences

  /** A queued request; waits says that the services of its device are not resolved yet, agent that
      an agent has been asked. */
  datatype Auth = Auth(id: nat, device: nat, waits: bool, agent: bool)

  datatype Verdict = Authorized | Rejected | AgentSaid(error: bool)

  datatype Answer = Answer(id: nat, verdict: Verdict)

  /** What asking for an agent comes to: there is none, it does not take the request, it takes it. */
  datatype Asking = NoAgent | Refuses | Takes

  function Ids(q: seq<Auth>): (r: seq<nat>)
    ensures |r| == |q| && forall i :: 0 <= i < |q| ==> r[i] == q[i].id
  {
    if q == [] then [] else [q[0].id] + Ids(q[1..])
  }

  function AnswerIds(s: seq<Answer>): (r: seq<nat>)
    ensures |r| == |s| && forall i :: 0 <= i < |s| ==> r[i] == s[i].id
  {
    if s == [] then [] else [s[0].id] + AnswerIds(s[1..])
  }

  ghost predicate Increasing(s: seq<nat>) {
    forall i, j :: 0 <= i < j < |s| ==> s[i] < s[j]
  }

  /** The history of the queue: which requests it accepted, answered in turn, answered because their
      device went away, and dropped without an answer. */
  datatype History = History(accepted: seq<nat>, served: seq<Answer>, canceled: seq<nat>, dropped: seq<nat>)

  /** The requests that were served, then those that are queued. */
  ghost function Path(q: seq<Auth>, h: History): seq<nat> {
    AnswerIds(h.served) + Ids(q)
  }

  /** Nothing is lost and nothing is answered twice. */
  ghost predicate Conserved(q: seq<Auth>, h: History) {
    multiset(h.accepted) == multiset(Path(q, h)) + multiset(h.canceled) + multiset(h.dropped)
  }

  ghost predicate Line(s: seq<nat>, last: nat) {
    Increasing(s) && forall i :: 0 <= i < |s| ==> s[i] <= last
  }

  /** Requests are accepted, served and queued in the order of their numbers. */
  ghost predicate InOrder(q: seq<Auth>, h: History, last: nat) {
    Line(h.accepted, last) && Line(Path(q, h), last)
  }

  /** Only the head of the queue holds an agent, and exactly then the agent still has to answer it. */
  ghost predicate AgentAtHead(q: seq<Auth>, asked: set<nat>, last: nat) {
    && (forall i :: 0 < i < |q| ==> !q[i].agent)
    && (forall i :: 0 <= i < |q| ==> (q[i].agent <==> q[i].id in asked))
    && (forall id :: id in asked ==> id <= last)
  }

  /** Each accepted request is in exactly one place, once. */
  lemma ExactlyOnePlace(q: seq<Auth>, h: History, last: nat, id: nat)
    requires Conserved(q, h) && InOrder(q, h, last) && id in h.accepted
    ensures multiset(Path(q, h))[id] + multiset(h.canceled)[id] + multiset(h.dropped)[id] == 1
  {
    OnceEach(h.accepted, id);
  }

  lemma {:induction false} OnceEach(s: seq<nat>, id: nat)
    requires Increasing(s) && id in s
    ensures multiset(s)[id] == 1
  {
    var n := |s| - 1;
    assert s == s[..n] + [s[n]];
    if s[n] == id {
      assert forall i :: 0 <= i < n ==> s[..n][i] < id;
      assert id !in s[..n];
    } else {
      OnceEach(s[..n], id);
    }
  }

  // ----- steps -----

  lemma LineGrows(s: seq<nat>, last: nat)
    requires Line(s, last)
    ensures Line(s + [last + 1], last + 1)
  {
  }

  lemma LineWithout(s: seq<nat>, last: nat, i: nat)
    requires Line(s, last) && i < |s|
    ensures Line(Without(s, i), last)
    ensures multiset(s) == multiset(Without(s, i)) + multiset{s[i]}
  {
    WithoutIsOneLess(s, i);
    WithoutAt(s, i);
  }

  lemma PushKeeps(q: seq<Auth>, h: History, asked: set<nat>, last: nat, a: Auth)
    requires Conserved(q, h) && InOrder(q, h, last) && AgentAtHead(q, asked, last) && a.id == last + 1 && !a.agent
    ensures var h' := h.(accepted := h.accepted + [a.id]);
            Conserved(q + [a], h') && InOrder(q + [a], h', a.id) && AgentAtHead(q + [a], asked, a.id)
  {
    var h' := h.(accepted := h.accepted + [a.id]);
    PathPush(q, h, h', a);
    hide Path, Line, AgentAtHead;
    AgentPush(q, h, asked, last, a);
    LineGrows(Path(q, h), last);
    LineGrows(h.accepted, last);
  }

  lemma PathPush(q: seq<Auth>, h: History, h': History, a: Auth)
    requires h'.served == h.served
    ensures Path(q + [a], h') == Path(q, h) + [a.id]
  {
    assert Ids(q + [a]) == Ids(q) + [a.id];
  }

  lemma AgentPush(q: seq<Auth>, h: History, asked: set<nat>, last: nat, a: Auth)
    requires AgentAtHead(q, asked, last) && a.id == last + 1 && !a.agent
    ensures AgentAtHead(q + [a], asked, a.id)
  {
  }

  /** The head is answered. */
  lemma ServeKeeps(q: seq<Auth>, h: History, asked: set<nat>, last: nat, v: Verdict)
    requires Conserved(q, h) && InOrder(q, h, last) && AgentAtHead(q, asked, last) && q != []
    ensures var h' := h.(served := h.served + [Answer(q[0].id, v)]);
            Conserved(q[1..], h') && InOrder(q[1..], h', last) && AgentAtHead(q[1..], asked, last)
  {
    PathServe(q, h, h.(served := h.served + [Answer(q[0].id, v)]), v);
    assert AgentAtHead(q[1..], asked, last);
    hide Line, Path, AgentAtHead;
  }

  lemma PathServe(q: seq<Auth>, h: History, h': History, v: Verdict)
    requires q != [] && h'.served == h.served + [Answer(q[0].id, v)]
    ensures Path(q[1..], h') == Path(q, h)
  {
    AnswerIdsGrow(h.served, Answer(q[0].id, v));
    var served, rest := AnswerIds(h.served), Ids(q[1..]);
    assert Ids(q) == [q[0].id] + rest;
    hide AnswerIds, Ids;
    assert (served + [q[0].id]) + rest == served + ([q[0].id] + rest);
  }

  lemma AnswerIdsGrow(s: seq<Answer>, a: Answer)
    ensures AnswerIds(s + [a]) == AnswerIds(s) + [a.id]
  {
    hide AnswerIds;
  }

  /** No other request has the number of the one at i. */
  lemma PathIsDistinct(q: seq<Auth>, h: History, last: nat, i: nat)
    requires InOrder(q, h, last) && i < |q|
    ensures forall j :: 0 <= j < |q| && j != i ==> q[j].id != q[i].id
  {
    var p, n := Path(q, h), |h.served|;
    assert forall j :: 0 <= j < |q| ==> p[n + j] == q[j].id;
  }

  /** A request leaves the queue from anywhere; its agent is told. */
  lemma LeaveKeepsOrder(q: seq<Auth>, h: History, asked: set<nat>, last: nat, i: nat, h': History)
    requires InOrder(q, h, last) && AgentAtHead(q, asked, last) && i < |q|
    requires h'.served == h.served && h'.accepted == h.accepted
    ensures InOrder(Without(q, i), h', last)
    ensures AgentAtHead(Without(q, i), if q[i].agent then asked - {q[i].id} else asked, last)
    ensures multiset(Path(q, h)) == multiset(Path(Without(q, i), h')) + multiset{q[i].id}
  {
    PathIsDistinct(q, h, last, i);
    PathLeaves(q, h, last, i, h');
    hide Line, Path, AgentAtHead, Without;
    AgentWithout(q, asked, last, i);
  }

  lemma PathLeaves(q: seq<Auth>, h: History, last: nat, i: nat, h': History)
    requires Line(Path(q, h), last) && i < |q| && h'.served == h.served
    ensures Line(Path(Without(q, i), h'), last)
    ensures multiset(Path(q, h)) == multiset(Path(Without(q, i), h')) + multiset{q[i].id}
  {
    hide Line, Without, Ids, AnswerIds;
    var s, t := AnswerIds(h.served), Ids(q);
    IdsWithout(q, i);
    WithoutBehind(s, t, i);
    LineWithout(s + t, last, |s| + i);
  }

  lemma {:induction false} IdsWithout(q: seq<Auth>, i: nat)
    requires i < |q|
    ensures Ids(Without(q, i)) == Without(Ids(q), i)
  {
    WithoutFirst(q, i);
    WithoutFirst(Ids(q), i);
    assert Ids(q)[1..] == Ids(q[1..]);
    hide Without;
    if i > 0 {
      IdsWithout(q[1..], i - 1);
      assert ([q[0]] + Without(q[1..], i - 1))[1..] == Without(q[1..], i - 1);
    }
  }

  lemma CancelKeeps(q: seq<Auth>, h: History, asked: set<nat>, last: nat, i: nat)
    requires Conserved(q, h) && InOrder(q, h, last) && AgentAtHead(q, asked, last) && i < |q|
    ensures var h' := h.(canceled := h.canceled + [q[i].id]);
            Conserved(Without(q, i), h') && InOrder(Without(q, i), h', last)
    ensures AgentAtHead(Without(q, i), if q[i].agent then asked - {q[i].id} else asked, last)
  {
    LeaveKeepsOrder(q, h, asked, last, i, h.(canceled := h.canceled + [q[i].id]));
    hide Path, InOrder, AgentAtHead, Without;
  }

  lemma DropKeeps(q: seq<Auth>, h: History, asked: set<nat>, last: nat, i: nat)
    requires Conserved(q, h) && InOrder(q, h, last) && AgentAtHead(q, asked, last) && i < |q|
    ensures var h' := h.(dropped := h.dropped + [q[i].id]);
            Conserved(Without(q, i), h') && InOrder(Without(q, i), h', last)
    ensures AgentAtHead(Without(q, i), if q[i].agent then asked - {q[i].id} else asked, last)
  {
    LeaveKeepsOrder(q, h, asked, last, i, h.(dropped := h.dropped + [q[i].id]));
    hide Path, InOrder, AgentAtHead, Without;
  }

  lemma AgentWithout(q: seq<Auth>, asked: set<nat>, last: nat, i: nat)
    requires AgentAtHead(q, asked, last) && i < |q|
    requires forall j :: 0 <= j < |q| && j != i ==> q[j].id != q[i].id
    ensures AgentAtHead(Without(q, i), if q[i].agent then asked - {q[i].id} else asked, last)
  {
    var r := Without(q, i);
    assert forall j :: 0 <= j < |r| ==> r[j] == if j < i then q[j] else q[j + 1];
  }

  /** A request stops waiting, or the head gets an agent. */
  lemma ChangeKeeps(q: seq<Auth>, h: History, asked: set<nat>, last: nat, i: nat, a: Auth)
    requires Conserved(q, h) && InOrder(q, h, last) && AgentAtHead(q, asked, last) && i < |q|
    requires a.id == q[i].id && (a.agent == q[i].agent || (i == 0 && a.agent))
    ensures Conserved(q[i := a], h) && InOrder(q[i := a], h, last)
    ensures AgentAtHead(q[i := a], if a.agent then asked + {a.id} else asked, last)
    ensures q[i].agent ==> asked + {a.id} == asked
  {
    assert Path(q[i := a], h) == Path(q, h);
    PathIsDistinct(q, h, last, i);
    assert a.id <= last by { assert Path(q, h)[|h.served| + i] == a.id; }
    hide Line, Path;
  }

  /** What process_auth_queue makes of the requests it takes: each in front is answered for this reason. */
  ghost predicate Processed(q: seq<Auth>, n: nat, trusted: nat -> bool, asking: nat -> Asking, answers: seq<Answer>) {
    && n <= |q| && |answers| == n
    && forall i :: 0 <= i < n ==>
         && !q[i].waits
         && (trusted(q[i].device) || (!q[i].agent && !asking(q[i].id).Takes?))
         && answers[i] == Answer(q[i].id, if trusted(q[i].device) then Authorized else Rejected)
  }

  lemma NothingProcessed(q: seq<Auth>, trusted: nat -> bool, asking: nat -> Asking)
    ensures Processed(q, 0, trusted, asking, [])
  {
  }

  lemma ProcessedMore(q: seq<Auth>, n: nat, trusted: nat -> bool, asking: nat -> Asking, answers: seq<Answer>)
    requires Processed(q, n, trusted, asking, answers) && n < |q| && !q[n].waits
    requires trusted(q[n].device) || (!q[n].agent && !asking(q[n].id).Takes?)
    ensures Processed(q, n + 1, trusted, asking,
              answers + [Answer(q[n].id, if trusted(q[n].device) then Authorized else Rejected)])
  {
  }

  /** The whole effect of process_auth_queue: it answers requests from the head until one has to wait,
      for its services or for an agent, which may just have been asked. */
  ghost predicate ProcessOutcome(q: seq<Auth>, h: History, trusted: nat -> bool, asking: nat -> Asking,
                                 q': seq<Auth>, h': History) {
    exists n: nat, answers: seq<Answer> ::
      && Processed(q, n, trusted, asking, answers) && h' == h.(served := h.served + answers)
      && StopsAt(q, n, trusted, asking, q')
  }

  ghost predicate StopsAt(q: seq<Auth>, n: nat, trusted: nat -> bool, asking: nat -> Asking, q': seq<Auth>) {
    if n >= |q| then q' == []
    else if q[n].waits then q' == q[n..]
    else !trusted(q[n].device)
         && if q[n].agent then q' == q[n..]
            else asking(q[n].id).Takes? && q' == [q[n].(agent := true)] + q[n + 1..]
  }

  /** The queue without the requests of a device, and the numbers of these, both in order. */
  function Others(q: seq<Auth>, device: nat): seq<Auth> {
    if q == [] then []
    else Others(q[..|q| - 1], device) + if q[|q| - 1].device == device then [] else [q[|q| - 1]]
  }

  function IdsOf(q: seq<Auth>, device: nat): seq<nat> {
    if q == [] then []
    else IdsOf(q[..|q| - 1], device) + if q[|q| - 1].device == device then [q[|q| - 1].id] else []
  }

  lemma NothingSplit(device: nat)
    ensures Others([], device) == [] && IdsOf([], device) == []
  {
  }

  lemma SplitMore(q: seq<Auth>, p: nat, device: nat)
    requires p < |q|
    ensures var front, back := Others(q[..p], device), q[p + 1..];
            && front + q[p..] == front + [q[p]] + back
            && Others(q[..p + 1], device) == (if q[p].device == device then front else front + [q[p]])
            && Without(front + q[p..], |front|) == front + back
    ensures IdsOf(q[..p + 1], device) == IdsOf(q[..p], device) + if q[p].device == device then [q[p].id] else []
  {
    assert q[..p + 1][..p] == q[..p];
    assert q[p..] == [q[p]] + q[p + 1..];
  }

  class Authorizations {
    var queue: seq<Auth>
    var lastId: nat
    /** The number of the idle source is set, and the source will run. */
    var idle: bool
    var armed: bool
    var asked: set<nat>
    ghost var history: History

    ghost predicate Valid()
      reads this
    {
      && Conserved(queue, history) && InOrder(queue, history, lastId) && AgentAtHead(queue, asked, lastId)
      && (armed ==> idle)
    }

    /** The request at the head is waited for by someone, or the queue will be processed. */
    ghost predicate Attended()
      reads this
    {
      queue == [] || !Ready(queue[0]) || armed
    }

    /** The number of a source that has been removed: no other one is ever added. */
    ghost predicate Stale()
      reads this
    {
      idle && !armed
    }

    constructor ()
      ensures Valid() && queue == [] && Attended() && !Stale()
    {
      queue, lastId, idle, armed, asked := [], 0, false, false, {};
      history := History([], [], [], []);
    }

    /** adapter_authorize: 0 refuses the request; otherwise it is queued under a new number. */
    method Authorize(device: Option<nat>, disconnecting: bool, waits: bool) returns (id: nat)
      requires Valid()
      modifies this
      ensures Valid()
      ensures id == 0 <==> device == None || disconnecting
      ensures id == 0 ==> queue == old(queue) && history == old(history)
      ensures id != 0 ==> queue == old(queue) + [Auth(id, device.value, waits, false)]
      ensures idle == (old(idle) || (id != 0 && !waits)) && armed == (old(armed) || (id != 0 && !waits && !old(idle)))
      ensures asked == old(asked) && lastId == old(lastId) + if id == 0 then 0 else 1
      ensures id != 0 ==> id == lastId
      ensures id != 0 ==> history == old(history).(accepted := old(history).accepted + [id])
    {
      hide Conserved, InOrder, AgentAtHead;
      if device == None || disconnecting {
        return 0;
      }
      PushKeeps(queue, history, asked, lastId, Auth(lastId + 1, device.value, waits, false));
      lastId := lastId + 1;
      id := lastId;
      if !waits && !idle {
        idle, armed := true, true;
      }
      queue := queue + [Auth(id, device.value, waits, false)];
      history := history.(accepted := history.accepted + [id]);
    }

    method FindAuthorization(id: nat) returns (i: nat)
      ensures i <= |queue| && (i < |queue| ==> queue[i].id == id)
      ensures i == |queue| ==> id !in Ids(queue)
    {
      i := 0;
      while i < |queue| && queue[i].id != id
        invariant i <= |queue| && forall j :: 0 <= j < i ==> queue[j].id != id
      {
        i := i + 1;
      }
    }

    /** btd_cancel_authorization: the request disappears without an answer. */
    method Cancel(id: nat) returns (found: bool)
      requires Valid()
      modifies this`queue, this`history, this`asked
      ensures Valid()
      ensures found <==> id in Ids(old(queue))
      ensures !found ==> queue == old(queue) && history == old(history)
      ensures found ==> exists i :: 0 <= i < |old(queue)| && old(queue)[i].id == id && queue == Without(old(queue), i)
      ensures found ==> history == old(history).(dropped := old(history).dropped + [id])
      ensures asked == if found then old(asked) - {id} else old(asked)
    {
      hide Conserved, InOrder, AgentAtHead;
      var i := FindAuthorization(id);
      if i == |queue| {
        return false;
      }
      assert Ids(queue)[i] == id;
      AgentIsAsked(queue, asked, lastId, i);
      DropKeeps(queue, history, asked, lastId, i);
      history := history.(dropped := history.dropped + [id]);
      if queue[i].agent {
        asked := asked - {id};
      }
      queue := Without(queue, i);
      found := true;
    }

    /** The services of a device are resolved: its request no longer waits. */
    method ServicesComplete(id: nat)
      requires Valid() && id in Ids(queue)
      modifies this`queue, this`idle, this`armed
      ensures Valid() && idle && armed == (old(armed) || !old(idle))
      ensures exists i ::
        0 <= i < |queue| && queue[i].id == id && |old(queue)| == |queue|
        && queue == old(queue)[i := old(queue)[i].(waits := false)]
    {
      hide Conserved, InOrder, AgentAtHead;
      var i := FindAuthorization(id);
      ChangeKeeps(queue, history, asked, lastId, i, queue[i].(waits := false));
      queue := queue[i := queue[i].(waits := false)];
      if idle {
        return;
      }
      idle, armed := true, true;
    }

    /** The device of some requests goes away: they are answered with Canceled. */
    method RemoveDevice(device: nat)
      requires Valid()
      modifies this`queue, this`history, this`asked
      ensures Valid()
      ensures queue == Others(old(queue), device)
      ensures history == old(history).(canceled := old(history).canceled + IdsOf(old(queue), device))
      ensures forall id :: id in asked <==> id in old(asked) && id !in IdsOf(old(queue), device)
    {
      hide Conserved, InOrder, AgentAtHead, Others, IdsOf, Without;
      var k := 0;
      ghost var q, p := queue, 0;
      NothingSplit(device);
      while k < |queue|
        invariant Valid() && p <= |q| && k == |Others(q[..p], device)|
        invariant queue == Others(q[..p], device) + q[p..]
        invariant history == old(history).(canceled := old(history).canceled + IdsOf(q[..p], device))
        invariant forall id :: id in asked <==> id in old(asked) && id !in IdsOf(q[..p], device)
        decreases |queue| - k
      {
        var a := queue[k];
        assert a == q[p];
        SplitMore(q, p, device);
        p := p + 1;
        if a.device != device {
          k := k + 1;
          continue;
        }
        AgentIsAsked(queue, asked, lastId, k);
        CancelKeeps(queue, history, asked, lastId, k);
        history := history.(canceled := history.canceled + [a.id]);
        if a.agent {
          asked := asked - {a.id};
        }
        queue := Without(queue, k);
      }
      assert q[..p] == q && q[p..] == [];
    }

    /** agent_auth_cb, for the agent that was asked about a request: whatever is at the head is answered.
        That is the request which was asked about exactly if it is still queued. */
    method AgentReply(about: nat, error: bool)
      requires Valid() && about in asked
      modifies this`queue, this`history, this`asked, this`idle, this`armed
      ensures Valid() && asked == old(asked) - {about} && idle == (old(idle) || queue != [])
      ensures armed == if old(|queue|) == 1 then false else if queue != [] && !old(idle) then true else old(armed)
      ensures old(queue) == [] ==> queue == [] && history == old(history)
      ensures old(queue) != [] ==>
        && queue == old(queue)[1..]
        && history == old(history).(served := old(history).served + [Answer(old(queue)[0].id, AgentSaid(error))])
        && (old(queue)[0].id == about <==> about in Ids(old(queue)))
    {
      hide Conserved, InOrder, AgentAtHead;
      AskedIsHead(queue, history, asked, lastId, about);
      if queue != [] {
        ServeKeeps(queue, history, asked, lastId, AgentSaid(error));
        history := history.(served := history.served + [Answer(queue[0].id, AgentSaid(error))]);
        queue := queue[1..];
        if queue == [] {
          // the source is removed, but its number stays
          armed := false;
        } else if !idle {
          idle, armed := true, true;
        }
      }
      asked := asked - {about};
    }

    /** process_auth_queue */
    method Process(trusted: nat -> bool, asking: nat -> Asking)
      requires Valid()
      modifies this`queue, this`history, this`asked, this`idle, this`armed
      ensures Valid() && !idle && !armed && Attended()
      ensures ProcessOutcome(old(queue), old(history), trusted, asking, queue, history)
      ensures asked == old(asked) + if queue != [] && queue[0].agent then {queue[0].id} else {}
    {
      hide Conserved, InOrder, AgentAtHead, Processed;
      idle, armed := false, false;
      ghost var q, h, answers: seq<Answer>, n: nat := queue, history, [], 0;
      NothingProcessed(q, trusted, asking);
      while queue != []
        invariant Valid() && !idle && !armed && n <= |q| && queue == q[n..]
        invariant Processed(q, n, trusted, asking, answers)
        invariant history == h.(served := h.served + answers) && asked == old(asked)
        decreases |queue|
      {
        var auth := queue[0];
        AskedAtHead(queue, asked, lastId);
        if auth.waits {
          assert StopsAt(q, n, trusted, asking, queue);
          return;
        }
        if !trusted(auth.device) {
          if auth.agent {
            assert StopsAt(q, n, trusted, asking, queue);
            return;
          }
          if asking(auth.id).Takes? {
            ChangeKeeps(queue, history, asked, lastId, 0, auth.(agent := true));
            asked := asked + {auth.id};
            queue := queue[0 := auth.(agent := true)];
            assert queue == [q[n].(agent := true)] + q[n + 1..];
            assert StopsAt(q, n, trusted, asking, queue);
            return;
          }
        }
        var verdict := if trusted(auth.device) then Authorized else Rejected;
        ServeKeeps(queue, history, asked, lastId, verdict);
        ProcessedMore(q, n, trusted, asking, answers);
        history := history.(served := history.served + [Answer(auth.id, verdict)]);
        queue := queue[1..];
        answers, n := answers + [Answer(auth.id, verdict)], n + 1;
      }
      assert StopsAt(q, n, trusted, asking, queue);
    }

    /** After which events nobody attends to the head: the one in front of it leaves without the queue
        being processed, or the number of the source is stale. */
    ghost predicate Neglects(e: Event)
      reads this
    {
      match e
      case Request(device, disconnecting, waits) => queue == [] && device.Some? && !disconnecting && !waits && Stale()
      case Withdrawn(id) => |queue| > 1 && queue[0].id == id && Ready(queue[1]) && !armed
      case Resolved(id) => queue != [] && queue[0].id == id && !queue[0].agent && Stale()
      case Removed(gone) => Others(queue, gone) != [] && Ready(Others(queue, gone)[0]) && !armed
      case Replied(about, _) => about in asked && |queue| > 1 && Ready(queue[1]) && Stale()
      case Idle(_, _) => false
    }

    /** The reply to the last request while the source is to run, as another one has been withdrawn. */
    ghost predicate GoesStale(e: Event)
      reads this
    {
      e.Replied? && e.about in asked && |queue| == 1 && idle
    }

    /** One event. It leaves the head attended to exactly if it does not neglect it. */
    method Step(e: Event)
      requires Valid()
      modifies this
      ensures Valid()
      ensures old(Attended()) ==> (Attended() <==> !old(Neglects(e)))
      ensures Stale() <==> old(Stale()) || old(GoesStale(e))
      ensures old(Stale()) ==> OnlyReplies(old(history), |old(asked)|, history, |asked|)
    {
      hide Conserved, InOrder, AgentAtHead, Others, IdsOf, OnlyReplies, Without, ProcessOutcome;
      ghost var q, h, n := queue, history, |asked|;
      match e
      case Request(device, disconnecting, waits) =>
        var _ := Authorize(device, disconnecting, waits);
        NoReplies(h, n, history, |asked|);
      case Withdrawn(id) =>
        var found := Cancel(id);
        if found {
          HeadAfterLeave(q, h, lastId, id, queue);
        }
        FewerAsked(old(asked), asked);
        NoReplies(h, n, history, |asked|);
      case Resolved(id) =>
        var i := FindAuthorization(id);
        if i < |queue| {
          assert Ids(queue)[i] == id;
          ServicesComplete(id);
          HeadAfterChange(q, h, lastId, id, queue);
        }
        NoReplies(h, n, history, |asked|);
      case Removed(gone) =>
        RemoveDevice(gone);
        FewerAsked(old(asked), asked);
        NoReplies(h, n, history, |asked|);
      case Replied(about, error) =>
        if about in asked {
          AgentReply(about, error);
          OneReply(h, n, history, |asked|);
        } else {
          NoReplies(h, n, history, |asked|);
        }
      case Idle(trusted, asking) =>
        if armed {
          Process(trusted, asking);
        } else {
          NoReplies(h, n, history, |asked|);
        }
    }

    /** Over every run: nothing is lost, nothing is answered twice, and answers come in order. Once the
        number of the source is stale no request is processed any more. */
    method Run(events: seq<Event>)
      requires Valid()
      modifies this
      ensures Valid()
      ensures old(Stale()) ==> Stale() && OnlyReplies(old(history), |old(asked)|, history, |asked|)
    {
      hide Conserved, InOrder, AgentAtHead, OnlyReplies;
      NoReplies(history, |asked|, history, |asked|);
      for k := 0 to |events|
        invariant Valid()
        invariant old(Stale()) ==> Stale() && OnlyReplies(old(history), |old(asked)|, history, |asked|)
      {
        ghost var h, n := history, |asked|;
        Step(events[k]);
        if old(Stale()) {
          StillReplies(old(history), |old(asked)|, h, n, history, |asked|);
        }
      }
    }
  }

  /** The request waits neither for services nor for an agent. */
  predicate Ready(a: Auth) {
    !a.waits && !a.agent
  }

  /** Whatever has been answered since comes from replies that were still to come, each of them once. */
  ghost predicate OnlyReplies(h: History, asked: nat, h': History, asked': nat) {
    && |h.served| <= |h'.served| && h'.served[..|h.served|] == h.served
    && |h'.served| + asked' <= |h.served| + asked
    && forall i :: |h.served| <= i < |h'.served| ==> h'.served[i].verdict.AgentSaid?
  }

  lemma StillReplies(h0: History, n0: nat, h: History, n: nat, h': History, n': nat)
    requires OnlyReplies(h0, n0, h, n) && OnlyReplies(h, n, h', n')
    ensures OnlyReplies(h0, n0, h', n')
  {
    var k := |h.served|;
    assert forall i :: 0 <= i < k ==> h'.served[i] == h'.served[..k][i];
    assert h'.served[..|h0.served|] == h.served[..|h0.served|];
  }

  lemma NoReplies(h: History, n: nat, h': History, n': nat)
    requires h'.served == h.served && n' <= n
    ensures OnlyReplies(h, n, h', n')
  {
  }

  lemma OneReply(h: History, n: nat, h': History, n': nat)
    requires n' < n && (h'.served == h.served
                        || exists a: Answer :: a.verdict.AgentSaid? && h'.served == h.served + [a])
    ensures OnlyReplies(h, n, h', n')
  {
  }

  lemma FewerAsked(asked: set<nat>, asked': set<nat>)
    requires asked' <= asked
    ensures |asked'| <= |asked|
  {
    if asked' != {} {
      var id :| id in asked';
      FewerAsked(asked - {id}, asked' - {id});
    }
  }

  lemma AgentIsAsked(q: seq<Auth>, asked: set<nat>, last: nat, i: nat)
    requires AgentAtHead(q, asked, last) && i < |q|
    ensures q[i].agent <==> q[i].id in asked
    ensures (if q[i].agent then asked - {q[i].id} else asked) == asked - {q[i].id}
  {
  }

  /** The head after a request has left: the next one exactly if it was the head. */
  lemma HeadAfterLeave(q: seq<Auth>, h: History, last: nat, id: nat, q': seq<Auth>)
    requires InOrder(q, h, last) && exists i :: 0 <= i < |q| && q[i].id == id && q' == Without(q, i)
    ensures if q[0].id == id then q' == q[1..] else q' != [] && q'[0] == q[0]
  {
    var i :| 0 <= i < |q| && q[i].id == id && q' == Without(q, i);
    PathIsDistinct(q, h, last, i);
    WithoutFirst(q, i);
  }

  lemma HeadAfterChange(q: seq<Auth>, h: History, last: nat, id: nat, q': seq<Auth>)
    requires InOrder(q, h, last)
    requires exists i :: 0 <= i < |q'| && q'[i].id == id && |q| == |q'| && q' == q[i := q[i].(waits := false)]
    ensures |q| == |q'| > 0 && q'[0] == if q[0].id == id then q[0].(waits := false) else q[0]
  {
    var i :| 0 <= i < |q'| && q'[i].id == id && |q| == |q'| && q' == q[i := q[i].(waits := false)];
    PathIsDistinct(q, h, last, i);
  }

  /** A late reply goes to the wrong request: a was asked about, then answered because its device had
      become trusted when c came; what the agent says about a afterwards is taken for an answer to b. */
  method LateReply(auths: Authorizations, a: nat, b: nat, c: nat, error: bool)
    returns (idA: nat, idB: nat, idC: nat)
    requires auths.Valid() && auths.queue == [] && !auths.idle
    modifies auths
    ensures auths.Valid() && auths.queue == [Auth(idC, c, false, false)] && idA < idB < idC
    ensures auths.history.accepted == old(auths.history.accepted) + [idA, idB, idC]
    ensures auths.history.served == old(auths.history.served) + [Answer(idA, Authorized), Answer(idB, AgentSaid(error))]
  {
    hide Conserved, InOrder, AgentAtHead;
    idA := auths.Authorize(Some(a), false, false);
    idB := auths.Authorize(Some(b), false, true);
    ghost var q, h := auths.queue, auths.history;
    assert auths.armed && q == [Auth(idA, a, false, false), Auth(idB, b, true, false)];
    auths.Process(d => false, id => Takes);
    HeadIsAsked(q, h, auths.queue, auths.history);
    idC := auths.Authorize(Some(c), false, false);
    q, h := auths.queue, auths.history;
    assert auths.armed && q == [Auth(idA, a, false, true), Auth(idB, b, true, false), Auth(idC, c, false, false)];
    AskedAtHead(q, auths.asked, auths.lastId);
    auths.Process(d => d == a, id => Takes);
    HeadIsTrusted(q, h, a, auths.queue, auths.history);
    auths.AgentReply(idA, error);
  }

  /** A request behind one that waits is not processed when that one is withdrawn. */
  method WithdrawnHead(auths: Authorizations, a: nat, b: nat) returns (idB: nat)
    requires auths.Valid() && auths.queue == [] && !auths.idle
    modifies auths
    ensures auths.Valid() && auths.queue == [Auth(idB, b, false, false)] && !auths.Attended()
  {
    hide Conserved, InOrder, AgentAtHead;
    var idA := auths.Authorize(Some(a), false, true);
    idB := auths.Authorize(Some(b), false, false);
    ghost var q, h := auths.queue, auths.history;
    assert auths.armed && q == [Auth(idA, a, true, false), Auth(idB, b, false, false)];
    auths.Process(d => true, id => Takes);
    HeadWaits(q, h, auths.queue, auths.history);
    assert Ids(auths.queue)[0] == idA;
    var _ := auths.Cancel(idA);
  }

  /** The source is armed by b, which is withdrawn; the reply to a finds nothing else and leaves a stale
      number behind. */
  method BecomeStale(auths: Authorizations, a: nat, b: nat, error: bool) returns (idA: nat)
    requires auths.Valid() && auths.queue == [] && !auths.idle && auths.asked == {}
    modifies auths
    ensures auths.Valid() && auths.Stale() && auths.queue == [] && auths.asked == {} && idA <= auths.lastId
    ensures auths.history.served == old(auths.history.served) + [Answer(idA, AgentSaid(error))]
  {
    hide Conserved, InOrder, AgentAtHead;
    idA := auths.Authorize(Some(a), false, false);
    ghost var q, h := auths.queue, auths.history;
    assert auths.armed && q == [Auth(idA, a, false, false)];
    auths.Process(d => false, id => Takes);
    HeadIsAsked(q, h, auths.queue, auths.history);
    var idB := auths.Authorize(Some(b), false, false);
    assert auths.queue == [Auth(idA, a, false, true), Auth(idB, b, false, false)];
    assert Ids(auths.queue)[1] == idB;
    var _ := auths.Cancel(idB);
    assert auths.queue == [Auth(idA, a, false, true)];
    auths.AgentReply(idA, error);
  }

  /** Then c is never answered, nor is anything that comes later. */
  method StaleSource(auths: Authorizations, a: nat, b: nat, c: nat, error: bool, events: seq<Event>)
    returns (idA: nat, idC: nat)
    requires auths.Valid() && auths.queue == [] && !auths.idle && auths.asked == {}
    modifies auths
    ensures auths.Valid() && auths.Stale() && idA < idC
    ensures auths.history.served == old(auths.history.served) + [Answer(idA, AgentSaid(error))]
  {
    hide Conserved, InOrder, AgentAtHead;
    idA := BecomeStale(auths, a, b, error);
    idC := auths.Authorize(Some(c), false, false);
    assert auths.queue == [Auth(idC, c, false, false)] && !auths.Attended();
    ghost var h := auths.history;
    auths.Run(events);
    assert auths.history.served == auths.history.served[..|h.served|];
  }

  lemma AskedAtHead(q: seq<Auth>, asked: set<nat>, last: nat)
    requires AgentAtHead(q, asked, last) && q != []
    ensures q[0].agent ==> q[0].id in asked && asked + {q[0].id} == asked
  {
  }

  lemma HeadIsAsked(q: seq<Auth>, h: History, q': seq<Auth>, h': History)
    requires ProcessOutcome(q, h, d => false, id => Takes, q', h')
    requires q != [] && !q[0].waits && !q[0].agent
    ensures q' == [q[0].(agent := true)] + q[1..] && h' == h
  {
    var n: nat, answers: seq<Answer> :|
      && Processed(q, n, d => false, id => Takes, answers) && h' == h.(served := h.served + answers)
      && StopsAt(q, n, d => false, id => Takes, q');
    assert n == 0 && answers == [];
  }

  lemma HeadIsTrusted(q: seq<Auth>, h: History, a: nat, q': seq<Auth>, h': History)
    requires ProcessOutcome(q, h, d => d == a, id => Takes, q', h')
    requires |q| > 1 && q[0].device == a && !q[0].waits && q[1].waits
    ensures q' == q[1..] && h' == h.(served := h.served + [Answer(q[0].id, Authorized)])
  {
    var n: nat, answers: seq<Answer> :|
      && Processed(q, n, d => d == a, id => Takes, answers) && h' == h.(served := h.served + answers)
      && StopsAt(q, n, d => d == a, id => Takes, q');
    assert n == 1 && answers == [Answer(q[0].id, Authorized)];
  }

  lemma HeadWaits(q: seq<Auth>, h: History, q': seq<Auth>, h': History)
    requires ProcessOutcome(q, h, d => true, id => Takes, q', h') && q != [] && q[0].waits
    ensures q' == q && h' == h
  {
    var n: nat, answers: seq<Answer> :|
      && Processed(q, n, d => true, id => Takes, answers) && h' == h.(served := h.served + answers)
      && StopsAt(q, n, d => true, id => Takes, q');
    assert n == 0 && answers == [];
  }

  datatype Event =
    | Request(device: Option<nat>, disconnecting: bool, waits: bool)
    | Withdrawn(id: nat)
    | Resolved(id: nat)
    | Removed(gone: nat)
    | Replied(about: nat, error: bool)
    | Idle(trusted: nat -> bool, asking: nat -> Asking)

  lemma AskedIsHead(q: seq<Auth>, h: History, asked: set<nat>, last: nat, id: nat)
    requires AgentAtHead(q, asked, last) && InOrder(q, h, last) && id in asked
    ensures id in Ids(q) <==> q != [] && q[0].id == id
    ensures AgentAtHead(if q == [] then q else q[1..], asked - {id}, last)
  {
    if q != [] {
      PathIsDistinct(q, h, last, 0);
    }
    hide InOrder;
  }
}
