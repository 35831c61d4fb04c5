/** The registered agents and the queue of default agents: every agent is queued exactly once, and the
    adapters know the capability of the one in front. */
module AgentStack {
  import opened Bytes

  datatype Capability = DisplayOnly | DisplayYesNo | KeyboardOnly | NoInputNoOutput | KeyboardDisplay | Invalid

  datatype Agent = Agent(path: string, capability: Capability)

  datatype Reply = Done | AlreadyExists | DoesNotExist | InvalidArgs

  function ParseCapability(s: string): Capability {
    if s == "" then KeyboardDisplay
    else if s == "DisplayOnly" then DisplayOnly
    else if s == "DisplayYesNo" then DisplayYesNo
    else if s == "KeyboardOnly" then KeyboardOnly
    else if s == "NoInputNoOutput" then NoInputNoOutput
    else if s == "KeyboardDisplay" then KeyboardDisplay
    else Invalid
  }

  /** queue_remove: the first occurrence goes. */
  function WithoutAgent(q: seq<string>, owner: string): seq<string> {
    if q == [] then [] else if q[0] == owner then q[1..] else [q[0]] + WithoutAgent(q[1..], owner)
  }

  lemma {:induction false} WithoutAgentIsOneLess(q: seq<string>, owner: string)
    ensures multiset(WithoutAgent(q, owner)) == multiset(q) - multiset{owner}
  {
    if q != [] {
      assert q == [q[0]] + q[1..];
      WithoutAgentIsOneLess(q[1..], owner);
    }
  }

  lemma {:induction false} WithoutAgentAbsent(q: seq<string>, owner: string)
    requires owner !in q
    ensures WithoutAgent(q, owner) == q
  {
    if q != [] {
      assert q == [q[0]] + q[1..];
      WithoutAgentAbsent(q[1..], owner);
    }
  }

  /** Every registered agent is queued exactly once, and nobody else is. */
  ghost predicate QueuedOnce(agents: map<string, Agent>, q: seq<string>) {
    forall o :: multiset(q)[o] == if o in agents then 1 else 0
  }

  lemma Queued(agents: map<string, Agent>, q: seq<string>)
    requires QueuedOnce(agents, q)
    ensures forall o :: o in q <==> o in agents
  {
    assert forall o :: o in q <==> o in multiset(q);
  }

  ghost function Front(agents: map<string, Agent>, q: seq<string>): Capability {
    if q != [] && q[0] in agents then agents[q[0]].capability else Invalid
  }

  /** What add_default_agent makes of the queue. */
  function Raised(q: seq<string>, owner: string): seq<string> {
    if q != [] && q[0] == owner then q else [owner] + WithoutAgent(q, owner)
  }

  /** Being the default agent for a while leaves no trace: who leaves again uncovers the same queue
      as if it had never asked. */
  lemma RaisingIsUndone(q: seq<string>, owner: string)
    ensures WithoutAgent(Raised(q, owner), owner) == WithoutAgent(q, owner)
  {
  }

  class AgentManager {
    var agents: map<string, Agent>
    var defaults: seq<string>
    var pushed: Capability

    ghost predicate Valid()
      reads this
    {
      QueuedOnce(agents, defaults) && pushed == Front(agents, defaults)
    }

    constructor ()
      ensures Valid() && agents == map[] && defaults == []
    {
      agents, defaults, pushed := map[], [], Invalid;
    }

    /** The capability of an agent, or of none, goes to every adapter. */
    method SetIoCapability(owner: Option<string>)
      requires owner.Some? ==> owner.value in agents
      modifies this`pushed
      ensures pushed == if owner.Some? then agents[owner.value].capability else Invalid
    {
      pushed := if owner.Some? then agents[owner.value].capability else Invalid;
    }

    method AddDefault(owner: string)
      requires Valid() && owner in agents
      modifies this`defaults, this`pushed
      ensures Valid() && defaults == Raised(old(defaults), owner) && defaults[0] == owner
    {
      if defaults != [] && defaults[0] == owner {
        return;
      }
      WithoutAgentIsOneLess(defaults, owner);
      assert multiset(defaults)[owner] == 1;
      defaults := [owner] + WithoutAgent(defaults, owner);
      SetIoCapability(Some(owner));
    }

    /** An agent leaves the queue while it is still registered: the next one becomes the default. */
    method RemoveDefault(owner: string)
      requires QueuedOnce(agents, defaults) && pushed == Front(agents, defaults)
      modifies this`defaults, this`pushed
      ensures defaults == WithoutAgent(old(defaults), owner)
      ensures QueuedOnce(agents - {owner}, defaults) && pushed == Front(agents - {owner}, defaults)
    {
      LeavesOnce(agents, defaults, owner);
      FrontAfter(agents, defaults, owner);
      hide QueuedOnce, Front, WithoutAgent;
      if defaults == [] || defaults[0] != owner {
        defaults := WithoutAgent(defaults, owner);
        return;
      }
      defaults := WithoutAgent(defaults, owner);
      SetIoCapability(if defaults != [] then Some(defaults[0]) else None);
    }

    /** agent_create: the first agent is the default, any other one waits its turn. */
    method Create(owner: string, path: string, capability: Capability)
      requires Valid() && owner !in agents
      modifies this
      ensures Valid() && agents == old(agents)[owner := Agent(path, capability)]
      ensures defaults == old(defaults) + [owner]
    {
      Queued(agents, defaults);
      agents := agents[owner := Agent(path, capability)];
      if defaults == [] {
        defaults := [owner];
        SetIoCapability(Some(owner));
      } else {
        defaults := defaults + [owner];
      }
    }

    method Register(sender: string, path: Option<string>, capability: string) returns (r: Reply)
      requires Valid()
      modifies this
      ensures Valid()
      ensures r == if sender in old(agents) then AlreadyExists
                   else if path.None? || ParseCapability(capability).Invalid? then InvalidArgs else Done
      ensures r != Done ==> agents == old(agents) && defaults == old(defaults) && pushed == old(pushed)
      ensures r == Done ==>
        && agents == old(agents)[sender := Agent(path.value, ParseCapability(capability))]
        && defaults == old(defaults) + [sender]
    {
      if sender in agents {
        return AlreadyExists;
      }
      if path.None? {
        return InvalidArgs;
      }
      var cap := ParseCapability(capability);
      if cap.Invalid? {
        return InvalidArgs;
      }
      Create(sender, path.value, cap);
      r := Done;
    }

    /** agent_disconnect, with the removal from the table that it causes. */
    method Disconnect(owner: string)
      requires Valid() && owner in agents
      modifies this
      ensures Valid() && agents == old(agents) - {owner} && defaults == WithoutAgent(old(defaults), owner)
    {
      RemoveDefault(owner);
      agents := agents - {owner};
      Queued(agents, defaults);
      WithoutAgentAbsent(defaults, owner);
      // agent_destroy takes it out of the queue once more
      WithoutAgentIsOneLess(defaults, owner);
      RemoveDefault(owner);
      assert agents - {owner} == agents;
    }

    method Unregister(sender: string, path: Option<string>) returns (r: Reply)
      requires Valid()
      modifies this
      ensures Valid()
      ensures r == if sender !in old(agents) then DoesNotExist else if path.None? then InvalidArgs
                   else if path.value != old(agents)[sender].path then DoesNotExist else Done
      ensures r != Done ==> agents == old(agents) && defaults == old(defaults) && pushed == old(pushed)
      ensures r == Done ==> agents == old(agents) - {sender} && defaults == WithoutAgent(old(defaults), sender)
    {
      if sender !in agents {
        return DoesNotExist;
      }
      if path.None? {
        return InvalidArgs;
      }
      if path.value != agents[sender].path {
        return DoesNotExist;
      }
      Disconnect(sender);
      r := Done;
    }

    method RequestDefault(sender: string, path: Option<string>) returns (r: Reply)
      requires Valid()
      modifies this
      ensures Valid() && agents == old(agents)
      ensures r == if sender !in agents then DoesNotExist else if path.None? then InvalidArgs
                   else if path.value != agents[sender].path then DoesNotExist else Done
      ensures r != Done ==> defaults == old(defaults) && pushed == old(pushed)
      ensures r == Done ==> defaults == Raised(old(defaults), sender) && pushed == agents[sender].capability
    {
      if sender !in agents {
        return DoesNotExist;
      }
      if path.None? {
        return InvalidArgs;
      }
      if path.value != agents[sender].path {
        return DoesNotExist;
      }
      AddDefault(sender);
      r := Done;
    }

    /** agent_get: the agent of the owner, else the default one; none only if there is no agent at all. */
    method Get(owner: Option<string>) returns (r: Option<string>)
      requires Valid()
      ensures owner.Some? && owner.value in agents ==> r == owner
      ensures (owner.Some? ==> owner.value !in agents) ==>
        && (r.Some? ==> r.value in agents && agents[r.value].capability == pushed)
        && (r.None? <==> agents == map[])
    {
      Queued(agents, defaults);
      if owner.Some? && owner.value in agents {
        return owner;
      }
      if defaults != [] {
        assert defaults[0] in defaults;
        return Some(defaults[0]);
      }
      assert forall o :: o !in agents;
      return None;
    }

    /** Over every run, each agent is queued once and the adapters follow the one in front. */
    method Run(events: seq<Event>)
      requires Valid()
      modifies this
      ensures Valid()
    {
      for k := 0 to |events|
        invariant Valid()
      {
        hide QueuedOnce, Front;
        match events[k]
        case RegisterAgent(sender, path, capability) => var _ := Register(sender, path, capability);
        case UnregisterAgent(sender, path) => var _ := Unregister(sender, path);
        case RequestDefaultAgent(sender, path) => var _ := RequestDefault(sender, path);
        case Disconnected(sender) =>
          if sender in agents {
            Disconnect(sender);
          }
      }
    }
  }

  datatype Event =
    | RegisterAgent(sender: string, path: Option<string>, capability: string)
    | UnregisterAgent(sender: string, path: Option<string>)
    | RequestDefaultAgent(sender: string, path: Option<string>)
    | Disconnected(sender: string)

  lemma LeavesOnce(agents: map<string, Agent>, q: seq<string>, owner: string)
    requires QueuedOnce(agents, q)
    ensures QueuedOnce(agents - {owner}, WithoutAgent(q, owner))
  {
    WithoutAgentIsOneLess(q, owner);
  }

  /** Only if the one in front leaves does another one come to the front. */
  lemma FrontAfter(agents: map<string, Agent>, q: seq<string>, owner: string)
    requires QueuedOnce(agents, q)
    ensures var r := WithoutAgent(q, owner);
            && (q == [] || q[0] != owner ==> Front(agents - {owner}, r) == Front(agents, q))
            && (r != [] ==> r[0] in agents && Front(agents - {owner}, r) == agents[r[0]].capability)
            && (r == [] ==> Front(agents - {owner}, r) == Invalid)
  {
    var r := WithoutAgent(q, owner);
    LeavesOnce(agents, q, owner);
    Queued(agents, q);
    Queued(agents - {owner}, r);
    hide QueuedOnce;
    if r != [] {
      assert r[0] in r;
    }
    if q != [] {
      assert q[0] in q;
    }
  }
}
