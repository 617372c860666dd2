/** The kernel interface as an object: the watcher fills the queues, the main loop drains them, forwarded
    requests go to the helper. */
module KernelObject {
  import opened InhibitTypes
  import opened Ids
  import opened Framing
  import opened HubSpec
  import opened HubObjects
  import opened SimpleDBus
  import opened SimpleDBusObject
  import opened KernelLocks
  import opened KernelWatcher

  class LinuxKernelInterface {
    /** The base-class part: the table of active inhibits and the callbacks. */
    const base: InhibitInterface
    var registerQueue: seq<Inhibit>
    var unregisterQueue: seq<InhibitID>
    var ourInhibits: set<InhibitID>
    /** Everything sent to the helper so far. */
    var sent: string

    constructor (base: InhibitInterface)
      ensures this.base == base && registerQueue == [] && unregisterQueue == [] && ourInhibits == {} && sent == ""
    {
      this.base := base;
      registerQueue, unregisterQueue, ourInhibits, sent := [], [], {}, "";
    }

    ghost function State(hub: Hub): Watch
      reads this, hub, hub.inhibitors
    {
      Watch(hub.Abs(), base.instanceId, registerQueue, unregisterQueue, ourInhibits)
    }

    method IsTracked(lock: string) returns (exists_: bool)
      ensures exists_ == Tracked(base.activeInhibits.Keys, lock)
    {
      exists_ := false;
      var rest := base.activeInhibits.Keys;
      while rest != {}
        invariant rest <= base.activeInhibits.Keys
        invariant exists_ <==> exists id :: id in base.activeInhibits.Keys - rest && LockNameOf(id) == lock
        decreases rest
      {
        var id :| id in rest;
        if LockNameOf(id) == lock { exists_ := true; }
        rest := rest - {id};
      }
    }

    /** Queue the locks of the file that are not tracked yet. */
    method QueueAppeared(locks: seq<string>, now: nat)
      modifies this`registerQueue
      ensures registerQueue == old(registerQueue)
        + Appeared(base.instanceId, base.activeInhibits.Keys, ourInhibits, locks, now)
    {
      for n := 0 to |locks|
        invariant registerQueue == old(registerQueue)
          + Appeared(base.instanceId, base.activeInhibits.Keys, ourInhibits, locks[..n], now)
      {
        var lock := locks[n];
        assert locks[..n + 1][..n] == locks[..n];
        var tracked := IsTracked(lock);
        if !tracked {
          var id := LockId(base.instanceId, lock);
          if id !in ourInhibits {
            registerQueue := registerQueue + [Inhibit(SUSPEND, "unknown-app", lock, id, now)];
          }
        }
      }
      assert locks[..|locks|] == locks;
    }

    method VisitTracked(locks: seq<string>, id: InhibitID)
      modifies this`unregisterQueue
      ensures unregisterQueue == old(unregisterQueue) + GoneEntry(base.instanceId, ourInhibits, locks, id)
    {
      if LockNameOf(id) !in locks && id !in ourInhibits {
        unregisterQueue := unregisterQueue + [LockId(base.instanceId, LockNameOf(id))];
      }
    }

    /** Queue the tracked ids whose locks are gone, our own excepted, in the order they are visited. */
    method QueueDisappeared(locks: seq<string>) returns (ghost gone: seq<InhibitID>)
      modifies this`unregisterQueue
      ensures unregisterQueue == old(unregisterQueue) + gone
      ensures Disappeared(base.instanceId, base.activeInhibits.Keys, ourInhibits, locks, gone)
    {
      gone := [];
      var active, k, ours := base.activeInhibits.Keys, base.instanceId, ourInhibits;
      var rest := active;
      ghost var seen: set<InhibitID> := {};
      while rest != {}
        invariant seen + rest == active && unregisterQueue == old(unregisterQueue) + gone
        invariant Disappeared(k, seen, ours, locks, gone)
        decreases rest
      {
        var id :| id in rest;
        OneMoreSeen(k, seen, ours, locks, gone, id);
        VisitTracked(locks, id);
        gone := gone + GoneEntry(k, ours, locks, id);
        rest, seen := rest - {id}, seen + {id};
      }
      assert seen == active;
    }

    /** One pass of the watcher over the lock file, read in the given pieces. A file that starts with a
        newline directly followed by a name makes the tokeniser extend a token that does not exist. */
    method WatcherPass(hub: Hub, chunks: seq<string>, now: nat) returns (ghost gone: seq<InhibitID>)
      requires base.PartOf(hub) && Tokens(Concat(chunks)).ok
      modifies this`registerQueue, this`unregisterQueue
      ensures var locks := Tokens(Concat(chunks)).locks;
        && ValidTurn(old(State(hub)), Pass(now, gone), locks)
        && State(hub) == TakeTurn(old(State(hub)), Pass(now, gone), locks)
    {
      var locks, ok := Tokenise(chunks);
      QueueAppeared(locks, now);
      gone := QueueDisappeared(locks);
      assert hub.Abs().ifaces[base.instanceId].active == base.activeInhibits;
    }

    method RegisterQueued(hub: Hub, answers: seq<seq<Reply>>)
      requires base.PartOf(hub) && |answers| == |registerQueue| && forall a <- answers :: |a| == |hub.inhibitors|
      modifies hub`releasePlan, hub`lastInhibitType, hub.inhibitors
      ensures base.PartOf(hub) && |hub.inhibitors| == old(|hub.inhibitors|)
      ensures hub.Abs() == Run(old(hub.Abs()), Registers(base.instanceId, registerQueue, answers))
    {
      var k, q := base.instanceId, registerQueue;
      assert q[0..] == q && answers[0..] == answers;
      ghost var goal := Run(hub.Abs(), Registers(k, q[0..], answers[0..]));
      for n := 0 to |q|
        invariant base.PartOf(hub) && |hub.inhibitors| == old(|hub.inhibitors|)
        invariant Run(hub.Abs(), Registers(k, q[n..], answers[n..])) == goal
      {
        RegistersNext(hub.Abs(), k, q, answers, n);
        base.RegisterInhibit(hub, q[n], answers[n]);
      }
    }

    method UnregisterQueued(hub: Hub)
      requires base.PartOf(hub)
      modifies hub`releasePlan, hub`lastInhibitType, hub.inhibitors
      ensures base.PartOf(hub) && |hub.inhibitors| == old(|hub.inhibitors|)
      ensures hub.Abs() == Run(old(hub.Abs()), Unregisters(base.instanceId, unregisterQueue))
    {
      var k, q := base.instanceId, unregisterQueue;
      for n := 0 to |q|
        invariant base.PartOf(hub) && |hub.inhibitors| == old(|hub.inhibitors|)
        invariant Run(hub.Abs(), Unregisters(k, q[n..])) == Run(old(hub.Abs()), Unregisters(k, q))
      {
        UnregistersNext(hub.Abs(), k, q, n);
        base.RegisterUnInhibit(hub, q[n]);
      }
    }

    /** Register what is queued, then release what is queued. */
    method RunQueues(hub: Hub, answers: seq<seq<Reply>>)
      requires base.PartOf(hub) && |answers| == |registerQueue| && forall a <- answers :: |a| == |hub.inhibitors|
      modifies hub`releasePlan, hub`lastInhibitType, hub.inhibitors
      ensures base.PartOf(hub) && hub.Abs() == Run(old(hub.Abs()), DrainEvents(old(State(hub)), answers))
    {
      RunAppend(hub.Abs(), Registers(base.instanceId, registerQueue, answers),
                Unregisters(base.instanceId, unregisterQueue));
      RegisterQueued(hub, answers);
      UnregisterQueued(hub);
    }

    /** One turn of the main loop: empty both queues into the hub. */
    method DrainQueues(hub: Hub, answers: seq<seq<Reply>>)
      requires base.PartOf(hub) && |answers| == |registerQueue| && forall a <- answers :: |a| == |hub.inhibitors|
      modifies this`registerQueue, this`unregisterQueue, hub`releasePlan, hub`lastInhibitType, hub.inhibitors
      ensures base.PartOf(hub)
      ensures ValidTurn(old(State(hub)), Drain(answers), [])
      ensures State(hub) == TakeTurn(old(State(hub)), Drain(answers), [])
    {
      RunQueues(hub, answers);
      registerQueue, unregisterQueue := [], [];
    }

    /** A forwarded request: remember the id as ours and have the helper take the lock. */
    method DoInhibit(r: InhibitRequest, now: nat) returns (reply: Reply)
      modifies this`ourInhibits, this`sent
      ensures !r.kind.suspend ==> reply == Unsupported && ourInhibits == old(ourInhibits) && sent == old(sent)
      ensures r.kind.suspend ==>
        var id := LockId(base.instanceId, r.appname + "-" + r.reason);
        && reply == Granted(Inhibit(Flags(false, true), r.appname, r.reason, id, now))
        && ourInhibits == old(ourInhibits) + {id} && sent == old(sent) + (r.appname + "-" + r.reason + "\n")
        && sent == old(sent) + LockMessage(NameFor(r.appname, r.reason)) && id == LockId(base.instanceId, NameFor(r.appname, r.reason))
    {
      if r.kind.And(SUSPEND) == NONE { return Unsupported; }
      var id := LockId(base.instanceId, r.appname + "-" + r.reason);
      ourInhibits := ourInhibits + {id};
      sent := sent + (r.appname + "-" + r.reason + "\n");
      reply := Granted(Inhibit(SUSPEND, r.appname, r.reason, id, now));
    }

    method DoUnInhibit(id: InhibitID)
      modifies this`ourInhibits, this`sent
      ensures id !in base.activeInhibits ==> ourInhibits == old(ourInhibits) && sent == old(sent)
      ensures id in base.activeInhibits ==>
        var r := base.activeInhibits[id]; var name := r.appname + "-" + r.reason;
        && ourInhibits == old(ourInhibits) - {LockId(base.instanceId, name)}
        && sent == old(sent) + ("\t" + name + "\n") && sent == old(sent) + UnlockMessage(NameFor(r.appname, r.reason))
    {
      if id in base.activeInhibits {
        var r := base.activeInhibits[id];
        var own := LockId(base.instanceId, r.appname + "-" + r.reason);
        sent := sent + ("\t" + (r.appname + "-" + r.reason) + "\n");
        ourInhibits := ourInhibits - {own};
      }
    }
  }

  /** What the visit of one tracked id adds to the release queue. */
  function GoneEntry(k: nat, ours: set<InhibitID>, locks: seq<string>, id: InhibitID): seq<InhibitID> {
    if IsGone(ours, locks, id) then [LockId(k, LockNameOf(id))] else []
  }

  lemma OneMoreSeen(k: nat, active: set<InhibitID>, ours: set<InhibitID>, locks: seq<string>, gone: seq<InhibitID>, id: InhibitID)
    requires Disappeared(k, active, ours, locks, gone)
    ensures Disappeared(k, active + {id}, ours, locks, gone + GoneEntry(k, ours, locks, id))
  {
  }

  lemma RegistersNext(s: HubState, k: nat, q: seq<Inhibit>, answers: seq<seq<Reply>>, n: nat)
    requires |q| == |answers| && n < |q| && k < |s.ifaces| && forall a <- answers :: |a| == |s.ifaces|
    ensures Run(s, Registers(k, q[n..], answers[n..]))
         == Run(Step(s, Register(k, q[n], answers[n])), Registers(k, q[n + 1..], answers[n + 1..]))
  {
    var es := Registers(k, q[n..], answers[n..]);
    assert es[0] == Register(k, q[n], answers[n]);
    assert es[1..] == Registers(k, q[n + 1..], answers[n + 1..]);
  }
}
