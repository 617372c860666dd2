/** Interfaces whose ids are fresh share the state: the step every such interface takes. */
module FreshSharing {
  import opened InhibitTypes
  import opened Ids
  import opened HubSpec
  import opened HubSafety
  import opened HubSharing

  /** Interface k shares the types in `mask`, and the hub leaks nothing. */
  ghost predicate Shares(hub: HubState, k: nat, mask: InhibitType) {
    Sharing(hub, k, mask) && NoLeak(hub) && AllCoherent(hub)
  }

  /** What the interfaces other than k and their applications owe: ids of their own that are not copies, kept
      types, releases of sources only, and copies that are not sources. */
  ghost predicate OthersKeep(hub: HubState, e: Event, k: nat)
    requires ValidEvent(|hub.ifaces|, e)
  {
    match e
    case Register(o, i, replies) =>
      && (forall j: nat :: j != k && Copied(o, replies, 0, j) ==> replies[j].inhibit.id !in hub.ifaces[j].sources)
      && (o != k ==>
            && OwnedBy(i.id, o) && (forall x :: !Lists(hub, x, o, i.id))
            && (i.id in hub.ifaces[o].active ==>
                  i.id in hub.ifaces[o].sources && hub.ifaces[o].active[i.id].kind == i.kind))
    case Unregister(o, id) =>
      o != k ==> (id in hub.ifaces[o].active ==> id in hub.ifaces[o].sources)
  }

  /** What doInhibit of interface k owes: it answers, refuses only what has no accepted type, and grants the
      accepted types under an id that is not active. */
  ghost predicate KeepsContract(hub: HubState, k: nat, mask: InhibitType, asked: InhibitType, reply: Reply)
    requires k < |hub.ifaces|
  {
    match reply
    case Granted(c) => c.id !in hub.ifaces[k].active && c.kind == asked.And(mask)
    case Unsupported => asked.And(mask) == NONE
    case NoResponse => false
  }

  lemma ShareAfterEvent(hub: HubState, e: Event, k: nat, mask: InhibitType)
    requires Shares(hub, k, mask) && ValidEvent(|hub.ifaces|, e)
    requires Separate(hub, e) && SharingEvent(hub, e, k, mask)
    ensures Shares(Step(hub, e), k, mask)
  {
    CoherentStep(hub, e);
    NoLeakStep(hub, e);
    match e
    case Register(o, i, replies) => SharingRegister(hub, o, i, replies, k, mask);
    case Unregister(o, id) => if id in hub.ifaces[o].active { SharingUnregister(hub, o, id, k, mask); }
  }

  lemma FreshIsUnlisted(hub: HubState, k: nat, mask: InhibitType, f: InhibitID)
    requires Shares(hub, k, mask) && f !in hub.ifaces[k].active
    ensures forall y :: !Lists(hub, y, k, f)
  {
    forall y ensures !Lists(hub, y, k, f) {
      if Lists(hub, y, k, f) { ListedIsActive(hub, k, mask, y, f); }
    }
  }

  /** Something happens at another interface, and k keeps its contract. */
  lemma ShareAfterElsewhere(hub: HubState, e: Event, k: nat, mask: InhibitType)
    requires Shares(hub, k, mask) && ValidEvent(|hub.ifaces|, e) && e.origin != k && OthersKeep(hub, e, k)
    requires e.Register? ==>
      Asked(e.origin, e.replies, 0, k) && KeepsContract(hub, k, mask, e.inhibit.kind, e.replies[k])
    ensures Shares(Step(hub, e), k, mask)
  {
    if e.Register? && e.replies[k].Granted? {
      FreshIsUnlisted(hub, k, mask, e.replies[k].inhibit.id);
    }
    ShareAfterEvent(hub, e, k, mask);
  }

  /** An application registers a fresh id at k. */
  lemma ShareAfterOwn(hub: HubState, i: Inhibit, answers: seq<Reply>, k: nat, mask: InhibitType)
    requires Shares(hub, k, mask) && |answers| == |hub.ifaces| && OthersKeep(hub, Register(k, i, answers), k)
    requires OwnedBy(i.id, k) && i.id !in hub.ifaces[k].active && i.kind.Within(mask)
    ensures Shares(Step(hub, Register(k, i, answers)), k, mask)
  {
    FreshIsUnlisted(hub, k, mask, i.id);
    ShareAfterEvent(hub, Register(k, i, answers), k, mask);
  }
}
