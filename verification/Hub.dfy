/** The interfaces and the hub as the objects they are: tables, cached states and the release plan are
    updated in place. Every method is proved to make the state of HubSpec take the same step. */
module HubObjects {
  import opened InhibitTypes
  import opened HubSpec
  import opened HubSafety

  class InhibitInterface {
    const instanceId: nat
    var activeInhibits: map<InhibitID, Inhibit>
    var lastInhibitState: InhibitType
    /** The states handed to handleInhibitStateChanged so far. */
    var stateChanges: seq<InhibitType>
    /** How often doInhibit or doUnInhibit was called. */
    var doCalls: nat
    ghost var sources: set<InhibitID>

    ghost function State(): Iface
      reads this
    {
      Iface(activeInhibits, sources, lastInhibitState, stateChanges, doCalls)
    }

    constructor (instanceId: nat)
      ensures this.instanceId == instanceId && State() == EMPTY_IFACE
    {
      this.instanceId := instanceId;
      activeInhibits, lastInhibitState, stateChanges, doCalls, sources := map[], NONE, [], 0, {};
    }

    method Inhibited() returns (t: InhibitType)
      ensures t == OrOf(activeInhibits)
    {
      t := NONE;
      var rest := activeInhibits.Keys;
      while rest != {}
        invariant rest <= activeInhibits.Keys
        invariant t.screensaver <==> exists id :: id in activeInhibits && id !in rest && activeInhibits[id].kind.screensaver
        invariant t.suspend <==> exists id :: id in activeInhibits && id !in rest && activeInhibits[id].kind.suspend
        decreases rest
      {
        var id :| id in rest;
        t := t.Or(activeInhibits[id].kind);
        rest := rest - {id};
      }
    }

    method CallEvent()
      modifies this
      ensures State() == Notify(old(State()))
    {
      var inhibited := Inhibited();
      if inhibited != lastInhibitState {
        stateChanges := stateChanges + [inhibited];
        lastInhibitState := inhibited;
      }
    }

    /** A forwarded request; `answer` is what doInhibit of this interface answers to it. */
    method Inhibit(answer: Reply) returns (result: Reply)
      modifies this
      ensures State() == Answered(old(State()), answer) && result == answer
    {
      doCalls := doCalls + 1;
      result := answer;
      if answer.Granted? {
        var i := answer.inhibit;
        if i.id !in activeInhibits {
          activeInhibits := activeInhibits[i.id := i];
        }
        CallEvent();
      }
    }

    method UnInhibit(id: InhibitID)
      modifies this
      ensures State() == Released(old(State()), id)
    {
      if id in activeInhibits {
        doCalls := doCalls + 1;
        activeInhibits := activeInhibits - {id};
        sources := sources - {id};
        CallEvent();
      }
    }

    ghost predicate PartOf(hub: Hub)
      reads hub, hub.inhibitors
    {
      hub.Valid() && instanceId < |hub.inhibitors| && hub.inhibitors[instanceId] == this
    }

    method AddSource(hub: Hub, i: Inhibit)
      requires PartOf(hub)
      modifies this
      ensures PartOf(hub)
      ensures hub.Abs() == old(hub.Abs()).(ifaces := old(hub.Ifaces())[instanceId := Registered(old(State()), i)])
    {
      if i.id !in activeInhibits {
        activeInhibits := activeInhibits[i.id := i];
      }
      sources := sources + {i.id};
      assert hub.Ifaces() == old(hub.Ifaces())[instanceId := Registered(old(State()), i)];
    }

    method DropSource(hub: Hub, id: InhibitID)
      requires PartOf(hub)
      modifies this
      ensures PartOf(hub)
      ensures hub.Abs() == old(hub.Abs()).(ifaces := old(hub.Ifaces())[instanceId := Dropped(old(State()), id)])
    {
      activeInhibits := activeInhibits - {id};
      sources := sources - {id};
      assert hub.Ifaces() == old(hub.Ifaces())[instanceId := Dropped(old(State()), id)];
    }

    method CallEventIn(hub: Hub)
      requires PartOf(hub)
      modifies this
      ensures PartOf(hub)
      ensures hub.Abs() == old(hub.Abs()).(ifaces := old(hub.Ifaces())[instanceId := Notify(old(State()))])
    {
      CallEvent();
      assert hub.Ifaces() == old(hub.Ifaces())[instanceId := Notify(old(State()))];
    }

    /** An application's inhibit; answers[k] is what interface k answers when it is asked for a copy. */
    method RegisterInhibit(hub: Hub, i: Inhibit, answers: seq<Reply>)
      requires PartOf(hub) && |answers| == |hub.inhibitors|
      modifies hub`releasePlan, hub`lastInhibitType, hub.inhibitors
      ensures PartOf(hub) && hub.Abs() == Step(old(hub.Abs()), Register(instanceId, i, answers))
    {
      AddSource(hub, i);
      hub.InhibitCB(this, i, answers);
      CallEventIn(hub);
    }

    method RegisterUnInhibit(hub: Hub, id: InhibitID)
      requires PartOf(hub)
      modifies hub`releasePlan, hub`lastInhibitType, hub.inhibitors
      ensures PartOf(hub) && hub.Abs() == Step(old(hub.Abs()), Unregister(instanceId, id))
    {
      if id in activeInhibits {
        var mid := activeInhibits[id];
        DropSource(hub, id);
        hub.UnInhibitCB(mid);
        CallEventIn(hub);
      }
    }
  }

  class Hub {
    /** Construction order; the instance counter makes every instanceId the position in this list. */
    var inhibitors: seq<InhibitInterface>
    var releasePlan: map<InhibitID, seq<Release>>
    var lastInhibitType: InhibitType

    ghost predicate Valid()
      reads this, inhibitors
    {
      && (forall k :: 0 <= k < |inhibitors| ==> inhibitors[k].instanceId == k)
      && (forall k, id :: 0 <= k < |inhibitors| && id in inhibitors[k].activeInhibits ==>
            inhibitors[k].activeInhibits[id].id == id)
      && (forall x, e :: x in releasePlan && e in releasePlan[x] ==> e.target < |inhibitors|)
    }

    ghost function Ifaces(): (s: seq<Iface>)
      reads this, inhibitors
      ensures |s| == |inhibitors| && forall k :: 0 <= k < |s| ==> s[k] == inhibitors[k].State()
    {
      seq(|inhibitors|, k requires 0 <= k < |inhibitors| reads this, inhibitors => inhibitors[k].State())
    }

    ghost function Abs(): HubState
      reads this, inhibitors
    {
      HubState(Ifaces(), releasePlan, lastInhibitType)
    }

    constructor ()
      ensures Valid() && Abs() == Init(0)
    {
      inhibitors, releasePlan, lastInhibitType := [], map[], NONE;
    }

    /** Construct an interface and push it: the static counter hands out 0, 1, 2, ... */
    method AddInterface() returns (f: InhibitInterface)
      requires Valid() && Abs() == Init(|inhibitors|)
      modifies this
      ensures fresh(f) && inhibitors == old(inhibitors) + [f]
      ensures Valid() && Abs() == Init(|inhibitors|)
    {
      f := new InhibitInterface(|inhibitors|);
      inhibitors := inhibitors + [f];
    }

    method Inhibited() returns (t: InhibitType)
      ensures t == GlobalOr(Abs())
    {
      t := NONE;
      var k := 0;
      while k < |inhibitors|
        invariant k <= |inhibitors|
        invariant t.screensaver <==> exists j, id :: 0 <= j < k && id in Ifaces()[j].active && Ifaces()[j].active[id].kind.screensaver
        invariant t.suspend <==> exists j, id :: 0 <= j < k && id in Ifaces()[j].active && Ifaces()[j].active[id].kind.suspend
      {
        var u := inhibitors[k].Inhibited();
        assert Ifaces()[k].active == inhibitors[k].activeInhibits;
        t := t.Or(u);
        k := k + 1;
      }
    }

    method PrintInhibited()
      modifies this`lastInhibitType
      ensures Abs() == old(Abs()).(printed := GlobalOr(old(Abs())))
    {
      var i := Inhibited();
      if lastInhibitType != i {
        lastInhibitType := i;
      }
    }

    /** Ask one interface for a copy and record it when it is granted. */
    method ForwardCopy(ai: InhibitInterface, src: InhibitID, answer: Reply) returns (noResponse: bool)
      requires Valid() && ai in inhibitors
      modifies this`releasePlan, ai
      ensures Valid() && ai.instanceId < |inhibitors|
      ensures Abs() == ForwardTo(old(Abs()), ai.instanceId, src, answer) && noResponse == answer.NoResponse?
    {
      var result := ai.Inhibit(answer);
      noResponse := false;
      match result {
        case Granted(i) =>
          releasePlan := releasePlan[src := PlanOf(releasePlan, src) + [Release(ai.instanceId, i.id)]];
        case Unsupported =>
        case NoResponse => noResponse := true;
      }
      assert Ifaces() == ForwardTo(old(Abs()), ai.instanceId, src, answer).ifaces;
    }

    /** The loop over all interfaces other than the originator, cut short by one that does not respond. */
    method ForwardCopies(origin: nat, src: InhibitID, answers: seq<Reply>)
      requires Valid() && origin < |inhibitors| == |answers|
      modifies this`releasePlan, inhibitors
      ensures Valid() && Abs() == ForwardFrom(old(Abs()), origin, src, answers, 0)
    {
      var k, noResponse := 0, false;
      ghost var goal := ForwardFrom(Abs(), origin, src, answers, 0);
      while k < |inhibitors| && !noResponse
        invariant k <= |inhibitors| && Valid()
        invariant !noResponse ==> goal == ForwardFrom(Abs(), origin, src, answers, k)
        invariant noResponse ==> goal == Abs()
        decreases |inhibitors| - k
      {
        if inhibitors[k].instanceId != origin {
          noResponse := ForwardCopy(inhibitors[k], src, answers[k]);
        }
        k := k + 1;
      }
    }

    method InhibitCB(inhibitor: InhibitInterface, inhibit: Inhibit, answers: seq<Reply>)
      requires Valid() && inhibitor.instanceId < |inhibitors| == |answers|
      modifies this`releasePlan, this`lastInhibitType, inhibitors
      ensures Valid()
      ensures var t := ForwardFrom(old(Abs()), inhibitor.instanceId, inhibit.id, answers, 0);
              Abs() == t.(printed := GlobalOr(t))
    {
      ForwardCopies(inhibitor.instanceId, inhibit.id, answers);
      PrintInhibited();
    }

    method ReleaseCopy(e: Release)
      requires Valid() && e.target < |inhibitors|
      modifies inhibitors[e.target]
      ensures Valid() && Ifaces() == ReleaseOne(old(Ifaces()), e)
    {
      inhibitors[e.target].UnInhibit(e.id);
    }

    /** One pass over the copies recorded for a source. */
    method ReleaseCopies(entries: seq<Release>)
      requires Valid() && forall e <- entries :: e.target < |inhibitors|
      modifies inhibitors
      ensures Valid() && Ifaces() == ReleaseAll(old(Ifaces()), entries)
    {
      var n := 0;
      while n < |entries|
        invariant n <= |entries| && Valid()
        invariant ReleaseAll(Ifaces(), entries[n..]) == ReleaseAll(old(Ifaces()), entries)
      {
        assert entries[n..][0] == entries[n] && entries[n..][1..] == entries[n + 1..];
        ReleaseCopy(entries[n]);
        n := n + 1;
      }
    }

    method UnInhibitCB(inhibit: Inhibit)
      requires Valid()
      modifies this`releasePlan, this`lastInhibitType, inhibitors
      ensures Valid()
      ensures var t := old(Abs()).(ifaces := ReleaseAll(old(Ifaces()), PlanOf(old(releasePlan), inhibit.id)),
                                   plan := old(releasePlan) - {inhibit.id});
              Abs() == t.(printed := GlobalOr(t))
    {
      if inhibit.id in releasePlan {
        ReleaseCopies(releasePlan[inhibit.id]);
        releasePlan := releasePlan - {inhibit.id};
      } else {
        assert releasePlan == releasePlan - {inhibit.id};
      }
      PrintInhibited();
    }

    /** Undo every copy of the plan, in whatever order the map is iterated, then drop the plan. */
    method HandleExit()
      requires Valid() && AllCoherent(Abs())
      modifies this`releasePlan, inhibitors
      ensures CopiesUndone(old(Abs()), Ifaces()) && releasePlan == map[]
    {
      ghost var s := Abs();
      var rest := releasePlan.Keys;
      while rest != {}
        invariant Valid() && releasePlan == s.plan && rest <= s.plan.Keys
        invariant UndoneUpTo(s, Ifaces(), rest)
        decreases rest
      {
        var id :| id in rest;
        ghost var before := Ifaces();
        ReleaseCopies(releasePlan[id]);
        UndoneStep(s, before, rest, id);
        rest := rest - {id};
      }
      UndoneAll(s, Ifaces());
      releasePlan := map[];
    }
  }

  /** The copies of all sources outside `rest` are undone, those of `rest` are untouched. */
  ghost predicate UndoneUpTo(s: HubState, ifaces: seq<Iface>, rest: set<InhibitID>) {
    && |ifaces| == |s.ifaces|
    && forall k :: 0 <= k < |ifaces| ==>
         && Coherent(ifaces[k])
         && (forall f :: f in ifaces[k].active <==> f in s.ifaces[k].active && forall x :: Lists(s, x, k, f) ==> x in rest)
         && (forall f :: f in ifaces[k].active ==> ifaces[k].active[f] == s.ifaces[k].active[f])
         && (forall f :: f in ifaces[k].sources <==> f in s.ifaces[k].sources && forall x :: Lists(s, x, k, f) ==> x in rest)
  }

  lemma UndoneStep(s: HubState, ifaces: seq<Iface>, rest: set<InhibitID>, id: InhibitID)
    requires UndoneUpTo(s, ifaces, rest) && id in rest && id in s.plan
    ensures UndoneUpTo(s, ReleaseAll(ifaces, s.plan[id]), rest - {id})
  {
    var t := ReleaseAll(ifaces, s.plan[id]);
    forall k: nat | k < |ifaces|
      ensures Coherent(t[k])
      ensures forall f :: f in t[k].active <==>
        f in s.ifaces[k].active && forall x :: Lists(s, x, k, f) ==> x in rest - {id}
      ensures forall f :: f in t[k].active ==> t[k].active[f] == s.ifaces[k].active[f]
      ensures forall f :: f in t[k].sources <==>
        f in s.ifaces[k].sources && forall x :: Lists(s, x, k, f) ==> x in rest - {id}
    {
      ReleaseAllKeeps(ifaces, s.plan[id], k);
      ReleaseAllEffect(ifaces, s.plan[id], k);
      assert forall f :: Lists(s, id, k, f) <==> Release(k, f) in s.plan[id];
    }
  }

  lemma UndoneAll(s: HubState, ifaces: seq<Iface>)
    requires UndoneUpTo(s, ifaces, {})
    ensures CopiesUndone(s, ifaces)
  {
  }
}
