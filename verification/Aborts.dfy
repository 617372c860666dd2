/** What survives when doInhibit of some target throws an exception that nobody in the hub catches, such as a
    bus error other than a missing reply: the forwarding loop, printInhibited, callEvent of the originator and
    the rest of its handler are all left out. */
module Aborts {
  import opened InhibitTypes
  import opened Ids
  import opened HubSpec
  import opened HubSafety
  import opened HubSharing
  import opened SimpleDBus
  import opened SimpleDBusRuns

  /** registerInhibit up to the exception. The target that throws is entered and changes nothing, like one that
      does not respond, and is written as such; but the callback does not go on behind it. */
  ghost function AbortedRegister(s: HubState, o: nat, i: Inhibit, replies: seq<Reply>): (t: HubState)
    requires o < |s.ifaces| == |replies|
    ensures |t.ifaces| == |s.ifaces|
  {
    ForwardFrom(s.(ifaces := s.ifaces[o := Registered(s.ifaces[o], i)]), o, i.id, replies, 0)
  }

  /** The two states hold the same inhibits, sources and plan. */
  ghost predicate SameTables(s: HubState, t: HubState) {
    && |s.ifaces| == |t.ifaces| && s.plan == t.plan
    && forall k :: 0 <= k < |s.ifaces| ==>
         s.ifaces[k].active == t.ifaces[k].active && s.ifaces[k].sources == t.ifaces[k].sources
  }

  /** An abort leaves the tables and the plan exactly as the completed registration would. */
  lemma AbortKeepsTables(s: HubState, o: nat, i: Inhibit, replies: seq<Reply>)
    requires o < |s.ifaces| == |replies|
    ensures SameTables(AbortedRegister(s, o, i, replies), RegisterStep(s, o, i, replies))
  {
  }

  lemma NoLeakByTables(s: HubState, t: HubState)
    requires SameTables(s, t) && NoLeak(t)
    ensures NoLeak(s)
  {
    assert forall x, k: nat, f :: Lists(s, x, k, f) <==> Lists(t, x, k, f);
    forall k: nat, f | k < |s.ifaces| && f in s.ifaces[k].active && f !in s.ifaces[k].sources ensures Backed(s, k, f) {
      assert Backed(t, k, f);
      var x, j: nat :| Backs(t, x, j, k, f);
      assert Backs(s, x, j, k, f);
    }
    forall x | x in s.plan ensures ActiveSource(s, x) {
      assert ActiveSource(t, x);
      var j :| 0 <= j < |t.ifaces| && x in t.ifaces[j].sources;
      assert x in s.ifaces[j].sources;
    }
  }

  // ---- the states that are left stale ----

  /** The cached state of the originator is right after an abort if and only if the inhibit was active already or
      adds no type; every other interface is as coherent as it was. */
  lemma AbortStaleIff(s: HubState, o: nat, i: Inhibit, replies: seq<Reply>)
    requires AllCoherent(s) && o < |s.ifaces| == |replies|
    ensures var t := AbortedRegister(s, o, i, replies);
      && (forall k :: 0 <= k < |s.ifaces| && k != o ==> Coherent(t.ifaces[k]))
      && Tidy(t.ifaces[o]) && t.printed == s.printed
      && (Coherent(t.ifaces[o]) <==> i.id in s.ifaces[o].active || i.kind.Within(s.ifaces[o].last))
  {
    var s1 := s.(ifaces := s.ifaces[o := Registered(s.ifaces[o], i)]);
    ForwardFromEffect(s1, o, i.id, replies, 0);
    forall k | 0 <= k < |s.ifaces| && k != o ensures Coherent(AbortedRegister(s, o, i, replies).ifaces[k]) {
      AnsweredCoherent(s.ifaces[k], replies[k]);
    }
    if i.id !in s.ifaces[o].active { OrOfMore(s.ifaces[o].active, i); }
  }

  /** A stale interface is right again after the next event it completes. */
  lemma RepairedByNextEvent(s: HubState, e: Event)
    requires ValidEvent(|s.ifaces|, e) && (forall k :: 0 <= k < |s.ifaces| ==> Tidy(s.ifaces[k]))
    requires e.Unregister? ==> e.id in s.ifaces[e.origin].active
    ensures Coherent(Step(s, e).ifaces[e.origin]) && Step(s, e).printed == GlobalOr(Step(s, e))
  {
    var o := e.origin;
    match e
    case Register(_, i, replies) =>
      var s1 := s.(ifaces := s.ifaces[o := Registered(s.ifaces[o], i)]);
      ForwardFromEffect(s1, o, i.id, replies, 0);
      var s2 := ForwardFrom(s1, o, i.id, replies, 0);
      NotifyCoherent(s2.ifaces[o]);
      GlobalOrByTables(s2, Finish(s2, o));
    case Unregister(_, id) =>
      var entries := PlanOf(s.plan, id);
      var ifaces := ReleaseAll(s.ifaces[o := Dropped(s.ifaces[o], id)], entries);
      ReleaseAllKeeps(s.ifaces[o := Dropped(s.ifaces[o], id)], entries, o);
      NotifyCoherent(ifaces[o]);
      GlobalOrByTables(s.(ifaces := ifaces), Finish(s.(ifaces := ifaces, plan := s.plan - {id}), o));
  }

  // ---- runs with aborts ----

  datatype Happening = Completed(e: Event) | Aborted(o: nat, i: Inhibit, replies: seq<Reply>)

  /** The registration or release that happens or is cut off. */
  function Attempt(h: Happening): Event {
    match h
    case Completed(e) => e
    case Aborted(o, i, replies) => Register(o, i, replies)
  }

  ghost function Happen(s: HubState, h: Happening): (t: HubState)
    requires ValidEvent(|s.ifaces|, Attempt(h))
    ensures |t.ifaces| == |s.ifaces|
  {
    match h
    case Completed(e) => Step(s, e)
    case Aborted(o, i, replies) => AbortedRegister(s, o, i, replies)
  }

  ghost predicate SeparateHappenings(s: HubState, hs: seq<Happening>)
    decreases |hs|
  {
    hs != [] ==>
      && ValidEvent(|s.ifaces|, Attempt(hs[0])) && Separate(s, Attempt(hs[0]))
      && SeparateHappenings(Happen(s, hs[0]), hs[1..])
  }

  ghost function HappenAll(s: HubState, hs: seq<Happening>): (t: HubState)
    requires SeparateHappenings(s, hs)
    ensures |t.ifaces| == |s.ifaces|
    decreases |hs|
  {
    if hs == [] then s else HappenAll(Happen(s, hs[0]), hs[1..])
  }

  lemma HappeningKeepsSources(s: HubState, h: Happening)
    requires SourcesActive(s) && ValidEvent(|s.ifaces|, Attempt(h))
    ensures SourcesActive(Happen(s, h))
  {
    match Attempt(h)
    case Register(o, i, replies) =>
      RegisterEffect(s, o, i, replies);
      AbortKeepsTables(s, o, i, replies);
    case Unregister(o, id) =>
      if id in s.ifaces[o].active { UnregisterEffect(s, o, id); }
  }

  lemma HappeningLeaksNothing(s: HubState, h: Happening)
    requires NoLeak(s) && SourcesActive(s) && ValidEvent(|s.ifaces|, Attempt(h)) && Separate(s, Attempt(h))
    ensures NoLeak(Happen(s, h))
  {
    match Attempt(h)
    case Register(o, i, replies) =>
      NoLeakRegister(s, o, i, replies);
      AbortKeepsTables(s, o, i, replies);
      NoLeakByTables(Happen(s, h), RegisterStep(s, o, i, replies));
    case Unregister(o, id) =>
      if id in s.ifaces[o].active { NoLeakUnregister(s, o, id); }
  }

  lemma {:induction false} HappeningsLeakNothing(s: HubState, hs: seq<Happening>)
    requires NoLeak(s) && SourcesActive(s) && SeparateHappenings(s, hs)
    ensures NoLeak(HappenAll(s, hs)) && SourcesActive(HappenAll(s, hs))
    decreases |hs|
  {
    if hs != [] {
      HappeningLeaksNothing(s, hs[0]);
      HappeningKeepsSources(s, hs[0]);
      HappeningsLeakNothing(Happen(s, hs[0]), hs[1..]);
    }
  }

  /** No leaked wakelock, uncaught exceptions included: in every run every copy is recorded under a source that is
      still active, and once no source is left the plan and every table are empty. Only cached states can be
      left behind. */
  lemma NoLeakDespiteAborts(n: nat, hs: seq<Happening>)
    requires SeparateHappenings(Init(n), hs)
    ensures var s := HappenAll(Init(n), hs);
      && NoLeak(s)
      && ((forall k :: 0 <= k < n ==> s.ifaces[k].sources == {}) ==>
            s.plan == map[] && forall k :: 0 <= k < n ==> s.ifaces[k].active == map[])
  {
    InitNoLeak(n);
    HappeningsLeakNothing(Init(n), hs);
    var s := HappenAll(Init(n), hs);
    if forall k :: 0 <= k < n ==> s.ifaces[k].sources == {} {
      forall k | 0 <= k < n ensures s.ifaces[k].active == map[] {
        forall f ensures f !in s.ifaces[k].active {
          assert !Backed(s, k, f);
        }
        assert s.ifaces[k].active.Keys == {};
      }
      forall x ensures x !in s.plan {
        assert !ActiveSource(s, x);
      }
      assert s.plan.Keys == {};
    }
  }

  // ---- owners ----

  /** The handler of a client's Inhibit is cut off before it lists the id: the loss of the client's name then
      releases the inhibit if and only if an earlier registration had listed it. */
  lemma AbortedInhibitIsReleasedIff(hub: HubState, k: nat, owners: Owners, sender: InhibitID -> string,
                                    i: Inhibit, answers: seq<Reply>)
    requires OwnersTidy(hub, k, owners, sender) && |answers| == |hub.ifaces|
    requires i.id != "" && sender(i.id) != US && OwnedBy(i.id, k)
    ensures var t := AbortedRegister(hub, k, i, answers); var ids := OwnersOf(owners, sender(i.id));
      && OwnersTidy(t, k, owners, sender)
      && (i.id !in Run(t, Unregisters(k, ids)).ifaces[k].active <==> i.id in ids)
  {
    var t := AbortedRegister(hub, k, i, answers);
    RegisterEffect(hub, k, i, answers);
    AbortKeepsTables(hub, k, i, answers);
    assert forall x, j: nat, f :: Lists(t, x, j, f) <==> Lists(RegisterStep(hub, k, i, answers), x, j, f);
    OwnersAfterNameLost(t, k, owners, sender, sender(i.id));
    var ids := OwnersOf(owners, sender(i.id));
    assert !ReleasedBy(t, k, ids, k, i.id);
  }
}
