/** What holds of the hub in every run: exact notifications, no echo, no leaked copy. */
module HubSafety {
  import opened InhibitTypes
  import opened Ids
  import opened HubSpec

  // ---- exact edges ----

  function Before(log: seq<InhibitType>, i: nat): InhibitType
    requires i <= |log|
  {
    if i == 0 then NONE else log[i - 1]
  }

  /** Every notification differs from the previous one, and the last one is the cached state. */
  ghost predicate ExactEdges(log: seq<InhibitType>, last: InhibitType) {
    && (forall i :: 0 <= i < |log| ==> log[i] != Before(log, i))
    && last == Before(log, |log|)
  }

  /** A table whose keys are the ids of its entries, with its cached state possibly out of date. */
  ghost predicate Tidy(f: Iface) {
    && f.sources <= f.active.Keys
    && (forall id :: id in f.active ==> f.active[id].id == id)
    && ExactEdges(f.notified, f.last)
  }

  ghost predicate Coherent(f: Iface) {
    Tidy(f) && f.last == OrOf(f.active)
  }

  ghost predicate AllCoherent(s: HubState) {
    && (forall k :: 0 <= k < |s.ifaces| ==> Coherent(s.ifaces[k]))
    && s.printed == GlobalOr(s)
  }

  lemma NotifyCoherent(f: Iface)
    requires Tidy(f)
    ensures Coherent(Notify(f)) && Notify(f).active == f.active && Notify(f).sources == f.sources
  {
    var log := f.notified + [OrOf(f.active)];
    assert forall i :: 0 <= i <= |f.notified| ==> Before(log, i) == Before(f.notified, i);
  }

  lemma AnsweredCoherent(f: Iface, r: Reply)
    requires Coherent(f)
    ensures Coherent(Answered(f, r))
  {
    if r.Granted? {
      NotifyCoherent(f.(entered := f.entered + 1, active := Inserted(f.active, r.inhibit)));
    }
  }

  lemma ReleasedKeeps(f: Iface, id: InhibitID)
    ensures Coherent(f) ==> Coherent(Released(f, id))
    ensures Tidy(f) ==> Tidy(Released(f, id))
  {
    if Tidy(f) && id in f.active {
      NotifyCoherent(Dropped(f.(entered := f.entered + 1), id));
    }
  }

  lemma {:induction false} ReleaseAllKeeps(ifaces: seq<Iface>, entries: seq<Release>, k: nat)
    requires k < |ifaces|
    ensures Coherent(ifaces[k]) ==> Coherent(ReleaseAll(ifaces, entries)[k])
    ensures Tidy(ifaces[k]) ==> Tidy(ReleaseAll(ifaces, entries)[k])
    ensures (forall e <- entries :: e.target != k) ==> ReleaseAll(ifaces, entries)[k] == ifaces[k]
    decreases |entries|
  {
    if entries != [] {
      var e := entries[0];
      ReleasedKeeps(ifaces[k], e.id);
      ReleaseAllKeeps(ReleaseOne(ifaces, e), entries[1..], k);
      assert e in entries;
      assert forall d <- entries[1..] :: d in entries;
    }
  }

  lemma GlobalOrByTables(s: HubState, t: HubState)
    requires |s.ifaces| == |t.ifaces|
    requires forall k :: 0 <= k < |s.ifaces| ==> s.ifaces[k].active == t.ifaces[k].active
    ensures GlobalOr(s) == GlobalOr(t)
  {
  }

  /** After every public operation each cached state is the union of the active types, and the
      printed global state is the union over all interfaces. */
  lemma CoherentStep(s: HubState, e: Event)
    requires AllCoherent(s) && ValidEvent(|s.ifaces|, e)
    ensures AllCoherent(Step(s, e))
  {
    var o := e.origin;
    match e
    case Register(_, i, replies) =>
      var s1 := s.(ifaces := s.ifaces[o := Registered(s.ifaces[o], i)]);
      ForwardFromEffect(s1, o, i.id, replies, 0);
      var s2 := ForwardFrom(s1, o, i.id, replies, 0);
      assert s2.ifaces[o] == s1.ifaces[o];
      forall k | 0 <= k < |s.ifaces| && k != o ensures Coherent(s2.ifaces[k]) {
        AnsweredCoherent(s.ifaces[k], replies[k]);
      }
      FinishCoherent(s2, o);
    case Unregister(_, id) =>
      if id in s.ifaces[o].active {
        var dropped := s.ifaces[o := Dropped(s.ifaces[o], id)];
        var entries := PlanOf(s.plan, id);
        forall k | 0 <= k < |s.ifaces|
          ensures Tidy(ReleaseAll(dropped, entries)[k])
          ensures k != o ==> Coherent(ReleaseAll(dropped, entries)[k])
        {
          ReleaseAllKeeps(dropped, entries, k);
        }
        FinishCoherent(s.(ifaces := ReleaseAll(dropped, entries), plan := s.plan - {id}), o);
      }
  }

  lemma FinishCoherent(s: HubState, o: nat)
    requires o < |s.ifaces| && Tidy(s.ifaces[o])
    requires forall k :: 0 <= k < |s.ifaces| && k != o ==> Coherent(s.ifaces[k])
    ensures AllCoherent(Finish(s, o))
  {
    NotifyCoherent(s.ifaces[o]);
    GlobalOrByTables(s, Finish(s, o));
  }

  /** The global union is the least type that has every flag of every interface. */
  lemma GlobalUnionIsLeast(s: HubState, t: InhibitType)
    ensures GlobalOr(s).Within(t) <==> forall k :: 0 <= k < |s.ifaces| ==> OrOf(s.ifaces[k].active).Within(t)
  {
    forall k | 0 <= k < |s.ifaces|
      ensures OrOf(s.ifaces[k].active).Within(t) <==>
        forall id :: id in s.ifaces[k].active ==>
          (s.ifaces[k].active[id].kind.screensaver ==> t.screensaver) && (s.ifaces[k].active[id].kind.suspend ==> t.suspend)
    {
      UnionIsLeast(s.ifaces[k].active, t);
    }
  }

  /** An id that stays active at interface k through a run. */
  ghost predicate StaysActive(s: HubState, es: seq<Event>, k: nat, id: InhibitID)
    requires k < |s.ifaces|
    decreases |es|
  {
    id in s.ifaces[k].active &&
    (es != [] ==> ValidEvent(|s.ifaces|, es[0]) && StaysActive(Step(s, es[0]), es[1..], k, id))
  }

  lemma ActiveInhibits(s: HubState, k: nat, id: InhibitID)
    requires AllCoherent(s) && k < |s.ifaces| && id in s.ifaces[k].active
    ensures var kind := s.ifaces[k].active[id].kind;
      && (kind.screensaver ==> s.ifaces[k].last.screensaver && s.printed.screensaver)
      && (kind.suspend ==> s.ifaces[k].last.suspend && s.printed.suspend)
  {
    assert s.ifaces[k].active[id].kind.screensaver ==> OrOf(s.ifaces[k].active).screensaver;
    assert s.ifaces[k].active[id].kind.suspend ==> OrOf(s.ifaces[k].active).suspend;
  }

  /** Until it is released an inhibit stays what it was registered as, and its types stay part of what its
      interface and the hub report. */
  lemma {:induction false} InhibitsUntilReleased(s: HubState, es: seq<Event>, k: nat, id: InhibitID)
    requires AllCoherent(s) && k < |s.ifaces| && StaysActive(s, es, k, id)
    ensures forall e <- es :: ValidEvent(|s.ifaces|, e)
    ensures var t, kind := Run(s, es), s.ifaces[k].active[id].kind;
      && id in t.ifaces[k].active && t.ifaces[k].active[id] == s.ifaces[k].active[id]
      && (kind.screensaver ==> t.ifaces[k].last.screensaver && t.printed.screensaver)
      && (kind.suspend ==> t.ifaces[k].last.suspend && t.printed.suspend)
    decreases |es|
  {
    if es == [] {
      ActiveInhibits(s, k, id);
    } else {
      CoherentStep(s, es[0]);
      EntryStays(s, es[0], k, id);
      InhibitsUntilReleased(Step(s, es[0]), es[1..], k, id);
      assert es == [es[0]] + es[1..];
    }
  }

  lemma InitCoherent(n: nat)
    ensures AllCoherent(Init(n))
  {
    assert OrOf(map[]) == NONE;
    assert forall k :: 0 <= k < n ==> Init(n).ifaces[k] == EMPTY_IFACE;
    assert GlobalOr(Init(n)) == NONE;
  }

  lemma {:induction false} CoherentRun(s: HubState, es: seq<Event>)
    requires AllCoherent(s) && forall e <- es :: ValidEvent(|s.ifaces|, e)
    ensures AllCoherent(Run(s, es))
    decreases |es|
  {
    if es != [] {
      CoherentStep(s, es[0]);
      CoherentRun(Step(s, es[0]), es[1..]);
    }
  }

  // ---- no echo, no self-lock ----

  /** An application's inhibit carries the id of the interface it was registered at. */
  predicate OwnId(e: Event) {
    e.Register? ==> OwnedBy(e.inhibit.id, e.origin)
  }

  /** No copy recorded for a source is held by the interface the source belongs to. */
  ghost predicate NoEcho(s: HubState) {
    forall x, j: nat, f :: Lists(s, x, j, f) ==> j < |s.ifaces| && !OwnedBy(x, j)
  }

  lemma NoEchoStep(s: HubState, e: Event)
    requires NoEcho(s) && ValidEvent(|s.ifaces|, e) && OwnId(e)
    requires |s.ifaces| <= WORD64
    requires forall k :: 0 <= k < |s.ifaces| ==> s.ifaces[k].sources <= s.ifaces[k].active.Keys
    ensures NoEcho(Step(s, e))
  {
    var o := e.origin;
    match e
    case Register(_, i, replies) =>
      RegisterEffect(s, o, i, replies);
      forall j: nat | j < |s.ifaces| && OwnedBy(i.id, j) ensures j == o {
        OneOwner(i.id, j, o);
      }
    case Unregister(_, id) =>
      if id in s.ifaces[o].active {
        UnregisterEffect(s, o, id);
      }
  }

  /** While one interface registers or unregisters an id, the hub never enters that interface's own
      doInhibit or doUnInhibit: they would lock the mutex its caller already holds. */
  lemma OriginNotEntered(s: HubState, e: Event)
    requires NoEcho(s) && ValidEvent(|s.ifaces|, e)
    requires e.Unregister? ==> OwnedBy(e.id, e.origin)
    ensures Step(s, e).ifaces[e.origin].entered == s.ifaces[e.origin].entered
  {
    var o := e.origin;
    match e
    case Register(_, i, replies) =>
      ForwardFromEffect(s.(ifaces := s.ifaces[o := Registered(s.ifaces[o], i)]), o, i.id, replies, 0);
    case Unregister(_, id) =>
      if id in s.ifaces[o].active {
        var entries := PlanOf(s.plan, id);
        forall e <- entries ensures e.target != o {
          assert Lists(s, id, e.target, e.id);
        }
        ReleaseAllKeeps(s.ifaces[o := Dropped(s.ifaces[o], id)], entries, o);
      }
  }

  /** No echo and no self-lock hold in every run whose registered ids are the interface's own. */
  lemma {:induction false} NoSelfLock(n: nat, es: seq<Event>, e: Event)
    requires n <= WORD64
    requires forall d <- es + [e] :: ValidEvent(n, d) && OwnId(d)
    requires e.Unregister? ==> OwnedBy(e.id, e.origin)
    ensures e in es + [e] && forall d <- es :: d in es + [e]
    ensures var s := Run(Init(n), es);
            NoEcho(s) && Step(s, e).ifaces[e.origin].entered == s.ifaces[e.origin].entered
  {
    assert forall d <- es :: d in es + [e];
    assert e in es + [e];
    InitCoherent(n);
    NoEchoRun(Init(n), es);
    OriginNotEntered(Run(Init(n), es), e);
  }

  lemma {:induction false} NoEchoRun(s: HubState, es: seq<Event>)
    requires NoEcho(s) && AllCoherent(s) && |s.ifaces| <= WORD64
    requires forall e <- es :: ValidEvent(|s.ifaces|, e) && OwnId(e)
    ensures NoEcho(Run(s, es))
    decreases |es|
  {
    if es != [] {
      CoherentStep(s, es[0]);
      NoEchoStep(s, es[0]);
      NoEchoRun(Step(s, es[0]), es[1..]);
    }
  }

  // ---- no leaked copy ----

  /** What the targets owe the hub so that no copy leaks: a copy is never given an id that is a source
      there, and an application never registers an id that is a copy. Constant copy ids are allowed. */
  ghost predicate Separate(s: HubState, e: Event)
    requires ValidEvent(|s.ifaces|, e)
  {
    e.Register? ==>
      && (forall x :: !Lists(s, x, e.origin, e.inhibit.id))
      && (e.inhibit.id in s.ifaces[e.origin].active ==> e.inhibit.id in s.ifaces[e.origin].sources)
      && (forall k: nat :: Copied(e.origin, e.replies, 0, k) ==> e.replies[k].inhibit.id !in s.ifaces[k].sources)
  }

  /** Source `x` of interface j answers for copy `f` of interface k. */
  predicate Backs(s: HubState, x: InhibitID, j: nat, k: nat, f: InhibitID) {
    Lists(s, x, k, f) && j < |s.ifaces| && x in s.ifaces[j].sources
  }

  ghost predicate Backed(s: HubState, k: nat, f: InhibitID) {
    exists x, j: nat :: Backs(s, x, j, k, f)
  }

  ghost predicate ActiveSource(s: HubState, x: InhibitID) {
    exists j :: 0 <= j < |s.ifaces| && x in s.ifaces[j].sources
  }

  /** Every active copy is recorded under an active source, the plan has entries for active sources only,
      and no recorded copy is a source. */
  ghost predicate NoLeak(s: HubState) {
    && (forall k: nat, f {:trigger Backed(s, k, f)} ::
          k < |s.ifaces| && f in s.ifaces[k].active && f !in s.ifaces[k].sources ==> Backed(s, k, f))
    && (forall x {:trigger ActiveSource(s, x)} :: x in s.plan ==> ActiveSource(s, x))
    && (forall x, k: nat, f :: Lists(s, x, k, f) ==> k < |s.ifaces| && f !in s.ifaces[k].sources)
  }

  lemma BackedAfterRegister(s: HubState, o: nat, i: Inhibit, replies: seq<Reply>, k: nat, f: InhibitID)
    requires NoLeak(s) && k < |s.ifaces| && o < |s.ifaces| == |replies|
    requires var t := RegisterStep(s, o, i, replies); f in t.ifaces[k].active && f !in t.ifaces[k].sources
    ensures Backed(RegisterStep(s, o, i, replies), k, f)
  {
    RegisterEffect(s, o, i, replies);
    var t := RegisterStep(s, o, i, replies);
    if f in s.ifaces[k].active {
      assert Backed(s, k, f);
      var x, j: nat :| Backs(s, x, j, k, f);
      assert Backs(t, x, j, k, f);
    } else {
      assert Backs(t, i.id, o, k, f);
    }
  }

  lemma NoLeakRegister(s: HubState, o: nat, i: Inhibit, replies: seq<Reply>)
    requires NoLeak(s) && o < |s.ifaces| == |replies| && Separate(s, Register(o, i, replies))
    ensures NoLeak(RegisterStep(s, o, i, replies))
  {
    var t := RegisterStep(s, o, i, replies);
    forall k: nat, f | k < |s.ifaces| && f in t.ifaces[k].active && f !in t.ifaces[k].sources
      ensures Backed(t, k, f)
    {
      BackedAfterRegister(s, o, i, replies, k, f);
    }
    RegisterEffect(s, o, i, replies);
    forall x | x in t.plan ensures ActiveSource(t, x) {
      if x == i.id {
        assert x in t.ifaces[o].sources;
      } else {
        assert ActiveSource(s, x);
        var j :| 0 <= j < |s.ifaces| && x in s.ifaces[j].sources;
        assert x in t.ifaces[j].sources;
      }
    }
    forall x, k: nat, f | Lists(t, x, k, f) ensures k < |s.ifaces| && f !in t.ifaces[k].sources {
      if Lists(s, x, k, f) {
        assert !Lists(s, x, o, i.id);
      }
    }
  }

  lemma NoLeakUnregister(s: HubState, o: nat, id: InhibitID)
    requires NoLeak(s) && o < |s.ifaces| && id in s.ifaces[o].active
    requires forall k :: 0 <= k < |s.ifaces| ==> s.ifaces[k].sources <= s.ifaces[k].active.Keys
    ensures NoLeak(UnregisterStep(s, o, id))
  {
    UnregisterEffect(s, o, id);
    var t := UnregisterStep(s, o, id);
    assert forall j, x :: 0 <= j < |s.ifaces| && x in s.ifaces[j].sources && x != id ==> x in t.ifaces[j].sources;
    forall k: nat, f | k < |s.ifaces| && f in t.ifaces[k].active && f !in t.ifaces[k].sources
      ensures Backed(t, k, f)
    {
      assert Backed(s, k, f);
      var x, j: nat :| Backs(s, x, j, k, f);
      assert Backs(t, x, j, k, f);
    }
    forall x | x in t.plan ensures ActiveSource(t, x) {
      assert ActiveSource(s, x);
      var j :| 0 <= j < |s.ifaces| && x in s.ifaces[j].sources;
      assert x in t.ifaces[j].sources;
    }
  }

  lemma NoLeakStep(s: HubState, e: Event)
    requires NoLeak(s) && AllCoherent(s) && ValidEvent(|s.ifaces|, e) && Separate(s, e)
    ensures NoLeak(Step(s, e))
  {
    match e
    case Register(o, i, replies) => NoLeakRegister(s, o, i, replies);
    case Unregister(o, id) => if id in s.ifaces[o].active { NoLeakUnregister(s, o, id); }
  }

  ghost predicate SeparateRun(s: HubState, es: seq<Event>)
    decreases |es|
  {
    es != [] ==>
      && ValidEvent(|s.ifaces|, es[0]) && Separate(s, es[0])
      && SeparateRun(Step(s, es[0]), es[1..])
  }

  lemma {:induction false} SeparateRunIsValid(s: HubState, es: seq<Event>)
    requires SeparateRun(s, es)
    ensures forall e <- es :: ValidEvent(|s.ifaces|, e)
    decreases |es|
  {
    if es != [] {
      SeparateRunIsValid(Step(s, es[0]), es[1..]);
      assert es == [es[0]] + es[1..];
    }
  }

  lemma {:induction false} NoLeakRun(s: HubState, es: seq<Event>)
    requires NoLeak(s) && AllCoherent(s) && SeparateRun(s, es)
    ensures forall e <- es :: ValidEvent(|s.ifaces|, e)
    ensures NoLeak(Run(s, es)) && AllCoherent(Run(s, es))
    decreases |es|
  {
    SeparateRunIsValid(s, es);
    if es != [] {
      CoherentStep(s, es[0]);
      NoLeakStep(s, es[0]);
      NoLeakRun(Step(s, es[0]), es[1..]);
    }
  }

  lemma InitNoLeak(n: nat)
    ensures NoLeak(Init(n)) && AllCoherent(Init(n))
  {
    InitCoherent(n);
  }

  /** No leaked wakelock: in every run, cut loops and refused types included, every copy is recorded
      under a source that is still active; once no source is left, nothing is inhibited anywhere. */
  lemma NoLeakedWakelock(n: nat, es: seq<Event>)
    requires SeparateRun(Init(n), es)
    ensures forall e <- es :: ValidEvent(n, e)
    ensures var s := Run(Init(n), es);
      && NoLeak(s)
      && ((forall k :: 0 <= k < n ==> s.ifaces[k].sources == {}) ==>
            && s.plan == map[]
            && (forall k :: 0 <= k < n ==> s.ifaces[k].active == map[] && s.ifaces[k].last == NONE)
            && s.printed == NONE)
  {
    InitNoLeak(n);
    NoLeakRun(Init(n), es);
    NothingHeldNothingLeft(Run(Init(n), es));
  }

  lemma NothingHeldNothingLeft(s: HubState)
    requires NoLeak(s) && AllCoherent(s)
    ensures (forall k :: 0 <= k < |s.ifaces| ==> s.ifaces[k].sources == {}) ==>
      && s.plan == map[]
      && (forall k :: 0 <= k < |s.ifaces| ==> s.ifaces[k].active == map[] && s.ifaces[k].last == NONE)
      && s.printed == NONE
  {
    if forall k :: 0 <= k < |s.ifaces| ==> s.ifaces[k].sources == {} {
      forall k | 0 <= k < |s.ifaces| ensures s.ifaces[k].active == map[] && s.ifaces[k].last == NONE {
        forall f ensures f !in s.ifaces[k].active {
          assert !Backed(s, k, f);
        }
        assert s.ifaces[k].active.Keys == {};
        assert OrOf(s.ifaces[k].active) == NONE;
      }
      forall x ensures x !in s.plan {
        assert !ActiveSource(s, x);
      }
      assert s.plan.Keys == {};
      assert s.printed == GlobalOr(s);
    }
  }

  // ---- a release undoes its registration ----

  /** Registering a new inhibit and releasing it again leaves every table and the plan as they were, when
      the copies it got were new as well. */
  lemma ReleaseUndoesRegister(s: HubState, o: nat, i: Inhibit, replies: seq<Reply>)
    requires AllCoherent(s) && o < |s.ifaces| == |replies| && i.id !in s.ifaces[o].active && i.id !in s.plan
    requires forall j: nat :: Copied(o, replies, 0, j) ==> replies[j].inhibit.id !in s.ifaces[j].active
    ensures var t := UnregisterStep(RegisterStep(s, o, i, replies), o, i.id);
      && t.plan == s.plan
      && forall j :: 0 <= j < |s.ifaces| ==>
           t.ifaces[j].active == s.ifaces[j].active && t.ifaces[j].sources == s.ifaces[j].sources
  {
    var r := RegisterStep(s, o, i, replies);
    var t := UnregisterStep(r, o, i.id);
    RegisterEffect(s, o, i, replies);
    CoherentStep(s, Register(o, i, replies));
    UnregisterEffect(r, o, i.id);
    assert s.plan - {i.id} == s.plan;
    forall j: nat, f ensures Lists(r, i.id, j, f) <==> Copied(o, replies, 0, j) && replies[j].inhibit.id == f {
    }
    forall j: nat | j < |s.ifaces|
      ensures t.ifaces[j].active == s.ifaces[j].active && t.ifaces[j].sources == s.ifaces[j].sources
    {
      var copied := Copied(o, replies, 0, j);
      TableRestored(s.ifaces[j], r.ifaces[j], t.ifaces[j], j == o, copied, i, if copied then replies[j].inhibit else i);
    }
  }

  lemma TableRestored(was: Iface, mid: Iface, now: Iface, here: bool, copied: bool, own: Inhibit, copy: Inhibit)
    requires !(here && copied) && was.sources <= was.active.Keys
    requires (here ==> own.id !in was.active) && (copied ==> copy.id !in was.active)
    requires mid.active == if here then Inserted(was.active, own) else if copied then Inserted(was.active, copy) else was.active
    requires mid.sources == if here then was.sources + {own.id} else was.sources
    requires forall f :: f in now.active <==> f in mid.active && !(here && f == own.id) && !(copied && f == copy.id)
    requires forall f :: f in now.active ==> now.active[f] == mid.active[f]
    requires forall f :: f in now.sources <==> f in mid.sources && !(here && f == own.id) && !(copied && f == copy.id)
    ensures now.active == was.active && now.sources == was.sources
  {
    assert now.active.Keys == was.active.Keys;
  }

  // ---- exit ----

  /** The tables after every copy of the plan has been undone. */
  ghost predicate CopiesUndone(s: HubState, ifaces: seq<Iface>) {
    && |ifaces| == |s.ifaces|
    && forall k :: 0 <= k < |ifaces| ==>
         && Coherent(ifaces[k])
         && (forall f :: f in ifaces[k].active <==> f in s.ifaces[k].active && forall x :: !Lists(s, x, k, f))
         && (forall f :: f in ifaces[k].active ==> ifaces[k].active[f] == s.ifaces[k].active[f])
         && (forall f :: f in ifaces[k].sources <==> f in s.ifaces[k].sources && forall x :: !Lists(s, x, k, f))
  }

  /** handleExit after any run undoes every copy, drops the plan and keeps exactly the sources, each
      as it was. */
  lemma ExitAfterRun(n: nat, es: seq<Event>, ifaces: seq<Iface>)
    requires SeparateRun(Init(n), es)
    ensures forall e <- es :: ValidEvent(n, e)
    ensures var s := Run(Init(n), es);
      CopiesUndone(s, ifaces) ==> forall k :: 0 <= k < n ==>
        && ifaces[k].active.Keys == ifaces[k].sources == s.ifaces[k].sources
        && (forall x <- ifaces[k].sources :: ifaces[k].active[x] == s.ifaces[k].active[x])
  {
    InitNoLeak(n);
    NoLeakRun(Init(n), es);
    if CopiesUndone(Run(Init(n), es), ifaces) {
      ExitKeepsSources(Run(Init(n), es), ifaces);
    }
  }

  /** Undoing the plan on exit leaves exactly the sources, each as it was. */
  lemma ExitKeepsSources(s: HubState, ifaces: seq<Iface>)
    requires NoLeak(s) && AllCoherent(s) && CopiesUndone(s, ifaces)
    ensures forall k :: 0 <= k < |ifaces| ==>
      && ifaces[k].active.Keys == ifaces[k].sources == s.ifaces[k].sources
      && (forall x <- ifaces[k].sources :: ifaces[k].active[x] == s.ifaces[k].active[x])
  {
    forall k | 0 <= k < |ifaces|
      ensures ifaces[k].active.Keys == ifaces[k].sources == s.ifaces[k].sources
    {
      assert forall f :: f in s.ifaces[k].sources ==> f in s.ifaces[k].active;
      forall f | f in ifaces[k].active ensures f in s.ifaces[k].sources {
        assert forall x, j: nat :: !Backs(s, x, j, k, f);
        assert !Backed(s, k, f);
      }
    }
  }
}
