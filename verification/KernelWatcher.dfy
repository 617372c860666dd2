/** The kernel interface's watcher and drain: a second thread compares the lock file with the table and
    fills two queues, the main loop empties them. */
module KernelWatcher {
  import opened InhibitTypes
  import opened Ids
  import opened HubSpec
  import opened HubSafety
  import opened HubSharing
  import opened SimpleDBus
  import opened Framing
  import opened KernelLocks

  /** The hub, the two queues and the ids of our own locks, seen from kernel interface k. */
  datatype Watch = Watch(hub: HubState, k: nat, registerQueue: seq<Inhibit>, unregisterQueue: seq<InhibitID>,
                         ours: set<InhibitID>)

  // ---- one pass of the watcher ----

  predicate Tracked(active: set<InhibitID>, lock: string) {
    exists id :: id in active && LockNameOf(id) == lock
  }

  function NewLock(k: nat, lock: string, now: nat): Inhibit {
    Inhibit(SUSPEND, "unknown-app", lock, LockId(k, lock), now)
  }

  /** The locks of the file that are not tracked yet and not our own. */
  function Appeared(k: nat, active: set<InhibitID>, ours: set<InhibitID>, locks: seq<string>, now: nat): seq<Inhibit> {
    if locks == [] then [] else
    var l := locks[|locks| - 1];
    Appeared(k, active, ours, locks[..|locks| - 1], now)
      + if Tracked(active, l) || LockId(k, l) in ours then [] else [NewLock(k, l, now)]
  }

  predicate IsGone(ours: set<InhibitID>, locks: seq<string>, id: InhibitID) {
    LockNameOf(id) !in locks && id !in ours
  }

  /** An enumeration of the tracked ids, our own excepted, whose locks are not in the file any more. */
  ghost predicate Disappeared(k: nat, active: set<InhibitID>, ours: set<InhibitID>, locks: seq<string>, gone: seq<InhibitID>) {
    && (forall g :: g in gone ==> exists id :: id in active && IsGone(ours, locks, id) && g == LockId(k, LockNameOf(id)))
    && (forall id :: id in active && IsGone(ours, locks, id) ==> LockId(k, LockNameOf(id)) in gone)
  }

  function IdsOf(k: nat, locks: seq<string>): set<InhibitID> {
    set l | l in locks :: LockId(k, l)
  }

  function IdSet(q: seq<Inhibit>): set<InhibitID> {
    set r | r in q :: r.id
  }

  function AsSet(ids: seq<InhibitID>): set<InhibitID> {
    set id | id in ids
  }

  /** The name fits the id field, so it can compare equal to the name inside an id. */
  predicate Fits(lock: string) {
    |lock| <= 1023
  }

  /** The ids of the names that fit, and of those that do not. */
  function ShortIds(k: nat, locks: seq<string>): set<InhibitID> {
    set l | l in locks && Fits(l) :: LockId(k, l)
  }

  function LongIds(k: nat, locks: seq<string>): set<InhibitID> {
    set l | l in locks && !Fits(l) :: LockId(k, l)
  }

  lemma IdsByLength(k: nat, locks: seq<string>)
    ensures IdsOf(k, locks) == ShortIds(k, locks) + LongIds(k, locks)
  {
  }

  lemma TrackedIsActive(k: nat, active: set<InhibitID>, lock: string)
    requires (forall id <- active :: Canonical(k, id)) && Listable(lock)
    ensures Tracked(active, lock) <==> Fits(lock) && LockId(k, lock) in active
  {
    forall id | id in active ensures LockNameOf(id) == lock <==> Fits(lock) && id == LockId(k, lock) {
      if Fits(lock) { SameNameSameId(k, id, lock); } else { LongNameNeverEqual(k, id, lock); }
    }
  }

  /** What a pass queues for registration: the ids of the file that are neither tracked nor ours, and every
      time again the ids of the names that do not fit. */
  lemma {:induction false} AppearedIsDifference(k: nat, active: set<InhibitID>, ours: set<InhibitID>, locks: seq<string>, now: nat)
    requires (forall id <- active :: Canonical(k, id)) && AllListable(locks)
    ensures IdSet(Appeared(k, active, ours, locks, now)) == (ShortIds(k, locks) - active) + LongIds(k, locks) - ours
    decreases |locks|
  {
    if locks != [] {
      var init, l := locks[..|locks| - 1], locks[|locks| - 1];
      assert l in locks && forall x <- init :: x in locks;
      AppearedIsDifference(k, active, ours, init, now);
      TrackedIsActive(k, active, l);
      IdsOfLast(k, locks);
      OneMore(Appeared(k, active, ours, init, now), ShortIds(k, init), LongIds(k, init), active, ours, NewLock(k, l, now), Fits(l));
    }
  }

  lemma OneMore(q: seq<Inhibit>, short: set<InhibitID>, long: set<InhibitID>, active: set<InhibitID>,
                ours: set<InhibitID>, r: Inhibit, fits: bool)
    requires IdSet(q) == (short - active) + long - ours
    ensures IdSet(q + if (fits && r.id in active) || r.id in ours then [] else [r])
         == ((short + if fits then {r.id} else {}) - active) + (long + if fits then {} else {r.id}) - ours
  {
    IdSetAppend(q, [r]);
    IdSetOne(r);
    assert q + [] == q;
  }

  lemma IdsOfLast(k: nat, locks: seq<string>)
    requires locks != []
    ensures var init, l := locks[..|locks| - 1], locks[|locks| - 1];
      && ShortIds(k, locks) == ShortIds(k, init) + (if Fits(l) then {LockId(k, l)} else {})
      && LongIds(k, locks) == LongIds(k, init) + (if Fits(l) then {} else {LockId(k, l)})
  {
    assert locks == locks[..|locks| - 1] + [locks[|locks| - 1]];
  }

  lemma IdSetAppend(a: seq<Inhibit>, b: seq<Inhibit>)
    ensures IdSet(a + b) == IdSet(a) + IdSet(b)
  {
    assert forall r :: r in a + b <==> r in a || r in b;
    forall id | id in IdSet(a) + IdSet(b) ensures id in IdSet(a + b) {
      var r :| (r in a || r in b) && r.id == id;
      assert r in a + b;
    }
  }

  lemma IdSetOne(r: Inhibit)
    ensures IdSet([r]) == {r.id}
  {
    assert r in [r];
  }

  /** What a pass queues for release: the tracked ids that no fitting name of the file has, ours excepted. */
  lemma DisappearedIsDifference(k: nat, active: set<InhibitID>, ours: set<InhibitID>, locks: seq<string>, gone: seq<InhibitID>)
    requires (forall id <- active :: Canonical(k, id)) && AllListable(locks)
    requires Disappeared(k, active, ours, locks, gone)
    ensures AsSet(gone) == active - ShortIds(k, locks) - ours
  {
    forall id | id in active ensures LockNameOf(id) in locks <==> id in ShortIds(k, locks) {
      NamedInFile(k, locks, id);
    }
    assert forall id <- active :: LockId(k, LockNameOf(id)) == id;
  }

  lemma NamedInFile(k: nat, locks: seq<string>, id: InhibitID)
    requires Canonical(k, id) && AllListable(locks)
    ensures LockNameOf(id) in locks <==> id in ShortIds(k, locks)
  {
    if id in ShortIds(k, locks) {
      var l :| l in locks && Fits(l) && LockId(k, l) == id;
      SameNameSameId(k, id, l);
    }
    if LockNameOf(id) in locks {
      var l := LockNameOf(id);
      if !Fits(l) { LongNameNeverEqual(k, id, l); }
      SameNameSameId(k, id, l);
    }
  }

  /** Nothing of ours is ever queued: a lock of our own, listed under the name the helper wrote, is not
      registered, and an id of our own is not released, whatever else the file and the table hold. */
  lemma EchoSuppressed(k: nat, active: set<InhibitID>, ours: set<InhibitID>, locks: seq<string>, now: nat,
                       gone: seq<InhibitID>, name: string)
    requires (forall id <- active :: Canonical(k, id)) && Disappeared(k, active, ours, locks, gone)
    requires Plain(name) && LockId(k, name) in ours
    ensures forall r <- Appeared(k, active, ours, locks, now) :: r.reason != Decode(name).name && r.id !in ours
    ensures LockId(k, name) !in gone
  {
    EchoHasOurId(k, name);
    AppearedIsForeign(k, active, ours, locks, now);
  }

  lemma {:induction false} AppearedIsForeign(k: nat, active: set<InhibitID>, ours: set<InhibitID>, locks: seq<string>, now: nat)
    ensures forall r <- Appeared(k, active, ours, locks, now) :: r == NewLock(k, r.reason, now) && r.id !in ours
  {
    if locks != [] { AppearedIsForeign(k, active, ours, locks[..|locks| - 1], now); }
  }

  // ---- passes and drains ----

  /** One turn of either thread; `gone` is the order in which the pass visits the ids it releases. */
  datatype Turn = Pass(now: nat, gone: seq<InhibitID>) | Drain(answers: seq<seq<Reply>>)

  function Active(s: Watch): set<InhibitID>
    requires s.k < |s.hub.ifaces|
  {
    s.hub.ifaces[s.k].active.Keys
  }

  ghost predicate ValidTurn(s: Watch, t: Turn, locks: seq<string>) {
    && s.k < |s.hub.ifaces|
    && match t
       case Pass(_, gone) => Disappeared(s.k, Active(s), s.ours, locks, gone)
       case Drain(answers) => |answers| == |s.registerQueue| && forall a <- answers :: |a| == |s.hub.ifaces|
  }

  function Registers(k: nat, q: seq<Inhibit>, answers: seq<seq<Reply>>): (es: seq<Event>)
    requires |q| == |answers|
    ensures |es| == |q| && forall i :: 0 <= i < |q| ==> es[i] == Register(k, q[i], answers[i])
  {
    seq(|q|, i requires 0 <= i < |q| => Register(k, q[i], answers[i]))
  }

  /** Registrations first, then releases. */
  function DrainEvents(s: Watch, answers: seq<seq<Reply>>): seq<Event>
    requires |answers| == |s.registerQueue|
  {
    Registers(s.k, s.registerQueue, answers) + Unregisters(s.k, s.unregisterQueue)
  }

  ghost function TakeTurn(s: Watch, t: Turn, locks: seq<string>): Watch
    requires ValidTurn(s, t, locks)
  {
    match t
    case Pass(now, gone) =>
      s.(registerQueue := s.registerQueue + Appeared(s.k, Active(s), s.ours, locks, now),
         unregisterQueue := s.unregisterQueue + gone)
    case Drain(answers) =>
      s.(hub := Run(s.hub, DrainEvents(s, answers)), registerQueue := [], unregisterQueue := [])
  }

  /** Ids of interface k in normal form. */
  function CanonAt(k: nat): InhibitID -> bool {
    id => Canonical(k, id)
  }

  /** Safe: everything in the table and in the queues is an id of this interface in normal form. */
  ghost predicate Sound(s: Watch, canon: InhibitID -> bool) {
    && s.k < |s.hub.ifaces| <= WORD64 && AllCoherent(s.hub) && NoEcho(s.hub)
    && (forall id :: canon(id) ==> OwnedBy(id, s.k))
    && (forall id :: id in Active(s) ==> canon(id))
    && (forall r :: r in s.registerQueue ==> canon(r.id))
    && (forall id :: id in s.unregisterQueue ==> canon(id))
  }

  lemma RegisterOne(hub: HubState, k: nat, r: Inhibit, answers: seq<Reply>)
    requires k < |hub.ifaces| == |answers|
    ensures RegisterStep(hub, k, r, answers).ifaces[k].active.Keys == hub.ifaces[k].active.Keys + {r.id}
  {
    RegisterEffect(hub, k, r, answers);
  }

  lemma IdSetNext(q: seq<Inhibit>)
    requires q != []
    ensures IdSet(q) == {q[0].id} + IdSet(q[1..])
  {
    assert q == [q[0]] + q[1..];
    IdSetAppend([q[0]], q[1..]);
    IdSetOne(q[0]);
  }

  lemma {:induction false} RegisterMany(hub: HubState, k: nat, q: seq<Inhibit>, answers: seq<seq<Reply>>)
    requires k < |hub.ifaces|
    requires |q| == |answers| && forall a <- answers :: |a| == |hub.ifaces|
    ensures Run(hub, Registers(k, q, answers)).ifaces[k].active.Keys == hub.ifaces[k].active.Keys + IdSet(q)
    decreases |q|
  {
    if q != [] {
      RegisterOne(hub, k, q[0], answers[0]);
      assert Registers(k, q, answers)[1..] == Registers(k, q[1..], answers[1..]);
      RegisterMany(RegisterStep(hub, k, q[0], answers[0]), k, q[1..], answers[1..]);
      IdSetNext(q);
    }
  }

  lemma UnregisterMany(hub: HubState, k: nat, ids: seq<InhibitID>)
    requires k < |hub.ifaces| <= WORD64 && AllCoherent(hub) && NoEcho(hub)
    requires forall id <- ids :: OwnedBy(id, k)
    ensures Run(hub, Unregisters(k, ids)).ifaces[k].active.Keys == hub.ifaces[k].active.Keys - AsSet(ids)
  {
    ReleaseIds(hub, k, ids);
    forall f ensures !ReleasedBy(hub, k, ids, k, f) {
    }
  }

  /** A drain adds the queued ids and then takes away the queued releases. */
  lemma DrainEffect(s: Watch, answers: seq<seq<Reply>>, locks: seq<string>, canon: InhibitID -> bool)
    requires Sound(s, canon) && ValidTurn(s, Drain(answers), locks)
    ensures var t := TakeTurn(s, Drain(answers), locks);
      Sound(t, canon) && Active(t) == (Active(s) + IdSet(s.registerQueue)) - AsSet(s.unregisterQueue)
  {
    var regs, unregs := Registers(s.k, s.registerQueue, answers), Unregisters(s.k, s.unregisterQueue);
    RegisterMany(s.hub, s.k, s.registerQueue, answers);
    CoherentRun(s.hub, regs);
    NoEchoRun(s.hub, regs);
    UnregisterMany(Run(s.hub, regs), s.k, s.unregisterQueue);
    RunAppend(s.hub, regs, unregs);
    CoherentRun(s.hub, regs + unregs);
    NoEchoRun(s.hub, regs + unregs);
  }

  // ---- what the queued locks are ----

  /** What a pass queues for registration, entry by entry: suspend inhibits of nobody known, each with the name of
      a lock of the file as its reason, the id of that name and the time of the pass. */
  lemma {:induction false} QueuedLocks(k: nat, active: set<InhibitID>, ours: set<InhibitID>, locks: seq<string>, now: nat)
    ensures forall r <- Appeared(k, active, ours, locks, now) ::
      && r.kind == Flags(false, true) && r.appname == "unknown-app" && r.reason in locks
      && r.id == LockId(k, r.reason) && r.created == now
  {
    if locks != [] {
      var init, l := locks[..|locks| - 1], locks[|locks| - 1];
      assert locks == init + [l];
      QueuedLocks(k, active, ours, init, now);
    }
  }

  /** They are queued in the order of the file. */
  lemma {:induction false} AppearedOfConcat(k: nat, active: set<InhibitID>, ours: set<InhibitID>, a: seq<string>, b: seq<string>, now: nat)
    ensures Appeared(k, active, ours, a + b, now) == Appeared(k, active, ours, a, now) + Appeared(k, active, ours, b, now)
    decreases |b|
  {
    if b == [] {
      assert a + b == a;
    } else {
      assert (a + b)[..|a + b| - 1] == a + b[..|b| - 1];
      AppearedOfConcat(k, active, ours, a, b[..|b| - 1], now);
    }
  }

  predicate HoldsSuspend(i: Inhibit) {
    i.kind == Flags(false, true) && i.appname == "unknown-app"
  }

  /** The entry is of the kind the watcher makes, or was there at the start. */
  ghost predicate FromWatcher(start: map<InhibitID, Inhibit>, active: map<InhibitID, Inhibit>, id: InhibitID) {
    id in active && (HoldsSuspend(active[id]) || (id in start && active[id] == start[id]))
  }

  ghost predicate AllFromWatcher(start: map<InhibitID, Inhibit>, hub: HubState, k: nat)
    requires k < |hub.ifaces|
  {
    forall id :: id in hub.ifaces[k].active ==> FromWatcher(start, hub.ifaces[k].active, id)
  }

  ghost predicate OnlyLocksAdded(start: map<InhibitID, Inhibit>, s: Watch) {
    && s.k < |s.hub.ifaces|
    && AllFromWatcher(start, s.hub, s.k)
    && (forall r :: r in s.registerQueue ==> HoldsSuspend(r))
  }

  lemma RegisteredLock(hub: HubState, k: nat, r: Inhibit, answers: seq<Reply>, start: map<InhibitID, Inhibit>)
    requires k < |hub.ifaces| == |answers| && HoldsSuspend(r)
    requires AllFromWatcher(start, hub, k)
    ensures AllFromWatcher(start, RegisterStep(hub, k, r, answers), k)
  {
    RegisterEffect(hub, k, r, answers);
    var active := RegisterStep(hub, k, r, answers).ifaces[k].active;
    forall id | id in active ensures FromWatcher(start, active, id) {
      if id in hub.ifaces[k].active { assert FromWatcher(start, hub.ifaces[k].active, id); }
    }
  }

  lemma {:induction false} RegisteredLocks(hub: HubState, k: nat, q: seq<Inhibit>, answers: seq<seq<Reply>>,
                                           start: map<InhibitID, Inhibit>)
    requires k < |hub.ifaces| && |q| == |answers| && forall a <- answers :: |a| == |hub.ifaces|
    requires AllFromWatcher(start, hub, k)
    requires forall r :: r in q ==> HoldsSuspend(r)
    ensures AllFromWatcher(start, Run(hub, Registers(k, q, answers)), k)
    decreases |q|
  {
    if q == [] {
      assert Run(hub, Registers(k, q, answers)) == hub;
    } else {
      RegisteredLock(hub, k, q[0], answers[0], start);
      assert Registers(k, q, answers)[1..] == Registers(k, q[1..], answers[1..]);
      RegisteredLocks(RegisterStep(hub, k, q[0], answers[0]), k, q[1..], answers[1..], start);
    }
  }

  lemma LocksAfterTurn(s: Watch, t: Turn, locks: seq<string>, start: map<InhibitID, Inhibit>)
    requires SoundWatch(s) && ValidTurn(s, t, locks) && OnlyLocksAdded(start, s)
    ensures OnlyLocksAdded(start, TakeTurn(s, t, locks))
  {
    match t
    case Pass(now, _) => QueuedLocks(s.k, Active(s), s.ours, locks, now);
    case Drain(answers) =>
      var regs, unregs := Registers(s.k, s.registerQueue, answers), Unregisters(s.k, s.unregisterQueue);
      RegisteredLocks(s.hub, s.k, s.registerQueue, answers, start);
      var hub := Run(s.hub, regs);
      CoherentRun(s.hub, regs);
      NoEchoRun(s.hub, regs);
      RunAppend(s.hub, regs, unregs);
      ReleaseIds(hub, s.k, s.unregisterQueue);
      KeptEntries(hub, Run(hub, unregs), s.k, s.unregisterQueue, start);
  }

  lemma KeptEntries(hub: HubState, t: HubState, k: nat, ids: seq<InhibitID>, start: map<InhibitID, Inhibit>)
    requires k < |hub.ifaces| && AllReleased(hub, t, k, ids) && AllFromWatcher(start, hub, k)
    ensures AllFromWatcher(start, t, k)
  {
    forall id | id in t.ifaces[k].active ensures FromWatcher(start, t.ifaces[k].active, id) {
      assert id in hub.ifaces[k].active && t.ifaces[k].active[id] == hub.ifaces[k].active[id];
    }
  }

  /** A kernel lock inhibits suspend and nothing else: after any schedule from empty queues every entry of the
      table is what it was at the start or an inhibit of exactly suspend. */
  lemma {:induction false} LocksInhibitSuspend(s: Watch, ts: seq<Turn>, locks: seq<string>, start: map<InhibitID, Inhibit>)
    requires ValidSchedule(s, ts, locks) && SoundWatch(s) && OnlyLocksAdded(start, s)
    ensures var u := TakeTurns(s, ts, locks);
      forall id :: id in u.hub.ifaces[u.k].active ==>
        var i := u.hub.ifaces[u.k].active[id];
        (i.kind == Flags(false, true) && i.appname == "unknown-app") || (id in start && i == start[id])
    decreases |ts|
  {
    if ts != [] {
      LocksAfterTurn(s, ts[0], locks, start);
      SoundTurn(s, ts[0], locks);
      LocksInhibitSuspend(TakeTurn(s, ts[0], locks), ts[1..], locks, start);
    } else {
      forall id | id in s.hub.ifaces[s.k].active
        ensures HoldsSuspend(s.hub.ifaces[s.k].active[id]) || (id in start && s.hub.ifaces[s.k].active[id] == start[id])
      {
        assert FromWatcher(start, s.hub.ifaces[s.k].active, id);
      }
    }
  }

  lemma PassThenDrain(s: Watch, now: nat, gone: seq<InhibitID>, answers: seq<seq<Reply>>, locks: seq<string>)
    requires ValidSchedule(s, [Pass(now, gone), Drain(answers)], locks)
    ensures ValidTurn(s, Pass(now, gone), locks)
    ensures var p := TakeTurn(s, Pass(now, gone), locks);
      ValidTurn(p, Drain(answers), locks)
      && TakeTurns(s, [Pass(now, gone), Drain(answers)], locks) == TakeTurn(p, Drain(answers), locks)
  {
    var ts := [Pass(now, gone), Drain(answers)];
    assert ts[1..] == [Drain(answers)] && ts[1..][1..] == [];
    var p := TakeTurn(s, ts[0], locks);
    assert TakeTurns(s, ts, locks) == TakeTurns(p, ts[1..], locks) == TakeTurn(p, Drain(answers), locks);
  }

  lemma IdsOfQueued(k: nat, q: seq<Inhibit>, locks: seq<string>)
    requires forall r <- q :: r.reason in locks && r.id == LockId(k, r.reason)
    ensures IdSet(q) <= IdsOf(k, locks)
  {
  }

  lemma OnlyListedIdsAppear(s: Watch, now: nat, gone: seq<InhibitID>, answers: seq<seq<Reply>>, locks: seq<string>)
    requires SoundWatch(s) && Idle(s) && ValidSchedule(s, [Pass(now, gone), Drain(answers)], locks)
    ensures var u := TakeTurns(s, [Pass(now, gone), Drain(answers)], locks);
            u.k < |u.hub.ifaces| && Active(u) <= Active(s) + IdsOf(s.k, locks)
  {
    PassThenDrain(s, now, gone, answers, locks);
    var p := TakeTurn(s, Pass(now, gone), locks);
    SoundTurn(s, Pass(now, gone), locks);
    DrainEffect(p, answers, locks, CanonAt(s.k));
    QueuedLocks(s.k, Active(s), s.ours, locks, now);
    assert p.registerQueue == Appeared(s.k, Active(s), s.ours, locks, now);
    IdsOfQueued(s.k, p.registerQueue, locks);
  }

  /** After a pass and a drain every id that became active is that of a lock of the file and holds exactly
      suspend. */
  lemma NewLocksHoldSuspend(s: Watch, now: nat, gone: seq<InhibitID>, answers: seq<seq<Reply>>, locks: seq<string>)
    requires SoundWatch(s) && Idle(s) && ValidSchedule(s, [Pass(now, gone), Drain(answers)], locks)
    ensures var was, u := s.hub.ifaces[s.k].active, TakeTurns(s, [Pass(now, gone), Drain(answers)], locks);
      && u.k < |u.hub.ifaces|
      && forall id :: id in u.hub.ifaces[u.k].active && id !in was ==>
           u.hub.ifaces[u.k].active[id].kind == Flags(false, true) && id in IdsOf(s.k, locks)
  {
    var was := s.hub.ifaces[s.k].active;
    assert forall id :: id in was ==> FromWatcher(was, was, id);
    LocksInhibitSuspend(s, [Pass(now, gone), Drain(answers)], locks, was);
    OnlyListedIdsAppear(s, now, gone, answers, locks);
    var u := TakeTurns(s, [Pass(now, gone), Drain(answers)], locks);
    forall id | id in u.hub.ifaces[u.k].active && id !in was ensures id in IdsOf(s.k, locks) {
      assert id in Active(u) && id !in Active(s);
    }
  }

  // ---- what a pass leaves behind ----

  /** The names of a file: those whose ids can be compared, and those whose ids cannot. */
  datatype Target = Target(short: set<InhibitID>, long: set<InhibitID>)

  function TargetOf(k: nat, locks: seq<string>): Target {
    Target(ShortIds(k, locks), LongIds(k, locks))
  }

  predicate Idle(s: Watch) {
    s.registerQueue == [] && s.unregisterQueue == []
  }

  /** What a pass adds to the queues, in normal form. */
  ghost predicate Differences(s: Watch, added: seq<Inhibit>, gone: seq<InhibitID>, goal: Target,
                              canon: InhibitID -> bool) {
    && s.k < |s.hub.ifaces|
    && IdSet(added) == (goal.short - Active(s)) + goal.long - s.ours && AsSet(gone) == Active(s) - goal.short - s.ours
    && (forall r :: r in added ==> canon(r.id)) && (forall id :: id in gone ==> canon(id))
  }

  /** Whatever the file holds, a pass queues ids in normal form only. */
  lemma PassIsCanonical(s: Watch, t: Turn, locks: seq<string>)
    requires ValidTurn(s, t, locks) && t.Pass?
    ensures forall r :: r in Appeared(s.k, Active(s), s.ours, locks, t.now) ==> Canonical(s.k, r.id)
    ensures forall id :: id in t.gone ==> Canonical(s.k, id)
  {
    AppearedIsForeign(s.k, Active(s), s.ours, locks, t.now);
    forall r | r in Appeared(s.k, Active(s), s.ours, locks, t.now) ensures Canonical(s.k, r.id) {
      LockIdCanonical(s.k, r.reason);
    }
    forall g | g in t.gone ensures Canonical(s.k, g) {
      var id :| id in Active(s) && IsGone(s.ours, locks, id) && g == LockId(s.k, LockNameOf(id));
      LockIdCanonical(s.k, LockNameOf(id));
    }
  }

  lemma PassFindsDifferences(s: Watch, t: Turn, locks: seq<string>)
    requires ValidTurn(s, t, locks) && t.Pass? && AllListable(locks) && forall id :: id in Active(s) ==> Canonical(s.k, id)
    ensures Differences(s, Appeared(s.k, Active(s), s.ours, locks, t.now), t.gone, TargetOf(s.k, locks), CanonAt(s.k))
  {
    AppearedIsDifference(s.k, Active(s), s.ours, locks, t.now);
    DisappearedIsDifference(s.k, Active(s), s.ours, locks, t.gone);
    PassIsCanonical(s, t, locks);
  }

  // ---- the sets behind the queues ----

  /** The table and the two queues as sets of ids. */
  datatype Sets = Sets(active: set<InhibitID>, added: set<InhibitID>, dropped: set<InhibitID>)

  function SetsOf(s: Watch): Sets
    requires s.k < |s.hub.ifaces|
  {
    Sets(Active(s), IdSet(s.registerQueue), AsSet(s.unregisterQueue))
  }

  /** One turn, on sets. */
  function SetTurn(q: Sets, pass: bool, goal: Target, ours: set<InhibitID>): Sets {
    if pass then
      q.(added := q.added + ((goal.short - q.active) + goal.long - ours),
         dropped := q.dropped + (q.active - goal.short - ours))
    else Sets((q.active + q.added) - q.dropped, {}, {})
  }

  function SetTurns(q: Sets, ts: seq<Turn>, goal: Target, ours: set<InhibitID>): Sets
    decreases |ts|
  {
    if ts == [] then q else SetTurns(SetTurn(q, ts[0].Pass?, goal, ours), ts[1..], goal, ours)
  }

  lemma PassOnSets(s: Watch, added: seq<Inhibit>, gone: seq<InhibitID>, goal: Target, canon: InhibitID -> bool)
    requires Sound(s, canon) && Differences(s, added, gone, goal, canon)
    ensures var u := s.(registerQueue := s.registerQueue + added, unregisterQueue := s.unregisterQueue + gone);
            Sound(u, canon) && SetsOf(u) == SetTurn(SetsOf(s), true, goal, s.ours)
  {
    IdSetAppend(s.registerQueue, added);
    assert AsSet(s.unregisterQueue + gone) == AsSet(s.unregisterQueue) + AsSet(gone);
  }

  lemma DrainOnSets(s: Watch, answers: seq<seq<Reply>>, locks: seq<string>, goal: Target, canon: InhibitID -> bool)
    requires Sound(s, canon) && ValidTurn(s, Drain(answers), locks)
    ensures var u := TakeTurn(s, Drain(answers), locks);
            u.k == s.k && u.ours == s.ours && Sound(u, canon) && SetsOf(u) == SetTurn(SetsOf(s), false, goal, s.ours)
  {
    DrainEffect(s, answers, locks, canon);
    EmptyQueues(TakeTurn(s, Drain(answers), locks));
  }

  lemma EmptyQueues(s: Watch)
    requires Idle(s)
    ensures IdSet(s.registerQueue) == {} && AsSet(s.unregisterQueue) == {}
  {
  }

  ghost predicate SoundWatch(s: Watch) {
    Sound(s, CanonAt(s.k))
  }

  /** One turn of either thread does to the sets what SetTurn says, whatever names the file holds. */
  lemma TurnOnSets(s: Watch, t: Turn, locks: seq<string>, goal: Target)
    requires ValidTurn(s, t, locks) && AllListable(locks) && SoundWatch(s) && goal == TargetOf(s.k, locks)
    ensures var u := TakeTurn(s, t, locks);
      && u.k == s.k && u.ours == s.ours && SoundWatch(u)
      && SetsOf(u) == SetTurn(SetsOf(s), t.Pass?, goal, s.ours)
  {
    var canon := CanonAt(s.k);
    match t
    case Pass(now, gone) =>
      assert forall id :: id in Active(s) ==> canon(id);
      PassFindsDifferences(s, t, locks);
      PassOnSets(s, Appeared(s.k, Active(s), s.ours, locks, now), gone, goal, canon);
    case Drain(answers) =>
      DrainOnSets(s, answers, locks, goal, canon);
  }

  ghost predicate ValidSchedule(s: Watch, ts: seq<Turn>, locks: seq<string>)
    decreases |ts|
  {
    ts != [] ==> ValidTurn(s, ts[0], locks) && ValidSchedule(TakeTurn(s, ts[0], locks), ts[1..], locks)
  }

  ghost function TakeTurns(s: Watch, ts: seq<Turn>, locks: seq<string>): (u: Watch)
    requires ValidSchedule(s, ts, locks)
    ensures u.k == s.k && u.ours == s.ours && |u.hub.ifaces| == |s.hub.ifaces|
    decreases |ts|
  {
    if ts == [] then s else TakeTurns(TakeTurn(s, ts[0], locks), ts[1..], locks)
  }

  /** So does every schedule of turns over one file. */
  lemma {:induction false} ScheduleOnSets(s: Watch, ts: seq<Turn>, locks: seq<string>, goal: Target)
    requires ValidSchedule(s, ts, locks) && AllListable(locks) && SoundWatch(s) && goal == TargetOf(s.k, locks)
    ensures var u := TakeTurns(s, ts, locks);
      u.k < |u.hub.ifaces| && SetsOf(u) == SetTurns(SetsOf(s), ts, goal, s.ours)
    decreases |ts|
  {
    if ts != [] {
      TurnOnSets(s, ts[0], locks, goal);
      ScheduleOnSets(TakeTurn(s, ts[0], locks), ts[1..], locks, goal);
    }
  }

  // ---- rounds ----

  /** How far the queues are: 0 stale, 1 empty after a drain, 2 as left by one or more passes after a drain. */
  function Advance(stage: nat, pass: bool): nat {
    if !pass then 1 else if stage == 0 then 0 else 2
  }

  function StageAfter(stage: nat, ts: seq<Turn>): nat
    decreases |ts|
  {
    if ts == [] then stage else StageAfter(Advance(stage, ts[0].Pass?), ts[1..])
  }

  /** How many rounds are complete after a schedule: a drain that follows a pass that follows a drain. */
  function Rounds(stage: nat, done: nat, ts: seq<Turn>): nat
    decreases |ts|
  {
    if ts == [] then done
    else Rounds(Advance(stage, ts[0].Pass?), if stage == 2 && ts[0].Drain? then done + 1 else done, ts[1..])
  }

  /** What a round makes of a table: exactly the locks with fitting names, and those of the others that were
      not there before. */
  function AfterRound(was: set<InhibitID>, goal: Target): set<InhibitID> {
    goal.short + (goal.long - was)
  }

  function AfterRounds(start: set<InhibitID>, goal: Target, rounds: nat): set<InhibitID> {
    if rounds == 0 then start else AfterRound(AfterRounds(start, goal, rounds - 1), goal)
  }

  /** Once there was a round, a lock whose name fits is active exactly if the file has it, and one whose name
      does not fit has been turned over once for each round. */
  lemma {:induction false} ParityOfRounds(start: set<InhibitID>, goal: Target, rounds: nat, id: InhibitID)
    requires rounds > 0
    ensures id in AfterRounds(start, goal, rounds) <==>
            id in goal.short || (id in goal.long && (id in start <==> rounds % 2 == 0))
  {
    if rounds > 1 { ParityOfRounds(start, goal, rounds - 1, id); }
  }

  ghost predicate AtStage(q: Sets, expected: set<InhibitID>, goal: Target, ours: set<InhibitID>, stage: nat) {
    && q.active - ours == expected - ours
    && (stage == 1 ==> q.added == {} && q.dropped == {})
    && (stage == 2 ==> q.added == (goal.short - q.active) + goal.long - ours && q.dropped == q.active - goal.short - ours)
  }

  lemma StageByTurn(q: Sets, expected: set<InhibitID>, pass: bool, goal: Target, ours: set<InhibitID>, stage: nat)
    requires 1 <= stage <= 2 && AtStage(q, expected, goal, ours, stage)
    ensures AtStage(SetTurn(q, pass, goal, ours),
                    if stage == 2 && !pass then AfterRound(expected, goal) else expected, goal, ours, Advance(stage, pass))
  {
    if stage == 2 && !pass {
      var now := (q.active + q.added) - q.dropped;
      forall id | id !in ours ensures id in now <==> id in AfterRound(expected, goal) {
        assert id in q.active - ours <==> id in expected - ours;
      }
      assert now - ours == AfterRound(expected, goal) - ours;
    }
  }

  lemma {:induction false} StagesByTurns(q: Sets, ts: seq<Turn>, start: set<InhibitID>, goal: Target, ours: set<InhibitID>,
                                         stage: nat, done: nat)
    requires 1 <= stage <= 2 && AtStage(q, AfterRounds(start, goal, done), goal, ours, stage)
    ensures AtStage(SetTurns(q, ts, goal, ours), AfterRounds(start, goal, Rounds(stage, done, ts)), goal, ours, StageAfter(stage, ts))
    ensures 1 <= StageAfter(stage, ts) <= 2
    decreases |ts|
  {
    if ts != [] {
      StageByTurn(q, AfterRounds(start, goal, done), ts[0].Pass?, goal, ours, stage);
      StagesByTurns(SetTurn(q, ts[0].Pass?, goal, ours), ts[1..], start, goal, ours, Advance(stage, ts[0].Pass?),
                    if stage == 2 && ts[0].Drain? then done + 1 else done);
    }
  }

  /** The exact outcome of every interleaving of passes and drains over one file, from empty queues: the table
      after as many rounds as the interleaving completes, our own locks aside. */
  lemma WatcherOutcome(s: Watch, ts: seq<Turn>, locks: seq<string>)
    requires ValidSchedule(s, ts, locks) && AllListable(locks) && SoundWatch(s) && Idle(s)
    ensures var u := TakeTurns(s, ts, locks);
      && u.k < |u.hub.ifaces|
      && Active(u) - s.ours == AfterRounds(Active(s), TargetOf(s.k, locks), Rounds(1, 0, ts)) - s.ours
      && exists stage :: 1 <= stage <= 2
           && AtStage(SetsOf(u), AfterRounds(Active(s), TargetOf(s.k, locks), Rounds(1, 0, ts)), TargetOf(s.k, locks), s.ours, stage)
  {
    var goal := TargetOf(s.k, locks);
    ScheduleOnSets(s, ts, locks, goal);
    EmptyQueues(s);
    StagesByTurns(SetsOf(s), ts, Active(s), goal, s.ours, 1, 0);
  }

  lemma OutcomeOfOne(active: set<InhibitID>, start: set<InhibitID>, goal: Target, ours: set<InhibitID>, rounds: nat, id: InhibitID)
    requires active - ours == AfterRounds(start, goal, rounds) - ours && rounds > 0 && id !in ours
    ensures id in active <==> id in goal.short || (id in goal.long && (id in start <==> rounds % 2 == 0))
  {
    ParityOfRounds(start, goal, rounds, id);
    assert id in active <==> id in active - ours;
  }

  // ---- our own locks ----

  /** Neither queue of `u` holds more entries for this id, or for this listed name, than those of `s`. */
  ghost predicate NotQueued(s: Watch, u: Watch, id: InhibitID, lock: string) {
    && (forall r :: r in u.registerQueue && (r.id == id || r.reason == lock) ==> r in s.registerQueue)
    && (id in u.unregisterQueue ==> id in s.unregisterQueue)
  }

  /** From the request to the file and back: when the kernel interface has sent the lock message of a request
      whose fields hold no tab, newline or NUL, and remembers its id, then the message is the next line the
      helper gets, the helper takes one lock for it, the kernel can list that lock, the tokeniser reads its
      name back from the file in whatever pieces, and the pass queues it neither way. */
  lemma OwnLockIsNotEchoed(s: Watch, sent: string, appname: string, reason: string, names: seq<string>,
                           chunks: seq<string>, now: nat, gone: seq<InhibitID>)
    requires Tail(sent) == "" && SoundWatch(s)
    requires var name := NameFor(appname, reason); NulFree(name) && '\n' !in name && '\t' !in name
    requires LockId(s.k, NameFor(appname, reason)) in s.ours
    ensures var name := NameFor(appname, reason); var lock := Strip(name);
      && Lines(sent + LockMessage(name)) == Lines(sent) + [name] && Tail(sent + LockMessage(name)) == ""
      && Decode(name) == Lock(lock) && Listable(lock)
      && (AllListable(names) && lock in names && Concat(chunks) == Listing(names) + "\n" ==>
            var locks := Tokens(Concat(chunks)).locks;
            && locks == names
            && (ValidTurn(s, Pass(now, gone), locks) ==>
                  NotQueued(s, TakeTurn(s, Pass(now, gone), locks), LockId(s.k, name), lock)))
  {
    var name := NameFor(appname, reason);
    DashNameIsPlain(appname, reason);
    EchoHasOurId(s.k, name);
    NextLine(sent, name);
    HelperAgrees(name);
    if AllListable(names) && Concat(chunks) == Listing(names) + "\n" {
      ListingRoundTrip(names, chunks);
      if ValidTurn(s, Pass(now, gone), names) { PassIsForeign(s, names, now, gone, name); }
    }
  }

  lemma PassIsForeign(s: Watch, locks: seq<string>, now: nat, gone: seq<InhibitID>, name: string)
    requires SoundWatch(s) && ValidTurn(s, Pass(now, gone), locks) && Plain(name) && LockId(s.k, name) in s.ours
    ensures NotQueued(s, TakeTurn(s, Pass(now, gone), locks), LockId(s.k, name), Decode(name).name)
  {
    assert forall id :: id in Active(s) ==> CanonAt(s.k)(id);
    EchoSuppressed(s.k, Active(s), s.ours, locks, now, gone, name);
  }

  /** What happens over time: turns over changing files, and anything at all that forwarded requests and other
      interfaces do to the hub and to the ids of our own locks. */
  datatype Act = Turned(t: Turn, locks: seq<string>) | Meanwhile(hub: HubState, ours: set<InhibitID>)

  ghost predicate ValidAct(s: Watch, a: Act) {
    match a
    case Turned(t, locks) => ValidTurn(s, t, locks)
    case Meanwhile(hub, ours) => SoundWatch(s.(hub := hub, ours := ours))
  }

  ghost function TakeAct(s: Watch, a: Act): Watch
    requires ValidAct(s, a)
  {
    match a
    case Turned(t, locks) => TakeTurn(s, t, locks)
    case Meanwhile(hub, ours) => s.(hub := hub, ours := ours)
  }

  /** A run all along which the id stays one of our own. */
  ghost predicate StaysOurs(s: Watch, acts: seq<Act>, id: InhibitID)
    decreases |acts|
  {
    id in s.ours && (acts != [] ==> ValidAct(s, acts[0]) && StaysOurs(TakeAct(s, acts[0]), acts[1..], id))
  }

  ghost function TakeActs(s: Watch, acts: seq<Act>, id: InhibitID): Watch
    requires StaysOurs(s, acts, id)
    decreases |acts|
  {
    if acts == [] then s else TakeActs(TakeAct(s, acts[0]), acts[1..], id)
  }

  /** While its id is one of our own, no run of passes, over whatever files, ever queues a lock of ours. */
  lemma {:induction false} OwnLockIsNeverQueued(s: Watch, acts: seq<Act>, name: string)
    requires SoundWatch(s) && Plain(name) && StaysOurs(s, acts, LockId(s.k, name))
    ensures NotQueued(s, TakeActs(s, acts, LockId(s.k, name)), LockId(s.k, name), Decode(name).name)
    decreases |acts|
  {
    if acts != [] {
      var u := TakeAct(s, acts[0]);
      match acts[0] {
        case Turned(t, locks) =>
          SoundTurn(s, t, locks);
          if t.Pass? { PassIsForeign(s, locks, t.now, t.gone, name); }
        case Meanwhile(_, _) =>
      }
      assert NotQueued(s, u, LockId(s.k, name), Decode(name).name);
      OwnLockIsNeverQueued(u, acts[1..], name);
    }
  }

  // ---- convergence ----

  /** A drain, a later pass and a still later drain. */
  ghost predicate HasRound(ts: seq<Turn>) {
    exists a, b, c :: 0 <= a < b < c < |ts| && ts[a].Drain? && ts[b].Pass? && ts[c].Drain?
  }

  /** What is left of it, once some of it has happened. */
  ghost predicate CompletesRound(stage: nat, ts: seq<Turn>) {
    match stage
    case 0 => HasRound(ts)
    case 1 => exists b, c :: 0 <= b < c < |ts| && ts[b].Pass? && ts[c].Drain?
    case _ => exists c :: 0 <= c < |ts| && ts[c].Drain?
  }

  /** A schedule completes a round exactly if it has a drain, a later pass and a still later drain. */
  lemma {:induction false} SettlesIff(stage: nat, done: nat, ts: seq<Turn>)
    requires stage <= 2
    ensures Rounds(stage, done, ts) > 0 <==> done > 0 || CompletesRound(stage, ts)
    decreases |ts|
  {
    if ts != [] {
      var rest := ts[1..];
      SettlesIff(Advance(stage, ts[0].Pass?), if stage == 2 && ts[0].Drain? then done + 1 else done, rest);
      assert forall i :: 0 <= i < |rest| ==> rest[i] == ts[i + 1];
      assert forall i :: 0 < i < |ts| ==> ts[i] == rest[i - 1];
    }
  }

  lemma {:induction false} TurnsAppend(s: Watch, ts: seq<Turn>, us: seq<Turn>, locks: seq<string>)
    ensures ValidSchedule(s, ts + us, locks) <==>
            ValidSchedule(s, ts, locks) && ValidSchedule(TakeTurns(s, ts, locks), us, locks)
    ensures ValidSchedule(s, ts + us, locks) ==>
            TakeTurns(s, ts + us, locks) == TakeTurns(TakeTurns(s, ts, locks), us, locks)
    decreases |ts|
  {
    if ts == [] {
      assert ts + us == us;
    } else {
      assert (ts + us)[0] == ts[0] && (ts + us)[1..] == ts[1..] + us;
      if ValidTurn(s, ts[0], locks) { TurnsAppend(TakeTurn(s, ts[0], locks), ts[1..], us, locks); }
    }
  }

  /** Nothing is left to do once the table is as the file says and every foreign name fits. */
  lemma NothingQueued(s: Watch, expected: set<InhibitID>, goal: Target, stage: nat)
    requires s.k < |s.hub.ifaces| && 1 <= stage <= 2 && AtStage(SetsOf(s), expected, goal, s.ours, stage)
    requires goal.long <= s.ours && expected - s.ours == (goal.short + goal.long) - s.ours
    ensures Idle(s)
  {
    var q := SetsOf(s);
    forall id | id !in s.ours ensures id in q.active <==> id in goal.short {
      assert id in q.active - s.ours <==> id in (goal.short + goal.long) - s.ours;
    }
    assert q.added == {} && q.dropped == {};
    FirstQueued(s.registerQueue, s.unregisterQueue);
  }

  lemma FirstQueued(added: seq<Inhibit>, gone: seq<InhibitID>)
    ensures added != [] ==> added[0].id in IdSet(added)
    ensures gone != [] ==> gone[0] in AsSet(gone)
  {
  }

  /** The table is as the file says, our own locks aside. */
  ghost predicate Converged(s: Watch, locks: seq<string>) {
    && s.k < |s.hub.ifaces|
    && Active(s) - s.ours == IdsOf(s.k, locks) - s.ours
  }

  /** Every foreign lock whose name does not fit shares its id with one whose name does. */
  predicate Comparable(k: nat, ours: set<InhibitID>, locks: seq<string>) {
    LongIds(k, locks) - ours <= ShortIds(k, locks)
  }

  /** A fresh interface is sound, and so is everything it can reach. */
  lemma {:induction false} SoundFromStart(n: nat, k: nat, ts: seq<Turn>, locks: seq<string>)
    requires k < n <= WORD64 && ValidSchedule(Watch(Init(n), k, [], [], {}), ts, locks)
    ensures SoundWatch(TakeTurns(Watch(Init(n), k, [], [], {}), ts, locks))
  {
    InitCoherent(n);
    SoundSchedule(Watch(Init(n), k, [], [], {}), ts, locks);
  }

  lemma {:induction false} SoundSchedule(s: Watch, ts: seq<Turn>, locks: seq<string>)
    requires ValidSchedule(s, ts, locks) && SoundWatch(s)
    ensures SoundWatch(TakeTurns(s, ts, locks))
    decreases |ts|
  {
    if ts != [] {
      SoundTurn(s, ts[0], locks);
      SoundSchedule(TakeTurn(s, ts[0], locks), ts[1..], locks);
    }
  }

  lemma SoundTurn(s: Watch, t: Turn, locks: seq<string>)
    requires ValidTurn(s, t, locks) && SoundWatch(s)
    ensures SoundWatch(TakeTurn(s, t, locks))
  {
    match t
    case Pass(_, _) => PassIsCanonical(s, t, locks);
    case Drain(answers) => DrainEffect(s, answers, locks, CanonAt(s.k));
  }

  /** The schedule after its first drain. */
  function FromFirstDrain(ts: seq<Turn>): (n: nat)
    ensures n <= |ts|
    ensures n > 0 <==> exists a :: 0 <= a < |ts| && ts[a].Drain?
    ensures n > 0 ==> ts[n - 1].Drain? && forall a :: 0 <= a < n - 1 ==> !ts[a].Drain?
    decreases |ts|
  {
    if ts == [] then 0 else if ts[0].Drain? then 1 else
    var n := FromFirstDrain(ts[1..]);
    assert forall a :: 0 < a < |ts| ==> ts[a] == ts[1..][a - 1];
    if n == 0 then 0 else n + 1
  }

  lemma {:induction false} RoundsAfterFirstDrain(ts: seq<Turn>)
    ensures Rounds(0, 0, ts) == if FromFirstDrain(ts) == 0 then 0 else Rounds(1, 0, ts[FromFirstDrain(ts)..])
    decreases |ts|
  {
    if ts != [] {
      if !ts[0].Drain? {
        RoundsAfterFirstDrain(ts[1..]);
        var n := FromFirstDrain(ts[1..]);
        if n > 0 { assert ts[n + 1..] == ts[1..][n..]; }
      }
    }
  }

  lemma LastOfPrefix<T>(ts: seq<T>, n: nat)
    requires 0 < n <= |ts|
    ensures ts == ts[..n] + ts[n..] && ts[..n] == ts[..n - 1] + [ts[n - 1]] && [ts[n - 1]][1..] == []
  {
  }

  /** The first drain of a schedule empties the queues, whatever was in them. */
  lemma IdleAfterDrain(s: Watch, ts: seq<Turn>, n: nat, locks: seq<string>)
    requires ValidSchedule(s, ts, locks) && SoundWatch(s) && 0 < n <= |ts| && ts[n - 1].Drain?
    ensures ValidSchedule(s, ts[..n], locks)
    ensures var v := TakeTurns(s, ts[..n], locks);
      && SoundWatch(v) && Idle(v) && ValidSchedule(v, ts[n..], locks)
      && TakeTurns(s, ts, locks) == TakeTurns(v, ts[n..], locks)
  {
    LastOfPrefix(ts, n);
    TurnsAppend(s, ts[..n], ts[n..], locks);
    SoundSchedule(s, ts[..n], locks);
    TurnsAppend(s, ts[..n - 1], [ts[n - 1]], locks);
  }

  /** Watcher convergence: from any table and any stale queues, while the lock file stays the same, every
      interleaving of passes and drains that contains a drain, a later pass and a still later drain ends with
      exactly the locks of the file in the table, our own locks aside, when every foreign name that does not
      fit shares its id with one that does; and with nothing left to do when every foreign name fits. */
  lemma WatcherConverges(s: Watch, ts: seq<Turn>, locks: seq<string>)
    requires ValidSchedule(s, ts, locks) && AllListable(locks) && SoundWatch(s)
    requires HasRound(ts)
    requires Comparable(s.k, s.ours, locks)
    ensures Converged(TakeTurns(s, ts, locks), locks)
    ensures LongIds(s.k, locks) <= s.ours ==> Idle(TakeTurns(s, ts, locks))
  {
    SettlesIff(0, 0, ts);
    RoundsAfterFirstDrain(ts);
    var n := FromFirstDrain(ts);
    IdleAfterDrain(s, ts, n, locks);
    var v := TakeTurns(s, ts[..n], locks);
    WatcherOutcome(v, ts[n..], locks);
    IdsByLength(s.k, locks);
    var goal, rounds := TargetOf(s.k, locks), Rounds(1, 0, ts[n..]);
    ComparableOutcome(Active(v), goal, s.ours, rounds);
    if LongIds(s.k, locks) <= s.ours {
      var u := TakeTurns(s, ts, locks);
      var stage :| 1 <= stage <= 2 && AtStage(SetsOf(u), AfterRounds(Active(v), goal, rounds), goal, s.ours, stage);
      NothingQueued(u, AfterRounds(Active(v), goal, rounds), goal, stage);
    }
  }

  lemma ComparableOutcome(start: set<InhibitID>, goal: Target, ours: set<InhibitID>, rounds: nat)
    requires goal.long - ours <= goal.short && rounds > 0
    ensures AfterRounds(start, goal, rounds) - ours == (goal.short + goal.long) - ours
  {
    forall id | id !in ours && id in goal.long ensures id in goal.short {
      assert id in goal.long - ours;
    }
  }

  /** Exactly when the watcher settles: a schedule with a round, and the same schedule with one round more, both
      end with the locks of the file if and only if every foreign name that does not fit shares its id with
      one that does. Any other file is never settled: each round turns such a lock over. */
  lemma WatcherSettlesIff(s: Watch, ts: seq<Turn>, more: seq<Turn>, locks: seq<string>)
    requires ValidSchedule(s, ts + more, locks) && AllListable(locks) && SoundWatch(s)
    requires HasRound(ts)
    requires |ts| > 0 && ts[|ts| - 1].Drain? && |more| == 2 && more[0].Pass? && more[1].Drain?
    ensures ValidSchedule(s, ts, locks)
    ensures Converged(TakeTurns(s, ts, locks), locks) && Converged(TakeTurns(s, ts + more, locks), locks)
            <==> Comparable(s.k, s.ours, locks)
  {
    TurnsAppend(s, ts, more, locks);
    var u := TakeTurns(s, ts, locks);
    if Comparable(s.k, s.ours, locks) {
      WatcherConverges(s, ts, locks);
      StillSettles(ts, more);
      WatcherConverges(s, ts + more, locks);
    } else if Converged(u, locks) {
      IdleAtEnd(s, ts, locks);
      OneMoreRoundDiverges(u, more, locks);
    }
  }

  lemma IdleAtEnd(s: Watch, ts: seq<Turn>, locks: seq<string>)
    requires ValidSchedule(s, ts, locks) && SoundWatch(s) && |ts| > 0 && ts[|ts| - 1].Drain?
    ensures SoundWatch(TakeTurns(s, ts, locks)) && Idle(TakeTurns(s, ts, locks))
  {
    IdleAfterDrain(s, ts, |ts|, locks);
    assert ts[..|ts|] == ts;
  }

  lemma StillSettles(ts: seq<Turn>, more: seq<Turn>)
    requires HasRound(ts)
    ensures HasRound(ts + more)
  {
    var a, b, c :| 0 <= a < b < c < |ts| && ts[a].Drain? && ts[b].Pass? && ts[c].Drain?;
    assert (ts + more)[a].Drain? && (ts + more)[b].Pass? && (ts + more)[c].Drain?;
  }

  lemma OneMoreRoundDiverges(s: Watch, more: seq<Turn>, locks: seq<string>)
    requires ValidSchedule(s, more, locks) && AllListable(locks) && SoundWatch(s) && Idle(s)
    requires |more| == 2 && more[0].Pass? && more[1].Drain?
    requires !Comparable(s.k, s.ours, locks) && Converged(s, locks)
    ensures !Converged(TakeTurns(s, more, locks), locks)
  {
    var id :| id in LongIds(s.k, locks) - s.ours && id !in ShortIds(s.k, locks);
    var u := TakeTurns(s, more, locks);
    PassAndDrain(more);
    LongNameToggles(s, more, locks, id);
    IdsByLength(s.k, locks);
    assert id in IdsOf(s.k, locks) - s.ours;
    assert id in Active(s) - s.ours;
    assert id !in Active(u) - u.ours;
  }

  // ---- names that do not fit ----

  /** A lock whose name is longer than the id field never compares equal to its own id: with such a lock in the
      file, whatever else is there, an odd number of rounds turns it over and an even number does not. */
  lemma LongNameToggles(s: Watch, ts: seq<Turn>, locks: seq<string>, id: InhibitID)
    requires ValidSchedule(s, ts, locks) && AllListable(locks) && SoundWatch(s) && Idle(s) && Rounds(1, 0, ts) > 0
    requires id in LongIds(s.k, locks) && id !in ShortIds(s.k, locks) && id !in s.ours
    ensures var u := TakeTurns(s, ts, locks);
      && u.k < |u.hub.ifaces|
      && (id in Active(u) <==> (id in Active(s) <==> Rounds(1, 0, ts) % 2 == 0))
  {
    WatcherOutcome(s, ts, locks);
    OutcomeOfOne(Active(TakeTurns(s, ts, locks)), Active(s), TargetOf(s.k, locks), s.ours, Rounds(1, 0, ts), id);
  }

  /** A pass and a drain are one round. */
  lemma PassAndDrain(ts: seq<Turn>)
    requires |ts| == 2 && ts[0].Pass? && ts[1].Drain?
    ensures Rounds(1, 0, ts) == 1
  {
    assert ts[1..][0] == ts[1] && ts[1..][1..] == [];
    assert Rounds(2, 0, ts[1..]) == 1;
  }
}
