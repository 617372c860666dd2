/** Simulated user activity: inhibits that expire after five minutes (the GNOME screen saver). */
module ScreenSaverLease {
  import opened InhibitTypes
  import opened Ids
  import opened HubSpec
  import opened HubSafety
  import opened HubSharing
  import opened HubObjects
  import opened SimpleDBus
  import opened SimpleDBusRuns
  import opened SimpleDBusObject

  const LEASE: nat := 300

  /** time(NULL) - 300, read as an unsigned 64-bit number. */
  function Threshold(clock: nat): nat {
    if clock >= LEASE then clock - LEASE else WORD64 + clock - LEASE
  }

  predicate IsLease(id: InhibitID) {
    CookieOf(id) == 0
  }

  predicate NonDecreasing(clock: seq<nat>) {
    forall m, n :: 0 <= m <= n < |clock| ==> clock[m] <= clock[n]
  }

  /** What the scan of poll collects, reading the clock once for every active id: leases only, each found
      expired at one of the readings, and every lease that is expired at all of them. What makes an id a
      lease is a parameter. */
  ghost predicate Expired(active: map<InhibitID, Inhibit>, clock: seq<nat>, ids: seq<InhibitID>, lease: InhibitID -> bool) {
    && (forall id :: id in ids ==> id in active && lease(id) && OverdueOnce(active[id].created, clock))
    && (forall id :: id in active && lease(id) && OverdueAlways(active[id].created, clock) ==> id in ids)
  }

  predicate OverdueOnce(created: nat, clock: seq<nat>) {
    exists n :: 0 <= n < |clock| && created <= Threshold(clock[n])
  }

  predicate OverdueAlways(created: nat, clock: seq<nat>) {
    forall n :: 0 <= n < |clock| ==> created <= Threshold(clock[n])
  }

  lemma OverdueByEnds(created: nat, clock: seq<nat>)
    requires clock != [] && NonDecreasing(clock) && clock[0] >= LEASE
    ensures OverdueAlways(created, clock) <==> created <= clock[0] - LEASE
    ensures OverdueOnce(created, clock) <==> created <= clock[|clock| - 1] - LEASE
  {
    assert forall n :: 0 <= n < |clock| ==> clock[0] <= clock[n] <= clock[|clock| - 1];
  }

  /** No id that was active before poll is dropped unless it is a lease overdue at the last reading; no
      lease overdue at the first reading is left; copies go with what they were copies of. */
  ghost predicate Polled(s: HubState, t: HubState, k: nat, first: nat, last: nat, ids: seq<InhibitID>, lease: InhibitID -> bool)
    requires k < |s.ifaces| == |t.ifaces|
  {
    && (forall id :: id in t.ifaces[k].active && lease(id) ==> t.ifaces[k].active[id].created + LEASE > first)
    && (forall id :: id in s.ifaces[k].active && !lease(id) ==> id in t.ifaces[k].active)
    && (forall id :: id in s.ifaces[k].active && s.ifaces[k].active[id].created + LEASE > last ==> id in t.ifaces[k].active)
    && (forall j: nat, f :: j < |s.ifaces| && j != k && f in s.ifaces[j].active ==>
          (f in t.ifaces[j].active <==> !ReleasedBy(s, k, ids, j, f)))
    && (forall id :: id in ids ==> id in s.ifaces[k].active && id !in t.ifaces[k].active)
    && (forall id :: id in t.ifaces[k].active ==>
          id in s.ifaces[k].active && t.ifaces[k].active[id] == s.ifaces[k].active[id])
  }

  lemma ExpiryInState(s: HubState, k: nat, clock: seq<nat>, ids: seq<InhibitID>, lease: InhibitID -> bool)
    requires k < |s.ifaces| && NoEcho(s) && SourcesActive(s)
    requires clock != [] && NonDecreasing(clock) && clock[0] >= LEASE
    requires Expired(s.ifaces[k].active, clock, ids, lease)
    requires forall id <- ids :: OwnedBy(id, k)
    ensures Polled(s, Run(s, Unregisters(k, ids)), k, clock[0], clock[|clock| - 1], ids, lease)
  {
    var t, active := Run(s, Unregisters(k, ids)), s.ifaces[k].active;
    ReleaseIds(s, k, ids);
    forall f ensures !ReleasedBy(s, k, ids, k, f) {
    }
    forall id | id in active
      ensures OverdueAlways(active[id].created, clock) <==> active[id].created <= clock[0] - LEASE
      ensures OverdueOnce(active[id].created, clock) <==> active[id].created <= clock[|clock| - 1] - LEASE
    {
      OverdueByEnds(active[id].created, clock);
    }
  }

  /** Lease expiry: with a clock that does not go back, poll leaves no lease that had run out when it
      started, drops nothing but leases that had run out when it ended, and releases exactly the copies
      of what it drops. */
  lemma LeasesExpire(n: nat, es: seq<Event>, k: nat, clock: seq<nat>, ids: seq<InhibitID>)
    requires k < n <= WORD64 && forall e <- es :: ValidEvent(n, e) && OwnId(e)
    requires clock != [] && NonDecreasing(clock) && clock[0] >= LEASE
    requires Expired(Run(Init(n), es).ifaces[k].active, clock, ids, IsLease)
    requires forall id <- ids :: OwnedBy(id, k)
    ensures var s := Run(Init(n), es);
            Polled(s, Run(s, Unregisters(k, ids)), k, clock[0], clock[|clock| - 1], ids, IsLease)
  {
    InitCoherent(n);
    CoherentRun(Init(n), es);
    NoEchoRun(Init(n), es);
    ExpiryInState(Run(Init(n), es), k, clock, ids, IsLease);
  }

  /** In plain numbers: a poll whose clock reads `clock` all along keeps an inhibit exactly if its cookie is not 0 or
      it was created less than 300 seconds before. The subtraction is unsigned, so a clock below 300 expires every
      lease created by any clock of this era. */
  lemma FiveMinutes(s: HubState, k: nat, clock: nat, ids: seq<InhibitID>, id: InhibitID)
    requires k < |s.ifaces| && NoEcho(s) && SourcesActive(s)
    requires Expired(s.ifaces[k].active, [clock], ids, IsLease) && forall x <- ids :: OwnedBy(x, k)
    requires id in s.ifaces[k].active
    ensures id in Run(s, Unregisters(k, ids)).ifaces[k].active <==>
      CookieOf(id) != 0 || s.ifaces[k].active[id].created > clock - 300 + if clock < 300 then 0x1_0000_0000_0000_0000 else 0
  {
    ReleaseIds(s, k, ids);
    assert !ReleasedBy(s, k, ids, k, id);
    assert OverdueOnce(s.ifaces[k].active[id].created, [clock]) <==> s.ifaces[k].active[id].created <= Threshold([clock][0]);
    assert OverdueAlways(s.ifaces[k].active[id].created, [clock]) <==> s.ifaces[k].active[id].created <= Threshold([clock][0]);
  }

  // ---- simulated activity ----

  function Lease(k: nat, kind: InhibitType, sender: string, now: nat): Inhibit
    requires |sender| < SENDER_FIELD
  {
    Inhibit(kind, sender, "SimulateUserActivity", SenderId(k, sender, 0), now)
  }

  /** handleSimActivityMsg. The search for an earlier lease of the sender compares the addresses of two
      different buffers and finds nothing; the sender's owner entries are replaced by the lease. */
  ghost function SimActivity(s: System, sender: string, now: nat, answers: seq<Reply>): System
    requires s.k < |s.hub.ifaces| == |answers| && |sender| < SENDER_FIELD
  {
    var i := Lease(s.k, Mask(s.style), sender, now);
    s.(hub := Step(s.hub, Register(s.k, i, answers)), d := s.d.(owners := s.d.owners[sender := [i.id]]))
  }

  /** A lease that is already active keeps its old time: activity starts a lease but never renews it. */
  lemma ActivityDoesNotRenew(s: System, sender: string, now: nat, answers: seq<Reply>)
    requires s.k < |s.hub.ifaces| == |answers| && |sender| < SENDER_FIELD
    ensures var id := SenderId(s.k, sender, 0); var was := s.hub.ifaces[s.k].active;
      var active := SimActivity(s, sender, now, answers).hub.ifaces[s.k].active;
      id in active && active[id].created == if id in was then was[id].created else now
  {
    RegisterEffect(s.hub, s.k, Lease(s.k, Mask(s.style), sender, now), answers);
  }

  /** Activity keeps its sender's lease alive at the next poll exactly if there was none before, or the one
      there was had not yet run out by itself. */
  lemma ActivityOutlivesPollIff(s: System, sender: string, now: nat, answers: seq<Reply>, clock: nat, ids: seq<InhibitID>)
    requires s.k < |s.hub.ifaces| == |answers| && |s.hub.ifaces| <= WORD64 && IsSender(sender)
    requires SourcesActive(s.hub) && NoEcho(s.hub) && LEASE <= now <= clock < now + LEASE
    requires Expired(SimActivity(s, sender, now, answers).hub.ifaces[s.k].active, [clock], ids, IsLease)
    requires forall id <- ids :: OwnedBy(id, s.k)
    ensures var id := SenderId(s.k, sender, 0); var was := s.hub.ifaces[s.k].active;
            var t := Run(SimActivity(s, sender, now, answers).hub, Unregisters(s.k, ids));
            id in t.ifaces[s.k].active <==> (id !in was || was[id].created + LEASE > clock)
  {
    var id, t := SenderId(s.k, sender, 0), SimActivity(s, sender, now, answers).hub;
    ActivityDoesNotRenew(s, sender, now, answers);
    SenderIdRoundTrip(s.k, sender, 0);
    SimActivityKeepsSafety(s, sender, now, answers);
    ExpiryInState(t, s.k, [clock], ids, IsLease);
  }

  lemma SimActivityKeepsSafety(s: System, sender: string, now: nat, answers: seq<Reply>)
    requires s.k < |s.hub.ifaces| == |answers| && |s.hub.ifaces| <= WORD64 && |sender| < SENDER_FIELD
    requires SourcesActive(s.hub) && NoEcho(s.hub)
    ensures var t := SimActivity(s, sender, now, answers).hub; SourcesActive(t) && NoEcho(t)
  {
    var i := Lease(s.k, Mask(s.style), sender, now);
    NoEchoStep(s.hub, Register(s.k, i, answers));
    RegisterEffect(s.hub, s.k, i, answers);
  }

  // ---- poll ----

  /** The owner table after the lists of the senders of all these ids have been cleared one by one. */
  function Cleared(owners: Owners, ids: seq<InhibitID>, sender: InhibitID -> string): Owners {
    if ids == [] then owners else Cleared(owners, ids[..|ids| - 1], sender)[sender(ids[|ids| - 1]) := []]
  }

  predicate SomeOf(ids: seq<InhibitID>, sender: InhibitID -> string, name: string) {
    exists id :: id in ids && sender(id) == name
  }

  /** Clearing empties the lists of exactly these senders. */
  lemma {:induction false} ClearedOwners(owners: Owners, ids: seq<InhibitID>, sender: InhibitID -> string, name: string)
    ensures OwnersOf(Cleared(owners, ids, sender), name) == if SomeOf(ids, sender, name) then [] else OwnersOf(owners, name)
  {
    if ids != [] {
      var init, last := ids[..|ids| - 1], ids[|ids| - 1];
      assert ids == init + [last];
      ClearedOwners(owners, init, sender, name);
      OwnersUpdate(Cleared(owners, init, sender), sender(last), []);
      assert SomeOf(ids, sender, name) <==> SomeOf(init, sender, name) || sender(last) == name;
    }
  }

  /** poll, when its scan has collected these ids: the owner lists of all their senders are emptied, and the
      ids are released one by one. */
  ghost function PollStep(s: System, ids: seq<InhibitID>): System
    requires s.k < |s.hub.ifaces|
  {
    s.(hub := Run(s.hub, Unregisters(s.k, ids)), d := s.d.(owners := Cleared(s.d.owners, ids, SenderOf)))
  }

  // ---- the interface ----

  class GnomeScreenSaverInterface {
    const dbus: SimpleDBusInterface

    constructor (dbus: SimpleDBusInterface)
      ensures this.dbus == dbus
    {
      this.dbus := dbus;
    }

    method HandleSimActivityMsg(hub: Hub, sender: string, now: nat, answers: seq<Reply>)
      requires dbus.Valid(hub) && |answers| == |hub.inhibitors| && |sender| < SENDER_FIELD
      modifies dbus, hub`releasePlan, hub`lastInhibitType, hub.inhibitors
      ensures dbus.Valid(hub) && dbus.Sys(hub) == SimActivity(old(dbus.Sys(hub)), sender, now, answers)
    {
      var i := Lease(dbus.base.instanceId, dbus.inhibitType, sender, now);
      ghost var owners := dbus.inhibitOwners;
      dbus.inhibitOwners := dbus.inhibitOwners[sender := []];
      dbus.base.RegisterInhibit(hub, i, answers);
      assert OwnersOf(dbus.inhibitOwners, sender) + [i.id] == [i.id];
      dbus.inhibitOwners := dbus.inhibitOwners[sender := OwnersOf(dbus.inhibitOwners, sender) + [i.id]];
      assert dbus.inhibitOwners == owners[sender := [i.id]];
    }

    /** The scan of poll; the table is visited in any order, with one clock reading for every id. */
    method FindExpired(clock: seq<nat>) returns (eraseIDs: seq<InhibitID>)
      requires |clock| == |dbus.base.activeInhibits.Keys|
      modifies dbus`inhibitOwners
      ensures Expired(dbus.base.activeInhibits, clock, eraseIDs, IsLease)
      ensures dbus.inhibitOwners == Cleared(old(dbus.inhibitOwners), eraseIDs, SenderOf)
    {
      var active := dbus.base.activeInhibits;
      eraseIDs := [];
      var rest, n := active.Keys, 0;
      while rest != {}
        invariant dbus.base.activeInhibits == active && rest <= active.Keys && n + |rest| == |clock|
        invariant ExpiredSoFar(active, clock, eraseIDs, IsLease, rest)
        invariant dbus.inhibitOwners == Cleared(old(dbus.inhibitOwners), eraseIDs, SenderOf)
        decreases rest
      {
        var id :| id in rest;
        if IsLease(id) && active[id].created <= Threshold(clock[n]) {
          dbus.inhibitOwners := dbus.inhibitOwners[SenderOf(id) := []];
          assert (eraseIDs + [id])[..|eraseIDs|] == eraseIDs;
          eraseIDs := eraseIDs + [id];
        }
        rest := rest - {id};
        n := n + 1;
      }
    }

    method ReleaseExpired(hub: Hub, eraseIDs: seq<InhibitID>)
      requires dbus.Valid(hub)
      modifies hub`releasePlan, hub`lastInhibitType, hub.inhibitors
      ensures dbus.Valid(hub)
      ensures hub.Abs() == Run(old(hub.Abs()), Unregisters(dbus.base.instanceId, eraseIDs))
    {
      var k := dbus.base.instanceId;
      for n := 0 to |eraseIDs|
        invariant dbus.Valid(hub) && |hub.inhibitors| == old(|hub.inhibitors|)
        invariant Run(hub.Abs(), Unregisters(k, eraseIDs[n..])) == Run(old(hub.Abs()), Unregisters(k, eraseIDs))
      {
        UnregistersNext(hub.Abs(), k, eraseIDs, n);
        dbus.base.RegisterUnInhibit(hub, eraseIDs[n]);
      }
    }

    method Poll(hub: Hub, clock: seq<nat>) returns (ghost ids: seq<InhibitID>)
      requires dbus.Valid(hub) && |clock| == |dbus.base.activeInhibits.Keys|
      modifies dbus`inhibitOwners, hub`releasePlan, hub`lastInhibitType, hub.inhibitors
      ensures dbus.Valid(hub) && Expired(old(dbus.base.activeInhibits), clock, ids, IsLease)
      ensures dbus.Sys(hub) == PollStep(old(dbus.Sys(hub)), ids)
    {
      var eraseIDs := FindExpired(clock);
      ids := eraseIDs;
      ReleaseExpired(hub, eraseIDs);
    }
  }

  /** The scan has dealt with every id outside `rest`. */
  ghost predicate ExpiredSoFar(active: map<InhibitID, Inhibit>, clock: seq<nat>, ids: seq<InhibitID>,
                               lease: InhibitID -> bool, rest: set<InhibitID>) {
    && (forall id :: id in ids ==> id in active && lease(id) && OverdueOnce(active[id].created, clock))
    && (forall id :: id in active && id !in rest && lease(id) && OverdueAlways(active[id].created, clock) ==> id in ids)
  }
}
