/** Crash release of the GNOME screen saver, whose activity messages and expired leases empty owner lists:
    exactly which inhibits the loss of a client's name still releases. */
module ScreenSaverRuns {
  import opened InhibitTypes
  import opened Ids
  import opened HubSpec
  import opened HubSafety
  import opened HubSharing
  import opened SimpleDBus
  import opened SimpleDBusRuns
  import opened ScreenSaverLease
  import opened Histories
  import Cookies

  /** One turn of the interface: a message handled as by every D-Bus interface, simulated activity, or a poll
      whose scan collected `ids`. */
  datatype Turn =
    | Client(m: Message)
    | Activity(sender: string, now: nat, answers: seq<Reply>)
    | Poll(clock: seq<nat>, ids: seq<InhibitID>)

  ghost predicate ValidTurn(s: System, t: Turn) {
    && s.k < |s.hub.ifaces| <= WORD64
    && match t
       case Client(m) => ValidMessage(s, m) && (m.Elsewhere? ==> OwnId(m.event))
       case Activity(sender, _, answers) => IsSender(sender) && |answers| == |s.hub.ifaces|
       case Poll(clock, ids) => Expired(s.hub.ifaces[s.k].active, clock, ids, IsLease)
  }

  ghost function TakeTurn(s: System, t: Turn): (u: System)
    requires ValidTurn(s, t)
    ensures u.k == s.k && u.style == s.style && u.monitor == s.monitor && |u.hub.ifaces| == |s.hub.ifaces|
  {
    match t
    case Client(m) => Handle(s, m)
    case Activity(sender, now, answers) => SimActivity(s, sender, now, answers)
    case Poll(_, ids) => PollStep(s, ids)
  }

  /** The turn registers x, or registers it again. */
  ghost predicate Registers(s: System, t: Turn, x: InhibitID)
    requires ValidTurn(s, t)
  {
    match t
    case Client(m) => m.InhibitMsg? && NewInhibit(s, m).id == x
    case Activity(sender, _, _) => SenderId(s.k, sender, 0) == x
    case Poll(_, _) => false
  }

  /** The turn empties the owner list of x's sender: activity of that sender, or a poll that collects one of
      its leases. */
  predicate Forgets(t: Turn, x: InhibitID) {
    match t
    case Client(_) => false
    case Activity(sender, _, _) => sender == SenderOf(x)
    case Poll(_, ids) => SomeOf(ids, SenderOf, SenderOf(x))
  }

  // ---- what one turn does to the lists ----

  ghost predicate Sound(s: System) {
    && s.k < |s.hub.ifaces| <= WORD64 && s.d.lastCookie < WORD32
    && OwnersTidy(s.hub, s.k, s.d.owners, SenderOf)
    && NoEcho(s.hub) && AllCoherent(s.hub)
  }

  /** What a turn does to the lists, entry by entry. */
  ghost predicate ListsAfter(s: System, t: Turn)
    requires ValidTurn(s, t)
  {
    var u := TakeTurn(s, t);
    && u.d.lastCookie < WORD32 && OwnersTidy(u.hub, u.k, u.d.owners, SenderOf)
    && forall x :: x in u.hub.ifaces[u.k].sources ==>
         && (x in s.hub.ifaces[s.k].sources || Registers(s, t, x))
         && (Listed(u.d.owners, SenderOf, x) <==>
               Registers(s, t, x) || (!Forgets(t, x) && Listed(s.d.owners, SenderOf, x)))
  }

  ghost predicate SafeAfter(hub: HubState) {
    NoEcho(hub) && AllCoherent(hub)
  }

  lemma EventKeepsSafety(hub: HubState, e: Event)
    requires NoEcho(hub) && AllCoherent(hub) && |hub.ifaces| <= WORD64 && ValidEvent(|hub.ifaces|, e) && OwnId(e)
    ensures SafeAfter(Step(hub, e))
  {
    CoherentStep(hub, e);
    NoEchoStep(hub, e);
  }

  lemma ReleasesKeepSafety(hub: HubState, k: nat, ids: seq<InhibitID>)
    requires NoEcho(hub) && AllCoherent(hub) && k < |hub.ifaces| <= WORD64
    ensures SafeAfter(Run(hub, Unregisters(k, ids)))
  {
    CoherentRun(hub, Unregisters(k, ids));
    NoEchoRun(hub, Unregisters(k, ids));
  }

  lemma SafeTurn(s: System, t: Turn)
    requires Sound(s) && ValidTurn(s, t)
    ensures SafeAfter(TakeTurn(s, t).hub)
  {
    match t
    case Client(InhibitMsg(sender, appname, reason, flags, now, monitored, answers)) =>
      var m := InhibitMsg(sender, appname, reason, flags, now, monitored, answers);
      NewInhibitIsTheirs(s, m);
      EventKeepsSafety(s.hub, Register(s.k, NewInhibit(s, m), answers));
    case Client(UnInhibitMsg(name, cookie)) =>
      EventKeepsSafety(s.hub, Unregister(s.k, SenderId(s.k, name, cookie)));
    case Client(NameLost(name)) => ReleasesKeepSafety(s.hub, s.k, OwnersOf(s.d.owners, name));
    case Client(Elsewhere(e, _, _)) => EventKeepsSafety(s.hub, e);
    case Activity(sender, now, answers) =>
      EventKeepsSafety(s.hub, Register(s.k, Lease(s.k, Mask(s.style), sender, now), answers));
    case Poll(_, ids) => ReleasesKeepSafety(s.hub, s.k, ids);
  }

  lemma ClientTurn(s: System, m: Message)
    requires Sound(s) && ValidTurn(s, Client(m))
    ensures ListsAfter(s, Client(m))
  {
    TidyAfterMessage(s, m);
  }

  /** Emptying lists keeps the owner table tidy. */
  lemma TidyWithFewer(hub: HubState, k: nat, owners: Owners, after: Owners, sender: InhibitID -> string)
    requires OwnersTidy(hub, k, owners, sender)
    requires forall name, id :: id in OwnersOf(after, name) ==> id in OwnersOf(owners, name)
    ensures OwnersTidy(hub, k, after, sender)
  {
  }

  lemma OwnersAfterActivity(hub: HubState, k: nat, owners: Owners, sender: InhibitID -> string,
                            i: Inhibit, answers: seq<Reply>)
    requires OwnersTidy(hub, k, owners, sender) && |answers| == |hub.ifaces|
    requires i.id != "" && sender(i.id) != US && OwnedBy(i.id, k)
    ensures var name := sender(i.id); var t, after := RegisterStep(hub, k, i, answers), owners[name := [i.id]];
      && OwnersTidy(t, k, after, sender)
      && t.ifaces[k].sources <= hub.ifaces[k].sources + {i.id}
      && forall x :: x in t.ifaces[k].sources ==>
           (Listed(after, sender, x) <==> x == i.id || (sender(x) != name && Listed(owners, sender, x)))
  {
    var name := sender(i.id);
    var emptied := owners[name := []];
    OwnersUpdate(owners, name, []);
    TidyWithFewer(hub, k, owners, emptied, sender);
    OwnersAfterInhibit(hub, k, emptied, sender, i, answers);
    assert OwnersOf(emptied, name) + [i.id] == [i.id];
    assert emptied[name := [i.id]] == owners[name := [i.id]];
  }

  lemma ActivityTurn(s: System, sender: string, now: nat, answers: seq<Reply>)
    requires Sound(s) && ValidTurn(s, Activity(sender, now, answers))
    ensures ListsAfter(s, Activity(sender, now, answers))
  {
    var i := Lease(s.k, Mask(s.style), sender, now);
    MadeFor(s.k, sender, 0);
    OwnersAfterActivity(s.hub, s.k, s.d.owners, SenderOf, i, answers);
  }

  lemma OwnersAfterPoll(hub: HubState, k: nat, owners: Owners, sender: InhibitID -> string, ids: seq<InhibitID>)
    requires OwnersTidy(hub, k, owners, sender)
    requires forall x, y :: x in ids && y in ids ==> !Lists(hub, y, k, x)
    ensures var t, after := Run(hub, Unregisters(k, ids)), Cleared(owners, ids, sender);
      && OwnersTidy(t, k, after, sender)
      && t.ifaces[k].sources <= hub.ifaces[k].sources
      && forall x :: Listed(after, sender, x) <==> !SomeOf(ids, sender, sender(x)) && Listed(owners, sender, x)
  {
    OwnersAfterReleases(hub, k, owners, sender, ids);
    var after := Cleared(owners, ids, sender);
    forall name ensures OwnersOf(after, name) == if SomeOf(ids, sender, name) then [] else OwnersOf(owners, name) {
      ClearedOwners(owners, ids, sender, name);
    }
    TidyWithFewer(Run(hub, Unregisters(k, ids)), k, owners, after, sender);
  }

  lemma PollTurn(s: System, clock: seq<nat>, ids: seq<InhibitID>)
    requires Sound(s) && ValidTurn(s, Poll(clock, ids))
    ensures ListsAfter(s, Poll(clock, ids))
  {
    forall x, y | x in ids && y in ids ensures !Lists(s.hub, y, s.k, x) {
      assert OwnedBy(y, s.k);
    }
    OwnersAfterPoll(s.hub, s.k, s.d.owners, SenderOf, ids);
  }

  lemma EveryTurn(s: System, t: Turn)
    requires Sound(s) && ValidTurn(s, t)
    ensures Sound(TakeTurn(s, t)) && ListsAfter(s, t)
  {
    SafeTurn(s, t);
    match t
    case Client(m) => ClientTurn(s, m);
    case Activity(sender, now, answers) => ActivityTurn(s, sender, now, answers);
    case Poll(clock, ids) => PollTurn(s, clock, ids);
  }

  // ---- whole runs ----

  ghost predicate ValidTurns(s: System, ts: seq<Turn>)
    decreases |ts|, 0
  {
    ts != [] ==>
      && ValidTurns(s, ts[..|ts| - 1])
      && ValidTurn(TakeTurns(s, ts[..|ts| - 1]), ts[|ts| - 1])
  }

  ghost function TakeTurns(s: System, ts: seq<Turn>): (u: System)
    requires ValidTurns(s, ts)
    ensures u.k == s.k && u.style == s.style && u.monitor == s.monitor && |u.hub.ifaces| == |s.hub.ifaces|
    decreases |ts|, 1
  {
    if ts == [] then s else TakeTurn(TakeTurns(s, ts[..|ts| - 1]), ts[|ts| - 1])
  }

  ghost predicate RegistersAt(s: System, ts: seq<Turn>, i: nat, x: InhibitID)
    requires i < |ts|
  {
    && ValidTurns(s, ts[..i]) && ValidTurn(TakeTurns(s, ts[..i]), ts[i])
    && Registers(TakeTurns(s, ts[..i]), ts[i], x)
  }

  ghost function RegisteringTurns(s: System, ts: seq<Turn>, x: InhibitID): nat -> bool {
    (i: nat) => i < |ts| && RegistersAt(s, ts, i, x)
  }

  ghost function ForgettingTurns(ts: seq<Turn>, x: InhibitID): nat -> bool {
    (j: nat) => j < |ts| && Forgets(ts[j], x)
  }

  /** Since x was last registered, its sender had no activity and no lease of its sender was collected. */
  ghost predicate Remembered(s: System, ts: seq<Turn>, x: InhibitID) {
    Since(RegisteringTurns(s, ts, x), ForgettingTurns(ts, x), |ts|)
  }

  lemma PrefixAgrees(s: System, ts: seq<Turn>, i: nat, x: InhibitID)
    requires i < |ts| - 1
    ensures RegisteringTurns(s, ts, x)(i) == RegisteringTurns(s, ts[..|ts| - 1], x)(i)
    ensures ForgettingTurns(ts, x)(i) == ForgettingTurns(ts[..|ts| - 1], x)(i)
  {
    assert ts[..i] == ts[..|ts| - 1][..i];
  }

  lemma RememberedNext(s: System, ts: seq<Turn>, x: InhibitID)
    requires ts != [] && ValidTurns(s, ts)
    ensures var init, t := ts[..|ts| - 1], ts[|ts| - 1];
            Remembered(s, ts, x) <==> Registers(TakeTurns(s, init), t, x) || (!Forgets(t, x) && Remembered(s, init, x))
  {
    var init, n := ts[..|ts| - 1], |ts| - 1;
    var registers, forgets := RegisteringTurns(s, ts, x), ForgettingTurns(ts, x);
    var registers', forgets' := RegisteringTurns(s, init, x), ForgettingTurns(init, x);
    forall i: nat | i < n ensures registers(i) == registers'(i) && forgets(i) == forgets'(i) {
      PrefixAgrees(s, ts, i, x);
    }
    SameHistory(registers, forgets, registers', forgets', n);
    SinceNext(registers, forgets, n);
  }

  /** In every run the owner lists hold exactly what they remember. */
  lemma {:induction false} ListedIffRemembered(s: System, ts: seq<Turn>)
    requires Sound(s) && s.hub.ifaces[s.k].sources == {} && ValidTurns(s, ts)
    ensures var u := TakeTurns(s, ts);
      && Sound(u)
      && forall x :: x in u.hub.ifaces[s.k].sources ==> (Listed(u.d.owners, SenderOf, x) <==> Remembered(s, ts, x))
    decreases |ts|
  {
    if ts != [] {
      var init, t := ts[..|ts| - 1], ts[|ts| - 1];
      ListedIffRemembered(s, init);
      var v, u := TakeTurns(s, init), TakeTurns(s, ts);
      EveryTurn(v, t);
      forall x | x in u.hub.ifaces[s.k].sources ensures Listed(u.d.owners, SenderOf, x) <==> Remembered(s, ts, x) {
        RememberedNext(s, ts, x);
      }
    }
  }

  /** The loss of a name releases exactly what is listed under it. */
  lemma NameLostReleasesListed(s: System, name: string, x: InhibitID)
    requires Sound(s) && IsSender(name) && x in s.hub.ifaces[s.k].active
    ensures ValidMessage(s, NameLost(name))
    ensures x in Handle(s, NameLost(name)).hub.ifaces[s.k].active <==> x !in OwnersOf(s.d.owners, name)
  {
    OwnersAfterNameLost(s.hub, s.k, s.d.owners, SenderOf, name);
    var ids := OwnersOf(s.d.owners, name);
    assert !ReleasedBy(s.hub, s.k, ids, s.k, x) by {
      assert forall y :: y in s.hub.ifaces[s.k].active ==> !Lists(s.hub, y, s.k, x);
    }
  }

  lemma StartSound(n: nat, k: nat, style: Style, monitor: bool)
    requires k < n <= WORD64
    ensures Sound(Start(n, k, style, monitor))
  {
    StartOwned(n, k, style, monitor);
    InitCoherent(n);
  }

  /** Exact crash release: after any run of messages, activity and polls, the loss of a client's name releases
      an active inhibit of the client if and only if, since its last registration, the client had no activity
      and none of its leases was collected by a poll. It releases nothing of any other client. */
  lemma CrashReleaseIffRemembered(n: nat, k: nat, style: Style, monitor: bool, ts: seq<Turn>, name: string, x: InhibitID)
    requires k < n <= WORD64 && IsSender(name) && ValidTurns(Start(n, k, style, monitor), ts)
    requires x in TakeTurns(Start(n, k, style, monitor), ts).hub.ifaces[k].active
    ensures var start := Start(n, k, style, monitor); var s := TakeTurns(start, ts);
      && ValidMessage(s, NameLost(name))
      && (x !in Handle(s, NameLost(name)).hub.ifaces[k].active <==> SenderOf(x) == name && Remembered(start, ts, x))
  {
    var start := Start(n, k, style, monitor);
    StartSound(n, k, style, monitor);
    ListedIffRemembered(start, ts);
    NameLostReleasesListed(TakeTurns(start, ts), name, x);
  }

  // ---- the two ways to be forgotten ----

  /** Right after activity the loss of the sender's name leaves nothing of the sender active if and only if
      the sender held nothing but its lease. */
  lemma ActivityForgetsOwnerIff(s: System, sender: string, now: nat, answers: seq<Reply>)
    requires Sound(s) && ValidTurn(s, Activity(sender, now, answers))
    ensures var t := SimActivity(s, sender, now, answers);
      && ValidMessage(t, NameLost(sender))
      && ((forall x :: x in Handle(t, NameLost(sender)).hub.ifaces[s.k].active ==> SenderOf(x) != sender)
          <==> forall x :: x in s.hub.ifaces[s.k].active && SenderOf(x) == sender ==> x == SenderId(s.k, sender, 0))
  {
    var t, lease := SimActivity(s, sender, now, answers), SenderId(s.k, sender, 0);
    MadeFor(s.k, sender, 0);
    EveryTurn(s, Activity(sender, now, answers));
    RegisterEffect(s.hub, s.k, Lease(s.k, Mask(s.style), sender, now), answers);
    assert OwnersOf(t.d.owners, sender) == [lease];
    OwnersAfterNameLost(t.hub, s.k, t.d.owners, SenderOf, sender);
    forall x | x in t.hub.ifaces[s.k].active
      ensures x in Handle(t, NameLost(sender)).hub.ifaces[s.k].active <==> x != lease
    {
      NameLostReleasesListed(t, sender, x);
    }
  }

  /** A poll that collects a lease of a client forgets the client's ordinary inhibits, registered before or
      after the activity: the loss of the client's name then leaves them all active. */
  lemma PollForgetsOwner(s: System, clock: seq<nat>, ids: seq<InhibitID>, name: string, x: InhibitID)
    requires Sound(s) && ValidTurn(s, Poll(clock, ids)) && IsSender(name) && SomeOf(ids, SenderOf, name)
    requires x in s.hub.ifaces[s.k].active && SenderOf(x) == name && !IsLease(x)
    ensures var t := PollStep(s, ids);
      ValidMessage(t, NameLost(name)) && x in Handle(t, NameLost(name)).hub.ifaces[s.k].active
  {
    var t := PollStep(s, ids);
    EveryTurn(s, Poll(clock, ids));
    ClearedOwners(s.d.owners, ids, SenderOf, name);
    OwnersAfterReleases(s.hub, s.k, s.d.owners, SenderOf, ids);
    assert x !in ids && !ReleasedBy(s.hub, s.k, ids, s.k, x);
    NameLostReleasesListed(t, name, x);
  }
}
