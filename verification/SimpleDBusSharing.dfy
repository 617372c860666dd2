/** A D-Bus interface keeps the hub's contract when it implements its bus name: its ids are fresh, so it
    shares the state in every run. */
module SimpleDBusSharing {
  import opened InhibitTypes
  import opened Ids
  import opened HubSpec
  import opened HubSafety
  import opened HubSharing
  import opened GnomeFlags
  import opened FreshSharing
  import opened SimpleDBus
  import opened SimpleDBusRuns
  import Cookies

  // ---- fresh ids ----

  /** The counter is where it should be, and every active id carries the cookie issued at its birth. */
  ghost predicate BirthInv(s: System) {
    && s.k < |s.hub.ifaces| && !s.monitor
    && s.d.lastCookie == Cookies.CookieAt(CounterOf(s.style), s.d.births.issued)
    && Cookies.Born(s.hub.ifaces[s.k].active.Keys, s.d.births, CounterOf(s.style), CookieOf)
  }

  /** Fewer cookies than one round have been issued since the oldest active id. */
  ghost predicate InWindow(s: System)
    requires s.k < |s.hub.ifaces|
  {
    Cookies.Window(s.hub.ifaces[s.k].active.Keys, s.d.births, CounterOf(s.style))
  }

  lemma NextIdIsFresh(s: System, id: InhibitID)
    requires Owned(s) && BirthInv(s) && InWindow(s) && CookieOf(id) == NextCookie(s)
    ensures id !in s.hub.ifaces[s.k].active
  {
    Cookies.NextIsFresh(s.hub.ifaces[s.k].active.Keys, s.d.births, CounterOf(s.style), CookieOf, id);
  }

  lemma BornAfterIssue(s: System, hub: HubState, id: InhibitID, owners: Owners)
    requires BirthInv(s) && |hub.ifaces| == |s.hub.ifaces| && s.d.lastCookie < WORD32
    requires hub.ifaces[s.k].active.Keys <= s.hub.ifaces[s.k].active.Keys + {id} && CookieOf(id) == NextCookie(s)
    ensures BirthInv(s.(hub := hub, d := Issue(s, id).(owners := owners)))
  {
    Cookies.BornAfterIssue(s.hub.ifaces[s.k].active.Keys, hub.ifaces[s.k].active.Keys, s.d.births,
                           CounterOf(s.style), CookieOf, id);
  }

  lemma BornKept(s: System, m: Message)
    requires Owned(s) && BirthInv(s) && ValidMessage(s, m)
    ensures BirthInv(Handle(s, m))
  {
    var k, active := s.k, s.hub.ifaces[s.k].active.Keys;
    var t := Handle(s, m);
    match m
    case InhibitMsg(name, _, _, _, _, _, answers) =>
      var i := NewInhibit(s, m);
      MadeFor(k, name, NextCookie(s));
      RegisterEffect(s.hub, k, i, answers);
      BornAfterIssue(s, t.hub, i.id, t.d.owners);
    case UnInhibitMsg(name, cookie) =>
      var id := SenderId(k, name, cookie);
      if id in active { UnregisterEffect(s.hub, k, id); }
      assert t.hub.ifaces[k].active.Keys <= active;
    case NameLost(name) =>
      OwnersAfterNameLost(s.hub, k, s.d.owners, SenderOf, name);
      assert t.hub.ifaces[k].active.Keys <= active;
    case Elsewhere(e, remote, time) =>
      BornElsewhere(s, e, remote, time);
  }

  lemma BornElsewhere(s: System, e: Event, remote: Remote, time: nat)
    requires Owned(s) && BirthInv(s) && ValidMessage(s, Elsewhere(e, remote, time))
    ensures BirthInv(Handle(s, Elsewhere(e, remote, time)))
  {
    var k, active := s.k, s.hub.ifaces[s.k].active.Keys;
    var t := Handle(s, Elsewhere(e, remote, time));
    match e
    case Register(o, i, replies) =>
      RegisterEffect(s.hub, o, i, replies);
      if Copied(o, replies, 0, k) {
        MadeFor(k, US, NextCookie(s));
        BornAfterIssue(s, t.hub, replies[k].inhibit.id, s.d.owners);
      } else {
        assert t.hub.ifaces[k].active.Keys == active;
      }
    case Unregister(o, id) =>
      if id in s.hub.ifaces[o].active { UnregisterEffect(s.hub, o, id); }
      assert t.hub.ifaces[k].active.Keys <= active;
  }

  // ---- the contract ----

  /** The interface has one fixed type, or takes both from the flag word. */
  predicate GoodStyle(style: Style) {
    style.Fixed? ==> style.kind == SCREENSAVER || style.kind == SUSPEND
  }

  lemma StyleKeepsTypes(style: Style, kind: InhibitType, flags: nat)
    requires GoodStyle(style)
    ensures Refuses(style, kind) <==> kind.And(Mask(style)) == NONE
    ensures !Refuses(style, kind) ==> GrantedKind(style, kind) == kind.And(Mask(style))
    ensures AskedKind(style, flags).Within(Mask(style))
  {
    FlagsRoundTrip(kind, flags);
  }

  /** What doInhibit answers in implementing mode: exactly the accepted part of the request under our own
      fresh id, or a refusal exactly when no part is accepted; never silence. */
  lemma DoInhibitKeepsContract(s: System, r: InhibitRequest, remote: Remote, now: nat)
    requires Owned(s) && BirthInv(s) && GoodStyle(s.style) && InWindow(s)
    ensures var reply := DoInhibit(s, r, remote, now).0;
      && KeepsContract(s.hub, s.k, Mask(s.style), r.kind, reply)
      && (reply.Unsupported? <==> r.kind.And(Mask(s.style)) == NONE)
      && (reply.Granted? ==>
            && reply.inhibit.appname == r.appname && reply.inhibit.reason == r.reason
            && OwnedBy(reply.inhibit.id, s.k) && SenderOf(reply.inhibit.id) == US)
  {
    MadeFor(s.k, US, NextCookie(s));
    NextIdIsFresh(s, SenderId(s.k, US, NextCookie(s)));
    StyleKeepsTypes(s.style, r.kind, 0);
  }

  /** The hub events that other interfaces have a part in. */
  ghost predicate NeighboursKeep(s: System, m: Message)
    requires ValidMessage(s, m)
  {
    match m
    case InhibitMsg(_, _, _, _, _, _, answers) => OthersKeep(s.hub, Register(s.k, NewInhibit(s, m), answers), s.k)
    case Elsewhere(e, _, _) => OthersKeep(s.hub, e, s.k) && (e.Register? ==> Asked(e.origin, e.replies, 0, s.k))
    case UnInhibitMsg(_, _) => true
    case NameLost(_) => true
  }

  ghost predicate SystemShares(s: System) {
    s.k < |s.hub.ifaces| && GoodStyle(s.style) && Shares(s.hub, s.k, Mask(s.style))
  }

  lemma {:induction false} ShareAfterReleases(hub: HubState, ids: seq<InhibitID>, J: nat, mask: InhibitType)
    requires Shares(hub, J, mask)
    requires forall x :: x in ids ==> (x in hub.ifaces[J].active ==> x in hub.ifaces[J].sources)
    requires forall x, y :: x in ids ==> !Lists(hub, y, J, x)
    ensures Shares(Run(hub, Unregisters(J, ids)), J, mask)
    decreases |ids|
  {
    if ids != [] {
      var x, rest := ids[0], ids[1..];
      ShareAfterEvent(hub, Unregister(J, x), J, mask);
      var s1 := UnregisterStep(hub, J, x);
      if x in hub.ifaces[J].active { UnregisterEffect(hub, J, x); }
      assert forall y :: y in rest ==> y in ids;
      ShareAfterReleases(s1, rest, J, mask);
      assert Unregisters(J, ids)[1..] == Unregisters(J, rest);
    }
  }

  lemma InhibitMsgShares(s: System, m: Message)
    requires Owned(s) && BirthInv(s) && SystemShares(s) && ValidMessage(s, m) && NeighboursKeep(s, m) && m.InhibitMsg?
    requires InWindow(s)
    ensures SystemShares(Handle(s, m))
  {
    var i := NewInhibit(s, m);
    MadeFor(s.k, m.sender, NextCookie(s));
    NextIdIsFresh(s, i.id);
    StyleKeepsTypes(s.style, NONE, m.flags);
    ShareAfterOwn(s.hub, i, m.answers, s.k, Mask(s.style));
  }

  lemma ElsewhereShares(s: System, m: Message)
    requires Owned(s) && BirthInv(s) && SystemShares(s) && ValidMessage(s, m) && NeighboursKeep(s, m) && m.Elsewhere?
    requires InWindow(s)
    ensures SystemShares(Handle(s, m))
  {
    if m.event.Register? {
      DoInhibitKeepsContract(s, Request(m.event.inhibit), m.remote, m.now);
    }
    ShareAfterElsewhere(s.hub, m.event, s.k, Mask(s.style));
  }

  lemma SharesKept(s: System, m: Message)
    requires Owned(s) && BirthInv(s) && SystemShares(s) && ValidMessage(s, m) && NeighboursKeep(s, m)
    requires InWindow(s)
    ensures SystemShares(Handle(s, m))
  {
    match m
    case InhibitMsg(_, _, _, _, _, _, _) => InhibitMsgShares(s, m);
    case Elsewhere(_, _, _) => ElsewhereShares(s, m);
    case UnInhibitMsg(name, cookie) =>
      MadeFor(s.k, name, cookie);
      ShareAfterEvent(s.hub, Unregister(s.k, SenderId(s.k, name, cookie)), s.k, Mask(s.style));
    case NameLost(name) =>
      assert SenderOf("") == "";
      ShareAfterReleases(s.hub, OwnersOf(s.d.owners, name), s.k, Mask(s.style));
  }

  /** UnInhibit with the cookie that Inhibit returned to the same client undoes it: every table of every
      interface and the plan are as before, when the copies elsewhere were new. */
  lemma UnInhibitUndoesInhibit(s: System, m: Message)
    requires Owned(s) && BirthInv(s) && ValidMessage(s, m) && m.InhibitMsg?
    requires NoLeak(s.hub) && AllCoherent(s.hub) && InWindow(s)
    requires forall k, x :: SourceAt(s.hub, k, x) ==> OwnedBy(x, k)
    requires forall j: nat :: Copied(s.k, m.answers, 0, j) ==> m.answers[j].inhibit.id !in s.hub.ifaces[j].active
    ensures var t := Handle(s, m); var undo := UnInhibitMsg(m.sender, t.d.lastCookie);
      && ValidMessage(t, undo)
      && var u := Handle(t, undo);
         && u.hub.plan == s.hub.plan
         && forall j :: 0 <= j < |s.hub.ifaces| ==> u.hub.ifaces[j].active == s.hub.ifaces[j].active
  {
    var i := NewInhibit(s, m);
    MadeFor(s.k, m.sender, NextCookie(s));
    NextIdIsFresh(s, i.id);
    if i.id in s.hub.plan {
      assert ActiveSource(s.hub, i.id);
      var j :| 0 <= j < |s.hub.ifaces| && i.id in s.hub.ifaces[j].sources;
      assert SourceAt(s.hub, j, i.id);
      OneOwner(i.id, j, s.k);
      assert false;
    }
    ReleaseUndoesRegister(s.hub, s.k, i, m.answers);
  }

  ghost predicate GoodRun(s: System, ms: seq<Message>)
    decreases |ms|
  {
    ms != [] ==>
      && ValidMessage(s, ms[0]) && NeighboursKeep(s, ms[0]) && InWindow(s)
      && GoodRun(Handle(s, ms[0]), ms[1..])
  }

  lemma {:induction false} SharesInRuns(s: System, ms: seq<Message>)
    requires Owned(s) && BirthInv(s) && SystemShares(s) && GoodRun(s, ms)
    ensures ValidRun(s, ms) && SystemShares(HandleAll(s, ms))
    decreases |ms|
  {
    if ms != [] {
      OwnedKept(s, ms[0]);
      BornKept(s, ms[0]);
      SharesKept(s, ms[0]);
      SharesInRuns(Handle(s, ms[0]), ms[1..]);
    }
  }

  /** An implementing D-Bus interface, of one fixed type or taking both types from the flag word, is after
      every run of its handlers and of anything elsewhere inhibited by exactly the types it accepts of what
      applications hold anywhere. */
  lemma DBusInterfaceShares(n: nat, k: nat, style: Style, ms: seq<Message>)
    requires k < n <= WORD64 && GoodStyle(style) && GoodRun(Start(n, k, style, false), ms)
    ensures ValidRun(Start(n, k, style, false), ms)
    ensures var hub := HandleAll(Start(n, k, style, false), ms).hub;
            hub.ifaces[k].last == OrOf(hub.ifaces[k].active) == SourceOr(hub).And(Mask(style))
  {
    StartOwned(n, k, style, false);
    InitNoLeak(n);
    InitSharing(n, k, Mask(style));
    SharesInRuns(Start(n, k, style, false), ms);
    var hub := HandleAll(Start(n, k, style, false), ms).hub;
    SharedState(hub, k, Mask(style));
  }
}
