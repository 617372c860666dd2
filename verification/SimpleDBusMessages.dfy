/** What the messages of a D-Bus interface leave in its table, in terms of the messages themselves. */
module SimpleDBusMessages {
  import opened InhibitTypes
  import opened Ids
  import opened HubSpec
  import opened HubSafety
  import opened HubSharing
  import opened SimpleDBus
  import opened SimpleDBusRuns
  import opened ScreenSaverLease

  /** The cookie after `last`: 32 bits wide, skipping 0 unless the interface is the session manager. */
  function Following(style: Style, last: nat): nat {
    if last + 1 < 0x1_0000_0000 then last + 1 else if style == Flagged then 0 else 1
  }

  lemma NextIsFollowing(s: System)
    requires s.d.lastCookie < WORD32
    ensures NextCookie(s) == Following(s.style, s.d.lastCookie)
  {
  }

  /** The types of a client's inhibit: the interface's own, or those of the flags 8 and 4. */
  predicate TypesAsAsked(style: Style, flags: nat, kind: InhibitType) {
    match style
    case Fixed(own) => kind == own
    case Flagged => (kind.screensaver <==> (flags / 8) % 2 == 1) && (kind.suspend <==> (flags / 4) % 2 == 1)
  }

  /** The id of a new inhibit: its sender, with the cookie in the observed reply or the next one. */
  function NewId(s: System, m: Message): InhibitID
    requires m.InhibitMsg? && |m.sender| < SENDER_FIELD
  {
    SenderId(s.k, m.sender, if s.monitor then m.monitored else Following(s.style, s.d.lastCookie))
  }

  /** A client's Inhibit with a new id leaves exactly what the client asked for: its texts, the time, the types of
      the interface or of the flag word. These types, and no others, are added to what the interface reports,
      and its counter moves on in both modes. The id is the last one listed under its sender. */
  lemma InhibitRegistersWhatWasAsked(s: System, m: Message)
    requires ValidMessage(s, m) && m.InhibitMsg? && NewId(s, m) !in s.hub.ifaces[s.k].active
    ensures var t, id := Handle(s, m), NewId(s, m);
      var was, now := s.hub.ifaces[s.k].active, t.hub.ifaces[s.k].active;
      && now.Keys == was.Keys + {id} && id in t.hub.ifaces[s.k].sources
      && now[id].appname == m.appname && now[id].reason == m.reason && now[id].created == m.now && now[id].id == id
      && TypesAsAsked(s.style, m.flags, now[id].kind)
      && OrOf(now).screensaver == (OrOf(was).screensaver || now[id].kind.screensaver)
      && OrOf(now).suspend == (OrOf(was).suspend || now[id].kind.suspend)
      && t.d.lastCookie == Following(s.style, s.d.lastCookie)
      && OwnersOf(t.d.owners, m.sender) == OwnersOf(s.d.owners, m.sender) + [id]
      && (forall x :: x in was ==> now[x] == was[x])
  {
    NextIsFollowing(s);
    var i := NewInhibit(s, m);
    OwnersUpdate(s.d.owners, m.sender, OwnersOf(s.d.owners, m.sender) + [i.id]);
    RegisterEffect(s.hub, s.k, i, m.answers);
    OrOfMore(s.hub.ifaces[s.k].active, i);
  }

  /** The id carries the client's name and the cookie it was answered with; in monitor mode that is the cookie of
      the implementer's reply. */
  lemma NewIdCarriesCookie(s: System, m: Message)
    requires ValidMessage(s, m) && m.InhibitMsg?
    ensures var id := NewId(s, m);
      && OwnedBy(id, s.k) && SenderOf(id) == m.sender
      && CookieOf(id) == if s.monitor then m.monitored else Following(s.style, s.d.lastCookie)
  {
    MadeFor(s.k, m.sender, if s.monitor then m.monitored else Following(s.style, s.d.lastCookie));
  }

  /** No type of the request is one the interface takes. */
  predicate NothingAccepted(style: Style, kind: InhibitType) {
    match style
    case Fixed(own) => !(kind.screensaver && own.screensaver) && !(kind.suspend && own.suspend)
    case Flagged => !kind.screensaver && !kind.suspend
  }

  /** doInhibit: unsupported exactly when no type is accepted; otherwise silence exactly when we monitor and the
      implementer is silent; otherwise an inhibit with the request's texts, the time, the interface's own types
      or all types asked for, and the name "us" with the implementer's cookie, 0 without a reply body, or the next
      cookie when we implement. Only the last moves the counter. */
  lemma DoInhibitOutcomes(s: System, r: InhibitRequest, remote: Remote, now: nat)
    requires s.k < WORD64 && s.d.lastCookie < WORD32 && (remote.Cookie? ==> remote.cookie < WORD32)
    ensures var (reply, d) := DoInhibit(s, r, remote, now);
      && (reply == Unsupported <==> NothingAccepted(s.style, r.kind))
      && (reply == NoResponse <==> !NothingAccepted(s.style, r.kind) && s.monitor && remote == Silent)
      && (reply.Granted? ==>
            var i := reply.inhibit;
            && i.appname == r.appname && i.reason == r.reason && i.created == now
            && i.kind == (if s.style.Fixed? then s.style.kind else r.kind)
            && OwnedBy(i.id, s.k) && SenderOf(i.id) == "us"
            && CookieOf(i.id) == (if !s.monitor then Following(s.style, s.d.lastCookie)
                                  else if remote.Cookie? then remote.cookie else 0))
      && d.owners == s.d.owners
      && d.lastCookie == (if reply.Granted? && !s.monitor then Following(s.style, s.d.lastCookie) else s.d.lastCookie)
  {
    NextIsFollowing(s);
    GnomeKinds(r.kind);
    MadeFor(s.k, "us", if !s.monitor then Following(s.style, s.d.lastCookie) else if remote.Cookie? then remote.cookie else 0);
  }

  lemma GnomeKinds(kind: InhibitType)
    ensures Refuses(Flagged, kind) <==> kind == Flags(false, false)
    ensures GrantedKind(Flagged, kind) == kind
  {
  }

  /** An inhibit registered elsewhere, forwarded and granted here is held with the texts it was registered with,
      under an id of ours. */
  lemma CopyIsWhatWasForwarded(s: System, e: Event, remote: Remote, now: nat)
    requires ValidMessage(s, Elsewhere(e, remote, now)) && e.Register? && Copied(e.origin, e.replies, 0, s.k)
    requires e.replies[s.k].inhibit.id !in s.hub.ifaces[s.k].active
    ensures var t, id := Handle(s, Elsewhere(e, remote, now)), e.replies[s.k].inhibit.id;
      var active := t.hub.ifaces[s.k].active;
      && id in active && id !in s.hub.ifaces[s.k].active && SenderOf(id) == "us"
      && active[id].appname == e.inhibit.appname && active[id].reason == e.inhibit.reason && active[id].created == now
      && active[id].kind == (if s.style.Fixed? then s.style.kind else e.inhibit.kind)
  {
    RegisterEffect(s.hub, e.origin, e.inhibit, e.replies);
    DoInhibitOutcomes(s, InhibitRequest(e.inhibit.kind, e.inhibit.appname, e.inhibit.reason), remote, now);
  }

  /** UnInhibit releases the inhibit of that client with that cookie, and no other one registered there. */
  lemma UnInhibitReleasesThatOne(s: System, sender: string, cookie: nat, x: InhibitID)
    requires ValidMessage(s, UnInhibitMsg(sender, cookie)) && OwnersTidy(s.hub, s.k, s.d.owners, SenderOf)
    requires x in s.hub.ifaces[s.k].active && NoEcho(s.hub)
    ensures x !in Handle(s, UnInhibitMsg(sender, cookie)).hub.ifaces[s.k].active <==> x == SenderId(s.k, sender, cookie)
  {
    var id := SenderId(s.k, sender, cookie);
    if id in s.hub.ifaces[s.k].active { UnregisterEffect(s.hub, s.k, id); }
  }

  /** The loss of a name empties the list of that client and of no other, and leaves the counter alone. */
  lemma NameLostForgets(s: System, name: string, other: string)
    requires ValidMessage(s, NameLost(name))
    ensures var d := Handle(s, NameLost(name)).d;
      && OwnersOf(d.owners, other) == (if other == name then [] else OwnersOf(s.d.owners, other))
      && d.lastCookie == s.d.lastCookie
  {
    OwnersUpdate(s.d.owners, name, []);
  }

  /** In monitor mode UnInhibit with the implementer's cookie undoes the inhibit observed with it: every table of
      every interface and the plan are as before, when the ids were new. */
  lemma MonitoredUnInhibitUndoes(s: System, m: Message)
    requires s.monitor && ValidMessage(s, m) && m.InhibitMsg? && AllCoherent(s.hub)
    requires SenderId(s.k, m.sender, m.monitored) !in s.hub.ifaces[s.k].active
    requires SenderId(s.k, m.sender, m.monitored) !in s.hub.plan
    requires forall j: nat :: Copied(s.k, m.answers, 0, j) ==> m.answers[j].inhibit.id !in s.hub.ifaces[j].active
    ensures var t := Handle(s, m); var undo := UnInhibitMsg(m.sender, m.monitored);
      && ValidMessage(t, undo)
      && var u := Handle(t, undo);
         && u.hub.plan == s.hub.plan
         && forall j :: 0 <= j < |s.hub.ifaces| ==> u.hub.ifaces[j].active == s.hub.ifaces[j].active
  {
    ReleaseUndoesRegister(s.hub, s.k, NewInhibit(s, m), m.answers);
  }

  /** Simulated activity of a client without a lease leaves an inhibit of the interface's types, with the client's
      name and the time, which adds exactly these types to what the interface reports. */
  lemma ActivityInhibits(s: System, sender: string, now: nat, answers: seq<Reply>)
    requires s.k < |s.hub.ifaces| == |answers| && |sender| < SENDER_FIELD && s.style.Fixed?
    requires SenderId(s.k, sender, 0) !in s.hub.ifaces[s.k].active
    ensures var id := SenderId(s.k, sender, 0);
      var was, active := s.hub.ifaces[s.k].active, SimActivity(s, sender, now, answers).hub.ifaces[s.k].active;
      && active.Keys == was.Keys + {id} && active[id].kind == s.style.kind
      && active[id].appname == sender && active[id].reason == "SimulateUserActivity" && active[id].created == now
      && OrOf(active).screensaver == (OrOf(was).screensaver || s.style.kind.screensaver)
      && OrOf(active).suspend == (OrOf(was).suspend || s.style.kind.suspend)
  {
    var i := Lease(s.k, Mask(s.style), sender, now);
    RegisterEffect(s.hub, s.k, i, answers);
    OrOfMore(s.hub.ifaces[s.k].active, i);
  }

  /** A lease inhibits until it is released: as long as it stays in the table, the interface and the hub report the
      types of the interface. */
  lemma LeaseInhibitsUntilReleased(s: System, sender: string, now: nat, answers: seq<Reply>, es: seq<Event>)
    requires AllCoherent(s.hub) && s.k < |s.hub.ifaces| == |answers| && |sender| < SENDER_FIELD && s.style.Fixed?
    requires SenderId(s.k, sender, 0) !in s.hub.ifaces[s.k].active
    requires StaysActive(SimActivity(s, sender, now, answers).hub, es, s.k, SenderId(s.k, sender, 0))
    ensures forall e <- es :: ValidEvent(|s.hub.ifaces|, e)
    ensures var t := Run(SimActivity(s, sender, now, answers).hub, es);
      && (s.style.kind.screensaver ==> t.ifaces[s.k].last.screensaver && t.printed.screensaver)
      && (s.style.kind.suspend ==> t.ifaces[s.k].last.suspend && t.printed.suspend)
  {
    ActivityInhibits(s, sender, now, answers);
    CoherentStep(s.hub, Register(s.k, Lease(s.k, Mask(s.style), sender, now), answers));
    InhibitsUntilReleased(SimActivity(s, sender, now, answers).hub, es, s.k, SenderId(s.k, sender, 0));
  }
}
