/** Owner tracking of the D-Bus interfaces in every run: the loss of a client's name releases what it held. */
module SimpleDBusRuns {
  import opened InhibitTypes
  import opened Ids
  import opened HubSpec
  import opened HubSafety
  import opened HubSharing
  import opened SimpleDBus
  import Cookies

  // ---- owners ----

  /** The lists hold nothing of other senders, every application's inhibit at interface k has a sender of its
      own, and everything else that is active or recorded there is ours. The reading of the sender out of an
      id is a parameter. */
  ghost predicate OwnersTidy(hub: HubState, k: nat, owners: Owners, sender: InhibitID -> string) {
    && k < |hub.ifaces| && SourcesActive(hub) && sender("") != US && "" !in hub.ifaces[k].active
    && (forall id :: id in hub.ifaces[k].sources ==> sender(id) != US)
    && (forall id :: id in hub.ifaces[k].active ==> OwnedBy(id, k))
    && (forall name, id :: id in OwnersOf(owners, name) ==> id == "" || sender(id) == name)
    && (forall id :: id in hub.ifaces[k].active && id !in hub.ifaces[k].sources ==> sender(id) == US)
    && (forall x, f :: Lists(hub, x, k, f) ==> sender(f) == US)
  }

  /** The id is in the list of its sender. */
  predicate Listed(owners: Owners, sender: InhibitID -> string, id: InhibitID) {
    id in OwnersOf(owners, sender(id))
  }

  /** Every application's inhibit is listed under its sender. */
  ghost predicate OwnersInv(hub: HubState, k: nat, owners: Owners, sender: InhibitID -> string) {
    && OwnersTidy(hub, k, owners, sender)
    && forall id :: id in hub.ifaces[k].sources ==> Listed(owners, sender, id)
  }

  /** What a handler does to the lists: `added` becomes listed, every other id that is still registered is
      listed exactly if it was. */
  ghost predicate ListsOnly(hub: HubState, t: HubState, k: nat, owners: Owners, after: Owners,
                            sender: InhibitID -> string, added: set<InhibitID>)
    requires k < |hub.ifaces| == |t.ifaces|
  {
    && OwnersTidy(t, k, after, sender)
    && t.ifaces[k].sources <= hub.ifaces[k].sources + added
    && forall id :: id in t.ifaces[k].sources ==>
         (Listed(after, sender, id) <==> id in added || Listed(owners, sender, id))
  }

  lemma OwnersUpdate(owners: Owners, name: string, v: seq<InhibitID>)
    ensures forall n :: OwnersOf(owners[name := v], n) == if n == name then v else OwnersOf(owners, n)
  {
    var after := owners[name := v];
    forall n ensures OwnersOf(after, n) == if n == name then v else OwnersOf(owners, n) {
      if n == name {
        assert OwnersOf(after, n) == v;
      } else {
        assert n in after <==> n in owners;
        assert OwnersOf(after, n) == OwnersOf(owners, n);
      }
    }
  }

  lemma OwnersAfterInhibit(hub: HubState, k: nat, owners: Owners, sender: InhibitID -> string,
                           i: Inhibit, answers: seq<Reply>)
    requires OwnersTidy(hub, k, owners, sender) && |answers| == |hub.ifaces|
    requires i.id != "" && sender(i.id) != US && OwnedBy(i.id, k)
    ensures var name := sender(i.id);
            ListsOnly(hub, RegisterStep(hub, k, i, answers), k, owners,
                      owners[name := OwnersOf(owners, name) + [i.id]], sender, {i.id})
  {
    RegisterEffect(hub, k, i, answers);
    var name := sender(i.id);
    OwnersUpdate(owners, name, OwnersOf(owners, name) + [i.id]);
    var after := owners[name := OwnersOf(owners, name) + [i.id]];
    forall n, id ensures id in OwnersOf(after, n) <==> id in OwnersOf(owners, n) || (n == name && id == i.id) {
    }
  }

  lemma OwnersAfterUnInhibit(hub: HubState, k: nat, owners: Owners, sender: InhibitID -> string, id: InhibitID)
    requires OwnersTidy(hub, k, owners, sender) && sender(id) != US
    ensures var name := sender(id);
            ListsOnly(hub, UnregisterStep(hub, k, id), k, owners,
                      owners[name := RemoveIf(OwnersOf(owners, name), id)], sender, {})
  {
    var name := sender(id);
    RemoveIfKeeps(OwnersOf(owners, name), id);
    OwnersUpdate(owners, name, RemoveIf(OwnersOf(owners, name), id));
    var after := owners[name := RemoveIf(OwnersOf(owners, name), id)];
    forall n, x
      ensures x in OwnersOf(owners, n) && x != id ==> x in OwnersOf(after, n)
      ensures x in OwnersOf(after, n) ==> x in OwnersOf(owners, n) || (n == name && (x == "" || x == id))
    {
    }
    if id in hub.ifaces[k].active { UnregisterEffect(hub, k, id); }
  }

  lemma OwnersAfterElsewhere(hub: HubState, k: nat, owners: Owners, sender: InhibitID -> string, e: Event)
    requires OwnersTidy(hub, k, owners, sender) && ValidEvent(|hub.ifaces|, e) && e.origin != k
    requires e.Register? && Copied(e.origin, e.replies, 0, k) ==>
      var id := e.replies[k].inhibit.id; id != "" && sender(id) == US && OwnedBy(id, k)
    ensures ListsOnly(hub, Step(hub, e), k, owners, owners, sender, {})
  {
    match e
    case Register(o, i, replies) => RegisterEffect(hub, o, i, replies);
    case Unregister(o, id) => if id in hub.ifaces[o].active { UnregisterEffect(hub, o, id); }
  }

  /** Releasing some list of ids at k, none of them one of its recorded copies. */
  lemma OwnersAfterReleases(hub: HubState, k: nat, owners: Owners, sender: InhibitID -> string, ids: seq<InhibitID>)
    requires OwnersTidy(hub, k, owners, sender)
    requires forall x, y :: x in ids && y in ids ==> !Lists(hub, y, k, x)
    ensures var t := Run(hub, Unregisters(k, ids));
            AllReleased(hub, t, k, ids) && OwnersTidy(t, k, owners, sender)
            && forall id :: id in t.ifaces[k].sources <==>
                 id in hub.ifaces[k].sources && id !in ids && !ReleasedBy(hub, k, ids, k, id)
  {
    ReleaseIds(hub, k, ids);
  }

  lemma OwnersAfterNameLost(hub: HubState, k: nat, owners: Owners, sender: InhibitID -> string, name: string)
    requires OwnersTidy(hub, k, owners, sender) && name != US
    ensures var t, ids := Run(hub, Unregisters(k, OwnersOf(owners, name))), OwnersOf(owners, name);
      && AllReleased(hub, t, k, ids)
      && OwnersTidy(t, k, owners[name := []], sender)
      && t.ifaces[k].sources <= hub.ifaces[k].sources
      && forall id :: id in t.ifaces[k].sources ==> (Listed(owners, sender, id) <==> Listed(owners[name := []], sender, id))
  {
    var ids := OwnersOf(owners, name);
    OwnersAfterReleases(hub, k, owners, sender, ids);
    OwnersUpdate(owners, name, []);
    var after := owners[name := []];
    forall n, id ensures id in OwnersOf(after, n) <==> n != name && id in OwnersOf(owners, n) {
    }
  }

  /** Some inhibit of this sender, registered at interface k, has copy f at interface j. */
  ghost predicate CopyOfSender(hub: HubState, k: nat, sender: InhibitID -> string, name: string, j: nat, f: InhibitID)
    requires k < |hub.ifaces|
  {
    exists x :: x in hub.ifaces[k].sources && sender(x) == name && Lists(hub, x, j, f)
  }

  /** Exactly the inhibits of one sender, and their copies, are gone. */
  ghost predicate OnlySenderReleased(hub: HubState, t: HubState, k: nat, sender: InhibitID -> string, name: string)
    requires k < |hub.ifaces|
  {
    && |t.ifaces| == |hub.ifaces|
    && (forall id :: id in t.ifaces[k].active ==> sender(id) != name)
    && (forall j: nat, f {:trigger f in t.ifaces[j].active} {:trigger CopyOfSender(hub, k, sender, name, j, f)} ::
          j < |hub.ifaces| ==>
          (f in t.ifaces[j].active <==>
             && f in hub.ifaces[j].active
             && !(j == k && sender(f) == name)
             && !CopyOfSender(hub, k, sender, name, j, f)))
    && (forall j: nat, f :: j < |hub.ifaces| && f in t.ifaces[j].active ==>
          f in hub.ifaces[j].active && t.ifaces[j].active[f] == hub.ifaces[j].active[f])
  }

  lemma NameLostReleases(hub: HubState, k: nat, owners: Owners, sender: InhibitID -> string, name: string)
    requires OwnersInv(hub, k, owners, sender) && name != US
    ensures OnlySenderReleased(hub, Run(hub, Unregisters(k, OwnersOf(owners, name))), k, sender, name)
  {
    var ids := OwnersOf(owners, name);
    var t := Run(hub, Unregisters(k, ids));
    OwnersAfterNameLost(hub, k, owners, sender, name);
    forall j: nat, f | j < |hub.ifaces|
      ensures CopyOfSender(hub, k, sender, name, j, f) <==> ReleasedBy(hub, k, ids, j, f)
    {
      CopyOfSenderIsReleased(hub, k, owners, sender, name, j, f);
    }
    forall f | f in hub.ifaces[k].active ensures f in ids <==> sender(f) == name {
    }
    forall j: nat, f | j < |hub.ifaces| && f in t.ifaces[j].active
      ensures f in hub.ifaces[j].active && t.ifaces[j].active[f] == hub.ifaces[j].active[f]
    {
    }
  }

  lemma CopyOfSenderIsReleased(hub: HubState, k: nat, owners: Owners, sender: InhibitID -> string, name: string,
                               j: nat, f: InhibitID)
    requires OwnersInv(hub, k, owners, sender) && name != US
    ensures CopyOfSender(hub, k, sender, name, j, f) <==> ReleasedBy(hub, k, OwnersOf(owners, name), j, f)
  {
    if CopyOfSender(hub, k, sender, name, j, f) {
      var x :| x in hub.ifaces[k].sources && sender(x) == name && Lists(hub, x, j, f);
      assert x in OwnersOf(owners, name) && x in hub.ifaces[k].active;
    }
    if ReleasedBy(hub, k, OwnersOf(owners, name), j, f) {
      var x :| x in OwnersOf(owners, name) && x in hub.ifaces[k].active && Lists(hub, x, j, f);
      assert x in hub.ifaces[k].sources;
    }
  }

  // ---- whole runs ----

  ghost predicate Owned(s: System) {
    s.k < WORD64 && s.d.lastCookie < WORD32 && OwnersInv(s.hub, s.k, s.d.owners, SenderOf)
  }

  lemma MadeFor(k: nat, name: string, cookie: nat)
    requires k < WORD64 && cookie < WORD32 && NulFree(name) && |name| < SENDER_FIELD
    ensures var id := SenderId(k, name, cookie);
            id != "" && SenderOf(id) == name && CookieOf(id) == cookie && OwnedBy(id, k)
  {
    SenderIdRoundTrip(k, name, cookie);
  }

  lemma NewInhibitIsTheirs(s: System, m: Message)
    requires ValidMessage(s, m) && m.InhibitMsg?
    ensures var id := NewInhibit(s, m).id; id != "" && SenderOf(id) == m.sender && OwnedBy(id, s.k)
  {
    MadeFor(s.k, m.sender, if s.monitor then m.monitored else NextCookie(s));
  }

  lemma GrantIsOurs(s: System, r: InhibitRequest, remote: Remote, now: nat)
    requires s.k < WORD64 && s.d.lastCookie < WORD32 && (remote.Cookie? ==> remote.cookie < WORD32)
    ensures var (reply, d) := DoInhibit(s, r, remote, now);
      && (reply.Granted? ==> reply.inhibit.id != "" && SenderOf(reply.inhibit.id) == US && OwnedBy(reply.inhibit.id, s.k))
      && d.owners == s.d.owners && d.lastCookie < WORD32
  {
    MadeFor(s.k, US, if !s.monitor then NextCookie(s) else if remote.Cookie? then remote.cookie else 0);
  }

  /** What a message does to the lists. */
  lemma TidyAfterMessage(s: System, m: Message)
    requires OwnersTidy(s.hub, s.k, s.d.owners, SenderOf) && ValidMessage(s, m)
    ensures var t := Handle(s, m);
      && t.d.lastCookie < WORD32
      && ListsOnly(s.hub, t.hub, s.k, s.d.owners, t.d.owners, SenderOf,
                   if m.InhibitMsg? then {NewInhibit(s, m).id} else {})
  {
    match m
    case InhibitMsg(_, _, _, _, _, _, answers) =>
      NewInhibitIsTheirs(s, m);
      OwnersAfterInhibit(s.hub, s.k, s.d.owners, SenderOf, NewInhibit(s, m), answers);
    case UnInhibitMsg(name, cookie) =>
      MadeFor(s.k, name, cookie);
      OwnersAfterUnInhibit(s.hub, s.k, s.d.owners, SenderOf, SenderId(s.k, name, cookie));
    case NameLost(name) =>
      OwnersAfterNameLost(s.hub, s.k, s.d.owners, SenderOf, name);
    case Elsewhere(e, remote, now) =>
      if e.Register? { GrantIsOurs(s, Request(e.inhibit), remote, now); }
      OwnersAfterElsewhere(s.hub, s.k, s.d.owners, SenderOf, e);
  }

  lemma OwnedKept(s: System, m: Message)
    requires Owned(s) && ValidMessage(s, m)
    ensures Owned(Handle(s, m))
  {
    TidyAfterMessage(s, m);
  }

  function Start(n: nat, k: nat, style: Style, monitor: bool): System {
    System(k, style, monitor, Init(n), Dbus(map[], 0, Cookies.Births(0, map[])))
  }

  lemma StartOwned(n: nat, k: nat, style: Style, monitor: bool)
    requires k < n <= WORD64
    ensures Owned(Start(n, k, style, monitor))
  {
    assert SenderOf("") == "";
  }

  ghost predicate ValidRun(s: System, ms: seq<Message>)
    decreases |ms|
  {
    ms != [] ==> ValidMessage(s, ms[0]) && ValidRun(Handle(s, ms[0]), ms[1..])
  }

  ghost function HandleAll(s: System, ms: seq<Message>): (t: System)
    requires ValidRun(s, ms)
    ensures t.k == s.k && t.style == s.style && t.monitor == s.monitor && |t.hub.ifaces| == |s.hub.ifaces|
    decreases |ms|
  {
    if ms == [] then s else HandleAll(Handle(s, ms[0]), ms[1..])
  }

  lemma {:induction false} OwnedInRuns(s: System, ms: seq<Message>)
    requires Owned(s) && ValidRun(s, ms)
    ensures Owned(HandleAll(s, ms))
    decreases |ms|
  {
    if ms != [] {
      OwnedKept(s, ms[0]);
      OwnedInRuns(Handle(s, ms[0]), ms[1..]);
    }
  }

  /** Crash release: after any run of the handlers, interleaved with anything that happens elsewhere, the
      loss of a client's name leaves nothing of it active and releases exactly its inhibits and their
      copies, although remove_if never erases anything. */
  lemma CrashRelease(n: nat, k: nat, style: Style, monitor: bool, ms: seq<Message>, name: string)
    requires k < n <= WORD64 && IsSender(name) && ValidRun(Start(n, k, style, monitor), ms)
    ensures var s := HandleAll(Start(n, k, style, monitor), ms);
      && (forall id :: id in s.hub.ifaces[k].sources ==> Listed(s.d.owners, SenderOf, id))
      && ValidMessage(s, NameLost(name))
      && OnlySenderReleased(s.hub, Handle(s, NameLost(name)).hub, k, SenderOf, name)
  {
    StartOwned(n, k, style, monitor);
    OwnedInRuns(Start(n, k, style, monitor), ms);
    var s := HandleAll(Start(n, k, style, monitor), ms);
    NameLostReleases(s.hub, k, s.d.owners, SenderOf, name);
  }
}
