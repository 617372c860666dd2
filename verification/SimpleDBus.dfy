/** The D-Bus interfaces, the session manager included: Inhibit, UnInhibit and the release of inhibits
    whose owner is gone. */
module SimpleDBus {
  import opened InhibitTypes
  import opened Ids
  import opened HubSpec
  import opened HubSafety
  import opened HubSharing
  import opened GnomeFlags
  import Cookies

  const US := "us"

  /** A name that the bus gives to a client: it fits the id field and is never our own "us". */
  predicate IsSender(s: string) {
    NulFree(s) && |s| < SENDER_FIELD && s != US
  }

  // ---- std::remove_if without erase ----

  function Kept(v: seq<InhibitID>, id: InhibitID): seq<InhibitID> {
    if v == [] then [] else
    Kept(v[..|v| - 1], id) + if v[|v| - 1] == id then [] else [v[|v| - 1]]
  }

  /** The vector and the write position after the loop of std::remove_if has looked at n elements: a kept
      element moves to the write position and leaves an empty vector behind. */
  function Compact(v: seq<InhibitID>, id: InhibitID, n: nat): (c: (seq<InhibitID>, nat))
    requires n <= |v|
    ensures |c.0| == |v| && c.1 <= n
  {
    if n == 0 then (v, 0) else
    var (w, r) := Compact(v, id, n - 1);
    if v[n - 1] == id then (w, r) else (w[n - 1 := ""][r := v[n - 1]], r + 1)
  }

  /** The vector that remove_if leaves behind when nothing is erased. */
  function RemoveIf(v: seq<InhibitID>, id: InhibitID): (w: seq<InhibitID>)
    ensures |w| == |v|
  {
    Compact(v, id, |v|).0
  }

  /** The kept elements come first, in order; what follows them is empty or the removed id. */
  lemma {:induction false} CompactEffect(v: seq<InhibitID>, id: InhibitID, n: nat)
    requires n <= |v|
    ensures var (w, r) := Compact(v, id, n);
      && w[..r] == Kept(v[..n], id)
      && (forall i :: r <= i < n ==> w[i] == id || w[i] == "")
      && (forall i :: n <= i < |v| ==> w[i] == v[i])
  {
    if n > 0 {
      CompactEffect(v, id, n - 1);
      assert v[..n][..n - 1] == v[..n - 1];
      var (w, r) := Compact(v, id, n - 1);
      if v[n - 1] != id {
        assert w[n - 1 := ""][r := v[n - 1]][..r + 1] == w[..r] + [v[n - 1]];
      }
    }
  }

  lemma {:induction false} KeptMembers(v: seq<InhibitID>, id: InhibitID, x: InhibitID)
    ensures x in Kept(v, id) <==> x in v && x != id
  {
    if v != [] {
      KeptMembers(v[..|v| - 1], id, x);
      assert v == v[..|v| - 1] + [v[|v| - 1]];
    }
  }

  /** The kept elements keep their order and their number. */
  lemma {:induction false} KeptOfConcat(a: seq<InhibitID>, b: seq<InhibitID>, id: InhibitID)
    ensures Kept(a + b, id) == Kept(a, id) + Kept(b, id)
    decreases |b|
  {
    if b == [] {
      assert a + b == a;
    } else {
      assert (a + b)[..|a + b| - 1] == a + b[..|b| - 1];
      KeptOfConcat(a, b[..|b| - 1], id);
    }
  }

  /** Removing an id loses no other id, and adds nothing but empty ids. */
  lemma RemoveIfKeeps(v: seq<InhibitID>, id: InhibitID)
    ensures forall x :: x in v && x != id ==> x in RemoveIf(v, id)
    ensures forall x :: x in RemoveIf(v, id) ==> x in v || x == "" || x == id
  {
    var (w, r) := Compact(v, id, |v|);
    CompactEffect(v, id, |v|);
    assert v[..|v|] == v && w == w[..r] + w[r..];
    forall x ensures x in Kept(v, id) <==> x in v && x != id {
      KeptMembers(v, id, x);
    }
  }

  /** std::remove_if: find the first match, then move every later element that is kept to the front. */
  method RemoveIfInPlace(v: seq<InhibitID>, id: InhibitID) returns (w: seq<InhibitID>)
    ensures w == RemoveIf(v, id)
  {
    w := v;
    var first := 0;
    while first < |w| && w[first] != id
      invariant first <= |w| && w == v && Compact(v, id, first) == (v, first)
    {
      assert v[first := ""][first := v[first]] == v;
      first := first + 1;
    }
    var result := first;
    if first < |w| {
      first := first + 1;
      while first < |w|
        invariant result < first <= |w| == |v| && (w, result) == Compact(v, id, first)
        invariant forall i :: first <= i < |w| ==> w[i] == v[i]
      {
        if w[first] != id {
          w := w[first := ""][result := w[first]];
          result := result + 1;
        }
        first := first + 1;
      }
    }
  }

  // ---- the interface's own state, and what one message does ----

  /** What the D-Bus interfaces differ in: most inhibit one fixed type, the session manager takes the types
      from a flag word, and its counter does not skip 0. */
  datatype Style = Fixed(kind: InhibitType) | Flagged

  function Mask(style: Style): InhibitType {
    if style.Fixed? then style.kind else BOTH
  }

  function CounterOf(style: Style): (c: Cookies.Counter)
    ensures Cookies.Runs(c) && c.word == WORD32
  {
    if style.Fixed? then Cookies.SkipsZero(WORD32) else Cookies.Plain(WORD32)
  }

  /** The types of a client's inhibit. */
  function AskedKind(style: Style, flags: nat): InhibitType {
    if style.Fixed? then style.kind else GnomeTypeToUs(flags)
  }

  /** doInhibit throws "unsupported type". */
  predicate Refuses(style: Style, kind: InhibitType) {
    if style.Fixed? then kind.And(style.kind) == NONE else UsToGnomeType(kind) == 0
  }

  /** The types of a copy. */
  function GrantedKind(style: Style, kind: InhibitType): InhibitType {
    if style.Fixed? then style.kind else GnomeTypeToUs(UsToGnomeType(kind))
  }

  datatype Dbus = Dbus(owners: Owners, lastCookie: nat, births: Cookies.Births)

  /** What the implementer of the interface answers when we call its Inhibit in monitor mode. */
  datatype Remote = Cookie(cookie: nat) | Null | Silent

  datatype Message =
    | InhibitMsg(sender: string, appname: string, reason: string, flags: nat, now: nat, monitored: nat, answers: seq<Reply>)
    | UnInhibitMsg(sender: string, cookie: nat)
    | NameLost(name: string)
    | Elsewhere(event: Event, remote: Remote, now: nat)

  /** The whole system seen from interface `k`, which monitors or implements its bus name. */
  datatype System = System(k: nat, style: Style, monitor: bool, hub: HubState, d: Dbus)

  type Owners = map<string, seq<InhibitID>>

  /** inhibitOwners[sender]; a missing entry reads as an empty vector. */
  function OwnersOf(owners: Owners, sender: string): seq<InhibitID> {
    if sender in owners then owners[sender] else []
  }

  function NextCookie(s: System): (c: nat)
    requires s.d.lastCookie < WORD32
    ensures c < WORD32
  {
    Cookies.Next(CounterOf(s.style), s.d.lastCookie)
  }

  /** One more cookie is handed out and becomes part of `id`. */
  function Issue(s: System, id: InhibitID): Dbus
    requires s.d.lastCookie < WORD32
  {
    s.d.(lastCookie := NextCookie(s), births := Cookies.Issued(s.d.births, id))
  }

  /** doInhibit: refuse a request without our type; ask the implementer, or take the next cookie. */
  function DoInhibit(s: System, r: InhibitRequest, remote: Remote, now: nat): (Reply, Dbus)
    requires s.d.lastCookie < WORD32
  {
    if Refuses(s.style, r.kind) then (Unsupported, s.d)
    else if s.monitor && remote.Silent? then (NoResponse, s.d)
    else
      var cookie := if !s.monitor then NextCookie(s) else if remote.Cookie? then remote.cookie else 0;
      var id := SenderId(s.k, US, cookie);
      (Granted(Inhibit(GrantedKind(s.style, r.kind), r.appname, r.reason, id, now)),
       if s.monitor then s.d else Issue(s, id))
  }

  function NewInhibit(s: System, m: Message): Inhibit
    requires m.InhibitMsg? && |m.sender| < SENDER_FIELD && s.d.lastCookie < WORD32
  {
    var cookie := if s.monitor then m.monitored else NextCookie(s);
    Inhibit(AskedKind(s.style, m.flags), m.appname, m.reason, SenderId(s.k, m.sender, cookie), m.now)
  }

  function Unregisters(k: nat, ids: seq<InhibitID>): (es: seq<Event>)
    ensures |es| == |ids| && forall e <- es :: e.Unregister? && e.origin == k
    ensures forall i :: 0 <= i < |ids| ==> es[i] == Unregister(k, ids[i])
  {
    seq(|ids|, i requires 0 <= i < |ids| => Unregister(k, ids[i]))
  }

  ghost predicate ValidMessage(s: System, m: Message) {
    && s.k < |s.hub.ifaces| <= WORD64 && s.d.lastCookie < WORD32
    && match m
       case InhibitMsg(sender, _, _, _, _, monitored, answers) =>
         IsSender(sender) && |answers| == |s.hub.ifaces| && monitored < WORD32
       case UnInhibitMsg(sender, cookie) => IsSender(sender) && cookie < WORD32
       case NameLost(name) => IsSender(name)
       case Elsewhere(e, remote, now) =>
         && ValidEvent(|s.hub.ifaces|, e) && e.origin != s.k && (remote.Cookie? ==> remote.cookie < WORD32)
         && (e.Register? && Asked(e.origin, e.replies, 0, s.k) ==>
               e.replies[s.k] == DoInhibit(s, Request(e.inhibit), remote, now).0)
  }

  /** The request that the hub makes for a copy. */
  function Request(i: Inhibit): InhibitRequest {
    InhibitRequest(i.kind, i.appname, i.reason)
  }

  ghost function Handle(s: System, m: Message): (t: System)
    requires ValidMessage(s, m)
    ensures t.k == s.k && t.style == s.style && t.monitor == s.monitor && |t.hub.ifaces| == |s.hub.ifaces|
  {
    match m
    case InhibitMsg(sender, _, _, _, _, _, answers) =>
      var i := NewInhibit(s, m);
      var d := Issue(s, i.id);
      s.(hub := Step(s.hub, Register(s.k, i, answers)),
         d := d.(owners := d.owners[sender := OwnersOf(d.owners, sender) + [i.id]]))
    case UnInhibitMsg(sender, cookie) =>
      var id := SenderId(s.k, sender, cookie);
      s.(hub := Step(s.hub, Unregister(s.k, id)),
         d := s.d.(owners := s.d.owners[sender := RemoveIf(OwnersOf(s.d.owners, sender), id)]))
    case NameLost(name) =>
      s.(hub := Run(s.hub, Unregisters(s.k, OwnersOf(s.d.owners, name))),
         d := s.d.(owners := s.d.owners[name := []]))
    case Elsewhere(e, remote, now) =>
      s.(hub := Step(s.hub, e),
         d := if e.Register? && Asked(e.origin, e.replies, 0, s.k)
              then DoInhibit(s, Request(e.inhibit), remote, now).1 else s.d)
  }

  // ---- releasing several ids of one interface ----

  /** Some active id of the list has copy f at interface j. */
  ghost predicate ReleasedBy(s: HubState, k: nat, ids: seq<InhibitID>, j: nat, f: InhibitID)
    requires k < |s.ifaces|
  {
    exists x :: x in ids && x in s.ifaces[k].active && Lists(s, x, j, f)
  }

  /** Everything a sequence of releases does: the ids and their copies, and only they, are gone. */
  ghost predicate AllReleased(s: HubState, t: HubState, k: nat, ids: seq<InhibitID>)
    requires k < |s.ifaces|
  {
    && |t.ifaces| == |s.ifaces|
    && (forall j: nat, f {:trigger f in t.ifaces[j].active} {:trigger ReleasedBy(s, k, ids, j, f)} :: j < |s.ifaces| ==>
          (f in t.ifaces[j].active <==>
             f in s.ifaces[j].active && !(j == k && f in ids) && !ReleasedBy(s, k, ids, j, f)))
    && (forall j: nat, f :: j < |s.ifaces| && f in t.ifaces[j].active ==>
          t.ifaces[j].active[f] == s.ifaces[j].active[f])
    && (forall j: nat, f {:trigger f in t.ifaces[j].sources} {:trigger ReleasedBy(s, k, ids, j, f)} :: j < |s.ifaces| ==>
          (f in t.ifaces[j].sources <==>
             f in s.ifaces[j].sources && !(j == k && f in ids) && !ReleasedBy(s, k, ids, j, f)))
    && (forall y, j: nat, f :: Lists(t, y, j, f) <==>
          Lists(s, y, j, f) && !(y in ids && y in s.ifaces[k].active))
  }

  lemma {:induction false} ReleaseIds(s: HubState, k: nat, ids: seq<InhibitID>)
    requires k < |s.ifaces| && SourcesActive(s)
    requires forall x, y :: x in ids && y in ids ==> !Lists(s, y, k, x)
    ensures AllReleased(s, Run(s, Unregisters(k, ids)), k, ids)
    ensures SourcesActive(Run(s, Unregisters(k, ids)))
    decreases |ids|
  {
    var t := Run(s, Unregisters(k, ids));
    if ids == [] {
      assert t == s;
    } else {
      var x, rest := ids[0], ids[1..];
      var s1 := UnregisterStep(s, k, x);
      assert Unregisters(k, ids)[0] == Unregister(k, x) && Unregisters(k, ids)[1..] == Unregisters(k, rest);
      if x in s.ifaces[k].active { UnregisterEffect(s, k, x); }
      ReleaseIds(s1, k, rest);
      ReleaseFirst(s, s1, t, k, ids);
    }
  }

  lemma ReleaseFirst(s: HubState, s1: HubState, t: HubState, k: nat, ids: seq<InhibitID>)
    requires k < |s.ifaces| && SourcesActive(s) && ids != [] && s1 == UnregisterStep(s, k, ids[0])
    requires forall x, y :: x in ids && y in ids ==> !Lists(s, y, k, x)
    requires AllReleased(s1, t, k, ids[1..])
    ensures AllReleased(s, t, k, ids)
  {
    var x, rest := ids[0], ids[1..];
    assert forall y :: y in ids <==> y == x || y in rest;
    if x in s.ifaces[k].active {
      UnregisterEffect(s, k, x);
      forall j: nat, f | j < |s.ifaces|
        ensures ReleasedBy(s, k, ids, j, f) <==> Lists(s, x, j, f) || ReleasedBy(s1, k, rest, j, f)
      {
        ReleasedByFirst(s, k, ids, j, f);
      }
    } else {
      forall j: nat, f ensures ReleasedBy(s, k, ids, j, f) <==> ReleasedBy(s1, k, rest, j, f) {
      }
    }
  }

  lemma ReleasedByFirst(s: HubState, k: nat, ids: seq<InhibitID>, j: nat, f: InhibitID)
    requires k < |s.ifaces| && SourcesActive(s) && ids != [] && ids[0] in s.ifaces[k].active
    requires forall x, y :: x in ids && y in ids ==> !Lists(s, y, k, x)
    ensures ReleasedBy(s, k, ids, j, f) <==>
            Lists(s, ids[0], j, f) || ReleasedBy(UnregisterStep(s, k, ids[0]), k, ids[1..], j, f)
  {
    var x, rest := ids[0], ids[1..];
    UnregisterEffect(s, k, x);
    var s1 := UnregisterStep(s, k, x);
    if ReleasedBy(s, k, ids, j, f) && !Lists(s, x, j, f) {
      var y :| y in ids && y in s.ifaces[k].active && Lists(s, y, j, f);
      assert y in rest && y in s1.ifaces[k].active && Lists(s1, y, j, f);
    }
    if ReleasedBy(s1, k, rest, j, f) {
      var y :| y in rest && y in s1.ifaces[k].active && Lists(s1, y, j, f);
      assert y in ids && y in s.ifaces[k].active && Lists(s, y, j, f);
    }
  }
}
