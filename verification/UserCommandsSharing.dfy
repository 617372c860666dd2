/** The user-command interface keeps the hub's contract: its ids are fresh, so its commands follow what
    applications hold anywhere. */
module UserCommandsSharing {
  import opened InhibitTypes
  import opened Ids
  import opened HubSpec
  import opened HubSafety
  import opened HubSharing
  import opened FreshSharing
  import opened UserCommands
  import Cookies

  /** The hub seen from the user-command interface k, with its counter. */
  datatype Commands = Commands(k: nat, hub: HubState, lastCookie: nat, births: Cookies.Births)

  /** What doInhibit grants: every request, with its own types and the next cookie. */
  function Granting(s: Commands, i: Inhibit, now: nat): Inhibit
    requires s.lastCookie < WORD64
  {
    Grant(s.k, i.kind, i.appname, i.reason, Cookies.Next(COUNTER, s.lastCookie), now)
  }

  /** An event at another interface; this one grants what it is asked. Nothing is ever registered here. */
  ghost predicate ValidStep(s: Commands, e: Event, now: nat) {
    && s.k < |s.hub.ifaces| <= WORD64 && s.lastCookie < WORD64
    && ValidEvent(|s.hub.ifaces|, e) && e.origin != s.k
    && (e.Register? && Asked(e.origin, e.replies, 0, s.k) ==> e.replies[s.k] == Granted(Granting(s, e.inhibit, now)))
  }

  ghost function After(s: Commands, e: Event, now: nat): (t: Commands)
    requires ValidStep(s, e, now)
    ensures t.k == s.k && |t.hub.ifaces| == |s.hub.ifaces|
  {
    var t := s.(hub := Step(s.hub, e));
    if e.Register? && Asked(e.origin, e.replies, 0, s.k)
    then t.(lastCookie := Cookies.Next(COUNTER, s.lastCookie),
            births := Cookies.Issued(s.births, Granting(s, e.inhibit, now).id))
    else t
  }

  ghost predicate BirthInv(s: Commands) {
    && s.k < |s.hub.ifaces| <= WORD64
    && s.lastCookie == Cookies.CookieAt(COUNTER, s.births.issued)
    && Cookies.Born(s.hub.ifaces[s.k].active.Keys, s.births, COUNTER, CommandCookieOf)
  }

  /** Fewer than 2^64 - 1 cookies have been issued since the oldest active copy. */
  ghost predicate InWindow(s: Commands)
    requires s.k < |s.hub.ifaces|
  {
    Cookies.Window(s.hub.ifaces[s.k].active.Keys, s.births, COUNTER)
  }

  lemma GrantedCookie(s: Commands, i: Inhibit, now: nat)
    requires BirthInv(s)
    ensures var g := Granting(s, i, now);
      OwnedBy(g.id, s.k) && CommandCookieOf(g.id) == Cookies.CookieAt(COUNTER, s.births.issued + 1)
  {
    CommandIdRoundTrip(s.k, Cookies.Next(COUNTER, s.lastCookie));
  }

  lemma BornKept(s: Commands, e: Event, now: nat)
    requires BirthInv(s) && SourcesActive(s.hub) && ValidStep(s, e, now)
    ensures BirthInv(After(s, e, now))
  {
    var k, active, t := s.k, s.hub.ifaces[s.k].active.Keys, After(s, e, now);
    match e
    case Register(o, i, replies) =>
      RegisterEffect(s.hub, o, i, replies);
      if Asked(o, replies, 0, k) {
        GrantedCookie(s, i, now);
        Cookies.BornAfterIssue(active, t.hub.ifaces[k].active.Keys, s.births, COUNTER, CommandCookieOf, Granting(s, i, now).id);
      } else {
        assert t.hub.ifaces[k].active.Keys == active;
      }
    case Unregister(o, id) =>
      if id in s.hub.ifaces[o].active { UnregisterEffect(s.hub, o, id); }
      assert t.hub.ifaces[k].active.Keys <= active;
  }

  /** Every request is granted with exactly its types, under an own id that is not active. */
  lemma GrantKeepsContract(s: Commands, i: Inhibit, now: nat)
    requires BirthInv(s) && InWindow(s)
    ensures var g := Granting(s, i, now);
      && KeepsContract(s.hub, s.k, BOTH, i.kind, Granted(g))
      && OwnedBy(g.id, s.k) && g.appname == i.appname && g.reason == i.reason && g.created == now
  {
    GrantedCookie(s, i, now);
    Cookies.NextIsFresh(s.hub.ifaces[s.k].active.Keys, s.births, COUNTER, CommandCookieOf, Granting(s, i, now).id);
  }

  ghost predicate GoodRun(s: Commands, es: seq<Event>, clock: seq<nat>)
    requires |clock| == |es|
    decreases |es|
  {
    es != [] ==>
      && ValidStep(s, es[0], clock[0]) && OthersKeep(s.hub, es[0], s.k) && InWindow(s)
      && (es[0].Register? ==> Asked(es[0].origin, es[0].replies, 0, s.k))
      && GoodRun(After(s, es[0], clock[0]), es[1..], clock[1..])
  }

  lemma {:induction false} SharesInRuns(s: Commands, es: seq<Event>, clock: seq<nat>)
    requires |clock| == |es| && BirthInv(s) && Shares(s.hub, s.k, BOTH) && GoodRun(s, es, clock)
    ensures forall e <- es :: ValidEvent(|s.hub.ifaces|, e)
    ensures Shares(Run(s.hub, es), s.k, BOTH)
    decreases |es|
  {
    if es != [] {
      var e, t := es[0], After(s, es[0], clock[0]);
      if e.Register? { GrantKeepsContract(s, e.inhibit, clock[0]); }
      ShareAfterElsewhere(s.hub, e, s.k, BOTH);
      BornKept(s, e, clock[0]);
      SharesInRuns(t, es[1..], clock[1..]);
      assert es == [e] + es[1..];
    }
  }

  /** After every run the user-command interface is inhibited by exactly what applications hold anywhere, and
      for each key the number of commands that were run on its edges is odd exactly while some application
      holds an inhibit of that key. */
  lemma UserCommandsShare(n: nat, k: nat, es: seq<Event>, clock: seq<nat>, cfg: Config, key: InhibitType)
    requires k < n <= WORD64 && |clock| == |es| && IsKey(key)
    requires GoodRun(Commands(k, Init(n), 0, Cookies.Births(0, map[])), es, clock)
    ensures forall e <- es :: ValidEvent(n, e)
    ensures var hub := Run(Init(n), es); var f := hub.ifaces[k];
      && f.last == OrOf(f.active) == SourceOr(hub)
      && ForKey(RunAll(cfg, NONE, f.notified), key) == Alternating(cfg, key, true, Edges(key, NONE, f.notified))
      && (Edges(key, NONE, f.notified) % 2 == 1 <==> On(key, SourceOr(hub)))
  {
    InitNoLeak(n);
    InitSharing(n, k, BOTH);
    SharesInRuns(Commands(k, Init(n), 0, Cookies.Births(0, map[])), es, clock);
    SharedState(Run(Init(n), es), k, BOTH);
    CommandsInEveryRun(n, es, k, cfg, key);
  }
}
