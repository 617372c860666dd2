/** The forwarding hub as a state machine: what one event does to every interface and to the plan. */
module HubSpec {
  import opened InhibitTypes
  import opened Ids

  /** One interface. `sources` are the active ids that an application registered here, the other
      active ids are forwards; `notified` lists the states passed to handleInhibitStateChanged and
      `entered` counts the calls of its doInhibit and doUnInhibit. */
  datatype Iface = Iface(active: map<InhibitID, Inhibit>, sources: set<InhibitID>,
                         last: InhibitType, notified: seq<InhibitType>, entered: nat)

  /** A copy held by interface `target` under `id`. */
  datatype Release = Release(target: nat, id: InhibitID)

  /** What doInhibit of a target answers: an inhibit, or one of its two exceptions. */
  datatype Reply = Granted(inhibit: Inhibit) | Unsupported | NoResponse

  datatype HubState = HubState(ifaces: seq<Iface>, plan: map<InhibitID, seq<Release>>, printed: InhibitType)

  datatype Event =
    | Register(origin: nat, inhibit: Inhibit, replies: seq<Reply>)
    | Unregister(origin: nat, id: InhibitID)

  const EMPTY_IFACE := Iface(map[], {}, NONE, [], 0)

  function Init(n: nat): HubState {
    HubState(seq(n, i => EMPTY_IFACE), map[], NONE)
  }

  // ---- one interface ----

  /** callEvent: notify when the union of the active types differs from the last one notified. */
  ghost function Notify(f: Iface): Iface {
    var now := OrOf(f.active);
    if now == f.last then f else f.(last := now, notified := f.notified + [now])
  }

  /** std::map::insert keeps the entry already stored under the key. */
  function Inserted(active: map<InhibitID, Inhibit>, i: Inhibit): map<InhibitID, Inhibit> {
    if i.id in active then active else active[i.id := i]
  }

  /** inhibit: doInhibit is entered; what it grants becomes active, an exception changes nothing. */
  ghost function Answered(f: Iface, r: Reply): Iface {
    var f1 := f.(entered := f.entered + 1);
    if r.Granted? then Notify(f1.(active := Inserted(f1.active, r.inhibit))) else f1
  }

  ghost function Registered(f: Iface, i: Inhibit): Iface {
    f.(active := Inserted(f.active, i), sources := f.sources + {i.id})
  }

  ghost function Dropped(f: Iface, id: InhibitID): Iface {
    f.(active := f.active - {id}, sources := f.sources - {id})
  }

  /** unInhibit: an id that is not active is ignored. */
  ghost function Released(f: Iface, id: InhibitID): Iface {
    if id in f.active then Notify(Dropped(f.(entered := f.entered + 1), id)) else f
  }

  // ---- the hub ----

  /** The union of the types of all active inhibits of all interfaces. */
  ghost function GlobalOr(s: HubState): InhibitType {
    Flags(exists k, id :: 0 <= k < |s.ifaces| && id in s.ifaces[k].active && s.ifaces[k].active[id].kind.screensaver,
          exists k, id :: 0 <= k < |s.ifaces| && id in s.ifaces[k].active && s.ifaces[k].active[id].kind.suspend)
  }

  function PlanOf(plan: map<InhibitID, seq<Release>>, src: InhibitID): seq<Release> {
    if src in plan then plan[src] else []
  }

  /** Ask interface k for a copy and record it under `src` when it is granted. */
  ghost function ForwardTo(s: HubState, k: nat, src: InhibitID, r: Reply): HubState
    requires k < |s.ifaces|
  {
    var s1 := s.(ifaces := s.ifaces[k := Answered(s.ifaces[k], r)]);
    if r.Granted? then s1.(plan := s1.plan[src := PlanOf(s1.plan, src) + [Release(k, r.inhibit.id)]]) else s1
  }

  /** The loop of inhibitCB from position k on: skip the originator and unsupported types, stop at a
      target that does not respond, and record every copy made. */
  ghost function ForwardFrom(s: HubState, origin: nat, src: InhibitID, replies: seq<Reply>, k: nat): (t: HubState)
    requires k <= |s.ifaces| == |replies|
    ensures |t.ifaces| == |s.ifaces|
    decreases |s.ifaces| - k
  {
    if k == |s.ifaces| then s
    else if k == origin then ForwardFrom(s, origin, src, replies, k + 1)
    else if replies[k].NoResponse? then ForwardTo(s, k, src, replies[k])
    else ForwardFrom(ForwardTo(s, k, src, replies[k]), origin, src, replies, k + 1)
  }

  ghost function ReleaseOne(ifaces: seq<Iface>, e: Release): (t: seq<Iface>)
    ensures |t| == |ifaces|
  {
    if e.target < |ifaces| then ifaces[e.target := Released(ifaces[e.target], e.id)] else ifaces
  }

  /** The loop of unInhibitCB over the copies recorded for one source. */
  ghost function ReleaseAll(ifaces: seq<Iface>, entries: seq<Release>): (t: seq<Iface>)
    ensures |t| == |ifaces|
    decreases |entries|
  {
    if entries == [] then ifaces else ReleaseAll(ReleaseOne(ifaces, entries[0]), entries[1..])
  }

  /** printInhibited at the end of a callback, then callEvent of the originator. */
  ghost function Finish(s: HubState, origin: nat): HubState
    requires origin < |s.ifaces|
  {
    s.(printed := GlobalOr(s), ifaces := s.ifaces[origin := Notify(s.ifaces[origin])])
  }

  /** An event of a hub with n interfaces. */
  predicate ValidEvent(n: nat, e: Event) {
    && e.origin < n
    && (e.Register? ==> |e.replies| == n)
  }

  ghost function RegisterStep(s: HubState, o: nat, i: Inhibit, replies: seq<Reply>): (t: HubState)
    requires o < |s.ifaces| == |replies|
    ensures |t.ifaces| == |s.ifaces|
  {
    var s1 := s.(ifaces := s.ifaces[o := Registered(s.ifaces[o], i)]);
    Finish(ForwardFrom(s1, o, i.id, replies, 0), o)
  }

  ghost function UnregisterStep(s: HubState, o: nat, id: InhibitID): (t: HubState)
    requires o < |s.ifaces|
    ensures |t.ifaces| == |s.ifaces|
  {
    if id !in s.ifaces[o].active then s else
    var dropped := s.ifaces[o := Dropped(s.ifaces[o], id)];
    Finish(s.(ifaces := ReleaseAll(dropped, PlanOf(s.plan, id)), plan := s.plan - {id}), o)
  }

  /** registerInhibit or registerUnInhibit of interface `origin`, with everything it triggers. */
  ghost function Step(s: HubState, e: Event): (t: HubState)
    requires ValidEvent(|s.ifaces|, e)
    ensures |t.ifaces| == |s.ifaces|
  {
    match e
    case Register(o, i, replies) => RegisterStep(s, o, i, replies)
    case Unregister(o, id) => UnregisterStep(s, o, id)
  }

  ghost function Run(s: HubState, es: seq<Event>): (t: HubState)
    requires forall e <- es :: ValidEvent(|s.ifaces|, e)
    ensures |t.ifaces| == |s.ifaces|
    decreases |es|
  {
    if es == [] then s else Run(Step(s, es[0]), es[1..])
  }

  lemma {:induction false} RunAppend(s: HubState, es: seq<Event>, fs: seq<Event>)
    requires forall e <- es + fs :: ValidEvent(|s.ifaces|, e)
    ensures forall e :: e in es || e in fs ==> e in es + fs
    ensures Run(s, es + fs) == Run(Run(s, es), fs)
    decreases |es|
  {
    if es == [] {
      assert es + fs == fs;
    } else {
      assert (es + fs)[1..] == es[1..] + fs;
      RunAppend(Step(s, es[0]), es[1..], fs);
    }
  }

  // ---- what one event changes ----

  /** Interface k holds the copy `f` on behalf of source `src`. */
  predicate Lists(s: HubState, src: InhibitID, k: nat, f: InhibitID) {
    src in s.plan && Release(k, f) in s.plan[src]
  }

  /** The loop of inhibitCB, started at `from`, is not cut short before it asks interface k. */
  predicate Asked(origin: nat, replies: seq<Reply>, from: nat, k: nat) {
    && from <= k < |replies| && k != origin
    && forall u :: from <= u < k && u != origin ==> !replies[u].NoResponse?
  }

  predicate Copied(origin: nat, replies: seq<Reply>, from: nat, k: nat) {
    Asked(origin, replies, from, k) && replies[k].Granted?
  }

  /** Interface k is next in the loop; the others are asked behind it unless it does not respond. */
  lemma AskedNext(o: nat, replies: seq<Reply>, k: nat, j: nat)
    requires k < |replies|
    ensures Asked(o, replies, k, j) <==>
            (j == k && k != o) || ((k == o || !replies[k].NoResponse?) && Asked(o, replies, k + 1, j))
  {
    if j > k && k != o && replies[k].NoResponse? {
      assert !Asked(o, replies, k, j);
    }
  }

  lemma {:induction false} ForwardTable(s: HubState, o: nat, src: InhibitID, replies: seq<Reply>, k: nat, j: nat)
    requires k <= |s.ifaces| == |replies| && j < |s.ifaces|
    ensures var t := ForwardFrom(s, o, src, replies, k);
      t.printed == s.printed
      && t.ifaces[j] == if Asked(o, replies, k, j) then Answered(s.ifaces[j], replies[j]) else s.ifaces[j]
    decreases |s.ifaces| - k
  {
    if k < |s.ifaces| {
      AskedNext(o, replies, k, j);
      if k == o {
        ForwardTable(s, o, src, replies, k + 1, j);
      } else if !replies[k].NoResponse? {
        ForwardTable(ForwardTo(s, k, src, replies[k]), o, src, replies, k + 1, j);
      }
    }
  }

  lemma {:induction false} ForwardKeys(s: HubState, o: nat, src: InhibitID, replies: seq<Reply>, k: nat)
    requires k <= |s.ifaces| == |replies|
    ensures var t := ForwardFrom(s, o, src, replies, k);
      t.printed == s.printed
      && t.plan.Keys <= s.plan.Keys + {src} && s.plan.Keys <= t.plan.Keys && t.plan - {src} == s.plan - {src}
    decreases |s.ifaces| - k
  {
    if k < |s.ifaces| {
      if k == o {
        ForwardKeys(s, o, src, replies, k + 1);
      } else if !replies[k].NoResponse? {
        ForwardKeys(ForwardTo(s, k, src, replies[k]), o, src, replies, k + 1);
      }
    }
  }

  lemma ListsAfterOne(s: HubState, k: nat, src: InhibitID, r: Reply, x: InhibitID, j: nat, f: InhibitID)
    requires k < |s.ifaces|
    ensures Lists(ForwardTo(s, k, src, r), x, j, f) <==>
            Lists(s, x, j, f) || (x == src && j == k && r.Granted? && f == r.inhibit.id)
  {
  }

  lemma {:induction false} ForwardListed(s: HubState, o: nat, src: InhibitID, replies: seq<Reply>, k: nat,
                                         x: InhibitID, j: nat, f: InhibitID)
    requires k <= |s.ifaces| == |replies|
    ensures Lists(ForwardFrom(s, o, src, replies, k), x, j, f) <==>
            Lists(s, x, j, f) || (x == src && Copied(o, replies, k, j) && replies[j].inhibit.id == f)
    decreases |s.ifaces| - k
  {
    if k < |s.ifaces| {
      AskedNext(o, replies, k, j);
      if k == o {
        ForwardListed(s, o, src, replies, k + 1, x, j, f);
      } else {
        ListsAfterOne(s, k, src, replies[k], x, j, f);
        if !replies[k].NoResponse? {
          ForwardListed(ForwardTo(s, k, src, replies[k]), o, src, replies, k + 1, x, j, f);
        }
      }
    }
  }

  /** Everything ForwardFrom does: the asked and willing interfaces, and only they, get their inhibit. */
  lemma ForwardFromEffect(s: HubState, o: nat, src: InhibitID, replies: seq<Reply>, k: nat)
    requires k <= |s.ifaces| == |replies|
    ensures var t := ForwardFrom(s, o, src, replies, k);
      && t.printed == s.printed
      && t.plan.Keys <= s.plan.Keys + {src} && s.plan.Keys <= t.plan.Keys && t.plan - {src} == s.plan - {src}
      && (forall j :: 0 <= j < |s.ifaces| ==>
            t.ifaces[j] == if Asked(o, replies, k, j) then Answered(s.ifaces[j], replies[j]) else s.ifaces[j])
      && (forall x, j: nat, f :: Lists(t, x, j, f) <==>
            Lists(s, x, j, f) || (x == src && Copied(o, replies, k, j) && replies[j].inhibit.id == f))
  {
    var t := ForwardFrom(s, o, src, replies, k);
    ForwardKeys(s, o, src, replies, k);
    forall j: nat | j < |s.ifaces|
      ensures t.ifaces[j] == if Asked(o, replies, k, j) then Answered(s.ifaces[j], replies[j]) else s.ifaces[j]
    {
      ForwardTable(s, o, src, replies, k, j);
    }
    forall x, j: nat, f
      ensures Lists(t, x, j, f) <==>
              Lists(s, x, j, f) || (x == src && Copied(o, replies, k, j) && replies[j].inhibit.id == f)
    {
      ForwardListed(s, o, src, replies, k, x, j, f);
    }
  }

  /** Everything ReleaseAll does to the tables: the listed copies, and only they, are gone. */
  lemma {:induction false} ReleaseAllEffect(ifaces: seq<Iface>, entries: seq<Release>, k: nat)
    requires k < |ifaces|
    ensures var t := ReleaseAll(ifaces, entries)[k]; var was := ifaces[k];
      && (forall id :: id in t.active <==> id in was.active && Release(k, id) !in entries)
      && (forall id :: id in t.active ==> t.active[id] == was.active[id])
      && (was.sources <= was.active.Keys ==>
            forall id :: id in t.sources <==> id in was.sources && Release(k, id) !in entries)
    decreases |entries|
  {
    if entries != [] {
      var e := entries[0];
      ReleaseAllEffect(ReleaseOne(ifaces, e), entries[1..], k);
      assert entries == [e] + entries[1..];
    }
  }

  lemma RegisterEffect(s: HubState, o: nat, i: Inhibit, replies: seq<Reply>)
    requires o < |s.ifaces| == |replies|
    ensures var t := RegisterStep(s, o, i, replies);
      && (forall j :: 0 <= j < |s.ifaces| ==>
            && t.ifaces[j].active == (
                 if j == o then Inserted(s.ifaces[j].active, i)
                 else if Copied(o, replies, 0, j) then Inserted(s.ifaces[j].active, replies[j].inhibit)
                 else s.ifaces[j].active)
            && t.ifaces[j].sources == if j == o then s.ifaces[j].sources + {i.id} else s.ifaces[j].sources)
      && (forall x, j: nat, f :: Lists(t, x, j, f) <==>
            Lists(s, x, j, f) || (x == i.id && Copied(o, replies, 0, j) && replies[j].inhibit.id == f))
      && t.plan.Keys <= s.plan.Keys + {i.id} && t.plan - {i.id} == s.plan - {i.id}
  {
    var s1 := s.(ifaces := s.ifaces[o := Registered(s.ifaces[o], i)]);
    ForwardFromEffect(s1, o, i.id, replies, 0);
    var s2 := ForwardFrom(s1, o, i.id, replies, 0);
    assert forall x, j: nat, f :: Lists(s1, x, j, f) <==> Lists(s, x, j, f);
    assert forall x, j: nat, f :: Lists(Finish(s2, o), x, j, f) <==> Lists(s2, x, j, f);
  }

  lemma UnregisterEffect(s: HubState, o: nat, id: InhibitID)
    requires o < |s.ifaces| && id in s.ifaces[o].active
    requires forall j :: 0 <= j < |s.ifaces| ==> s.ifaces[j].sources <= s.ifaces[j].active.Keys
    ensures var t := UnregisterStep(s, o, id);
      && (forall j, f :: 0 <= j < |s.ifaces| ==>
            (f in t.ifaces[j].active <==>
               f in s.ifaces[j].active && !(j == o && f == id) && !Lists(s, id, j, f)))
      && (forall j, f :: 0 <= j < |s.ifaces| && f in t.ifaces[j].active ==>
            t.ifaces[j].active[f] == s.ifaces[j].active[f])
      && (forall j, f :: 0 <= j < |s.ifaces| ==>
            (f in t.ifaces[j].sources <==>
               f in s.ifaces[j].sources && !(j == o && f == id) && !Lists(s, id, j, f)))
      && (forall x, j: nat, f :: Lists(t, x, j, f) <==> x != id && Lists(s, x, j, f))
      && t.plan == s.plan - {id}
  {
    var dropped := s.ifaces[o := Dropped(s.ifaces[o], id)];
    var entries := PlanOf(s.plan, id);
    forall j | 0 <= j < |s.ifaces|
      ensures var t := ReleaseAll(dropped, entries)[j]; var was := dropped[j];
        && (forall f :: f in t.active <==> f in was.active && Release(j, f) !in entries)
        && (forall f :: f in t.active ==> t.active[f] == was.active[f])
        && (forall f :: f in t.sources <==> f in was.sources && Release(j, f) !in entries)
    {
      ReleaseAllEffect(dropped, entries, j);
    }
    assert forall j: nat, f :: Release(j, f) in entries <==> Lists(s, id, j, f);
  }

  /** What follows the first entries: copies at interfaces from k on, in their order, each under its granted id. */
  ghost predicate InOrder(was: seq<Release>, now: seq<Release>, k: nat, o: nat, replies: seq<Reply>) {
    && was <= now
    && (forall i :: |was| <= i < |now| ==>
          && k <= now[i].target < |replies| && now[i].target != o
          && replies[now[i].target].Granted? && now[i].id == replies[now[i].target].inhibit.id)
    && (forall i, j :: |was| <= i < j < |now| ==> now[i].target < now[j].target)
  }

  lemma InOrderFrom(was: seq<Release>, now: seq<Release>, k: nat, o: nat, replies: seq<Reply>)
    requires k < |replies| && k != o
    requires InOrder(was + if replies[k].Granted? then [Release(k, replies[k].inhibit.id)] else [], now, k + 1, o, replies)
    ensures InOrder(was, now, k, o, replies)
  {
    if replies[k].Granted? {
      assert (was + [Release(k, replies[k].inhibit.id)])[|was|] == Release(k, replies[k].inhibit.id);
      assert was <= was + [Release(k, replies[k].inhibit.id)];
    } else {
      assert was + [] == was;
    }
  }

  lemma PlanAfterOne(s: HubState, k: nat, src: InhibitID, r: Reply)
    requires k < |s.ifaces|
    ensures PlanOf(ForwardTo(s, k, src, r).plan, src)
         == PlanOf(s.plan, src) + if r.Granted? then [Release(k, r.inhibit.id)] else []
  {
  }

  lemma InOrderLater(was: seq<Release>, now: seq<Release>, k: nat, o: nat, replies: seq<Reply>)
    requires InOrder(was, now, k + 1, o, replies)
    ensures InOrder(was, now, k, o, replies)
  {
  }

  lemma NothingRecorded(was: seq<Release>, k: nat, o: nat, replies: seq<Reply>)
    ensures InOrder(was, was, k, o, replies)
  {
  }

  /** The copies of one registration are recorded behind those recorded before, in the order of the interfaces, each
      once. */
  lemma {:induction false} RecordedInOrder(s: HubState, o: nat, src: InhibitID, replies: seq<Reply>, k: nat)
    requires k <= |s.ifaces| == |replies|
    ensures InOrder(PlanOf(s.plan, src), PlanOf(ForwardFrom(s, o, src, replies, k).plan, src), k, o, replies)
    decreases |s.ifaces| - k
  {
    var was, end := PlanOf(s.plan, src), ForwardFrom(s, o, src, replies, k);
    if k == |s.ifaces| {
      NothingRecorded(was, k, o, replies);
    } else if k == o {
      RecordedInOrder(s, o, src, replies, k + 1);
      InOrderLater(was, PlanOf(end.plan, src), k, o, replies);
    } else {
      var next := ForwardTo(s, k, src, replies[k]);
      PlanAfterOne(s, k, src, replies[k]);
      if replies[k].NoResponse? {
        assert end == next && was + [] == was;
        NothingRecorded(was, k, o, replies);
      } else {
        RecordedInOrder(next, o, src, replies, k + 1);
        InOrderFrom(was, PlanOf(end.plan, src), k, o, replies);
      }
    }
  }

  /** Who is asked: while one interface registers, every other one has its doInhibit called exactly once if no
      interface in front of it, the originator aside, failed to respond, and not at all otherwise. A refusal does
      not end the loop, and a target that failed to respond or refused holds what it held. */
  lemma WhoIsAsked(s: HubState, o: nat, i: Inhibit, replies: seq<Reply>, j: nat)
    requires o < |s.ifaces| == |replies| && j < |s.ifaces| && j != o
    ensures var was, now := s.ifaces[j], RegisterStep(s, o, i, replies).ifaces[j];
      if exists u :: 0 <= u < j && u != o && replies[u] == NoResponse then now == was
      else
        && now.entered == was.entered + 1
        && (!replies[j].Granted? ==> now == was.(entered := was.entered + 1))
        && (replies[j].Granted? ==> replies[j].inhibit.id in now.active)
  {
    ForwardFromEffect(s.(ifaces := s.ifaces[o := Registered(s.ifaces[o], i)]), o, i.id, replies, 0);
    if u :| 0 <= u < j && u != o && replies[u] == NoResponse {
      assert !Asked(o, replies, 0, j);
    } else {
      assert Asked(o, replies, 0, j);
    }
  }

  lemma {:induction false} EnteredByReleases(ifaces: seq<Iface>, entries: seq<Release>, k: nat, id: InhibitID)
    requires k < |ifaces| && id in ifaces[k].active && Release(k, id) in entries
    ensures ReleaseAll(ifaces, entries)[k].entered > ifaces[k].entered
    decreases |entries|
  {
    var e := entries[0];
    var next := ReleaseOne(ifaces, e);
    if e == Release(k, id) {
      EnteredNeverFalls(next, entries[1..], k);
    } else {
      assert entries == [e] + entries[1..];
      EnteredByReleases(next, entries[1..], k, id);
    }
  }

  lemma {:induction false} EnteredNeverFalls(ifaces: seq<Iface>, entries: seq<Release>, k: nat)
    requires k < |ifaces|
    ensures ReleaseAll(ifaces, entries)[k].entered >= ifaces[k].entered
    decreases |entries|
  {
    if entries != [] { EnteredNeverFalls(ReleaseOne(ifaces, entries[0]), entries[1..], k); }
  }

  /** An active copy that a released source lists has its interface's doUnInhibit called. */
  lemma ReleasedCopyIsEntered(s: HubState, o: nat, id: InhibitID, k: nat, f: InhibitID)
    requires o < |s.ifaces| && k < |s.ifaces| && k != o && id in s.ifaces[o].active
    requires Lists(s, id, k, f) && f in s.ifaces[k].active
    ensures UnregisterStep(s, o, id).ifaces[k].entered > s.ifaces[k].entered
  {
    EnteredByReleases(s.ifaces[o := Dropped(s.ifaces[o], id)], PlanOf(s.plan, id), k, f);
  }

  /** While an id stays active at an interface, its entry stays what it is, whatever happens. */
  lemma EntryStays(s: HubState, e: Event, k: nat, id: InhibitID)
    requires ValidEvent(|s.ifaces|, e) && k < |s.ifaces| && id in s.ifaces[k].active
    requires forall j :: 0 <= j < |s.ifaces| ==> s.ifaces[j].sources <= s.ifaces[j].active.Keys
    ensures id in Step(s, e).ifaces[k].active ==> Step(s, e).ifaces[k].active[id] == s.ifaces[k].active[id]
    ensures e.Register? ==> id in Step(s, e).ifaces[k].active
  {
    match e
    case Register(o, i, replies) => RegisterEffect(s, o, i, replies);
    case Unregister(o, x) => if x in s.ifaces[o].active { UnregisterEffect(s, o, x); }
  }
}
