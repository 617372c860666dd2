/** Targets that hand out a constant id, such as xautolock and xidlehook with their empty id: one copy stands
    for every overlapping source. What that copy holds after any run, and when that is the shared state. */
module ConstantIds {
  import opened InhibitTypes
  import opened Ids
  import opened HubSpec
  import opened HubSafety
  import opened HubSharing
  import opened Histories

  // ---- the history of the one copy ----

  /** Interface J grants every copy under the id f, which no application registers or releases there. */
  ghost predicate ConstantEvent(e: Event, J: nat, f: InhibitID) {
    match e
    case Register(o, i, replies) =>
      if o == J then i.id != f else J < |replies| && replies[J].Granted? ==> replies[J].inhibit.id == f
    case Unregister(o, id) => !(o == J && id == f)
  }

  predicate Grants(e: Event, J: nat) {
    e.Register? && Copied(e.origin, e.replies, 0, J)
  }

  /** The event releases a source that lists the copy. */
  ghost predicate Releases(s: HubState, e: Event, J: nat, f: InhibitID)
    requires ValidEvent(|s.ifaces|, e)
  {
    e.Unregister? && e.id in s.ifaces[e.origin].active && Lists(s, e.id, J, f)
  }

  predicate AllValid(n: nat, es: seq<Event>) {
    forall e <- es :: ValidEvent(n, e)
  }

  ghost function GrantTurns(es: seq<Event>, J: nat): nat -> bool {
    (i: nat) => i < |es| && Grants(es[i], J)
  }

  ghost function ReleaseTurns(s: HubState, es: seq<Event>, J: nat, f: InhibitID): nat -> bool {
    (i: nat) => i < |es| && AllValid(|s.ifaces|, es[..i]) && ValidEvent(|s.ifaces|, es[i])
                && Releases(Run(s, es[..i]), es[i], J, f)
  }

  /** Some grant came after the last release of a source that listed the copy. */
  ghost predicate GrantedSince(s: HubState, es: seq<Event>, J: nat, f: InhibitID) {
    Since(GrantTurns(es, J), ReleaseTurns(s, es, J, f), |es|)
  }

  /** The i-th event made the earliest such grant. */
  ghost predicate FirstGrant(s: HubState, es: seq<Event>, J: nat, f: InhibitID, i: nat) {
    FirstKept(GrantTurns(es, J), ReleaseTurns(s, es, J, f), |es|, i)
  }

  lemma RunLast(s: HubState, es: seq<Event>)
    requires es != [] && AllValid(|s.ifaces|, es)
    ensures es[|es| - 1] in es && AllValid(|s.ifaces|, es[..|es| - 1])
    ensures Run(s, es) == Step(Run(s, es[..|es| - 1]), es[|es| - 1])
  {
    var init, e := es[..|es| - 1], es[|es| - 1];
    assert es == init + [e] && [e][1..] == [];
    assert forall d <- init :: d in es;
    RunAppend(s, init, [e]);
    assert Run(Run(s, init), [e]) == Run(Step(Run(s, init), e), []);
  }

  lemma CopyAfterEvent(s: HubState, e: Event, J: nat, f: InhibitID)
    requires SourcesActive(s) && ValidEvent(|s.ifaces|, e) && ConstantEvent(e, J, f) && J < |s.ifaces|
    ensures var was, now := s.ifaces[J].active, Step(s, e).ifaces[J].active;
      && (f in now <==> Grants(e, J) || (f in was && !Releases(s, e, J, f)))
      && (f in now ==> now[f] == if f in was then was[f] else e.replies[J].inhibit)
  {
    match e
    case Register(o, i, replies) => RegisterEffect(s, o, i, replies);
    case Unregister(o, id) => if id in s.ifaces[o].active { UnregisterEffect(s, o, id); }
  }

  lemma SamePast(s: HubState, es: seq<Event>, J: nat, f: InhibitID)
    requires es != []
    ensures var n := |es| - 1;
      && (GrantedSince(s, es[..n], J, f) <==> Since(GrantTurns(es, J), ReleaseTurns(s, es, J, f), n))
      && forall i: nat :: FirstGrant(s, es[..n], J, f, i) <==> FirstKept(GrantTurns(es, J), ReleaseTurns(s, es, J, f), n, i)
  {
    var n := |es| - 1;
    var grants, releases := GrantTurns(es, J), ReleaseTurns(s, es, J, f);
    var grants', releases' := GrantTurns(es[..n], J), ReleaseTurns(s, es[..n], J, f);
    forall i: nat | i < n ensures grants(i) == grants'(i) && releases(i) == releases'(i) {
      assert es[..n][..i] == es[..i];
    }
    SameHistory(grants, releases, grants', releases', n);
  }

  lemma LastTurn(s: HubState, es: seq<Event>, J: nat, f: InhibitID)
    requires es != [] && AllValid(|s.ifaces|, es)
    ensures var n := |es| - 1;
      && AllValid(|s.ifaces|, es[..n]) && ValidEvent(|s.ifaces|, es[n])
      && GrantTurns(es, J)(n) == Grants(es[n], J)
      && ReleaseTurns(s, es, J, f)(n) == Releases(Run(s, es[..n]), es[n], J, f)
  {
    assert forall d <- es[..|es| - 1] :: d in es;
  }

  lemma HistoryNext(s: HubState, es: seq<Event>, J: nat, f: InhibitID, grants: bool, releases: bool)
    requires es != []
    requires grants == GrantTurns(es, J)(|es| - 1) && releases == ReleaseTurns(s, es, J, f)(|es| - 1)
    ensures var init := es[..|es| - 1];
      && (GrantedSince(s, es, J, f) <==> grants || (!releases && GrantedSince(s, init, J, f)))
      && forall i: nat :: FirstGrant(s, es, J, f, i) <==>
           if !releases && GrantedSince(s, init, J, f) then FirstGrant(s, init, J, f, i) else i == |es| - 1 && grants
  {
    SamePast(s, es, J, f);
    var registers, forgets := GrantTurns(es, J), ReleaseTurns(s, es, J, f);
    NextOf(registers, forgets, |es| - 1, |es|);
    forall i: nat ensures FirstGrant(s, es, J, f, i) <==>
      if !releases && GrantedSince(s, es[..|es| - 1], J, f) then FirstGrant(s, es[..|es| - 1], J, f, i)
      else i == |es| - 1 && grants
    {
      assert FirstKept(registers, forgets, |es|, i) == FirstGrant(s, es, J, f, i);
    }
  }

  lemma NextOf(registers: nat -> bool, forgets: nat -> bool, n: nat, end: nat)
    requires end == n + 1
    ensures Since(registers, forgets, end) <==> registers(n) || (!forgets(n) && Since(registers, forgets, n))
    ensures forall i: nat :: FirstKept(registers, forgets, end, i) <==>
              if !forgets(n) && Since(registers, forgets, n) then FirstKept(registers, forgets, n, i)
              else i == n && registers(n)
  {
    SinceNext(registers, forgets, n);
    forall i: nat ensures FirstKept(registers, forgets, end, i) <==>
      if !forgets(n) && Since(registers, forgets, n) then FirstKept(registers, forgets, n, i) else i == n && registers(n)
    {
      FirstKeptNext(registers, forgets, n, i);
    }
  }

  /** In every run the copy is active if and only if some grant came after the last release of a source that
      listed it, and it is then the inhibit of the earliest such grant: later ones add nothing to it. */
  lemma {:induction false} CopyHistory(n: nat, es: seq<Event>, J: nat, f: InhibitID)
    requires J < n && AllValid(n, es) && forall e <- es :: ConstantEvent(e, J, f)
    ensures var active := Run(Init(n), es).ifaces[J].active;
      && (f in active <==> GrantedSince(Init(n), es, J, f))
      && forall i: nat :: FirstGrant(Init(n), es, J, f, i) ==>
           i < |es| && Grants(es[i], J) && f in active && active[f] == es[i].replies[J].inhibit
    decreases |es|
  {
    if es == [] {
      assert !GrantedSince(Init(n), [], J, f);
    } else {
      var init, e := es[..|es| - 1], es[|es| - 1];
      assert forall d <- init :: d in es;
      RunLast(Init(n), es);
      CopyHistory(n, init, J, f);
      InitCoherent(n);
      CoherentRun(Init(n), init);
      CopyAfterEvent(Run(Init(n), init), e, J, f);
      LastTurn(Init(n), es, J, f);
      HistoryNext(Init(n), es, J, f, Grants(e, J), Releases(Run(Init(n), init), e, J, f));
    }
  }

  // ---- when that is the shared state ----

  lemma {:induction false} OnlyTheCopy(n: nat, es: seq<Event>, J: nat, f: InhibitID)
    requires J < n && AllValid(n, es) && forall e <- es :: ConstantEvent(e, J, f) && e.origin != J
    ensures Run(Init(n), es).ifaces[J].active.Keys <= {f}
    decreases |es|
  {
    if es != [] {
      var init, e := es[..|es| - 1], es[|es| - 1];
      assert forall d <- init :: d in es;
      RunLast(Init(n), es);
      OnlyTheCopy(n, init, J, f);
      InitCoherent(n);
      CoherentRun(Init(n), init);
      var s := Run(Init(n), init);
      match e {
        case Register(o, i, replies) => RegisterEffect(s, o, i, replies);
        case Unregister(o, id) => if id in s.ifaces[o].active { UnregisterEffect(s, o, id); }
      }
    }
  }

  lemma OrOfOne(active: map<InhibitID, Inhibit>, f: InhibitID)
    requires active.Keys <= {f}
    ensures OrOf(active) == if f in active then active[f].kind else NONE
  {
    assert forall id :: id in active ==> id == f;
  }

  /** What the target sees after any run: the types of the earliest grant since the last release. */
  ghost predicate HeldKind(n: nat, es: seq<Event>, J: nat, f: InhibitID, kind: InhibitType)
    requires AllValid(n, es)
  {
    if GrantedSince(Init(n), es, J, f)
    then exists i: nat :: FirstGrant(Init(n), es, J, f, i) && i < |es| && Grants(es[i], J) && es[i].replies[J].inhibit.kind == kind
    else kind == NONE
  }

  /** A target with a constant id that hears no applications of its own holds, in the types it acts on, exactly
      what applications hold anywhere, if and only if the earliest grant since the last release of a source it
      was granted for has just these types; with no such grant, if and only if nothing of them is held. */
  lemma ConstantIdSharesIff(n: nat, es: seq<Event>, J: nat, f: InhibitID, mask: InhibitType)
    requires J < n && AllValid(n, es) && forall e <- es :: ConstantEvent(e, J, f) && e.origin != J
    ensures var s := Run(Init(n), es);
      OrOf(s.ifaces[J].active).And(mask) == SourceOr(s).And(mask) <==>
        exists kind :: HeldKind(n, es, J, f, kind) && kind.And(mask) == SourceOr(s).And(mask)
  {
    var active := Run(Init(n), es).ifaces[J].active;
    CopyHistory(n, es, J, f);
    OnlyTheCopy(n, es, J, f);
    OrOfOne(active, f);
    if GrantedSince(Init(n), es, J, f) {
      var i := EarliestKept(GrantTurns(es, J), ReleaseTurns(Init(n), es, J, f), |es|);
      assert FirstGrant(Init(n), es, J, f, i);
      assert HeldKind(n, es, J, f, OrOf(active));
    } else {
      assert HeldKind(n, es, J, f, NONE);
    }
    forall kind | HeldKind(n, es, J, f, kind) ensures kind == OrOf(active) {
    }
  }

  lemma CopyNeverExceedsSources(s: HubState, J: nat, f: InhibitID)
    requires TypesKept(s) && J < |s.ifaces| && f in s.ifaces[J].active && f !in s.ifaces[J].sources
    ensures s.ifaces[J].active[f].kind.Within(SourceOr(s))
  {
    assert Covered(s, J, f);
    var x, j: nat :| Covers(s, x, j, J, f);
    assert SourceAt(s, j, x);
  }

  /** When all that is forwarded has the one type the target acts on, the target shares the state if and only
      if nothing of the type is held, or some grant came after the last release of a source that listed the
      copy: it loses a type exactly when the last such release was not followed by another grant. */
  lemma ConstantIdLosesIff(n: nat, es: seq<Event>, J: nat, f: InhibitID, flag: InhibitType)
    requires J < n && AllValid(n, es) && forall e <- es :: ConstantEvent(e, J, f) && e.origin != J
    requires SeparateRun(Init(n), es) && TypedRun(Init(n), es) && (flag == SCREENSAVER || flag == SUSPEND)
    requires forall e <- es :: Grants(e, J) ==> e.replies[J].inhibit.kind.And(flag) == flag
    ensures var s := Run(Init(n), es);
      OrOf(s.ifaces[J].active).And(flag) == SourceOr(s).And(flag) <==>
        SourceOr(s).And(flag) == NONE || GrantedSince(Init(n), es, J, f)
  {
    var s := Run(Init(n), es);
    CopyHistory(n, es, J, f);
    OnlyTheCopy(n, es, J, f);
    OrOfOne(s.ifaces[J].active, f);
    InitNoLeak(n);
    NoLeakRun(Init(n), es);
    TypesKeptRun(Init(n), es);
    NothingRegistered(n, es, J);
    if GrantedSince(Init(n), es, J, f) {
      var i := EarliestKept(GrantTurns(es, J), ReleaseTurns(Init(n), es, J, f), |es|);
      assert FirstGrant(Init(n), es, J, f, i) && es[i] in es;
      CopyNeverExceedsSources(s, J, f);
    }
  }

  lemma {:induction false} NothingRegistered(n: nat, es: seq<Event>, J: nat)
    requires J < n && AllValid(n, es) && forall e <- es :: e.origin != J
    ensures Run(Init(n), es).ifaces[J].sources == {}
    decreases |es|
  {
    if es != [] {
      var init, e := es[..|es| - 1], es[|es| - 1];
      assert forall d <- init :: d in es;
      RunLast(Init(n), es);
      NothingRegistered(n, init, J);
      InitCoherent(n);
      CoherentRun(Init(n), init);
      var s := Run(Init(n), init);
      match e {
        case Register(o, i, replies) => RegisterEffect(s, o, i, replies);
        case Unregister(o, id) => if id in s.ifaces[o].active { UnregisterEffect(s, o, id); }
      }
    }
  }

  // ---- the shortest run that goes wrong ----

  /** Interface 0 and 1 refuse copies, interface 2 grants the same inhibit every time. */
  function ConstantAnswers(c: Inhibit): seq<Reply> {
    [Unsupported, Unsupported, Granted(c)]
  }

  function Overlap(a: Inhibit, b: Inhibit, c: Inhibit): seq<Event> {
    [Register(0, a, ConstantAnswers(c))] + ([Register(1, b, ConstantAnswers(c))] + [Unregister(0, a.id)])
  }

  ghost predicate Holds(s: HubState, a: set<InhibitID>, b: set<InhibitID>, c: set<InhibitID>) {
    && |s.ifaces| == 3
    && s.ifaces[0].active.Keys == s.ifaces[0].sources == a
    && s.ifaces[1].active.Keys == s.ifaces[1].sources == b
    && s.ifaces[2].active.Keys == c && s.ifaces[2].sources == {}
  }

  lemma FirstOfTwo(a: Inhibit, c: Inhibit)
    requires a.id != c.id
    ensures var s := RegisterStep(Init(3), 0, a, ConstantAnswers(c));
      && Separate(Init(3), Register(0, a, ConstantAnswers(c)))
      && Holds(s, {a.id}, {}, {c.id}) && (forall x, k: nat, f :: Lists(s, x, k, f) <==> x == a.id && k == 2 && f == c.id)
  {
    var answers := ConstantAnswers(c);
    RegisterEffect(Init(3), 0, a, answers);
    assert forall k: nat :: Copied(0, answers, 0, k) <==> k == 2;
  }

  lemma SecondOfTwo(s: HubState, a: Inhibit, b: Inhibit, c: Inhibit)
    requires a.id != c.id && b.id != c.id && a.id != b.id && Holds(s, {a.id}, {}, {c.id})
    requires forall x, k: nat, f :: Lists(s, x, k, f) <==> x == a.id && k == 2 && f == c.id
    ensures var t := RegisterStep(s, 1, b, ConstantAnswers(c));
      && Separate(s, Register(1, b, ConstantAnswers(c)))
      && Holds(t, {a.id}, {b.id}, {c.id}) && t.ifaces[1].active[b.id] == b
      && (forall x, k: nat, f :: Lists(t, x, k, f) <==> (x == a.id || x == b.id) && k == 2 && f == c.id)
  {
    var answers := ConstantAnswers(c);
    RegisterEffect(s, 1, b, answers);
    assert forall k: nat :: Copied(1, answers, 0, k) <==> k == 2;
  }

  lemma OlderEnds(s: HubState, a: Inhibit, b: Inhibit, c: Inhibit)
    requires a.id != c.id && b.id != c.id && a.id != b.id
    requires Holds(s, {a.id}, {b.id}, {c.id}) && s.ifaces[1].active[b.id] == b
    requires forall x, k: nat, f :: Lists(s, x, k, f) <==> (x == a.id || x == b.id) && k == 2 && f == c.id
    ensures var t := UnregisterStep(s, 0, a.id);
            OrOf(t.ifaces[2].active) == NONE && SourceOr(t) == b.kind
  {
    UnregisterEffect(s, 0, a.id);
    var t := UnregisterStep(s, 0, a.id);
    assert Lists(s, a.id, 2, c.id);
    assert SourceAt(t, 1, b.id) && KindAt(t, 1, b.id) == b.kind;
    assert forall k, z :: SourceAt(t, k, z) ==> k == 1 && z == b.id;
  }

  /** A target with a constant id, such as the xautolock interface with its empty id, holds one copy for two
      overlapping inhibits: when the older one ends it is not inhibited at all, although the newer one
      still holds. No copy leaks in this run; only the shared state is lost. */
  lemma ConstantIdLosesNewer(a: Inhibit, b: Inhibit, c: Inhibit)
    requires a.id != c.id && b.id != c.id && a.id != b.id
    ensures SeparateRun(Init(3), Overlap(a, b, c))
    ensures var s := Run(Init(3), Overlap(a, b, c));
            OrOf(s.ifaces[2].active) == NONE && SourceOr(s) == b.kind
  {
    var answers := ConstantAnswers(c);
    FirstOfTwo(a, c);
    var s1 := RegisterStep(Init(3), 0, a, answers);
    SecondOfTwo(s1, a, b, c);
    var s2 := RegisterStep(s1, 1, b, answers);
    OlderEnds(s2, a, b, c);
    var last := [Unregister(0, a.id)];
    RunNext(s2, Unregister(0, a.id), []);
    assert last + [] == last;
    RunNext(s1, Register(1, b, answers), last);
    RunNext(Init(3), Register(0, a, answers), [Register(1, b, answers)] + last);
  }

  lemma RunNext(s: HubState, e: Event, es: seq<Event>)
    requires ValidEvent(|s.ifaces|, e) && forall d <- es :: ValidEvent(|s.ifaces|, d)
    ensures Run(s, [e] + es) == Run(Step(s, e), es)
    ensures SeparateRun(s, [e] + es) <==> Separate(s, e) && SeparateRun(Step(s, e), es)
  {
    assert ([e] + es)[1..] == es;
  }
}
