/** "All interfaces effectively share the same state": which interfaces do, in which runs. */
module HubSharing {
  import opened InhibitTypes
  import opened Ids
  import opened HubSpec
  import opened HubSafety

  predicate SourceAt(s: HubState, k: int, x: InhibitID) {
    0 <= k < |s.ifaces| && x in s.ifaces[k].sources && x in s.ifaces[k].active
  }

  predicate SourcesActive(s: HubState) {
    forall k :: 0 <= k < |s.ifaces| ==> s.ifaces[k].sources <= s.ifaces[k].active.Keys
  }

  function KindAt(s: HubState, k: int, x: InhibitID): InhibitType
    requires SourceAt(s, k, x)
  {
    s.ifaces[k].active[x].kind
  }

  /** The union of the types of what applications hold, over all interfaces. */
  ghost function SourceOr(s: HubState): InhibitType {
    Flags(exists k, x :: SourceAt(s, k, x) && KindAt(s, k, x).screensaver,
          exists k, x :: SourceAt(s, k, x) && KindAt(s, k, x).suspend)
  }

  /** What applications hold is the least type that has every flag of every inhibit of theirs. */
  lemma SourceUnionIsLeast(s: HubState, t: InhibitType)
    ensures SourceOr(s).Within(t) <==>
      forall k, x :: 0 <= k < |s.ifaces| && x in s.ifaces[k].sources && x in s.ifaces[k].active ==>
        (s.ifaces[k].active[x].kind.screensaver ==> t.screensaver) && (s.ifaces[k].active[x].kind.suspend ==> t.suspend)
  {
    forall k, x | SourceAt(s, k, x)
      ensures s.ifaces[k].active[x].kind == KindAt(s, k, x)
      ensures KindAt(s, k, x).screensaver ==> SourceOr(s).screensaver
      ensures KindAt(s, k, x).suspend ==> SourceOr(s).suspend
    {
    }
    if SourceOr(s).Within(t) {
      forall k, x | 0 <= k < |s.ifaces| && x in s.ifaces[k].sources && x in s.ifaces[k].active
        ensures (s.ifaces[k].active[x].kind.screensaver ==> t.screensaver) && (s.ifaces[k].active[x].kind.suspend ==> t.suspend)
      {
        assert SourceAt(s, k, x);
      }
    }
  }

  // ---- the global state ----

  /** A copy's type is part of its source's type, and an id is registered again only with types it has. */
  ghost predicate TypedEvent(s: HubState, e: Event)
    requires ValidEvent(|s.ifaces|, e)
  {
    e.Register? ==>
      && (e.inhibit.id in s.ifaces[e.origin].active ==>
            e.inhibit.kind.Within(s.ifaces[e.origin].active[e.inhibit.id].kind))
      && (forall k: nat :: Copied(e.origin, e.replies, 0, k) ==> e.replies[k].inhibit.kind.Within(e.inhibit.kind))
  }

  /** Source x of interface j answers for copy f of interface k and has all its types. */
  predicate Covers(s: HubState, x: InhibitID, j: nat, k: nat, f: InhibitID) {
    && Lists(s, x, k, f) && SourceAt(s, j, x)
    && k < |s.ifaces| && f in s.ifaces[k].active
    && s.ifaces[k].active[f].kind.Within(KindAt(s, j, x))
  }

  ghost predicate Covered(s: HubState, k: nat, f: InhibitID) {
    exists x, j: nat :: Covers(s, x, j, k, f)
  }

  ghost predicate TypesKept(s: HubState) {
    forall k: nat, f {:trigger Covered(s, k, f)} ::
      k < |s.ifaces| && f in s.ifaces[k].active && f !in s.ifaces[k].sources ==> Covered(s, k, f)
  }

  lemma CoveredAfterRegister(s: HubState, o: nat, i: Inhibit, replies: seq<Reply>, k: nat, f: InhibitID)
    requires TypesKept(s) && SourcesActive(s) && k < |s.ifaces| && o < |s.ifaces| == |replies|
    requires TypedEvent(s, Register(o, i, replies))
    requires var t := RegisterStep(s, o, i, replies); f in t.ifaces[k].active && f !in t.ifaces[k].sources
    ensures Covered(RegisterStep(s, o, i, replies), k, f)
  {
    RegisterEffect(s, o, i, replies);
    var t := RegisterStep(s, o, i, replies);
    if f in s.ifaces[k].active {
      assert Covered(s, k, f);
      var x, j: nat :| Covers(s, x, j, k, f);
      assert SourceAt(t, j, x) && KindAt(t, j, x) == KindAt(s, j, x);
      assert t.ifaces[k].active[f] == s.ifaces[k].active[f];
      assert Covers(t, x, j, k, f);
    } else {
      assert Lists(t, i.id, k, f) && SourceAt(t, o, i.id);
      assert t.ifaces[k].active[f] == replies[k].inhibit;
      assert Covers(t, i.id, o, k, f);
    }
  }

  lemma TypesKeptStep(s: HubState, e: Event)
    requires TypesKept(s) && AllCoherent(s) && ValidEvent(|s.ifaces|, e) && TypedEvent(s, e)
    requires forall x, k: nat, f :: Lists(s, x, k, f) ==> k < |s.ifaces| && f !in s.ifaces[k].sources
    ensures TypesKept(Step(s, e))
  {
    var t := Step(s, e);
    match e
    case Register(o, i, replies) =>
      forall k: nat, f | k < |s.ifaces| && f in t.ifaces[k].active && f !in t.ifaces[k].sources
        ensures Covered(t, k, f)
      {
        CoveredAfterRegister(s, o, i, replies, k, f);
      }
    case Unregister(o, id) =>
      if id in s.ifaces[o].active {
        UnregisterEffect(s, o, id);
        forall k: nat, f | k < |s.ifaces| && f in t.ifaces[k].active && f !in t.ifaces[k].sources
          ensures Covered(t, k, f)
        {
          assert Covered(s, k, f);
          var x, j: nat :| Covers(s, x, j, k, f);
          assert Covers(t, x, j, k, f);
        }
      }
  }

  ghost predicate TypedRun(s: HubState, es: seq<Event>)
    decreases |es|
  {
    es != [] ==>
      && ValidEvent(|s.ifaces|, es[0]) && TypedEvent(s, es[0])
      && TypedRun(Step(s, es[0]), es[1..])
  }

  lemma {:induction false} TypesKeptRun(s: HubState, es: seq<Event>)
    requires NoLeak(s) && AllCoherent(s) && TypesKept(s) && SeparateRun(s, es) && TypedRun(s, es)
    ensures forall e <- es :: ValidEvent(|s.ifaces|, e)
    ensures TypesKept(Run(s, es))
    decreases |es|
  {
    SeparateRunIsValid(s, es);
    if es != [] {
      CoherentStep(s, es[0]);
      NoLeakStep(s, es[0]);
      TypesKeptStep(s, es[0]);
      TypesKeptRun(Step(s, es[0]), es[1..]);
    }
  }

  lemma GlobalIsSourceOr(s: HubState)
    requires TypesKept(s) && AllCoherent(s)
    ensures GlobalOr(s) == SourceOr(s)
  {
    forall k, f | 0 <= k < |s.ifaces| && f in s.ifaces[k].active
      ensures s.ifaces[k].active[f].kind.screensaver ==> SourceOr(s).screensaver
      ensures s.ifaces[k].active[f].kind.suspend ==> SourceOr(s).suspend
    {
      if f in s.ifaces[k].sources {
        assert SourceAt(s, k, f);
      } else {
        assert Covered(s, k, f);
        var x, j: nat :| Covers(s, x, j, k, f);
        assert SourceAt(s, j, x);
      }
    }
    forall k, x | SourceAt(s, k, x)
      ensures KindAt(s, k, x).screensaver ==> GlobalOr(s).screensaver
      ensures KindAt(s, k, x).suspend ==> GlobalOr(s).suspend
    {
      assert s.ifaces[k].active[x].kind == KindAt(s, k, x);
    }
  }

  /** In every run the printed global state is the union of what applications hold: copies never add to
      it or outlive it, even when targets hand out constant ids or do not respond. */
  lemma GlobalStateIsWhatAppsHold(n: nat, es: seq<Event>)
    requires SeparateRun(Init(n), es) && TypedRun(Init(n), es)
    ensures forall e <- es :: ValidEvent(n, e)
    ensures var s := Run(Init(n), es); s.printed == GlobalOr(s) == SourceOr(s)
  {
    InitNoLeak(n);
    NoLeakRun(Init(n), es);
    TypesKeptRun(Init(n), es);
    GlobalIsSourceOr(Run(Init(n), es));
  }

  // ---- one interface's state ----

  /** The copy id that J grants for source x is not the copy of another source, nor a source of J. A
      fresh id always is; a constant one is while no other source has a copy at J. */
  ghost predicate UnsharedCopy(s: HubState, x: InhibitID, J: nat, f: InhibitID)
    requires J < |s.ifaces|
  {
    f !in s.ifaces[J].sources && forall y :: Lists(s, y, J, f) ==> y == x
  }

  /** The contract under which interface J shares the state: whenever it is asked it answers, grants an
      unshared copy with the request's types that it accepts, and refuses only when it accepts none of
      them; applications release only what they registered. */
  ghost predicate SharingEvent(s: HubState, e: Event, J: nat, mask: InhibitType)
    requires ValidEvent(|s.ifaces|, e) && J < |s.ifaces|
  {
    match e
    case Register(o, i, replies) =>
      && OwnedBy(i.id, o)
      && (i.id in s.ifaces[o].active ==> s.ifaces[o].active[i.id].kind == i.kind)
      && (if o == J then i.kind.Within(mask) else
            && Asked(o, replies, 0, J)
            && match replies[J]
               case Granted(c) => UnsharedCopy(s, i.id, J, c.id) && c.kind == i.kind.And(mask)
               case Unsupported => i.kind.And(mask) == NONE
               case NoResponse => false)
    case Unregister(o, id) =>
      id in s.ifaces[o].active ==> id in s.ifaces[o].sources
  }

  ghost predicate HasCopy(s: HubState, x: InhibitID, J: nat) {
    exists f :: Lists(s, x, J, f)
  }

  /** Exactly one accepted copy at J for every source elsewhere whose types J accepts. */
  ghost predicate Sharing(s: HubState, J: nat, mask: InhibitType) {
    && J < |s.ifaces| <= WORD64
    && (forall k, x :: SourceAt(s, k, x) ==> OwnedBy(x, k))
    && (forall x, j, f :: Lists(s, x, J, f) && SourceAt(s, j, x) ==>
          f in s.ifaces[J].active && s.ifaces[J].active[f].kind == KindAt(s, j, x).And(mask))
    && (forall x, y, f :: Lists(s, x, J, f) && Lists(s, y, J, f) ==> x == y)
    && (forall j, x {:trigger SourceAt(s, j, x), HasCopy(s, x, J)} ::
          SourceAt(s, j, x) && j != J && KindAt(s, j, x).And(mask) != NONE ==> HasCopy(s, x, J))
    && (forall x :: SourceAt(s, J, x) ==> KindAt(s, J, x).Within(mask))
  }

  /** A source of a state that owns its ids sits at one interface only. */
  lemma OneHome(s: HubState, j: nat, k: nat, x: InhibitID)
    requires |s.ifaces| <= WORD64 && j < |s.ifaces| && k < |s.ifaces|
    requires OwnedBy(x, j) && OwnedBy(x, k)
    ensures j == k
  {
    OneOwner(x, j, k);
  }

  lemma ListedIsActive(s: HubState, J: nat, mask: InhibitType, x: InhibitID, f: InhibitID)
    requires Sharing(s, J, mask) && NoLeak(s) && SourcesActive(s) && Lists(s, x, J, f)
    ensures f in s.ifaces[J].active
    ensures exists j :: SourceAt(s, j, x)
  {
    assert ActiveSource(s, x);
    var j :| 0 <= j < |s.ifaces| && x in s.ifaces[j].sources;
    assert SourceAt(s, j, x);
  }

  /** Registering keeps every other source where it is, with its types. */
  lemma SourcesAfterRegister(s: HubState, o: nat, i: Inhibit, replies: seq<Reply>, k: int, x: InhibitID)
    requires |s.ifaces| <= WORD64 && o < |s.ifaces| == |replies| && OwnedBy(i.id, o)
    requires forall k, x :: SourceAt(s, k, x) ==> OwnedBy(x, k)
    requires SourcesActive(s)
    requires i.id in s.ifaces[o].active ==> s.ifaces[o].active[i.id].kind == i.kind
    requires SourceAt(RegisterStep(s, o, i, replies), k, x)
    ensures var t := RegisterStep(s, o, i, replies);
      && OwnedBy(x, k)
      && (x == i.id ==> k == o && KindAt(t, k, x) == i.kind)
      && (x != i.id ==> SourceAt(s, k, x) && KindAt(t, k, x) == KindAt(s, k, x))
  {
    RegisterEffect(s, o, i, replies);
    if x == i.id && k != o {
      assert SourceAt(s, k, x);
      OneHome(s, k, o, x);
    }
  }

  /** The source of an earlier copy is the same source after a registration. */
  lemma SourceOfEarlierCopy(s: HubState, o: nat, i: Inhibit, replies: seq<Reply>, J: nat, mask: InhibitType,
                            x: InhibitID, j: int, f: InhibitID)
    requires Sharing(s, J, mask) && NoLeak(s) && SourcesActive(s) && o < |s.ifaces| == |replies|
    requires SharingEvent(s, Register(o, i, replies), J, mask)
    requires Lists(s, x, J, f) && SourceAt(RegisterStep(s, o, i, replies), j, x)
    ensures SourceAt(s, j, x) && KindAt(RegisterStep(s, o, i, replies), j, x) == KindAt(s, j, x)
  {
    SourcesAfterRegister(s, o, i, replies, j, x);
    ListedIsActive(s, J, mask, x, f);
    var j0 :| SourceAt(s, j0, x);
    if x == i.id {
      OneHome(s, j0, o, x);
    }
  }

  lemma CopiesAfterRegister(s: HubState, o: nat, i: Inhibit, replies: seq<Reply>, J: nat, mask: InhibitType,
                            x: InhibitID, j: int, f: InhibitID)
    requires Sharing(s, J, mask) && NoLeak(s) && SourcesActive(s) && o < |s.ifaces| == |replies|
    requires SharingEvent(s, Register(o, i, replies), J, mask)
    requires var t := RegisterStep(s, o, i, replies); Lists(t, x, J, f) && SourceAt(t, j, x)
    ensures var t := RegisterStep(s, o, i, replies);
            f in t.ifaces[J].active && t.ifaces[J].active[f].kind == KindAt(t, j, x).And(mask)
  {
    RegisterEffect(s, o, i, replies);
    if Lists(s, x, J, f) {
      SourceOfEarlierCopy(s, o, i, replies, J, mask, x, j, f);
    } else {
      SourcesAfterRegister(s, o, i, replies, j, x);
      assert f in s.ifaces[J].active ==> Backed(s, J, f);
    }
  }

  lemma SharingRegister(s: HubState, o: nat, i: Inhibit, replies: seq<Reply>, J: nat, mask: InhibitType)
    requires Sharing(s, J, mask) && NoLeak(s) && SourcesActive(s) && o < |s.ifaces| == |replies|
    requires SharingEvent(s, Register(o, i, replies), J, mask)
    ensures Sharing(RegisterStep(s, o, i, replies), J, mask)
  {
    var t := RegisterStep(s, o, i, replies);
    forall k, x | SourceAt(t, k, x)
      ensures OwnedBy(x, k)
      ensures k == J ==> KindAt(t, J, x).Within(mask)
      ensures k != J && KindAt(t, k, x).And(mask) != NONE ==> HasCopy(t, x, J)
    {
      SourcesAfterRegister(s, o, i, replies, k, x);
      CopyAfterRegister(s, o, i, replies, J, mask, k, x);
    }
    forall x, j, f | Lists(t, x, J, f) && SourceAt(t, j, x)
      ensures f in t.ifaces[J].active && t.ifaces[J].active[f].kind == KindAt(t, j, x).And(mask)
    {
      CopiesAfterRegister(s, o, i, replies, J, mask, x, j, f);
    }
    forall x, y, f | Lists(t, x, J, f) && Lists(t, y, J, f) ensures x == y {
      OneSourceAfterRegister(s, o, i, replies, J, mask, x, y, f);
    }
  }

  lemma CopyAfterRegister(s: HubState, o: nat, i: Inhibit, replies: seq<Reply>, J: nat, mask: InhibitType,
                          k: int, x: InhibitID)
    requires Sharing(s, J, mask) && SourcesActive(s) && o < |s.ifaces| == |replies|
    requires SharingEvent(s, Register(o, i, replies), J, mask)
    requires SourceAt(RegisterStep(s, o, i, replies), k, x)
    ensures var t := RegisterStep(s, o, i, replies);
      && (k == J ==> KindAt(t, J, x).Within(mask))
      && (k != J && KindAt(t, k, x).And(mask) != NONE ==> HasCopy(t, x, J))
  {
    RegisterEffect(s, o, i, replies);
    SourcesAfterRegister(s, o, i, replies, k, x);
    var t := RegisterStep(s, o, i, replies);
    if k != J && KindAt(t, k, x).And(mask) != NONE {
      if x == i.id {
        assert Lists(t, x, J, replies[J].inhibit.id);
      } else {
        assert HasCopy(s, x, J);
        var f :| Lists(s, x, J, f);
        assert Lists(t, x, J, f);
      }
    }
  }

  lemma OneSourceAfterRegister(s: HubState, o: nat, i: Inhibit, replies: seq<Reply>, J: nat, mask: InhibitType,
                               x: InhibitID, y: InhibitID, f: InhibitID)
    requires Sharing(s, J, mask) && NoLeak(s) && SourcesActive(s) && o < |s.ifaces| == |replies|
    requires SharingEvent(s, Register(o, i, replies), J, mask)
    requires var t := RegisterStep(s, o, i, replies); Lists(t, x, J, f) && Lists(t, y, J, f)
    ensures x == y
  {
    RegisterEffect(s, o, i, replies);
  }

  lemma SourcesAfterUnregister(s: HubState, o: nat, id: InhibitID, k: int, x: InhibitID)
    requires |s.ifaces| <= WORD64 && SourceAt(s, o, id) && SourcesActive(s)
    requires forall k, x :: SourceAt(s, k, x) ==> OwnedBy(x, k)
    requires SourceAt(UnregisterStep(s, o, id), k, x)
    ensures x != id && SourceAt(s, k, x) && KindAt(UnregisterStep(s, o, id), k, x) == KindAt(s, k, x)
  {
    UnregisterEffect(s, o, id);
    assert SourceAt(s, k, x);
    if x == id { OneHome(s, k, o, x); }
  }

  lemma CopyAfterUnregister(s: HubState, o: nat, id: InhibitID, J: nat, mask: InhibitType, k: int, x: InhibitID)
    requires Sharing(s, J, mask) && SourcesActive(s) && SourceAt(s, o, id)
    requires SourceAt(UnregisterStep(s, o, id), k, x) && k != J
    requires KindAt(UnregisterStep(s, o, id), k, x).And(mask) != NONE
    ensures HasCopy(UnregisterStep(s, o, id), x, J)
  {
    UnregisterEffect(s, o, id);
    SourcesAfterUnregister(s, o, id, k, x);
    assert HasCopy(s, x, J);
    var f :| Lists(s, x, J, f);
    assert Lists(UnregisterStep(s, o, id), x, J, f);
  }

  lemma CopiesAfterUnregister(s: HubState, o: nat, id: InhibitID, J: nat, mask: InhibitType,
                              x: InhibitID, j: int, f: InhibitID)
    requires Sharing(s, J, mask) && NoLeak(s) && SourcesActive(s) && SourceAt(s, o, id)
    requires var t := UnregisterStep(s, o, id); Lists(t, x, J, f) && SourceAt(t, j, x)
    ensures var t := UnregisterStep(s, o, id);
            f in t.ifaces[J].active && t.ifaces[J].active[f].kind == KindAt(t, j, x).And(mask)
  {
    SourcesAfterUnregister(s, o, id, j, x);
    UnregisterEffect(s, o, id);
    assert Lists(s, x, J, f) && !Lists(s, id, J, f);
  }

  lemma ListsAfterUnregister(s: HubState, o: nat, id: InhibitID, x: InhibitID, J: nat, f: InhibitID)
    requires SourcesActive(s) && o < |s.ifaces| && id in s.ifaces[o].active
    ensures Lists(UnregisterStep(s, o, id), x, J, f) <==> x != id && Lists(s, x, J, f)
  {
    UnregisterEffect(s, o, id);
  }

  lemma SharingUnregister(s: HubState, o: nat, id: InhibitID, J: nat, mask: InhibitType)
    requires Sharing(s, J, mask) && NoLeak(s) && SourcesActive(s) && SourceAt(s, o, id)
    ensures Sharing(UnregisterStep(s, o, id), J, mask)
  {
    SourcesShareAfterUnregister(s, o, id, J, mask);
    var t := UnregisterStep(s, o, id);
    forall x, j, f | Lists(t, x, J, f) && SourceAt(t, j, x)
      ensures f in t.ifaces[J].active && t.ifaces[J].active[f].kind == KindAt(t, j, x).And(mask)
    {
      CopiesAfterUnregister(s, o, id, J, mask, x, j, f);
    }
    forall x, y, f | Lists(t, x, J, f) && Lists(t, y, J, f) ensures x == y {
      ListsAfterUnregister(s, o, id, x, J, f);
      ListsAfterUnregister(s, o, id, y, J, f);
    }
  }

  lemma SourcesShareAfterUnregister(s: HubState, o: nat, id: InhibitID, J: nat, mask: InhibitType)
    requires Sharing(s, J, mask) && SourcesActive(s) && SourceAt(s, o, id)
    ensures var t := UnregisterStep(s, o, id);
            forall k, x :: SourceAt(t, k, x) ==>
              && OwnedBy(x, k)
              && (k == J ==> KindAt(t, J, x).Within(mask))
              && (k != J && KindAt(t, k, x).And(mask) != NONE ==> HasCopy(t, x, J))
  {
    var t := UnregisterStep(s, o, id);
    forall k, x | SourceAt(t, k, x)
      ensures OwnedBy(x, k)
      ensures k == J ==> KindAt(t, J, x).Within(mask)
      ensures k != J && KindAt(t, k, x).And(mask) != NONE ==> HasCopy(t, x, J)
    {
      SourcesAfterUnregister(s, o, id, k, x);
      if k != J && KindAt(t, k, x).And(mask) != NONE {
        CopyAfterUnregister(s, o, id, J, mask, k, x);
      }
    }
  }

  lemma ActiveComesFromSource(s: HubState, J: nat, mask: InhibitType, f: InhibitID)
    requires Sharing(s, J, mask) && NoLeak(s) && SourcesActive(s) && f in s.ifaces[J].active
    ensures exists k, x :: SourceAt(s, k, x) && s.ifaces[J].active[f].kind == KindAt(s, k, x).And(mask)
  {
    if f in s.ifaces[J].sources {
      assert SourceAt(s, J, f);
    } else {
      assert Backed(s, J, f);
      var x, j: nat :| Backs(s, x, j, J, f);
      assert SourceAt(s, j, x);
    }
  }

  lemma SourceIsActive(s: HubState, J: nat, mask: InhibitType, k: int, x: InhibitID)
    requires Sharing(s, J, mask) && SourcesActive(s) && SourceAt(s, k, x) && KindAt(s, k, x).And(mask) != NONE
    ensures exists f :: f in s.ifaces[J].active && KindAt(s, k, x).And(mask) == s.ifaces[J].active[f].kind
  {
    if k == J {
      assert x in s.ifaces[J].active;
    } else {
      assert HasCopy(s, x, J);
      var f :| Lists(s, x, J, f);
      assert f in s.ifaces[J].active;
    }
  }

  /** A sharing interface is inhibited by exactly the types it accepts of what applications hold. */
  lemma SharedState(s: HubState, J: nat, mask: InhibitType)
    requires Sharing(s, J, mask) && NoLeak(s) && SourcesActive(s)
    ensures OrOf(s.ifaces[J].active) == SourceOr(s).And(mask)
  {
    var or, all := OrOf(s.ifaces[J].active), SourceOr(s);
    forall f | f in s.ifaces[J].active ensures s.ifaces[J].active[f].kind.Within(all.And(mask)) {
      ActiveComesFromSource(s, J, mask, f);
      var k, x :| SourceAt(s, k, x) && s.ifaces[J].active[f].kind == KindAt(s, k, x).And(mask);
    }
    forall k, x | SourceAt(s, k, x) ensures KindAt(s, k, x).And(mask).Within(or) {
      if KindAt(s, k, x).And(mask) != NONE {
        SourceIsActive(s, J, mask, k, x);
        var f :| f in s.ifaces[J].active && KindAt(s, k, x).And(mask) == s.ifaces[J].active[f].kind;
      }
    }
  }

  /** Exactly when a grant keeps the one-copy-for-each-source bookkeeping behind the shared state: the copy is
      not already the copy of another source. */
  lemma SharingIffUnshared(s: HubState, o: nat, i: Inhibit, replies: seq<Reply>, J: nat, mask: InhibitType)
    requires Sharing(s, J, mask) && NoLeak(s) && SourcesActive(s) && o < |s.ifaces| == |replies| && o != J
    requires Separate(s, Register(o, i, replies)) && OwnedBy(i.id, o)
    requires i.id in s.ifaces[o].active ==> s.ifaces[o].active[i.id].kind == i.kind
    requires Copied(o, replies, 0, J) && replies[J].inhibit.kind == i.kind.And(mask)
    ensures Sharing(RegisterStep(s, o, i, replies), J, mask) <==> UnsharedCopy(s, i.id, J, replies[J].inhibit.id)
  {
    var f := replies[J].inhibit.id;
    if UnsharedCopy(s, i.id, J, f) {
      SharingRegister(s, o, i, replies, J, mask);
    } else {
      var y :| Lists(s, y, J, f) && y != i.id;
      RegisterEffect(s, o, i, replies);
      var t := RegisterStep(s, o, i, replies);
      assert Lists(t, y, J, f) && Lists(t, i.id, J, f);
    }
  }

  /** Releasing the first of two sources that share a copy frees the copy, although the plan still
      promises it to the other one. */
  lemma SharedCopyIsLost(s: HubState, o: nat, x: InhibitID, y: InhibitID, k: nat, f: InhibitID)
    requires SourcesActive(s) && o < |s.ifaces| && k < |s.ifaces| && x in s.ifaces[o].active
    requires Lists(s, x, k, f) && Lists(s, y, k, f) && x != y
    ensures var t := UnregisterStep(s, o, x);
            f !in t.ifaces[k].active && Lists(t, y, k, f)
  {
    UnregisterEffect(s, o, x);
  }

  lemma SourceOrAfterRegister(s: HubState, o: nat, i: Inhibit, replies: seq<Reply>)
    requires SourcesActive(s) && o < |s.ifaces| == |replies| && i.id !in s.ifaces[o].active
    ensures SourceOr(RegisterStep(s, o, i, replies)) == SourceOr(s).Or(i.kind)
  {
    RegisterEffect(s, o, i, replies);
    var t := RegisterStep(s, o, i, replies);
    forall k, x | SourceAt(s, k, x) ensures SourceAt(t, k, x) && KindAt(t, k, x) == KindAt(s, k, x) {
    }
    assert SourceAt(t, o, i.id) && KindAt(t, o, i.id) == i.kind;
    forall k, x | SourceAt(t, k, x)
      ensures (SourceAt(s, k, x) && KindAt(t, k, x) == KindAt(s, k, x)) || KindAt(t, k, x) == i.kind
    {
    }
  }

  /** A grant under an id that is already active at J adds no type. J, which shared the state, still does
      exactly if it was already inhibited for the new types that it accepts. */
  lemma SharedGrantSharesIffCovered(s: HubState, o: nat, i: Inhibit, replies: seq<Reply>, J: nat, mask: InhibitType)
    requires SourcesActive(s) && o < |s.ifaces| == |replies| && J < |s.ifaces| && J != o
    requires OrOf(s.ifaces[J].active) == SourceOr(s).And(mask)
    requires i.id !in s.ifaces[o].active && Copied(o, replies, 0, J) && replies[J].inhibit.id in s.ifaces[J].active
    ensures var t := RegisterStep(s, o, i, replies);
      OrOf(t.ifaces[J].active) == SourceOr(t).And(mask) <==> i.kind.And(mask).Within(OrOf(s.ifaces[J].active))
  {
    SourceOrAfterRegister(s, o, i, replies);
    RegisterEffect(s, o, i, replies);
  }

  /** A target that does not respond cuts the loop short. An interface behind it that shared the state
      still does exactly if it was already inhibited for the new types that it accepts. */
  lemma CutLoopSharesIffCovered(s: HubState, o: nat, i: Inhibit, replies: seq<Reply>, J: nat, mask: InhibitType)
    requires SourcesActive(s) && o < |s.ifaces| == |replies| && J < |s.ifaces| && J != o
    requires OrOf(s.ifaces[J].active) == SourceOr(s).And(mask)
    requires i.id !in s.ifaces[o].active && !Copied(o, replies, 0, J)
    ensures var t := RegisterStep(s, o, i, replies);
      OrOf(t.ifaces[J].active) == SourceOr(t).And(mask) <==> i.kind.And(mask).Within(OrOf(s.ifaces[J].active))
  {
    SourceOrAfterRegister(s, o, i, replies);
    RegisterEffect(s, o, i, replies);
  }

  ghost predicate SharingRun(s: HubState, es: seq<Event>, J: nat, mask: InhibitType)
    requires J < |s.ifaces|
    decreases |es|
  {
    es != [] ==>
      && ValidEvent(|s.ifaces|, es[0]) && SharingEvent(s, es[0], J, mask)
      && SharingRun(Step(s, es[0]), es[1..], J, mask)
  }

  lemma {:induction false} SharingKept(s: HubState, es: seq<Event>, J: nat, mask: InhibitType)
    requires Sharing(s, J, mask) && NoLeak(s) && AllCoherent(s)
    requires SeparateRun(s, es) && SharingRun(s, es, J, mask)
    ensures forall e <- es :: ValidEvent(|s.ifaces|, e)
    ensures Sharing(Run(s, es), J, mask)
    decreases |es|
  {
    SeparateRunIsValid(s, es);
    if es != [] {
      CoherentStep(s, es[0]);
      NoLeakStep(s, es[0]);
      match es[0] {
        case Register(o, i, replies) => SharingRegister(s, o, i, replies, J, mask);
        case Unregister(o, id) => if id in s.ifaces[o].active { SharingUnregister(s, o, id, J, mask); }
      }
      SharingKept(Step(s, es[0]), es[1..], J, mask);
    }
  }

  lemma InitSharing(n: nat, J: nat, mask: InhibitType)
    requires J < n <= WORD64
    ensures Sharing(Init(n), J, mask)
  {
  }

  /** Shared state: after every event of every run in which J keeps its contract and no interface gives a copy
      the id of a source or a source the id of a copy, J is inhibited by exactly the types it accepts of what
      applications hold anywhere. The others may refuse, stay silent or reuse their copies' ids. */
  lemma SharedStateInEveryRun(n: nat, es: seq<Event>, J: nat, mask: InhibitType)
    requires J < n <= WORD64 && SeparateRun(Init(n), es) && SharingRun(Init(n), es, J, mask)
    ensures forall e <- es :: ValidEvent(n, e)
    ensures var s := Run(Init(n), es);
            s.ifaces[J].last == OrOf(s.ifaces[J].active) == SourceOr(s).And(mask)
  {
    InitNoLeak(n);
    NoLeakRun(Init(n), es);
    InitSharing(n, J, mask);
    SharingKept(Init(n), es, J, mask);
    SharedState(Run(Init(n), es), J, mask);
  }
}
