/** The user-command interface: commands run on the edges of the inhibit state. */
module UserCommands {
  import opened InhibitTypes
  import opened Ids
  import opened HubSpec
  import opened HubSafety
  import Cookies

  /** The configured commands; NONE keys the untyped pair. */
  datatype Config = Config(cmds: map<InhibitType, string>, uncmds: map<InhibitType, string>)

  /** A command that was run: on behalf of which type, on which edge. */
  datatype Ran = Ran(key: InhibitType, inhibit: bool, cmd: string)

  predicate IsKey(key: InhibitType) {
    key == SCREENSAVER || key == SUSPEND || key == NONE
  }

  /** Whether the state inhibits the type; the untyped pair follows any type. */
  predicate Level(key: InhibitType, state: InhibitType) {
    if key == NONE then state != NONE else state.And(key) != NONE
  }

  function Command(cfg: Config, key: InhibitType, inhibit: bool): seq<Ran> {
    var table := if inhibit then cfg.cmds else cfg.uncmds;
    if key in table then [Ran(key, inhibit, table[key])] else []
  }

  function OnEdge(cfg: Config, key: InhibitType, last: InhibitType, now: InhibitType): seq<Ran> {
    if Level(key, last) == Level(key, now) then [] else Command(cfg, key, Level(key, now))
  }

  function OnChange(cfg: Config, last: InhibitType, now: InhibitType): seq<Ran> {
    OnEdge(cfg, SCREENSAVER, last, now) + OnEdge(cfg, SUSPEND, last, now) + OnEdge(cfg, NONE, last, now)
  }

  /** Everything run while the given states are notified one after another. */
  function RunAll(cfg: Config, last: InhibitType, states: seq<InhibitType>): seq<Ran>
    decreases |states|
  {
    if states == [] then [] else OnChange(cfg, last, states[0]) + RunAll(cfg, states[0], states[1..])
  }

  function Final(last: InhibitType, states: seq<InhibitType>): InhibitType {
    if states == [] then last else states[|states| - 1]
  }

  function ForKey(ran: seq<Ran>, key: InhibitType): seq<Ran> {
    if ran == [] then [] else (if ran[0].key == key then [ran[0]] else []) + ForKey(ran[1..], key)
  }

  lemma {:induction false} ForKeyAppend(a: seq<Ran>, b: seq<Ran>, key: InhibitType)
    ensures ForKey(a + b, key) == ForKey(a, key) + ForKey(b, key)
  {
    if a == [] {
      assert a + b == b;
    } else {
      assert (a + b)[1..] == a[1..] + b;
      ForKeyAppend(a[1..], b, key);
    }
  }

  lemma ForKeyEdge(cfg: Config, k: InhibitType, last: InhibitType, now: InhibitType, key: InhibitType)
    ensures ForKey(OnEdge(cfg, k, last, now), key) == if k == key then OnEdge(cfg, k, last, now) else []
  {
    var ran := OnEdge(cfg, k, last, now);
    if ran != [] { assert ran[1..] == []; }
  }

  lemma ForKeyThree(a: seq<Ran>, b: seq<Ran>, c: seq<Ran>, key: InhibitType)
    ensures ForKey(a + b + c, key) == ForKey(a, key) + ForKey(b, key) + ForKey(c, key)
  {
    ForKeyAppend(a + b, c, key);
    ForKeyAppend(a, b, key);
  }

  lemma ForKeyChange(cfg: Config, last: InhibitType, now: InhibitType, key: InhibitType)
    requires IsKey(key)
    ensures ForKey(OnChange(cfg, last, now), key) == OnEdge(cfg, key, last, now)
  {
    ForKeyThree(OnEdge(cfg, SCREENSAVER, last, now), OnEdge(cfg, SUSPEND, last, now), OnEdge(cfg, NONE, last, now), key);
    ForKeyEdge(cfg, SCREENSAVER, last, now, key);
    ForKeyEdge(cfg, SUSPEND, last, now, key);
    ForKeyEdge(cfg, NONE, last, now, key);
  }

  // ---- which commands ----

  /** Whether a state inhibits what a key stands for: the screensaver, suspend, or, for the untyped pair, either. */
  predicate On(key: InhibitType, state: InhibitType) {
    if key == Flags(true, false) then state.screensaver
    else if key == Flags(false, true) then state.suspend
    else key == Flags(false, false) && (state.screensaver || state.suspend)
  }

  /** The command that is configured for the key and the direction. */
  predicate IsConfigured(cfg: Config, r: Ran) {
    if r.inhibit then r.key in cfg.cmds && r.cmd == cfg.cmds[r.key]
    else r.key in cfg.uncmds && r.cmd == cfg.uncmds[r.key]
  }

  /** A change of the state runs exactly the configured commands of the keys it turns on or off: the inhibit
      command of a key that is now on, the uninhibit command of one that is now off. */
  lemma ChangeRuns(cfg: Config, last: InhibitType, now: InhibitType, r: Ran)
    ensures r in OnChange(cfg, last, now) <==>
      && (r.key == Flags(true, false) || r.key == Flags(false, true) || r.key == Flags(false, false))
      && On(r.key, last) != On(r.key, now) && r.inhibit == On(r.key, now)
      && (if r.inhibit then r.key in cfg.cmds && r.cmd == cfg.cmds[r.key]
          else r.key in cfg.uncmds && r.cmd == cfg.uncmds[r.key])
  {
    EdgeRuns(cfg, SCREENSAVER, last, now, r);
    EdgeRuns(cfg, SUSPEND, last, now, r);
    EdgeRuns(cfg, NONE, last, now, r);
  }

  lemma EdgeRuns(cfg: Config, key: InhibitType, last: InhibitType, now: InhibitType, r: Ran)
    requires IsKey(key)
    ensures r in OnEdge(cfg, key, last, now) <==>
      r.key == key && On(key, last) != On(key, now) && r.inhibit == On(key, now) && IsConfigured(cfg, r)
    ensures |OnEdge(cfg, key, last, now)| <= 1
  {
  }

  /** The commands of one change run for the screensaver first, then for suspend, then for the untyped pair, at
      most one for each. */
  lemma ChangeOrder(cfg: Config, last: InhibitType, now: InhibitType, i: nat, j: nat)
    requires i < j < |OnChange(cfg, last, now)|
    ensures var ran := OnChange(cfg, last, now);
      && ran[i].key != ran[j].key && ran[i].key != Flags(false, false) && ran[j].key != Flags(true, false)
  {
    var a, b, c := OnEdge(cfg, SCREENSAVER, last, now), OnEdge(cfg, SUSPEND, last, now), OnEdge(cfg, NONE, last, now);
    assert forall r :: r in a ==> r.key == SCREENSAVER;
    assert forall r :: r in b ==> r.key == SUSPEND;
    assert forall r :: r in c ==> r.key == NONE;
  }

  /** Whatever states are notified, only commands configured for their key and direction are ever run. */
  lemma {:induction false} OnlyConfiguredCommands(cfg: Config, last: InhibitType, states: seq<InhibitType>)
    ensures forall r <- RunAll(cfg, last, states) ::
      if r.inhibit then r.key in cfg.cmds && r.cmd == cfg.cmds[r.key]
      else r.key in cfg.uncmds && r.cmd == cfg.uncmds[r.key]
    decreases |states|
  {
    if states != [] {
      OnlyConfiguredCommands(cfg, states[0], states[1..]);
      forall r <- OnChange(cfg, last, states[0]) ensures IsConfigured(cfg, r) {
        ChangeRuns(cfg, last, states[0], r);
      }
    }
  }

  // ---- alternation ----

  /** The commands of n edges that alternate, the first one being an inhibit edge iff `first`. */
  function Alternating(cfg: Config, key: InhibitType, first: bool, n: nat): seq<Ran>
    decreases n
  {
    if n == 0 then [] else Command(cfg, key, first) + Alternating(cfg, key, !first, n - 1)
  }

  /** How often the level of the key changes. */
  function Edges(key: InhibitType, last: InhibitType, states: seq<InhibitType>): nat
    decreases |states|
  {
    if states == [] then 0 else
    (if Level(key, last) == Level(key, states[0]) then 0 else 1) + Edges(key, states[0], states[1..])
  }

  lemma {:induction false} EdgesParity(key: InhibitType, last: InhibitType, states: seq<InhibitType>)
    ensures (Level(key, last) != Level(key, Final(last, states))) <==> Edges(key, last, states) % 2 == 1
    decreases |states|
  {
    if states != [] {
      EdgesParity(key, states[0], states[1..]);
      assert Final(last, states) == Final(states[0], states[1..]);
    }
  }

  lemma {:induction false} CommandsAlternate(cfg: Config, key: InhibitType, last: InhibitType, states: seq<InhibitType>)
    requires IsKey(key)
    ensures ForKey(RunAll(cfg, last, states), key) ==
            Alternating(cfg, key, !Level(key, last), Edges(key, last, states))
    decreases |states|
  {
    if states != [] {
      var now, rest := states[0], states[1..];
      CommandsAlternate(cfg, key, now, rest);
      ForKeyAppend(OnChange(cfg, last, now), RunAll(cfg, now, rest), key);
      ForKeyChange(cfg, last, now, key);
      AlternatingNext(cfg, key, Level(key, last), Level(key, now), Edges(key, now, rest));
    }
  }

  lemma AlternatingNext(cfg: Config, key: InhibitType, was: bool, now: bool, n: nat)
    ensures (if was == now then [] else Command(cfg, key, now)) + Alternating(cfg, key, !now, n)
            == Alternating(cfg, key, !was, n + if was == now then 0 else 1)
  {
  }

  /** With both commands of a key configured, every edge runs one, and inhibits and uninhibits alternate. */
  lemma {:induction false} BothConfigured(cfg: Config, key: InhibitType, first: bool, n: nat)
    requires key in cfg.cmds && key in cfg.uncmds
    decreases n
    ensures var ran := Alternating(cfg, key, first, n);
            |ran| == n && forall i :: 0 <= i < n ==>
              && ran[i].key == key && (ran[i].inhibit <==> (first <==> i % 2 == 0))
              && ran[i].cmd == if ran[i].inhibit then cfg.cmds[key] else cfg.uncmds[key]
  {
    if n > 0 {
      BothConfigured(cfg, key, !first, n - 1);
      var ran, rest := Alternating(cfg, key, first, n), Alternating(cfg, key, !first, n - 1);
      assert ran == Command(cfg, key, first) + rest && |Command(cfg, key, first)| == 1;
      forall i | 0 <= i < n
        ensures ran[i].key == key && (ran[i].inhibit <==> (first <==> i % 2 == 0))
        ensures ran[i].cmd == if ran[i].inhibit then cfg.cmds[key] else cfg.uncmds[key]
      {
        if i > 0 { assert ran[i] == rest[i - 1]; }
      }
    }
  }

  /** In every run of the hub, the commands of each key strictly alternate, starting with inhibit, and
      the last one agrees with what is inhibited now. */
  lemma CommandsInEveryRun(n: nat, es: seq<Event>, u: nat, cfg: Config, key: InhibitType)
    requires u < n && IsKey(key) && forall e <- es :: ValidEvent(n, e)
    ensures var f := Run(Init(n), es).ifaces[u]; var edges := Edges(key, NONE, f.notified);
      && ForKey(RunAll(cfg, NONE, f.notified), key) == Alternating(cfg, key, true, edges)
      && (key == Flags(true, false) ==> (edges % 2 == 1 <==> OrOf(f.active).screensaver))
      && (key == Flags(false, true) ==> (edges % 2 == 1 <==> OrOf(f.active).suspend))
      && (key == Flags(false, false) ==> (edges % 2 == 1 <==> OrOf(f.active).screensaver || OrOf(f.active).suspend))
  {
    InitCoherent(n);
    CoherentRun(Init(n), es);
    var f := Run(Init(n), es).ifaces[u];
    CommandsAlternate(cfg, key, NONE, f.notified);
    EdgesParity(key, NONE, f.notified);
    assert Final(NONE, f.notified) == f.last;
  }

  // ---- the interface ----

  /** The 64-bit counter of doInhibit skips 0. */
  const COUNTER := Cookies.SkipsZero(WORD64)

  /** What doInhibit grants with this cookie. */
  function Grant(instance: nat, kind: InhibitType, appname: string, reason: string, cookie: nat, now: nat): Inhibit {
    Inhibit(kind, appname, reason, CommandId(instance, cookie), now)
  }

  class UserCommandsInterface {
    const instanceId: nat
    const cfg: Config
    const ok: bool
    var lastInhibited: InhibitType
    var lastCookie: nat
    /** The commands run so far. */
    var ran: seq<Ran>
    /** The states handed to HandleInhibitStateChanged, and the cookies handed out, so far. */
    ghost var states: seq<InhibitType>
    ghost var issued: nat

    ghost predicate Valid()
      reads this
    {
      && ok == (cfg.cmds != map[] || cfg.uncmds != map[])
      && (ok ==> lastInhibited == Final(NONE, states))
      && ran == RunAll(cfg, NONE, states)
      && lastCookie == Cookies.CookieAt(COUNTER, issued)
    }

    constructor (instanceId: nat, cfg: Config)
      ensures Valid() && states == [] && issued == 0
      ensures this.instanceId == instanceId && this.cfg == cfg
    {
      this.instanceId, this.cfg := instanceId, cfg;
      ok := cfg.cmds != map[] || cfg.uncmds != map[];
      lastInhibited, lastCookie, ran, states, issued := NONE, 0, [], [], 0;
    }

    method RunCommand(key: InhibitType, inhibit: bool)
      modifies this`ran
      ensures ran == old(ran) + Command(cfg, key, inhibit)
    {
      if inhibit {
        if key in cfg.cmds { ran := ran + [Ran(key, true, cfg.cmds[key])]; }
      } else {
        if key in cfg.uncmds { ran := ran + [Ran(key, false, cfg.uncmds[key])]; }
      }
    }

    method RunTyped(t: InhibitType, inhibited: InhibitType)
      requires t == SCREENSAVER || t == SUSPEND
      modifies this`ran
      ensures ran == old(ran) + OnEdge(cfg, t, lastInhibited, inhibited)
    {
      if inhibited.And(t) != lastInhibited.And(t) {
        RunCommand(t, inhibited.And(t) != NONE);
      }
    }

    method RunUntyped(inhibited: InhibitType)
      modifies this`ran
      ensures ran == old(ran) + OnEdge(cfg, NONE, lastInhibited, inhibited)
    {
      if lastInhibited != inhibited {
        if inhibited != NONE && lastInhibited == NONE { RunCommand(NONE, true); }
        if inhibited == NONE && lastInhibited != NONE { RunCommand(NONE, false); }
      }
    }

    method HandleInhibitStateChanged(inhibited: InhibitType)
      requires Valid()
      modifies this`lastInhibited, this`ran, this`states
      ensures Valid() && states == old(states) + [inhibited]
    {
      ghost var last := Final(NONE, states);
      RunAllNext(cfg, NONE, states, inhibited);
      states := states + [inhibited];
      if !ok {
        NothingConfigured(cfg, last, inhibited);
        return;
      }
      var types := [SCREENSAVER, SUSPEND];
      ghost var done := [[], OnEdge(cfg, SCREENSAVER, last, inhibited),
                         OnEdge(cfg, SCREENSAVER, last, inhibited) + OnEdge(cfg, SUSPEND, last, inhibited)];
      for i := 0 to |types|
        invariant lastInhibited == last && states == old(states) + [inhibited]
        invariant ran == old(ran) + done[i]
      {
        RunTyped(types[i], inhibited);
        Assoc(old(ran), done[i], OnEdge(cfg, types[i], last, inhibited));
        assert done[i + 1] == done[i] + OnEdge(cfg, types[i], last, inhibited);
      }
      RunUntyped(inhibited);
      Assoc(old(ran), done[2], OnEdge(cfg, NONE, last, inhibited));
      lastInhibited := inhibited;
    }

    /** Every request is granted, with its own types and the next cookie. */
    method DoInhibit(r: InhibitRequest, now: nat) returns (reply: Reply)
      requires Valid()
      modifies this`lastCookie, this`issued
      ensures Valid() && issued == old(issued) + 1
      ensures reply == Granted(Grant(instanceId, r.kind, r.appname, r.reason, Cookies.CookieAt(COUNTER, issued), now))
    {
      lastCookie := if lastCookie + 1 == WORD64 then 0 else lastCookie + 1;
      if lastCookie == 0 { lastCookie := 1; }
      issued := issued + 1;
      reply := Granted(Inhibit(r.kind, r.appname, r.reason, CommandId(instanceId, lastCookie), now));
    }
  }

  lemma {:induction false} RunAllNext(cfg: Config, last: InhibitType, states: seq<InhibitType>, now: InhibitType)
    ensures RunAll(cfg, last, states + [now]) == RunAll(cfg, last, states) + OnChange(cfg, Final(last, states), now)
    decreases |states|
  {
    if states == [] {
      assert states + [now] == [now] && [now][1..] == [];
      assert RunAll(cfg, now, []) == [];
    } else {
      var first, rest := states[0], states[1..];
      assert (states + [now])[1..] == rest + [now];
      RunAllNext(cfg, first, rest, now);
      assert Final(last, states) == Final(first, rest);
      Assoc(OnChange(cfg, last, first), RunAll(cfg, first, rest), OnChange(cfg, Final(first, rest), now));
    }
  }

  lemma Assoc(a: seq<Ran>, b: seq<Ran>, c: seq<Ran>)
    ensures a + (b + c) == (a + b) + c
  {
  }

  lemma NothingConfigured(cfg: Config, last: InhibitType, now: InhibitType)
    requires cfg.cmds == map[] && cfg.uncmds == map[]
    ensures OnChange(cfg, last, now) == []
  {
  }
}
