/** Monitor mode: observed method calls are kept until the matching return, then handled (the message loop
    of DBusInhibitInterface::start). */
module MonitorPairing {

  /** An observed message. Senders number their messages themselves, so a return is meant for the call of its
      destination with that serial. */
  datatype Msg =
    | Call(sender: string, serial: nat, interface: string, member: string)
    | Return(sender: string, destination: string, replySerial: nat)
    | Signal(sender: string, interface: string, member: string)
    | Other(sender: string)

  datatype Method = Method(interface: string, member: string)

  /** A handler run: which method, for the call and the return at these positions of the stream. */
  datatype Handled = Handled(method_: nat, call: nat, ret: nat)

  /** The calls waiting for a return, by serial, with their positions; and the handler runs so far. */
  datatype Pairing = Pairing(methodCalls: map<nat, nat>, handled: seq<Handled>)

  /** Who we are on the two connections, and which methods we watch. */
  datatype Config = Config(name: string, callName: string, methods: seq<Method>)

  predicate Watched(cfg: Config, m: Msg) {
    && m.Call? && m.sender != cfg.name && m.sender != cfg.callName
    && Method(m.interface, m.member) in cfg.methods
  }

  /** Position of the first watched method with this member name, whatever its interface. */
  function FirstMember(methods: seq<Method>, member: string): (i: nat)
    ensures i <= |methods|
    ensures i < |methods| ==> methods[i].member == member
    ensures forall j :: 0 <= j < i ==> methods[j].member != member
  {
    if methods == [] || methods[0].member == member then 0 else 1 + FirstMember(methods[1..], member)
  }

  predicate ReturnSeen(cfg: Config, p: Pairing, m: Msg) {
    m.Return? && m.sender != cfg.name && m.sender != cfg.callName && m.replySerial in p.methodCalls
  }

  /** One turn of the message loop. A serial that is already waiting keeps its first call. */
  function Observe(cfg: Config, stream: seq<Msg>, p: Pairing, n: nat): Pairing
    requires n < |stream| && forall s :: s in p.methodCalls ==> p.methodCalls[s] < |stream| && stream[p.methodCalls[s]].Call?
  {
    var m := stream[n];
    if Watched(cfg, m) then
      if m.serial in p.methodCalls then p else p.(methodCalls := p.methodCalls[m.serial := n])
    else if ReturnSeen(cfg, p, m) then
      var call := p.methodCalls[m.replySerial];
      var i := FirstMember(cfg.methods, stream[call].member);
      if i == |cfg.methods| then p
      else Pairing(p.methodCalls - {m.replySerial}, p.handled + [Handled(i, call, n)])
    else p
  }

  /** Only observed watched calls wait, each under its own serial. */
  ghost predicate Waiting(cfg: Config, stream: seq<Msg>, p: Pairing, n: nat) {
    n <= |stream| &&
    forall s :: s in p.methodCalls ==>
      p.methodCalls[s] < n && Watched(cfg, stream[p.methodCalls[s]]) && stream[p.methodCalls[s]].serial == s
  }

  ghost function ObserveAll(cfg: Config, stream: seq<Msg>, n: nat): (p: Pairing)
    requires n <= |stream|
    ensures Waiting(cfg, stream, p, n)
  {
    if n == 0 then Pairing(map[], []) else Observe(cfg, stream, ObserveAll(cfg, stream, n - 1), n - 1)
  }

  // ---- what pairing means, without reference to the loop ----

  /** The return at r is the first one after the watched call at c that names the call's serial. */
  ghost predicate Answers(cfg: Config, stream: seq<Msg>, c: nat, r: nat) {
    && c < r < |stream| && Watched(cfg, stream[c]) && NamesSerial(cfg, stream, stream[c].serial, r)
    && forall q :: c < q < r ==> !NamesSerial(cfg, stream, stream[c].serial, q)
  }

  predicate NamesSerial(cfg: Config, stream: seq<Msg>, serial: nat, r: int) {
    && 0 <= r < |stream| && stream[r].Return? && stream[r].sender != cfg.name && stream[r].sender != cfg.callName
    && stream[r].replySerial == serial
  }

  /** The watched call at c has no answer among the first n messages. */
  ghost predicate Open(cfg: Config, stream: seq<Msg>, c: nat, n: nat) {
    && c < n <= |stream| && Watched(cfg, stream[c])
    && forall r :: c < r < n ==> !NamesSerial(cfg, stream, stream[c].serial, r)
  }

  /** No watched call uses a serial of an earlier watched call that is still open. */
  ghost predicate NoReuse(cfg: Config, stream: seq<Msg>) {
    forall c, d :: 0 <= c < d < |stream| && Open(cfg, stream, c, d) && Watched(cfg, stream[d]) ==>
      stream[c].serial != stream[d].serial
  }

  lemma FirstMemberFound(methods: seq<Method>, m: Method)
    requires m in methods
    ensures FirstMember(methods, m.member) < |methods|
  {
    var i :| 0 <= i < |methods| && methods[i] == m;
    assert methods[i].member == m.member;
  }

  /** The watched call at c gets its serial's place in the table: no earlier call that did is still open under
      the same serial. */
  ghost predicate Entered(cfg: Config, stream: seq<Msg>, c: nat)
    decreases c
  {
    && c < |stream| && Watched(cfg, stream[c])
    && forall b: nat :: b < c && Open(cfg, stream, b, c) && stream[b].serial == stream[c].serial ==> !Entered(cfg, stream, b)
  }

  /** After n messages exactly these calls are waiting, as long as they are open. */
  ghost predicate HoldsEntered(cfg: Config, stream: seq<Msg>, p: Pairing, n: nat) {
    && (forall s :: s in p.methodCalls ==>
          && Open(cfg, stream, p.methodCalls[s], n) && Entered(cfg, stream, p.methodCalls[s])
          && stream[p.methodCalls[s]].serial == s)
    && (forall c: nat :: Open(cfg, stream, c, n) && Entered(cfg, stream, c) ==>
          stream[c].serial in p.methodCalls && p.methodCalls[stream[c].serial] == c)
  }

  lemma OpenNext(cfg: Config, stream: seq<Msg>, c: nat, n: nat)
    requires n < |stream|
    ensures Open(cfg, stream, c, n + 1) <==>
            (c == n && Watched(cfg, stream[n])) ||
            (Open(cfg, stream, c, n) && !NamesSerial(cfg, stream, stream[c].serial, n))
  {
  }

  /** Whether the call just observed gets a place is whether its serial is free. */
  lemma EnteredIffFree(cfg: Config, stream: seq<Msg>, p: Pairing, n: nat)
    requires n < |stream| && HoldsEntered(cfg, stream, p, n) && Watched(cfg, stream[n])
    ensures Entered(cfg, stream, n) <==> stream[n].serial !in p.methodCalls
  {
    var s := stream[n].serial;
    if s in p.methodCalls {
      var b := p.methodCalls[s];
      assert Open(cfg, stream, b, n) && Entered(cfg, stream, b);
    } else {
      forall b: nat | b < n && Open(cfg, stream, b, n) && stream[b].serial == s ensures !Entered(cfg, stream, b) {
      }
    }
  }

  lemma HoldsEnteredStep(cfg: Config, stream: seq<Msg>, n: nat)
    requires n < |stream| && HoldsEntered(cfg, stream, ObserveAll(cfg, stream, n), n)
    ensures HoldsEntered(cfg, stream, ObserveAll(cfg, stream, n + 1), n + 1)
  {
    var p, m := ObserveAll(cfg, stream, n), stream[n];
    forall c: nat ensures Open(cfg, stream, c, n + 1) <==>
        (c == n && Watched(cfg, stream[n])) ||
        (Open(cfg, stream, c, n) && !NamesSerial(cfg, stream, stream[c].serial, n))
    {
      OpenNext(cfg, stream, c, n);
    }
    if Watched(cfg, m) {
      EnteredIffFree(cfg, stream, p, n);
    } else if ReturnSeen(cfg, p, m) {
      var call := stream[p.methodCalls[m.replySerial]];
      FirstMemberFound(cfg.methods, Method(call.interface, call.member));
    }
  }

  /** In every stream, reused serials included, the table holds exactly the calls that got a place and have no
      return yet. */
  lemma {:induction false} HoldsEnteredAlways(cfg: Config, stream: seq<Msg>, n: nat)
    requires n <= |stream|
    ensures HoldsEntered(cfg, stream, ObserveAll(cfg, stream, n), n)
  {
    if n == 0 {
      assert forall c: nat :: !Open(cfg, stream, c, 0);
      assert ObserveAll(cfg, stream, 0) == Pairing(map[], []);
    } else {
      HoldsEnteredAlways(cfg, stream, n - 1);
      HoldsEnteredStep(cfg, stream, n - 1);
    }
  }

  // ---- the handler runs ----

  /** The handler runs are exactly the answered calls that got a place, each with its first answer, in order. */
  ghost predicate ExactlyAnswered(cfg: Config, stream: seq<Msg>, handled: seq<Handled>, n: nat) {
    && (forall h <- handled :: Entered(cfg, stream, h.call) && Answers(cfg, stream, h.call, h.ret) && h.ret < n
          && h.method_ == FirstMember(cfg.methods, stream[h.call].member))
    && (forall c: nat, r: nat :: r < n && Entered(cfg, stream, c) && Answers(cfg, stream, c, r) ==>
          exists h :: h in handled && h.call == c && h.ret == r)
    && (forall i, j :: 0 <= i < j < |handled| ==> handled[i].ret < handled[j].ret)
  }

  /** An answer closes a call that was open. */
  lemma AnswerClosesOpen(cfg: Config, stream: seq<Msg>, c: nat, r: nat)
    ensures Answers(cfg, stream, c, r) <==>
            Open(cfg, stream, c, r) && r < |stream| && NamesSerial(cfg, stream, stream[c].serial, r)
  {
  }

  /** The message at n answers exactly the call whose handler it starts. */
  lemma AnsweredNow(cfg: Config, stream: seq<Msg>, n: nat, c: nat)
    requires n < |stream|
    ensures var p := ObserveAll(cfg, stream, n);
      Entered(cfg, stream, c) && Answers(cfg, stream, c, n) <==>
        ReturnSeen(cfg, p, stream[n]) && c == p.methodCalls[stream[n].replySerial]
  {
    HoldsEnteredAlways(cfg, stream, n);
    AnswerClosesOpen(cfg, stream, c, n);
  }

  lemma HandledNow(cfg: Config, stream: seq<Msg>, n: nat)
    requires n < |stream|
    ensures var p, t, m := ObserveAll(cfg, stream, n), ObserveAll(cfg, stream, n + 1), stream[n];
      if ReturnSeen(cfg, p, m) then
        var c := p.methodCalls[m.replySerial];
        t.handled == p.handled + [Handled(FirstMember(cfg.methods, stream[c].member), c, n)]
      else t.handled == p.handled
  {
    var p, m := ObserveAll(cfg, stream, n), stream[n];
    if ReturnSeen(cfg, p, m) {
      var c := p.methodCalls[m.replySerial];
      FirstMemberFound(cfg.methods, Method(stream[c].interface, stream[c].member));
    }
  }

  lemma AnsweredStep(cfg: Config, stream: seq<Msg>, n: nat)
    requires n < |stream| && ExactlyAnswered(cfg, stream, ObserveAll(cfg, stream, n).handled, n)
    ensures ExactlyAnswered(cfg, stream, ObserveAll(cfg, stream, n + 1).handled, n + 1)
  {
    var p, m := ObserveAll(cfg, stream, n), stream[n];
    var seen := ReturnSeen(cfg, p, m);
    var call := if seen then p.methodCalls[m.replySerial] else 0;
    HandledNow(cfg, stream, n);
    forall c: nat ensures Entered(cfg, stream, c) && Answers(cfg, stream, c, n) <==> seen && c == call {
      AnsweredNow(cfg, stream, n, c);
    }
    AnsweredMore(cfg, stream, n, p.handled, ObserveAll(cfg, stream, n + 1).handled, seen, call);
  }

  /** One more handler run, or none, keeps the runs exact. */
  lemma AnsweredMore(cfg: Config, stream: seq<Msg>, n: nat, before: seq<Handled>, after: seq<Handled>, seen: bool, call: nat)
    requires n < |stream| && ExactlyAnswered(cfg, stream, before, n)
    requires forall c: nat :: Entered(cfg, stream, c) && Answers(cfg, stream, c, n) <==> seen && c == call
    requires seen ==> call < |stream| && stream[call].Call?
    requires after == before + if seen then [Handled(FirstMember(cfg.methods, stream[call].member), call, n)] else []
    ensures ExactlyAnswered(cfg, stream, after, n + 1)
  {
    assert forall h :: h in after <==> h in before || (seen && h == after[|before|]);
    forall x: nat, r: nat | r < n + 1 && Entered(cfg, stream, x) && Answers(cfg, stream, x, r)
      ensures exists h :: h in after && h.call == x && h.ret == r
    {
      if r < n {
        var h :| h in before && h.call == x && h.ret == r;
        assert h in after;
      } else {
        assert after[|before|] in after;
      }
    }
  }

  lemma {:induction false} AnsweredAlways(cfg: Config, stream: seq<Msg>, n: nat)
    requires n <= |stream|
    ensures ExactlyAnswered(cfg, stream, ObserveAll(cfg, stream, n).handled, n)
  {
    if n > 0 {
      AnsweredAlways(cfg, stream, n - 1);
      AnsweredStep(cfg, stream, n - 1);
    }
  }

  /** Two handler runs for one call would be two first answers. */
  lemma OneRunPerCall(cfg: Config, stream: seq<Msg>, handled: seq<Handled>, n: nat, i: nat, j: nat)
    requires ExactlyAnswered(cfg, stream, handled, n) && i < |handled| && j < |handled|
    requires handled[i].call == handled[j].call
    ensures i == j
  {
    assert handled[i] in handled && handled[j] in handled;
    var r, q := handled[i].ret, handled[j].ret;
    assert Answers(cfg, stream, handled[i].call, r) && Answers(cfg, stream, handled[i].call, q);
    assert NamesSerial(cfg, stream, stream[handled[i].call].serial, r);
    assert NamesSerial(cfg, stream, stream[handled[i].call].serial, q);
  }

  /** Monitor pairing, in every stream: each call that got a place is handled at most once, with the first
      return that names its serial, no other call is handled, and exactly the unanswered ones wait. */
  lemma MonitorPairs(cfg: Config, stream: seq<Msg>)
    ensures var p := ObserveAll(cfg, stream, |stream|);
      && ExactlyAnswered(cfg, stream, p.handled, |stream|)
      && (forall i, j :: 0 <= i < |p.handled| && 0 <= j < |p.handled| && p.handled[i].call == p.handled[j].call ==> i == j)
      && HoldsEntered(cfg, stream, p, |stream|)
  {
    HoldsEnteredAlways(cfg, stream, |stream|);
    AnsweredAlways(cfg, stream, |stream|);
    var handled := ObserveAll(cfg, stream, |stream|).handled;
    forall i, j | 0 <= i < |handled| && 0 <= j < |handled| && handled[i].call == handled[j].call ensures i == j {
      OneRunPerCall(cfg, stream, handled, |stream|, i, j);
    }
  }

  // ---- whose messages count ----

  /** Only other clients' calls of watched methods are handled, and only on other clients' returns: the requests
      the interface itself sends on either connection, and what it answers, start no handler. */
  lemma OnlyOthersAreHandled(cfg: Config, stream: seq<Msg>)
    ensures forall h <- ObserveAll(cfg, stream, |stream|).handled ::
      && h.call < h.ret < |stream| && stream[h.call].Call? && stream[h.ret].Return?
      && stream[h.call].sender != cfg.name && stream[h.call].sender != cfg.callName
      && stream[h.ret].sender != cfg.name && stream[h.ret].sender != cfg.callName
      && Method(stream[h.call].interface, stream[h.call].member) in cfg.methods
      && stream[h.ret].replySerial == stream[h.call].serial
      && h.method_ < |cfg.methods| && cfg.methods[h.method_].member == stream[h.call].member
  {
    AnsweredAlways(cfg, stream, |stream|);
    forall h <- ObserveAll(cfg, stream, |stream|).handled ensures h.method_ < |cfg.methods| {
      FirstMemberFound(cfg.methods, Method(stream[h.call].interface, stream[h.call].member));
    }
  }

  /** A message of our own, whatever it is, changes neither the table nor the handler runs, and neither does a
      signal, an error or a call of a method that is not watched. */
  lemma OwnMessagesAreSkipped(cfg: Config, stream: seq<Msg>, n: nat)
    requires n < |stream|
    requires stream[n].sender == cfg.name || stream[n].sender == cfg.callName || stream[n].Signal? || stream[n].Other?
      || (stream[n].Call? && Method(stream[n].interface, stream[n].member) !in cfg.methods)
    ensures ObserveAll(cfg, stream, n + 1) == ObserveAll(cfg, stream, n)
  {
  }

  /** Another client's call of a watched method waits from now on, if its serial was free. */
  lemma WatchedCallWaits(cfg: Config, stream: seq<Msg>, n: nat)
    requires n < |stream| && stream[n].Call? && Method(stream[n].interface, stream[n].member) in cfg.methods
    requires stream[n].sender != cfg.name && stream[n].sender != cfg.callName
    ensures stream[n].serial in ObserveAll(cfg, stream, n + 1).methodCalls
    ensures stream[n].serial !in ObserveAll(cfg, stream, n).methodCalls ==>
      ObserveAll(cfg, stream, n + 1).methodCalls[stream[n].serial] == n
  {
  }

  // ---- reused serials ----

  /** Every watched call gets a place if and only if no serial is reused while its call is open. */
  lemma AllEnteredIffNoReuse(cfg: Config, stream: seq<Msg>)
    ensures (forall c: nat :: c < |stream| && Watched(cfg, stream[c]) ==> Entered(cfg, stream, c)) <==> NoReuse(cfg, stream)
  {
    if !NoReuse(cfg, stream) {
      var c, d :| 0 <= c < d < |stream| && Open(cfg, stream, c, d) && Watched(cfg, stream[d])
        && stream[c].serial == stream[d].serial;
      assert Entered(cfg, stream, c) ==> !Entered(cfg, stream, d);
    }
  }

  /** After n messages exactly the open calls are waiting. */
  ghost predicate HoldsOpen(cfg: Config, stream: seq<Msg>, p: Pairing, n: nat) {
    && (forall s :: s in p.methodCalls ==> Open(cfg, stream, p.methodCalls[s], n) && stream[p.methodCalls[s]].serial == s)
    && (forall c: nat :: Open(cfg, stream, c, n) ==>
          stream[c].serial in p.methodCalls && p.methodCalls[stream[c].serial] == c)
  }

  /** The table holds exactly the open calls after every message if and only if no serial is reused. */
  lemma HoldsOpenIffNoReuse(cfg: Config, stream: seq<Msg>)
    ensures (forall n: nat :: n <= |stream| ==> HoldsOpen(cfg, stream, ObserveAll(cfg, stream, n), n))
            <==> NoReuse(cfg, stream)
  {
    AllEnteredIffNoReuse(cfg, stream);
    if NoReuse(cfg, stream) {
      forall n: nat | n <= |stream| ensures HoldsOpen(cfg, stream, ObserveAll(cfg, stream, n), n) {
        HoldsEnteredAlways(cfg, stream, n);
      }
    } else {
      var c, d :| 0 <= c < d < |stream| && Open(cfg, stream, c, d) && Watched(cfg, stream[d])
        && stream[c].serial == stream[d].serial;
      OpenNext(cfg, stream, c, d);
      OpenNext(cfg, stream, d, d);
      assert Open(cfg, stream, c, d + 1) && Open(cfg, stream, d, d + 1);
      assert !HoldsOpen(cfg, stream, ObserveAll(cfg, stream, d + 1), d + 1);
    }
  }

  /** Some handler runs for the call at c. */
  predicate IsHandled(handled: seq<Handled>, c: nat) {
    exists i :: 0 <= i < |handled| && handled[i].call == c
  }

  /** A watched call is ever handled if and only if its serial was free when it came and some later return names
      it. One that reuses the serial of an open call is lost for good, whatever follows. */
  lemma HandledIff(cfg: Config, stream: seq<Msg>, d: nat)
    requires d < |stream| && Watched(cfg, stream[d])
    ensures IsHandled(ObserveAll(cfg, stream, |stream|).handled, d) <==>
      && stream[d].serial !in ObserveAll(cfg, stream, d).methodCalls
      && !Open(cfg, stream, d, |stream|)
  {
    var handled := ObserveAll(cfg, stream, |stream|).handled;
    HoldsEnteredAlways(cfg, stream, d);
    EnteredIffFree(cfg, stream, ObserveAll(cfg, stream, d), d);
    AnsweredAlways(cfg, stream, |stream|);
    if IsHandled(handled, d) {
      var i :| 0 <= i < |handled| && handled[i].call == d;
      assert handled[i] in handled;
      assert Answers(cfg, stream, d, handled[i].ret);
    }
    if Entered(cfg, stream, d) && !Open(cfg, stream, d, |stream|) {
      var r := FirstAnswer(cfg, stream, d);
      var h :| h in handled && h.call == d && h.ret == r;
      var i :| 0 <= i < |handled| && handled[i] == h;
      assert handled[i].call == d;
    }
  }

  lemma FirstAnswer(cfg: Config, stream: seq<Msg>, d: nat) returns (r: nat)
    requires d < |stream| && Watched(cfg, stream[d]) && !Open(cfg, stream, d, |stream|)
    ensures Answers(cfg, stream, d, r)
  {
    r := d + 1;
    while r < |stream| && !NamesSerial(cfg, stream, stream[d].serial, r)
      invariant d < r <= |stream| && forall q :: d < q < r ==> !NamesSerial(cfg, stream, stream[d].serial, q)
    {
      r := r + 1;
    }
  }

  // ---- replies to others ----

  /** Every handler gets the return that was sent to the client whose call it handles. */
  ghost predicate OwnReplies(stream: seq<Msg>, handled: seq<Handled>) {
    forall h <- handled :: h.call < |stream| && stream[h.call].Call? && h.ret < |stream| && stream[h.ret].Return?
      && stream[h.ret].destination == stream[h.call].sender
  }

  /** A return to another client names the serial of a call that waits at that point. */
  ghost predicate ForeignReturn(cfg: Config, stream: seq<Msg>, c: nat, r: nat) {
    && r < |stream| && Entered(cfg, stream, c) && Open(cfg, stream, c, r)
    && NamesSerial(cfg, stream, stream[c].serial, r) && stream[r].destination != stream[c].sender
  }

  /** Returns are matched by serial alone, and every return on the bus is observed: the handlers get the replies
      of their own callers if and only if no return to another client names the serial of a waiting call. */
  lemma OwnRepliesIff(cfg: Config, stream: seq<Msg>)
    ensures OwnReplies(stream, ObserveAll(cfg, stream, |stream|).handled) <==>
            forall c: nat, r: nat :: !ForeignReturn(cfg, stream, c, r)
  {
    var handled := ObserveAll(cfg, stream, |stream|).handled;
    AnsweredAlways(cfg, stream, |stream|);
    if OwnReplies(stream, handled) {
      forall c: nat, r: nat
        | r < |stream| && Entered(cfg, stream, c) && Open(cfg, stream, c, r) && NamesSerial(cfg, stream, stream[c].serial, r)
        ensures stream[r].destination == stream[c].sender
      {
        AnswerClosesOpen(cfg, stream, c, r);
        var h :| h in handled && h.call == c && h.ret == r;
      }
    }
    if forall c: nat, r: nat :: !ForeignReturn(cfg, stream, c, r) {
      forall h <- handled
        ensures h.call < |stream| && stream[h.call].Call? && h.ret < |stream| && stream[h.ret].Return?
        ensures stream[h.ret].destination == stream[h.call].sender
      {
        AnswerClosesOpen(cfg, stream, h.call, h.ret);
        assert !ForeignReturn(cfg, stream, h.call, h.ret);
      }
    }
  }

  // ---- the loop ----

  class DBusMonitor {
    const cfg: Config
    /** Serial to message; a message is named by its position in the stream. */
    var methodCalls: map<nat, nat>
    /** The handler runs so far. */
    var handled: seq<Handled>

    constructor (cfg: Config)
      ensures this.cfg == cfg && State() == Pairing(map[], [])
    {
      this.cfg, methodCalls, handled := cfg, map[], [];
    }

    ghost function State(): Pairing
      reads this
    {
      Pairing(methodCalls, handled)
    }

    method IsWatched(interface_: string, member: string) returns (b: bool)
      ensures b == (Method(interface_, member) in cfg.methods)
    {
      b := false;
      for i := 0 to |cfg.methods|
        invariant !b && Method(interface_, member) !in cfg.methods[..i]
      {
        if cfg.methods[i].member == member && cfg.methods[i].interface == interface_ {
          assert cfg.methods[i] == Method(interface_, member);
          return true;
        }
      }
    }

    method FindMember(member: string) returns (i: nat)
      ensures i == FirstMember(cfg.methods, member)
    {
      i := 0;
      while i < |cfg.methods| && cfg.methods[i].member != member
        invariant i <= |cfg.methods| && forall j :: 0 <= j < i ==> cfg.methods[j].member != member
      {
        i := i + 1;
      }
    }

    method Dispatch(stream: seq<Msg>, n: nat)
      requires n < |stream| && Waiting(cfg, stream, State(), n)
      modifies this
      ensures State() == Observe(cfg, stream, old(State()), n)
    {
      var m := stream[n];
      if m.sender == cfg.name || m.sender == cfg.callName { return; }
      match m {
        case Call(_, serial, interface_, member) =>
          var watched := IsWatched(interface_, member);
          if watched && serial !in methodCalls { methodCalls := methodCalls[serial := n]; }
        case Return(_, _, replySerial) =>
          if replySerial in methodCalls {
            var call := methodCalls[replySerial];
            var i := FindMember(stream[call].member);
            if i < |cfg.methods| {
              handled := handled + [Handled(i, call, n)];
              methodCalls := methodCalls - {replySerial};
            }
          }
        case Signal(_, _, _) =>
        case Other(_) =>
      }
    }

    /** The message loop over the messages observed so far. */
    method Start(stream: seq<Msg>)
      requires State() == Pairing(map[], [])
      modifies this
      ensures State() == ObserveAll(cfg, stream, |stream|)
    {
      for n := 0 to |stream|
        invariant State() == ObserveAll(cfg, stream, n)
      {
        Dispatch(stream, n);
      }
    }
  }
}
