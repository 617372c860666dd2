/** The pipe to the setuid helper of the systemd interface: type lists, encoding, decoding. */
module SystemdPipe {
  import opened InhibitTypes
  import opened Text
  import opened Decimal
  import opened Framing

  // ---- colon-separated type lists ----

  function TypeOf(what: string): InhibitType {
    Flags("idle" in Split(what, ':'), "sleep" in Split(what, ':'))
  }

  method SystemdType2Us(what: string) returns (t: InhibitType)
    ensures t == TypeOf(what)
  {
    var types := SplitLoop(what, ':');
    t := NONE;
    for i := 0 to |types|
      invariant t == Flags("idle" in types[..i], "sleep" in types[..i])
    {
      assert types[..i + 1] == types[..i] + [types[i]];
      if types[i] == "idle" { t := t.Or(SCREENSAVER); }
      if types[i] == "sleep" { t := t.Or(SUSPEND); }
    }
    assert types[..|types|] == types;
  }

  /** Suspending is listed together with idling; the words come in alphabetical order. */
  function TypeList(t: InhibitType): string {
    if t.suspend then "idle:sleep" else if t.screensaver then "idle" else ""
  }

  method Us2SystemdType(t: InhibitType) returns (ret: string)
    ensures ret == TypeList(t)
  {
    var whats := {};
    if t.screensaver { whats := whats + {"idle"}; }
    if t.suspend {
      if "idle" !in whats { whats := whats + {"idle"}; }
      whats := whats + {"sleep"};
    }
    var words := ["idle", "sleep"];
    ret := "";
    var first := true;
    for i := 0 to |words|
      invariant i == 0 ==> ret == "" && first
      invariant i == 1 ==> ret == (if "idle" in whats then "idle" else "") && first == ("idle" !in whats)
      invariant i == 2 ==> ret == TypeList(t)
    {
      if words[i] in whats {
        ret := (if first then ret else ret + ":") + words[i];
        first := false;
      }
    }
  }

  /** The types of a joined list are the union of the types of its parts. */
  lemma TypeOfJoin(a: string, b: string)
    ensures TypeOf(a + ":" + b) == TypeOf(a).Or(TypeOf(b))
  {
    SplitAtSeparator(a, b, ':');
  }

  /** What one word of a list means: with the union over joined words this fixes the types of every list. */
  lemma TypeOfWord(w: string)
    requires ':' !in w
    ensures TypeOf(w) ==
      if w == "idle" then Flags(true, false) else if w == "sleep" then Flags(false, true) else Flags(false, false)
  {
    SplitWhole(w, ':');
  }

  function WithIdle(t: InhibitType): InhibitType {
    Flags(t.screensaver || t.suspend, t.suspend)
  }

  /** Encoding and decoding a type adds the screensaver flag to suspend, once and for all. */
  lemma TypeListRoundTrip(t: InhibitType)
    ensures TypeOf(TypeList(t)) == WithIdle(t) == Flags(t.screensaver || t.suspend, t.suspend)
    ensures WithIdle(WithIdle(t)) == WithIdle(t) && t.Within(WithIdle(t))
    ensures TypeOf(TypeList(t)) == t <==> (t.suspend ==> t.screensaver)
    ensures TypeList(t) in {"", "idle", "idle:sleep"}
  {
    SplitWhole("", ':');
    SplitWhole("idle", ':');
    SplitWhole("sleep", ':');
    TypeOfJoin("idle", "sleep");
    assert "idle:sleep" == "idle" + ":" + "sleep";
  }

  // ---- messages ----

  /** What the interface asks of the helper: a lock, or the release of a descriptor it handed out. */
  datatype Message = Ask(kind: InhibitType, appname: string, reason: string) | Free(fd: int)

  /** What the helper does with a message. */
  datatype Action = Lock(what: string, who: string, why: string, mode: string) | Close(fd: int) | Ignore

  predicate Sendable(m: Message) {
    match m
    case Ask(_, a, r) => '\t' !in a && '\n' !in a && '\t' !in r && '\n' !in r
    case Free(fd) => -INT32 <= fd < INT32
  }

  function Body(m: Message): string {
    match m
    case Ask(kind, a, r) => TypeList(kind) + "\t" + a + "\t" + r + "\t" + "block"
    case Free(fd) => ToString(fd)
  }

  function Encode(m: Message): string {
    Body(m) + "\n"
  }

  function Meant(m: Message): Action {
    match m
    case Ask(kind, a, r) => Lock(TypeList(kind), a, r, "block")
    case Free(fd) => Close(fd)
  }

  function Decode(msg: string): Action {
    if msg == "" then Ignore
    else if Count(msg, '\t') == 3 then
      SplitCount(msg, '\t');
      var s := Split(msg, '\t');
      Lock(s[0], s[1], s[2], s[3])
    else if Count(msg, '\t') == 0 then Close(Narrow(Atol(msg)))
    else Ignore
  }

  method HandleMsg(msg: string) returns (a: Action)
    ensures a == Decode(msg)
  {
    if |msg| == 0 { return Ignore; }
    var tabs := CountLoop(msg, '\t');
    SplitCount(msg, '\t');
    if tabs == 3 {
      var strings := SplitLoop(msg, '\t');
      a := Lock(strings[0], strings[1], strings[2], strings[3]);
    } else if tabs == 0 {
      a := Close(Narrow(Atol(msg)));
    } else {
      a := Ignore;
    }
  }

  lemma DigitsHaveNoTab(n: int)
    ensures '\t' !in ToString(n) && '\n' !in ToString(n)
  {
    assert !IsDigit('\t') && !IsDigit('\n');
  }

  lemma SplitFour(a: string, b: string, c: string, d: string)
    requires '\t' !in a && '\t' !in b && '\t' !in c && '\t' !in d
    ensures Split(a + "\t" + b + "\t" + c + "\t" + d, '\t') == [a, b, c, d]
  {
    SplitWhole(a, '\t');
    SplitWhole(b, '\t');
    SplitWhole(c, '\t');
    SplitWhole(d, '\t');
    SplitAtSeparator(a, b, '\t');
    SplitAtSeparator(a + "\t" + b, c, '\t');
    SplitAtSeparator(a + "\t" + b + "\t" + c, d, '\t');
  }

  /** Every sendable message is one nonempty line that means what was sent. */
  lemma DecodeBody(m: Message)
    requires Sendable(m)
    ensures Body(m) != "" && '\n' !in Body(m) && Decode(Body(m)) == Meant(m)
  {
    match m
    case Ask(kind, a, r) =>
      SplitFour(TypeList(kind), a, r, "block");
      SplitCount(Body(m), '\t');
    case Free(fd) =>
      DigitsHaveNoTab(fd);
      CountNone(ToString(fd), '\t');
      AtolOfToString(fd);
  }

  // ---- the format on the pipe ----

  /** Any nonempty line is read by its tabs: three of them separate the arguments of a lock in this order; without
      any it is the number of a descriptor to close; with any other number it is ignored. */
  lemma LineMeans(w: string, x: string, y: string, z: string, line: string)
    requires '\t' !in w && '\t' !in x && '\t' !in y && '\t' !in z
    ensures Decode(w + "\t" + x + "\t" + y + "\t" + z) == Lock(w, x, y, z)
    ensures '\t' !in line && line != "" ==> Decode(line) == Close(Narrow(Atol(line)))
    ensures Decode(line) == Ignore <==> line == "" || |Split(line, '\t')| !in {1, 4}
  {
    SplitFour(w, x, y, z);
    SplitCount(w + "\t" + x + "\t" + y + "\t" + z, '\t');
    SplitCount(line, '\t');
    if '\t' !in line { CountNone(line, '\t'); }
  }

  /** So the fields of a request are on the line in the order type list, application, reason, mode, and a release is
      the decimal number of its descriptor. */
  lemma LineOf(m: Message)
    requires Sendable(m)
    ensures m.Ask? ==> Split(Body(m), '\t') == [TypeList(m.kind), m.appname, m.reason, "block"]
    ensures m.Free? ==> Split(Body(m), '\t') == [ToString(m.fd)]
    ensures Split(Encode(m), '\n') == [Body(m), ""]
  {
    match m
    case Ask(kind, a, r) =>
      DecodeBody(m);
      SplitFour(TypeList(kind), a, r, "block");
      LinesOfOne(Body(m));
    case Free(fd) =>
      DigitsHaveNoTab(fd);
      SplitWhole(ToString(fd), '\t');
      LinesOfOne(Body(m));
  }

  lemma LinesOfOne(line: string)
    requires '\n' !in line
    ensures Split(line + "\n", '\n') == [line, ""]
  {
    assert line + "\n" == line + ['\n'] + "";
    SplitAtSeparator(line, "", '\n');
    SplitWhole(line, '\n');
    SplitWhole("", '\n');
  }

  // ---- the whole conversation ----

  function EncodeAll(ms: seq<Message>): string {
    if ms == [] then "" else Encode(ms[0]) + EncodeAll(ms[1..])
  }

  function MeantAll(ms: seq<Message>): seq<Action> {
    if ms == [] then [] else [Meant(ms[0])] + MeantAll(ms[1..])
  }

  /** What the helper does when it is shown a text, as zero or one action. */
  function Act(text: string): seq<Action> {
    if Decode(text) == Ignore then [] else [Decode(text)]
  }

  /** The actions taken on a sequence of texts. */
  function Acted(texts: seq<string>): seq<Action> {
    if texts == [] then [] else Act(texts[0]) + Acted(texts[1..])
  }

  /** The actions taken on the calls of the framing loop, newline found or not. */
  function Heard(calls: seq<Call>): seq<Action> {
    if calls == [] then [] else Act(calls[0].text) + Heard(calls[1..])
  }

  lemma ActedNext(text: string, texts: seq<string>)
    ensures Acted([text] + texts) == Act(text) + Acted(texts)
    ensures Acted([] + texts) == Acted(texts)
  {
    assert ([text] + texts)[1..] == texts && [] + texts == texts;
  }

  lemma {:induction false} HeardParts(calls: seq<Call>)
    ensures |Heard(calls)| == |Acted(Complete(calls))| + |Acted(Partials(calls))|
    ensures Acted(Partials(calls)) == [] ==> Heard(calls) == Acted(Complete(calls))
  {
    if calls != [] {
      HeardParts(calls[1..]);
      ActedNext(calls[0].text, Complete(calls[1..]));
      ActedNext(calls[0].text, Partials(calls[1..]));
    }
  }

  lemma {:induction false} LinesOfMessages(ms: seq<Message>)
    requires forall m <- ms :: Sendable(m)
    ensures Acted(Lines(EncodeAll(ms))) == MeantAll(ms)
  {
    if ms != [] {
      DecodeBody(ms[0]);
      LinesOfMessages(ms[1..]);
      FirstMessage(Body(ms[0]), EncodeAll(ms[1..]));
      ActedNext(Body(ms[0]), Lines(EncodeAll(ms[1..])));
    }
  }

  lemma FirstMessage(line: string, rest: string)
    requires '\n' !in line
    ensures Lines(line + "\n" + rest) == [line] + Lines(rest)
  {
    SplitAtSeparator(line, rest, '\n');
    SplitWhole(line, '\n');
  }

  /** A text the helper ignores: empty, or with a number of tabs that no message has. */
  predicate Quiet(text: string) {
    text == "" || (Count(text, '\t') != 0 && Count(text, '\t') != 3)
  }

  lemma QuietIsIgnored(text: string)
    ensures Act(text) == [] <==> Quiet(text)
  {
  }

  lemma {:induction false} QuietIff(texts: seq<string>)
    ensures Acted(texts) == [] <==> forall t <- texts :: Quiet(t)
  {
    if texts != [] {
      QuietIff(texts[1..]);
      QuietIsIgnored(texts[0]);
      assert texts == [texts[0]] + texts[1..];
    }
  }

  /** However the encoded messages are cut into chunks, the helper does exactly what was asked if and
      only if every unfinished line it is shown on the way is quiet. */
  lemma PipeRoundTripIff(ms: seq<Message>, chunks: seq<string>)
    requires (forall m <- ms :: Sendable(m)) && Concat(chunks) == EncodeAll(ms)
    ensures Heard(Deliver("", chunks)) == MeantAll(ms) <==> forall f <- Fragments("", chunks) :: Quiet(f)
  {
    var calls := Deliver("", chunks);
    EveryLineOnce(chunks);
    LinesOfMessages(ms);
    OtherCallsAreFragments("", chunks);
    HeardParts(calls);
    QuietIff(Fragments("", chunks));
  }

  /** Chunks that each contain the end of a message, whole messages in particular, are heard as sent. */
  lemma PipeRoundTrip(ms: seq<Message>, chunks: seq<string>)
    requires (forall m <- ms :: Sendable(m)) && Concat(chunks) == EncodeAll(ms)
    requires forall c <- chunks :: '\n' in c
    ensures Heard(Deliver("", chunks)) == MeantAll(ms)
  {
    OnlyLinesIff("", chunks);
    OtherCallsAreFragments("", chunks);
    PipeRoundTripIff(ms, chunks);
  }

  // ---- one request ----

  lemma CutInside(before: string, field: string, p: nat)
    requires p <= |before|
    ensures (before + field)[..p] == before[..p]
  {
  }

  /** Behind the last tab the number of tabs stays. */
  lemma TabsInField(before: string, field: string, p: nat)
    requires '\t' !in field && |before| <= p <= |before + field|
    ensures Count((before + field)[..p], '\t') == Count(before, '\t')
  {
    var rest := field[..p - |before|];
    assert (before + field)[..p] == before + rest;
    CountAppend(before, rest, '\t');
    CountNone(rest, '\t');
  }

  lemma OneMoreTab(before: string)
    ensures Count(before + "\t", '\t') == Count(before, '\t') + 1
  {
    assert (before + "\t")[..|before|] == before;
  }

  /** A field and the tab behind it. */
  lemma TabsInEntry(before: string, field: string, p: nat)
    requires '\t' !in field && |before| <= p <= |before + field + "\t"|
    ensures Count((before + field + "\t")[..p], '\t') == Count(before, '\t') + if p > |before + field| then 1 else 0
    ensures Count(before + field + "\t", '\t') == Count(before, '\t') + 1
  {
    CountAppend(before, field, '\t');
    CountNone(field, '\t');
    OneMoreTab(before + field);
    if p <= |before + field| {
      CutInside(before + field, "\t", p);
      TabsInField(before, field, p);
    } else {
      assert (before + field + "\t")[..p] == before + field + "\t";
    }
  }

  function Entries(what: string, a: string, r: string): string {
    "" + what + "\t" + a + "\t" + r + "\t"
  }

  /** The tabs of what a cut leaves of the three entries: one more behind each of them. */
  lemma TabsOfEntries(what: string, a: string, r: string, p: nat)
    requires '\t' !in what && '\t' !in a && '\t' !in r && p <= |Entries(what, a, r)|
    ensures Count(Entries(what, a, r)[..p], '\t') ==
            if p <= |what| then 0 else if p <= |what| + 1 + |a| then 1 else if p <= |what| + 2 + |a| + |r| then 2 else 3
    ensures Count(Entries(what, a, r), '\t') == 3
  {
    var one, two := "" + what + "\t", "" + what + "\t" + a + "\t";
    TabsInEntry("", what, if p <= |one| then p else 0);
    TabsInEntry(one, a, if |one| <= p <= |two| then p else |one|);
    TabsInEntry(two, r, if |two| <= p then p else |two|);
    if p < |two| {
      CutInside(two, r, p);
      CutInside(two + r, "\t", p);
      if p < |one| {
        CutInside(one, a, p);
        CutInside(one + a, "\t", p);
      }
    }
  }

  lemma BodyOfRequest(kind: InhibitType, a: string, r: string)
    ensures Body(Ask(kind, a, r)) == Entries(TypeList(kind), a, r) + "block"
    ensures |Entries(TypeList(kind), a, r)| == |TypeList(kind)| + |a| + |r| + 3 && '\t' !in TypeList(kind)
  {
    assert "" + TypeList(kind) == TypeList(kind);
  }

  /** When what a cut leaves of a request is ignored. */
  lemma CutIsQuietIff(kind: InhibitType, a: string, r: string, p: nat)
    requires Sendable(Ask(kind, a, r)) && p <= |Body(Ask(kind, a, r))|
    ensures Quiet(Body(Ask(kind, a, r))[..p]) <==> p == 0 || |TypeList(kind)| < p <= |TypeList(kind)| + 2 + |a| + |r|
  {
    var what := TypeList(kind);
    var entries := Entries(what, a, r);
    BodyOfRequest(kind, a, r);
    TabsOfEntries(what, a, r, if p <= |entries| then p else 0);
    if p <= |entries| {
      CutInside(entries, "block", p);
    } else {
      TabsInField(entries, "block", p);
    }
  }

  /** A line that arrives in two reads: the unfinished first one is shown by itself. */
  lemma TwoReads(x: string, y: string)
    requires '\n' !in x && '\n' !in y
    ensures Deliver("", [x, y + "\n"]) == [Partial(x), Line(x + y)]
  {
    var second := y + "\n";
    assert [x, second][1..] == [second] && [second][1..] == [];
    assert "" + x == x && x + second == (x + y) + "\n" + "";
    HasLineIff(x);
    SplitWhole("", '\n');
    FirstMessage(x + y, "");
    assert Lines(x + second) == [x + y] + [];
    assert CallsOf(x + second) == [Line(x + y)];
    assert Deliver(Tail(x + second), []) == [];
  }

  lemma HeardTwo(x: string, line: string)
    ensures Heard([Partial(x), Line(line)]) == Act(x) + Act(line)
  {
    var calls := [Partial(x), Line(line)];
    assert calls[1..] == [Line(line)] && calls[1..][1..] == [];
    assert Heard(calls[1..]) == Act(line) + Heard([]);
  }

  lemma HeardLineInTwoReads(line: string, p: nat)
    requires '\n' !in line && p <= |line|
    ensures line[..p] + (line[p..] + "\n") == line + "\n"
    ensures Heard(Deliver("", [line[..p], line[p..] + "\n"])) == Act(line[..p]) + Act(line)
  {
    var x, y := line[..p], line[p..];
    assert x + y == line;
    TwoReads(x, y);
    HeardTwo(x, line);
  }

  lemma HeardInTwoReads(m: Message, p: nat)
    requires Sendable(m) && p <= |Body(m)|
    ensures Body(m)[..p] + (Body(m)[p..] + "\n") == Encode(m)
    ensures Heard(Deliver("", [Body(m)[..p], Body(m)[p..] + "\n"])) == Act(Body(m)[..p]) + [Meant(m)]
  {
    DecodeBody(m);
    assert Act(Body(m)) == [Meant(m)];
    HeardLineInTwoReads(Body(m), p);
  }

  /** Exactly when a request that takes two reads is still heard as sent: the cut falls behind the first tab and
      not behind the third. */
  lemma CutRequestIff(kind: InhibitType, a: string, r: string, p: nat)
    requires Sendable(Ask(kind, a, r)) && p <= |Body(Ask(kind, a, r))|
    ensures var m := Ask(kind, a, r);
      Heard(Deliver("", [Body(m)[..p], Body(m)[p..] + "\n"])) == [Meant(m)] <==>
        p == 0 || |TypeList(kind)| < p <= |TypeList(kind)| + 2 + |a| + |r|
  {
    var m := Ask(kind, a, r);
    HeardInTwoReads(m, p);
    CutIsQuietIff(kind, a, r, p);
    QuietIsIgnored(Body(m)[..p]);
    OnlyIfEmpty(Act(Body(m)[..p]), [Meant(m)]);
  }

  lemma OnlyIfEmpty(x: seq<Action>, y: seq<Action>)
    ensures x + y == y <==> x == []
  {
    assert |x + y| == |x| + |y|;
  }

  lemma CutBehind(before: string, field: string, n: nat)
    requires n <= |field|
    ensures (before + field)[..|before| + n] == before + field[..n]
  {
  }

  lemma CutModeIsLocked(what: string, a: string, r: string, mode: string)
    requires '\t' !in what && '\t' !in a && '\t' !in r && '\t' !in mode
    ensures Act(Entries(what, a, r) + mode) == [Lock(what, a, r, mode)]
  {
    assert "" + what == what;
    SplitFour(what, a, r, mode);
    SplitCount(what + "\t" + a + "\t" + r + "\t" + mode, '\t');
  }

  lemma HeardTwice(line: string, p: nat, first: Action, second: Action)
    requires '\n' !in line && p <= |line| && Act(line[..p]) == [first] && Act(line) == [second]
    ensures Heard(Deliver("", [line[..p], line[p..] + "\n"])) == [first, second]
  {
    HeardLineInTwoReads(line, p);
    assert [first] + [second] == [first, second];
  }

  lemma BodyCut(kind: InhibitType, a: string, r: string, cut: nat)
    requires cut <= 5
    ensures var body, p := Body(Ask(kind, a, r)), |TypeList(kind)| + |a| + |r| + 3 + cut;
            p <= |body| && body[..p] == Entries(TypeList(kind), a, r) + "block"[..cut]
  {
    BodyOfRequest(kind, a, r);
    CutBehind(Entries(TypeList(kind), a, r), "block", cut);
  }

  /** A request that is cut within its last field is heard twice. */
  lemma CutModeLocksTwice(kind: InhibitType, a: string, r: string, cut: nat, p: nat)
    requires Sendable(Ask(kind, a, r)) && cut <= 5 && p == |TypeList(kind)| + |a| + |r| + 3 + cut
    ensures var body := Body(Ask(kind, a, r));
      && p <= |body|
      && Heard(Deliver("", [body[..p], body[p..] + "\n"])) ==
           [Lock(TypeList(kind), a, r, "block"[..cut]), Lock(TypeList(kind), a, r, "block")]
  {
    var m := Ask(kind, a, r);
    BodyCut(kind, a, r, cut);
    CutModeIsLocked(TypeList(kind), a, r, "block"[..cut]);
    DecodeBody(m);
    HeardTwice(Body(m), p, Lock(TypeList(kind), a, r, "block"[..cut]), Meant(m));
  }

  /** The bytes that one read returns at most. */
  const READ_SIZE: nat := 1024

  /** A request whose first full read ends within the last field is heard twice: a lock with a mode cut short is
      asked for, and then the lock that was meant. */
  lemma FullReadLocksTwice(kind: InhibitType, a: string, r: string)
    requires Sendable(Ask(kind, a, r))
    requires |TypeList(kind)| + |a| + |r| + 3 <= READ_SIZE <= |TypeList(kind)| + |a| + |r| + 8
    ensures var m := Ask(kind, a, r); var cut := READ_SIZE - (|TypeList(kind)| + |a| + |r| + 3);
      && READ_SIZE <= |Body(m)|
      && Heard(Deliver("", [Body(m)[..READ_SIZE], Body(m)[READ_SIZE..] + "\n"])) ==
           [Lock(TypeList(kind), a, r, "block"[..cut]), Lock(TypeList(kind), a, r, "block")]
  {
    CutModeLocksTwice(kind, a, r, READ_SIZE - (|TypeList(kind)| + |a| + |r| + 3), READ_SIZE);
  }

  lemma {:induction false} PieceHasNo(s: string, sep: char, c: char, i: nat)
    requires c !in s && i < |Split(s, sep)|
    ensures c !in Split(s, sep)[i]
    decreases |s|
  {
    if s != "" {
      var init := s[..|s| - 1];
      assert s[|s| - 1] in s;
      if i < |Split(init, sep)| { PieceHasNo(init, sep, c, i); }
    }
  }

  lemma {:induction false} PieceHasNoSeparator(s: string, sep: char, i: nat)
    requires i < |Split(s, sep)|
    ensures sep !in Split(s, sep)[i]
    decreases |s|
  {
    if s != "" {
      var init := s[..|s| - 1];
      if i < |Split(init, sep)| { PieceHasNoSeparator(init, sep, i); }
    }
  }

  /** A lock that is asked for on some line has no newline in its fields. */
  lemma {:induction false} LockedOnOneLine(lines: seq<string>, l: Action)
    requires (forall line <- lines :: '\n' !in line) && l in Acted(lines) && l.Lock?
    ensures '\n' !in l.who && '\n' !in l.why
  {
    if l in Act(lines[0]) {
      SplitCount(lines[0], '\t');
      PieceHasNo(lines[0], '\t', '\n', 1);
      PieceHasNo(lines[0], '\t', '\n', 2);
    } else {
      LockedOnOneLine(lines[1..], l);
    }
  }

  lemma {:induction false} CountSome(s: string, c: char)
    requires c in s
    ensures Count(s, c) > 0
  {
    if s[|s| - 1] != c {
      assert s == s[..|s| - 1] + [s[|s| - 1]];
      CountSome(s[..|s| - 1], c);
    }
  }

  lemma TabsOfRequest(what: string, a: string, r: string)
    requires '\t' !in what
    ensures Count(Entries(what, a, r) + "block", '\t') == 3 + Count(a, '\t') + Count(r, '\t')
  {
    var one := "" + what + "\t";
    var two := one + a + "\t";
    assert "" + what == what;
    CountNone(what, '\t');
    OneMoreTab(what);
    CountAppend(one, a, '\t');
    OneMoreTab(one + a);
    CountAppend(two, r, '\t');
    OneMoreTab(two + r);
    CountNone("block", '\t');
    CountAppend(Entries(what, a, r), "block", '\t');
  }

  /** A line without a newline of its own is the one line of its message. */
  lemma ActedOnLine(line: string)
    requires '\n' !in line
    ensures Acted(Lines(line + "\n")) == Act(line)
  {
    FirstMessage(line, "");
    assert line + "\n" + "" == line + "\n";
    SplitWhole("", '\n');
    assert Lines("") == [];
    ActedNext(line, []);
    assert [line] + [] == [line];
  }

  lemma LinesHaveNoNewline(s: string)
    ensures forall line <- Lines(s) :: '\n' !in line
  {
    var lines := Lines(s);
    forall line <- lines ensures '\n' !in line {
      var i :| 0 <= i < |lines| && lines[i] == line;
      PieceHasNoSeparator(s, '\n', i);
    }
  }

  /** The interface sends the fields of a request as they are. The helper does exactly what was asked if and only
      if neither field holds a tab or a newline. */
  lemma RequestDecodedIff(kind: InhibitType, a: string, r: string)
    ensures var m := Ask(kind, a, r); Acted(Lines(Encode(m))) == [Meant(m)] <==> Sendable(m)
  {
    var m := Ask(kind, a, r);
    if Sendable(m) {
      DecodeBody(m);
      ActedOnLine(Body(m));
    } else if '\n' in a || '\n' in r {
      LinesHaveNoNewline(Encode(m));
      if Meant(m) in Acted(Lines(Encode(m))) { LockedOnOneLine(Lines(Encode(m)), Meant(m)); }
      assert Meant(m) in [Meant(m)];
    } else {
      TooManyTabs(kind, a, r);
    }
  }

  lemma TooManyTabs(kind: InhibitType, a: string, r: string)
    requires '\n' !in a && '\n' !in r && ('\t' in a || '\t' in r)
    ensures Acted(Lines(Encode(Ask(kind, a, r)))) == []
  {
    var m := Ask(kind, a, r);
    BodyOfRequest(kind, a, r);
    TabsOfRequest(TypeList(kind), a, r);
    if '\t' in a { CountSome(a, '\t'); }
    if '\t' in r { CountSome(r, '\t'); }
    assert '\n' !in TypeList(kind) && '\n' !in "block";
    assert forall c :: c in Body(m) ==> c in TypeList(kind) || c == '\t' || c in a || c in r || c in "block";
    ActedOnLine(Body(m));
    QuietIsIgnored(Body(m));
  }
}
