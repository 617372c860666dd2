/** Newline framing over arbitrary read chunks (NewlineMessageFork::doRun). */
module Framing {
  import opened Text

  const LIMIT: nat := 1024 * 1024

  /** A call of handleMsg, with or without a newline found behind its text. */
  datatype Call = Line(text: string) | Partial(text: string)

  /** The newline-terminated lines of a stream. */
  function Lines(s: string): seq<string> {
    var pieces := Split(s, '\n');
    pieces[..|pieces| - 1]
  }

  /** What follows the last newline of a stream. */
  function Tail(s: string): string {
    var pieces := Split(s, '\n');
    pieces[|pieces| - 1]
  }

  function Concat(chunks: seq<string>): string {
    if chunks == [] then "" else chunks[0] + Concat(chunks[1..])
  }

  function AsLines(lines: seq<string>): (calls: seq<Call>)
    ensures |calls| == |lines|
  {
    if lines == [] then [] else [Line(lines[0])] + AsLines(lines[1..])
  }

  /** The calls made after a chunk is appended to what was pending. */
  function CallsOf(b: string): seq<Call> {
    if Lines(b) != [] then AsLines(Lines(b)) else [Partial(b)]
  }

  /** All calls made while the chunks arrive one by one. */
  function Deliver(pending: string, chunks: seq<string>): seq<Call>
    decreases |chunks|
  {
    if chunks == [] then [] else
    CallsOf(pending + chunks[0]) + Deliver(Tail(pending + chunks[0]), chunks[1..])
  }

  // ---- lines of a growing stream ----

  lemma {:induction false} TailIsFree(s: string)
    ensures '\n' !in Tail(s)
    decreases |s|
  {
    if s != "" { TailIsFree(s[..|s| - 1]); }
  }

  lemma HasLineIff(s: string)
    ensures Lines(s) != [] <==> '\n' in s
    ensures Lines(s) == [] ==> Tail(s) == s
  {
    if '\n' in s {
      var i :| 0 <= i < |s| && s[i] == '\n';
      assert s == s[..i] + ['\n'] + s[i + 1..];
      SplitAtSeparator(s[..i], s[i + 1..], '\n');
    } else {
      SplitWhole(s, '\n');
    }
  }

  lemma {:induction false} LinesSplit(x: string, y: string)
    ensures Lines(x + y) == Lines(x) + Lines(Tail(x) + y) && Tail(x + y) == Tail(Tail(x) + y)
    decreases |y|
  {
    if y == "" {
      LinesOfTail(x);
      assert x + y == x && Tail(x) + y == Tail(x);
    } else {
      var init, c := y[..|y| - 1], y[|y| - 1];
      LinesSplit(x, init);
      assert x + y == (x + init) + [c] && Tail(x) + y == (Tail(x) + init) + [c];
      LinesSplitStep(x + init, Lines(x), Tail(x) + init, c);
    }
  }

  lemma LinesOfTail(x: string)
    ensures Lines(x) == Lines(x) + Lines(Tail(x)) && Tail(Tail(x)) == Tail(x)
  {
    TailIsFree(x);
    HasLineIff(Tail(x));
  }

  lemma LinesSplitStep(s: string, before: seq<string>, t: string, c: char)
    requires Lines(s) == before + Lines(t) && Tail(s) == Tail(t)
    ensures Lines(s + [c]) == before + Lines(t + [c]) && Tail(s + [c]) == Tail(t + [c])
  {
    LinesExtend(s, c);
    LinesExtend(t, c);
  }

  lemma LinesExtend(s: string, c: char)
    ensures Lines(s + [c]) == Lines(s) + if c == '\n' then [Tail(s)] else []
    ensures Tail(s + [c]) == if c == '\n' then "" else Tail(s) + [c]
  {
    var t := s + [c];
    assert t[..|t| - 1] == s;
  }

  lemma LinesFirst(s: string, i: nat)
    requires i < |s| && s[i] == '\n' && '\n' !in s[..i]
    ensures Lines(s) == [s[..i]] + Lines(s[i + 1..]) && Tail(s) == Tail(s[i + 1..])
  {
    assert s == s[..i] + ['\n'] + s[i + 1..];
    SplitAtSeparator(s[..i], s[i + 1..], '\n');
    SplitWhole(s[..i], '\n');
  }

  lemma {:induction false} ConcatAppend(a: seq<string>, b: seq<string>)
    ensures Concat(a + b) == Concat(a) + Concat(b)
  {
    if a == [] {
      assert a + b == b;
    } else {
      assert (a + b)[1..] == a[1..] + b;
      ConcatAppend(a[1..], b);
    }
  }

  lemma ConcatStep(pending: string, chunks: seq<string>)
    requires chunks != []
    ensures pending + Concat(chunks) == pending + chunks[0] + Concat(chunks[1..])
  {
  }

  // ---- the complete lines ----

  /** The texts of the calls made with a newline found. */
  function Complete(calls: seq<Call>): seq<string> {
    if calls == [] then [] else
    (if calls[0].Line? then [calls[0].text] else []) + Complete(calls[1..])
  }

  lemma {:induction false} CompleteAppend(a: seq<Call>, b: seq<Call>)
    ensures Complete(a + b) == Complete(a) + Complete(b)
  {
    if a == [] {
      assert a + b == b;
    } else {
      assert (a + b)[1..] == a[1..] + b;
      CompleteAppend(a[1..], b);
    }
  }

  lemma {:induction false} CompleteOfLines(lines: seq<string>)
    ensures Complete(AsLines(lines)) == lines && Partials(AsLines(lines)) == []
  {
    if lines != [] { CompleteOfLines(lines[1..]); }
  }

  lemma CompleteOfCalls(b: string)
    ensures Complete(CallsOf(b)) == Lines(b)
    ensures Partials(CallsOf(b)) == if Lines(b) != [] then [] else [b]
  {
    CompleteOfLines(Lines(b));
  }

  lemma {:induction false} CompleteLines(pending: string, chunks: seq<string>)
    requires Lines(pending) == []
    ensures Complete(Deliver(pending, chunks)) == Lines(pending + Concat(chunks))
    decreases |chunks|
  {
    if chunks == [] {
      assert pending + Concat(chunks) == pending;
    } else {
      var b, rest := pending + chunks[0], Concat(chunks[1..]);
      ConcatStep(pending, chunks);
      calc {
        Complete(Deliver(pending, chunks));
        { CompleteAppend(CallsOf(b), Deliver(Tail(b), chunks[1..])); }
        Complete(CallsOf(b)) + Complete(Deliver(Tail(b), chunks[1..]));
        { TailIsFree(b); HasLineIff(Tail(b)); CompleteLines(Tail(b), chunks[1..]); }
        Complete(CallsOf(b)) + Lines(Tail(b) + rest);
        { CompleteOfCalls(b); }
        Lines(b) + Lines(Tail(b) + rest);
        { LinesSplit(b, rest); }
        Lines(b + rest);
      }
    }
  }

  /** The calls with a newline found are exactly the lines of the stream, once each and in order,
      however the stream is cut into chunks. */
  lemma EveryLineOnce(chunks: seq<string>)
    ensures Complete(Deliver("", chunks)) == Lines(Concat(chunks))
  {
    CompleteLines("", chunks);
    assert "" + Concat(chunks) == Concat(chunks);
  }

  // ---- the other calls ----

  function Partials(calls: seq<Call>): seq<string> {
    if calls == [] then [] else
    (if calls[0].Partial? then [calls[0].text] else []) + Partials(calls[1..])
  }

  lemma {:induction false} PartialsAppend(a: seq<Call>, b: seq<Call>)
    ensures Partials(a + b) == Partials(a) + Partials(b)
  {
    if a == [] {
      assert a + b == b;
    } else {
      assert (a + b)[1..] == a[1..] + b;
      PartialsAppend(a[1..], b);
    }
  }

  /** The unfinished line pending after each chunk without a newline. */
  function Fragments(pending: string, chunks: seq<string>): seq<string>
    decreases |chunks|
  {
    if chunks == [] then [] else
    var b := pending + chunks[0];
    (if '\n' in chunks[0] then [] else [b]) + Fragments(Tail(b), chunks[1..])
  }

  /** Every chunk without a newline, and no other, makes one further call, with the unfinished line. */
  lemma {:induction false} OtherCallsAreFragments(pending: string, chunks: seq<string>)
    requires '\n' !in pending
    ensures Partials(Deliver(pending, chunks)) == Fragments(pending, chunks)
    decreases |chunks|
  {
    if chunks != [] {
      var b := pending + chunks[0];
      TailIsFree(b);
      OtherCallsAreFragments(Tail(b), chunks[1..]);
      PartialsAppend(CallsOf(b), Deliver(Tail(b), chunks[1..]));
      CompleteOfCalls(b);
      HasLineIff(b);
    }
  }

  /** handleMsg gets only whole lines exactly if every chunk contains a newline. */
  lemma {:induction false} OnlyLinesIff(pending: string, chunks: seq<string>)
    requires '\n' !in pending
    ensures Partials(Deliver(pending, chunks)) == [] <==> forall c <- chunks :: '\n' in c
    decreases |chunks|
  {
    OtherCallsAreFragments(pending, chunks);
    if chunks != [] {
      var t := Tail(pending + chunks[0]);
      TailIsFree(pending + chunks[0]);
      OnlyLinesIff(t, chunks[1..]);
      OtherCallsAreFragments(t, chunks[1..]);
      assert chunks == [chunks[0]] + chunks[1..];
    }
  }

  /** The calls read the stream: one with a newline found takes exactly the next line, every other one
      only looks at a prefix of the next line. */
  predicate Reads(calls: seq<Call>, stream: string)
    decreases |calls|
  {
    calls == [] ||
    (var text := calls[0].text;
     && '\n' !in text && text <= stream
     && if calls[0].Line?
        then |text| < |stream| && stream[|text|] == '\n' && Reads(calls[1..], stream[|text| + 1..])
        else Reads(calls[1..], stream))
  }

  lemma ReadsOne(line: string, calls: seq<Call>, rest: string)
    requires '\n' !in line && Reads(calls, rest)
    ensures Reads([Line(line)] + calls, line + ['\n'] + rest)
  {
    var s := line + ['\n'] + rest;
    assert ([Line(line)] + calls)[1..] == calls && s[|line| + 1..] == rest;
  }

  lemma {:induction false} ReadsLines(b: string, later: seq<Call>, rest: string)
    requires Reads(later, Tail(b) + rest)
    ensures Reads(AsLines(Lines(b)) + later, b + rest)
    decreases |b|
  {
    HasLineIff(b);
    if '\n' in b {
      var i := FirstNewline(b);
      var line, more := b[..i], b[i + 1..];
      LinesFirst(b, i);
      ReadsLines(more, later, rest);
      ReadsOne(line, AsLines(Lines(more)) + later, more + rest);
      FirstLineOut(b, i, later, rest);
    } else {
      assert AsLines(Lines(b)) + later == later;
    }
  }

  lemma FirstLineOut(b: string, i: nat, later: seq<Call>, rest: string)
    requires i < |b| && b[i] == '\n' && Lines(b) == [b[..i]] + Lines(b[i + 1..])
    ensures AsLines(Lines(b)) + later == [Line(b[..i])] + (AsLines(Lines(b[i + 1..])) + later)
    ensures b + rest == b[..i] + ['\n'] + (b[i + 1..] + rest)
  {
  }

  function FirstNewline(s: string): (i: nat)
    requires '\n' in s
    ensures i < |s| && s[i] == '\n' && '\n' !in s[..i]
  {
    if s[0] == '\n' then 0 else
    var i := 1 + FirstNewline(s[1..]);
    assert s[..i] == [s[0]] + s[1..][..i - 1];
    i
  }

  /** Every call without a newline found carries a prefix of the line that comes next, whatever the
      chunks. */
  lemma {:induction false} CallsReadStream(pending: string, chunks: seq<string>)
    ensures Reads(Deliver(pending, chunks), pending + Concat(chunks))
    decreases |chunks|
  {
    if chunks != [] {
      var b, rest := pending + chunks[0], Concat(chunks[1..]);
      var later := Deliver(Tail(b), chunks[1..]);
      ConcatStep(pending, chunks);
      CallsReadStream(Tail(b), chunks[1..]);
      CallsOfRead(b, later, rest);
    }
  }

  lemma CallsOfRead(b: string, later: seq<Call>, rest: string)
    requires Reads(later, Tail(b) + rest)
    ensures Reads(CallsOf(b) + later, b + rest)
  {
    HasLineIff(b);
    if Lines(b) == [] {
      assert (CallsOf(b) + later)[1..] == later;
    } else {
      ReadsLines(b, later, rest);
    }
  }

  // ---- the loop ----

  /** One turn of the loop: hand over the text before the first newline, or all of it. */
  method HandleFirst(buf: string) returns (call: Call, rest: string)
    ensures '\n' !in buf ==> call == Partial(buf) && rest == buf
    ensures '\n' in buf ==> |rest| < |buf| && call.Line? && buf == call.text + ['\n'] + rest && '\n' !in call.text
  {
    var out, i, newline := "", 0, false;
    while i < |buf| && !newline
      invariant i <= |buf| && out == buf[..i] && '\n' !in out
      invariant newline ==> i < |buf| && buf[i] == '\n'
      decreases |buf| - i, !newline
    {
      if buf[i] == '\n' {
        newline := true;
      } else {
        out := out + [buf[i]];
        i := i + 1;
      }
    }
    if newline {
      call, rest := Line(out), buf[i + 1..];
    } else {
      call, rest := Partial(out), buf;
    }
  }

  /** The calls still to come: the lines in the buffer, then those of the chunks not yet read. */
  function ToCome(buf: string, chunks: seq<string>): seq<Call> {
    AsLines(Lines(buf)) + Deliver(Tail(buf), chunks)
  }

  lemma ReadStep(buf: string, chunks: seq<string>)
    requires '\n' !in buf && chunks != []
    ensures var b := buf + chunks[0];
            ToCome(buf, chunks) == if '\n' in b then ToCome(b, chunks[1..]) else [Partial(b)] + ToCome(b, chunks[1..])
  {
    HasLineIff(buf);
    HasLineIff(buf + chunks[0]);
  }

  lemma LineStep(line: string, rest: string, chunks: seq<string>)
    requires '\n' !in line
    ensures ToCome(line + ['\n'] + rest, chunks) == [Line(line)] + ToCome(rest, chunks)
    ensures Tail(line + ['\n'] + rest) == Tail(rest)
  {
    var s := line + ['\n'] + rest;
    assert s[..|line|] == line && s[|line| + 1..] == rest;
    LinesFirst(s, |line|);
  }

  /** What was pending, with the next chunk, exceeds the buffer limit. */
  predicate TooLong(chunks: seq<string>, i: int) {
    0 <= i < |chunks| && |Tail(Concat(chunks[..i]))| + |chunks[i]| > LIMIT
  }

  /** After `next` chunks: the calls made and those to come are all calls, and the buffer is no longer
      than what was pending with the last chunk. */
  ghost predicate Progress(chunks: seq<string>, calls: seq<Call>, buf: string, next: nat) {
    && next <= |chunks|
    && Deliver("", chunks) == calls + ToCome(buf, chunks[next..])
    && Tail(buf) == Tail(Concat(chunks[..next]))
    && ('\n' in buf ==> Bounded(chunks, buf, next))
  }

  predicate Bounded(chunks: seq<string>, buf: string, next: nat) {
    0 < next <= |chunks| && |buf| <= |Tail(Concat(chunks[..next - 1]))| + |chunks[next - 1]|
  }

  lemma ProgressByReading(chunks: seq<string>, calls: seq<Call>, buf: string, next: nat)
    requires Progress(chunks, calls, buf, next) && '\n' !in buf && next < |chunks|
    ensures var b := buf + chunks[next];
      && Bounded(chunks, b, next + 1)
      && if '\n' in b then Progress(chunks, calls, b, next + 1)
         else Progress(chunks, calls + [Partial(b)], b, next + 1)
  {
    var b := buf + chunks[next];
    ReadChunk(chunks, next);
    ReadStep(buf, chunks[next..]);
    HasLineIff(buf);
    NextCall(calls, Partial(b), ToCome(b, chunks[next + 1..]));
  }

  lemma ProgressByLine(chunks: seq<string>, calls: seq<Call>, line: string, rest: string, next: nat)
    requires Progress(chunks, calls, line + ['\n'] + rest, next) && '\n' !in line
    ensures Progress(chunks, calls + [Line(line)], rest, next)
  {
    LineStep(line, rest, chunks[next..]);
    NextCall(calls, Line(line), ToCome(rest, chunks[next..]));
    assert '\n' in line + ['\n'] + rest;
  }

  lemma NextCall(calls: seq<Call>, call: Call, later: seq<Call>)
    ensures calls + ([call] + later) == (calls + [call]) + later
  {
  }

  lemma ProgressMeans(chunks: seq<string>, calls: seq<Call>, buf: string, next: nat)
    requires Progress(chunks, calls, buf, next)
    ensures calls <= Deliver("", chunks)
    ensures next == |chunks| && '\n' !in buf ==> calls == Deliver("", chunks)
  {
    HasLineIff(buf);
  }

  /** What a buffer holds behind its first line, all of it when there is none. */
  function BehindFirst(b: string): string {
    if '\n' in b then b[FirstNewline(b) + 1..] else b
  }

  /** With the i-th chunk the buffer, its first line taken off, exceeds one mebibyte. */
  predicate Overflows(chunks: seq<string>, i: int) {
    0 <= i < |chunks| && |BehindFirst(Tail(Concat(chunks[..i])) + chunks[i])| > 1024 * 1024
  }

  lemma TailIsItself(s: string, pending: string)
    requires '\n' !in s && Tail(s) == pending
    ensures s == pending
  {
    HasLineIff(s);
  }

  lemma BehindFirstIs(b: string, text: string, rest: string)
    requires b == text + ['\n'] + rest && '\n' !in text
    ensures BehindFirst(b) == rest
  {
    assert b[|text|] == '\n' && b[..|text|] == text;
    var i := FirstNewline(b);
    assert forall j :: 0 <= j < i ==> b[j] in b[..i];
    assert i == |text|;
  }

  lemma {:induction false} DeliverParts(pending: string, before: seq<string>, after: seq<string>)
    requires '\n' !in pending
    ensures Deliver(pending, before + after) == Deliver(pending, before) + Deliver(Tail(pending + Concat(before)), after)
    decreases |before|
  {
    if before == [] {
      assert before + after == after && pending + Concat(before) == pending;
      HasLineIff(pending);
    } else {
      var b := pending + before[0];
      assert (before + after)[1..] == before[1..] + after;
      TailIsFree(b);
      DeliverParts(Tail(b), before[1..], after);
      ConcatStep(pending, before);
      LinesSplit(b, Concat(before[1..]));
    }
  }

  /** The calls made when the i-th chunk overflows: those of the chunks before it, and the first one of its own. */
  ghost predicate StopsAt(chunks: seq<string>, calls: seq<Call>, i: nat) {
    && Overflows(chunks, i) && (forall j :: 0 <= j < i ==> !Overflows(chunks, j))
    && |calls| == |Deliver("", chunks[..i])| + 1 && calls <= Deliver("", chunks)
  }

  /** The calls made before the next chunk is read are those of the chunks read so far. */
  lemma CallsSoFar(chunks: seq<string>, calls: seq<Call>, buf: string, next: nat)
    requires Progress(chunks, calls, buf, next) && '\n' !in buf
    ensures |calls| == |Deliver("", chunks[..next])|
  {
    assert chunks == chunks[..next] + chunks[next..];
    DeliverParts("", chunks[..next], chunks[next..]);
    assert "" + Concat(chunks[..next]) == Concat(chunks[..next]);
    HasLineIff(buf);
  }

  /** doRun while the given chunks arrive, up to the read that blocks. The buffer limit ends the run. */
  method DoRun(chunks: seq<string>) returns (calls: seq<Call>, overflow: bool)
    ensures overflow <==> exists i :: Overflows(chunks, i)
    ensures !overflow ==> calls == Deliver("", chunks)
    ensures overflow ==> calls <= Deliver("", chunks)
    ensures overflow ==> exists i: nat :: StopsAt(chunks, calls, i)
    ensures overflow ==> exists i :: TooLong(chunks, i)
  {
    calls, overflow := [], false;
    var buf, next := "", 0;
    HasLineIff(buf);
    while next < |chunks| || '\n' in buf
      invariant Progress(chunks, calls, buf, next)
      invariant |buf| <= LIMIT && NoOverflowYet(chunks, next)
      decreases |chunks| - next, |buf|
    {
      if '\n' !in buf {
        AfterRead(chunks, calls, buf, next);
        buf := buf + chunks[next];
        next := next + 1;
        assert Bounded(chunks, buf, next);
      }
      var call, rest := HandleFirst(buf);
      if call.Line? {
        ProgressByLine(chunks, calls, call.text, rest, next);
        BehindFirstIs(buf, call.text, rest);
      }
      ghost var read := buf;
      calls, buf := calls + [call], rest;
      if |buf| > LIMIT {
        ProgressMeans(chunks, calls, buf, next);
        OverflowNow(chunks, calls, read, next);
        overflow := true;
        return;
      }
    }
    ProgressMeans(chunks, calls, buf, next);
  }

  ghost predicate NoOverflowYet(chunks: seq<string>, next: nat) {
    forall j :: 0 <= j < next ==> !Overflows(chunks, j)
  }

  /** Reading a chunk: the buffer is what was pending with it, and it overflows exactly if too much is left behind
      its first line. */
  lemma AfterRead(chunks: seq<string>, calls: seq<Call>, buf: string, next: nat)
    requires Progress(chunks, calls, buf, next) && '\n' !in buf && next < |chunks| && NoOverflowYet(chunks, next)
    ensures var b := buf + chunks[next];
      && Bounded(chunks, b, next + 1) && |calls| == |Deliver("", chunks[..next])|
      && b == Tail(Concat(chunks[..next])) + chunks[next]
      && (if '\n' in b then Progress(chunks, calls, b, next + 1)
          else Progress(chunks, calls + [Partial(b)], b, next + 1))
      && (|BehindFirst(b)| <= LIMIT ==> NoOverflowYet(chunks, next + 1))
  {
    CallsSoFar(chunks, calls, buf, next);
    TailIsItself(buf, Tail(Concat(chunks[..next])));
    ProgressByReading(chunks, calls, buf, next);
  }

  lemma OverflowNow(chunks: seq<string>, calls: seq<Call>, b: string, next: nat)
    requires 0 < next <= |chunks| && NoOverflowYet(chunks, next - 1) && calls <= Deliver("", chunks)
    requires |calls| == |Deliver("", chunks[..next - 1])| + 1
    requires b == Tail(Concat(chunks[..next - 1])) + chunks[next - 1] && |BehindFirst(b)| > LIMIT
    ensures StopsAt(chunks, calls, next - 1) && TooLong(chunks, next - 1) && Overflows(chunks, next - 1)
  {
  }

  lemma ReadChunk(chunks: seq<string>, next: nat)
    requires next < |chunks|
    ensures Tail(Concat(chunks[..next + 1])) == Tail(Tail(Concat(chunks[..next])) + chunks[next])
    ensures chunks[next..] == [chunks[next]] + chunks[next + 1..]
  {
    assert chunks[..next + 1] == chunks[..next] + [chunks[next]];
    ConcatAppend(chunks[..next], [chunks[next]]);
    assert Concat([chunks[next]]) == chunks[next];
    LinesSplit(Concat(chunks[..next]), chunks[next]);
  }
}
