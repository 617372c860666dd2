/** Names of kernel wake locks on their way through the helper, the lock file and the watcher. */
module KernelLocks {
  import opened InhibitTypes
  import opened Ids
  import opened Text
  import opened Framing

  // ---- the helper ----

  /** What the helper writes: a name to the wake_lock or the wake_unlock file, or nothing. */
  datatype Written = Lock(name: string) | Unlock(name: string) | Nothing

  function Decode(msg: string): Written {
    if msg == "" then Nothing
    else
      var clean := Strip(msg);
      if clean != "" && clean[0] == '\t' then Unlock(clean[1..]) else Lock(clean)
  }

  /** The erase-remove of the spaces, then the first character decides. */
  method HandleMsg(msg: string) returns (w: Written)
    ensures w == Decode(msg)
  {
    if |msg| == 0 { return Nothing; }
    var clean := "";
    for i := 0 to |msg|
      invariant clean == Strip(msg[..i])
    {
      assert msg[..i + 1] == msg[..i] + [msg[i]];
      StripAppend(msg[..i], msg[i]);
      if msg[i] != ' ' { clean := clean + [msg[i]]; }
    }
    assert msg[..|msg|] == msg;
    if clean != "" && clean[0] == '\t' {
      w := Unlock(clean[1..]);
    } else {
      w := Lock(clean);
    }
  }

  lemma {:induction false} StripAppend(s: string, c: char)
    ensures Strip(s + [c]) == Strip(s) + if c == ' ' then "" else [c]
  {
    if s == "" {
      assert s + [c] == [c];
    } else {
      assert (s + [c])[1..] == s[1..] + [c];
      StripAppend(s[1..], c);
    }
  }

  lemma {:induction false} StripIdle(s: string)
    requires ' ' !in s
    ensures Strip(s) == s
  {
    if s != "" { StripIdle(s[1..]); }
  }

  lemma {:induction false} CStringIdle(s: string)
    requires NulFree(s)
    ensures CString(s) == s
  {
    if s != "" { CStringIdle(s[1..]); }
  }

  /** The name a request is locked under, before normalisation. */
  function NameFor(appname: string, reason: string): string {
    appname + "-" + reason
  }

  function LockMessage(name: string): string {
    name + "\n"
  }

  function UnlockMessage(name: string): string {
    "\t" + name + "\n"
  }

  /** A name that survives the pipe: one line, and not mistaken for a release. */
  predicate Plain(name: string) {
    NulFree(name) && '\n' !in name && Strip(name) != "" && Strip(name)[0] != '\t'
  }

  lemma OneLine(line: string)
    requires '\n' !in line
    ensures Lines(line + "\n") == [line]
  {
    var s := line + "\n";
    assert s[..|line|] == line && s[|line| + 1..] == "";
    LinesFirst(s, |line|);
  }

  /** The framing delivers both messages of a name as one line each. The helper unlocks the normalised
      name, and locks the same one exactly when the name is not mistaken for a release. */
  lemma HelperAgrees(name: string)
    requires '\n' !in name && Strip(name) != ""
    ensures Lines(LockMessage(name)) == [name] && Lines(UnlockMessage(name)) == ["\t" + name]
    ensures Decode("\t" + name) == Unlock(Strip(name))
    ensures Decode(name) == Lock(Strip(name)) <==> Strip(name)[0] != '\t'
  {
    OneLine(name);
    OneLine("\t" + name);
    assert UnlockMessage(name) == ("\t" + name) + "\n";
    StripTab(name);
    assert name != "";
  }

  /** The helper ignores the empty message and no other; of a message of spaces it makes the empty name. */
  lemma HelperIgnores(msg: string)
    ensures Decode(msg) == Nothing <==> msg == ""
    ensures msg != "" && (forall c <- msg :: c == ' ') ==> Decode(msg) == Lock("")
  {
    if msg != "" && (forall c <- msg :: c == ' ') && Strip(msg) != "" {
      assert Strip(msg)[0] in Strip(msg);
      assert false;
    }
  }

  lemma StripTab(name: string)
    ensures Strip("\t" + name) == ['\t'] + Strip(name)
  {
    assert ("\t" + name)[1..] == name;
  }

  // ---- the lock file and the tokeniser ----

  /** The tokeniser after some characters; `ok` is false once it has extended a token that is not there. */
  datatype Scan = Scan(prev: char, locks: seq<string>, ok: bool)

  function Next(t: Scan, c: char): Scan {
    var locks := if t.prev == ' ' && c != ' ' && c != '\n' then t.locks + [""] else t.locks;
    if c == ' ' || c == '\n' then Scan(c, locks, t.ok)
    else if locks == [] then Scan(c, locks, false)
    else Scan(c, locks[|locks| - 1 := locks[|locks| - 1] + [c]], t.ok)
  }

  function Tokens(s: string): Scan {
    if s == "" then Scan(' ', [], true) else Next(Tokens(s[..|s| - 1]), s[|s| - 1])
  }

  lemma TokensNext(s: string, c: char)
    ensures Tokens(s + [c]) == Next(Tokens(s), c)
  {
    assert (s + [c])[..|s|] == s;
  }

  function NonEmpty(pieces: seq<string>): seq<string> {
    if pieces == [] then [] else
    NonEmpty(pieces[..|pieces| - 1]) + if pieces[|pieces| - 1] == "" then [] else [pieces[|pieces| - 1]]
  }

  lemma NonEmptyLast(init: seq<string>, last: string)
    ensures NonEmpty(init + [last]) == NonEmpty(init) + if last == "" then [] else [last]
  {
    assert (init + [last])[..|init|] == init;
  }

  /** On one line the tokens are the nonempty pieces between spaces, however many spaces there are. */
  lemma {:induction false} TokensOfLine(s: string)
    requires '\n' !in s
    ensures var t, pieces := Tokens(s), Split(s, ' ');
      t.ok && t.locks == NonEmpty(pieces) && (t.prev == ' ' <==> pieces[|pieces| - 1] == "")
  {
    if s == "" {
      assert [""] == [] + [""];
      NonEmptyLast([], "");
    } else {
      var init, c := s[..|s| - 1], s[|s| - 1];
      assert c in s;
      TokensOfLine(init);
      var p := Split(init, ' ');
      var before, last := p[..|p| - 1], p[|p| - 1];
      assert p == before + [last];
      NonEmptyLast(before, last);
      if c == ' ' {
        NonEmptyLast(p, "");
      } else {
        assert p[|p| - 1 := last + [c]] == before + [last + [c]];
        NonEmptyLast(before, last + [c]);
        TokenGrows(Tokens(init), NonEmpty(before), last, c);
      }
    }
  }

  lemma TokenGrows(t: Scan, before: seq<string>, last: string, c: char)
    requires t.ok && t.locks == before + (if last == "" then [] else [last]) && (t.prev == ' ' <==> last == "")
    requires c != ' ' && c != '\n'
    ensures Next(t, c) == Scan(c, before + [last + [c]], true)
  {
    if last == "" {
      assert t.locks == before;
      ScanFirst(t, c);
      assert last + [c] == [c];
    } else {
      ScanMore(t, before, last, c);
    }
  }

  /** A newline ends no token by itself: what directly follows it extends the last one, or is lost when there is
      none. */
  lemma NewlineJoins(s: string, c: char)
    requires c != ' ' && c != '\n'
    ensures Tokens(s + "\n").locks == Tokens(s).locks && Tokens(s + "\n").ok == Tokens(s).ok
    ensures var was, t := Tokens(s).locks, Tokens(s + "\n" + [c]);
      if was == [] then t.locks == [] && !t.ok
      else t.locks == was[..|was| - 1] + [was[|was| - 1] + [c]] && t.ok == Tokens(s).ok
  {
    TokensNext(s, '\n');
    TokensNext(s + "\n", c);
  }

  /** The body of the inner loop. */
  method ScanChar(prev: char, locks: seq<string>, ok: bool, c: char) returns (prevChar: char, names: seq<string>, fine: bool)
    ensures Scan(prevChar, names, fine) == Next(Scan(prev, locks, ok), c)
  {
    names, fine := locks, ok;
    if prev == ' ' && c != ' ' && c != '\n' { names := names + [""]; }
    if c != ' ' && c != '\n' {
      if names == [] {
        fine := false;
      } else {
        names := names[|names| - 1 := names[|names| - 1] + [c]];
      }
    }
    prevChar := c;
  }

  /** The loop over the bytes of one piece. */
  method ScanPiece(buf: string, prev: char, locks: seq<string>, ok: bool, ghost seen: string)
    returns (prevChar: char, names: seq<string>, fine: bool)
    requires Scan(prev, locks, ok) == Tokens(seen)
    ensures Scan(prevChar, names, fine) == Tokens(seen + buf)
  {
    prevChar, names, fine := prev, locks, ok;
    ghost var all := seen;
    for i := 0 to |buf|
      invariant all == seen + buf[..i] && Scan(prevChar, names, fine) == Tokens(all)
    {
      TokensNext(all, buf[i]);
      prevChar, names, fine := ScanChar(prevChar, names, fine, buf[i]);
      all := all + [buf[i]];
      assert buf[..i + 1] == buf[..i] + [buf[i]];
    }
    assert buf[..|buf|] == buf;
  }

  /** The read loop, two bytes at a time or in any other pieces. */
  method Tokenise(chunks: seq<string>) returns (locks: seq<string>, ok: bool)
    ensures var t := Tokens(Concat(chunks)); locks == t.locks && ok == t.ok
  {
    var prevChar := ' ';
    locks, ok := [], true;
    for n := 0 to |chunks|
      invariant Scan(prevChar, locks, ok) == Tokens(Concat(chunks[..n]))
    {
      assert chunks[..n + 1] == chunks[..n] + [chunks[n]];
      ConcatAppend(chunks[..n], [chunks[n]]);
      assert Concat([chunks[n]]) == chunks[n];
      prevChar, locks, ok := ScanPiece(chunks[n], prevChar, locks, ok, Concat(chunks[..n]));
    }
    assert chunks[..|chunks|] == chunks;
  }

  /** A name the kernel can list: nonempty and without separators. */
  predicate Listable(name: string) {
    name != "" && ' ' !in name && '\n' !in name && NulFree(name)
  }

  /** The content of the lock file: every name followed by a space, then a newline. */
  function Listing(names: seq<string>): string {
    if names == [] then "" else Listing(names[..|names| - 1]) + (names[|names| - 1] + " ")
  }

  lemma ScanFirst(t: Scan, c: char)
    requires t.prev == ' ' && c != ' ' && c != '\n'
    ensures Next(t, c) == Scan(c, t.locks + [[c]], t.ok)
  {
    assert "" + [c] == [c];
    assert (t.locks + [""])[|t.locks| := [c]] == t.locks + [[c]];
  }

  lemma ScanMore(t: Scan, before: seq<string>, name: string, c: char)
    requires t.prev != ' ' && t.locks == before + [name] && c != ' ' && c != '\n'
    ensures Next(t, c) == Scan(c, before + [name + [c]], t.ok)
  {
    assert t.locks[|before| := name + [c]] == before + [name + [c]];
  }

  lemma {:induction false} ScanName(s: string, name: string)
    requires Tokens(s).prev == ' ' && name != "" && ' ' !in name && '\n' !in name
    ensures Tokens(s + name) == Scan(name[|name| - 1], Tokens(s).locks + [name], Tokens(s).ok)
    decreases |name|
  {
    var init, c := name[..|name| - 1], name[|name| - 1];
    assert c in name && name == init + [c];
    assert s + name == (s + init) + [c];
    TokensNext(s + init, c);
    if init == "" {
      assert s + init == s;
      ScanFirst(Tokens(s), c);
    } else {
      assert init[|init| - 1] in name;
      ScanName(s, init);
      ScanMore(Tokens(s + init), Tokens(s).locks, init, c);
    }
  }

  lemma ScanEntry(s: string, l: string)
    requires Tokens(s).prev == ' ' && Listable(l)
    ensures Tokens(s + (l + " ")) == Scan(' ', Tokens(s).locks + [l], Tokens(s).ok)
  {
    ScanName(s, l);
    TokensNext(s + l, ' ');
    assert s + (l + " ") == (s + l) + [' '];
  }

  lemma {:induction false} ScanListing(names: seq<string>)
    requires forall l <- names :: Listable(l)
    ensures Tokens(Listing(names)) == Scan(' ', names, true)
    decreases |names|
  {
    if names != [] {
      var init, l := names[..|names| - 1], names[|names| - 1];
      assert l in names && forall x <- init :: x in names;
      ScanListing(init);
      ScanEntry(Listing(init), l);
      assert names == init + [l];
    }
  }

  predicate AllListable(locks: seq<string>) {
    forall l <- locks :: Listable(l)
  }

  /** Whatever a file without NULs holds, the tokeniser makes names of it that can be listed. */
  lemma {:induction false} TokensAreListable(s: string)
    requires NulFree(s)
    ensures AllListable(Tokens(s).locks)
  {
    if s != "" {
      var init, c := s[..|s| - 1], s[|s| - 1];
      TokensAreListable(init);
      assert c in s;
      var t := Tokens(init);
      if t.prev == ' ' && c != ' ' && c != '\n' {
        ScanFirst(t, c);
        assert Listable([c]);
      } else if c != ' ' && c != '\n' && t.locks != [] {
        var l := t.locks[|t.locks| - 1];
        assert l in t.locks && Listable(l) && c != '\0';
        assert forall d :: d in l + [c] <==> d in l || d == c;
        assert Listable(l + [c]);
      }
    }
  }

  /** A message that follows ended ones is the next line. */
  lemma NextLine(sent: string, line: string)
    requires Tail(sent) == "" && '\n' !in line
    ensures Lines(sent + (line + "\n")) == Lines(sent) + [line] && Tail(sent + (line + "\n")) == ""
  {
    LinesSplit(sent, line + "\n");
    OneLine(line);
    assert "" + (line + "\n") == line + "\n";
    LinesExtend(line, '\n');
  }

  /** The tokeniser reads back the names of the lock file, whatever pieces the file is read in. */
  lemma ListingRoundTrip(names: seq<string>, chunks: seq<string>)
    requires (forall l <- names :: Listable(l)) && Concat(chunks) == Listing(names) + "\n"
    ensures Tokens(Concat(chunks)).locks == names && Tokens(Concat(chunks)).ok
  {
    ScanListing(names);
    TokensNext(Listing(names), '\n');
  }

  // ---- agreement of the ids ----

  /** The lock the helper takes for a plain name can be listed by the kernel, and is read back under the
      very id that the interface remembers as its own, whatever the length of the name. */
  lemma EchoHasOurId(k: nat, name: string)
    requires Plain(name)
    ensures Decode(name).Lock? && Listable(Decode(name).name)
    ensures LockId(k, Decode(name).name) == LockId(k, name)
  {
    var clean := Strip(name);
    CStringIdle(name);
    CStringIdle(clean);
    StripIdle(clean);
  }

  /** A name made from fields without tabs, newlines and NULs survives the pipe, whatever their spaces. */
  lemma DashNameIsPlain(appname: string, reason: string)
    requires NulFree(NameFor(appname, reason)) && '\n' !in NameFor(appname, reason) && '\t' !in NameFor(appname, reason)
    ensures Plain(NameFor(appname, reason))
  {
    var name := NameFor(appname, reason);
    assert name[|appname|] == '-' && '-' in name;
    assert '-' in Strip(name) && Strip(name)[0] in Strip(name);
  }

  /** Two requests get the same lock id exactly if their names agree without spaces up to the length of the
      id field: appname and reason do not make an id unique. */
  lemma RequestsCollideIff(k: nat, name: string, other: string)
    requires NulFree(name) && NulFree(other)
    ensures LockId(k, name) == LockId(k, other) <==> Clip(Strip(name)) == Clip(Strip(other))
  {
    CStringIdle(name);
    CStringIdle(other);
    LockNameOfId(k, name);
    LockNameOfId(k, other);
  }

  predicate Canonical(k: nat, id: InhibitID) {
    id == LockId(k, LockNameOf(id))
  }

  lemma LockIdCanonical(k: nat, name: string)
    ensures Canonical(k, LockId(k, name)) && OwnedBy(LockId(k, name), k)
  {
    var text := Clip(Strip(CString(name)));
    LockNameOfId(k, name);
    assert ' ' !in text && NulFree(text);
    LockNameOfShort(k, text);
  }

  lemma LockNameOfShort(k: nat, text: string)
    requires |text| <= 1023 && ' ' !in text && NulFree(text)
    ensures LockNameOf(LockId(k, text)) == text && LockId(k, text) == LE(k, 8) + Field(text)
  {
    CStringIdle(text);
    StripIdle(text);
    LockNameOfId(k, text);
  }

  /** For listable names that fit, comparing names is comparing ids. */
  lemma SameNameSameId(k: nat, id: InhibitID, name: string)
    requires Canonical(k, id) && Listable(name) && |name| <= 1023
    ensures LockNameOf(id) == name <==> id == LockId(k, name)
  {
    LockNameOfShort(k, name);
  }

  /** A longer name never compares equal to the name inside an id, which is cut at 1023 bytes. */
  lemma LongNameNeverEqual(k: nat, id: InhibitID, name: string)
    requires Canonical(k, id) && |name| > 1023
    ensures LockNameOf(id) != name
  {
    LockNameOfId(k, LockNameOf(id));
  }
}
