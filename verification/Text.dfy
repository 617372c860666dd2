/** Splitting text at a separator character. */
module Text {

  /** The pieces of s between the occurrences of sep; always at least one. */
  function Split(s: string, sep: char): (r: seq<string>)
    ensures |r| >= 1
    decreases |s|
  {
    if s == "" then [""] else
    var r, c := Split(s[..|s| - 1], sep), s[|s| - 1];
    if c == sep then r + [""] else r[|r| - 1 := r[|r| - 1] + [c]]
  }

  function Count(s: string, c: char): nat {
    if s == "" then 0 else Count(s[..|s| - 1], c) + if s[|s| - 1] == c then 1 else 0
  }

  lemma {:induction false} SplitCount(s: string, sep: char)
    ensures |Split(s, sep)| == Count(s, sep) + 1
  {
    if s != "" {
      SplitCount(s[..|s| - 1], sep);
    }
  }

  lemma {:induction false} SplitAtSeparator(a: string, b: string, sep: char)
    ensures Split(a + [sep] + b, sep) == Split(a, sep) + Split(b, sep)
    decreases |b|
  {
    var s := a + [sep] + b;
    if b == "" {
      assert s[..|s| - 1] == a;
    } else {
      assert s[..|s| - 1] == a + [sep] + b[..|b| - 1];
      SplitAtSeparator(a, b[..|b| - 1], sep);
    }
  }

  lemma {:induction false} SplitWhole(s: string, sep: char)
    requires sep !in s
    ensures Split(s, sep) == [s]
  {
    if s != "" {
      SplitWhole(s[..|s| - 1], sep);
      assert s == s[..|s| - 1] + [s[|s| - 1]];
    }
  }

  lemma {:induction false} CountAppend(a: string, b: string, c: char)
    ensures Count(a + b, c) == Count(a, c) + Count(b, c)
    decreases |b|
  {
    if b == "" {
      assert a + b == a;
    } else {
      assert (a + b)[..|a + b| - 1] == a + b[..|b| - 1];
      CountAppend(a, b[..|b| - 1], c);
    }
  }

  lemma {:induction false} CountNone(s: string, c: char)
    requires c !in s
    ensures Count(s, c) == 0
  {
    if s != "" { CountNone(s[..|s| - 1], c); }
  }

  /** The splitting loop: a separator opens a new piece, any other character extends the last one. */
  method SplitLoop(s: string, sep: char) returns (pieces: seq<string>)
    ensures pieces == Split(s, sep)
  {
    pieces := [""];
    for i := 0 to |s|
      invariant pieces == Split(s[..i], sep)
    {
      assert s[..i + 1][..i] == s[..i];
      if s[i] == sep {
        pieces := pieces + [""];
      } else {
        pieces := pieces[|pieces| - 1 := pieces[|pieces| - 1] + [s[i]]];
      }
    }
    assert s[..|s|] == s;
  }

  method CountLoop(s: string, c: char) returns (n: nat)
    ensures n == Count(s, c)
  {
    n := 0;
    for i := 0 to |s|
      invariant n == Count(s[..i], c)
    {
      assert s[..i + 1][..i] == s[..i];
      if s[i] == c { n := n + 1; }
    }
    assert s[..|s|] == s;
  }
}
