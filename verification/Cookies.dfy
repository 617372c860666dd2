/** Wrapping cookie counters. */
module Cookies {

  /** A counter of `word` values that starts at 0. One kind continues a wrap to 0 with 1, the other does not. */
  datatype Counter = SkipsZero(word: nat) | Plain(word: nat)

  predicate Runs(c: Counter) {
    c.word >= 2
  }

  function Next(c: Counter, last: nat): (n: nat)
    requires Runs(c) && last < c.word
    ensures n < c.word && (c.SkipsZero? ==> n > 0)
  {
    if last + 1 < c.word then last + 1 else if c.SkipsZero? then 1 else 0
  }

  /** The n-th cookie handed out. */
  function CookieAt(c: Counter, n: nat): (r: nat)
    requires Runs(c)
    ensures r < c.word && (n > 0 && c.SkipsZero? ==> r > 0)
  {
    if n == 0 then 0 else Next(c, CookieAt(c, n - 1))
  }

  /** How many issues one round takes. */
  function Round(c: Counter): nat
    requires Runs(c)
  {
    if c.SkipsZero? then c.word - 1 else c.word
  }

  lemma {:induction false} CookieLater(c: Counter, m: nat, k: nat)
    requires Runs(c) && m > 0 && k <= Round(c)
    ensures var r := CookieAt(c, m) + k;
            CookieAt(c, m + k) == if r < c.word then r else r - Round(c)
  {
    if k > 0 { CookieLater(c, m, k - 1); }
  }

  /** The first cookies are 1, 2, 3, ...; behind the largest one comes 1 when 0 is skipped, and else 0. */
  lemma {:induction false} FirstRound(c: Counter, n: nat)
    requires Runs(c) && n <= c.word
    ensures CookieAt(c, n) == if n < c.word then n else if c.SkipsZero? then 1 else 0
  {
    if n > 0 { FirstRound(c, n - 1); }
  }

  /** A cookie comes back exactly after a whole round: any word - 1 consecutive cookies of a counter that
      skips 0 are pairwise distinct, any word of a plain one, and no more. */
  lemma CookiesRepeatIff(c: Counter, m: nat, n: nat)
    requires Runs(c) && 0 < m < n <= m + Round(c)
    ensures CookieAt(c, m) == CookieAt(c, n) <==> n - m == Round(c)
  {
    CookieLater(c, m, n - m);
  }

  // ---- fresh ids ----

  /** `issued` counts the cookies handed out, `birth` records at which count an id was made. */
  datatype Births = Births(issued: nat, birth: map<string, nat>)

  function Issued(b: Births, id: string): Births {
    Births(b.issued + 1, b.birth[id := b.issued + 1])
  }

  /** Every active id carries the cookie issued at its birth. How an id carries its cookie is a parameter. */
  ghost predicate Born(active: set<string>, b: Births, c: Counter, cookie: string -> nat)
    requires Runs(c)
  {
    forall id :: id in active ==>
      id in b.birth && 0 < b.birth[id] <= b.issued && cookie(id) == CookieAt(c, b.birth[id])
  }

  /** Fewer cookies than one round have been issued since the oldest active id, the next one included. */
  ghost predicate Window(active: set<string>, b: Births, c: Counter)
    requires Runs(c)
  {
    forall id :: id in active && id in b.birth ==> b.issued + 1 - b.birth[id] < Round(c)
  }

  lemma BornAfterIssue(active: set<string>, now: set<string>, b: Births, c: Counter, cookie: string -> nat, id: string)
    requires Runs(c) && Born(active, b, c, cookie) && now <= active + {id}
    requires cookie(id) == CookieAt(c, b.issued + 1)
    ensures Born(now, Issued(b, id), c, cookie)
  {
  }

  /** While the window lasts, the next cookie is not the cookie of any active id. */
  lemma NextIsFresh(active: set<string>, b: Births, c: Counter, cookie: string -> nat, id: string)
    requires Runs(c) && Born(active, b, c, cookie) && Window(active, b, c)
    requires cookie(id) == CookieAt(c, b.issued + 1)
    ensures id !in active
  {
    if id in active {
      CookiesRepeatIff(c, b.birth[id], b.issued + 1);
    }
  }

  /** The window is what it takes: when a whole round was issued since an active id, the next cookie is its own. */
  lemma NextRepeatsAfterRound(active: set<string>, b: Births, c: Counter, cookie: string -> nat, id: string)
    requires Runs(c) && Born(active, b, c, cookie) && id in active && b.issued + 1 - b.birth[id] == Round(c)
    ensures cookie(id) == CookieAt(c, b.issued + 1)
  {
    CookiesRepeatIff(c, b.birth[id], b.issued + 1);
  }
}
