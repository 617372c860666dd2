/** The GNOME session manager interface: the object paths of its inhibitors, and its handlers. */
module SessionManager {
  import opened InhibitTypes
  import opened Ids
  import opened Decimal
  import opened HubSpec
  import opened HubObjects
  import opened GnomeFlags
  import opened SimpleDBus
  import Cookies

  // ---- object paths ----

  const PREFIX := "/org/gnome/SessionManager/Inhibitor"

  datatype Parsed = Ok(value: nat) | OutOfRange

  function PathFor(cookie: nat): string {
    PREFIX + ToString(cookie)
  }

  /** The digits behind the last slash. */
  function LastDigits(path: string): (r: string)
    ensures forall c <- r :: IsDigit(c)
  {
    if path == "" then "" else
    var c := path[|path| - 1];
    var before := if c == '/' then "" else LastDigits(path[..|path| - 1]);
    if IsDigit(c) then before + [c] else before
  }

  /** std::stoi refuses what does not fit an int. */
  function PathToCookie(path: string): Parsed {
    var buf := LastDigits(path);
    if buf == "" then Ok(0) else if Value(buf) < INT32 then Ok(Value(buf)) else OutOfRange
  }

  method InhibitorPathToCookie(path: string) returns (cookie: Parsed)
    ensures cookie == PathToCookie(path)
  {
    var buf := "";
    for i := 0 to |path|
      invariant buf == LastDigits(path[..i])
    {
      assert path[..i + 1][..i] == path[..i];
      if path[i] == '/' { buf := ""; }
      if IsDigit(path[i]) { buf := buf + [path[i]]; }
    }
    assert path[..|path|] == path;
    if buf == "" { return Ok(0); }
    cookie := if Value(buf) < INT32 then Ok(Value(buf)) else OutOfRange;
  }

  lemma {:induction false} LastDigitsOfWord(before: string, word: string)
    requires forall c <- word :: !IsDigit(c) && c != '/'
    ensures LastDigits(before + word) == LastDigits(before)
    decreases |word|
  {
    if word == "" {
      assert before + word == before;
    } else {
      var init := word[..|word| - 1];
      assert (before + word)[..|before + word| - 1] == before + init;
      assert word[|word| - 1] in word;
      LastDigitsOfWord(before, init);
    }
  }

  lemma {:induction false} LastDigitsOfNumber(before: string, digits: string)
    requires forall c <- digits :: IsDigit(c)
    ensures LastDigits(before + digits) == LastDigits(before) + digits
    decreases |digits|
  {
    if digits == "" {
      assert before + digits == before;
    } else {
      var init := digits[..|digits| - 1];
      assert (before + digits)[..|before + digits| - 1] == before + init;
      assert digits[|digits| - 1] in digits;
      LastDigitsOfNumber(before, init);
      assert digits == init + [digits[|digits| - 1]];
    }
  }

  lemma NoDigitsInPrefix()
    ensures LastDigits(PREFIX) == ""
  {
    var head, word := "/org/gnome/SessionManager/", "Inhibitor";
    assert PREFIX == head + word;
    LastDigitsOfWord(head, word);
    assert head[|head| - 1] == '/';
  }

  /** The digits of a path are those of its last part, whatever other characters stand between them: what is in
      front of the last slash does not matter. */
  lemma DigitsBehindSlash(before: string, word: string, digits: string, more: string, rest: string)
    requires (forall c <- word :: !('0' <= c <= '9') && c != '/') && (forall c <- more :: !('0' <= c <= '9') && c != '/')
    requires (forall c <- digits :: '0' <= c <= '9') && (forall c <- rest :: '0' <= c <= '9')
    ensures LastDigits(before + "/" + word + digits + more + rest) == digits + rest
    ensures PathToCookie(before + "/" + word + digits + more + rest) ==
      if digits + rest == "" then Ok(0)
      else if Value(digits + rest) < 0x8000_0000 then Ok(Value(digits + rest)) else OutOfRange
  {
    var slash := before + "/";
    assert slash[|slash| - 1] == '/' && LastDigits(slash) == "";
    LastDigitsOfWord(slash, word);
    LastDigitsOfNumber(slash + word, digits);
    LastDigitsOfWord(slash + word + digits, more);
    LastDigitsOfNumber(slash + word + digits + more, rest);
    assert "" + digits == digits;
  }

  /** A printed path leads back to its cookie exactly if the cookie fits an int. */
  lemma PathRoundTrip(cookie: nat)
    ensures PathFor(cookie) == "/org/gnome/SessionManager/Inhibitor" + Digits(cookie)
    ensures PathToCookie(PathFor(cookie)) == if cookie < 0x8000_0000 then Ok(cookie) else OutOfRange
  {
    NoDigitsInPrefix();
    LastDigitsOfNumber(PREFIX, Digits(cookie));
    assert "" + Digits(cookie) == Digits(cookie);
    ValueOfDigits(cookie);
  }

  // ---- looking an inhibit up by its path ----

  datatype Found = Found(id: InhibitID) | NotFound | BadPath

  /** The order of byte vectors, which is the order of the table's keys. */
  predicate Before(a: InhibitID, b: InhibitID) {
    b != "" && (a == "" || a[0] < b[0] || (a[0] == b[0] && Before(a[1..], b[1..])))
  }

  /** One vector is before another if it ends, or has the smaller byte, where they first differ. */
  lemma {:induction false} BeforeIff(a: InhibitID, b: InhibitID)
    ensures Before(a, b) <==>
      exists n :: 0 <= n <= |a| && n < |b| && a[..n] == b[..n] && (n == |a| || a[n] < b[n])
    decreases |a|
  {
    if a != "" && b != "" && a[0] == b[0] {
      var x, y := a[1..], b[1..];
      BeforeIff(x, y);
      if n :| 0 <= n <= |x| && n < |y| && x[..n] == y[..n] && (n == |x| || x[n] < y[n]) {
        assert a[..n + 1] == [a[0]] + x[..n] && b[..n + 1] == [b[0]] + y[..n];
        assert n + 1 == |a| || a[n + 1] < b[n + 1];
      }
      if n :| 0 <= n <= |a| && n < |b| && a[..n] == b[..n] && (n == |a| || a[n] < b[n]) {
        assert n > 0;
        assert x[..n - 1] == a[..n][1..] && y[..n - 1] == b[..n][1..];
        assert n - 1 == |x| || x[n - 1] < y[n - 1];
      }
    } else if a != "" && b != "" {
      assert forall n :: 0 < n <= |a| && n <= |b| ==> a[..n][0] == a[0] && b[..n][0] == b[0];
      if a[0] < b[0] { assert a[..0] == b[..0]; }
    } else if a == "" && b != "" {
      assert a[..0] == b[..0];
    }
  }

  /** The keys of the table as its iterator visits them. */
  ghost predicate InKeyOrder(active: map<InhibitID, Inhibit>, keys: seq<InhibitID>) {
    && (forall id :: id in active <==> id in keys)
    && (forall i, j :: 0 <= i < j < |keys| ==> Before(keys[i], keys[j]))
  }

  /** inhibitFromCookie: the first active inhibit with the cookie in key order, or the exception that there
      is none. */
  method InhibitFromCookie(active: map<InhibitID, Inhibit>, keys: seq<InhibitID>, cookie: nat) returns (r: Found)
    requires InKeyOrder(active, keys)
    ensures r.Found? ==> r.id in active && CookieOf(r.id) == cookie
    ensures r.Found? ==> forall id :: id in active && CookieOf(id) == cookie ==> id == r.id || Before(r.id, id)
    ensures r.NotFound? <==> forall id :: id in active ==> CookieOf(id) != cookie
    ensures !r.BadPath?
  {
    for n := 0 to |keys|
      invariant forall i :: 0 <= i < n ==> CookieOf(keys[i]) != cookie
    {
      if CookieOf(keys[n]) == cookie { return Found(keys[n]); }
    }
    r := NotFound;
  }

  predicate DistinctCookies(active: map<InhibitID, Inhibit>) {
    forall a, b :: a in active && b in active && CookieOf(a) == CookieOf(b) ==> a == b
  }

  /** With distinct active cookies a listed path resolves to the inhibit it was printed for exactly if its
      cookie fits an int; otherwise the query fails. */
  method Resolve(active: map<InhibitID, Inhibit>, keys: seq<InhibitID>, path: string) returns (r: Found)
    requires InKeyOrder(active, keys)
    ensures forall id :: id in active && DistinctCookies(active) && path == PathFor(CookieOf(id)) ==>
      r == if CookieOf(id) < INT32 then Found(id) else BadPath
    ensures PathToCookie(path).OutOfRange? <==> r.BadPath?
  {
    var cookie := InhibitorPathToCookie(path);
    forall id | id in active && path == PathFor(CookieOf(id))
      ensures cookie == if CookieOf(id) < INT32 then Ok(CookieOf(id)) else OutOfRange
    {
      PathRoundTrip(CookieOf(id));
    }
    match cookie {
      case OutOfRange => r := BadPath;
      case Ok(c) => r := InhibitFromCookie(active, keys, c);
    }
  }

  // ---- the interface ----

  class GnomeSessionManagerInterface {
    /** The base-class part: the table of active inhibits and the callbacks. */
    const base: InhibitInterface
    const monitor: bool
    var inhibitOwners: map<string, seq<InhibitID>>
    var lastCookie: nat
    ghost var births: Cookies.Births

    constructor (base: InhibitInterface, monitor: bool)
      ensures this.base == base && this.monitor == monitor
      ensures Own() == Dbus(map[], 0, Cookies.Births(0, map[]))
    {
      this.base, this.monitor := base, monitor;
      inhibitOwners, lastCookie, births := map[], 0, Cookies.Births(0, map[]);
    }

    ghost function Own(): Dbus
      reads this
    {
      Dbus(inhibitOwners, lastCookie, births)
    }

    ghost function Sys(hub: Hub): System
      reads this, hub, hub.inhibitors
    {
      System(base.instanceId, Flagged, monitor, hub.Abs(), Own())
    }

    ghost predicate Valid(hub: Hub)
      reads this, base, hub, hub.inhibitors
    {
      base.PartOf(hub) && lastCookie < WORD32
    }

    /** ++lastCookie, which wraps to 0. */
    method CountCookie(hub: Hub, ghost id: InhibitID)
      requires Valid(hub)
      modifies this`lastCookie, this`births
      ensures Own() == Issue(old(Sys(hub)), id)
    {
      births := Cookies.Issued(births, id);
      lastCookie := if lastCookie + 1 == WORD32 then 0 else lastCookie + 1;
    }

    /** A client's Inhibit; in monitor mode the cookie is the one in the observed reply. */
    method HandleInhibitMsg(hub: Hub, sender: string, appname: string, reason: string, flags: nat, now: nat,
                            monitored: nat, answers: seq<Reply>)
      requires Valid(hub) && ValidMessage(Sys(hub), InhibitMsg(sender, appname, reason, flags, now, monitored, answers))
      modifies this, hub`releasePlan, hub`lastInhibitType, hub.inhibitors
      ensures Valid(hub)
      ensures Sys(hub) == Handle(old(Sys(hub)), InhibitMsg(sender, appname, reason, flags, now, monitored, answers))
    {
      ghost var i := NewInhibit(Sys(hub), InhibitMsg(sender, appname, reason, flags, now, monitored, answers));
      CountCookie(hub, i.id);
      var cookie := if monitor then monitored else lastCookie;
      var ident := Inhibit(GnomeTypeToUs(flags), appname, reason, SenderId(base.instanceId, sender, cookie), now);
      assert ident == i;
      base.RegisterInhibit(hub, ident, answers);
      inhibitOwners := inhibitOwners[sender := OwnersOf(inhibitOwners, sender) + [ident.id]];
    }

    /** A forwarded request; `remote` is what the implementer answers in monitor mode. */
    method DoInhibit(hub: Hub, r: InhibitRequest, remote: Remote, now: nat) returns (reply: Reply)
      requires Valid(hub)
      modifies this`lastCookie, this`births
      ensures Valid(hub)
      ensures (reply, Own()) == SimpleDBus.DoInhibit(old(Sys(hub)), r, remote, now)
    {
      if UsToGnomeType(r.kind) == 0 { return Unsupported; }
      var cookie := 0;
      if monitor {
        match remote {
          case Silent => return NoResponse;
          case Cookie(c) => cookie := c;
          case Null =>
        }
      } else {
        CountCookie(hub, SenderId(base.instanceId, US, NextCookie(Sys(hub))));
        cookie := lastCookie;
      }
      reply := Granted(Inhibit(GnomeTypeToUs(UsToGnomeType(r.kind)), r.appname, r.reason,
                               SenderId(base.instanceId, US, cookie), now));
    }
  }
}
