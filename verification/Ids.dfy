/** The byte layouts of inhibit ids. A C++ struct is copied into a byte vector, padding zeroed. */
module Ids {
  import opened InhibitTypes

  const SENDER_FIELD: nat := 1024
  const WORD64: nat := 0x1_0000_0000_0000_0000
  const WORD32: nat := 0x1_0000_0000

  function Pow256(width: nat): (p: nat)
    ensures p >= 1
  {
    if width == 0 then 1 else 256 * Pow256(width - 1)
  }

  /** The low `width` bytes of n, least significant first. */
  function LE(n: nat, width: nat): (s: string)
    ensures |s| == width
  {
    if width == 0 then "" else [(n % 256) as char] + LE(n / 256, width - 1)
  }

  function FromLE(s: string): nat {
    if s == "" then 0 else (s[0] as nat) + 256 * FromLE(s[1..])
  }

  lemma {:induction false} LERoundTrip(n: nat, width: nat)
    requires n < Pow256(width)
    ensures FromLE(LE(n, width)) == n
  {
    if width > 0 {
      LERoundTrip(n / 256, width - 1);
      assert LE(n, width)[1..] == LE(n / 256, width - 1);
    }
  }

  lemma WordSizes()
    ensures Pow256(4) == WORD32 && Pow256(8) == WORD64
  {
    assert Pow256(4) == 256 * (256 * (256 * (256 * Pow256(0))));
    assert Pow256(8) == 256 * (256 * (256 * (256 * Pow256(4))));
  }

  function Zeros(n: nat): (s: string)
    ensures |s| == n && forall i :: 0 <= i < n ==> s[i] == '\0'
  {
    seq(n, i => '\0')
  }

  predicate NulFree(s: string) {
    '\0' !in s
  }

  /** The C string that starts a buffer: everything before the first NUL. */
  function CString(s: string): (r: string)
    ensures NulFree(r) && r <= s
    ensures |r| < |s| ==> s[|r|] == '\0'
  {
    if s == "" || s[0] == '\0' then "" else [s[0]] + CString(s[1..])
  }

  lemma {:induction false} CStringOfField(text: string, rest: string)
    requires NulFree(text) && (rest == "" || rest[0] == '\0')
    ensures CString(text + rest) == text
  {
    if text == "" {
      assert text + rest == rest;
    } else {
      assert (text + rest)[1..] == text[1..] + rest;
      CStringOfField(text[1..], rest);
    }
  }

  /** The instance number that leads every id. */
  predicate OwnedBy(id: InhibitID, instance: nat) {
    |id| >= 8 && id[..8] == LE(instance, 8)
  }

  lemma OneOwner(id: InhibitID, j: nat, k: nat)
    requires j < WORD64 && k < WORD64 && OwnedBy(id, j) && OwnedBy(id, k)
    ensures j == k
  {
    WordSizes();
    LERoundTrip(j, 8);
    LERoundTrip(k, 8);
  }

  // ---- D-Bus ids: instance, sender[1024], cookie, four bytes of padding ----

  function Field(text: string): (f: string)
    requires |text| <= SENDER_FIELD
    ensures |f| == SENDER_FIELD
  {
    text + Zeros(SENDER_FIELD - |text|)
  }

  /** mkId of the D-Bus interfaces; a sender that fills the field would be terminated outside of it. */
  function SenderId(instance: nat, sender: string, cookie: nat): (id: InhibitID)
    requires |sender| < SENDER_FIELD
    ensures |id| == 1040
    ensures OwnedBy(id, instance)
  {
    LE(instance, 8) + Field(CString(sender)) + LE(cookie, 4) + Zeros(4)
  }

  function SenderOf(id: InhibitID): string {
    if |id| < 8 then "" else CString(id[8..])
  }

  function CookieOf(id: InhibitID): nat {
    if |id| < 1036 then 0 else FromLE(id[1032..1036])
  }

  /** Every part of a D-Bus id can be read back. */
  lemma SenderIdRoundTrip(instance: nat, sender: string, cookie: nat)
    requires instance < WORD64 && cookie < WORD32 && |sender| < SENDER_FIELD && NulFree(sender)
    ensures var id := SenderId(instance, sender, cookie);
            OwnedBy(id, instance) && SenderOf(id) == sender && CookieOf(id) == cookie
  {
    var id := SenderId(instance, sender, cookie);
    CStringOfField(sender, "");
    assert sender + "" == sender;
    var rest := Zeros(SENDER_FIELD - |sender|) + LE(cookie, 4) + Zeros(4);
    assert id[8..] == sender + rest;
    CStringOfField(sender, rest);
    assert id[1032..1036] == LE(cookie, 4);
    WordSizes();
    LERoundTrip(cookie, 4);
  }

  /** Ids of D-Bus interfaces agree only when instance, sender and cookie do. */
  lemma SenderIdInjective(i: nat, s: string, c: nat, j: nat, t: string, d: nat)
    requires i < WORD64 && c < WORD32 && |s| < SENDER_FIELD && NulFree(s)
    requires j < WORD64 && d < WORD32 && |t| < SENDER_FIELD && NulFree(t)
    ensures SenderId(i, s, c) == SenderId(j, t, d) <==> i == j && s == t && c == d
  {
    SenderIdRoundTrip(i, s, c);
    SenderIdRoundTrip(j, t, d);
    if SenderId(i, s, c) == SenderId(j, t, d) {
      OneOwner(SenderId(i, s, c), i, j);
    }
  }

  // ---- user-command ids: instance, 64-bit cookie ----

  function CommandId(instance: nat, cookie: nat): (id: InhibitID)
    ensures OwnedBy(id, instance)
  {
    LE(instance, 8) + LE(cookie, 8)
  }

  function CommandCookieOf(id: InhibitID): nat {
    if |id| < 8 then 0 else FromLE(id[8..])
  }

  lemma CommandIdRoundTrip(instance: nat, cookie: nat)
    requires instance < WORD64 && cookie < WORD64
    ensures OwnedBy(CommandId(instance, cookie), instance) && CommandCookieOf(CommandId(instance, cookie)) == cookie
  {
    assert CommandId(instance, cookie)[8..] == LE(cookie, 8);
    WordSizes();
    LERoundTrip(cookie, 8);
  }

  lemma CommandIdInjective(i: nat, c: nat, j: nat, d: nat)
    requires i < WORD64 && j < WORD64 && c < WORD64 && d < WORD64
    ensures CommandId(i, c) == CommandId(j, d) <==> i == j && c == d
  {
    CommandIdRoundTrip(i, c);
    CommandIdRoundTrip(j, d);
    if CommandId(i, c) == CommandId(j, d) {
      OneOwner(CommandId(i, c), i, j);
    }
  }

  // ---- kernel lock ids: instance, lockName[1024] ----

  /** The lock name without its spaces. */
  function Strip(name: string): (r: string)
    ensures ' ' !in r && |r| <= |name|
    ensures forall c :: c in r <==> c in name && c != ' '
  {
    if name == "" then ""
    else if name[0] == ' ' then Strip(name[1..])
    else [name[0]] + Strip(name[1..])
  }

  function Clip(name: string): (r: string)
    ensures |r| <= 1023 && r <= name
  {
    if |name| <= 1023 then name else name[..1023]
  }

  /** mkId of the kernel interface. */
  function LockId(instance: nat, name: string): (id: InhibitID)
    ensures OwnedBy(id, instance)
  {
    LE(instance, 8) + Field(Clip(Strip(CString(name))))
  }

  function LockNameOf(id: InhibitID): string {
    if |id| < 8 then "" else CString(id[8..])
  }

  lemma LockNameOfId(instance: nat, name: string)
    ensures LockNameOf(LockId(instance, name)) == Clip(Strip(CString(name)))
  {
    var text := Clip(Strip(CString(name)));
    assert LockId(instance, name)[8..] == text + Zeros(SENDER_FIELD - |text|);
    CStringOfField(text, Zeros(SENDER_FIELD - |text|));
  }
}
