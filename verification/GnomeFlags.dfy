/** The flag word of the GNOME session manager. */
module GnomeFlags {
  import opened InhibitTypes

  const GNOME_SUSPEND: nat := 4
  const GNOME_SESSIONIDLE: nat := 8

  /** The flag with the given weight is set. */
  predicate HasFlag(flags: nat, weight: nat)
    requires weight > 0
  {
    (flags / weight) % 2 == 1
  }

  function GnomeTypeToUs(flags: nat): InhibitType {
    Flags(HasFlag(flags, GNOME_SESSIONIDLE), HasFlag(flags, GNOME_SUSPEND))
  }

  function UsToGnomeType(t: InhibitType): nat {
    (if t.suspend then GNOME_SUSPEND else 0) + (if t.screensaver then GNOME_SESSIONIDLE else 0)
  }

  lemma BitsOf(flags: nat)
    ensures flags % 16 - flags % 4 == 4 * ((flags / 4) % 2) + 8 * ((flags / 8) % 2)
  {
    var q := flags / 4;
    var h := q / 2;
    assert flags / 8 == h;
    assert flags == 16 * (h / 2) + (8 * (h % 2) + 4 * (q % 2) + flags % 4);
    Low16(flags, h / 2, 8 * (h % 2) + 4 * (q % 2) + flags % 4);
  }

  lemma Low16(n: nat, high: nat, low: nat)
    requires n == 16 * high + low && low < 16
    ensures n % 16 == low
  {
  }

  /** Our types survive the flag word; the flag word keeps its two known flags and loses the others. */
  lemma FlagsRoundTrip(t: InhibitType, flags: nat)
    ensures GnomeTypeToUs(UsToGnomeType(t)) == t
    ensures UsToGnomeType(t) == 0 <==> t == NONE
    ensures UsToGnomeType(GnomeTypeToUs(flags)) == flags % 16 - flags % 4
  {
    BitsOf(flags);
  }
}
