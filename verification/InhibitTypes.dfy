/** The data of an inhibit: its type flags, its identifier and its description. */
module InhibitTypes {

  /** The two-bit flag word of an inhibit: which kinds of idling it prevents. */
  datatype InhibitType = Flags(screensaver: bool, suspend: bool) {
    function Or(that: InhibitType): InhibitType {
      Flags(screensaver || that.screensaver, suspend || that.suspend)
    }

    function And(that: InhibitType): InhibitType {
      Flags(screensaver && that.screensaver, suspend && that.suspend)
    }

    /** Every flag set here is set in `mask`. */
    predicate Within(mask: InhibitType) {
      And(mask) == this
    }
  }

  const NONE := Flags(false, false)
  const SCREENSAVER := Flags(true, false)
  const SUSPEND := Flags(false, true)
  const BOTH := Flags(true, true)

  /** A vector of bytes; each character stands for the byte with its code. */
  type InhibitID = string

  datatype InhibitRequest = InhibitRequest(kind: InhibitType, appname: string, reason: string)

  datatype Inhibit = Inhibit(kind: InhibitType, appname: string, reason: string, id: InhibitID, created: nat)

  /** The union of the types of all inhibits of a table. */
  ghost function OrOf(active: map<InhibitID, Inhibit>): InhibitType {
    Flags(exists id :: id in active && active[id].kind.screensaver,
          exists id :: id in active && active[id].kind.suspend)
  }

  /** The union is the least type that has every flag of every entry. */
  lemma UnionIsLeast(active: map<InhibitID, Inhibit>, t: InhibitType)
    ensures OrOf(active).Within(t) <==>
      forall id :: id in active ==>
        (active[id].kind.screensaver ==> t.screensaver) && (active[id].kind.suspend ==> t.suspend)
  {
    if OrOf(active).Within(t) {
      forall id | id in active
        ensures (active[id].kind.screensaver ==> t.screensaver) && (active[id].kind.suspend ==> t.suspend)
      {
        assert active[id].kind.screensaver ==> OrOf(active).screensaver;
        assert active[id].kind.suspend ==> OrOf(active).suspend;
      }
    }
  }

  /** A new entry adds exactly its flags. */
  lemma OrOfMore(active: map<InhibitID, Inhibit>, i: Inhibit)
    requires i.id !in active
    ensures OrOf(active[i.id := i]) ==
      Flags(OrOf(active).screensaver || i.kind.screensaver, OrOf(active).suspend || i.kind.suspend)
  {
    var more := active[i.id := i];
    assert more[i.id] == i;
    assert forall id :: id in active ==> more[id] == active[id];
  }
}
