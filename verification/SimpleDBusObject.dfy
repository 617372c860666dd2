/** The D-Bus interface as an object: its handlers update the owner table and the cookie in place. */
module SimpleDBusObject {
  import opened InhibitTypes
  import opened Ids
  import opened HubSpec
  import opened HubObjects
  import opened SimpleDBus
  import Cookies

  class SimpleDBusInterface {
    /** The base-class part: the table of active inhibits and the callbacks. */
    const base: InhibitInterface
    const inhibitType: InhibitType
    const monitor: bool
    var inhibitOwners: map<string, seq<InhibitID>>
    var lastCookie: nat
    ghost var births: Cookies.Births

    constructor (base: InhibitInterface, inhibitType: InhibitType, monitor: bool)
      ensures this.base == base && this.inhibitType == inhibitType && this.monitor == monitor
      ensures Own() == Dbus(map[], 0, Cookies.Births(0, map[]))
    {
      this.base, this.inhibitType, this.monitor := base, inhibitType, monitor;
      inhibitOwners, lastCookie, births := map[], 0, Cookies.Births(0, map[]);
    }

    ghost function Own(): Dbus
      reads this
    {
      Dbus(inhibitOwners, lastCookie, births)
    }

    /** The whole system seen from this interface. */
    ghost function Sys(hub: Hub): System
      reads this, hub, hub.inhibitors
    {
      System(base.instanceId, Fixed(inhibitType), monitor, hub.Abs(), Own())
    }

    ghost predicate Valid(hub: Hub)
      reads this, base, hub, hub.inhibitors
    {
      base.PartOf(hub) && lastCookie < WORD32
    }

    method CountCookie(hub: Hub, ghost id: InhibitID)
      requires Valid(hub)
      modifies this`lastCookie, this`births
      ensures Own() == Issue(old(Sys(hub)), id)
    {
      births := Cookies.Issued(births, id);
      lastCookie := if lastCookie + 1 == WORD32 then 0 else lastCookie + 1;
      if lastCookie == 0 { lastCookie := 1; }
    }

    /** A client's Inhibit; in monitor mode the cookie is the one in the observed reply. */
    method HandleInhibitMsg(hub: Hub, sender: string, appname: string, reason: string, now: nat,
                            monitored: nat, answers: seq<Reply>)
      requires Valid(hub) && ValidMessage(Sys(hub), InhibitMsg(sender, appname, reason, 0, now, monitored, answers))
      modifies this, hub`releasePlan, hub`lastInhibitType, hub.inhibitors
      ensures Valid(hub)
      ensures Sys(hub) == Handle(old(Sys(hub)), InhibitMsg(sender, appname, reason, 0, now, monitored, answers))
    {
      ghost var i := NewInhibit(Sys(hub), InhibitMsg(sender, appname, reason, 0, now, monitored, answers));
      CountCookie(hub, i.id);
      var cookie := if monitor then monitored else lastCookie;
      var ident := Inhibit(inhibitType, appname, reason, SenderId(base.instanceId, sender, cookie), now);
      assert ident == i;
      base.RegisterInhibit(hub, ident, answers);
      inhibitOwners := inhibitOwners[sender := OwnersOf(inhibitOwners, sender) + [ident.id]];
    }

    method HandleUnInhibitMsg(hub: Hub, sender: string, cookie: nat)
      requires Valid(hub) && ValidMessage(Sys(hub), UnInhibitMsg(sender, cookie))
      modifies this`inhibitOwners, hub`releasePlan, hub`lastInhibitType, hub.inhibitors
      ensures Valid(hub) && Sys(hub) == Handle(old(Sys(hub)), UnInhibitMsg(sender, cookie))
    {
      var id := SenderId(base.instanceId, sender, cookie);
      base.RegisterUnInhibit(hub, id);
      var compacted := RemoveIfInPlace(OwnersOf(inhibitOwners, sender), id);
      inhibitOwners := inhibitOwners[sender := compacted];
    }

    method HandleNameLostMsg(hub: Hub, name: string)
      requires Valid(hub) && ValidMessage(Sys(hub), NameLost(name))
      modifies this`inhibitOwners, hub`releasePlan, hub`lastInhibitType, hub.inhibitors
      ensures Valid(hub) && Sys(hub) == Handle(old(Sys(hub)), NameLost(name))
    {
      var ids := OwnersOf(inhibitOwners, name);
      var k := base.instanceId;
      for n := 0 to |ids|
        invariant Valid(hub) && Own() == old(Own()) && |hub.inhibitors| == old(|hub.inhibitors|)
        invariant Run(hub.Abs(), Unregisters(k, ids[n..])) == Run(old(hub.Abs()), Unregisters(k, ids))
      {
        UnregistersNext(hub.Abs(), k, ids, n);
        base.RegisterUnInhibit(hub, ids[n]);
      }
      inhibitOwners := inhibitOwners[name := []];
    }

    /** A forwarded request; `remote` is what the implementer answers in monitor mode. */
    method DoInhibit(hub: Hub, r: InhibitRequest, remote: Remote, now: nat) returns (reply: Reply)
      requires Valid(hub)
      modifies this`lastCookie, this`births
      ensures Valid(hub)
      ensures (reply, Own()) == SimpleDBus.DoInhibit(old(Sys(hub)), r, remote, now)
    {
      if r.kind.And(inhibitType) == NONE { return Unsupported; }
      var cookie := 0;
      if monitor {
        match remote {
          case Silent => return NoResponse;
          case Cookie(c) => cookie := c;
          case Null =>
        }
      } else {
        CountCookie(hub, SenderId(base.instanceId, US, NextCookie(Sys(hub))));
        cookie := lastCookie;
      }
      reply := Granted(Inhibit(inhibitType, r.appname, r.reason, SenderId(base.instanceId, US, cookie), now));
    }
  }

  lemma UnregistersNext(s: HubState, k: nat, ids: seq<InhibitID>, n: nat)
    requires n < |ids| && k < |s.ifaces|
    ensures Run(s, Unregisters(k, ids[n..])) == Run(Step(s, Unregister(k, ids[n])), Unregisters(k, ids[n + 1..]))
  {
    var es := Unregisters(k, ids[n..]);
    assert es[0] == Unregister(k, ids[n]) && es[1..] == Unregisters(k, ids[n + 1..]);
  }
}
