/** The WireGuard manager (internal/wireguard/wg.go): it inspects and configures one
    interface at a time and remembers which ones it created. */
module WireGuard {
  import opened Model
  import opened Text
  import opened HostState
  import RuleText
  import R = Reconcile

  /** The field checks of internal/validate that are not spelled out here. */
  datatype Checks = Checks(name: string -> bool, tunnel: Tunnel -> bool, endpoint: string -> bool)

  /** A tunnel the manager accepts. */
  predicate Acceptable(t: Tunnel, checks: Checks) {
    && checks.tunnel(t) && t.kind.WireGuard?
    && t.privateKeyPath != ""
    && checks.name(t.interfaceName)
    && RuleText.Ipv4(t.localOverlayIp)
    && RuleText.Port(t.listenPort)
  }

  /** The part of a CIDR in front of the slash. */
  function StripMask(cidr: string): (r: string) {
    var slash := Index(cidr, "/");
    if slash >= 0 then cidr[..slash] else cidr
  }

  /** The first address of a link, as its listing shows it. */
  function LocalIp(addrs: seq<string>): (r: string) {
    if addrs == [] then "" else StripMask(addrs[0])
  }

  lemma MaskedIp(ip: string)
    requires RuleText.Ipv4(ip)
    ensures LocalIp([ip + "/32"]) == ip && ip != ""
  {
    RuleText.AddressIsClean(ip);
    var cidr := ip + "/32";
    assert At(cidr, "/", |ip|) by {
      assert cidr[|ip|..|ip| + 1] == "/";
    }
    forall j | 0 <= j < |ip| ensures !At(cidr, "/", j) {
      assert cidr[j] == ip[j];
      assert IsDigit(ip[j]) || ip[j] == '.';
    }
    IndexIs(cidr, "/", |ip|);
  }

  /** What a complete inspection reports of an interface. */
  function Seen(links: Links, name: string): (r: TunnelActual) {
    if name !in links then TunnelActual(TunnelType.WireGuard, name, false, "", 0, false)
    else
      var l := links[name];
      TunnelActual(TunnelType.WireGuard, name, true, LocalIp(l.addrs), if l.kind == WIREGUARD then l.listen else 0,
                   false)
  }

  function Misfits(links: Links, name: string): (r: seq<Conflict>) {
    if name in links && links[name].kind != WIREGUARD then [Conflict("NOT_WIREGUARD", name)] else []
  }

  /** The wanted WireGuard interfaces, in order. */
  function Wanted(tunnels: seq<Tunnel>): (r: seq<string>) {
    if tunnels == [] then []
    else
      var n := |tunnels| - 1;
      Wanted(tunnels[..n]) + (if tunnels[n].kind.WireGuard? then [tunnels[n].interfaceName] else [])
  }

  function SeenAll(links: Links, names: seq<string>): (r: seq<TunnelActual>) {
    if names == [] then [] else SeenAll(links, names[..|names| - 1]) + [Seen(links, names[|names| - 1])]
  }

  function MisfitsAmong(links: Links, names: seq<string>): (r: seq<Conflict>) {
    if names == [] then [] else MisfitsAmong(links, names[..|names| - 1]) + Misfits(links, names[|names| - 1])
  }

  /** A report that may lack the address, which is asked for separately. */
  predicate Reports(seen: TunnelActual, a: TunnelActual) {
    a == seen || a == seen.(localOverlayIp := "")
  }

  ghost predicate ReportsAll(links: Links, names: seq<string>, found: seq<TunnelActual>) {
    |found| == |names| && forall i | 0 <= i < |names| :: Reports(Seen(links, names[i]), found[i])
  }

  /** The link carries the tunnel's settings; what the tunnel leaves open is as on `base`. */
  ghost predicate Serves(l: Link, t: Tunnel, base: Link) {
    && LocalIp(l.addrs) == t.localOverlayIp
    && l.kind == base.kind && l.up
    && l.listen == t.listenPort && l.privateKeyPath == t.privateKeyPath
    && if t.publicKey == "" then
         l.peerKey == base.peerKey && l.peerAllowed == base.peerAllowed
         && l.peerEndpoint == base.peerEndpoint && l.peerKeepalive == base.peerKeepalive
       else
         l.peerKey == t.publicKey
         && l.peerAllowed == (if t.allowedIps != "" then t.allowedIps else base.peerAllowed)
         && l.peerEndpoint == (if t.endpoint != "" then t.endpoint else base.peerEndpoint)
         && l.peerKeepalive == (if t.keepalive > 0 then t.keepalive else base.peerKeepalive)
  }

  const FRESH_LINK := Link(WIREGUARD, false, [], 0, "", "", "", "", 0)

  /** Only one link is new or different, and its kind is not. */
  ghost predicate OnlyTouches(links: Links, links': Links, name: string) {
    && links.Keys <= links'.Keys && links'.Keys <= links.Keys + {name}
    && (forall n | n in links && n != name :: links'[n] == links[n])
    && (name in links ==> links'[name].kind == links[name].kind)
  }

  /** The interfaces that were there before a transaction are still there, of the same kind;
      the others are those the record lists, each once. */
  ghost predicate Accounted(before: Links, now: Links, created: seq<string>) {
    && (forall n | n in before :: n in now && now[n].kind == before[n].kind)
    && (forall n :: n in now <==> n in before || n in created)
    && (forall n | n in created :: n !in before)
    && (forall i, j | 0 <= i < j < |created| :: created[i] != created[j])
  }

  class WgManager {
    const host: Host
    const checks: Checks
    var createdIfaces: seq<string>

    constructor (host: Host, checks: Checks)
      ensures this.host == host && this.checks == checks && createdIfaces == []
    {
      this.host, this.checks, createdIfaces := host, checks, [];
    }

    method Inspect(name: string) returns (ok: bool, found: TunnelActual, conflicts: seq<Conflict>)
      modifies host`calls
      ensures host.calls >= old(host.calls)
      ensures ok ==> Reports(Seen(host.links, name), found) && conflicts == Misfits(host.links, name)
      ensures QuietBetween(host.faults, old(host.calls), host.calls) ==> ok && found == Seen(host.links, name)
    {
      ok, found, conflicts := true, TunnelActual(TunnelType.WireGuard, name, false, "", 0, false), [];
      var shown := host.LinkShow(name);
      if shown.Failed? {
        ok := shown.why.Missing?;
        return;
      }
      found := found.(interfacePresent := true);
      var listed, addrs := host.AddrShow(name);
      if listed.Done? {
        found := found.(localOverlayIp := LocalIp(addrs));
      }
      var dumped, listen := host.WgDump(name);
      if dumped.Failed? {
        ok := dumped.why.Missing?;
        if ok {
          conflicts := [Conflict("NOT_WIREGUARD", name)];
        }
        return;
      }
      found := found.(listenPort := listen);
    }

    method Discover(desired: seq<Tunnel>) returns (ok: bool, found: seq<TunnelActual>, conflicts: seq<Conflict>)
      modifies host`calls
      ensures host.calls >= old(host.calls)
      ensures ok ==>
                ReportsAll(host.links, Wanted(desired), found) && conflicts == MisfitsAmong(host.links, Wanted(desired))
      ensures QuietBetween(host.faults, old(host.calls), host.calls) && AllNamed(desired) ==>
                ok && found == SeenAll(host.links, Wanted(desired))
    {
      ok, found, conflicts := true, [], [];
      for i := 0 to |desired|
        invariant ok && host.calls >= old(host.calls)
        invariant ReportsAll(host.links, Wanted(desired[..i]), found)
        invariant conflicts == MisfitsAmong(host.links, Wanted(desired[..i]))
        invariant QuietBetween(host.faults, old(host.calls), host.calls) ==>
                    found == SeenAll(host.links, Wanted(desired[..i]))
      {
        assert desired[..i + 1][..i] == desired[..i];
        ghost var names, name := Wanted(desired[..i]), desired[i].interfaceName;
        if !desired[i].kind.WireGuard? {
          assert names + [] == names;
          continue;
        }
        if !checks.name(desired[i].interfaceName) {
          return false, [], [];
        }
        assert (names + [name])[..|names|] == names;
        var fine, one, odd := Inspect(desired[i].interfaceName);
        if !fine {
          return false, [], [];
        }
        found, conflicts := found + [one], conflicts + odd;
      }
      assert desired[..|desired|] == desired;
    }

    ghost predicate AllNamed(desired: seq<Tunnel>) {
      forall t | t in desired && t.kind.WireGuard? :: checks.name(t.interfaceName)
    }

    /** Creates the interface if it is not there, and notes that it did. */
    method EnsureLink(name: string) returns (ok: bool)
      modifies host`calls, host`links, this`createdIfaces
      ensures host.calls >= old(host.calls)
      ensures OnlyTouches(old(host.links), host.links, name)
      ensures createdIfaces == if name in host.links
              && name !in old(host.links) then old(createdIfaces) + [name] else old(createdIfaces)
      ensures ok ==>
                name in host.links
                && host.links[name] == (if name in old(host.links) then old(host.links)[name] else FRESH_LINK)
      ensures !ok ==> host.links == old(host.links)
      ensures QuietBetween(host.faults, old(host.calls), host.calls) ==> ok
    {
      var shown := host.LinkShow(name);
      if shown.Done? {
        return true;
      }
      var added := host.LinkAdd(name, WIREGUARD);
      if added.Failed? {
        return false;
      }
      createdIfaces := createdIfaces + [name];
      ok := true;
    }

    /** Gives the link the tunnel's address, unless it is seen to have it. */
    method EnsureAddress(t: Tunnel) returns (ok: bool)
      requires t.interfaceName in host.links && RuleText.Ipv4(t.localOverlayIp)
      modifies host`calls, host`links
      ensures host.calls >= old(host.calls)
      ensures OnlyTouches(old(host.links), host.links, t.interfaceName)
      ensures ok ==> LocalIp(host.links[t.interfaceName].addrs) == t.localOverlayIp
                     && host.links[t.interfaceName]
                        == old(host.links)[t.interfaceName].(addrs := host.links[t.interfaceName].addrs)
      ensures QuietBetween(host.faults, old(host.calls), host.calls) ==> ok
    {
      MaskedIp(t.localOverlayIp);
      var listed, addrs := host.AddrShow(t.interfaceName);
      if LocalIp(addrs) != t.localOverlayIp {
        var replaced := host.AddrReplace(t.interfaceName, t.localOverlayIp + "/32");
        if replaced.Failed? {
          return false;
        }
      }
      ok := true;
    }

    method EnsurePeer(t: Tunnel) returns (ok: bool)
      requires t.interfaceName in host.links && t.publicKey != ""
      modifies host`calls, host`links
      ensures host.calls >= old(host.calls)
      ensures OnlyTouches(old(host.links), host.links, t.interfaceName)
      ensures ok ==> host.links[t.interfaceName] == old(host.links)[t.interfaceName].(
                       peerKey := t.publicKey,
                       peerAllowed := if t.allowedIps != "" then t.allowedIps
                           else old(host.links)[t.interfaceName].peerAllowed,
                       peerEndpoint := if t.endpoint != "" then t.endpoint
                           else old(host.links)[t.interfaceName].peerEndpoint,
                       peerKeepalive := if t.keepalive > 0 then t.keepalive
                           else old(host.links)[t.interfaceName].peerKeepalive)
      ensures QuietBetween(host.faults, old(host.calls), host.calls) ==>
                (t.endpoint == "" || checks.endpoint(t.endpoint)) ==> ok
    {
      var endpoint := None;
      if t.endpoint != "" {
        if !checks.endpoint(t.endpoint) {
          return false;
        }
        endpoint := Some(t.endpoint);
      }
      var set' := host.WgSetPeer(t.interfaceName, t.publicKey, if t.allowedIps != "" then Some(t.allowedIps) else None,
                                 endpoint, if t.keepalive > 0 then Some(t.keepalive) else None);
      ok := set'.Done?;
    }

    /** Configures one interface. On success it carries the tunnel's settings; whatever
        happens, no other link is touched and a link that was created is on record. */
    method Apply(t: Tunnel) returns (ok: bool)
      modifies host`calls, host`links, this`createdIfaces
      ensures host.calls >= old(host.calls)
      ensures OnlyTouches(old(host.links), host.links, t.interfaceName)
      ensures createdIfaces == if t.interfaceName in host.links && t.interfaceName !in old(host.links)
                               then old(createdIfaces) + [t.interfaceName] else old(createdIfaces)
      ensures ok ==> Acceptable(t, checks) && t.interfaceName in host.links
      ensures ok ==> Serves(host.links[t.interfaceName], t,
                            if t.interfaceName in old(host.links) then old(host.links)[t.interfaceName] else FRESH_LINK)
      ensures QuietBetween(host.faults, old(host.calls), host.calls) && Acceptable(t, checks) && EndpointFits(t) ==> ok
    {
      if !Acceptable(t, checks) {
        return false;
      }
      ok := EnsureLink(t.interfaceName);
      if !ok {
        return;
      }
      ok := Configure(t);
    }

    ghost predicate EndpointFits(t: Tunnel) {
      t.publicKey == "" || t.endpoint == "" || checks.endpoint(t.endpoint)
    }

    method Configure(t: Tunnel) returns (ok: bool)
      requires t.interfaceName in host.links && RuleText.Ipv4(t.localOverlayIp)
      modifies host`calls, host`links
      ensures host.calls >= old(host.calls)
      ensures OnlyTouches(old(host.links), host.links, t.interfaceName)
      ensures ok ==> Serves(host.links[t.interfaceName], t, old(host.links)[t.interfaceName])
      ensures QuietBetween(host.faults, old(host.calls), host.calls) && EndpointFits(t) ==> ok
    {
      ok := EnsureAddress(t);
      if !ok {
        return;
      }
      var device := host.WgSetDevice(t.interfaceName, t.listenPort, t.privateKeyPath);
      if device.Failed? {
        return false;
      }
      if t.publicKey != "" {
        ok := EnsurePeer(t);
        if !ok {
          return;
        }
      }
      var up := host.LinkUp(t.interfaceName);
      ok := up.Done?;
    }

    /** A link that is not there counts as deleted. */
    method Delete(name: string) returns (ok: bool)
      modifies host`calls, host`links
      ensures host.calls >= old(host.calls)
      ensures host.links == old(host.links) || host.links == old(host.links) - {name}
      ensures ok ==> host.links == old(host.links) - {name}
      ensures QuietBetween(host.faults, old(host.calls), host.calls) && checks.name(name) ==> ok
    {
      if !checks.name(name) {
        return false;
      }
      var gone := host.LinkDelete(name);
      ok := gone.Done? || gone.why.Missing?;
    }

    method BeginTx()
      modifies this`createdIfaces
      ensures createdIfaces == []
    {
      createdIfaces := [];
    }

    method RollbackCreate(name: string) returns (ok: bool)
      modifies host`calls, host`links
      ensures host.calls >= old(host.calls)
      ensures host.links == old(host.links) || host.links == old(host.links) - {name}
      ensures ok ==> host.links == old(host.links) - {name}
      ensures QuietBetween(host.faults, old(host.calls), host.calls) && checks.name(name) ==> ok
    {
      ok := Delete(name);
    }

    /** Deletes every interface on record. No interface that was there before the
        transaction is deleted; and when each deletion succeeds the interfaces are those
        that were there before. */
    method RollbackAll(ghost before: Links) returns (failed: nat)
      requires Accounted(before, host.links, createdIfaces)
      modifies host`calls, host`links
      ensures host.calls >= old(host.calls)
      ensures forall n | n in before :: n in host.links && host.links[n] == old(host.links)[n]
      ensures host.links.Keys <= old(host.links).Keys
      ensures failed == 0 ==> host.links.Keys == before.Keys
      ensures QuietBetween(host.faults, old(host.calls), host.calls) ==>
                (forall n | n in createdIfaces :: checks.name(n)) ==> failed == 0
    {
      failed := 0;
      ghost var was := host.links;
      for i := 0 to |createdIfaces|
        invariant host.calls >= old(host.calls)
        invariant host.links.Keys <= was.Keys && forall n | n in host.links :: host.links[n] == was[n]
        invariant forall n | n in before :: n in host.links
        invariant failed == 0 ==> forall k | 0 <= k < i :: createdIfaces[k] !in host.links
        invariant QuietBetween(host.faults, old(host.calls), host.calls) ==>
                    (forall n | n in createdIfaces :: checks.name(n)) ==> failed == 0
      {
        assert createdIfaces[i] in createdIfaces;
        var ok := RollbackCreate(createdIfaces[i]);
        if !ok {
          failed := failed + 1;
        }
      }
    }
  }

  // ------------------------------------------------------------- properties

  /** What one Apply does to the account of a transaction, failed or not. */
  lemma AccountedAfter(before: Links, now: Links, next: Links, created: seq<string>, name: string)
    requires Accounted(before, now, created) && OnlyTouches(now, next, name)
    ensures Accounted(before, next, if name in next && name !in now then created + [name] else created)
  {
    var created' := if name in next && name !in now then created + [name] else created;
    assert forall n :: n in created' <==> n in created || (n == name && name in next && name !in now);
  }

  /** A link that serves a tunnel is not reported as changed, even when its address could
      not be listed. */
  lemma ServedIsUnchanged(links: Links, t: Tunnel, base: Link, found: TunnelActual)
    requires t.interfaceName in links && Serves(links[t.interfaceName], t, base)
    requires Reports(Seen(links, t.interfaceName), found)
    ensures !R.TunnelChanged(t, found)
  {
  }
}
