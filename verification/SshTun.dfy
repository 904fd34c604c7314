/** The SSH tunnel manager (internal/sshtun/manager.go): it inspects and starts a systemd unit
    that brings up a TUN interface. Whether the interface appears is up to the unit. */
module SshTun {
  import opened Model
  import opened HostState
  import W = WireGuard

  class SshManager {
    const host: Host
    const valid: Tunnel -> bool

    constructor (host: Host, valid: Tunnel -> bool)
      ensures this.host == host && this.valid == valid
    {
      this.host, this.valid := host, valid;
    }

    method Discover(t: Tunnel) returns (ok: bool, found: TunnelActual)
      modifies host`calls
      ensures host.calls >= old(host.calls)
      ensures found.kind.SshTun? && found.interfaceName == t.interfaceName && found.listenPort == 0
      ensures ok ==> found.interfacePresent == (t.interfaceName in host.links)
      ensures found.serviceActive ==> t.serviceName in host.active
      ensures QuietBetween(host.faults, old(host.calls), host.calls) ==>
                (ok <==> valid(t)) && (ok ==> found.serviceActive == (t.serviceName in host.active))
    {
      found := TunnelActual(TunnelType.SshTun, t.interfaceName, false, "", 0, false);
      if !valid(t) {
        return false, found;
      }
      var running := host.IsActive(t.serviceName);
      found := found.(serviceActive := running.Done?);
      var shown := host.LinkShow(t.interfaceName);
      if shown.Failed? {
        ok := shown.why.Missing?;
        return;
      }
      var _, addrs := host.AddrShow(t.interfaceName);
      found := found.(interfacePresent := true, localOverlayIp := W.LocalIp(addrs));
      ok := true;
    }

    /** Starts the unit; on success it is active. */
    method Apply(t: Tunnel) returns (ok: bool)
      modifies host`calls, host`active
      ensures host.calls >= old(host.calls)
      ensures old(host.active) <= host.active <= old(host.active) + {t.serviceName}
      ensures ok ==> t.kind.SshTun? && t.serviceName in host.active
      ensures QuietBetween(host.faults, old(host.calls), host.calls) ==> (ok <==> valid(t) && t.kind.SshTun?)
    {
      if !valid(t) || !t.kind.SshTun? {
        return false;
      }
      var started := host.StartUnit(t.serviceName);
      if started.Failed? {
        return false;
      }
      var fine, found := Discover(t);
      ok := fine && found.serviceActive;
    }
  }
}
