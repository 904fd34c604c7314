/** How stored modes turn into addresses (internal/failover/controller.go:194-255). */
module Overlay {
  import opened Model
  import opened Text
  import opened Machine
  import opened FirewallSync
  import FirewallSpec
  import Tables
  import R = Reconcile

  datatype BackendPolicy = BackendPolicy(backendId: string, policy: Policy)

  datatype Intent = Intent(backendId: string, action: string)

  const DEFAULT_POLICY := Policy(true, false, 3)

  /** The first policy for the backend, or the default one. */
  function PolicyFor(policies: seq<BackendPolicy>, backend: string): (r: Policy) {
    if policies == [] then DEFAULT_POLICY
    else if policies[0].backendId == backend then policies[0].policy
    else PolicyFor(policies[1..], backend)
  }

  /** Whether an operator has asked for the backend to be moved forward. */
  predicate HasIntent(intents: seq<Intent>, backend: string) {
    exists i | i in intents :: i.backendId == backend && (i.action == "fail_forward" || i.action == "")
  }

  /** The last tunnel of a type for a backend. */
  function LastTunnel(tunnels: seq<Tunnel>, backend: string, kind: TunnelType): (r: Option<Tunnel>) {
    if tunnels == [] then None
    else
      var t := tunnels[|tunnels| - 1];
      if t.backendId == backend && t.kind == kind then Some(t) else LastTunnel(tunnels[..|tunnels| - 1], backend, kind)
  }

  /** The WireGuard and the SSH tunnel of a backend. */
  method SplitTunnels(desired: DesiredState, backend: string) returns (wg: Option<Tunnel>, ssh: Option<Tunnel>)
    ensures wg == LastTunnel(desired.tunnels, backend, TunnelType.WireGuard)
    ensures ssh == LastTunnel(desired.tunnels, backend, TunnelType.SshTun)
  {
    wg, ssh := None, None;
    for i := 0 to |desired.tunnels|
      invariant wg == LastTunnel(desired.tunnels[..i], backend, TunnelType.WireGuard)
      invariant ssh == LastTunnel(desired.tunnels[..i], backend, TunnelType.SshTun)
    {
      var t := desired.tunnels[i];
      assert desired.tunnels[..i + 1][..i] == desired.tunnels[..i];
      if t.backendId == backend {
        if t.kind.WireGuard? {
          wg := Some(t);
        } else if t.kind.SshTun? {
          ssh := Some(t);
        }
      }
    }
    assert desired.tunnels[..|desired.tunnels|] == desired.tunnels;
  }

  function Readdressed(b: Backend, backend: string, address: string): (r: Backend) {
    if b.id == backend then b.(address := address) else b
  }

  /** The backends with one of them at another address. */
  function RewriteBackends(backends: seq<Backend>, backend: string, address: string): (r: seq<Backend>) {
    seq(|backends|, i requires 0 <= i < |backends| => Readdressed(backends[i], backend, address))
  }

  /** A new desired state; the given one is a value and stays as it is. */
  method RewriteBackendAddr(desired: DesiredState, backend: string, address: string) returns (out: DesiredState)
    ensures out == desired.(backends := RewriteBackends(desired.backends, backend, address))
  {
    var backends := desired.backends;
    for i := 0 to |backends|
      invariant |backends| == |desired.backends|
      invariant forall k | 0 <= k < |backends| ::
                  backends[k] == if k < i then Readdressed(desired.backends[k], backend, address)
                      else desired.backends[k]
    {
      if backends[i].id == backend {
        backends := backends[i := backends[i].(address := address)];
      }
    }
    assert backends == RewriteBackends(desired.backends, backend, address);
    out := desired.(backends := backends);
  }

  /** What one stored entry does to the backends. */
  function OverlayOnce(desired: DesiredState, backends: seq<Backend>, e: TransportState): (r: seq<Backend>) {
    var ssh := LastTunnel(desired.tunnels, e.backendId, TunnelType.SshTun);
    if OnOverlay(e.mode) && ssh.Some? then RewriteBackends(backends, e.backendId, ssh.value.remoteOverlayIp)
        else backends
  }

  function OverlaidBackends(desired: DesiredState, entries: seq<TransportState>): (r: seq<Backend>) {
    if entries == [] then desired.backends
    else OverlayOnce(desired, OverlaidBackends(desired, entries[..|entries| - 1]), entries[|entries| - 1])
  }

  function Overlaid(desired: DesiredState, entries: seq<TransportState>): (r: DesiredState) {
    desired.(backends := OverlaidBackends(desired, entries))
  }

  method ApplyStoredOverlays(desired: DesiredState, entries: seq<TransportState>) returns (out: DesiredState)
    ensures out == Overlaid(desired, entries)
  {
    out := desired;
    for i := 0 to |entries|
      invariant out == Overlaid(desired, entries[..i])
    {
      var e := entries[i];
      assert entries[..i + 1][..i] == entries[..i];
      if !e.mode.SshPrimary? && !e.mode.FailbackInProgress? {
        continue;
      }
      var _, ssh := SplitTunnels(desired, e.backendId);
      if ssh.Some? {
        out := RewriteBackendAddr(out, e.backendId, ssh.value.remoteOverlayIp);
      }
    }
    assert entries[..|entries|] == entries;
  }

  // ------------------------------------------------------------- properties

  /** Some stored entry puts the backend on the overlay. */
  predicate StoredOnOverlay(entries: seq<TransportState>, backend: string) {
    exists e | e in entries :: e.backendId == backend && OnOverlay(e.mode)
  }

  /** Where a backend is reached, given the stored entries. */
  function Routed(desired: DesiredState, entries: seq<TransportState>, b: Backend): (r: Backend) {
    var ssh := LastTunnel(desired.tunnels, b.id, TunnelType.SshTun);
    if StoredOnOverlay(entries, b.id) && ssh.Some? then b.(address := ssh.value.remoteOverlayIp) else b
  }

  /** Each backend is at the overlay address of its SSH tunnel if and only if some stored
      entry of it says so and there is such a tunnel; the order of the entries does not
      matter, and nothing else about the backends changes. */
  lemma {:induction false} OverlayFollowsStoredMode(desired: DesiredState, entries: seq<TransportState>)
    ensures |OverlaidBackends(desired, entries)| == |desired.backends|
    ensures forall i | 0 <= i < |desired.backends| ::
              OverlaidBackends(desired, entries)[i] == Routed(desired, entries, desired.backends[i])
  {
    if entries != [] {
      var n := |entries| - 1;
      OverlayFollowsStoredMode(desired, entries[..n]);
      var before := OverlaidBackends(desired, entries[..n]);
      assert entries == entries[..n] + [entries[n]];
      forall i | 0 <= i < |desired.backends|
        ensures OverlaidBackends(desired, entries)[i] == Routed(desired, entries, desired.backends[i])
      {
        var b := desired.backends[i];
        assert StoredOnOverlay(entries, b.id)
            <==> StoredOnOverlay(entries[..n], b.id) || (entries[n].backendId == b.id && OnOverlay(entries[n].mode));
        assert OverlayOnce(desired, before, entries[n])[i]
            == if OnOverlay(entries[n].mode) && LastTunnel(desired.tunnels, entries[n].backendId,
                                                           TunnelType.SshTun).Some?
               then Readdressed(before[i], entries[n].backendId,
                                LastTunnel(desired.tunnels, entries[n].backendId,
                                           TunnelType.SshTun).value.remoteOverlayIp)
               else before[i];
      }
    }
  }

  lemma OverlayKeepsKeys(desired: DesiredState, entries: seq<TransportState>)
    ensures UniqueKeys(desired.backends, R.BackendId) ==> UniqueKeys(OverlaidBackends(desired, entries), R.BackendId)
  {
    OverlayFollowsStoredMode(desired, entries);
  }

  /** Where a mapping's traffic is to go. */
  function TargetAddress(desired: DesiredState, entries: seq<TransportState>, m: PortMapping, b: Backend): (r: string) {
    Routed(desired, entries, b).address
  }

  lemma OverlaidTable(desired: DesiredState, entries: seq<TransportState>, b: Backend)
    requires UniqueKeys(desired.backends, R.BackendId) && b in desired.backends
    ensures b.id in R.BackendTable(Overlaid(desired, entries))
    ensures R.BackendTable(Overlaid(desired, entries))[b.id] == Routed(desired, entries, b)
  {
    OverlayFollowsStoredMode(desired, entries);
    OverlayKeepsKeys(desired, entries);
    var i :| 0 <= i < |desired.backends| && desired.backends[i] == b;
    ByKeyHolds(OverlaidBackends(desired, entries), R.BackendId, i);
    assert R.BackendId(OverlaidBackends(desired, entries)[i]) == b.id;
  }

  /** Once the host agrees with the overlaid state, the DNAT rule found on it for a mapping
      leads to the SSH tunnel's remote overlay address exactly when the stored mode of the
      mapping's backend is SSH_PRIMARY or FAILBACK_IN_PROGRESS and there is an SSH tunnel, and
      to the backend's own address otherwise. */
  lemma TargetFollowsStoredMode(desired: DesiredState, entries: seq<TransportState>, t: Tables.Chains,
                                actual: ActualState, m: PortMapping, b: Backend)
    requires UniqueKeys(desired.backends, R.BackendId) && UniqueKeys(desired.mappings, R.CommentOf)
    requires m in desired.mappings && b in desired.backends && b.id == m.backendId
    requires R.Agrees(Overlaid(desired, entries), actual)
    requires actual.firewallRules == Listing(t, FirewallSpec.SLOTS, FirewallSpec.CodecOf)
    ensures R.MappingComment(m.id) in Found(t)
    ensures var address := TargetAddress(desired, entries, m, b);
            Found(t)[R.MappingComment(m.id)].spec
            == R.RuleSpec(m.protocol, m.publicPort, if address == "" then m.backendId else address, m.backendPort,
                          R.MappingComment(m.id))
  {
    OverlaidTable(desired, entries, b);
    var k :| 0 <= k < |desired.mappings| && desired.mappings[k] == m;
    ByKeyHolds(desired.mappings, R.CommentOf, k);
    assert R.CommentOf(m) == R.MappingComment(m.id);
  }

  /** A backend is at the same address whether its stored entries put it on the overlay or not:
      it has no SSH tunnel, or that leads to its own address. */
  predicate OverlayIsMoot(desired: DesiredState, b: Backend) {
    var ssh := LastTunnel(desired.tunnels, b.id, TunnelType.SshTun);
    ssh.None? || ssh.value.remoteOverlayIp == b.address
  }

  /** Rewriting the address of one backend leaves every other one at its own address: a cutover
      starts from the plain desired state. That agrees with the stored modes if and only if no
      stored entry puts the other backend on the overlay, or that makes no difference. */
  lemma CutoverForgetsOverlays(desired: DesiredState, entries: seq<TransportState>, moved: string, address: string,
                               i: nat)
    requires i < |desired.backends| && desired.backends[i].id != moved
    ensures |OverlaidBackends(desired, entries)| == |desired.backends|
    ensures RewriteBackends(desired.backends, moved, address)[i] == desired.backends[i]
    ensures RewriteBackends(desired.backends, moved, address)[i] == OverlaidBackends(desired, entries)[i]
            <==> !StoredOnOverlay(entries, desired.backends[i].id) || OverlayIsMoot(desired, desired.backends[i])
  {
    OverlayFollowsStoredMode(desired, entries);
  }

  /** Two lists of entries put a backend at the same address if and only if both put it on the
      overlay, or neither does, or that makes no difference. */
  lemma RoutedAlikeIff(desired: DesiredState, entries: seq<TransportState>, entries': seq<TransportState>, b: Backend)
    ensures Routed(desired, entries, b) == Routed(desired, entries', b)
            <==> (StoredOnOverlay(entries, b.id) <==> StoredOnOverlay(entries', b.id)) || OverlayIsMoot(desired, b)
  {
  }
}
