/** The verdicts the agent draws from one round of probes (internal/health/checker.go). */
module Health {

  datatype Snapshot = Snapshot(
    interfacePresent: bool,
    unitActive: bool,
    overlayReachable: bool,
    handshakeAgeSec: int,
    probesTotal: nat,
    probesFailed: nat)

  /** What a snapshot looks like before anything was probed. */
  const UNPROBED := Snapshot(false, false, false, 0, 0, 0)

  /** The primary has failed when its interface is gone, or when enough probes fail and
      either the handshake is stale or the overlay does not answer. */
  predicate PrimaryFailed(h: Snapshot, probeNeed: nat) {
    var probesBad := h.probesTotal > 0 && (h.probesFailed >= probeNeed || h.probesFailed == h.probesTotal);
    !h.interfacePresent || (probesBad && (h.handshakeAgeSec > 180 || !h.overlayReachable))
  }

  predicate FallbackHealthy(h: Snapshot) {
    h.unitActive && h.interfacePresent && h.overlayReachable && h.probesFailed == 0
  }
}
