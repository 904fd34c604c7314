/** The failover state machine of one backend (internal/failover/machine.go) and what
    holds over every run of it. */
module Machine {
  import opened Health

  /** `Unset` is the empty string of a record that never had a mode; `Unknown` is any
      string that is none of the four modes. */
  datatype Mode = Unset | WgPrimary | FailbackInProgress | SshPrimary | Degraded | Unknown(name: string)

  datatype Reason =
    | NoReason
    | CountingFailures
    | NoHealthyTransport
    | FailbackDisabled
    | AutomaticFailback
    | FailbackCompleted
    | FailForward
    | FailForwardRefused
    | SshUnhealthy
    | FailforwardIgnored
    | FailForwardFromDegraded
    | RecoveringViaSsh

  datatype TransportState = TransportState(
    nodeId: string,
    backendId: string,
    mode: Mode,
    consecutiveFailures: int,
    primaryHealthy: bool,
    fallbackHealthy: bool,
    lastTransition: int,
    lastReason: Reason,
    updatedAt: int)

  datatype Policy = Policy(
    automaticFailback: bool,
    automaticFailforward: bool,
    failureThreshold: int)

  /** A round's inputs other than the record being advanced. */
  datatype Input = Input(
    policy: Policy,
    primary: Snapshot,
    fallback: Snapshot,
    failForward: bool,
    now: int)
  {
    /** A threshold of zero means the default of three. */
    function Threshold(): (r: int) {
      if policy.failureThreshold == 0 then 3 else policy.failureThreshold
    }

    predicate PrimaryUp() { !PrimaryFailed(primary, 2) }

    predicate FallbackUp() { FallbackHealthy(fallback) }
  }

  datatype Decision = Decision(
    next: TransportState,
    cutoverToSsh: bool,
    cutoverToWg: bool,
    critical: bool)

  function Effective(m: Mode): (r: Mode) {
    if m.Unset? then WgPrimary else m
  }

  /** The mode a round ends in. */
  function NextMode(st: TransportState, i: Input): (r: Mode) {
    match Effective(st.mode)
    case WgPrimary =>
      if i.PrimaryUp() || st.consecutiveFailures + 1 < i.Threshold() then WgPrimary
      else if !i.FallbackUp() then Degraded
      else if !i.policy.automaticFailback then WgPrimary
      else FailbackInProgress
    case FailbackInProgress => if i.FallbackUp() then SshPrimary else Degraded
    case SshPrimary =>
      if i.failForward then (if i.PrimaryUp() then WgPrimary else SshPrimary)
      else if i.FallbackUp() then SshPrimary
      else Degraded
    case Degraded =>
      if i.failForward && i.PrimaryUp() then WgPrimary
      else if i.policy.automaticFailback && !i.PrimaryUp() && i.FallbackUp() then FailbackInProgress
      else Degraded
    case other => other
  }

  /** The failure counter after a round. */
  function NextFailures(st: TransportState, i: Input): (r: int) {
    match Effective(st.mode)
    case WgPrimary => if i.PrimaryUp() then 0 else st.consecutiveFailures + 1
    case FailbackInProgress => if i.FallbackUp() then 0 else st.consecutiveFailures
    case SshPrimary => if NextMode(st, i).WgPrimary? then 0 else st.consecutiveFailures
    case Degraded => if NextMode(st, i).WgPrimary? then 0 else st.consecutiveFailures
    case _ => st.consecutiveFailures
  }

  function NextReason(st: TransportState, i: Input): (r: Reason) {
    match (Effective(st.mode), NextMode(st, i))
    case (WgPrimary, WgPrimary) =>
      if i.PrimaryUp() then st.lastReason
      else if st.consecutiveFailures + 1 < i.Threshold() then CountingFailures
      else FailbackDisabled
    case (WgPrimary, FailbackInProgress) => AutomaticFailback
    case (WgPrimary, _) => NoHealthyTransport
    case (FailbackInProgress, SshPrimary) => FailbackCompleted
    case (FailbackInProgress, _) => NoHealthyTransport
    case (SshPrimary, WgPrimary) => FailForward
    case (SshPrimary, Degraded) => if i.PrimaryUp() then SshUnhealthy else NoHealthyTransport
    case (SshPrimary, _) =>
      if i.failForward then FailForwardRefused
      else if i.policy.automaticFailforward && i.PrimaryUp() then FailforwardIgnored
      else st.lastReason
    case (Degraded, WgPrimary) => FailForwardFromDegraded
    case (Degraded, FailbackInProgress) => RecoveringViaSsh
    case (_, _) => st.lastReason
  }

  /** One round as a value. */
  function Decide(st: TransportState, i: Input): (r: Decision) {
    var before, after := Effective(st.mode), NextMode(st, i);
    var moved := before != after;
    Decision(
      TransportState(st.nodeId, st.backendId, after, NextFailures(st, i), i.PrimaryUp(), i.FallbackUp(),
                     if moved then i.now else st.lastTransition, NextReason(st, i), i.now),
      moved && after.FailbackInProgress?,
      moved && after.WgPrimary?,
      moved && after.Degraded? && (before.SshPrimary? ==> !i.PrimaryUp()))
  }

  /** The round as the agent runs it, one branch at a time over a local record. */
  method Step(current: TransportState, i: Input) returns (d: Decision)
    ensures d == Decide(current, i)
  {
    var st := current;
    if st.mode.Unset? {
      st := st.(mode := WgPrimary);
    }
    st := st.(primaryHealthy := !PrimaryFailed(i.primary, 2),
              fallbackHealthy := FallbackHealthy(i.fallback),
              updatedAt := i.now);
    d := Decision(st, false, false, false);
    match st.mode {
      case WgPrimary =>
        if st.primaryHealthy {
          return d.(next := st.(consecutiveFailures := 0));
        }
        st := st.(consecutiveFailures := st.consecutiveFailures + 1);
        if st.consecutiveFailures < i.Threshold() {
          return d.(next := st.(lastReason := CountingFailures));
        }
        if !st.fallbackHealthy {
          st := st.(mode := Degraded, lastReason := NoHealthyTransport, lastTransition := i.now);
          return d.(next := st, critical := true);
        }
        if !i.policy.automaticFailback {
          return d.(next := st.(lastReason := FailbackDisabled));
        }
        st := st.(mode := FailbackInProgress, lastTransition := i.now, lastReason := AutomaticFailback);
        return d.(next := st, cutoverToSsh := true);
      case FailbackInProgress =>
        if st.fallbackHealthy {
          st := st.(mode := SshPrimary, lastTransition := i.now, lastReason := FailbackCompleted,
                    consecutiveFailures := 0);
          return d.(next := st);
        }
        st := st.(mode := Degraded, lastReason := NoHealthyTransport, lastTransition := i.now);
        return d.(next := st, critical := true);
      case SshPrimary =>
        if i.failForward {
          if st.primaryHealthy {
            st := st.(mode := WgPrimary, lastTransition := i.now, lastReason := FailForward,
                      consecutiveFailures := 0);
            return d.(next := st, cutoverToWg := true);
          }
          return d.(next := st.(lastReason := FailForwardRefused));
        }
        if !st.fallbackHealthy && !st.primaryHealthy {
          st := st.(mode := Degraded, lastReason := NoHealthyTransport, lastTransition := i.now);
          return d.(next := st, critical := true);
        }
        if !st.fallbackHealthy && st.primaryHealthy {
          st := st.(mode := Degraded, lastReason := SshUnhealthy, lastTransition := i.now);
          return d.(next := st);
        }
        if i.policy.automaticFailforward && st.primaryHealthy {
          return d.(next := st.(lastReason := FailforwardIgnored));
        }
        return d.(next := st);
      case Degraded =>
        if i.failForward && st.primaryHealthy {
          st := st.(mode := WgPrimary, lastTransition := i.now, lastReason := FailForwardFromDegraded,
                    consecutiveFailures := 0);
          return d.(next := st, cutoverToWg := true);
        }
        if i.policy.automaticFailback && !st.primaryHealthy && st.fallbackHealthy {
          st := st.(mode := FailbackInProgress, lastTransition := i.now, lastReason := RecoveringViaSsh);
          return d.(next := st, cutoverToSsh := true);
        }
        return d.(next := st);
      case _ =>
        return d;
    }
  }

  // ---------------------------------------------------------------- runs

  /** The record after feeding a whole run of inputs. */
  function After(st: TransportState, run: seq<Input>): (r: TransportState) {
    if run == [] then st
    else Decide(After(st, run[..|run| - 1]), run[|run| - 1]).next
  }

  /** The record a backend has before anything was stored for it. */
  function Fresh(node: string, backend: string): (r: TransportState) {
    TransportState(node, backend, WgPrimary, 0, false, false, 0, NoReason, 0)
  }

  predicate Wg(st: TransportState) { Effective(st.mode).WgPrimary? }

  /** Step k of a run was taken on the WireGuard path with an unhealthy primary. */
  predicate CountedFailure(st: TransportState, run: seq<Input>, k: nat)
    requires k < |run|
  {
    Wg(After(st, run[..k])) && !run[k].PrimaryUp()
  }

  /** n is the length of the longest block of counted failures that ends the run. This says
      what the counter should hold without mentioning the counter. */
  ghost predicate IsStreak(st: TransportState, run: seq<Input>, n: nat) {
    && n <= |run|
    && (forall k | |run| - n <= k < |run| :: CountedFailure(st, run, k))
    && (n < |run| ==> !CountedFailure(st, run, |run| - n - 1))
  }

  lemma AfterSnoc(st: TransportState, run: seq<Input>, i: Input)
    ensures After(st, run + [i]) == Decide(After(st, run), i).next
  {
    assert (run + [i])[..|run|] == run;
  }

  lemma {:induction false} AfterConcat(st: TransportState, a: seq<Input>, b: seq<Input>)
    ensures After(st, a + b) == After(After(st, a), b)
  {
    if b == [] {
      assert a + b == a;
    } else {
      var n := |b| - 1;
      AfterConcat(st, a, b[..n]);
      assert (a + b)[..|a + b| - 1] == a + b[..n] && (a + b)[|a + b| - 1] == b[n];
    }
  }

  /** In every run from a fresh record, whenever the record is on the WireGuard path its
      counter is the number of unhealthy rounds that ended the run there without a healthy
      round or a re-entry in between. */
  lemma {:induction false} CounterCountsTheStreak(node: string, backend: string, run: seq<Input>)
    requires Wg(After(Fresh(node, backend), run))
    ensures After(Fresh(node, backend), run).consecutiveFailures >= 0
    ensures IsStreak(Fresh(node, backend), run, After(Fresh(node, backend), run).consecutiveFailures)
  {
    var st := Fresh(node, backend);
    if run != [] {
      var n := |run| - 1;
      var prev := run[..n];
      if CountedFailure(st, run, n) {
        CounterCountsTheStreak(node, backend, prev);
        var c := After(st, prev).consecutiveFailures;
        forall k | n - c <= k < |run|
          ensures CountedFailure(st, run, k)
        {
          if k < n {
            assert CountedFailure(st, prev, k);
            assert prev[..k] == run[..k];
          }
        }
        if c < n {
          assert !CountedFailure(st, prev, n - c - 1);
          assert prev[..n - c - 1] == run[..n - c - 1];
        }
      }
    }
  }

  /** The WireGuard path is left only when at least the threshold in force has been reached
      by rounds that were, one after the other, unhealthy and on that path. */
  lemma {:induction false} LeavesWgOnlyAfterThreshold(node: string, backend: string, run: seq<Input>, last: Input)
    requires Wg(After(Fresh(node, backend), run))
    requires !Wg(After(Fresh(node, backend), run + [last]))
    ensures var n := After(Fresh(node, backend), run).consecutiveFailures + 1;
            && last.Threshold() <= n <= |run + [last]|
            && forall k | |run + [last]| - n <= k < |run + [last]| ::
                 CountedFailure(Fresh(node, backend), run + [last], k)
  {
    var st := Fresh(node, backend);
    var whole := run + [last];
    AfterSnoc(st, run, last);
    CounterCountsTheStreak(node, backend, run);
    var n := After(st, run).consecutiveFailures;
    forall k | |whole| - (n + 1) <= k < |whole|
      ensures CountedFailure(st, whole, k)
    {
      assert whole[..k] == run[..k];
      if k < |run| {
        assert CountedFailure(st, run, k);
      } else {
        assert run[..k] == run;
      }
    }
  }

  /** Once the WireGuard path is left, the run that comes back to it contains a round with an
      operator's fail-forward and a healthy primary, and that round is the one that returns.
      Nothing here depends on automaticFailforward. */
  lemma {:induction false} WgIsReenteredOnlyByOperator(st: TransportState, run: seq<Input>)
    requires !Wg(st)
    requires Wg(After(st, run))
    ensures exists k :: 0 <= k < |run| && run[k].failForward && run[k].PrimaryUp()
                        && !Wg(After(st, run[..k])) && Wg(After(st, run[..k + 1]))
  {
    var n := |run| - 1;
    var prev := run[..n];
    if Wg(After(st, prev)) {
      WgIsReenteredOnlyByOperator(st, prev);
      var k :| 0 <= k < |prev| && prev[k].failForward && prev[k].PrimaryUp()
               && !Wg(After(st, prev[..k])) && Wg(After(st, prev[..k + 1]));
      assert run[..k] == prev[..k] && run[..k + 1] == prev[..k + 1] && run[k] == prev[k];
    } else {
      assert run[..n + 1] == run;
      assert run[n].failForward && run[n].PrimaryUp();
    }
  }

  /** Whether traffic is kept on the SSH overlay while a mode is stored. */
  predicate OnOverlay(m: Mode) { m.SshPrimary? || m.FailbackInProgress? }

  /** When a round asks for a cutover: to SSH exactly when it enters the overlay, which
      takes automatic failback, a failed primary and a healthy fallback; to WireGuard
      exactly when it comes back; never both. */
  lemma CutoversMatchTheModeChange(st: TransportState, i: Input)
    ensures var d := Decide(st, i);
            && (d.cutoverToSsh <==> !OnOverlay(st.mode) && OnOverlay(d.next.mode))
            && (d.cutoverToSsh ==> i.policy.automaticFailback && !i.PrimaryUp() && i.FallbackUp())
            && (d.cutoverToWg <==> !Wg(st) && Wg(d.next))
            && (d.cutoverToWg ==> i.failForward && i.PrimaryUp())
            && !(d.cutoverToSsh && d.cutoverToWg)
  {
    match Effective(st.mode) {
      case WgPrimary =>
      case FailbackInProgress =>
      case SshPrimary =>
      case Degraded =>
      case Unknown(_) =>
      case Unset =>
    }
  }

  /** A round takes a backend off the SSH overlay without asking for any cutover exactly
      when the fallback is unhealthy and no operator is failing forward. docs/FAILOVER.md
      says that traffic is then not blindly rerouted; the stored mode DEGRADED has the next
      cycle install the backend's own address all the same (Overlay.TargetFollowsStoredMode). */
  lemma SilentReroute(st: TransportState, i: Input)
    requires OnOverlay(st.mode)
    ensures var d := Decide(st, i);
            (!OnOverlay(d.next.mode) && !d.cutoverToSsh && !d.cutoverToWg)
            <==> !i.FallbackUp() && (st.mode.SshPrimary? ==> !i.failForward)
  {
    CutoversMatchTheModeChange(st, i);
  }

  // -------------------------------------------------------- stabilization

  predicate Known(m: Mode) { !m.Unset? && !m.Unknown? }

  /** Every round of the run has a failed primary, a healthy fallback and automatic failback. */
  predicate PrimaryOutage(run: seq<Input>, threshold: nat) { forall i | i in run :: InOutage(i, threshold) }

  predicate InOutage(i: Input, threshold: nat) {
    !i.PrimaryUp() && i.FallbackUp() && i.policy.automaticFailback && i.Threshold() == threshold
  }

  /** Rounds an outage still needs before the record rests in SSH_PRIMARY. */
  function RoundsToSsh(st: TransportState, threshold: nat): (r: nat) {
    match st.mode
    case SshPrimary => 0
    case FailbackInProgress => 1
    case Degraded => 2
    case _ => if st.consecutiveFailures >= threshold then 2 else threshold - st.consecutiveFailures + 1
  }

  lemma {:induction false} OutageProgress(st: TransportState, run: seq<Input>, threshold: nat)
    requires Known(st.mode) && st.consecutiveFailures >= 0 && threshold >= 1
    requires PrimaryOutage(run, threshold)
    ensures var end := After(st, run);
            && Known(end.mode) && end.consecutiveFailures >= 0
            && RoundsToSsh(end, threshold) <= if RoundsToSsh(st, threshold) <= |run| then 0
               else RoundsToSsh(st, threshold) - |run|
  {
    if run != [] {
      var n := |run| - 1;
      OutageProgress(st, run[..n], threshold);
      var mid := After(st, run[..n]);
      var i := run[n];
      assert i in run;
      var next := Decide(mid, i).next;
      assert RoundsToSsh(mid, threshold) == 0 ==> next.mode.SshPrimary?;
      assert RoundsToSsh(mid, threshold) > 0 ==> RoundsToSsh(next, threshold) < RoundsToSsh(mid, threshold);
    }
  }

  /** From any mode, an outage of threshold + 1 rounds or more ends in SSH_PRIMARY, whatever
      fail-forward requests arrive meanwhile. */
  lemma OutageEndsInSsh(st: TransportState, run: seq<Input>, threshold: nat)
    requires Known(st.mode) && st.consecutiveFailures >= 0 && threshold >= 1
    requires PrimaryOutage(run, threshold)
    requires |run| >= threshold + 1
    ensures After(st, run).mode == SshPrimary
  {
    OutageProgress(st, run, threshold);
  }

  /** The bound is tight: from a fresh record, no outage of `threshold` rounds is enough. */
  lemma {:induction false} OutageBoundIsTight(node: string, backend: string, run: seq<Input>, threshold: nat)
    requires threshold >= 1 && |run| <= threshold
    requires PrimaryOutage(run, threshold)
    ensures After(Fresh(node, backend), run).mode
            == if |run| == threshold then FailbackInProgress else WgPrimary
    ensures After(Fresh(node, backend), run).consecutiveFailures == |run|
  {
    if run != [] {
      var n := |run| - 1;
      OutageBoundIsTight(node, backend, run[..n], threshold);
      assert run[n] in run;
    }
  }

  /** With a healthy primary and a standing fail-forward request, two rounds or more end in
      WG_PRIMARY from any mode. */
  lemma {:induction false} FailForwardEndsInWg(st: TransportState, run: seq<Input>)
    requires Known(st.mode)
    requires forall i | i in run :: i.PrimaryUp() && i.failForward
    requires |run| >= 2
    ensures After(st, run).mode == WgPrimary && After(st, run).consecutiveFailures == 0
  {
    var n := |run| - 1;
    assert run[n] in run && run[n - 1] in run;
    if n == 1 {
      assert run[..1][..0] == [] && run[..1][0] == run[0];
      assert After(st, []) == st;
    } else {
      FailForwardEndsInWg(st, run[..n]);
    }
  }
}
