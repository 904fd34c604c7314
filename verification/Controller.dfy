/** One round of the failover controller (internal/failover/controller.go): bring the host in
    step with the stored modes, advance every backend's record, cut over where a record asks
    for it, and persist the records. */
module Controller {
  import opened Model
  import opened Text
  import opened Health
  import opened Machine
  import opened HostState
  import opened StateFile
  import opened Overlay
  import RuleText
  import FirewallSync
  import E = Engine
  import S = SshTun
  import R = Reconcile

  /** The TCP mappings of a backend. */
  function TcpMappings(mappings: seq<PortMapping>, backend: string): (r: nat) {
    if mappings == [] then 0
    else
      var m := mappings[|mappings| - 1];
      TcpMappings(mappings[..|mappings| - 1], backend)
          + (if m.backendId == backend && m.protocol == "TCP" then 1 else 0)
  }

  /** The backends that have a WireGuard tunnel, in order: the ones a round is about. */
  function Managed(desired: DesiredState, n: nat): (r: seq<Backend>)
    requires n <= |desired.backends|
  {
    if n == 0 then []
    else
      var b := desired.backends[n - 1];
      Managed(desired, n - 1) + (if LastTunnel(desired.tunnels, b.id, TunnelType.WireGuard).Some? then [b] else [])
  }

  /** What a round takes from outside the state file for one backend. */
  ghost predicate Sampled(i: Input, desired: DesiredState, policies: seq<BackendPolicy>, intents: seq<Intent>,
                          backend: string) {
    && i.policy == PolicyFor(policies, backend)
    && i.failForward == HasIntent(intents, backend)
    && (LastTunnel(desired.tunnels, backend, TunnelType.SshTun).None? ==> i.fallback == UNPROBED)
    && i.primary.probesFailed <= i.primary.probesTotal <= TcpMappings(desired.mappings, backend)
    && i.fallback.probesFailed <= i.fallback.probesTotal <= TcpMappings(desired.mappings, backend)
  }

  /** The k-th record a round produces is the machine's step from the record that is stored
      for its backend by then. */
  ghost predicate AdvancesAt(loaded: Entries, out: seq<TransportState>, inputs: seq<Input>, desired: DesiredState,
                             policies: seq<BackendPolicy>, intents: seq<Intent>, backends: seq<Backend>, k: nat)
    requires k < |out| == |inputs| <= |backends|
  {
    && Sampled(inputs[k], desired, policies, intents, backends[k].id)
    && out[k] == Decide(Lookup(PutAll(loaded, out[..k]), desired.nodeId, backends[k].id), inputs[k]).next
  }

  ghost predicate Advances(loaded: Entries, out: seq<TransportState>, inputs: seq<Input>, desired: DesiredState,
                           policies: seq<BackendPolicy>, intents: seq<Intent>, backends: seq<Backend>)
    requires |out| == |inputs| <= |backends|
  {
    forall k | 0 <= k < |out| :: AdvancesAt(loaded, out, inputs, desired, policies, intents, backends, k)
  }

  /** The machine asks for a cutover. */
  predicate Asks(cur: TransportState, i: Input) { Decide(cur, i).cutoverToSsh || Decide(cur, i).cutoverToWg }

  /** The backend whose turn it is asks for a cutover. */
  ghost predicate Asking(loaded: Entries, out: seq<TransportState>, desired: DesiredState,
                         policies: seq<BackendPolicy>, intents: seq<Intent>, backend: string) {
    exists i ::
        Sampled(i, desired, policies, intents, backend) && Asks(Lookup(PutAll(loaded, out), desired.nodeId, backend), i)
  }

  /** A backend that has been moved to an address. */
  datatype Move = Move(backend: string, address: string)

  /** What the step of one backend asks for: a cutover to the remote address of a tunnel, if at
      all. */
  function CutOf(desired: DesiredState, b: Backend, cur: TransportState, i: Input): (r: Option<Move>) {
    var d := Decide(cur, i);
    var wg, ssh := LastTunnel(desired.tunnels, b.id, TunnelType.WireGuard),
        LastTunnel(desired.tunnels, b.id, TunnelType.SshTun);
    if d.cutoverToSsh && ssh.Some? then Some(Move(b.id, ssh.value.remoteOverlayIp))
    else if d.cutoverToWg && wg.Some? then Some(Move(b.id, wg.value.remoteOverlayIp))
    else None
  }

  /** The last cutover among the first n steps of a round. */
  function LastCut(desired: DesiredState, loaded: Entries, out: seq<TransportState>, inputs: seq<Input>,
                   bs: seq<Backend>, n: nat): (r: Option<Move>)
    requires n <= |out| == |inputs| <= |bs|
  {
    if n == 0 then None
    else
      var cut := CutOf(desired, bs[n - 1], Lookup(PutAll(loaded, out[..n - 1]), desired.nodeId, bs[n - 1].id),
                       inputs[n - 1]);
      if cut.Some? then cut else LastCut(desired, loaded, out, inputs, bs, n - 1)
  }

  /** The desired state that is on the host: the stored modes, or, after a cutover, the plain
      one with that backend moved. */
  function WithCut(desired: DesiredState, loaded: Entries, cut: Option<Move>): (r: DesiredState) {
    if cut.None? then Overlaid(desired, loaded)
    else desired.(backends := RewriteBackends(desired.backends, cut.value.backend, cut.value.address))
  }

  /** The desired state that is on the host after a number of steps. */
  function Target(desired: DesiredState, loaded: Entries, out: seq<TransportState>, inputs: seq<Input>,
                  bs: seq<Backend>): (r: DesiredState)
    requires |out| == |inputs| <= |bs|
  {
    WithCut(desired, loaded, LastCut(desired, loaded, out, inputs, bs, |out|))
  }

  lemma {:induction false} LastCutWithin(desired: DesiredState, loaded: Entries, out: seq<TransportState>,
                                         inputs: seq<Input>, bs: seq<Backend>, out': seq<TransportState>,
                                         inputs': seq<Input>, bs': seq<Backend>, n: nat)
    requires n <= |out| == |inputs| <= |bs| && |out'| == |inputs'| <= |bs'| && out <= out' && inputs <= inputs'
             && bs <= bs'
    ensures LastCut(desired, loaded, out', inputs', bs', n) == LastCut(desired, loaded, out, inputs, bs, n)
  {
    if n > 0 {
      assert out'[..n - 1] == out[..n - 1] && bs'[n - 1] == bs[n - 1] && inputs'[n - 1] == inputs[n - 1];
      LastCutWithin(desired, loaded, out, inputs, bs, out', inputs', bs', n - 1);
    }
  }

  lemma TargetOneMore(desired: DesiredState, loaded: Entries, out: seq<TransportState>, inputs: seq<Input>,
                      before: seq<Backend>, b: Backend, next: TransportState, i: Input)
    requires |out| == |inputs| == |before|
    ensures var cut := CutOf(desired, b, Lookup(PutAll(loaded, out), desired.nodeId, b.id), i);
            Target(desired, loaded, out + [next], inputs + [i], before + [b])
            == if cut.Some? then WithCut(desired, loaded, cut) else Target(desired, loaded, out, inputs, before)
  {
    assert (out + [next])[..|out|] == out;
    LastCutWithin(desired, loaded, out, inputs, before, out + [next], inputs + [i], before + [b], |out|);
  }

  lemma ManagedGrows(desired: DesiredState, i: nat)
    requires i < |desired.backends|
    ensures Managed(desired, i) <= Managed(desired, i + 1) <= Managed(desired, |desired.backends|)
    decreases |desired.backends| - i
  {
    if i + 1 < |desired.backends| {
      ManagedGrows(desired, i + 1);
    }
  }

  lemma AdvancesWithin(loaded: Entries, out: seq<TransportState>, inputs: seq<Input>, desired: DesiredState,
                       policies: seq<BackendPolicy>, intents: seq<Intent>, backends: seq<Backend>, more: seq<Backend>)
    requires |out| == |inputs| <= |backends| && backends <= more
    requires Advances(loaded, out, inputs, desired, policies, intents, backends)
    ensures Advances(loaded, out, inputs, desired, policies, intents, more)
  {
    forall k | 0 <= k < |out| ensures AdvancesAt(loaded, out, inputs, desired, policies, intents, more, k) {
      assert AdvancesAt(loaded, out, inputs, desired, policies, intents, backends, k);
    }
  }

  lemma AdvancesOneMore(loaded: Entries, out: seq<TransportState>, inputs: seq<Input>, desired: DesiredState,
                        policies: seq<BackendPolicy>, intents: seq<Intent>, before: seq<Backend>, b: Backend,
                        next: TransportState, i: Input)
    requires |out| == |inputs| == |before| && Advances(loaded, out, inputs, desired, policies, intents, before)
    requires Sampled(i, desired, policies, intents, b.id)
    requires next == Decide(Lookup(PutAll(loaded, out), desired.nodeId, b.id), i).next
    ensures Advances(loaded, out + [next], inputs + [i], desired, policies, intents, before + [b])
  {
    forall k | 0 <= k < |out| + 1
      ensures AdvancesAt(loaded, out + [next], inputs + [i], desired, policies, intents, before + [b], k)
    {
      assert (out + [next])[..k] == out[..k];
      if k < |out| {
        assert AdvancesAt(loaded, out, inputs, desired, policies, intents, before, k);
      } else {
        assert out[..|out|] == out;
      }
    }
  }

  datatype Outcome = LoadFailed | ReconcileFailed | ProbeFailed | CutoverFailed | SaveFailed | Finished

  datatype Scene = Scene(active: set<string>, links: set<string>)

  class FailoverController {
    const host: Host
    const engine: E.ReconcileEngine?
    const ssh: S.SshManager?
    /** Whether the overlay is pinged and backends are dialled. */
    const probes: bool
    const live: bool
    /** The handshake age that is seen at each point of the command sequence. */
    const ages: nat -> int
    /** The records in the state file, if there is one. */
    var stored: Option<Entries>

    constructor (host: Host, engine: E.ReconcileEngine?, ssh: S.SshManager?, probes: bool, live: bool, ages: nat -> int,
                 stored: Option<Entries>)
      requires engine != null ==> engine.host == host && engine.Valid()
      requires ssh != null ==> ssh.host == host
      ensures Valid() && this.stored == stored && this.host == host && this.engine == engine && this.ssh == ssh
      ensures this.probes == probes && this.live == live && this.ages == ages
    {
      this.host, this.engine, this.ssh, this.probes, this.live, this.ages := host, engine, ssh, probes, live, ages;
      this.stored := stored;
    }

    ghost predicate Valid() {
      (engine != null ==> engine.host == host && engine.Valid()) && (ssh != null ==> ssh.host == host)
    }

    /** What a round in which nothing is applied leaves alone. */
    twostate predicate HostStays()
      reads host
    {
      host.tables == old(host.tables) && host.links == old(host.links) && host.files == old(host.files)
          && host.active == old(host.active)
    }

    // ----------------------------------------------------------- state file

    method Load(spare: nat) returns (file: File?)
      modifies host`calls
      ensures file != null ==> fresh(file) && fresh(file.data) && file.Valid()
      ensures file != null ==> file.Contents() == stored.GetOr([]) && file.Room() == spare
      ensures FaultFree(host.faults) ==> file != null
    {
      var fails := host.Fails();
      if fails {
        return null;
      }
      file := new File(stored.GetOr([]), spare);
    }

    /** Writes through a temporary file and a rename: all or nothing. */
    method Save(data: array<TransportState>, len: nat) returns (ok: bool)
      requires len <= data.Length
      modifies host`calls, this`stored
      ensures stored == if ok then Some(data[..len]) else old(stored)
      ensures FaultFree(host.faults) ==> ok
    {
      var fails := host.Fails();
      if fails {
        return false;
      }
      stored := Some(data[..len]);
      ok := true;
    }

    // --------------------------------------------------------------- health

    method Ping(address: string) returns (reached: bool)
      modifies host`calls
      ensures FaultFree(host.faults) && RuleText.Ipv4(Trim(address)) ==> reached
    {
      reached := false;
      if RuleText.Ipv4(Trim(address)) {
        var fails := host.Fails();
        reached := !fails;
      }
    }

    /** Dials every TCP mapping of the backend. */
    method Probe(h: Snapshot, backend: string, mappings: seq<PortMapping>, address: string) returns (h': Snapshot)
      modifies host`calls
      ensures h' == h.(probesTotal := h.probesTotal + TcpMappings(mappings, backend), probesFailed := h'.probesFailed)
      ensures h.probesFailed <= h'.probesFailed <= h.probesFailed + TcpMappings(mappings, backend)
    {
      h' := h;
      for i := 0 to |mappings|
        invariant h' == h.(probesTotal := h.probesTotal + TcpMappings(mappings[..i], backend),
                           probesFailed := h'.probesFailed)
        invariant h.probesFailed <= h'.probesFailed <= h.probesFailed + TcpMappings(mappings[..i], backend)
      {
        var m := mappings[i];
        assert mappings[..i + 1][..i] == mappings[..i];
        if m.backendId != backend || m.protocol != "TCP" {
          continue;
        }
        h' := h'.(probesTotal := h'.probesTotal + 1);
        var ok := false;
        if RuleText.Ipv4(Trim(address)) && RuleText.Port(m.backendPort) {
          var fails := host.Fails();
          ok := !fails;
        }
        if !ok {
          h' := h'.(probesFailed := h'.probesFailed + 1);
        }
      }
      assert mappings[..|mappings|] == mappings;
    }

    method ProbeOver(h: Snapshot, t: Tunnel, backend: string, mappings: seq<PortMapping>) returns (h': Snapshot)
      requires h.probesFailed == h.probesTotal == 0
      modifies host`calls
      ensures h'.probesFailed <= h'.probesTotal <= TcpMappings(mappings, backend)
      ensures h'.interfacePresent == h.interfacePresent && h'.unitActive == h.unitActive
      ensures probes && FaultFree(host.faults) && RuleText.Ipv4(Trim(t.remoteOverlayIp)) ==> h'.overlayReachable
    {
      h' := h;
      if probes {
        var reached := Ping(t.remoteOverlayIp);
        h' := Probe(h'.(overlayReachable := reached), backend, mappings, t.remoteOverlayIp);
      }
    }

    method PrimaryHealth(t: Tunnel, backend: string, mappings: seq<PortMapping>) returns (ok: bool, h: Snapshot)
      requires Valid()
      modifies host`calls
      ensures ok ==> h.probesFailed <= h.probesTotal <= TcpMappings(mappings, backend)
      ensures ok && engine != null && engine.wg != null && t.kind.WireGuard? ==>
                h.interfacePresent == (t.interfaceName in host.links)
      ensures engine == null ==> ok && !h.interfacePresent
    {
      ok, h := true, UNPROBED;
      if engine != null && engine.wg != null {
        var fine, found, _ := engine.wg.Discover([t]);
        if !fine {
          return false, h;
        }
        assert [t][..0] == [];
        if |found| > 0 {
          h := h.(interfacePresent := found[0].interfacePresent, handshakeAgeSec := ages(host.calls));
        }
      }
      h := ProbeOver(h, t, backend, mappings);
    }

    /** What a round finds: the active units and the links. */
    ghost function SceneOf(): (scene: Scene)
      reads host
    {
      Scene(host.active, host.links.Keys)
    }

    /** Nothing keeps the SSH tunnel of a backend without TCP mappings from being healthy. */
    ghost predicate FallbackIsUp(scene: Scene, t: Tunnel, backend: string, mappings: seq<PortMapping>) {
      && probes && FaultFree(host.faults) && ssh != null && ssh.valid(t) && TcpMappings(mappings, backend) == 0
      && t.serviceName in scene.active && t.interfaceName in scene.links && RuleText.Ipv4(Trim(t.remoteOverlayIp))
    }

    method FallbackHealth(t: Tunnel, backend: string, mappings: seq<PortMapping>) returns (ok: bool, h: Snapshot)
      requires Valid()
      modifies host`calls
      ensures ok ==> h.probesFailed <= h.probesTotal <= TcpMappings(mappings, backend)
      ensures ok && FallbackHealthy(h) ==> ssh != null && t.serviceName in host.active && t.interfaceName in host.links
      ensures FaultFree(host.faults) && (ssh != null ==> ssh.valid(t)) ==> ok
      ensures FallbackIsUp(SceneOf(), t, backend, mappings) ==> FallbackHealthy(h)
    {
      ok, h := true, UNPROBED;
      if ssh != null {
        var found;
        ok, found := ssh.Discover(t);
        if !ok {
          return;
        }
        h := h.(interfacePresent := found.interfacePresent, unitActive := found.serviceActive);
      }
      h := ProbeOver(h, t, backend, mappings);
    }

    // -------------------------------------------------------------- cutover

    /** The host agrees with a desired state, as far as a discovery on it could tell. */
    ghost predicate Installed(desired: DesiredState)
      requires engine != null
      reads engine.host
    {
      exists actual: ActualState :: engine.Observed(desired, actual) && R.Agrees(desired, actual)
    }

    /** The same, where there is an engine. */
    ghost predicate OnHost(desired: DesiredState)
      reads if engine == null then {} else {engine.host}
    {
      engine != null ==> Installed(desired)
    }

    /** What agrees with the host still does if nothing on it has changed. */
    twostate lemma StaysOnHost(desired: DesiredState)
      requires Valid() && HostStays() && old(OnHost(desired))
      ensures OnHost(desired)
    {
      if engine != null {
        var actual: ActualState :| old(engine.Observed(desired, actual)) && R.Agrees(desired, actual);
        assert engine.Observed(desired, actual);
      }
    }

    ghost predicate BackupPath(backup: string) {
      engine != null && engine.hp != null ==> backup != engine.hp.path && backup != ""
    }

    /** Brings the host in step with a desired state; if it succeeds the host agrees with it. */
    method Converge(desired: DesiredState, dryRun: bool, backup: string) returns (ok: bool)
      requires Valid() && engine != null && BackupPath(backup)
      modifies host, engine.wg, engine.hp, engine.fw
      ensures ok && !dryRun ==> Installed(desired)
      ensures dryRun ==> HostStays()
      ensures forall n | n in old(host.links) :: n in host.links
    {
      var verdict, res, _, _ := engine.Reconcile(desired, dryRun, backup);
      ok := verdict.NothingToDo? || verdict.Reconciled?;
      if ok && !dryRun {
        assert engine.Observed(desired, res.actual) && R.Agrees(desired, res.actual);
      }
    }

    /** Moves one backend to its other tunnel. On success the host agrees with the desired
        state in which that backend, and no other, is at the tunnel's remote address; and a
        move to SSH has seen the tunnel up. */
    method Cutover(desired: DesiredState, b: Backend, wg: Tunnel, ssh': Option<Tunnel>, dec: Decision, backup: string)
      returns (ok: bool)
      requires Valid() && BackupPath(backup) && (dec.cutoverToSsh || dec.cutoverToWg)
      modifies host, if engine == null then {} else {engine.wg, engine.hp, engine.fw}
      ensures ok ==> engine != null
      ensures ok && dec.cutoverToSsh ==>
                ssh'.Some? && Installed(desired.(backends := RewriteBackends(desired.backends, b.id,
                      ssh'.value.remoteOverlayIp)))
      ensures ok && !dec.cutoverToSsh ==>
                Installed(desired.(backends := RewriteBackends(desired.backends, b.id, wg.remoteOverlayIp)))
    {
      var target: DesiredState;
      if dec.cutoverToSsh {
        if ssh'.None? {
          return false;
        }
        if ssh != null {
          ok := ssh.Apply(ssh'.value);
          if !ok {
            return;
          }
        }
        var fallback;
        ok, fallback := FallbackHealth(ssh'.value, b.id, desired.mappings);
        if !ok || !FallbackHealthy(fallback) {
          return false;
        }
        target := RewriteBackendAddr(desired, b.id, ssh'.value.remoteOverlayIp);
      } else {
        target := RewriteBackendAddr(desired, b.id, wg.remoteOverlayIp);
      }
      if engine == null {
        return false;
      }
      ok := Converge(target, false, backup);
    }

    /** Where the stored modes are installed, the DNAT rule that discovery finds for a mapping
        leads to the SSH tunnel's remote overlay address exactly when a stored record of its
        backend is in SSH_PRIMARY or FAILBACK_IN_PROGRESS and there is such a tunnel. */
    lemma StoredModesAreInstalled(desired: DesiredState, entries: Entries, m: PortMapping, b: Backend)
      requires Valid() && engine != null && engine.fw != null && Installed(Overlaid(desired, entries))
      requires UniqueKeys(desired.backends, R.BackendId) && UniqueKeys(desired.mappings, R.CommentOf)
      requires m in desired.mappings && b in desired.backends && b.id == m.backendId
      ensures R.MappingComment(m.id) in FirewallSync.Found(host.tables)
      ensures var address := TargetAddress(desired, entries, m, b);
              FirewallSync.Found(host.tables)[R.MappingComment(m.id)].spec
              == R.RuleSpec(m.protocol, m.publicPort, if address == "" then m.backendId else address, m.backendPort,
                            R.MappingComment(m.id))
    {
      var actual: ActualState :| engine.Observed(Overlaid(desired, entries), actual)
          && R.Agrees(Overlaid(desired, entries), actual);
      TargetFollowsStoredMode(desired, entries, host.tables, actual, m, b);
    }

    // ---------------------------------------------------------------- round

    /** Without an engine the primary counts as failed; the fallback is up if nothing keeps it
        from being so. */
    ghost predicate Detached(scene: Scene, i: Input, desired: DesiredState, backend: string) {
      var ssh' := LastTunnel(desired.tunnels, backend, TunnelType.SshTun);
      engine == null ==>
        !i.PrimaryUp() && (ssh'.Some? && FallbackIsUp(scene, ssh'.value, backend, desired.mappings) ==> i.FallbackUp())
    }

    /** No command fails, and without an engine nothing else does before a cutover. */
    ghost predicate Reliable(desired: DesiredState) {
      && FaultFree(host.faults) && engine == null
      && forall b :: LastTunnel(desired.tunnels, b, TunnelType.SshTun).Some? && ssh != null ==>
           ssh.valid(LastTunnel(desired.tunnels, b, TunnelType.SshTun).value)
    }

    /** Samples both tunnels of a backend. */
    method Sample(desired: DesiredState, policies: seq<BackendPolicy>, intents: seq<Intent>, backend: string,
                  wg: Tunnel, ssh': Option<Tunnel>, now: int) returns (ok: bool, i: Input)
      requires Valid() && ssh' == LastTunnel(desired.tunnels, backend, TunnelType.SshTun)
      modifies host`calls
      ensures ok ==>
                Sampled(i, desired, policies, intents, backend) && i.now == now
                    && Detached(SceneOf(), i, desired, backend)
      ensures Reliable(desired) ==> ok
    {
      i := Input(PolicyFor(policies, backend), UNPROBED, UNPROBED, HasIntent(intents, backend), now);
      var primary;
      ok, primary := PrimaryHealth(wg, backend, desired.mappings);
      if !ok {
        return;
      }
      i := i.(primary := primary);
      if ssh'.Some? {
        var fallback;
        ok, fallback := FallbackHealth(ssh'.value, backend, desired.mappings);
        i := i.(fallback := fallback);
      }
    }

    /** What a round does about one backend: sample, step, and cut over if asked to. */
    method Advance(desired: DesiredState, policies: seq<BackendPolicy>, intents: seq<Intent>, acting: bool, b: Backend,
                   wg: Tunnel, cur: TransportState, now: int, backup: string)
      returns (outcome: Outcome, next: TransportState, ghost i: Input)
      requires Valid() && BackupPath(backup) && LastTunnel(desired.tunnels, b.id, TunnelType.WireGuard) == Some(wg)
      modifies host, if engine == null then {} else {engine.wg, engine.hp, engine.fw}
      ensures outcome in {ProbeFailed, CutoverFailed, Finished}
      ensures outcome.Finished? ==> Sampled(i, desired, policies, intents, b.id) && next == Decide(cur, i).next
      ensures outcome.CutoverFailed? ==> acting && Sampled(i, desired, policies, intents, b.id) && Asks(cur, i)
      ensures outcome.Finished? ==> Detached(old(SceneOf()), i, desired, b.id) && i.now == now
      ensures engine == null && acting && outcome.Finished? ==> !Asks(cur, i)
      ensures Reliable(desired) ==> !outcome.ProbeFailed?
      ensures !acting ==> HostStays()
      ensures outcome.Finished? && acting && Asks(cur, i) ==>
                engine != null && CutOf(desired, b, cur, i).Some?
                    && Installed(WithCut(desired, [], CutOf(desired, b, cur, i)))
      ensures outcome.Finished? && CutOf(desired, b, cur, i).None? ==> HostStays()
    {
      next := cur;
      var _, ssh' := SplitTunnels(desired, b.id);
      var ok, input := Sample(desired, policies, intents, b.id, wg, ssh', now);
      i := input;
      if !ok {
        return ProbeFailed, next, i;
      }
      var dec := Step(cur, input);
      next := dec.next;
      CutoversMatchTheModeChange(cur, input);
      if acting && (dec.cutoverToSsh || dec.cutoverToWg) {
        ok := Cutover(desired, b, wg, ssh', dec, backup);
        if !ok {
          return CutoverFailed, next, i;
        }
      }
      outcome := Finished;
    }

    /** The opening reconciliation: the stored modes are applied to the desired state first. */
    method Open(desired: DesiredState, loaded: Entries, acting: bool, backup: string) returns (ok: bool)
      requires Valid() && BackupPath(backup)
      modifies host, if engine == null then {} else {engine.wg, engine.hp, engine.fw}
      ensures !acting ==> HostStays()
      ensures ok && acting && engine != null ==> Installed(Overlaid(desired, loaded))
      ensures engine == null ==> ok && HostStays()
    {
      var eff := ApplyStoredOverlays(desired, loaded);
      ok := true;
      if engine != null {
        ok := Converge(eff, !acting, backup);
      }
    }

    /** The file in memory, and the copy of its header taken when it was loaded. */
    ghost predicate Holds(file: File, prev: array<TransportState>, prevLen: nat, c: Copied)
      reads file, file.data, prev
    {
      && file.Valid() && prevLen <= prev.Length && prevLen == |c.view| <= file.len
      && file.Contents() == c.entries && file.Room() == c.room
      && (file.data == prev <==> c.shared)
      && prev[..prevLen] == c.view
    }

    method PutNext(file: File, ghost prev: array<TransportState>, ghost prevLen: nat, next: TransportState,
                   ghost c: Copied)
      requires Holds(file, prev, prevLen, c)
      modifies file, file.data
      ensures Holds(file, prev, prevLen, Put1(c, next))
      ensures file.data == old(file.data) || fresh(file.data)
    {
      ghost var was := prev[..prevLen];
      file.Put(next);
      ghost var c' := Put1(c, next);
      assert prev[..prevLen] == c'.view;
    }

    /** The round so far: the records of the first i backends are in the file. */
    ghost predicate SoFar(file: File, prev: array<TransportState>, prevLen: nat, loaded: Entries, spare: nat,
                          out: seq<TransportState>, inputs: seq<Input>, desired: DesiredState,
                          policies: seq<BackendPolicy>, intents: seq<Intent>, i: nat)
      reads file, file.data, prev
    {
      && i <= |desired.backends| && Holds(file, prev, prevLen, Puts(loaded, spare, out))
      && |out| == |inputs| == |Managed(desired, i)|
      && Advances(loaded, out, inputs, desired, policies, intents, Managed(desired, i))
    }

    /** Puts the record of the next managed backend. */
    method PutStep(file: File, ghost prev: array<TransportState>, ghost prevLen: nat, ghost loaded: Entries,
                   ghost spare: nat, ghost out: seq<TransportState>, ghost inputs: seq<Input>,
                   ghost desired: DesiredState, ghost policies: seq<BackendPolicy>, ghost intents: seq<Intent>,
                   ghost i: nat, next: TransportState, ghost input: Input)
      requires SoFar(file, prev, prevLen, loaded, spare, out, inputs, desired, policies, intents, i)
               && i < |desired.backends|
      requires Managed(desired, i + 1) == Managed(desired, i) + [desired.backends[i]]
      requires Advances(loaded, out + [next], inputs + [input], desired, policies, intents, Managed(desired, i + 1))
      modifies file, file.data
      ensures SoFar(file, prev, prevLen, loaded, spare, out + [next], inputs + [input], desired, policies, intents,
                    i + 1)
      ensures file.data == old(file.data) || fresh(file.data)
    {
      assert (out + [next])[..|out|] == out;
      PutNext(file, prev, prevLen, next, Puts(loaded, spare, out));
    }

    /** Advances a backend whose record is the one stored by then. */
    method Record(desired: DesiredState, policies: seq<BackendPolicy>, intents: seq<Intent>, acting: bool, b: Backend,
                  wg: Tunnel, cur: TransportState, now: int, backup: string,
                  ghost loaded: Entries, ghost out: seq<TransportState>, ghost inputs: seq<Input>,
                  ghost before: seq<Backend>)
      returns (outcome: Outcome, next: TransportState, ghost i: Input)
      requires Valid() && BackupPath(backup)
      requires |out| == |inputs| == |before| && Advances(loaded, out, inputs, desired, policies, intents, before)
      requires cur == Lookup(PutAll(loaded, out), desired.nodeId, b.id)
      requires LastTunnel(desired.tunnels, b.id, TunnelType.WireGuard) == Some(wg)
      requires acting ==> OnHost(Target(desired, loaded, out, inputs, before))
      modifies host, if engine == null then {} else {engine.wg, engine.hp, engine.fw}
      ensures outcome.ProbeFailed? || outcome.CutoverFailed? || outcome.Finished?
      ensures outcome.Finished? ==> Advances(loaded, out + [next], inputs + [i], desired, policies, intents,
                                             before + [b])
      ensures outcome.Finished? && acting ==> OnHost(Target(desired, loaded, out + [next], inputs + [i], before + [b]))
      ensures outcome.CutoverFailed? ==> acting && Sampled(i, desired, policies, intents, b.id) && Asks(cur, i)
      ensures outcome.Finished? ==> Detached(old(SceneOf()), i, desired, b.id) && i.now == now
      ensures engine == null && acting && outcome.Finished? ==> !Asks(cur, i) && HostStays()
      ensures Reliable(desired) ==> !outcome.ProbeFailed?
      ensures !acting ==> HostStays()
    {
      outcome, next, i := Advance(desired, policies, intents, acting, b, wg, cur, now, backup);
      if outcome.Finished? {
        AdvancesOneMore(loaded, out, inputs, desired, policies, intents, before, b, next, i);
        TargetOneMore(desired, loaded, out, inputs, before, b, next, i);
        if acting && CutOf(desired, b, cur, i).None? {
          StaysOnHost(Target(desired, loaded, out, inputs, before));
        }
      }
    }

    /** Without an engine, no step so far has asked for a cutover, if it was to be carried out. */
    ghost predicate Unaided(scene: Scene, loaded: Entries, out: seq<TransportState>, inputs: seq<Input>,
                            desired: DesiredState, bs: seq<Backend>, acting: bool)
      requires |out| == |inputs| <= |bs|
    {
      engine == null ==>
          forall k | 0 <= k < |out| :: UnaidedAt(scene, loaded, out[..k], inputs[k], desired, bs[k].id, acting)
    }

    ghost predicate UnaidedAt(scene: Scene, loaded: Entries, before: seq<TransportState>, i: Input,
                              desired: DesiredState, backend: string, acting: bool) {
      && Detached(scene, i, desired, backend)
      && (acting ==> !Asks(Lookup(PutAll(loaded, before), desired.nodeId, backend), i))
    }

    lemma UnaidedOneMore(scene: Scene, out: seq<TransportState>, out': seq<TransportState>, inputs: seq<Input>,
                         inputs': seq<Input>, loaded: Entries, desired: DesiredState, i: nat, acting: bool)
      requires i < |desired.backends| && |out| == |inputs| == |Managed(desired, i)|
               && |out'| == |inputs'| <= |Managed(desired, i + 1)|
      requires Managed(desired, i) <= Managed(desired, i + 1)
      requires Unaided(scene, loaded, out, inputs, desired, Managed(desired, i), acting)
      requires if out' == out then inputs' == inputs
               else |out'| == |out| + 1 && out < out' && inputs < inputs'
                    && Managed(desired, i + 1) == Managed(desired, i) + [desired.backends[i]]
                    && UnaidedAt(scene, loaded, out, inputs'[|out|], desired, desired.backends[i].id, acting)
      requires engine == null
      ensures Unaided(scene, loaded, out', inputs', desired, Managed(desired, i + 1), acting)
    {
      forall k | 0 <= k < |out'|
        ensures UnaidedAt(scene, loaded, out'[..k], inputs'[k], desired, Managed(desired, i + 1)[k].id, acting)
      {
        if k < |out| {
          assert out'[..k] == out[..k];
          assert UnaidedAt(scene, loaded, out[..k], inputs[k], desired, Managed(desired, i)[k].id, acting);
        } else {
          assert out'[..k] == out;
        }
      }
    }

    /** The part of a round that is about the i-th backend; nothing, if it has no WireGuard
        tunnel. */
    method Turn(file: File, ghost prev: array<TransportState>, ghost prevLen: nat, ghost loaded: Entries,
                ghost spare: nat, out: seq<TransportState>, ghost inputs: seq<Input>, desired: DesiredState,
                policies: seq<BackendPolicy>, intents: seq<Intent>, i: nat, acting: bool, now: int, backup: string)
      returns (outcome: Outcome, out': seq<TransportState>, ghost inputs': seq<Input>)
      requires Valid() && BackupPath(backup) && i < |desired.backends|
      requires SoFar(file, prev, prevLen, loaded, spare, out, inputs, desired, policies, intents, i)
      requires acting ==> OnHost(Target(desired, loaded, out, inputs, Managed(desired, i)))
      modifies host, file, file.data, if engine == null then {} else {engine.wg, engine.hp, engine.fw}
      ensures outcome.ProbeFailed? || outcome.CutoverFailed? || outcome.Finished?
      ensures SoFar(file, prev, prevLen, loaded, spare, out', inputs', desired, policies, intents,
                    if outcome.Finished? then i + 1 else i)
      ensures outcome.Finished? && acting ==> OnHost(Target(desired, loaded, out', inputs', Managed(desired, i + 1)))
      ensures !outcome.Finished? ==> |Managed(desired, i)| < |Managed(desired, i + 1)|
      ensures file.data == old(file.data) || fresh(file.data)
      ensures outcome.CutoverFailed? ==>
                acting && Asking(loaded, out', desired, policies, intents, desired.backends[i].id)
                && Managed(desired, i + 1) == Managed(desired, i) + [desired.backends[i]]
      ensures outcome.Finished? && engine == null ==> HostStays()
      ensures outcome.Finished? && engine == null && out' != out ==>
                && |out'| == |out| + 1 && out < out' && inputs < inputs'
                   && Managed(desired, i + 1) == Managed(desired, i) + [desired.backends[i]]
                && UnaidedAt(old(SceneOf()), loaded, out, inputs'[|out|], desired, desired.backends[i].id, acting)
      ensures out' == out ==> inputs' == inputs
      ensures !outcome.Finished? ==> out' == out
      ensures Reliable(desired) ==> !outcome.ProbeFailed?
      ensures !acting ==> HostStays()
    {
      out', inputs' := out, inputs;
      var b := desired.backends[i];
      var wg, _ := SplitTunnels(desired, b.id);
      if wg.None? {
        assert Managed(desired, i + 1) == Managed(desired, i);
        return Finished, out', inputs';
      }
      PutsArePutAll(loaded, spare, out);
      var cur := file.Get(desired.nodeId, b.id);
      var step, next, input := Record(desired, policies, intents, acting, b, wg.value, cur, now, backup,
                                      loaded, out, inputs, Managed(desired, i));
      if !step.Finished? {
        return step, out', inputs';
      }
      PutStep(file, prev, prevLen, loaded, spare, out, inputs, desired, policies, intents, i, next, input);
      return Finished, out + [next], inputs + [input];
    }

    /** The first i turns have been taken. */
    ghost predicate Taken(file: File, prev: array<TransportState>, prevLen: nat, loaded: Entries, spare: nat,
                          out: seq<TransportState>, inputs: seq<Input>, desired: DesiredState,
                          policies: seq<BackendPolicy>, intents: seq<Intent>, i: nat, acting: bool, scene: Scene)
      reads file, file.data, prev, host, if engine == null then {} else {engine.host}
    {
      && SoFar(file, prev, prevLen, loaded, spare, out, inputs, desired, policies, intents, i)
      && Managed(desired, i) <= Managed(desired, |desired.backends|)
      && (acting ==> OnHost(Target(desired, loaded, out, inputs, Managed(desired, i))))
      && Unaided(scene, loaded, out, inputs, desired, Managed(desired, i), acting)
      && (engine == null ==> SceneOf() == scene)
    }

    method NextTurn(file: File, ghost prev: array<TransportState>, ghost prevLen: nat, ghost loaded: Entries,
                    ghost spare: nat, out: seq<TransportState>, ghost inputs: seq<Input>, desired: DesiredState,
                    policies: seq<BackendPolicy>, intents: seq<Intent>, i: nat, acting: bool, now: int, backup: string,
                    ghost scene: Scene)
      returns (outcome: Outcome, out': seq<TransportState>, ghost inputs': seq<Input>)
      requires Valid() && BackupPath(backup) && i < |desired.backends|
      requires Taken(file, prev, prevLen, loaded, spare, out, inputs, desired, policies, intents, i, acting, scene)
      modifies host, file, file.data, if engine == null then {} else {engine.wg, engine.hp, engine.fw}
      ensures outcome.ProbeFailed? || outcome.CutoverFailed? || outcome.Finished?
      ensures outcome.Finished? ==>
                Taken(file, prev, prevLen, loaded, spare, out', inputs', desired, policies, intents, i + 1, acting,
                      scene)
      ensures !outcome.Finished? ==>
                && out' == out && inputs' == inputs && |out| < |Managed(desired, |desired.backends|)|
                && SoFar(file, prev, prevLen, loaded, spare, out, inputs, desired, policies, intents, i)
      ensures outcome.CutoverFailed? ==>
                acting && Asking(loaded, out, desired, policies, intents,
                                 Managed(desired, |desired.backends|)[|out|].id)
      ensures Reliable(desired) ==> !outcome.ProbeFailed?
      ensures file.data == old(file.data) || fresh(file.data)
      ensures !acting ==> HostStays()
    {
      ManagedGrows(desired, i);
      outcome, out', inputs' := Turn(file, prev, prevLen, loaded, spare, out, inputs, desired, policies, intents, i,
                                     acting, now, backup);
      if outcome.Finished? && engine == null {
        UnaidedOneMore(scene, out, out', inputs, inputs', loaded, desired, i, acting);
      }
    }

    /** The turns of all backends, until one fails. */
    method Turns(file: File, ghost prev: array<TransportState>, ghost prevLen: nat, ghost loaded: Entries,
                 ghost spare: nat, desired: DesiredState, policies: seq<BackendPolicy>, intents: seq<Intent>,
                 acting: bool, clock: nat -> int, backups: nat -> string)
      returns (outcome: Outcome, out: seq<TransportState>, ghost inputs: seq<Input>, ghost n: nat)
      requires Valid() && (forall n :: BackupPath(backups(n)))
      requires SoFar(file, prev, prevLen, loaded, spare, [], [], desired, policies, intents, 0)
      requires acting ==> OnHost(Overlaid(desired, loaded))
      modifies host, file, file.data, if engine == null then {} else {engine.wg, engine.hp, engine.fw}
      ensures outcome.ProbeFailed? || outcome.CutoverFailed? || outcome.Finished?
      ensures SoFar(file, prev, prevLen, loaded, spare, out, inputs, desired, policies, intents, n)
      ensures Managed(desired, n) <= Managed(desired, |desired.backends|)
      ensures outcome.Finished? ==> n == |desired.backends|
      ensures outcome.Finished? && acting ==> OnHost(Target(desired, loaded, out, inputs, Managed(desired, n)))
      ensures !outcome.Finished? ==> |out| < |Managed(desired, |desired.backends|)|
      ensures outcome.CutoverFailed? ==>
                acting && Asking(loaded, out, desired, policies, intents,
                                 Managed(desired, |desired.backends|)[|out|].id)
      ensures Unaided(old(SceneOf()), loaded, out, inputs, desired, Managed(desired, n), acting)
      ensures Reliable(desired) ==> !outcome.ProbeFailed?
      ensures !acting ==> HostStays()
    {
      out, inputs, n := [], [], 0;
      ghost var scene := SceneOf();
      for i := 0 to |desired.backends|
        invariant n == i && (file.data == old(file.data) || fresh(file.data))
        invariant Taken(file, prev, prevLen, loaded, spare, out, inputs, desired, policies, intents, i, acting, scene)
        invariant !acting ==> HostStays()
      {
        outcome, out, inputs := NextTurn(file, prev, prevLen, loaded, spare, out, inputs, desired, policies, intents, i,
                                         acting, clock(i), backups(i + 1), scene);
        if !outcome.Finished? {
          return;
        }
        n := i + 1;
      }
      outcome := Finished;
    }

    /** Saves what the turns have come to: the list; or, after a failed cutover, what the copy
        of the loaded one shows. Nothing else changes. */
    method Finish(turned: Outcome, file: File, prev: array<TransportState>, prevLen: nat, ghost c: Copied,
                  acting: bool, ghost target: DesiredState)
      returns (outcome: Outcome)
      requires Valid() && Holds(file, prev, prevLen, c) && (turned.Finished? && acting ==> OnHost(target))
      modifies host`calls, this`stored
      ensures HostStays() && (turned.Finished? && acting ==> OnHost(target))
      ensures turned.Finished? ==>
                if outcome.Finished? then stored == Some(c.entries) else outcome.SaveFailed? && stored == old(stored)
      ensures turned.CutoverFailed? ==> outcome == turned && (stored == old(stored) || stored == Some(c.view))
      ensures !turned.Finished? && !turned.CutoverFailed? ==> outcome == turned && stored == old(stored)
      ensures FaultFree(host.faults) ==> outcome == turned && (turned.CutoverFailed? ==> stored == Some(c.view))
    {
      outcome := turned;
      if turned.CutoverFailed? {
        var _ := Save(prev, prevLen);
      } else if turned.Finished? {
        var ok := Save(file.data, file.len);
        if acting {
          StaysOnHost(target);
        }
        outcome := if ok then Finished else SaveFailed;
      }
    }

    /** Opens the round and takes the turns. */
    method Play(file: File, ghost loaded: Entries, ghost spare: nat, desired: DesiredState,
                policies: seq<BackendPolicy>, intents: seq<Intent>, acting: bool, clock: nat -> int,
                backups: nat -> string)
      returns (outcome: Outcome, out: seq<TransportState>, ghost inputs: seq<Input>)
      requires Valid() && (forall n :: BackupPath(backups(n)))
      requires file.Valid() && file.Contents() == loaded && file.Room() == spare
      modifies host, file, file.data, if engine == null then {} else {engine.wg, engine.hp, engine.fw}
      ensures outcome in {ReconcileFailed, ProbeFailed, CutoverFailed, Finished}
      ensures Holds(file, old(file.data), old(file.len), Puts(loaded, spare, out))
      ensures |out| == |inputs| <= |Managed(desired, |desired.backends|)|
      ensures Advances(loaded, out, inputs, desired, policies, intents, Managed(desired, |desired.backends|))
      ensures outcome.Finished? ==> |out| == |Managed(desired, |desired.backends|)|
      ensures outcome.Finished? && acting ==>
                OnHost(Target(desired, loaded, out, inputs, Managed(desired, |desired.backends|)))
      ensures outcome.CutoverFailed? ==>
                && acting && |out| < |Managed(desired, |desired.backends|)|
                && Asking(loaded, out, desired, policies, intents, Managed(desired, |desired.backends|)[|out|].id)
      ensures Unaided(old(SceneOf()), loaded, out, inputs, desired, Managed(desired, |desired.backends|), acting)
      ensures Reliable(desired) ==> outcome.Finished? || outcome.CutoverFailed?
      ensures !acting ==> HostStays()
    {
      out, inputs := [], [];
      ghost var prev, prevLen, n := file.data, file.len, 0;
      var ok := Open(desired, file.data[..file.len], acting, backups(0));
      if !ok {
        return ReconcileFailed, out, inputs;
      }
      outcome, out, inputs, n := Turns(file, prev, prevLen, loaded, spare, desired, policies, intents, acting, clock,
                                       backups);
      AdvancesWithin(loaded, out, inputs, desired, policies, intents, Managed(desired, n),
                     Managed(desired, |desired.backends|));
    }

    /** One round. When it finishes, the file holds every stored record with the step of each
        managed backend put into it; when a cutover fails, the file holds what the copy of the
        loaded list shows by then, unless that could not be saved; otherwise it is as it was. */
    method RunOnce(desired: DesiredState, policies: seq<BackendPolicy>, intents: seq<Intent>, dryRun: bool,
                   clock: nat -> int, backups: nat -> string, spare: nat)
      returns (outcome: Outcome, out: seq<TransportState>, ghost inputs: seq<Input>)
      requires Valid() && forall n :: BackupPath(backups(n))
      modifies this, host, if engine == null then {} else {engine.wg, engine.hp, engine.fw}
      ensures |out| == |inputs| <= |Managed(desired, |desired.backends|)|
      ensures Advances(old(stored).GetOr([]), out, inputs, desired, policies, intents,
                       Managed(desired, |desired.backends|))
      ensures outcome.Finished? ==>
                stored == Some(PutAll(old(stored).GetOr([]), out)) && |out| == |Managed(desired, |desired.backends|)|
      ensures outcome.CutoverFailed? ==>
                && live && !dryRun && |out| < |Managed(desired, |desired.backends|)|
                && (stored == old(stored) || stored == Some(Puts(old(stored).GetOr([]), spare, out).view))
                && (FaultFree(host.faults) ==> stored == Some(Puts(old(stored).GetOr([]), spare, out).view))
                && Asking(old(stored).GetOr([]), out, desired, policies, intents,
                          Managed(desired, |desired.backends|)[|out|].id)
      ensures Unaided(old(SceneOf()), old(stored).GetOr([]), out, inputs, desired,
                      Managed(desired, |desired.backends|), live && !dryRun)
      ensures Reliable(desired) ==> outcome.Finished? || outcome.CutoverFailed?
      ensures !outcome.Finished? && !outcome.CutoverFailed? ==> stored == old(stored)
      ensures outcome.Finished? && live && !dryRun ==>
                OnHost(Target(desired, old(stored).GetOr([]), out, inputs, Managed(desired, |desired.backends|)))
      ensures !live || dryRun ==> HostStays()
    {
      out, inputs := [], [];
      var file := Load(spare);
      if file == null {
        return LoadFailed, out, inputs;
      }
      var prev, prevLen := file.data, file.len;
      ghost var loaded := file.Contents();
      var acting := live && !dryRun;
      outcome, out, inputs := Play(file, loaded, spare, desired, policies, intents, acting, clock, backups);
      PutsArePutAll(loaded, spare, out);
      outcome := Finish(outcome, file, prev, prevLen, Puts(loaded, spare, out), acting,
                        Target(desired, loaded, out, inputs, Managed(desired, |desired.backends|)));
    }
  }

  // ------------------------------------------------------------- properties

  lemma StepsKeepKeys(loaded: Entries, out: seq<TransportState>, inputs: seq<Input>, desired: DesiredState,
                      policies: seq<BackendPolicy>, intents: seq<Intent>, backends: seq<Backend>)
    requires |out| == |inputs| <= |backends| && Advances(loaded, out, inputs, desired, policies, intents, backends)
    ensures forall k | 0 <= k < |out| :: Keyed(out[k], desired.nodeId, backends[k].id)
    ensures UniqueKeys(backends, R.BackendId) ==> DistinctKeys(out)
  {
    forall k | 0 <= k < |out| ensures Keyed(out[k], desired.nodeId, backends[k].id) {
      var before := PutAll(loaded, out[..k]);
      assert AdvancesAt(loaded, out, inputs, desired, policies, intents, backends, k);
      LookupIsAtPosition(before, Fresh(desired.nodeId, backends[k].id));
      PositionIsFirst(before, Fresh(desired.nodeId, backends[k].id));
    }
    if UniqueKeys(backends, R.BackendId) {
      forall i, j | 0 <= i < j < |out| ensures !SameKey(out[i], out[j]) {
        assert R.BackendId(backends[i]) != R.BackendId(backends[j]);
      }
    }
  }

  lemma {:induction false} ManagedAreDistinct(desired: DesiredState, n: nat)
    requires n <= |desired.backends| && UniqueKeys(desired.backends, R.BackendId)
    ensures UniqueKeys(Managed(desired, n), R.BackendId)
    ensures forall b | b in Managed(desired, n) :: b in desired.backends[..n]
  {
    if n > 0 {
      ManagedAreDistinct(desired, n - 1);
      assert desired.backends[..n] == desired.backends[..n - 1] + [desired.backends[n - 1]];
      var b := desired.backends[n - 1];
      forall c | c in Managed(desired, n - 1) ensures R.BackendId(c) != R.BackendId(b) {
        var i :| 0 <= i < n - 1 && desired.backends[..n - 1][i] == c;
        assert desired.backends[i] == c;
      }
    }
  }

  lemma BackendIsAdvanced(loaded: Entries, out: seq<TransportState>, inputs: seq<Input>, desired: DesiredState,
                          policies: seq<BackendPolicy>, intents: seq<Intent>, bs: seq<Backend>, k: nat)
    requires k < |out| == |inputs| <= |bs| && Advances(loaded, out, inputs, desired, policies, intents, bs)
    requires DistinctKeys(out) && forall j | 0 <= j < |out| :: Keyed(out[j], desired.nodeId, bs[j].id)
    ensures Lookup(PutAll(loaded, out), desired.nodeId, bs[k].id) == out[k]
    ensures out[k] == Decide(Lookup(loaded, desired.nodeId, bs[k].id), inputs[k]).next
  {
    LookupOfPuts(loaded, out, desired.nodeId, bs[k].id);
    forall j | 0 <= j < k ensures !Keyed(out[..k][j], desired.nodeId, bs[k].id) {
      assert !SameKey(out[j], out[k]);
    }
    LookupOfPuts(loaded, out[..k], desired.nodeId, bs[k].id);
    assert AdvancesAt(loaded, out, inputs, desired, policies, intents, bs, k);
  }

  /** With distinct backend ids, the records a round produces are each backend's own: the
      machine's step from the record that was loaded for it. What a finished round stores has
      those records, all others as they were, and still one for each key. */
  lemma RoundIsPersisted(loaded: Entries, out: seq<TransportState>, inputs: seq<Input>, desired: DesiredState,
                         policies: seq<BackendPolicy>, intents: seq<Intent>, bs: seq<Backend>)
    requires bs == Managed(desired, |desired.backends|) && UniqueKeys(desired.backends, R.BackendId)
    requires |out| == |inputs| == |bs| && Advances(loaded, out, inputs, desired, policies, intents, bs)
    ensures forall k | 0 <= k < |bs| ::
              && Lookup(PutAll(loaded, out), desired.nodeId, bs[k].id) == out[k]
              && out[k] == Decide(Lookup(loaded, desired.nodeId, bs[k].id), inputs[k]).next
    ensures forall node, backend | node != desired.nodeId || (forall b | b in bs :: b.id != backend) ::
              Lookup(PutAll(loaded, out), node, backend) == Lookup(loaded, node, backend)
    ensures UniqueRecords(loaded) ==> UniqueRecords(PutAll(loaded, out))
  {
    ManagedAreDistinct(desired, |desired.backends|);
    StepsKeepKeys(loaded, out, inputs, desired, policies, intents, bs);
    forall k | 0 <= k < |bs|
      ensures Lookup(PutAll(loaded, out), desired.nodeId, bs[k].id) == out[k]
      ensures out[k] == Decide(Lookup(loaded, desired.nodeId, bs[k].id), inputs[k]).next
    {
      BackendIsAdvanced(loaded, out, inputs, desired, policies, intents, bs, k);
    }
    forall node, backend | node != desired.nodeId || (forall b | b in bs :: b.id != backend)
      ensures Lookup(PutAll(loaded, out), node, backend) == Lookup(loaded, node, backend)
    {
      forall k | 0 <= k < |out| ensures !Keyed(out[k], node, backend) {
        assert bs[k] in bs;
      }
      LookupOfPuts(loaded, out, node, backend);
    }
    if UniqueRecords(loaded) {
      PutsKeepUniqueness(loaded, out);
    }
  }

  /** After a failed cutover and a successful restore, the record of that backend, of every
      later one, and of every backend the round is not about is as it was loaded. */
  lemma FailedCutoverKeepsTheRest(loaded: Entries, spare: nat, out: seq<TransportState>, inputs: seq<Input>,
                                  desired: DesiredState, policies: seq<BackendPolicy>, intents: seq<Intent>,
                                  node: string, backend: string)
    requires var bs := Managed(desired, |desired.backends|);
             |out| == |inputs| < |bs| && Advances(loaded, out, inputs, desired, policies, intents, bs)
    requires UniqueKeys(desired.backends, R.BackendId)
    requires node != desired.nodeId || (forall k | 0 <= k < |out| ::
                                        Managed(desired, |desired.backends|)[k].id != backend)
    ensures Lookup(Puts(loaded, spare, out).view, node, backend) == Lookup(loaded, node, backend)
  {
    var bs := Managed(desired, |desired.backends|);
    ManagedAreDistinct(desired, |desired.backends|);
    StepsKeepKeys(loaded, out, inputs, desired, policies, intents, bs);
    CopyKeepsOthers(loaded, spare, out, node, backend);
  }

  predicate HasRecord(loaded: Entries, node: string, backend: string) {
    exists e | e in loaded :: Keyed(e, node, backend)
  }

  /** How many of the backends have no record. */
  function Unrecorded(loaded: Entries, node: string, bs: seq<Backend>): (n: nat) {
    if bs == [] then 0
    else Unrecorded(loaded, node, bs[..|bs| - 1]) + (if HasRecord(loaded, node, bs[|bs| - 1].id) then 0 else 1)
  }

  /** The k-th backend's record is written over the loaded one in the memory that the copy
      shares: there is one, and there was room for the records of all backends before it. */
  predicate Overwrites(loaded: Entries, node: string, bs: seq<Backend>, spare: nat, k: nat)
    requires k < |bs|
  {
    HasRecord(loaded, node, bs[k].id) && Unrecorded(loaded, node, bs[..k]) <= spare
  }

  lemma HasRecordAt(loaded: Entries, st: TransportState)
    ensures HasRecord(loaded, st.nodeId, st.backendId) <==> Position(loaded, st) < |loaded|
    ensures HasRecord(loaded, st.nodeId, st.backendId) ==>
              Lookup(loaded, st.nodeId, st.backendId) == loaded[Position(loaded, st)]
  {
    PositionIsFirst(loaded, st);
    LookupIsAtPosition(loaded, st);
    if HasRecord(loaded, st.nodeId, st.backendId) {
      var e :| e in loaded && Keyed(e, st.nodeId, st.backendId);
      var i :| 0 <= i < |loaded| && loaded[i] == e;
    }
  }

  lemma {:induction false} NewKeysAreUnrecorded(loaded: Entries, out: seq<TransportState>, node: string,
                                                bs: seq<Backend>)
    requires |out| == |bs| && forall k | 0 <= k < |out| :: Keyed(out[k], node, bs[k].id)
    ensures NewKeys(loaded, out) == Unrecorded(loaded, node, bs)
  {
    if out != [] {
      var n := |out| - 1;
      NewKeysAreUnrecorded(loaded, out[..n], node, bs[..n]);
      HasRecordAt(loaded, out[n]);
    }
  }

  lemma ShowsThroughIff(loaded: Entries, spare: nat, out: seq<TransportState>, node: string, bs: seq<Backend>, k: nat)
    requires k < |out| <= |bs| && DistinctKeys(out) && forall k | 0 <= k < |out| :: Keyed(out[k], node, bs[k].id)
    ensures ShowsThrough(loaded, spare, out, k) <==> Overwrites(loaded, node, bs, spare, k)
  {
    DistinctInPrefix(out, k);
    SharedIffRoom(loaded, spare, out[..k]);
    NewKeysAreUnrecorded(loaded, out[..k], node, bs[..k]);
    HasRecordAt(loaded, out[k]);
  }

  /** After a failed cutover, what is saved is what was loaded if and only if no backend handled
      before in the same round had its loaded record overwritten with another one. Which
      records are overwritten is known before the round: those of the backends that have one,
      up to the point where the list has to be moved. As every step stamps its record, that
      is, if time has moved on, if and only if none was overwritten. */
  lemma FailedCutoverRestoresIff(loaded: Entries, spare: nat, out: seq<TransportState>, inputs: seq<Input>,
                                 desired: DesiredState, policies: seq<BackendPolicy>, intents: seq<Intent>,
                                 bs: seq<Backend>)
    requires bs == Managed(desired, |desired.backends|) && |out| == |inputs| < |bs|
    requires Advances(loaded, out, inputs, desired, policies, intents, bs)
    requires UniqueKeys(desired.backends, R.BackendId)
    ensures Puts(loaded, spare, out).view == loaded <==>
              forall k | 0 <= k < |out| && Overwrites(loaded, desired.nodeId, bs, spare, k) ::
                  out[k] == Lookup(loaded, desired.nodeId, bs[k].id)
    ensures (forall k, e | 0 <= k < |inputs| && e in loaded :: e.updatedAt < inputs[k].now) ==>
              (Puts(loaded, spare, out).view == loaded
               <==> forall k | 0 <= k < |out| :: !Overwrites(loaded, desired.nodeId, bs, spare, k))
  {
    ManagedAreDistinct(desired, |desired.backends|);
    StepsKeepKeys(loaded, out, inputs, desired, policies, intents, bs);
    CopyRestoresIff(loaded, spare, out);
    forall k | 0 <= k < |out|
      ensures ShowsThrough(loaded, spare, out, k) <==> Overwrites(loaded, desired.nodeId, bs, spare, k)
      ensures Overwrites(loaded, desired.nodeId, bs, spare, k) ==>
                Lookup(loaded, desired.nodeId, bs[k].id) == loaded[Position(loaded, out[k])]
      ensures out[k].updatedAt == inputs[k].now
    {
      ShowsThroughIff(loaded, spare, out, desired.nodeId, bs, k);
      HasRecordAt(loaded, out[k]);
      assert AdvancesAt(loaded, out, inputs, desired, policies, intents, bs, k);
    }
  }
}
