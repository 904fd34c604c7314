/** What a round of the failover controller leaves behind: how far the addresses on the host
    and the records in the file agree, which records a failed cutover loses, and what becomes
    of one record over many rounds (internal/failover/controller.go:24-141). */
module Rounds {
  import opened Model
  import opened Text
  import opened HostState
  import opened Health
  import opened Machine
  import opened StateFile
  import opened Overlay
  import opened Controller
  import opened SshTun
  import R = Reconcile
  import Runs
  import W = WireGuard

  // --------------------------------------------- records and the overlay

  /** The file holds one record for each backend of one node. */
  ghost predicate OneNode(entries: Entries, node: string) {
    UniqueRecords(entries) && forall e | e in entries :: e.nodeId == node
  }

  lemma {:induction false} LookupHolds(entries: Entries, node: string, backend: string)
    ensures Lookup(entries, node, backend) in entries || Lookup(entries, node, backend) == Fresh(node, backend)
    ensures Keyed(Lookup(entries, node, backend), node, backend)
  {
    if entries != [] && !Keyed(entries[0], node, backend) {
      LookupHolds(entries[1..], node, backend);
    }
  }

  lemma {:induction false} LookupFinds(entries: Entries, node: string, e: TransportState)
    requires OneNode(entries, node) && e in entries
    ensures Lookup(entries, node, e.backendId) == e
  {
    if e != entries[0] {
      var i :| 0 <= i < |entries| && entries[i] == e;
      assert !SameKey(entries[0], entries[i]);
      forall j, k | 0 <= j < k < |entries[1..]| ensures !SameKey(entries[1..][j], entries[1..][k]) {
        assert !SameKey(entries[j + 1], entries[k + 1]);
      }
      assert entries[1..][i - 1] == e;
      LookupFinds(entries[1..], node, e);
    }
  }

  /** Whether a backend is on the overlay is what the mode of its one record says. */
  lemma StoredIsMode(entries: Entries, node: string, backend: string)
    requires OneNode(entries, node)
    ensures StoredOnOverlay(entries, backend) <==> OnOverlay(Lookup(entries, node, backend).mode)
  {
    LookupHolds(entries, node, backend);
    if StoredOnOverlay(entries, backend) {
      var e :| e in entries && e.backendId == backend && OnOverlay(e.mode);
      LookupFinds(entries, node, e);
    }
  }

  lemma {:induction false} PutsKeepNode(entries: Entries, sts: seq<TransportState>, node: string)
    requires OneNode(entries, node) && forall st | st in sts :: st.nodeId == node
    ensures OneNode(PutAll(entries, sts), node)
  {
    if sts != [] {
      var n := |sts| - 1;
      PutsKeepNode(entries, sts[..n], node);
      PutKeepsUniqueness(PutAll(entries, sts[..n]), sts[n]);
    }
  }

  // ------------------------------------------------ installed and stored

  /** Where a backend is on the host after a finished round. */
  function InstalledBackend(desired: DesiredState, loaded: Entries, cut: Option<Move>, b: Backend): (r: Backend) {
    if cut.None? then Routed(desired, loaded, b) else Readdressed(b, cut.value.backend, cut.value.address)
  }

  lemma TargetBackends(desired: DesiredState, loaded: Entries, cut: Option<Move>, j: nat)
    requires j < |desired.backends|
    ensures |WithCut(desired, loaded, cut).backends| == |desired.backends|
    ensures WithCut(desired, loaded, cut).backends[j] == InstalledBackend(desired, loaded, cut, desired.backends[j])
  {
    OverlayFollowsStoredMode(desired, loaded);
  }

  /** A finished round leaves a backend on the host where the records it has just stored say,
      if and only if: no cutover took place and the step of the backend neither entered nor
      left the overlay; or another backend was cut over last and the backend is not on the
      overlay; or it was itself cut over last, to SSH, or to a WireGuard tunnel that leads to
      its own address; or the overlay makes no difference to it. A round that is not live
      leaves the host as it was, so that the first case is the one about what was installed
      for the loaded records. */
  lemma InstalledAgreesWithStoredIff(desired: DesiredState, loaded: Entries, stored: Entries, cut: Option<Move>,
                                     b: Backend)
    ensures InstalledBackend(desired, loaded, cut, b) == Routed(desired, stored, b) <==>
              match cut
              case None => (StoredOnOverlay(loaded, b.id) <==> StoredOnOverlay(stored, b.id))
                  || OverlayIsMoot(desired, b)
              case Some(c) =>
                if c.backend != b.id then !StoredOnOverlay(stored, b.id) || OverlayIsMoot(desired, b)
                else c.address == (if StoredOnOverlay(stored, b.id)
                                   && LastTunnel(desired.tunnels, b.id, TunnelType.SshTun).Some?
                                   then LastTunnel(desired.tunnels, b.id, TunnelType.SshTun).value.remoteOverlayIp
                                       else b.address)
  {
    RoutedAlikeIff(desired, loaded, stored, b);
  }

  /** The k-th backend of a finished round: what it was, what the machine decided, and what is
      stored for it now. */
  lemma StoredStep(loaded: Entries, out: seq<TransportState>, inputs: seq<Input>, desired: DesiredState,
                   policies: seq<BackendPolicy>, intents: seq<Intent>, bs: seq<Backend>, k: nat)
    requires bs == Managed(desired, |desired.backends|) && UniqueKeys(desired.backends, R.BackendId)
    requires |out| == |inputs| == |bs| && Advances(loaded, out, inputs, desired, policies, intents, bs)
    requires k < |bs| && OneNode(loaded, desired.nodeId)
    ensures out[k] == Decide(Lookup(loaded, desired.nodeId, bs[k].id), inputs[k]).next
    ensures OneNode(PutAll(loaded, out), desired.nodeId)
    ensures StoredOnOverlay(loaded, bs[k].id) <==> OnOverlay(Lookup(loaded, desired.nodeId, bs[k].id).mode)
    ensures StoredOnOverlay(PutAll(loaded, out), bs[k].id) <==> OnOverlay(out[k].mode)
  {
    RoundIsPersisted(loaded, out, inputs, desired, policies, intents, bs);
    ManagedAreDistinct(desired, |desired.backends|);
    StepsKeepKeys(loaded, out, inputs, desired, policies, intents, bs);
    PutsKeepNode(loaded, out, desired.nodeId);
    StoredIsMode(loaded, desired.nodeId, bs[k].id);
    StoredIsMode(PutAll(loaded, out), desired.nodeId, bs[k].id);
  }

  /** Without a cutover, and so in every round that is not live, a backend is left elsewhere
      than its new record says if and only if the machine has moved its mode onto the overlay
      or off it, and that makes a difference. In a live round without cutovers that is exactly
      a silent reroute: the fallback has failed and nobody fails forward. */
  lemma UncutRoundAgreesIff(loaded: Entries, out: seq<TransportState>, inputs: seq<Input>, desired: DesiredState,
                            policies: seq<BackendPolicy>, intents: seq<Intent>, bs: seq<Backend>, k: nat)
    requires bs == Managed(desired, |desired.backends|) && UniqueKeys(desired.backends, R.BackendId)
    requires |out| == |inputs| == |bs| && Advances(loaded, out, inputs, desired, policies, intents, bs)
    requires k < |bs| && OneNode(loaded, desired.nodeId)
    ensures var cur := Lookup(loaded, desired.nodeId, bs[k].id);
            var d := Decide(cur, inputs[k]);
            && (Routed(desired, loaded, bs[k]) == Routed(desired, PutAll(loaded, out), bs[k])
                <==> OverlayIsMoot(desired, bs[k]) || (OnOverlay(cur.mode) <==> OnOverlay(d.next.mode)))
            && (!d.cutoverToSsh && !d.cutoverToWg ==>
                  ((OnOverlay(cur.mode) <==> OnOverlay(d.next.mode))
                   <==> !(OnOverlay(cur.mode) && !inputs[k].FallbackUp()
                          && (cur.mode.SshPrimary? ==> !inputs[k].failForward))))
  {
    StoredStep(loaded, out, inputs, desired, policies, intents, bs, k);
    RoutedAlikeIff(desired, loaded, PutAll(loaded, out), bs[k]);
    var cur := Lookup(loaded, desired.nodeId, bs[k].id);
    CutoversMatchTheModeChange(cur, inputs[k]);
    if OnOverlay(cur.mode) {
      SilentReroute(cur, inputs[k]);
    }
  }

  /** The backend that was cut over last is where its new record says if and only if it was
      moved to SSH, or to a WireGuard tunnel that leads to its own address. */
  lemma CutBackendAgreesIff(loaded: Entries, out: seq<TransportState>, inputs: seq<Input>, desired: DesiredState,
                            policies: seq<BackendPolicy>, intents: seq<Intent>, bs: seq<Backend>, k: nat)
    requires bs == Managed(desired, |desired.backends|) && UniqueKeys(desired.backends, R.BackendId)
    requires |out| == |inputs| == |bs| && Advances(loaded, out, inputs, desired, policies, intents, bs)
    requires k < |bs| && OneNode(loaded, desired.nodeId)
    requires CutOf(desired, bs[k], Lookup(loaded, desired.nodeId, bs[k].id), inputs[k]).Some?
    ensures var cut := CutOf(desired, bs[k], Lookup(loaded, desired.nodeId, bs[k].id), inputs[k]);
            InstalledBackend(desired, loaded, cut, bs[k]) == Routed(desired, PutAll(loaded, out), bs[k])
            <==> Decide(Lookup(loaded, desired.nodeId, bs[k].id), inputs[k]).cutoverToSsh
                 || cut.value.address == bs[k].address
  {
    StoredStep(loaded, out, inputs, desired, policies, intents, bs, k);
    CutoversMatchTheModeChange(Lookup(loaded, desired.nodeId, bs[k].id), inputs[k]);
  }

  // --------------------------------------------- a cutover that fails

  const NODE := "n"
  const PAIR := DesiredState(NODE, [Backend("a", "a", "1.0.0.2"), Backend("b", "b", "1.0.0.3")],
                             [WgFor("a", "wg0", "1.0.0.4"), WgFor("b", "wg1", "1.0.0.5"), SSH_FOR_B], [], [])
  const SSH_FOR_B := Tunnel("s", "b", TunnelType.SshTun, "tun0", "1.0.0.1", "1.0.0.6", 0, "", "", 0, "", "", "tun-b")

  function WgFor(backend: string, name: string, remote: string): (t: Tunnel) {
    Tunnel(name, backend, TunnelType.WireGuard, name, "1.0.0.1", remote, 51820, "", "", 25, "/k", "", "")
  }

  /** Both backends are on WireGuard, and the second one has failed twice. */
  function PairRecords(): (loaded: Entries) { [Fresh(NODE, "a"), Fresh(NODE, "b").(consecutiveFailures := 2)] }

  lemma PairIsManaged(desired: DesiredState)
    requires desired == PAIR
    ensures Managed(desired, |desired.backends|) == desired.backends && UniqueKeys(desired.backends, R.BackendId)
    ensures LastTunnel(desired.tunnels, "a", TunnelType.SshTun) == None
    ensures LastTunnel(desired.tunnels, "b", TunnelType.SshTun) == Some(SSH_FOR_B)
  {
    var ts := desired.tunnels;
    assert ts[..2] == [ts[0], ts[1]] && ts[..2][..1] == [ts[0]] && ts[..2][..1][..0] == [];
    assert LastTunnel(ts, "b", TunnelType.WireGuard) == LastTunnel(ts[..2], "b", TunnelType.WireGuard) == Some(ts[1]);
    assert LastTunnel(ts, "a", TunnelType.WireGuard) == LastTunnel(ts[..2], "a", TunnelType.WireGuard)
        == LastTunnel(ts[..2][..1], "a", TunnelType.WireGuard) == Some(ts[0]);
    assert LastTunnel(ts, "a", TunnelType.SshTun) == LastTunnel(ts[..2], "a", TunnelType.SshTun)
        == LastTunnel(ts[..2][..1], "a", TunnelType.SshTun) == None;
    assert Managed(desired, 0) == [] && Managed(desired, 1) == [desired.backends[0]];
    assert Managed(desired, 2) == [desired.backends[0]] + [desired.backends[1]];
  }

  lemma {:induction false} LastTunnelIsOne(tunnels: seq<Tunnel>, backend: string, kind: TunnelType)
    ensures LastTunnel(tunnels, backend, kind).Some? ==>
              LastTunnel(tunnels, backend, kind).value in tunnels
                  && LastTunnel(tunnels, backend, kind).value.kind == kind
  {
    if tunnels != [] {
      LastTunnelIsOne(tunnels[..|tunnels| - 1], backend, kind);
    }
  }

  /** The first backend cannot ask for a cutover yet. The second one does if its primary is down
      and its fallback is up. */
  lemma WhoAsks(loaded: Entries, i: Input)
    requires loaded == PairRecords() && i.policy == DEFAULT_POLICY
    ensures !Asks(loaded[0], i)
    ensures !i.PrimaryUp() && i.FallbackUp() ==> Asks(loaded[1], i)
    ensures !i.PrimaryUp() ==> Decide(loaded[0], i).next.consecutiveFailures == 1
  {
  }

  /** The record of the second backend is not touched by the step of the first one. */
  lemma PairPuts(loaded: Entries, first: TransportState, spare: nat)
    requires loaded == PairRecords() && first.nodeId == NODE && first.backendId == "a"
    ensures PutAll(loaded, [first]) == [first, loaded[1]] && Puts(loaded, spare, [first]).view == [first, loaded[1]]
    ensures Lookup(loaded, NODE, "a") == loaded[0] && Lookup([first, loaded[1]], NODE, "b") == loaded[1]
  {
    assert [first][..0] == [] && PutAll(loaded, []) == loaded;
    assert PutAll(loaded, [first]) == PutIn(loaded, first) == [first, loaded[1]];
    assert Puts(loaded, spare, []) == Copied(loaded, loaded, spare, true);
    assert [first, loaded[1]][1..] == [loaded[1]];
  }

  lemma PairIsReliable(c: FailoverController, desired: DesiredState)
    requires desired == PAIR && FaultFree(c.host.faults) && c.engine == null
             && (c.ssh != null ==> c.ssh.valid(SSH_FOR_B))
    ensures c.Reliable(desired)
  {
    forall b | LastTunnel(desired.tunnels, b, TunnelType.SshTun).Some?
      ensures LastTunnel(desired.tunnels, b, TunnelType.SshTun).value == SSH_FOR_B
    {
      LastTunnelIsOne(desired.tunnels, b, TunnelType.SshTun);
    }
  }

  lemma PairFallbackIsUp(c: FailoverController, scene: Scene)
    requires FaultFree(c.host.faults) && c.probes && c.ssh != null && c.ssh.valid(SSH_FOR_B)
    requires "tun-b" in scene.active && "tun0" in scene.links
    ensures c.FallbackIsUp(scene, SSH_FOR_B, "b", [])
  {
    TrimOfTrimmed("1.0.0.6");
    Runs.DigitsAreAddress("1.0.0.6", "1", "0", "6");
  }

  /** Of a round for the two backends without an engine: the first one takes its step, the second
      one asks for a cutover. */
  lemma SecondAsks(c: FailoverController, desired: DesiredState, loaded: Entries, out: seq<TransportState>,
                   inputs: seq<Input>, scene: Scene, asking: bool)
    requires desired == PAIR && loaded == PairRecords() && c.engine == null
    requires |out| == |inputs| <= 2 && (|out| < 2 ==> asking)
    requires Advances(loaded, out, inputs, desired, [], [], desired.backends)
    requires c.Unaided(scene, loaded, out, inputs, desired, desired.backends, true)
    requires asking && |out| < 2 ==> Asking(loaded, out, desired, [], [], desired.backends[|out|].id)
    requires c.FallbackIsUp(scene, SSH_FOR_B, "b", desired.mappings)
    ensures |out| == 1 && out[0].consecutiveFailures == 1 && out[0].nodeId == NODE && out[0].backendId == "a"
  {
    PairIsManaged(desired);
    var bs := desired.backends;
    assert bs[0].id == "a" && bs[1].id == "b" && PutAll(loaded, []) == loaded;
    PairPuts(loaded, loaded[0], 0);
    if |out| == 0 {
      assert out == [];
      var i :| Sampled(i, desired, [], [], "a") && Asks(Lookup(PutAll(loaded, out), NODE, "a"), i);
      WhoAsks(loaded, i);
      assert false;
    }
    assert out[..0] == [];
    assert AdvancesAt(loaded, out, inputs, desired, [], [], bs, 0);
    assert c.UnaidedAt(scene, loaded, out[..0], inputs[0], desired, bs[0].id, true);
    WhoAsks(loaded, inputs[0]);
    if |out| == 2 {
      assert out[..1] == [out[0]];
      assert AdvancesAt(loaded, out, inputs, desired, [], [], bs, 1);
      assert c.UnaidedAt(scene, loaded, out[..1], inputs[1], desired, bs[1].id, true);
      PairPuts(loaded, out[0], 0);
      WhoAsks(loaded, inputs[1]);
      assert false;
    }
  }

  /** A round with two backends on a controller without an engine, in which no command fails:
      the step of the first backend is taken, the second one asks for a cutover to SSH, and that
      fails. What is saved then is not what was loaded, although docs/FAILOVER.md says that the
      state is restored. */
  method FailedCutoverLosesRecord(desired: DesiredState, valid: Tunnel -> bool, spare: nat)
    returns (c: FailoverController, outcome: Outcome, out: seq<TransportState>)
    requires desired == PAIR && valid(SSH_FOR_B)
    ensures outcome.CutoverFailed? && |out| == 1 && out[0].consecutiveFailures == 1
    ensures c.stored == Some([out[0], PairRecords()[1]]) && c.stored != Some(PairRecords())
  {
    var host := new Host(n => false, map[], map["tun0" := W.FRESH_LINK.(kind := "tun")], {"tun-b"}, map[]);
    var ssh := new SshManager(host, valid);
    c := new FailoverController(host, null, ssh, true, true, n => 0, Some(PairRecords()));
    ghost var loaded, scene, inputs := PairRecords(), c.SceneOf(), [];
    PairIsManaged(desired);
    PairIsReliable(c, desired);
    PairFallbackIsUp(c, scene);
    outcome, out, inputs := c.RunOnce(desired, [], [], false, n => n, n => "", spare);
    SecondAsks(c, desired, loaded, out, inputs, scene, outcome.CutoverFailed?);
    PairPuts(loaded, out[0], spare);
    assert out == [out[0]];
  }

  // ------------------------------------------------------------ many rounds

  /** What a round that was not interrupted by the loss of the file does to the record of one
      backend: the machine's step, or nothing. */
  predicate StepsOrStays(desired: DesiredState, backend: string, before: Entries, after: Entries, step: Option<Input>) {
    Lookup(after, desired.nodeId, backend)
    == if step.None? then Lookup(before, desired.nodeId, backend)
       else Decide(Lookup(before, desired.nodeId, backend), step.value).next
  }

  /** A finished round takes the step of every managed backend. */
  lemma FinishedRoundSteps(loaded: Entries, out: seq<TransportState>, inputs: seq<Input>, desired: DesiredState,
                           policies: seq<BackendPolicy>, intents: seq<Intent>, bs: seq<Backend>, k: nat)
    requires bs == Managed(desired, |desired.backends|) && UniqueKeys(desired.backends, R.BackendId)
    requires |out| == |inputs| == |bs| && Advances(loaded, out, inputs, desired, policies, intents, bs) && k < |bs|
    ensures StepsOrStays(desired, bs[k].id, loaded, PutAll(loaded, out), Some(inputs[k]))
  {
    RoundIsPersisted(loaded, out, inputs, desired, policies, intents, bs);
  }

  /** A round that ends with a failed cutover takes the step of the backends whose records it
      has overwritten in the memory of the copy, and of no other one: while cutovers fail, the
      counter of the backend that asks for them stands still. */
  lemma FailedRoundSteps(loaded: Entries, spare: nat, out: seq<TransportState>, inputs: seq<Input>,
                         desired: DesiredState, policies: seq<BackendPolicy>, intents: seq<Intent>, bs: seq<Backend>,
                         k: nat)
    requires bs == Managed(desired, |desired.backends|) && UniqueKeys(desired.backends, R.BackendId)
    requires |out| == |inputs| < |bs| && Advances(loaded, out, inputs, desired, policies, intents, bs) && k < |bs|
    ensures StepsOrStays(desired, bs[k].id, loaded, Puts(loaded, spare, out).view,
                         if k < |out| && Overwrites(loaded, desired.nodeId, bs, spare, k) then Some(inputs[k])
                             else None)
  {
    var view := Puts(loaded, spare, out).view;
    ManagedAreDistinct(desired, |desired.backends|);
    StepsKeepKeys(loaded, out, inputs, desired, policies, intents, bs);
    if k >= |out| {
      FailedCutoverKeepsTheRest(loaded, spare, out, inputs, desired, policies, intents, desired.nodeId, bs[k].id);
    } else {
      ShowsThroughIff(loaded, spare, out, desired.nodeId, bs, k);
      BackendIsAdvanced(loaded, out, inputs, desired, policies, intents, bs, k);
      ViewLookup(loaded, spare, out, k);
    }
  }

  /** What the copy shows for the key of the k-th put. */
  lemma ViewLookup(loaded: Entries, spare: nat, out: seq<TransportState>, k: nat)
    requires k < |out| && DistinctKeys(out)
    ensures Lookup(Puts(loaded, spare, out).view, out[k].nodeId, out[k].backendId)
            == if ShowsThrough(loaded, spare, out, k) then out[k] else Lookup(loaded, out[k].nodeId, out[k].backendId)
  {
    var view, i := Puts(loaded, spare, out).view, Position(loaded, out[k]);
    PutsArePutAll(loaded, spare, out);
    CopyKeepsKeys(loaded, spare, out);
    PositionIsFirst(loaded, out[k]);
    PositionIs(view, out[k], i);
    LookupIsAtPosition(view, out[k]);
    LookupIsAtPosition(loaded, out[k]);
    if i < |loaded| {
      if ShowsThrough(loaded, spare, out, k) {
        CopyShowsPut(loaded, spare, out, k);
      } else {
        forall j | 0 <= j < |out| && ShowsThrough(loaded, spare, out, j) ensures Position(loaded, out[j]) != i {
          if j < k {
            assert !SameKey(out[j], out[k]);
            DistinctPositions(loaded, out[j], out[k]);
          } else if k < j {
            assert !SameKey(out[k], out[j]);
            DistinctPositions(loaded, out[k], out[j]);
          }
        }
        CopyShowsLoaded(loaded, spare, out, i);
      }
    }
  }

  /** The inputs of the rounds in which the record took a step. */
  function Taken(steps: seq<Option<Input>>): (run: seq<Input>) {
    if steps == [] then []
    else Taken(steps[..|steps| - 1]) + (if steps[|steps| - 1].Some? then [steps[|steps| - 1].value] else [])
  }

  /** The files[j + 1] that a round has left of files[j], for one backend. */
  ghost predicate History(desired: DesiredState, backend: string, files: seq<Entries>, steps: seq<Option<Input>>) {
    |files| == |steps| + 1
        && forall j | 0 <= j < |steps| :: StepsOrStays(desired, backend, files[j], files[j + 1], steps[j])
  }

  /** Over any number of rounds, finished or ended by a failed cutover, the stored record of a
      backend is what a run of the machine over the steps that were kept makes of it. Whatever
      holds in every run of the machine holds of stored records. */
  lemma {:induction false} StoredRecordIsARun(desired: DesiredState, backend: string, files: seq<Entries>,
                                              steps: seq<Option<Input>>)
    requires History(desired, backend, files, steps)
    ensures Lookup(files[|steps|], desired.nodeId, backend)
            == After(Lookup(files[0], desired.nodeId, backend), Taken(steps))
  {
    if steps != [] {
      var n := |steps| - 1;
      forall j | 0 <= j < n ensures StepsOrStays(desired, backend, files[..|files| - 1][j],
                                                 files[..|files| - 1][j + 1], steps[..n][j]) {
        assert StepsOrStays(desired, backend, files[j], files[j + 1], steps[j]);
      }
      StoredRecordIsARun(desired, backend, files[..|files| - 1], steps[..n]);
      assert StepsOrStays(desired, backend, files[n], files[n + 1], steps[n]);
      if steps[n].Some? {
        var run := Taken(steps[..n]) + [steps[n].value];
        assert run[..|run| - 1] == Taken(steps[..n]);
        assert Taken(steps) == run;
      } else {
        assert Taken(steps) == Taken(steps[..n]) + [] == Taken(steps[..n]);
      }
    }
  }

  /** So from an empty file on, a stored record that has left WG_PRIMARY in the last step that
      was kept has seen at least the threshold of consecutive unhealthy rounds among those. */
  lemma StoredWgIsLeftOnlyAfterThreshold(desired: DesiredState, backend: string, files: seq<Entries>,
                                         steps: seq<Option<Input>>, last: Input)
    requires steps != [] && steps[|steps| - 1] == Some(last) && files != [] && files[0] == []
    requires History(desired, backend, files, steps)
    requires Wg(After(Fresh(desired.nodeId, backend), Taken(steps[..|steps| - 1])))
    requires !Wg(Lookup(files[|steps|], desired.nodeId, backend))
    ensures var run := Taken(steps);
            var n := After(Fresh(desired.nodeId, backend), run[..|run| - 1]).consecutiveFailures + 1;
            && last.Threshold() <= n <= |run|
            && forall k | |run| - n <= k < |run| :: CountedFailure(Fresh(desired.nodeId, backend), run, k)
  {
    StoredRecordIsARun(desired, backend, files, steps);
    var before := Taken(steps[..|steps| - 1]);
    assert Taken(steps) == before + [last];
    LeavesWgOnlyAfterThreshold(desired.nodeId, backend, before, last);
    assert (before + [last])[..|before|] == before;
  }

  // -------------------------------------------------------- finished rounds

  /** What a finished round was given and what it stored. */
  datatype Played = Played(policies: seq<BackendPolicy>, intents: seq<Intent>, out: seq<TransportState>,
                           inputs: seq<Input>)

  /** Each round has finished and left in the file what it has put into the list before. */
  ghost predicate AllFinished(desired: DesiredState, files: seq<Entries>, rounds: seq<Played>) {
    |files| == |rounds| + 1 && forall j | 0 <= j < |rounds| :: IsFinished(desired, files[j], files[j + 1], rounds[j])
  }

  ghost predicate IsFinished(desired: DesiredState, before: Entries, after: Entries, r: Played) {
    var bs := Managed(desired, |desired.backends|);
    && |r.out| == |r.inputs| == |bs| && after == PutAll(before, r.out)
    && Advances(before, r.out, r.inputs, desired, r.policies, r.intents, bs)
  }

  lemma {:induction false} TakenOfAll(steps: seq<Option<Input>>, run: seq<Input>)
    requires |steps| == |run| && forall j | 0 <= j < |run| :: steps[j] == Some(run[j])
    ensures Taken(steps) == run
  {
    if run != [] {
      var n := |run| - 1;
      TakenOfAll(steps[..n], run[..n]);
      assert run == run[..n] + [run[n]];
    }
  }

  /** Over finished rounds, the stored record of the k-th managed backend is the run of the
      machine over all its inputs. */
  lemma FinishedRoundsAreARun(desired: DesiredState, files: seq<Entries>, rounds: seq<Played>, k: nat)
    returns (run: seq<Input>)
    requires AllFinished(desired, files, rounds) && UniqueKeys(desired.backends, R.BackendId)
    requires k < |Managed(desired, |desired.backends|)|
    ensures |run| == |rounds| && forall j | 0 <= j < |rounds| :: k < |rounds[j].inputs| && run[j] == rounds[j].inputs[k]
    ensures var b := Managed(desired, |desired.backends|)[k].id;
            Lookup(files[|rounds|], desired.nodeId, b) == After(Lookup(files[0], desired.nodeId, b), run)
  {
    var bs := Managed(desired, |desired.backends|);
    forall j | 0 <= j < |rounds| ensures |rounds[j].inputs| == |bs| {
      assert IsFinished(desired, files[j], files[j + 1], rounds[j]);
    }
    run := seq(|rounds|, j requires 0 <= j < |rounds| => rounds[j].inputs[k]);
    var steps := seq(|rounds|, j requires 0 <= j < |rounds| => Some(rounds[j].inputs[k]));
    forall j | 0 <= j < |rounds| ensures StepsOrStays(desired, bs[k].id, files[j], files[j + 1], steps[j]) {
      assert IsFinished(desired, files[j], files[j + 1], rounds[j]);
      FinishedRoundSteps(files[j], rounds[j].out, rounds[j].inputs, desired, rounds[j].policies, rounds[j].intents, bs,
                         k);
    }
    StoredRecordIsARun(desired, bs[k].id, files, steps);
    TakenOfAll(steps, run);
  }

  /** An outage of the primary, with the fallback up, over threshold plus one finished rounds or
      more leaves the stored record in SSH_PRIMARY. */
  lemma StoredOutageEndsInSsh(desired: DesiredState, files: seq<Entries>, rounds: seq<Played>, k: nat, threshold: nat)
    requires AllFinished(desired, files, rounds) && UniqueKeys(desired.backends, R.BackendId)
    requires k < |Managed(desired, |desired.backends|)| && |rounds| >= threshold + 1 && threshold >= 1
    requires forall j | 0 <= j < |rounds| && k < |rounds[j].inputs| :: InOutage(rounds[j].inputs[k], threshold)
    requires var cur := Lookup(files[0], desired.nodeId, Managed(desired, |desired.backends|)[k].id);
             Known(cur.mode) && cur.consecutiveFailures >= 0
    ensures Lookup(files[|rounds|], desired.nodeId, Managed(desired, |desired.backends|)[k].id).mode == SshPrimary
  {
    var run := FinishedRoundsAreARun(desired, files, rounds, k);
    forall i | i in run ensures InOutage(i, threshold) {
      var j :| 0 <= j < |run| && run[j] == i;
      assert InOutage(rounds[j].inputs[k], threshold);
    }
    OutageEndsInSsh(Lookup(files[0], desired.nodeId, Managed(desired, |desired.backends|)[k].id), run, threshold);
  }

  /** Two finished rounds or more with a healthy primary and a standing fail-forward request
      leave the stored record in WG_PRIMARY, with no failure counted. */
  lemma StoredFailForwardEndsInWg(desired: DesiredState, files: seq<Entries>, rounds: seq<Played>, k: nat)
    requires AllFinished(desired, files, rounds) && UniqueKeys(desired.backends, R.BackendId)
    requires k < |Managed(desired, |desired.backends|)| && |rounds| >= 2
    requires forall j | 0 <= j < |rounds| && k < |rounds[j].inputs| ::
               rounds[j].inputs[k].PrimaryUp() && rounds[j].inputs[k].failForward
    requires Known(Lookup(files[0], desired.nodeId, Managed(desired, |desired.backends|)[k].id).mode)
    ensures var st := Lookup(files[|rounds|], desired.nodeId, Managed(desired, |desired.backends|)[k].id);
            st.mode == WgPrimary && st.consecutiveFailures == 0
  {
    var run := FinishedRoundsAreARun(desired, files, rounds, k);
    forall i | i in run ensures i.PrimaryUp() && i.failForward {
      var j :| 0 <= j < |run| && run[j] == i;
      assert run[j] == rounds[j].inputs[k];
    }
    FailForwardEndsInWg(Lookup(files[0], desired.nodeId, Managed(desired, |desired.backends|)[k].id), run);
  }
}
