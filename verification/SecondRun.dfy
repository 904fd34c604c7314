/** Two reconciliations in a row, the second of which fails. What the managers still remember
    of the first one is undone by the rollback of the second one, although that one changed
    nothing (internal/engine/engine.go, internal/firewall/iptables.go:118-213,
    internal/haproxy/manager.go:85-161). */
module SecondRun {
  import opened Model
  import opened Text
  import opened Tables
  import opened HostState
  import opened RuleText
  import opened FirewallSpec
  import opened FirewallSync
  import opened FirewallFrames
  import opened FirewallRecord
  import opened FirewallLedger
  import opened EngineSpec
  import opened Runs
  import opened Engine
  import W = WireGuard
  import H = Haproxy
  import HT = HaproxyText
  import HB = HaproxyBlock
  import HR = HaproxyRead
  import F = Firewall
  import R = Reconcile
  import Sorting

  /** The second desired state differs from the first one in its routes, which the HAProxy
      manager refuses: one of them is not valid, or they cannot be rendered. */
  ghost predicate Refused(first: DesiredState, second: DesiredState, text: string, checks: H.RouteChecks) {
    && second.tunnels == first.tunnels && second.mappings == first.mappings && second.backends == first.backends
    && first.sniRoutes != [] && second.sniRoutes != [] && R.Digest(second.sniRoutes) != R.Digest(first.sniRoutes)
    && (forall r | r in second.sniRoutes :: HR.Complete(r))
    && HT.SplitManaged(text).Sections? && !H.PortBoundElsewhere(HT.SplitManaged(text).unmanaged, second.sniRoutes)
    && ((exists r :: r in second.sniRoutes && !H.ValidRoute(r, checks))
        || HB.Rendered(second.sniRoutes, second.backends).None?)
  }

  // ------------------------------------------------------- after the first run

  /** What the first run added is on record and can be taken back, chain by chain. */
  lemma FirstIsRetrievable(t: Chains, t': Chains, record: Record, desired: DesiredState)
    requires Bare(t) && ValidMappings(desired) && Steps(t, desired) != []
    requires RulesMoved(desired, t, t', record.added, record.deleted)
    ensures Retrievable(t', record)
    ensures forall t'' | Undone(t', t'', record.added, record.deleted) ::
              forall s: Slot :: RulesOf(t'', ViewOf(s)) == []
  {
    BareIsWellFormed(t);
    BareStepsAdd(t, desired);
    RollbackUndoesApply(t, t', record.added, record.deleted, desired);
    NothingWasDeleted(t, t', record.added, record.deleted, desired);
  }

  lemma NothingWasDeleted(t: Chains, t': Chains, added: seq<Placed>, deleted: seq<Placed>, desired: DesiredState)
    requires WellFormed(t) && ValidMappings(desired)
    requires Reached(t, t', added, deleted, Steps(t, desired), |Steps(t, desired)|, R.WantedMappings(desired),
                     desired.backends)
    requires forall a | a in Steps(t, desired) :: a.kind.Add?
    ensures deleted == []
  {
    var actions, _ := StepsCarriedOut(t, t', added, deleted, desired);
    ResolvedKinds(Steps(t, desired), R.WantedMappings(desired), desired.backends);
    if deleted != [] {
      var n := |deleted| - 1;
      assert deleted[n] in deleted;
      var s: Slot :| deleted[n].view == ViewOf(s);
      assert Join(deleted[n].args) in RulesIn(deleted, ViewOf(s));
      TakenMembers(RulesOf(t, ViewOf(s)), CodecOf(s), actions, Join(deleted[n].args));
      assert false;
    }
  }

  /** What discovery reads of a file does not depend on the routes, but for conflicts. */
  lemma SeenAlike(file: Option<string>, path: string, a: seq<SniRoute>, b: seq<SniRoute>)
    requires H.Seen(file, path, a).Some?
    ensures H.Seen(file, path, b).Some?
    ensures H.Seen(file, path, b).value.digest == H.Seen(file, path, a).value.digest
    ensures H.Seen(file, path, b).value.routes == H.Seen(file, path, a).value.routes
  {
  }

  /** After the first run the file can be read and binds nothing that is wanted now. */
  lemma SecondIsOpen(first: DesiredState, second: DesiredState, s: State, s': State, path: string,
                     checks: H.RouteChecks)
    requires ValidRoutes(first, s.Text(), checks) && Refused(first, second, s.Text(), checks)
    requires H.Seen(s.file, path, first.sniRoutes).Some?
    requires if SniSteps(first, s, path) == [] then s'.file == s.file else Written(first, s.Text(), s'.file)
    requires CalmIn(first, s', path, HaproxyPart)
    ensures H.Seen(s'.file, path, second.sniRoutes).Some?
            && H.Seen(s'.file, path, second.sniRoutes).value.conflicts == []
    ensures SniSteps(second, s', path) != []
  {
    SeenAlike(s'.file, path, first.sniRoutes, second.sniRoutes);
    if SniSteps(first, s, path) != [] {
      WrittenIsOpen(first, second.sniRoutes, s.Text(), s'.file, path, checks);
    }
    SniStepsOfBoth(first.sniRoutes, second.sniRoutes, H.Seen(s'.file, path, first.sniRoutes).value);
  }

  lemma RefusedIsNotAppliable(first: DesiredState, second: DesiredState, text: string, now: string,
                              checks: H.RouteChecks)
    requires Refused(first, second, text, checks)
    ensures !H.Appliable(now, second.sniRoutes, second.backends, checks)
  {
  }

  lemma SecondHasNoConflict(first: DesiredState, second: DesiredState, s: State, path: string)
    requires second.tunnels == first.tunnels && Calm(first, s, path)
    requires H.Seen(s.file, path, second.sniRoutes).Some?
             && H.Seen(s.file, path, second.sniRoutes).value.conflicts == []
    ensures ActualOf(second, s, path).conflicts == []
  {
    assert CalmIn(first, s, path, TunnelPart);
    assert CalmIn(first, s, path, FirewallPart);
    ConflictParts(second, s, path);
  }

  lemma SniStepsOfBoth(first: seq<SniRoute>, second: seq<SniRoute>, d: H.Discovery)
    requires first != [] && second != [] && R.Digest(second) != R.Digest(first)
    requires R.HaproxySteps(first, d.digest, d.routes) == []
    ensures R.HaproxySteps(second, d.digest, d.routes) != []
  {
    assert R.RouteAdds(first) != [] && R.RouteAdds(second) != [];
  }

  // -------------------------------------------------------------- both runs

  /** What is on the host and on record after the first run. */
  ghost predicate Pending(b: Before, mid: Before, s: State, s': State, first: DesiredState, path: string,
                          backup: string) {
    && Synced(mid.tables, first) && RulesOf(mid.tables, ViewOf(Slot(Dnat, false))) != []
    && Steps(b.tables, first) != [] && RulesMoved(first, b.tables, mid.tables, mid.record.added, mid.record.deleted)
    && H.Seen(s.file, path, first.sniRoutes).Some? && Calm(first, s', path)
    && (if SniSteps(first, s, path) == [] then s'.file == s.file else Written(first, s.Text(), s'.file))
    && (if mid.lastBackup == "" then mid.files == b.files
        else mid.lastBackup == backup && H.FileAt(mid.files, backup) == Some(H.Content(b.files, path)))
  }

  method FirstRun(e: ReconcileEngine, first: DesiredState, backup: string) returns (ghost mid: Before)
    requires e.Valid() && e.fw != null && e.wg != null && e.hp != null && backup != e.hp.path && backup != ""
    requires e.hp.lastBackup == "" && e.Favourable(first) && Bare(e.host.tables) && first.mappings != []
    modifies e.host, e.wg, e.hp, e.fw
    ensures mid == e.Start() && Pending(old(e.Start()), mid, old(e.StateOf()), e.StateOf(), first, e.hp.path, backup)
    ensures FaultFree(e.host.faults) && e.Standard(first)
  {
    ghost var b, s := e.Start(), e.StateOf();
    ReadyFacts(first, s, e.hp.path, e.wg.checks, e.hp.checks);
    var verdict, res, undone;
    ghost var d;
    verdict, res, undone, d := e.Reconcile(first, false, backup);
    mid := e.Start();
    SyncedHoldsRules(mid.tables, first);
    assert RulesOf(b.tables, ViewOf(Slot(Dnat, false))) == [];
    assert verdict.Reconciled?;
  }

  /** A run that succeeds, and another one that HAProxy refuses although no command fails. The
      second run takes away the rules that the first one added and puts back the text from
      before the first one. */
  method FailAfterSuccess(e: ReconcileEngine, first: DesiredState, second: DesiredState, backup: string,
                          backup': string)
    returns (ghost mid: Before)
    requires e.Valid() && e.fw != null && e.wg != null && e.hp != null
    requires backup != e.hp.path && backup' != e.hp.path && backup != "" && backup' != ""
    requires e.hp.lastBackup == "" && e.Favourable(first) && Bare(e.host.tables) && first.mappings != []
    requires Refused(first, second, e.StateOf().Text(), e.hp.checks)
    modifies e.host, e.wg, e.hp, e.fw
    ensures Pending(old(e.Start()), mid, old(e.StateOf()), e.StateAt(mid), first, e.hp.path, backup)
    ensures forall s: Slot :: RulesOf(e.host.tables, ViewOf(s)) == []
    ensures H.Content(e.host.files, e.hp.path) == old(H.Content(e.host.files, e.hp.path))
  {
    ghost var b, s := e.Start(), e.StateOf();
    ReadyFacts(first, s, e.hp.path, e.wg.checks, e.hp.checks);
    mid := FirstRun(e, first, backup);
    SecondIsRefused(e, first, second, s, e.StateOf());
    RefusedRun(e, second, backup', mid);
    FirstIsTakenBack(e, b, mid, first, backup);
  }

  method RefusedRun(e: ReconcileEngine, desired: DesiredState, backup: string, ghost b: Before)
    requires e.Valid() && e.hp != null && e.wg != null && e.fw != null && backup != e.hp.path && backup != ""
    requires b == e.Start() && e.Refusable(desired)
    modifies e.host, e.wg, e.hp, e.fw
    ensures e.Withdrawn(b)
  {
    var verdict, res, undone;
    ghost var d;
    verdict, res, undone, d := e.Reconcile(desired, false, backup);
  }

  lemma FirstIsTakenBack(e: ReconcileEngine, b: Before, mid: Before, first: DesiredState, backup: string)
    requires e.hp != null && e.Withdrawn(mid) && backup != ""
    requires Bare(b.tables) && ValidMappings(first)
    requires Steps(b.tables, first) != [] && RulesMoved(first, b.tables, mid.tables, mid.record.added,
                                                        mid.record.deleted)
    requires if mid.lastBackup == "" then mid.files == b.files
             else mid.lastBackup == backup && H.FileAt(mid.files, backup) == Some(H.Content(b.files, e.hp.path))
    ensures forall s: Slot :: RulesOf(e.host.tables, ViewOf(s)) == []
    ensures H.Content(e.host.files, e.hp.path) == H.Content(b.files, e.hp.path)
  {
    FirstIsRetrievable(b.tables, mid.tables, mid.record, first);
  }

  lemma SecondIsRefused(e: ReconcileEngine, first: DesiredState, second: DesiredState, s: State, s': State)
    requires e.Valid() && e.hp != null && e.wg != null && FaultFree(e.host.faults) && e.Standard(first)
    requires ValidTunnels(first.tunnels, e.wg.checks) && s' == e.StateOf()
    requires ValidRoutes(first, s.Text(), e.hp.checks) && Refused(first, second, s.Text(), e.hp.checks)
    requires H.Seen(s.file, e.hp.path, first.sniRoutes).Some? && Calm(first, s', e.hp.path)
    requires if SniSteps(first, s, e.hp.path) == [] then s'.file == s.file else Written(first, s.Text(), s'.file)
    ensures e.Refusable(second)
  {
    assert CalmIn(first, s', e.hp.path, HaproxyPart);
    SecondIsOpen(first, second, s, s', e.hp.path, e.hp.checks);
    SecondHasNoConflict(first, second, s', e.hp.path);
    RefusedIsNotAppliable(first, second, s.Text(), s'.Text(), e.hp.checks);
    PlanGoes(second, s', e.hp.path);
  }

  // ------------------------------------------------------------- an example

  lemma SortedPair(x: string, y: string)
    ensures |R.JoinBar(Sorting.Sort([x, y]))| == |x| + |y| + 1
  {
    var s := Sorting.Sort([x, y]);
    assert [x, y][1..] == [y] && [y][1..] == [];
    assert Sorting.Sort([y]) == [y];
    assert s == Sorting.Insert(x, [y]) && [y][0] == y && Sorting.Insert(x, []) == [x];
    assert s == [x, y] || s == [y, x];
    assert s[1..] == [s[1]];
  }

  /** A route whose only match names another backend, of a longer id, has another digest. */
  lemma OtherBackendShows(r: SniRoute, m: SniMatch)
    ensures R.Digest([r.(matches := [m])]) != R.Digest([r.(matches := [Stray(m)])])
  {
    var known, stray := r.(matches := [m]), r.(matches := [Stray(m)]);
    assert [known][..0] == [] && [stray][..0] == [] && [m][..0] == [] && [Stray(m)][..0] == [];
    assert R.MatchLines([m]) == [R.MatchLine(m)] && known.matches == [m];
    assert R.MatchLines([Stray(m)]) == [R.MatchLine(Stray(m))] && stray.matches == [Stray(m)];
    assert R.SniParts([known]) == [R.SniLine(known), R.MatchLine(m)];
    assert R.SniParts([stray]) == [R.SniLine(stray), R.MatchLine(Stray(m))];
    SortedPair(R.SniLine(known), R.MatchLine(m));
    SortedPair(R.SniLine(stray), R.MatchLine(Stray(m)));
    assert R.SniLine(known) == R.SniLine(stray);
  }

  /** The match, but for a backend id that is no one's. */
  function Stray(m: SniMatch): (m': SniMatch) { m.(backendId := m.backendId + "x") }

  /** The sample of a fresh node, but for a match that names no known backend. Such a route is
      valid: whether its backend is known is not looked up. */
  function Spoilt(sample: DesiredState): (desired: DesiredState)
    requires |sample.sniRoutes| == 1 && |sample.sniRoutes[0].matches| == 1
  {
    sample.(sniRoutes := [sample.sniRoutes[0].(matches := [Stray(sample.sniRoutes[0].matches[0])])])
  }

  /** It is valid and complete, as the route it comes from is; but its backend is unknown. */
  lemma StrayIsUnknown(r: SniRoute, stray: SniRoute, b: Backend, checks: H.RouteChecks)
    requires |r.matches| == 1 && HR.Complete(r) && H.ValidRoute(r, checks)
             && stray == r.(matches := [Stray(r.matches[0])])
    requires r.matches[0].backendId == b.id && r.matches[0].backend == ""
    ensures HR.Complete(stray) && H.ValidRoute(stray, checks) && HB.Rendered([stray], [b]).None?
  {
    var m := r.matches[0];
    assert m in r.matches && H.ValidMatch(m, checks);
    assert r.matches[..0] == [] && stray.matches[..0] == [] && r.matches[1..] == [] && stray.matches[1..] == [];
    ByKeyKeys([b], R.BackendId);
    HB.RefusedIff([stray], [b]);
    assert stray in [stray] && Stray(m) in stray.matches;
    assert HB.ResolveBackend(Stray(m), ByKey([b], R.BackendId), ByKey([b], HB.BackendName)).None?;
  }

  lemma SpoiltIsRefused(sample: DesiredState, r: SniRoute, b: Backend, checks: H.RouteChecks)
    requires sample.sniRoutes == [r] && |r.matches| == 1 && HR.Complete(r) && H.ValidRoute(r, checks)
    requires sample.backends == [b] && r.matches[0].backendId == b.id && r.matches[0].backend == ""
    ensures Refused(sample, Spoilt(sample), "", checks)
    ensures forall r | r in Spoilt(sample).sniRoutes :: H.ValidRoute(r, checks)
  {
    var stray := Spoilt(sample).sniRoutes[0];
    StrayIsUnknown(r, stray, b, checks);
    OtherBackendShows(r, r.matches[0]);
    assert r == r.(matches := [r.matches[0]]);
    EmptyFileIsFree();
    EmptyFileBindsNothing([stray]);
  }

  /** A new host, a run for the sample, which succeeds, and one for the spoilt sample, whose
      routes are valid but cannot be rendered: in between the mapping is forwarded and the block is in the file, after
      that no rule and no text is left. */
  method Example(checks: W.Checks, routeChecks: H.RouteChecks) returns (host: Host, ghost mid: Before)
    requires checks.name(UPLINK.interfaceName) && checks.tunnel(UPLINK) && routeChecks.listen(BY_NAME.listen)
    ensures RulesOf(mid.tables, ViewOf(Slot(Dnat, false))) != [] && Written(SAMPLE, "", H.FileAt(mid.files, "h"))
    ensures forall s: Slot :: RulesOf(host.tables, ViewOf(s)) == []
    ensures H.Content(host.files, "h") == ""
  {
    host := new Host(n => false, BUILT_IN, map[], {}, map[]);
    var fw := new F.IptablesManager(host, false);
    var wg := new W.WgManager(host, checks);
    var hp := new H.HaproxyManager(host, "h", false, routeChecks);
    var e := new ReconcileEngine(host, fw, wg, hp, null);
    var desired := SAMPLE;
    NewHostIsReady(desired, "h", checks, routeChecks);
    NewHostIsBare();
    SampleFits(desired, routeChecks);
    assert e.StateOf() == State(BUILT_IN, map[], None);
    mid := FailAfterSuccess(e, desired, Spoilt(desired), "b", "c");
    FreshIsWritten(desired, State(BUILT_IN, map[], None), "h");
  }

  lemma SampleFits(desired: DesiredState, checks: H.RouteChecks)
    requires desired == SAMPLE && checks.listen(BY_NAME.listen)
    ensures desired.mappings != [] && |desired.sniRoutes| == 1 && |desired.sniRoutes[0].matches| == 1
    ensures Refused(desired, Spoilt(desired), "", checks)
    ensures forall r | r in Spoilt(desired).sniRoutes :: H.ValidRoute(r, checks)
    ensures forall t | t in desired.tunnels :: t.kind.WireGuard? && t == UPLINK
  {
    var r := desired.sniRoutes[0];
    assert r == BY_NAME;
    RouteIsValid(r, EDGE, checks);
    SpoiltIsRefused(desired, r, EDGE, checks);
  }

  /** Where there is no file, wanted routes are to be written. */
  lemma FreshIsWritten(desired: DesiredState, s: State, path: string)
    requires s.file == None && desired.sniRoutes != []
    ensures H.Seen(s.file, path, desired.sniRoutes).Some? && SniSteps(desired, s, path) != []
  {
    assert R.RouteAdds(desired.sniRoutes) != [];
  }
}
