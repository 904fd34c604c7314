/** What one reconciliation aims at, as functions on the state of the host
    (internal/engine/engine.go, internal/reconcile/plan.go). */
module EngineSpec {
  import opened Model
  import opened Text
  import opened Tables
  import opened HostState
  import opened FirewallSpec
  import opened FirewallSync
  import opened FirewallFrames
  import opened FirewallRecord
  import W = WireGuard
  import H = Haproxy
  import HT = HaproxyText
  import HB = HaproxyBlock
  import HR = HaproxyRead
  import MarkedText
  import R = Reconcile

  /** The parts of the host a reconciliation looks at. */
  datatype State = State(tables: Chains, links: Links, file: Option<string>) {
    function Text(): (r: string) { file.GetOr("") }
  }

  /** What a discovery in which no command fails reports, on a node with a firewall, a
      WireGuard and an HAProxy manager and no SSH tunnel. */
  function ActualOf(desired: DesiredState, s: State, path: string): (r: ActualState)
    requires H.Seen(s.file, path, desired.sniRoutes).Some?
  {
    var names := W.Wanted(desired.tunnels);
    var d := H.Seen(s.file, path, desired.sniRoutes).value;
    ActualState(W.SeenAll(s.links, names), Listing(s.tables, SLOTS, CodecOf), d.digest, d.routes,
                Aliens(s.tables, SLOTS, CodecOf) + W.MisfitsAmong(s.links, names) + d.conflicts)
  }

  /** The three subsystems a reconciliation works over. */
  datatype Part = TunnelPart | FirewallPart | HaproxyPart

  /** Discovery of one subsystem finds what is desired, and no conflict. */
  ghost predicate CalmIn(desired: DesiredState, s: State, path: string, part: Part) {
    match part
    case TunnelPart =>
      && R.TunnelSteps(R.WantedTunnels(desired), ByKey(W.SeenAll(s.links, W.Wanted(desired.tunnels)),
                                                       R.ActualInterfaceOf)) == []
      && W.MisfitsAmong(s.links, W.Wanted(desired.tunnels)) == []
    case FirewallPart =>
      Steps(s.tables, desired) == [] && Aliens(s.tables, SLOTS, CodecOf) == []
    case HaproxyPart =>
      && H.Seen(s.file, path, desired.sniRoutes).Some?
      && H.Seen(s.file, path, desired.sniRoutes).value.conflicts == []
      && SniSteps(desired, s, path) == []
  }

  /** Discovery finds what is desired everywhere, and no conflict. */
  ghost predicate Calm(desired: DesiredState, s: State, path: string) {
    forall part: Part :: CalmIn(desired, s, path, part)
  }

  /** A host is calm if and only if the plan made from discovery is empty. */
  lemma CalmIffNothingToPlan(desired: DesiredState, s: State, path: string)
    ensures Calm(desired, s, path)
            <==> H.Seen(s.file, path, desired.sniRoutes).Some?
                 && R.Difference(desired, ActualOf(desired, s, path)) == R.Plan([], [])
  {
    if Calm(desired, s, path) {
      assert CalmIn(desired, s, path, TunnelPart) && CalmIn(desired, s, path, FirewallPart)
             && CalmIn(desired, s, path, HaproxyPart);
      PlanParts(desired, s, path);
    }
    if H.Seen(s.file, path, desired.sniRoutes).Some?
        && R.Difference(desired, ActualOf(desired, s, path)) == R.Plan([], []) {
      PlanParts(desired, s, path);
      ConflictParts(desired, s, path);
      forall part: Part ensures CalmIn(desired, s, path, part) {
      }
    }
  }

  function TunnelId(t: Tunnel): (r: string) { t.id }

  ghost predicate ValidTunnels(tunnels: seq<Tunnel>, checks: W.Checks) {
    && UniqueKeys(tunnels, R.InterfaceOf) && UniqueKeys(tunnels, TunnelId)
    && forall t | t in tunnels :: ValidTunnel(t, checks)
  }

  ghost predicate ValidTunnel(t: Tunnel, checks: W.Checks) {
    W.Acceptable(t, checks) && (t.publicKey == "" || t.endpoint == "" || checks.endpoint(t.endpoint))
  }

  ghost predicate ValidRoutes(desired: DesiredState, text: string, checks: H.RouteChecks) {
    && H.Appliable(text, desired.sniRoutes, desired.backends, checks)
    && HT.Unmarked(HT.SplitManaged(text).unmanaged)
    && HB.TameConfig(desired.sniRoutes, desired.backends)
    && forall r | r in desired.sniRoutes :: HR.Complete(r)
  }

  /** One subsystem is free of conflicts, and its part of the desired state valid. */
  ghost predicate ReadyIn(desired: DesiredState, s: State, path: string, checks: W.Checks, routeChecks: H.RouteChecks,
                          part: Part) {
    match part
    case TunnelPart =>
      ValidTunnels(desired.tunnels, checks) && W.MisfitsAmong(s.links, W.Wanted(desired.tunnels)) == []
    case FirewallPart =>
      WellFormed(s.tables) && ParentsExist(s.tables) && ValidMappings(desired) && Aliens(s.tables, SLOTS, CodecOf) == []
    case HaproxyPart =>
      && ValidRoutes(desired, s.Text(), routeChecks)
      && H.Seen(s.file, path, desired.sniRoutes).Some?
      && H.Seen(s.file, path, desired.sniRoutes).value.conflicts == []
  }

  /** A conflict-free host and a valid desired state. */
  ghost predicate Ready(desired: DesiredState, s: State, path: string, checks: W.Checks, routeChecks: H.RouteChecks) {
    forall part: Part :: ReadyIn(desired, s, path, checks, routeChecks, part)
  }

  lemma ReadyFacts(desired: DesiredState, s: State, path: string, checks: W.Checks, routeChecks: H.RouteChecks)
    requires Ready(desired, s, path, checks, routeChecks)
    ensures ValidTunnels(desired.tunnels, checks) && W.MisfitsAmong(s.links, W.Wanted(desired.tunnels)) == []
    ensures WellFormed(s.tables) && ParentsExist(s.tables) && ValidMappings(desired)
            && Aliens(s.tables, SLOTS, CodecOf) == []
    ensures ValidRoutes(desired, s.Text(), routeChecks)
    ensures H.Seen(s.file, path, desired.sniRoutes).Some?
    ensures H.Seen(s.file, path, desired.sniRoutes).value.conflicts == []
  {
    assert ReadyIn(desired, s, path, checks, routeChecks, TunnelPart);
    assert ReadyIn(desired, s, path, checks, routeChecks, FirewallPart);
    assert ReadyIn(desired, s, path, checks, routeChecks, HaproxyPart);
  }

  // ---------------------------------------------------------------- tunnels

  /** The link has what discovery compares. */
  predicate Matches(l: Link, t: Tunnel) {
    W.LocalIp(l.addrs) == t.localOverlayIp && l.listen == t.listenPort
  }

  lemma {:induction false} WantedNames(tunnels: seq<Tunnel>)
    ensures forall n ::
              n in W.Wanted(tunnels) <==> exists t :: t in tunnels && t.kind.WireGuard? && t.interfaceName == n
  {
    if tunnels != [] {
      var k := |tunnels| - 1;
      WantedNames(tunnels[..k]);
      assert tunnels == tunnels[..k] + [tunnels[k]];
      forall n ensures n in W.Wanted(tunnels)
      <==> exists t :: t in tunnels && t.kind.WireGuard? && t.interfaceName == n {
        if n in W.Wanted(tunnels[..k]) {
          var t :| t in tunnels[..k] && t.kind.WireGuard? && t.interfaceName == n;
          assert t in tunnels;
        }
        if t :| t in tunnels && t.kind.WireGuard? && t.interfaceName == n {
          assert t in tunnels[..k] || t == tunnels[k];
        }
      }
    }
  }

  lemma {:induction false} SeenTable(links: Links, names: seq<string>)
    ensures var table := ByKey(W.SeenAll(links, names), R.ActualInterfaceOf);
            (forall n :: n in table <==> n in names) && forall n | n in names :: table[n] == W.Seen(links, n)
  {
    if names != [] {
      var k := |names| - 1;
      var all := W.SeenAll(links, names);
      assert all == W.SeenAll(links, names[..k]) + [W.Seen(links, names[k])];
      assert all[..|all| - 1] == W.SeenAll(links, names[..k]);
      assert names == names[..k] + [names[k]];
      SeenTable(links, names[..k]);
    }
  }

  lemma {:induction false} MisfitsEmpty(links: Links, names: seq<string>)
    ensures W.MisfitsAmong(links, names) == [] <==> forall n | n in names && n in links :: links[n].kind == WIREGUARD
  {
    if names != [] {
      var k := |names| - 1;
      assert names == names[..k] + [names[k]];
      MisfitsEmpty(links, names[..k]);
    }
  }

  /** The tunnels by interface name hold every tunnel under its name. */
  lemma TunnelTable(desired: DesiredState, checks: W.Checks)
    requires ValidTunnels(desired.tunnels, checks)
    ensures var want := R.WantedTunnels(desired);
            && (forall n :: n in want <==> n in W.Wanted(desired.tunnels))
            && (forall n | n in want ::
                want[n] in desired.tunnels && want[n].interfaceName == n && ValidTunnel(want[n], checks))
            && (forall t | t in desired.tunnels :: t.interfaceName in want && want[t.interfaceName] == t)
            && (forall t | t in desired.tunnels ::
                t.id in ByKey(desired.tunnels, TunnelId) && ByKey(desired.tunnels, TunnelId)[t.id] == t)
  {
    var want := R.WantedTunnels(desired);
    WantedNames(desired.tunnels);
    ByKeyKeys(desired.tunnels, R.InterfaceOf);
    forall n | n in want ensures want[n] in desired.tunnels && want[n].interfaceName == n {
      assert R.InterfaceOf(want[n]) == n;
    }
    forall t | t in desired.tunnels
      ensures t.interfaceName in want && want[t.interfaceName] == t
      ensures t.id in ByKey(desired.tunnels, TunnelId) && ByKey(desired.tunnels, TunnelId)[t.id] == t
    {
      var i :| 0 <= i < |desired.tunnels| && desired.tunnels[i] == t;
      ByKeyHolds(desired.tunnels, R.InterfaceOf, i);
      ByKeyHolds(desired.tunnels, TunnelId, i);
      assert R.InterfaceOf(t) == t.interfaceName && TunnelId(t) == t.id;
    }
    forall n ensures n in want <==> n in W.Wanted(desired.tunnels) {
      if n in W.Wanted(desired.tunnels) {
        var t :| t in desired.tunnels && t.kind.WireGuard? && t.interfaceName == n;
      }
      if n in want {
        assert want[n] in desired.tunnels && ValidTunnel(want[n], checks);
      }
    }
  }

  /** What applying the tunnel actions leaves: the interfaces with an action match, the
      others are untouched, and no interface has changed its kind. */
  ghost predicate Tended(desired: DesiredState, links: Links, links': Links) {
    var want := R.WantedTunnels(desired);
    && (forall n | n in want ::
          if n !in links || R.TunnelChanged(want[n], W.Seen(links, n)) then n in links' && Matches(links'[n], want[n])
          else n in links' && links'[n] == links[n])
    && (forall n | n in links' :: if n in links then links'[n].kind == links[n].kind else links'[n].kind == WIREGUARD)
  }

  lemma TunnelsAreCalm(desired: DesiredState, links: Links, checks: W.Checks)
    requires ValidTunnels(desired.tunnels, checks)
    requires forall n | n in R.WantedTunnels(desired) ::
               n in links && !R.TunnelChanged(R.WantedTunnels(desired)[n], W.Seen(links, n))
    ensures R.TunnelSteps(R.WantedTunnels(desired),
                          ByKey(W.SeenAll(links, W.Wanted(desired.tunnels)), R.ActualInterfaceOf)) == []
  {
    var want := R.WantedTunnels(desired);
    var have := ByKey(W.SeenAll(links, W.Wanted(desired.tunnels)), R.ActualInterfaceOf);
    TunnelTable(desired, checks);
    SeenTable(links, W.Wanted(desired.tunnels));
    assert want.Keys == have.Keys;
    R.TunnelStepsEmpty(want, have);
  }

  lemma TendedIsCalm(desired: DesiredState, links: Links, links': Links, checks: W.Checks)
    requires ValidTunnels(desired.tunnels, checks) && Tended(desired, links, links')
    requires W.MisfitsAmong(links, W.Wanted(desired.tunnels)) == []
    ensures R.TunnelSteps(R.WantedTunnels(desired),
                          ByKey(W.SeenAll(links', W.Wanted(desired.tunnels)), R.ActualInterfaceOf)) == []
    ensures W.MisfitsAmong(links', W.Wanted(desired.tunnels)) == []
  {
    MisfitsEmpty(links, W.Wanted(desired.tunnels));
    MisfitsEmpty(links', W.Wanted(desired.tunnels));
    TunnelTable(desired, checks);
    TunnelsAreCalm(desired, links', checks);
  }

  // ---------------------------------------------------------------- haproxy

  /** The HAProxy part of a plan. */
  function SniSteps(desired: DesiredState, s: State, path: string): (r: seq<R.Action>)
    requires H.Seen(s.file, path, desired.sniRoutes).Some?
  {
    var d := H.Seen(s.file, path, desired.sniRoutes).value;
    R.HaproxySteps(desired.sniRoutes, d.digest, d.routes)
  }

  /** The configuration as Apply leaves it. */
  ghost predicate Written(desired: DesiredState, text: string, file: Option<string>) {
    && HT.SplitManaged(text).Sections? && HB.Rendered(desired.sniRoutes, desired.backends).Some?
    && file == Some(MarkedText.JoinConfig(HT.SplitManaged(text).unmanaged,
                                          HB.Rendered(desired.sniRoutes, desired.backends).value))
  }

  lemma WrittenIsCalm(desired: DesiredState, s: State, file: Option<string>, path: string, checks: H.RouteChecks)
    requires ValidRoutes(desired, s.Text(), checks) && Written(desired, s.Text(), file)
    ensures H.Seen(file, path, desired.sniRoutes).Some?
    ensures H.Seen(file, path, desired.sniRoutes).value.conflicts == []
    ensures SniSteps(desired, s.(file := file), path) == []
  {
    H.AppliedIsSeen(s.Text(), path, desired.sniRoutes, desired.backends, checks);
    if desired.sniRoutes != [] {
      HB.DigestIsQuiet(desired.sniRoutes);
    }
  }

  // ------------------------------------------------------------------- all

  lemma PlanParts(desired: DesiredState, s: State, path: string)
    requires H.Seen(s.file, path, desired.sniRoutes).Some?
    ensures R.Difference(desired, ActualOf(desired, s, path)).actions
            == R.TunnelSteps(R.WantedTunnels(desired),
                             ByKey(W.SeenAll(s.links, W.Wanted(desired.tunnels)), R.ActualInterfaceOf))
               + Steps(s.tables, desired) + SniSteps(desired, s, path)
  {
  }

  lemma ConflictParts(desired: DesiredState, s: State, path: string)
    requires H.Seen(s.file, path, desired.sniRoutes).Some?
    ensures ActualOf(desired, s, path).conflicts == []
            <==> Aliens(s.tables, SLOTS, CodecOf) == [] && W.MisfitsAmong(s.links, W.Wanted(desired.tunnels)) == []
                 && H.Seen(s.file, path, desired.sniRoutes).value.conflicts == []
  {
  }

  /** What a completely applied plan has done: to the tunnels, to the HAProxy file if the plan
      asked for it, and to the firewall if it asked for that. */
  ghost predicate Reconciled(desired: DesiredState, s: State, s': State, path: string, added: seq<Placed>,
                             deleted: seq<Placed>)
    requires H.Seen(s.file, path, desired.sniRoutes).Some?
  {
    && Tended(desired, s.links, s'.links)
    && (if SniSteps(desired, s, path) == [] then s'.file == s.file else Written(desired, s.Text(), s'.file))
    && (if Steps(s.tables, desired) == [] then s'.tables == s.tables
        else Reached(s.tables, s'.tables, added, deleted, Steps(s.tables, desired), |Steps(s.tables, desired)|,
                     R.WantedMappings(desired), desired.backends))
  }

  /** Applying a plan completely on a ready host leaves nothing to plan and no conflict. */
  lemma ReconciledIsCalm(desired: DesiredState, s: State, s': State, path: string, checks: W.Checks,
                         routeChecks: H.RouteChecks, added: seq<Placed>, deleted: seq<Placed>)
    requires Ready(desired, s, path, checks, routeChecks) && H.Seen(s.file, path, desired.sniRoutes).Some?
    requires Reconciled(desired, s, s', path, added, deleted)
    ensures Calm(desired, s', path)
  {
    ReadyFacts(desired, s, path, checks, routeChecks);
    forall part: Part ensures CalmIn(desired, s', path, part) {
      match part
      case TunnelPart => TendedIsCalm(desired, s.links, s'.links, checks);
      case FirewallPart => RulesAreCalm(desired, s.tables, s'.tables, added, deleted);
      case HaproxyPart => RoutesAreCalm(desired, s, s', path, routeChecks);
    }
  }

  lemma RulesAreCalm(desired: DesiredState, t: Chains, t': Chains, added: seq<Placed>, deleted: seq<Placed>)
    requires WellFormed(t) && ValidMappings(desired) && Aliens(t, SLOTS, CodecOf) == []
    requires if Steps(t, desired) == [] then t' == t
             else Reached(t, t', added, deleted, Steps(t, desired), |Steps(t, desired)|, R.WantedMappings(desired),
                          desired.backends)
    ensures Steps(t', desired) == [] && Aliens(t', SLOTS, CodecOf) == []
  {
    if Steps(t, desired) != [] {
      SuccessfulApplySyncs(t, t', added, deleted, desired);
    }
  }

  lemma RoutesAreCalm(desired: DesiredState, s: State, s': State, path: string, checks: H.RouteChecks)
    requires ValidRoutes(desired, s.Text(), checks)
    requires H.Seen(s.file, path, desired.sniRoutes).Some?
             && H.Seen(s.file, path, desired.sniRoutes).value.conflicts == []
    requires if SniSteps(desired, s, path) == [] then s'.file == s.file else Written(desired, s.Text(), s'.file)
    ensures CalmIn(desired, s', path, HaproxyPart)
  {
    if SniSteps(desired, s, path) != [] {
      WrittenIsCalm(desired, s, s'.file, path, checks);
    }
  }

  /** No interface that discovery reports is one that nobody wants. */
  ghost predicate NoStrangers(desired: DesiredState, actual: ActualState) {
    forall a | a in actual.tunnels :: exists t :: t in desired.tunnels && t.interfaceName == a.interfaceName
  }

  ghost predicate NoTunnelDeletes(actions: seq<R.Action>) {
    forall a | a in actions && a.target.TunnelTarget? :: !a.kind.Delete?
  }

  /** A plan computed from the engine's own discovery never deletes a tunnel. */
  lemma PlansDeleteNoTunnel(desired: DesiredState, actual: ActualState)
    requires NoStrangers(desired, actual)
    ensures NoTunnelDeletes(R.Difference(desired, actual).actions)
  {
    var want, have := R.WantedTunnels(desired), R.FoundTunnels(actual);
    ByKeyKeys(desired.tunnels, R.InterfaceOf);
    ByKeyKeys(actual.tunnels, R.ActualInterfaceOf);
    forall n | n in have ensures n in want {
      assert have[n] in actual.tunnels && R.ActualInterfaceOf(have[n]) == n;
      var t :| t in desired.tunnels && t.interfaceName == n;
      var i :| 0 <= i < |desired.tunnels| && desired.tunnels[i] == t;
      assert R.InterfaceOf(desired.tunnels[i]) == n;
    }
    var names := R.TunnelStepsAreExact(want, have);
    forall a | a in R.TunnelSteps(want, have) ensures !a.kind.Delete? {
      var i :| 0 <= i < |names| && R.TunnelSteps(want, have)[i] == a;
      assert names[i] in names;
    }
    StepsAreRules(R.WantedMappings(desired), R.FoundRules(actual.firewallRules), R.BackendTable(desired));
    SniStepsAreHaproxy(desired.sniRoutes, actual.haproxyDigest, actual.sniRoutes);
  }

  lemma SniStepsAreHaproxy(desired: seq<SniRoute>, digest: string, parsed: seq<SniRoute>)
    ensures forall a | a in R.HaproxySteps(desired, digest, parsed) :: a.target.HaproxyTarget?
  {
    RouteAddsAreHaproxy(desired);
  }

  lemma {:induction false} RouteAddsAreHaproxy(routes: seq<SniRoute>)
    ensures forall a | a in R.RouteAdds(routes) :: a.target.HaproxyTarget?
  {
    if routes != [] {
      RouteAddsAreHaproxy(routes[..|routes| - 1]);
    }
  }
}
