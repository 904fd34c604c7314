/** The reconcile pipeline (internal/engine/engine.go): discover, compare, validate, apply,
    discover again, verify; and roll back what failed. */
module Engine {
  import opened Model
  import opened Text
  import opened Tables
  import opened HostState
  import opened FirewallSpec
  import opened FirewallSync
  import opened FirewallFrames
  import opened FirewallRecord
  import opened FirewallLedger
  import opened FirewallMidway
  import opened EngineSpec
  import opened Runs
  import F = Firewall
  import W = WireGuard
  import H = Haproxy
  import HT = HaproxyText
  import HB = HaproxyBlock
  import S = SshTun
  import MarkedText
  import R = Reconcile
  import Sorting

  type Tunnels = map<string, Tunnel>

  /** The interface an action of a plan is about, if it names a tunnel of the table. */
  function TargetOf(a: R.Action, byId: Tunnels): (r: Option<Tunnel>) {
    if a.target.TunnelTarget? && !a.kind.Delete? && a.id in byId then Some(byId[a.id]) else None
  }

  /** The interface name in the printed form of a discovered tunnel. */
  function IfaceFromBefore(line: string): (r: string) {
    var i := Index(line, "if=");
    if i < 0 then ""
    else
      var fields := Fields(line[i + 3..]);
      if fields == [] then "" else fields[0]
  }

  /** The printed form of a discovered tunnel names its interface. */
  lemma BeforeNamesInterface(a: TunnelActual)
    requires a.kind.WireGuard? || a.kind.SshTun?
    requires Clean(a.interfaceName)
    ensures IfaceFromBefore(R.TunnelActualLine(a)) == a.interfaceName
  {
    var name := R.TypeName(a.kind);
    var tail := " " + Join(["present=" + (if a.interfacePresent then "true" else "false"),
                            "local=" + a.localOverlayIp]);
    var line := name + " " + ("if=" + a.interfaceName + tail);
    LineOf(name, "if=" + a.interfaceName, "present=" + (if a.interfacePresent then "true" else "false"),
           "local=" + a.localOverlayIp);
    assert R.TunnelActualLine(a) == line by {
      assert "if=" + a.interfaceName + tail == ("if=" + a.interfaceName) + tail;
    }
    assert name == "WIREGUARD" || name == "SSH_TUN";
    FindsInterface(name, a.interfaceName, tail);
  }

  lemma LineOf(a: string, b: string, c: string, d: string)
    ensures Join([a, b, c, d]) == a + " " + (b + (" " + Join([c, d])))
  {
    assert [a, b, c, d][1..] == [b, c, d] && [b, c, d][1..] == [c, d];
    assert b + " " + Join([c, d]) == b + (" " + Join([c, d]));
  }

  lemma FindsInterface(kind: string, name: string, tail: string)
    requires forall i | 0 <= i < |kind| :: kind[i] != 'i'
    requires Clean(name) && tail != "" && tail[0] == ' '
    ensures IfaceFromBefore(kind + " " + ("if=" + name + tail)) == name
  {
    var line, rest := kind + " " + ("if=" + name + tail), name + tail;
    assert line[|kind| + 1..] == "if=" + name + tail;
    assert line[|kind| + 1..|kind| + 4] == "if=";
    forall j | 0 <= j < |kind| + 1 ensures !At(line, "if=", j) {
      assert line[j] == if j < |kind| then kind[j] else ' ';
      MarkedText.MatchesAt(line, "if=", j, 0);
    }
    IndexIs(line, "if=", |kind| + 1);
    assert line[|kind| + 4..] == rest;
    WordOf(name, tail);
    assert rest[..|name|] == name && !IsSpace(rest[0]);
  }

  function FirewallActions(actions: seq<R.Action>): (r: seq<R.Action>) {
    if actions == [] then []
    else
      var n := |actions| - 1;
      FirewallActions(actions[..n]) + (if actions[n].target.FirewallTarget? then [actions[n]] else [])
  }

  predicate AsksHaproxy(actions: seq<R.Action>) {
    exists a | a in actions :: a.target.HaproxyTarget?
  }

  predicate IsTunnelDelete(a: R.Action) { a.target.TunnelTarget? && a.kind.Delete? }

  /** The interface an action of a plan is about, if it is about one. */
  function NameOf(a: R.Action, byId: Tunnels): (r: Option<string>) {
    if IsTunnelDelete(a) then Some(IfaceFromBefore(a.before))
    else if TargetOf(a, byId).Some? then Some(TargetOf(a, byId).value.interfaceName)
    else None
  }

  /** The first k tunnel actions have been carried out: their interfaces match, or are gone if
      they were to be deleted, the others are untouched, and no interface has changed its kind. */
  ghost predicate TendedUpTo(links: Links, now: Links, actions: seq<R.Action>, k: nat, byId: Tunnels)
    requires k <= |actions|
  {
    && (forall i | 0 <= i < k :: IsTended(now, actions[i], byId))
    && KindsStay(links, now)
    && (forall n | n in links && n !in now :: Drops(actions, k, byId, n))
    && (forall n | !ActsOn(actions, k, byId, n) :: SameAt(links, now, n))
  }

  ghost predicate IsTended(now: Links, a: R.Action, byId: Tunnels) {
    && (IsTunnelDelete(a) ==> IfaceFromBefore(a.before) !in now)
    && (TargetOf(a, byId).Some? && TargetOf(a, byId).value.kind.WireGuard? ==>
          TargetOf(a, byId).value.interfaceName in now
          && Matches(now[TargetOf(a, byId).value.interfaceName], TargetOf(a, byId).value))
  }

  ghost predicate SameAt(links: Links, now: Links, n: string) {
    if n in links then n in now && now[n] == links[n] else n !in now
  }

  /** Interfaces keep their kind, and new ones are WireGuard interfaces. */
  ghost predicate KindsStay(links: Links, now: Links) {
    && (forall n | n in links && n in now :: now[n].kind == links[n].kind)
    && (forall n | n in now && n !in links :: now[n].kind == WIREGUARD)
  }

  ghost predicate ActsOn(actions: seq<R.Action>, k: nat, byId: Tunnels, name: string)
    requires k <= |actions|
  {
    exists i :: 0 <= i < k && NameOf(actions[i], byId) == Some(name)
  }

  ghost predicate Drops(actions: seq<R.Action>, k: nat, byId: Tunnels, name: string)
    requires k <= |actions|
  {
    exists i :: 0 <= i < k && IsTunnelDelete(actions[i]) && NameOf(actions[i], byId) == Some(name)
  }

  ghost predicate DistinctTargets(actions: seq<R.Action>, byId: Tunnels) {
    forall i, j | 0 <= i < j < |actions| && NameOf(actions[i], byId).Some? && NameOf(actions[j], byId).Some? ::
      NameOf(actions[i], byId) != NameOf(actions[j], byId)
  }

  /** One action has been carried out: its interface is as it says, no other is touched. */
  ghost predicate Touched(now: Links, next: Links, a: R.Action, byId: Tunnels, name: string) {
    && IsTended(next, a, byId) && KindsStay(now, next)
    && (forall n | n != name :: SameAt(now, next, n))
    && (name in now && name !in next ==> IsTunnelDelete(a))
  }

  lemma TendedOneMore(links: Links, now: Links, next: Links, actions: seq<R.Action>, k: nat, byId: Tunnels,
                      name: string)
    requires k < |actions| && TendedUpTo(links, now, actions, k, byId) && DistinctTargets(actions, byId)
    requires NameOf(actions[k], byId) == Some(name) && Touched(now, next, actions[k], byId, name)
    ensures TendedUpTo(links, next, actions, k + 1, byId)
  {
    forall i | 0 <= i < k + 1 ensures IsTended(next, actions[i], byId) {
      if i < k {
        OthersTargetElsewhere(actions, k, byId, i, name);
        StaysTended(now, next, actions[i], byId, name);
      }
    }
    forall n | !ActsOn(actions, k + 1, byId, n) ensures SameAt(links, next, n) {
      StillUntouched(actions, k, byId, n, name);
      SameAtBoth(links, now, next, n);
    }
    FirstAbout(actions, k, byId, name);
    KindsStayOn(links, now, next, name);
    forall n | n in links && n !in next ensures Drops(actions, k + 1, byId, n) {
      DropsOnce(now, next, actions, k, byId, name, n);
    }
  }

  lemma OthersTargetElsewhere(actions: seq<R.Action>, k: nat, byId: Tunnels, i: nat, name: string)
    requires i < k < |actions| && DistinctTargets(actions, byId) && NameOf(actions[k], byId) == Some(name)
    ensures NameOf(actions[i], byId) != Some(name)
  {
  }

  lemma SameAtBoth(links: Links, now: Links, next: Links, n: string)
    requires SameAt(links, now, n) && SameAt(now, next, n)
    ensures SameAt(links, next, n)
  {
  }

  /** An action is the first about its interface. */
  lemma FirstAbout(actions: seq<R.Action>, k: nat, byId: Tunnels, name: string)
    requires k < |actions| && DistinctTargets(actions, byId) && NameOf(actions[k], byId) == Some(name)
    ensures !ActsOn(actions, k, byId, name)
  {
  }

  lemma DropsOnce(now: Links, next: Links, actions: seq<R.Action>, k: nat, byId: Tunnels, name: string, n: string)
    requires k < |actions| && NameOf(actions[k], byId) == Some(name) && Touched(now, next, actions[k], byId, name)
    requires n !in next && (n !in now ==> Drops(actions, k, byId, n))
    ensures Drops(actions, k + 1, byId, n)
  {
    if n in now {
      assert n != name ==> SameAt(now, next, n);
    }
  }

  lemma KindsStayOn(links: Links, now: Links, next: Links, name: string)
    requires KindsStay(links, now) && KindsStay(now, next) && SameAt(links, now, name)
    requires forall n | n != name :: SameAt(now, next, n)
    ensures KindsStay(links, next)
  {
    forall n | n in next && n !in links ensures next[n].kind == WIREGUARD {
      assert n != name ==> SameAt(now, next, n);
    }
    forall n | n in links && n in next ensures next[n].kind == links[n].kind {
      assert n != name ==> SameAt(now, next, n);
    }
  }

  lemma StaysTended(now: Links, next: Links, a: R.Action, byId: Tunnels, name: string)
    requires IsTended(now, a, byId) && forall n | n != name :: SameAt(now, next, n)
    requires NameOf(a, byId) != Some(name)
    ensures IsTended(next, a, byId)
  {
    if NameOf(a, byId).Some? {
      assert SameAt(now, next, NameOf(a, byId).value);
    }
  }

  lemma StillUntouched(actions: seq<R.Action>, k: nat, byId: Tunnels, n: string, name: string)
    requires k < |actions| && !ActsOn(actions, k + 1, byId, n) && NameOf(actions[k], byId) == Some(name)
    ensures n != name && !ActsOn(actions, k, byId, n)
  {
  }

  lemma TendedSkip(links: Links, now: Links, actions: seq<R.Action>, k: nat, byId: Tunnels)
    requires k < |actions| && TendedUpTo(links, now, actions, k, byId) && NameOf(actions[k], byId).None?
    ensures TendedUpTo(links, now, actions, k + 1, byId)
  {
    forall n | !ActsOn(actions, k + 1, byId, n) ensures !ActsOn(actions, k, byId, n) {}
  }

  /** Before the k-th action failed, the interfaces of the actions before it have been set as
      wanted. No interface but that of the k-th action is otherwise touched; of one that was
      there before, settings are kept. */
  ghost predicate LinksLeft(links: Links, now: Links, actions: seq<R.Action>, k: nat, byId: Tunnels) {
    && k <= |actions|
    && (forall i | 0 <= i < k :: IsSet(links, now, actions[i], byId))
    && (forall n | n in links && !ActsOn(actions, if k < |actions| then k + 1 else k, byId, n) ::
        n in now && now[n] == links[n])
  }

  /** The interface of an action, if it was there before, is as the action says. */
  ghost predicate IsSet(links: Links, now: Links, a: R.Action, byId: Tunnels) {
    TargetOf(a, byId).Some? && TargetOf(a, byId).value.kind.WireGuard?
        && TargetOf(a, byId).value.interfaceName in links ==>
      TargetOf(a, byId).value.interfaceName in now
      && Matches(now[TargetOf(a, byId).value.interfaceName], TargetOf(a, byId).value)
  }

  lemma TendedIsLeft(links: Links, now: Links, actions: seq<R.Action>, byId: Tunnels)
    requires TendedUpTo(links, now, actions, |actions|, byId)
    ensures LinksLeft(links, now, actions, |actions|, byId)
  {
    forall n | n in links && !ActsOn(actions, |actions|, byId, n) ensures n in now && now[n] == links[n] {
      assert SameAt(links, now, n);
    }
    forall i | 0 <= i < |actions| ensures IsSet(links, now, actions[i], byId) {
      assert IsTended(now, actions[i], byId);
    }
  }

  /** The k-th action has failed, and has touched no interface but its own. */
  lemma FailedIsLeft(links: Links, now: Links, next: Links, actions: seq<R.Action>, k: nat, byId: Tunnels)
    requires k < |actions| && TendedUpTo(links, now, actions, k, byId) && DistinctTargets(actions, byId)
    requires forall n | NameOf(actions[k], byId) != Some(n) :: SameAt(now, next, n)
    ensures LinksLeft(links, next, actions, k, byId)
  {
    forall n | n in links && !ActsOn(actions, k + 1, byId, n) ensures n in next && next[n] == links[n] {
      assert NameOf(actions[k], byId) != Some(n) && !ActsOn(actions, k, byId, n);
      assert SameAt(links, now, n) && SameAt(now, next, n);
    }
    forall i | 0 <= i < k ensures IsSet(links, next, actions[i], byId) {
      assert IsTended(now, actions[i], byId);
      if TargetOf(actions[i], byId).Some? {
        assert SameAt(now, next, TargetOf(actions[i], byId).value.interfaceName);
      }
    }
  }

  /** A rollback leaves the interfaces that were there before as it finds them. */
  lemma LinksStayLeft(links: Links, now: Links, next: Links, actions: seq<R.Action>, k: nat, byId: Tunnels)
    requires LinksLeft(links, now, actions, k, byId)
    requires next == now || forall n | n in links && n in now :: n in next && next[n] == now[n]
    ensures LinksLeft(links, next, actions, k, byId)
  {
    forall i | 0 <= i < k ensures IsSet(links, next, actions[i], byId) {
      assert IsSet(links, now, actions[i], byId);
    }
  }

  lemma {:induction false} FirewallActionsConcat(a: seq<R.Action>, b: seq<R.Action>)
    ensures FirewallActions(a + b) == FirewallActions(a) + FirewallActions(b)
  {
    if b == [] {
      assert a + b == a;
    } else {
      assert (a + b)[..|a + b| - 1] == a + b[..|b| - 1];
      FirewallActionsConcat(a, b[..|b| - 1]);
    }
  }

  lemma {:induction false} FirewallActionsOf(a: seq<R.Action>)
    ensures (forall x | x in a :: x.target.FirewallTarget?) ==> FirewallActions(a) == a
    ensures (forall x | x in a :: !x.target.FirewallTarget?) ==> FirewallActions(a) == []
  {
    if a != [] {
      var n := |a| - 1;
      assert a == a[..n] + [a[n]];
      FirewallActionsOf(a[..n]);
    }
  }

  lemma TunnelStepsAreTunnel(want: map<string, Tunnel>, have: map<string, TunnelActual>)
    ensures forall a | a in R.TunnelSteps(want, have) :: a.target.TunnelTarget?
  {
    var step := name => R.TunnelStep(name, want, have);
    R.CollectIsExact(Sorting.SortedSet(want.Keys + have.Keys), step);
  }

  /** The three parts of a plan. */
  lemma PlanIsParts(desired: DesiredState, s: State, path: string)
    returns (tunnels: seq<R.Action>, rules: seq<R.Action>, sni: seq<R.Action>)
    requires H.Seen(s.file, path, desired.sniRoutes).Some?
    ensures R.Difference(desired, ActualOf(desired, s, path)).actions == tunnels + rules + sni
    ensures tunnels == R.TunnelSteps(R.WantedTunnels(desired), R.FoundTunnels(ActualOf(desired, s, path)))
    ensures rules == Steps(s.tables, desired) && sni == SniSteps(desired, s, path)
    ensures forall a | a in tunnels :: a.target.TunnelTarget?
    ensures forall a | a in rules :: a.target.FirewallTarget?
    ensures forall a | a in sni :: a.target.HaproxyTarget?
  {
    tunnels := R.TunnelSteps(R.WantedTunnels(desired), R.FoundTunnels(ActualOf(desired, s, path)));
    rules, sni := Steps(s.tables, desired), SniSteps(desired, s, path);
    PlanParts(desired, s, path);
    TunnelStepsAreTunnel(R.WantedTunnels(desired), R.FoundTunnels(ActualOf(desired, s, path)));
    StepsAreRules(R.WantedMappings(desired), Found(s.tables), R.BackendTable(desired));
    var d := H.Seen(s.file, path, desired.sniRoutes).value;
    SniStepsAreHaproxy(desired.sniRoutes, d.digest, d.routes);
  }

  lemma RulesGo(tunnels: seq<R.Action>, rules: seq<R.Action>, sni: seq<R.Action>)
    requires forall a | a in tunnels :: !a.target.FirewallTarget?
    requires forall a | a in rules :: a.target.FirewallTarget?
    requires forall a | a in sni :: !a.target.FirewallTarget?
    ensures FirewallActions(tunnels + rules + sni) == rules
  {
    FirewallActionsConcat(tunnels + rules, sni);
    FirewallActionsConcat(tunnels, rules);
    FirewallActionsOf(tunnels);
    FirewallActionsOf(rules);
    FirewallActionsOf(sni);
  }

  lemma RoutesGo(others: seq<R.Action>, sni: seq<R.Action>)
    requires forall a | a in others :: !a.target.HaproxyTarget?
    requires forall a | a in sni :: a.target.HaproxyTarget?
    ensures AsksHaproxy(others + sni) <==> sni != []
  {
    if sni != [] {
      assert (others + sni)[|others|] == sni[0];
    }
  }

  lemma NoneIn(a: seq<R.Action>, b: seq<R.Action>)
    requires (forall x | x in a :: x.target.TunnelTarget?) && (forall x | x in b :: x.target.FirewallTarget?)
    ensures forall x | x in a + b :: !x.target.HaproxyTarget?
  {
  }

  lemma PartsTarget(tunnels: seq<R.Action>, rules: seq<R.Action>, sni: seq<R.Action>, byId: Tunnels)
    requires forall a | a in rules :: a.target.FirewallTarget?
    requires forall a | a in sni :: a.target.HaproxyTarget?
    ensures forall i | |tunnels| <= i < |tunnels + rules + sni| :: NameOf((tunnels + rules + sni)[i], byId).None?
  {
    var actions := tunnels + rules + sni;
    forall i | |tunnels| <= i < |actions| ensures NameOf(actions[i], byId).None? {
      var a := if i < |tunnels| + |rules| then rules[i - |tunnels|] else sni[i - |tunnels| - |rules|];
      assert actions[i] == a && (a in rules || a in sni);
    }
  }

  /** The firewall part of any plan. */
  lemma FirewallPartIs(desired: DesiredState, actual: ActualState)
    ensures FirewallActions(R.Difference(desired, actual).actions)
            == R.RuleSteps(R.WantedMappings(desired), R.FoundRules(actual.firewallRules), R.BackendTable(desired))
  {
    var tunnels := R.TunnelSteps(R.WantedTunnels(desired), R.FoundTunnels(actual));
    var rules := R.RuleSteps(R.WantedMappings(desired), R.FoundRules(actual.firewallRules), R.BackendTable(desired));
    var sni := R.HaproxySteps(desired.sniRoutes, actual.haproxyDigest, actual.sniRoutes);
    TunnelStepsAreTunnel(R.WantedTunnels(desired), R.FoundTunnels(actual));
    StepsAreRules(R.WantedMappings(desired), R.FoundRules(actual.firewallRules), R.BackendTable(desired));
    SniStepsAreHaproxy(desired.sniRoutes, actual.haproxyDigest, actual.sniRoutes);
    RulesGo(tunnels, rules, sni);
  }

  /** Carrying out the firewall part of a plan made on a well-formed host brings all chains in
      step; and if there is nothing to carry out, they are. */
  lemma FirewallPartSyncs(t: Chains, t': Chains, added: seq<Placed>, deleted: seq<Placed>, actions: seq<R.Action>,
                          desired: DesiredState)
    requires WellFormed(t) && ValidMappings(desired) && FirewallActions(actions) == Steps(t, desired)
    requires if FirewallActions(actions) == [] then t' == t
             else Reached(t, t', added, deleted, FirewallActions(actions), |FirewallActions(actions)|,
                          R.WantedMappings(desired), desired.backends)
    ensures Synced(t', desired)
  {
    if FirewallActions(actions) == [] {
      NoStepsIffSynced(t, desired);
    } else {
      SuccessfulApplySyncs(t, t', added, deleted, desired);
    }
  }

  /** Of that firewall part everything is on record if and only if it changed no rule in place. */
  lemma FirewallPartIsRecorded(t: Chains, t': Chains, added: seq<Placed>, deleted: seq<Placed>, actions: seq<R.Action>,
                               desired: DesiredState, trace: Trace)
    requires WellFormed(t) && ValidMappings(desired) && FirewallActions(actions) == Steps(t, desired)
    requires trace.Attempted? ==>
               && Reached(t, t', added, deleted, FirewallActions(actions), |FirewallActions(actions)|,
                          R.WantedMappings(desired), desired.backends)
               && Balanced(t, t', added + trace.loose, deleted + trace.lost)
               && trace.loose == [] && (NoChange(FirewallActions(actions)) ==> trace.lost == [])
    ensures trace.Attempted? ==> (Cancels(trace.loose, trace.lost) <==> NoChange(FirewallActions(actions)))
  {
    if trace.Attempted? {
      assert added + [] == added;
      FullPlanIsRecordedIff(t, t', added, deleted, trace.lost, desired);
    }
  }

  /** Which part of a plan goes to which manager. */
  lemma PlanGoes(desired: DesiredState, s: State, path: string)
    requires H.Seen(s.file, path, desired.sniRoutes).Some?
    ensures var actions := R.Difference(desired, ActualOf(desired, s, path)).actions;
            && FirewallActions(actions) == Steps(s.tables, desired)
            && (AsksHaproxy(actions) <==> SniSteps(desired, s, path) != [])
  {
    var tunnels, rules, sni := PlanIsParts(desired, s, path);
    RulesGo(tunnels, rules, sni);
    NoneIn(tunnels, rules);
    RoutesGo(tunnels + rules, sni);
  }

  /** No manager has a reason to refuse its part. */
  ghost predicate Acceptable(s: State, actions: seq<R.Action>, desired: DesiredState, checks: W.Checks,
                             routeChecks: H.RouteChecks) {
    && ParentsExist(s.tables)
    && (forall t | t in desired.tunnels :: ValidTunnel(t, checks))
    && H.Appliable(s.Text(), desired.sniRoutes, desired.backends, routeChecks)
    && Feasible(s.tables, FirewallActions(actions), ByKey(desired.mappings, R.CommentOf), desired.backends)
  }

  lemma ReadyPlanIsFeasible(desired: DesiredState, s: State, path: string, checks: W.Checks, routeChecks: H.RouteChecks)
    requires Ready(desired, s, path, checks, routeChecks) && H.Seen(s.file, path, desired.sniRoutes).Some?
    ensures Feasible(s.tables, FirewallActions(R.Difference(desired, ActualOf(desired, s, path)).actions),
                     ByKey(desired.mappings, R.CommentOf), desired.backends)
  {
    ReadyFacts(desired, s, path, checks, routeChecks);
    PlanGoes(desired, s, path);
    var _, _ := StepsAreFeasible(s.tables, desired);
  }

  lemma ReadyPlanIsAcceptable(desired: DesiredState, s: State, path: string, checks: W.Checks,
                              routeChecks: H.RouteChecks)
    requires Ready(desired, s, path, checks, routeChecks) && H.Seen(s.file, path, desired.sniRoutes).Some?
    ensures Acceptable(s, R.Difference(desired, ActualOf(desired, s, path)).actions, desired, checks, routeChecks)
  {
    ReadyFacts(desired, s, path, checks, routeChecks);
    ReadyPlanIsFeasible(desired, s, path, checks, routeChecks);
  }

  /** The tunnel actions of a plan are about different interfaces, and one is about exactly
      each interface that has changed. */
  lemma TunnelTargets(desired: DesiredState, s: State, path: string, checks: W.Checks) returns (names: seq<string>)
    requires H.Seen(s.file, path, desired.sniRoutes).Some? && ValidTunnels(desired.tunnels, checks)
    ensures var actions := R.Difference(desired, ActualOf(desired, s, path)).actions;
            var byId, want := ByKey(desired.tunnels, TunnelId), R.WantedTunnels(desired);
            && |names| == |R.TunnelSteps(want, R.FoundTunnels(ActualOf(desired, s, path)))| <= |actions|
            && DistinctTargets(actions, byId)
            && (forall i | 0 <= i < |names| ::
                  names[i] in want && TargetOf(actions[i], byId) == Some(want[names[i]])
                      && NameOf(actions[i], byId) == Some(names[i]))
            && (forall i | |names| <= i < |actions| :: NameOf(actions[i], byId).None?)
            && (forall n :: n in names <==> n in want && (n !in s.links
                                                          || R.TunnelChanged(want[n], W.Seen(s.links, n))))
  {
    var want := R.WantedTunnels(desired);
    var have := R.FoundTunnels(ActualOf(desired, s, path));
    TunnelTable(desired, checks);
    SeenTable(s.links, W.Wanted(desired.tunnels));
    names := R.TunnelStepsAreExact(want, have);
    var actions := R.Difference(desired, ActualOf(desired, s, path)).actions;
    var byId := ByKey(desired.tunnels, TunnelId);
    var steps := R.TunnelSteps(want, have);
    var tunnels, rules, sni := PlanIsParts(desired, s, path);
    PartsTarget(tunnels, rules, sni, byId);
    forall i | 0 <= i < |names| ensures names[i] in want && TargetOf(actions[i], byId) == Some(want[names[i]]) {
      assert names[i] in names;
      assert actions[i] == steps[i] && steps[i] in steps;
      assert byId[want[names[i]].id] == want[names[i]];
    }
    NamesAreDistinct(actions, byId, want, names);
  }

  lemma NamesAreDistinct(actions: seq<R.Action>, byId: Tunnels, want: Tunnels, names: seq<string>)
    requires |names| <= |actions|
             && forall i | 0 <= i < |names| :: names[i] in want && want[names[i]].interfaceName == names[i]
    requires forall i | 0 <= i < |names| :: TargetOf(actions[i], byId) == Some(want[names[i]])
    requires forall i | |names| <= i < |actions| :: NameOf(actions[i], byId).None?
    requires forall i, j | 0 <= i < j < |names| :: names[i] != names[j]
    ensures DistinctTargets(actions, byId)
    ensures forall i | 0 <= i < |names| :: NameOf(actions[i], byId) == Some(names[i])
  {
    forall i | 0 <= i < |names| ensures NameOf(actions[i], byId) == Some(names[i]) {}
  }

  /** Carrying out the tunnel actions of a plan tends the desired tunnels. */
  lemma PlanTends(desired: DesiredState, s: State, path: string, checks: W.Checks, now: Links)
    requires H.Seen(s.file, path, desired.sniRoutes).Some? && ValidTunnels(desired.tunnels, checks)
    requires var actions := R.Difference(desired, ActualOf(desired, s, path)).actions;
             TendedUpTo(s.links, now, actions, |actions|, ByKey(desired.tunnels, TunnelId))
    ensures Tended(desired, s.links, now)
  {
    var actions := R.Difference(desired, ActualOf(desired, s, path)).actions;
    var byId, want := ByKey(desired.tunnels, TunnelId), R.WantedTunnels(desired);
    var names := TunnelTargets(desired, s, path, checks);
    TunnelTable(desired, checks);
    forall n | n in want
      ensures if n !in s.links || R.TunnelChanged(want[n], W.Seen(s.links, n)) then n in now && Matches(now[n], want[n])
              else n in now && now[n] == s.links[n]
    {
      if n in names {
        var i :| 0 <= i < |names| && names[i] == n;
        TargetIsTended(s.links, now, actions, byId, i, want[n]);
      } else {
        OthersStay(s.links, now, actions, byId, names, n);
      }
    }
  }

  lemma TargetIsTended(links: Links, now: Links, actions: seq<R.Action>, byId: Tunnels, i: nat, t: Tunnel)
    requires TendedUpTo(links, now, actions, |actions|, byId)
    requires i < |actions| && TargetOf(actions[i], byId) == Some(t) && t.kind.WireGuard?
    ensures t.interfaceName in now && Matches(now[t.interfaceName], t)
  {
    assert IsTended(now, actions[i], byId);
  }

  lemma OthersStay(links: Links, now: Links, actions: seq<R.Action>, byId: Tunnels, names: seq<string>, n: string)
    requires TendedUpTo(links, now, actions, |actions|, byId) && |names| <= |actions| && n !in names
    requires forall i | 0 <= i < |names| :: NameOf(actions[i], byId) == Some(names[i])
    requires forall i | |names| <= i < |actions| :: NameOf(actions[i], byId).None?
    ensures SameAt(links, now, n)
  {
    assert !ActsOn(actions, |actions|, byId, n);
  }

  /** How a reconciliation ended. */
  datatype Verdict =
    | DiscoveryFailed
    | Conflicted
    | NothingToDo
    | NoManager
    | ApplyFailed
    | VerifyFailed
    | Reconciled
  {
    /** The run ended before anything was validated, let alone changed. */
    predicate Idle() { DiscoveryFailed? || Conflicted? || NothingToDo? }

    /** A plan has been carried out, to its end or not. */
    predicate Ran() { Failed() || Reconciled? }

    predicate Failed() { ApplyFailed? || VerifyFailed? }
  }

  /** What is on the host, and what the managers remember, when a run begins. */
  datatype Before = Before(tables: Chains, links: Links, files: H.Files, lastBackup: string, record: Record, log: Log) {
    function From(): (from: Stand) { Stand(tables, log, record) }
  }

  /** What decides what the rollback of a run restores: how many actions the pass over the
      tunnels got through, whether the run made a backup of the configuration, what it did to
      the chains and to the firewall's record, and how undoing that record ended. */
  datatype Deeds = Deeds(passed: nat, own: bool, trace: Trace, undo: Undo) {
    /** The run began a record of its own, and the rollback undid it. */
    predicate Recorded() { trace.Attempted? && trace.renewed && undo.Inverted? }
  }

  /** What is known of a plan before it is carried out: that it was made on a host with a
      well-formed firewall, that it will succeed, that HAProxy will refuse its part. */
  datatype Outlook = Outlook(charted: bool, promising: bool, spoiled: bool)

  const NO_DEEDS := Deeds(0, false, NotApplied, Nothing)

  /** What a run left unrecorded, or what it found on record if it began no record, does not
      cancel out by chance. */
  ghost predicate Clear(b: Before, d: Deeds) {
    if d.trace.Attempted? && d.trace.renewed then Untangled(d.trace.loose, d.trace.lost)
    else Untangled(b.record.added, b.record.deleted)
  }

  datatype Result = Result(plan: R.Plan, actual: ActualState, applied: bool, rolled: bool)

  class ReconcileEngine {
    const host: Host
    const fw: F.IptablesManager?
    const wg: W.WgManager?
    const hp: H.HaproxyManager?
    const ssh: S.SshManager?

    constructor (host: Host, fw: F.IptablesManager?, wg: W.WgManager?, hp: H.HaproxyManager?, ssh: S.SshManager?)
      requires fw != null ==> fw.host == host
      requires wg != null ==> wg.host == host
      requires hp != null ==> hp.host == host
      requires ssh != null ==> ssh.host == host
      ensures this.host == host && this.fw == fw && this.wg == wg && this.hp == hp && this.ssh == ssh && Valid()
    {
      this.host, this.fw, this.wg, this.hp, this.ssh := host, fw, wg, hp, ssh;
    }

    /** Every manager works on the engine's host. */
    ghost predicate Valid() {
      && (fw != null ==> fw.host == host) && (wg != null ==> wg.host == host)
      && (hp != null ==> hp.host == host) && (ssh != null ==> ssh.host == host)
    }

    ghost function StateOf(): (r: State)
      requires hp != null
      reads host
    {
      State(host.tables, host.links, H.FileAt(host.files, hp.path))
    }

    /** A node with all managers but, for its tunnels, only WireGuard. */
    ghost predicate Standard(desired: DesiredState) {
      fw != null && wg != null && hp != null
          && forall t | t in desired.tunnels :: t.kind.WireGuard? && wg.checks.name(t.interfaceName)
    }

    // ------------------------------------------------------------ discovery

    /** What discovery reported is so on the host, whichever of its commands failed. */
    ghost predicate Observed(desired: DesiredState, actual: ActualState)
      reads host
    {
      && NoStrangers(desired, actual)
      && (forall a | a in actual.tunnels && a.kind.WireGuard? :: W.Reports(W.Seen(host.links, a.interfaceName), a))
      && (forall a | a in actual.tunnels && a.kind.SshTun? :: a.interfacePresent == (a.interfaceName in host.links))
      && (actual.firewallRules == if fw == null then [] else Listing(host.tables, SLOTS, CodecOf))
      && (hp != null ==> exists d ::
            H.Seen(H.FileAt(host.files, hp.path), hp.path, desired.sniRoutes) == Some(d)
            && d.digest == actual.haproxyDigest && d.routes == actual.sniRoutes)
    }

    method DiscoverTunnels(desired: seq<Tunnel>) returns (ok: bool, found: seq<TunnelActual>, conflicts: seq<Conflict>)
      requires Valid()
      modifies host`calls
      ensures ok ==> forall a | a in found :: exists t :: t in desired && t.interfaceName == a.interfaceName
      ensures ok ==> forall a | a in found && a.kind.WireGuard? :: W.Reports(W.Seen(host.links, a.interfaceName), a)
      ensures ok ==> forall a | a in found && a.kind.SshTun? :: a.interfacePresent == (a.interfaceName in host.links)
      ensures ok ==> conflicts == if wg == null then [] else W.MisfitsAmong(host.links, W.Wanted(desired))
      ensures FaultFree(host.faults) && wg != null && (forall t | t in desired ::
                                                       t.kind.WireGuard? && wg.checks.name(t.interfaceName)) ==>
                ok && found == W.SeenAll(host.links, W.Wanted(desired))
    {
      ok, found, conflicts := true, [], [];
      if wg != null {
        ok, found, conflicts := wg.Discover(desired);
        if !ok {
          return;
        }
        WantedNames(desired);
        forall a | a in found
          ensures a.kind.WireGuard? && W.Reports(W.Seen(host.links, a.interfaceName), a)
          ensures exists t :: t in desired && t.interfaceName == a.interfaceName
        {
          var i :| 0 <= i < |found| && found[i] == a;
          assert W.Wanted(desired)[i] in W.Wanted(desired);
        }
      }
      if ssh != null {
        var others;
        ok, others := DiscoverServices(desired);
        if !ok {
          return false, [], [];
        }
        found := found + others;
      }
    }

    /** The SSH tunnels. */
    method DiscoverServices(desired: seq<Tunnel>) returns (ok: bool, found: seq<TunnelActual>)
      requires Valid() && ssh != null
      modifies host`calls
      ensures ok ==>
                forall a | a in found ::
                    a.kind.SshTun? && exists t :: t in desired && t.interfaceName == a.interfaceName
      ensures ok ==> forall a | a in found :: a.interfacePresent == (a.interfaceName in host.links)
      ensures (forall t | t in desired :: t.kind.WireGuard?) ==> ok && found == []
    {
      ok, found := true, [];
      for i := 0 to |desired|
        invariant forall a | a in found ::
                    a.kind.SshTun? && exists t :: t in desired && t.interfaceName == a.interfaceName
        invariant forall a | a in found :: a.interfacePresent == (a.interfaceName in host.links)
        invariant (forall t | t in desired :: t.kind.WireGuard?) ==> found == []
      {
        assert desired[i] in desired;
        if desired[i].kind.SshTun? {
          var fine, one := ssh.Discover(desired[i]);
          if !fine {
            return false, [];
          }
          found := found + [one];
        }
      }
    }

    method Discover(desired: DesiredState) returns (ok: bool, actual: ActualState)
      requires Valid()
      modifies host`calls
      ensures ok ==> Observed(desired, actual)
      ensures FaultFree(host.faults) && Standard(desired)
              && H.Seen(H.FileAt(host.files, hp.path), hp.path, desired.sniRoutes).Some? ==>
                ok && actual == ActualOf(desired, StateOf(), hp.path)
    {
      ok, actual := true, ActualState([], [], "", [], []);
      if fw != null {
        var fine, rules, odd := fw.Discover();
        if !fine {
          return false, actual;
        }
        actual := actual.(firewallRules := rules, conflicts := odd);
      }
      var tunnels, misfits;
      ok, tunnels, misfits := DiscoverTunnels(desired.tunnels);
      if !ok {
        return;
      }
      actual := actual.(tunnels := tunnels, conflicts := actual.conflicts + misfits);
      if hp != null {
        var fine, d := hp.Discover(desired.sniRoutes);
        if !fine {
          return false, actual;
        }
        actual := actual.(haproxyDigest := d.digest, sniRoutes := d.routes,
                          conflicts := actual.conflicts + d.conflicts);
      }
    }

    // ----------------------------------------------------------- validation

    /** Every action of the plan has a manager. */
    ghost predicate Supported(actions: seq<R.Action>, byId: Tunnels) {
      forall a | a in actions :: SupportsAction(a, byId)
    }

    predicate SupportsAction(a: R.Action, byId: Tunnels) {
      match a.target
      case FirewallTarget => fw != null
      case TunnelTarget =>
        a.kind.Delete?
        || (a.id in byId && match byId[a.id].kind
                            case WireGuard => wg != null
                            case SshTun => ssh != null
                            case UnknownType(_) => false)
      case HaproxyTarget => hp != null
      case OtherTarget(_) => false
    }

    method ValidatePlan(plan: R.Plan, desired: DesiredState) returns (ok: bool)
      ensures ok <==> Supported(plan.actions, ByKey(desired.tunnels, TunnelId))
    {
      var byId := ByKey(desired.tunnels, TunnelId);
      for i := 0 to |plan.actions|
        invariant forall k | 0 <= k < i :: SupportsAction(plan.actions[k], byId)
      {
        if !SupportsAction(plan.actions[i], byId) {
          return false;
        }
      }
      ok := true;
    }

    // ------------------------------------------------------------- applying

    ghost predicate Account(before: Links)
      reads host, wg
    {
      wg != null ==> W.Accounted(before, host.links, wg.createdIfaces)
    }

    method ApplyTunnel(t: Tunnel, ghost before: Links) returns (ok: bool)
      requires Valid()
      requires (t.kind.WireGuard? ==> wg != null) && (t.kind.SshTun? ==> ssh != null)
      modifies host`calls, host`links, host`active, wg
      ensures old(Account(before)) ==> Account(before)
      ensures W.OnlyTouches(old(host.links), host.links, t.interfaceName)
      ensures wg == null ==> host.links == old(host.links)
      ensures ok && t.kind.WireGuard? ==>
                W.Acceptable(t, wg.checks) && t.interfaceName in host.links && Matches(host.links[t.interfaceName], t)
      ensures ok && t.interfaceName in host.links && t.interfaceName !in old(host.links) ==>
                host.links[t.interfaceName].kind == WIREGUARD
      ensures FaultFree(host.faults) && t.kind.WireGuard? && ValidTunnel(t, wg.checks) ==> ok
    {
      ok := true;
      if t.kind.WireGuard? {
        ghost var now, created := host.links, wg.createdIfaces;
        ok := wg.Apply(t);
        if W.Accounted(before, now, created) {
          W.AccountedAfter(before, now, host.links, created, t.interfaceName);
        }
      } else if t.kind.SshTun? {
        ok := ssh.Apply(t);
      }
    }

    /** The WireGuard manager refuses the tunnel of the action. */
    ghost predicate Refused(a: R.Action, byId: Tunnels) {
      TargetOf(a, byId).Some? && TargetOf(a, byId).value.kind.WireGuard? && wg != null
          && !W.Acceptable(TargetOf(a, byId).value, wg.checks)
    }

    /** Carries out one tunnel action. */
    method ApplyTunnelAction(a: R.Action, byId: Tunnels, ghost before: Links) returns (ok: bool)
      requires Valid() && a.target.TunnelTarget? && SupportsAction(a, byId)
      requires a.kind.Delete? ==> wg != null
      modifies host`calls, host`links, host`active, wg
      ensures wg == null ==> host.links == old(host.links)
      ensures !a.kind.Delete? ==> (old(Account(before)) ==> Account(before))
      ensures forall n | NameOf(a, byId) != Some(n) :: SameAt(old(host.links), host.links, n)
      ensures ok ==> NameOf(a, byId).Some? && Touched(old(host.links), host.links, a, byId, NameOf(a, byId).value)
      ensures ok && IsTunnelDelete(a) ==> IfaceFromBefore(a.before) != ""
      ensures Refused(a, byId) ==> !ok
      ensures FaultFree(host.faults) && !a.kind.Delete? ==>
                byId[a.id].kind.WireGuard? && ValidTunnel(byId[a.id], wg.checks) ==> ok
    {
      if a.kind.Delete? {
        var name := IfaceFromBefore(a.before);
        if name == "" {
          return false;
        }
        ok := wg.Delete(name);
      } else {
        ok := ApplyTunnel(byId[a.id], before);
      }
    }

    /** Carries out the tunnel actions. A plan that deletes a tunnel needs a WireGuard manager:
        without one the program crashes. */
    method ApplyTunnels(actions: seq<R.Action>, byId: Tunnels, ghost before: Links)
      returns (ok: bool, ghost passed: nat)
      requires Valid() && Account(before) && Supported(actions, byId)
      requires NoTunnelDeletes(actions) || wg != null
      modifies host`calls, host`links, host`active, wg
      ensures wg == null ==> host.links == old(host.links)
      ensures NoTunnelDeletes(actions) ==> Account(before)
      ensures ok && DistinctTargets(actions, byId) ==> TendedUpTo(old(host.links), host.links, actions, |actions|, byId)
      ensures (exists a | a in actions :: Refused(a, byId)) ==> !ok
      ensures if ok then passed == |actions| else passed < |actions| && actions[passed].target.TunnelTarget?
      ensures DistinctTargets(actions, byId) ==> LinksLeft(old(host.links), host.links, actions, passed, byId)
      ensures FaultFree(host.faults) && wg != null && NoTunnelDeletes(actions) ==>
                (forall id | id in byId :: byId[id].kind.WireGuard? && ValidTunnel(byId[id], wg.checks)) ==> ok
    {
      ok, passed := true, 0;
      ghost var was := host.links;
      for i := 0 to |actions|
        invariant passed == i && ok && (wg == null ==> host.links == was)
        invariant NoTunnelDeletes(actions) ==> Account(before)
        invariant forall k | 0 <= k < i :: !Refused(actions[k], byId)
        invariant DistinctTargets(actions, byId) ==> TendedUpTo(was, host.links, actions, i, byId)
      {
        var a := actions[i];
        assert a in actions && SupportsAction(a, byId);
        ghost var now := host.links;
        if a.target.TunnelTarget? {
          ok := ApplyTunnelAction(a, byId, before);
          if !ok {
            if DistinctTargets(actions, byId) {
              FailedIsLeft(was, now, host.links, actions, i, byId);
            }
            return;
          }
          if DistinctTargets(actions, byId) {
            TendedOneMore(was, now, host.links, actions, i, byId, NameOf(a, byId).value);
          }
        } else if DistinctTargets(actions, byId) {
          TendedSkip(was, now, actions, i, byId);
        }
        passed := i + 1;
      }
      if DistinctTargets(actions, byId) {
        TendedIsLeft(was, host.links, actions, byId);
      }
    }

    method ApplyHaproxy(actions: seq<R.Action>, desired: DesiredState, backup: string)
      returns (ok: bool, ghost own: bool)
      requires Valid() && (hp != null ==> backup != hp.path && backup != "")
      modifies host`calls, host`files, hp
      ensures hp == null || !AsksHaproxy(actions) ==> ok && !own && host.files == old(host.files)
      ensures hp != null ==>
                && BackedUp(old(host.files), backup, old(hp.lastBackup), own)
                && (ok && AsksHaproxy(actions) ==>
                      && own && H.Appliable(H.Content(old(host.files), hp.path), desired.sniRoutes, desired.backends,
                                            hp.checks)
                      && H.FileAt(host.files, hp.path)
                         == Some(MarkedText.JoinConfig(HT.SplitManaged(H.Content(old(host.files), hp.path)).unmanaged,
                                                       HB.Rendered(desired.sniRoutes, desired.backends).value)))
                && (AsksHaproxy(actions) && !H.Appliable(H.Content(old(host.files), hp.path), desired.sniRoutes,
                                                         desired.backends, hp.checks) ==>
                      !ok && !own)
                && (FaultFree(host.faults) ==>
                      H.Appliable(H.Content(old(host.files), hp.path), desired.sniRoutes, desired.backends, hp.checks)
                      ==> ok)
    {
      ok, own := true, false;
      if hp != null && AsksHaproxy(actions) {
        var o;
        o, own := hp.Apply(desired.sniRoutes, desired.backends, backup);
        ok := o.Applied?;
      }
    }

    /** The firewall manager's record, if there is a manager. */
    ghost function Ledger(): (record: Record)
      reads fw
    {
      if fw == null then NO_RECORD else fw.RecordOf()
    }

    ghost function StandOf(): (stand: Stand)
      reads host, fw
    {
      Stand(host.tables, host.log, Ledger())
    }

    method ApplyFirewall(actions: seq<R.Action>, desired: DesiredState) returns (ok: bool, ghost trace: Trace)
      requires Valid()
      modifies host`calls, host`tables, host`log, fw
      ensures LeavesOthersAlone(old(host.tables), host.tables)
      ensures Tracked(trace, old(StandOf()), StandOf())
      ensures trace.Attempted? <==> fw != null && FirewallActions(actions) != []
      ensures trace.NotApplied? ==> ok
      ensures Settles(trace, actions, ok)
      ensures trace.Attempted? && (ok || Tellable(old(host.tables), actions, desired)) ==>
                Untangled(trace.loose, trace.lost)
      ensures ok && trace.Attempted? ==>
                Reached(old(host.tables), host.tables, fw.lastAdd, fw.lastDel, FirewallActions(actions),
                        |FirewallActions(actions)|,
                        ByKey(desired.mappings, R.CommentOf), desired.backends)
                && Jumping(host.tables)
      ensures FaultFree(host.faults) && ParentsExist(old(host.tables)) ==>
                Feasible(old(host.tables), FirewallActions(actions), R.WantedMappings(desired), desired.backends) ==> ok
    {
      ok, trace := true, NotApplied;
      if fw != null {
        var ours := [];
        for i := 0 to |actions|
          invariant ours == FirewallActions(actions[..i])
        {
          assert actions[..i + 1][..i] == actions[..i];
          if actions[i].target.FirewallTarget? {
            ours := ours + [actions[i]];
          }
        }
        assert actions[..|actions|] == actions;
        if |ours| > 0 {
          ghost var launch;
          ok, trace, launch := fw.Apply(R.Plan(ours, []), desired.mappings, desired.backends);
        }
      }
    }

    /** No command fails, and no manager has a reason to refuse its part. */
    ghost predicate Doable(actions: seq<R.Action>, desired: DesiredState)
      reads host
    {
      FaultFree(host.faults) && wg != null && hp != null
          && Acceptable(StateOf(), actions, desired, wg.checks, hp.checks)
    }

    /** After success a new record has been begun, and only changes have deleted without it. */
    ghost predicate Settles(trace: Trace, actions: seq<R.Action>, ok: bool) {
      ok && trace.Attempted? ==>
        trace.renewed && trace.loose == [] && (NoChange(FirewallActions(actions)) ==> trace.lost == [])
    }

    /** What the firewall's part of a plan leaves midway can be told apart. */
    ghost predicate Tellable(t: Chains, actions: seq<R.Action>, desired: DesiredState) {
      Discernible(t, FirewallActions(actions), R.WantedMappings(desired), desired.backends)
    }

    /** What a run has done fits the plan. HAProxy's turn comes only if the tunnels have been
        passed, and the firewall's only if HAProxy has done its part; a manager without an action
        does nothing, and after success every manager with an action has done its part. */
    ghost predicate Fits(d: Deeds, actions: seq<R.Action>, ok: bool) {
      && (ok || d.own || d.trace.Attempted? ==> d.passed == |actions|)
      && (d.own ==> hp != null && AsksHaproxy(actions))
      && (ok || d.trace.Attempted? ==> (d.own <==> hp != null && AsksHaproxy(actions)))
      && (d.trace.Attempted? ==> fw != null && FirewallActions(actions) != [])
      && (ok ==> (d.trace.Attempted? <==> fw != null && FirewallActions(actions) != []))
      && Settles(d.trace, actions, ok)
    }

    /** What was left on the chains can be told apart from nothing, if the plan was carried out
        to its end or is one of those of which this can be said. */
    ghost predicate Told(d: Deeds, actions: seq<R.Action>, desired: DesiredState, t: Chains, ok: bool) {
      d.trace.Attempted? && (ok || Tellable(t, actions, desired)) ==> Untangled(d.trace.loose, d.trace.lost)
    }

    /** The HAProxy manager refuses its part of the plan. */
    ghost predicate Spoiled(actions: seq<R.Action>, desired: DesiredState, files: H.Files) {
      && hp != null && AsksHaproxy(actions)
      && !H.Appliable(H.Content(files, hp.path), desired.sniRoutes, desired.backends, hp.checks)
    }

    /** HAProxy first, then the firewall. */
    method ApplyServices(actions: seq<R.Action>, desired: DesiredState, backup: string)
      returns (ok: bool, ghost d: Deeds)
      requires Valid() && (hp != null ==> backup != hp.path && backup != "")
      modifies host`calls, host`files, host`tables, host`log, hp, fw
      ensures LeavesOthersAlone(old(host.tables), host.tables)
      ensures Tracked(d.trace, old(StandOf()), StandOf()) && Fits(d, actions, ok) && d.passed == |actions|
      ensures Told(d, actions, desired, old(host.tables), ok)
      ensures hp == null ==> host.files == old(host.files)
      ensures hp != null ==> BackedUp(old(host.files), backup, old(hp.lastBackup), d.own)
      ensures ok ==> ServicesApplied(actions, desired, old(host.tables), old(host.files))
      ensures Spoiled(actions, desired, old(host.files)) ==> !ok && d == NO_DEEDS.(passed := |actions|)
      ensures FaultFree(host.faults) && hp != null && ParentsExist(old(host.tables)) ==>
                H.Appliable(H.Content(old(host.files), hp.path), desired.sniRoutes, desired.backends, hp.checks) ==>
                Feasible(old(host.tables), FirewallActions(actions), R.WantedMappings(desired), desired.backends) ==> ok
    {
      ghost var own, trace := false, NotApplied;
      ok, own := ApplyHaproxy(actions, desired, backup);
      if ok {
        ok, trace := ApplyFirewall(actions, desired);
      }
      d := Deeds(|actions|, own, trace, Nothing);
    }

    /** Tunnels first, then the services. */
    method ApplyPlan(actions: seq<R.Action>, desired: DesiredState, backup: string, ghost before: Links)
      returns (ok: bool, ghost d: Deeds)
      requires Valid() && Account(before) && Supported(actions, ByKey(desired.tunnels, TunnelId))
      requires NoTunnelDeletes(actions) || wg != null
      requires hp != null ==> backup != hp.path && backup != ""
      modifies host, wg, hp, fw
      ensures (NoTunnelDeletes(actions) ==> Account(before)) && (wg == null ==> host.links == old(host.links))
      ensures LeavesOthersAlone(old(host.tables), host.tables)
      ensures Tracked(d.trace, old(StandOf()), StandOf()) && Fits(d, actions, ok)
              && Told(d, actions, desired, old(host.tables), ok)
      ensures TunnelsLeft(old(host.links), actions, desired, d.passed)
      ensures hp == null ==> host.files == old(host.files)
      ensures hp != null ==> BackedUp(old(host.files), backup, old(hp.lastBackup), d.own)
      ensures ok ==> AppliedAll(actions, desired, old(host.tables), old(host.links), old(host.files))
      ensures Spoiled(actions, desired, old(host.files)) ==> !ok && d == NO_DEEDS.(passed := d.passed)
      ensures old(Doable(actions, desired)) && NoTunnelDeletes(actions) ==> ok
    {
      d := NO_DEEDS;
      ByKeyKeys(desired.tunnels, TunnelId);
      ghost var passed;
      ok, passed := ApplyTunnels(actions, ByKey(desired.tunnels, TunnelId), before);
      if ok {
        ok, d := ApplyServices(actions, desired, backup);
      } else {
        d := d.(passed := passed);
        NothingChanges(host.tables, host.log);
      }
    }

    /** The interfaces that were there before are as the first actions of the plan have left
        them, if its actions are about different interfaces. A plan with an action that the
        WireGuard manager refuses does not get past the tunnels. */
    ghost predicate TunnelsLeft(links: Links, actions: seq<R.Action>, desired: DesiredState, passed: nat)
      reads host
    {
      var byId := ByKey(desired.tunnels, TunnelId);
      && (DistinctTargets(actions, byId) ==> LinksLeft(links, host.links, actions, passed, byId))
      && ((exists a | a in actions :: Refused(a, byId)) ==> passed < |actions|)
    }

    /** If the run made a backup, it holds the former text, and no file but the configuration
        and the backup has changed; if it made none, no file has changed. */
    ghost predicate BackedUp(files: H.Files, backup: string, lastBackup: string, own: bool)
      requires hp != null
      reads host, hp
    {
      if own then
        && (forall p | p != hp.path && p != backup :: H.FileAt(host.files, p) == H.FileAt(files, p))
        && hp.lastBackup == backup && H.FileAt(host.files, backup) == Some(H.Content(files, hp.path))
      else
        host.files == files && hp.lastBackup == lastBackup
    }

    /** Every action of the plan has been carried out by its manager. */
    ghost predicate AppliedAll(actions: seq<R.Action>, desired: DesiredState, tables: Chains, links: Links,
                               files: H.Files)
      reads host, fw
    {
      && (DistinctTargets(actions, ByKey(desired.tunnels, TunnelId)) ==>
            TendedUpTo(links, host.links, actions, |actions|, ByKey(desired.tunnels, TunnelId)))
      && ServicesApplied(actions, desired, tables, files)
    }

    ghost predicate ServicesApplied(actions: seq<R.Action>, desired: DesiredState, tables: Chains, files: H.Files)
      reads host, fw
    {
      && (hp != null ==>
            if AsksHaproxy(actions) then Written(desired, H.FileAt(files, hp.path).GetOr(""),
                                                 H.FileAt(host.files, hp.path))
            else host.files == files)
      && (if fw == null || FirewallActions(actions) == [] then host.tables == tables
          else Reached(tables, host.tables, fw.lastAdd, fw.lastDel, FirewallActions(actions),
                       |FirewallActions(actions)|,
                       R.WantedMappings(desired), desired.backends)
               && Jumping(host.tables))
    }

    // --------------------------------------------------------- rolling back

    /** Rolls every manager back; true if none of them reports an error. */
    method Rollback(ghost before: Links) returns (ok: bool, ghost undo: Undo)
      requires Valid() && Account(before)
      modifies host, fw
      ensures wg == null ==> host.links == old(host.links)
      ensures wg != null ==> forall n | n in before :: n in host.links && host.links[n] == old(host.links)[n]
      ensures wg != null && ok ==> host.links.Keys == before.Keys
      ensures host.active == old(host.active)
      ensures hp == null ==> host.files == old(host.files)
      ensures hp != null ==>
                && (forall p | p != hp.path :: H.FileAt(host.files, p) == H.FileAt(old(host.files), p))
                && (hp.lastBackup == "" ==> host.files == old(host.files))
                && (ok || (FaultFree(host.faults) && hp.lastBackup in old(host.files)) ==>
                      hp.lastBackup == "" || H.FileAt(old(host.files), hp.lastBackup)
                          == Some(H.Content(host.files, hp.path)))
      ensures Rolled(undo, old(StandOf()), StandOf()) && (ok ==> !undo.Failing?)
      ensures FaultFree(host.faults) && Retrievable(old(host.tables), old(Ledger())) ==>
                Undone(old(host.tables), host.tables, old(Ledger()).added, old(Ledger()).deleted)
    {
      ok, undo := true, Nothing;
      UndoneNothing(host.tables);
      if hp != null {
        var fine := hp.Rollback();
        ok := ok && fine;
      }
      if fw != null {
        var u := fw.Rollback();
        ok, undo := ok && !u.Failing?, u;
      }
      if wg != null {
        var failed := wg.RollbackAll(before);
        ok := ok && failed == 0;
      }
    }

    // --------------------------------------------------------- reconciling

    ghost function Start(): (b: Before)
      reads host, hp, fw
    {
      Before(host.tables, host.links, host.files, LastBackup(), Ledger(), host.log)
    }

    ghost function LastBackup(): (name: string)
      reads hp
    {
      if hp == null then "" else hp.lastBackup
    }

    /** What every reconciliation keeps, however it ends: the interfaces that were there, and
        all files but the configuration and its backup. */
    ghost predicate Spared(links: Links, files: H.Files, backup: string)
      reads host
    {
      && (forall n | n in links :: n in host.links && host.links[n].kind == links[n].kind)
      && (hp == null ==> host.files == files)
      && (hp != null ==> forall p | p != hp.path && p != backup :: H.FileAt(host.files, p) == H.FileAt(files, p))
    }

    /** A rollback puts the text from before the run back: no backup was pending, or the run
        made its own, or the pending one holds the present text. */
    ghost predicate PutsTextBack(b: Before, own: bool)
      requires hp != null
    {
      own || b.lastBackup == "" || H.FileAt(b.files, b.lastBackup) == Some(H.Content(b.files, hp.path))
    }

    /** What a failed reconciliation leaves when its rollback reports no error: the same
        interfaces; the same configuration, and the same rules in the agent's chains, exactly
        under conditions on what was pending and on what the run did. Where the record was
        undone, the rules are the same if and only if the rollback changed as many of them as
        the run had, by the host's log. */
    ghost predicate Reverted(b: Before, d: Deeds)
      reads host, hp, fw
    {
      && host.links.Keys == b.links.Keys
      && (hp != null ==> if d.own then H.FileAt(host.files, hp.lastBackup) == Some(H.Content(b.files, hp.path))
                         else hp.lastBackup == b.lastBackup)
      && (hp != null ==> (H.Content(host.files, hp.path) == H.Content(b.files, hp.path) <==> PutsTextBack(b, d.own)))
      && RulesReverted(b, d)
    }

    ghost predicate RulesReverted(b: Before, d: Deeds)
      reads host, fw
    {
      && Ended(d.trace, d.undo, b.From(), StandOf()) && b.log <= host.log
      && (d.trace.Attempted? <==> SaveTried in UntilRollback(host.log, |b.log|)[|b.log|..])
      && (Printable(b.tables) ==>
            && (SameContents(b.tables, host.tables) <==> Restores(d.trace, d.undo, b.tables, b.record))
            && (d.undo.FellBack? && d.trace.Attempted? && d.trace.saved ==> host.tables == b.tables)
            && (d.undo.Inverted? && Clear(b, d) ==> RulesBackIff(b)))
    }

    /** The agent's chains hold the same rules as before the run if and only if the rollback has
        changed as many of them as the run had. */
    ghost predicate RulesBackIff(b: Before)
      reads host
    {
      b.log <= host.log && (SameContents(b.tables, host.tables)
                            <==> Changed(b.log, host.log) == ChangedBack(b.log, host.log))
    }

    /** What a transaction may have done so far. */
    ghost predicate Underway(b: Before, backup: string, d: Deeds)
      reads host, wg, hp, fw
    {
      && Account(b.links) && (wg == null ==> host.links == b.links)
      && (hp == null ==> host.files == b.files)
      && (hp != null ==> backup != hp.path && backup != "" && BackedUp(b.files, backup, b.lastBackup, d.own))
      && Tracked(d.trace, b.From(), StandOf())
    }

    lemma UnderwayIsSpared(b: Before, backup: string, d: Deeds)
      requires Underway(b, backup, d)
      ensures Spared(b.links, b.files, backup)
    {
    }

    /** The firewall record and the backup of an earlier run have been undone and put back. */
    ghost predicate Withdrawn(b: Before)
      reads host
    {
      && (Retrievable(b.tables, b.record) ==> Undone(b.tables, host.tables, b.record.added, b.record.deleted))
      && (hp != null && b.lastBackup in b.files && b.lastBackup != "" ==>
          H.Content(host.files, hp.path) == b.files[b.lastBackup])
      && (hp != null && b.lastBackup == "" ==> host.files == b.files)
    }

    /** Rolls a transaction back. */
    method Abort(ghost b: Before, ghost backup: string, ghost d: Deeds) returns (ok: bool, ghost done: Deeds)
      requires Valid() && Underway(b, backup, d)
      modifies host, fw
      ensures Spared(b.links, b.files, backup) && (ok ==> Reverted(b, done))
      ensures done == d.(undo := done.undo)
      ensures host.links == old(host.links)
              || forall n | n in b.links :: n in host.links && host.links[n] == old(host.links)[n]
      ensures FaultFree(host.faults) && !d.own && d.trace.NotApplied? ==> Withdrawn(b)
    {
      UnderwayIsSpared(b, backup, d);
      ghost var at, undo := StandOf(), Nothing;
      host.NoteRollback();
      ok, undo := Rollback(b.links);
      done := d.(undo := undo);
      if ok {
        RulesAreReverted(b, done, at);
      }
    }

    lemma RulesAreReverted(b: Before, d: Deeds, at: Stand)
      requires EndedAt(d.trace, d.undo, b.From(), at, StandOf()) && !d.undo.Failing?
      ensures RulesReverted(b, d)
    {
      LogGrows(d.trace, d.undo, b.From(), at, StandOf());
      if Printable(b.tables) {
        RollbackRestoresIff(d.trace, d.undo, b.From(), at, at.(log := at.log + [RollbackBegun]), StandOf());
        if d.undo.Inverted? && Clear(b, d) {
          RestoredIffChangedBack(d.trace, b.From(), at, StandOf());
        }
      }
    }

    /** Discovers again and compares. */
    method Verify(desired: DesiredState) returns (seen: bool, ok: bool, after: ActualState)
      requires Valid()
      modifies host`calls
      ensures ok ==> seen && Observed(desired, after) && R.Agrees(desired, after) && after.conflicts == []
      ensures AtRest(desired) ==> ok
    {
      SurveyFacts(desired);
      seen, after := Discover(desired);
      ok := false;
      if seen {
        var verify := R.Diff(desired, after);
        ok := verify.Empty() && !verify.HasConflicts();
        R.PlanIsEmptyIffAgreement(desired, after);
      }
    }

    /** On a ready host in which no command fails, a plan can be carried out. */
    ghost predicate Promising(plan: R.Plan, desired: DesiredState)
      reads host
    {
      && Surveyable(desired) && Ready(desired, StateOf(), hp.path, wg.checks, hp.checks)
      && plan == R.Difference(desired, ActualOf(desired, StateOf(), hp.path))
    }

    lemma PromisingIsDoable(plan: R.Plan, desired: DesiredState)
      requires Promising(plan, desired)
      ensures Doable(plan.actions, desired)
    {
      ReadyPlanIsAcceptable(desired, StateOf(), hp.path, wg.checks, hp.checks);
    }

    /** Carrying out the whole plan that was made on a ready host leaves nothing to plan, and
        the host ready for all it was ready for. */
    lemma AppliedSettles(plan: R.Plan, desired: DesiredState, tables: Chains, links: Links, files: H.Files)
      requires Standard(desired)
      requires var s := State(tables, links, H.FileAt(files, hp.path));
               && Ready(desired, s, hp.path, wg.checks, hp.checks) && H.Seen(s.file, hp.path, desired.sniRoutes).Some?
               && plan == R.Difference(desired, ActualOf(desired, s, hp.path))
      requires AppliedAll(plan.actions, desired, tables, links, files)
      ensures Calm(desired, StateOf(), hp.path)
      ensures KeepsReady(State(tables, links, H.FileAt(files, hp.path)), StateOf(), hp.path, wg.checks, hp.checks)
      ensures MovedBy(desired, State(tables, links, H.FileAt(files, hp.path)), StateOf(), hp.path, fw.lastAdd,
                      fw.lastDel)
    {
      var s, s', path := State(tables, links, H.FileAt(files, hp.path)), StateOf(), hp.path;
      ReadyFacts(desired, s, path, wg.checks, hp.checks);
      PlanGoes(desired, s, path);
      var _ := TunnelTargets(desired, s, path, wg.checks);
      PlanTends(desired, s, path, wg.checks, s'.links);
      ReconciledSettles(desired, s, s', path, wg.checks, hp.checks, fw.lastAdd, fw.lastDel);
    }

    /** The plan was made on a host whose firewall is well formed. */
    ghost predicate Charted(actions: seq<R.Action>, desired: DesiredState)
      reads host
    {
      fw != null && WellFormed(host.tables) && ValidMappings(desired)
          && FirewallActions(actions) == Steps(host.tables, desired)
    }

    /** Of a plan that was carried out, everything is on record if and only if no rule was
        changed in place. */
    ghost predicate RecordedIff(d: Deeds, actions: seq<R.Action>) {
      d.trace.Attempted? ==> (Cancels(d.trace.loose, d.trace.lost) <==> NoChange(FirewallActions(actions)))
    }

    ghost function StateAt(b: Before): (s: State) {
      State(b.tables, b.links, if hp == null then None else H.FileAt(b.files, hp.path))
    }

    /** What is known before a plan is carried out is so. */
    ghost predicate Foreseen(o: Outlook, plan: R.Plan, desired: DesiredState)
      reads host
    {
      && (o.charted ==> Charted(plan.actions, desired))
      && (o.promising ==> Promising(plan, desired))
      && (o.spoiled ==> Spoiled(plan.actions, desired, host.files))
    }

    /** What a refused plan leaves: no deeds of its own, but the record and the backup of an
        earlier run are undone and put back. */
    ghost predicate Barren(b: Before, d: Deeds)
      reads host
    {
      d == NO_DEEDS.(passed := d.passed, undo := d.undo) && (FaultFree(host.faults) ==> Withdrawn(b))
    }

    /** Starts a transaction and carries out the plan. */
    method Begin(plan: R.Plan, desired: DesiredState, backup: string, ghost b: Before, ghost o: Outlook)
      returns (ok: bool, ghost d: Deeds)
      requires Valid() && Supported(plan.actions, ByKey(desired.tunnels, TunnelId)) && NoTunnelDeletes(plan.actions)
      requires hp != null ==> backup != hp.path && backup != ""
      requires b == Start() && Foreseen(o, plan, desired)
      modifies host, wg, hp, fw
      ensures Underway(b, backup, d) && Fits(d, plan.actions, ok) && LeavesOthersAlone(b.tables, host.tables)
      ensures TunnelsLeft(b.links, plan.actions, desired, d.passed)
              && Told(d, plan.actions, desired, b.tables, ok || o.charted)
      ensures ok ==> AppliedAll(plan.actions, desired, b.tables, b.links, b.files)
      ensures o.spoiled ==> !ok && d == NO_DEEDS.(passed := d.passed)
      ensures o.promising ==> ok
    {
      if o.promising {
        PromisingIsDoable(plan, desired);
      }
      if o.charted {
        StepsAreDiscernible(host.tables, desired);
      }
      if wg != null {
        wg.BeginTx();
      }
      ok, d := ApplyPlan(plan.actions, desired, backup, b.links);
    }

    /** The same, and what success means for the host. */
    method Carry(plan: R.Plan, desired: DesiredState, backup: string, ghost b: Before, ghost o: Outlook)
      returns (ok: bool, ghost d: Deeds)
      requires Valid() && Supported(plan.actions, ByKey(desired.tunnels, TunnelId)) && NoTunnelDeletes(plan.actions)
      requires hp != null ==> backup != hp.path && backup != ""
      requires b == Start() && Foreseen(o, plan, desired)
      modifies host, wg, hp, fw
      ensures Underway(b, backup, d) && Fits(d, plan.actions, ok) && LeavesOthersAlone(b.tables, host.tables)
      ensures TunnelsLeft(b.links, plan.actions, desired, d.passed)
              && Told(d, plan.actions, desired, b.tables, ok || o.charted)
      ensures ok && o.charted ==> Synced(host.tables, desired) && RecordedIff(d, plan.actions)
      ensures o.spoiled ==> !ok && d == NO_DEEDS.(passed := d.passed)
      ensures o.promising ==> ok && Settled(desired, StateAt(b))
    {
      ok, d := Begin(plan, desired, backup, b, o);
      if ok && o.charted {
        FirewallPartSyncs(b.tables, host.tables, fw.lastAdd, fw.lastDel, plan.actions, desired);
        FirewallPartIsRecorded(b.tables, host.tables, fw.lastAdd, fw.lastDel, plan.actions, desired, d.trace);
      }
      if o.promising {
        AppliedSettles(plan, desired, b.tables, b.links, b.files);
      }
    }

    /** Rolls back; the interfaces that were there before stay as the plan has left them. */
    method Retreat(ghost plan: R.Plan, ghost desired: DesiredState, ghost b: Before, ghost backup: string,
                   ghost d: Deeds)
      returns (ok: bool, ghost done: Deeds)
      requires Valid() && Underway(b, backup, d) && TunnelsLeft(b.links, plan.actions, desired, d.passed)
      modifies host, fw
      ensures Spared(b.links, b.files, backup) && (ok ==> Reverted(b, done))
      ensures done == d.(undo := done.undo) && TunnelsLeft(b.links, plan.actions, desired, done.passed)
      ensures FaultFree(host.faults) && !d.own && d.trace.NotApplied? ==> Withdrawn(b)
    {
      ghost var now := host.links;
      ok, done := Abort(b, backup, d);
      TunnelsStayLeft(b.links, now, plan.actions, desired, d.passed);
    }

    lemma TunnelsStayLeft(links: Links, now: Links, actions: seq<R.Action>, desired: DesiredState, passed: nat)
      requires DistinctTargets(actions, ByKey(desired.tunnels, TunnelId)) ==>
                 LinksLeft(links, now, actions, passed, ByKey(desired.tunnels, TunnelId))
      requires (exists a | a in actions :: Refused(a, ByKey(desired.tunnels, TunnelId))) ==> passed < |actions|
      requires host.links == now || forall n | n in links && n in now :: n in host.links && host.links[n] == now[n]
      ensures TunnelsLeft(links, actions, desired, passed)
    {
      if DistinctTargets(actions, ByKey(desired.tunnels, TunnelId)) {
        LinksStayLeft(links, now, host.links, actions, passed, ByKey(desired.tunnels, TunnelId));
      }
    }

    /** Carries out the plan; rolls back if that fails. */
    method Attempt(plan: R.Plan, desired: DesiredState, backup: string, ghost b: Before, ghost o: Outlook)
      returns (ok: bool, undone: bool, ghost d: Deeds)
      requires Valid() && Supported(plan.actions, ByKey(desired.tunnels, TunnelId)) && NoTunnelDeletes(plan.actions)
      requires hp != null ==> backup != hp.path && backup != ""
      requires b == Start() && Foreseen(o, plan, desired)
      modifies host, wg, hp, fw
      ensures Fits(d, plan.actions, ok)
      ensures TunnelsLeft(b.links, plan.actions, desired, d.passed)
              && Told(d, plan.actions, desired, b.tables, ok || o.charted)
      ensures !ok ==> Spared(b.links, b.files, backup) && (undone ==> Reverted(b, d))
      ensures ok ==> Underway(b, backup, d) && LeavesOthersAlone(b.tables, host.tables)
      ensures ok && o.charted ==> Synced(host.tables, desired) && RecordedIff(d, plan.actions)
      ensures o.spoiled ==> !ok && Barren(b, d)
      ensures o.promising ==> ok && Settled(desired, StateAt(b))
    {
      undone := false;
      ok, d := Carry(plan, desired, backup, b, o);
      if !ok {
        undone, d := Retreat(plan, desired, b, backup, d);
      }
    }

    /** What a run that was not idle comes to. */
    ghost predicate Outcome(desired: DesiredState, plan: R.Plan, b: Before, o: Outlook, backup: string,
                            verdict: Verdict, res: Result, undone: bool, d: Deeds)
      reads host, wg, hp, fw
    {
      && res.plan == plan && (res.applied <==> verdict.Reconciled?)
      && Spared(b.links, b.files, backup)
      && (verdict.Ran() ==>
          Fits(d, plan.actions, !verdict.ApplyFailed?) && TunnelsLeft(b.links, plan.actions, desired, d.passed))
      && (verdict.Ran() ==> Told(d, plan.actions, desired, b.tables, !verdict.ApplyFailed? || o.charted))
      && (verdict.Failed() && undone ==> Reverted(b, d))
      && (verdict.Reconciled? ==> Underway(b, backup, d) && LeavesOthersAlone(b.tables, host.tables))
      && (verdict.Reconciled? ==>
          Observed(desired, res.actual) && R.Agrees(desired, res.actual) && res.actual.conflicts == [])
      && (verdict.Reconciled? && o.charted ==> Synced(host.tables, desired))
      && (verdict.Ran() && !verdict.ApplyFailed? && o.charted ==> RecordedIff(d, plan.actions))
      && (verdict.Ran() && o.spoiled ==> verdict.ApplyFailed? && Barren(b, d))
      && (verdict.Ran() && o.promising ==> verdict.Reconciled? && Settled(desired, StateAt(b)))
    }

    /** Applies a validated plan and verifies it; rolls back if either fails. `undone` says
        whether a rollback that was run reported no error. */
    method Transact(plan: R.Plan, desired: DesiredState, actual: ActualState, backup: string, ghost b: Before,
                    ghost o: Outlook)
      returns (verdict: Verdict, res: Result, undone: bool, ghost d: Deeds)
      requires Valid() && Supported(plan.actions, ByKey(desired.tunnels, TunnelId)) && NoTunnelDeletes(plan.actions)
      requires hp != null ==> backup != hp.path && backup != ""
      requires b == Start() && Foreseen(o, plan, desired)
      modifies host, wg, hp, fw
      ensures verdict.Ran() && Outcome(desired, plan, b, o, backup, verdict, res, undone, d)
      ensures res.rolled == if verdict.ApplyFailed? then undone else verdict.VerifyFailed?
    {
      var ok;
      ok, undone, d := Attempt(plan, desired, backup, b, o);
      if !ok {
        return ApplyFailed, Result(plan, actual, false, undone), undone, d;
      }
      verdict, res, undone, d := Conclude(plan, desired, actual, backup, b, o, d);
    }

    /** A plan has been carried out and waits to be verified. */
    ghost predicate Awaiting(desired: DesiredState, plan: R.Plan, b: Before, o: Outlook, backup: string, d: Deeds)
      reads host, wg, hp, fw
    {
      && Underway(b, backup, d) && LeavesOthersAlone(b.tables, host.tables) && Fits(d, plan.actions, true)
      && TunnelsLeft(b.links, plan.actions, desired, d.passed) && Told(d, plan.actions, desired, b.tables, true)
      && (o.charted ==> Synced(host.tables, desired) && RecordedIff(d, plan.actions))
      && !o.spoiled && (o.promising ==> Settled(desired, StateAt(b)))
    }

    /** Discovers again and compares, which changes nothing. */
    method VerifyCarried(desired: DesiredState, ghost plan: R.Plan, ghost backup: string, ghost b: Before,
                         ghost o: Outlook, ghost d: Deeds)
      returns (seen: bool, ok: bool, after: ActualState)
      requires Valid() && Awaiting(desired, plan, b, o, backup, d)
      modifies host`calls
      ensures Awaiting(desired, plan, b, o, backup, d)
      ensures ok ==> seen && Observed(desired, after) && R.Agrees(desired, after) && after.conflicts == []
      ensures o.promising ==> ok
    {
      seen, ok, after := Verify(desired);
    }

    /** Verifies a plan that has been carried out; rolls back if that fails. */
    method Conclude(plan: R.Plan, desired: DesiredState, actual: ActualState, backup: string,
                    ghost b: Before, ghost o: Outlook, ghost d: Deeds)
      returns (verdict: Verdict, res: Result, undone: bool, ghost done: Deeds)
      requires Valid() && Awaiting(desired, plan, b, o, backup, d)
      modifies host, fw
      ensures verdict.VerifyFailed? || verdict.Reconciled?
      ensures Outcome(desired, plan, b, o, backup, verdict, res, undone, done)
      ensures res.rolled == verdict.VerifyFailed?
    {
      undone, done := false, d;
      var seen, agrees, after := VerifyCarried(desired, plan, backup, b, o, d);
      if !agrees {
        undone, done := Retreat(plan, desired, b, backup, d);
        return VerifyFailed, Result(plan, if seen then after else actual, false, true), undone, done;
      }
      UnderwayIsSpared(b, backup, d);
      return Reconciled, Result(plan, after, true, false), undone, done;
    }

    /** Validates a plan and carries it out. */
    method Execute(plan: R.Plan, desired: DesiredState, actual: ActualState, backup: string, ghost b: Before,
                   ghost o: Outlook)
      returns (verdict: Verdict, res: Result, undone: bool, ghost d: Deeds)
      requires Valid() && NoTunnelDeletes(plan.actions) && (hp != null ==> backup != hp.path && backup != "")
      requires b == Start() && Foreseen(o, plan, desired)
      modifies host, wg, hp, fw
      ensures !verdict.Idle() && Outcome(desired, plan, b, o, backup, verdict, res, undone, d)
      ensures verdict.NoManager? ==> Untouched() && !res.rolled
      ensures verdict.NoManager? <==> !Supported(plan.actions, ByKey(desired.tunnels, TunnelId))
    {
      var valid := ValidatePlan(plan, desired);
      if !valid {
        return NoManager, Result(plan, actual, false, false), false, NO_DEEDS;
      }
      verdict, res, undone, d := Transact(plan, desired, actual, backup, b, o);
    }

    /** Discovers and plans. */
    method MakePlan(desired: DesiredState) returns (ok: bool, plan: R.Plan, actual: ActualState)
      requires Valid()
      modifies host`calls
      ensures ok ==> plan == R.Difference(desired, actual) && Observed(desired, actual)
      ensures ok && plan.Empty() ==> R.Agrees(desired, actual)
      ensures NoTunnelDeletes(plan.actions)
      ensures Surveyable(desired) ==> ok && actual == ActualOf(desired, StateOf(), hp.path)
    {
      plan := R.Plan([], []);
      ok, actual := Discover(desired);
      if ok {
        plan := R.Diff(desired, actual);
        R.PlanIsEmptyIffAgreement(desired, actual);
        PlansDeleteNoTunnel(desired, actual);
      }
    }

    /** What is known of a plan before it is carried out. */
    lemma Foresight(desired: DesiredState, plan: R.Plan, actual: ActualState) returns (o: Outlook)
      requires Valid() && plan == R.Difference(desired, actual) && Observed(desired, actual)
      requires Surveyable(desired) ==> actual == ActualOf(desired, StateOf(), hp.path)
      ensures Foreseen(o, plan, desired) && o == Outlook(Sound(desired), Favourable(desired), Refusable(desired))
      ensures o.charted && plan.Empty() ==> Synced(host.tables, desired)
      ensures o.promising || o.spoiled ==>
                !plan.HasConflicts() && Supported(plan.actions, ByKey(desired.tunnels, TunnelId))
      ensures o.promising && plan.Empty() ==> Settled(desired, StateOf())
      ensures o.spoiled ==> !plan.Empty()
      ensures AtRest(desired) ==> plan == R.Plan([], [])
    {
      o := Outlook(Sound(desired), Favourable(desired), Refusable(desired));
      SurveyFacts(desired);
      FirewallPartIs(desired, actual);
      if Sound(desired) {
        NoStepsIffSynced(host.tables, desired);
      }
      if Refusable(desired) {
        ValidIsSupported(desired);
      }
      if Favourable(desired) {
        PromisingIsSupported(plan, desired);
        if plan.Empty() {
          RestIsSettled(desired);
        }
      }
    }

    lemma RestIsSettled(desired: DesiredState)
      requires Valid() && Favourable(desired) && AtRest(desired)
      ensures Settled(desired, StateOf())
    {
      ReadyFacts(desired, StateOf(), hp.path, wg.checks, hp.checks);
      CalmIsMoved(desired, StateOf(), hp.path, wg.checks, Ledger().added, Ledger().deleted);
    }

    /** What a survey of the host says about the plan that is to be made. */
    lemma SurveyFacts(desired: DesiredState)
      requires Valid()
      ensures Surveyable(desired) ==>
                (Calm(desired, StateOf(), hp.path)
                 <==> R.Difference(desired, ActualOf(desired, StateOf(), hp.path)) == R.Plan([], []))
      ensures AtRest(desired) || Favourable(desired) ==> Surveyable(desired)
      ensures Favourable(desired) ==> ActualOf(desired, StateOf(), hp.path).conflicts == []
    {
      if hp != null {
        CalmIffNothingToPlan(desired, StateOf(), hp.path);
      }
      if Favourable(desired) {
        ReadyFacts(desired, StateOf(), hp.path, wg.checks, hp.checks);
        ConflictParts(desired, StateOf(), hp.path);
      }
    }

    /** Discovery cannot fail. */
    ghost predicate Surveyable(desired: DesiredState)
      reads host
    {
      && FaultFree(host.faults) && Standard(desired)
      && H.Seen(H.FileAt(host.files, hp.path), hp.path, desired.sniRoutes).Some?
    }

    /** The run begins on a ready host, and no command fails. */
    ghost predicate Favourable(desired: DesiredState)
      reads host
    {
      FaultFree(host.faults) && Standard(desired) && Ready(desired, StateOf(), hp.path, wg.checks, hp.checks)
    }

    /** The run begins on a host without conflict, with valid tunnels, and no command fails;
        but the HAProxy manager will refuse what is wanted of it. */
    ghost predicate Refusable(desired: DesiredState)
      reads host
    {
      && Surveyable(desired) && ValidTunnels(desired.tunnels, wg.checks)
      && ActualOf(desired, StateOf(), hp.path).conflicts == []
      && Spoiled(R.Difference(desired, ActualOf(desired, StateOf(), hp.path)).actions, desired, host.files)
    }

    /** The run begins on a host that is as desired, and no command fails. */
    ghost predicate AtRest(desired: DesiredState)
      reads host
    {
      FaultFree(host.faults) && Standard(desired) && Calm(desired, StateOf(), hp.path)
    }

    /** The host is as desired, and ready for whatever it was ready for in state s; it has become
        so by a finished reconciliation. */
    ghost predicate Settled(desired: DesiredState, s: State)
      reads host, fw
    {
      && AtRest(desired) && KeepsReady(s, StateOf(), hp.path, wg.checks, hp.checks)
      && MovedBy(desired, s, StateOf(), hp.path, Ledger().added, Ledger().deleted)
    }

    /** The firewall is well formed and the mappings valid. */
    ghost predicate Sound(desired: DesiredState)
      reads host
    {
      fw != null && WellFormed(host.tables) && ValidMappings(desired)
    }

    /** Nothing on the host has changed but the count of commands. */
    twostate predicate Untouched()
      reads host
    {
      host.tables == old(host.tables) && host.links == old(host.links) && host.files == old(host.files)
          && host.active == old(host.active)
    }

    /** Goes on with a plan: not if it has conflicts, nothing to do, or is only to be shown. */
    method Proceed(desired: DesiredState, plan: R.Plan, actual: ActualState, dryRun: bool, backup: string,
                   ghost b: Before, ghost o: Outlook)
      returns (verdict: Verdict, res: Result, undone: bool, ghost d: Deeds)
      requires Valid() && (hp != null ==> backup != hp.path && backup != "") && NoTunnelDeletes(plan.actions)
      requires b == Start() && Foreseen(o, plan, desired)
      modifies host, wg, hp, fw
      ensures !verdict.DiscoveryFailed? && Outcome(desired, plan, b, o, backup, verdict, res, undone, d)
      ensures verdict.Idle() || verdict.NoManager? ==> Untouched() && !res.rolled
      ensures verdict.Idle() ==> res.actual == actual && unchanged(host) && (fw != null ==> unchanged(fw))
      ensures verdict.Conflicted? <==> plan.HasConflicts()
      ensures verdict.NothingToDo? <==> !plan.HasConflicts() && (dryRun || plan.Empty())
      ensures verdict.NoManager? ==> !Supported(plan.actions, ByKey(desired.tunnels, TunnelId))
    {
      if plan.HasConflicts() {
        return Conflicted, Result(plan, actual, false, false), false, NO_DEEDS;
      }
      if plan.Empty() || dryRun {
        return NothingToDo, Result(plan, actual, false, false), false, NO_DEEDS;
      }
      verdict, res, undone, d := Execute(plan, desired, actual, backup, b, o);
    }

    /** What is known when a reconciliation begins. */
    ghost function OutlookOf(desired: DesiredState): (o: Outlook)
      reads host
    {
      Outlook(Sound(desired), Favourable(desired), Refusable(desired))
    }

    /** One reconciliation, given what is on the host and what is known. */
    method Run(desired: DesiredState, dryRun: bool, backup: string, ghost b: Before, ghost o: Outlook, ghost calm: bool)
      returns (verdict: Verdict, res: Result, undone: bool, ghost d: Deeds)
      requires Valid() && (hp != null ==> backup != hp.path && backup != "")
      requires b == Start() && o == OutlookOf(desired) && calm == AtRest(desired)
      modifies host, wg, hp, fw
      ensures NoTunnelDeletes(res.plan.actions) && (dryRun ==> verdict.Idle())
      ensures verdict.Idle() || verdict.NoManager? ==> Untouched() && !res.applied && !res.rolled
      ensures verdict.Conflicted? ==> res.plan.HasConflicts()
      ensures verdict.NothingToDo? ==>
                !res.plan.HasConflicts() && (dryRun || res.plan.Empty()) && Observed(desired, res.actual)
      ensures verdict.NothingToDo? && res.plan.Empty() ==>
                R.Agrees(desired, res.actual) && (o.charted ==> Synced(host.tables, desired))
      ensures verdict.NoManager? ==> !Supported(res.plan.actions, ByKey(desired.tunnels, TunnelId))
      ensures verdict.Ran() ==> Outcome(desired, res.plan, b, o, backup, verdict, res, undone, d)
      ensures o.promising && !dryRun ==> verdict.Reconciled? || (verdict.NothingToDo? && Settled(desired, StateAt(b)))
      ensures o.spoiled && !dryRun ==> verdict.ApplyFailed?
      ensures calm ==> verdict.NothingToDo? && res.plan == R.Plan([], [])
    {
      var ok, plan, actual := Foresee(desired, b, o, calm);
      if !ok {
        return DiscoveryFailed, Result(R.Plan([], []), ActualState([], [], "", [], []), false, false), false, NO_DEEDS;
      }
      verdict, res, undone, d := Proceed(desired, plan, actual, dryRun, backup, b, o);
    }

    /** Discovers and plans, and tells what is known of the plan. */
    method Foresee(desired: DesiredState, ghost b: Before, ghost o: Outlook, ghost calm: bool)
      returns (ok: bool, plan: R.Plan, actual: ActualState)
      requires Valid() && b == Start() && o == OutlookOf(desired) && calm == AtRest(desired)
      modifies host`calls
      ensures b == Start() && NoTunnelDeletes(plan.actions)
      ensures ok ==>
                Observed(desired, actual) && Foreseen(o, plan, desired) && (plan.Empty() ==> R.Agrees(desired, actual))
      ensures ok && o.charted && plan.Empty() ==> Synced(host.tables, desired)
      ensures o.promising || o.spoiled ==>
                ok && !plan.HasConflicts() && Supported(plan.actions, ByKey(desired.tunnels, TunnelId))
      ensures o.promising && plan.Empty() ==> Settled(desired, StateAt(b))
      ensures o.spoiled ==> !plan.Empty()
      ensures calm ==> ok && plan == R.Plan([], [])
    {
      SurveyFacts(desired);
      ok, plan, actual := MakePlan(desired);
      if ok {
        ghost var foreseen := Foresight(desired, plan, actual);
      }
    }

    /** One reconciliation. */
    method Reconcile(desired: DesiredState, dryRun: bool, backup: string)
      returns (verdict: Verdict, res: Result, undone: bool, ghost d: Deeds)
      requires Valid() && (hp != null ==> backup != hp.path && backup != "")
      modifies host, wg, hp, fw
      ensures NoTunnelDeletes(res.plan.actions)
      ensures dryRun ==> verdict.Idle()
      ensures verdict.Idle() || verdict.NoManager? ==> Untouched() && !res.applied && !res.rolled
      ensures verdict.Conflicted? ==> res.plan.HasConflicts()
      ensures verdict.NothingToDo? ==>
                !res.plan.HasConflicts() && (dryRun || res.plan.Empty()) && Observed(desired, res.actual)
      ensures verdict.NothingToDo? && res.plan.Empty() ==> R.Agrees(desired, res.actual)
      ensures verdict.NoManager? ==> !Supported(res.plan.actions, ByKey(desired.tunnels, TunnelId))
      ensures Spared(old(host.links), old(host.files), backup)
      ensures verdict.Ran() ==> Outcome(desired, res.plan, old(Start()), old(OutlookOf(desired)), backup, verdict, res,
                                        undone, d)
      ensures verdict.Failed() && undone && d.Recorded()
              && (old(Sound(desired)) || NoChange(FirewallActions(res.plan.actions))) ==>
                (old(Printable(host.tables)) ==> RulesBackIff(old(Start())))
      ensures old(Sound(desired)) && !dryRun && (verdict.Reconciled? || verdict.NothingToDo?) ==>
                Synced(host.tables, desired)
      ensures old(Refusable(desired)) && !dryRun ==> verdict.ApplyFailed? && Barren(old(Start()), d)
      ensures old(Favourable(desired)) && !dryRun ==>
                (verdict.Reconciled? || verdict.NothingToDo?) && Settled(desired, old(StateOf()))
      ensures old(AtRest(desired)) ==> verdict.NothingToDo? && res.plan == R.Plan([], [])
    {
      ghost var b, o := Start(), OutlookOf(desired);
      verdict, res, undone, d := Run(desired, dryRun, backup, b, o, AtRest(desired));
      if verdict.Failed() && undone && d.Recorded() && Printable(b.tables)
          && (o.charted || NoChange(FirewallActions(res.plan.actions))) {
        FailedIsTold(desired, b, o, backup, verdict, res, undone, d);
      }
    }

    lemma FailedIsTold(desired: DesiredState, b: Before, o: Outlook, backup: string, verdict: Verdict, res: Result,
                       undone: bool, d: Deeds)
      requires Outcome(desired, res.plan, b, o, backup, verdict, res, undone, d) && verdict.Failed() && undone
      requires d.Recorded() && Printable(b.tables)
      requires o.charted || NoChange(FirewallActions(res.plan.actions))
      ensures RulesBackIff(b)
    {
      assert Told(d, res.plan.actions, desired, b.tables, !verdict.ApplyFailed? || o.charted);
    }

    /** On a node with all managers every plan for valid WireGuard tunnels is supported. */
    lemma ValidIsSupported(desired: DesiredState)
      requires Surveyable(desired) && ValidTunnels(desired.tunnels, wg.checks)
      ensures Supported(R.Difference(desired, ActualOf(desired, StateOf(), hp.path)).actions,
                        ByKey(desired.tunnels, TunnelId))
    {
      var byId := ByKey(desired.tunnels, TunnelId);
      var tunnels, rules, sni := PlanIsParts(desired, StateOf(), hp.path);
      var names := TunnelTargets(desired, StateOf(), hp.path, wg.checks);
      TunnelTable(desired, wg.checks);
      var actions := R.Difference(desired, ActualOf(desired, StateOf(), hp.path)).actions;
      forall i | 0 <= i < |tunnels| ensures SupportsAction(tunnels[i], byId) {
        assert actions[i] == tunnels[i];
        assert TargetOf(actions[i], byId) == Some(R.WantedTunnels(desired)[names[i]]);
      }
      PartsAreSupported(tunnels, rules, sni, byId);
    }

    lemma PromisingIsSupported(plan: R.Plan, desired: DesiredState)
      requires Promising(plan, desired)
      ensures Supported(plan.actions, ByKey(desired.tunnels, TunnelId))
    {
      ReadyFacts(desired, StateOf(), hp.path, wg.checks, hp.checks);
      ValidIsSupported(desired);
    }

    lemma PartsAreSupported(tunnels: seq<R.Action>, rules: seq<R.Action>, sni: seq<R.Action>, byId: Tunnels)
      requires fw != null && hp != null
      requires forall i | 0 <= i < |tunnels| :: SupportsAction(tunnels[i], byId)
      requires (forall a | a in rules :: a.target.FirewallTarget?) && (forall a | a in sni :: a.target.HaproxyTarget?)
      ensures Supported(tunnels + rules + sni, byId)
    {
    }
  }
}
