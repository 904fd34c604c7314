/** Comparing desired with discovered state (internal/reconcile/plan.go). */
module Reconcile {
  import opened Model
  import opened Text
  import opened Sorting

  datatype ActionKind = Add | Change | Delete

  datatype Target = TunnelTarget | FirewallTarget | HaproxyTarget | OtherTarget(name: string)

  datatype Action = Action(kind: ActionKind, target: Target, id: string, before: string, after: string)

  datatype Plan = Plan(actions: seq<Action>, conflicts: seq<Conflict>) {
    predicate Empty() { actions == [] }

    predicate HasConflicts() { conflicts != [] }
  }

  // ------------------------------------------------------------ printed lines

  const MAPPING_PREFIX := "transitforge:mapping:"

  function MappingComment(id: string): (r: string) {
    MAPPING_PREFIX + id
  }

  function FormatInt(n: int): (r: string) {
    if n < 0 then "-" + Itoa(-n) else Itoa(n)
  }

  /** The one-line form in which a mapping's rule is compared. */
  function RuleSpec(protocol: string, publicPort: int, address: string, backendPort: int,
                    comment: string): (r: string) {
    Join([protocol, "dport", FormatInt(publicPort), "->", address + ":" + FormatInt(backendPort), "comment", comment])
  }

  /** A mapping whose backend has no address is printed with the backend's id instead. */
  function MappingRuleSpec(m: PortMapping, backends: map<string, Backend>): (r: string) {
    var address := if m.backendId in backends then backends[m.backendId].address else "";
    RuleSpec(m.protocol, m.publicPort, if address == "" then m.backendId else address, m.backendPort,
             MappingComment(m.id))
  }

  function TypeName(t: TunnelType): (r: string) {
    match t
    case WireGuard => "WIREGUARD"
    case SshTun => "SSH_TUN"
    case UnknownType(name) => name
  }

  function TunnelDesiredLine(t: Tunnel): (r: string) {
    Join([TypeName(t.kind), t.id, t.localOverlayIp + "->" + t.remoteOverlayIp, "if=" + t.interfaceName,
          "port=" + FormatInt(t.listenPort), "endpoint=" + t.endpoint])
  }

  function TunnelActualLine(a: TunnelActual): (r: string) {
    Join([TypeName(a.kind), "if=" + a.interfaceName, "present=" + (if a.interfacePresent then "true" else "false"),
          "local=" + a.localOverlayIp])
  }

  function SniLine(r: SniRoute): (res: string) {
    "listen " + r.listen + " matches=" + Itoa(|r.matches|)
  }

  function MatchLine(m: SniMatch): (r: string) {
    m.host + ":" + (m.backend + ":" + (m.backendId + (if m.isDefault then ":true" else ":false")))
  }

  // ---------------------------------------------------------------- SNI digest

  function MatchLines(ms: seq<SniMatch>): (r: seq<string>) {
    if ms == [] then [] else MatchLines(ms[..|ms| - 1]) + [MatchLine(ms[|ms| - 1])]
  }

  function SniParts(routes: seq<SniRoute>): (r: seq<string>) {
    if routes == [] then []
    else
      var r := routes[|routes| - 1];
      SniParts(routes[..|routes| - 1]) + [SniLine(r)] + MatchLines(r.matches)
  }

  function JoinBar(parts: seq<string>): (r: string) {
    if parts == [] then ""
    else if |parts| == 1 then parts[0]
    else parts[0] + "|" + JoinBar(parts[1..])
  }

  function Digest(routes: seq<SniRoute>): (r: string) {
    JoinBar(Sort(SniParts(routes)))
  }

  method SniDigest(routes: seq<SniRoute>) returns (digest: string)
    ensures digest == Digest(routes)
  {
    var parts: seq<string> := [];
    for i := 0 to |routes|
      invariant parts == SniParts(routes[..i])
    {
      var r := routes[i];
      ghost var before := parts;
      parts := parts + [SniLine(r)];
      for j := 0 to |r.matches|
        invariant parts == before + [SniLine(r)] + MatchLines(r.matches[..j])
      {
        parts := parts + [MatchLine(r.matches[j])];
        assert r.matches[..j + 1][..j] == r.matches[..j];
      }
      assert r.matches[..|r.matches|] == r.matches;
      assert routes[..i + 1][..i] == routes[..i];
    }
    assert routes[..|routes|] == routes;
    digest := JoinBar(Sort(parts));
  }

  function Without<T>(s: seq<T>, k: nat): (r: seq<T>)
    requires k < |s|
  {
    s[..k] + s[k + 1..]
  }

  lemma Reassemble<T>(s: seq<T>, k: nat)
    requires k < |s|
    ensures s[..k] + [s[k]] + s[k + 1..] == s
  {
  }

  lemma MultisetWithout<T>(s: seq<T>, k: nat)
    requires k < |s|
    ensures multiset(s) == multiset(Without(s, k)) + multiset{s[k]}
  {
    assert s == s[..k] + [s[k]] + s[k + 1..];
  }

  /** Where the last element of one arrangement is in another. */
  lemma Counterpart<T>(a: seq<T>, b: seq<T>) returns (k: nat)
    requires multiset(a) == multiset(b) && a != []
    ensures k < |b| && b[k] == a[|a| - 1]
    ensures multiset(a[..|a| - 1]) == multiset(Without(b, k))
  {
    var n := |a| - 1;
    MultisetWithout(a, n);
    assert Without(a, n) == a[..n];
    assert a[n] in multiset(b);
    k :| 0 <= k < |b| && b[k] == a[n];
    MultisetWithout(b, k);
    assert multiset(a[..n]) == multiset(a) - multiset{a[n]};
  }

  lemma {:induction false} MatchLinesIgnoreOrder(a: seq<SniMatch>, b: seq<SniMatch>)
    requires multiset(a) == multiset(b)
    ensures multiset(MatchLines(a)) == multiset(MatchLines(b))
  {
    if a == [] {
      assert |multiset(b)| == 0;
    } else {
      var k := Counterpart(a, b);
      MatchLinesIgnoreOrder(a[..|a| - 1], Without(b, k));
      MatchLinesWithout(b, k);
      MatchLinesWithout(a, |a| - 1);
      assert Without(a, |a| - 1) == a[..|a| - 1];
    }
  }

  lemma MultisetMiddle<T>(x: seq<T>, m: seq<T>, y: seq<T>)
    ensures multiset(x + m + y) == multiset(x + y) + multiset(m)
  {
  }

  lemma MatchLinesMiddle(x: seq<SniMatch>, m: seq<SniMatch>, y: seq<SniMatch>)
    ensures multiset(MatchLines(x + m + y)) == multiset(MatchLines(x + y)) + multiset(MatchLines(m))
  {
    MatchLinesConcat(x, y);
    MatchLinesConcat(x + m, y);
    MatchLinesConcat(x, m);
    MultisetMiddle(MatchLines(x), MatchLines(m), MatchLines(y));
  }

  lemma MatchLinesWithout(b: seq<SniMatch>, k: nat)
    requires k < |b|
    ensures multiset(MatchLines(b)) == multiset(MatchLines(Without(b, k))) + multiset(MatchLines([b[k]]))
  {
    var x, m, y := b[..k], [b[k]], b[k + 1..];
    Reassemble(b, k);
    MatchLinesMiddle(x, m, y);
  }

  lemma {:induction false} MatchLinesConcat(a: seq<SniMatch>, b: seq<SniMatch>)
    ensures MatchLines(a + b) == MatchLines(a) + MatchLines(b)
  {
    if b == [] {
      assert a + b == a;
    } else {
      assert (a + b)[..|a + b| - 1] == a + b[..|b| - 1];
      MatchLinesConcat(a, b[..|b| - 1]);
    }
  }

  lemma {:induction false} SniPartsConcat(a: seq<SniRoute>, b: seq<SniRoute>)
    ensures SniParts(a + b) == SniParts(a) + SniParts(b)
  {
    if b == [] {
      assert a + b == a;
    } else {
      assert (a + b)[..|a + b| - 1] == a + b[..|b| - 1];
      SniPartsConcat(a, b[..|b| - 1]);
    }
  }

  /** Two routes that differ at most in the order of their matches. */
  ghost predicate SameRoute(r: SniRoute, s: SniRoute) {
    r.id == s.id && r.listen == s.listen && multiset(r.matches) == multiset(s.matches)
  }

  lemma {:induction false} PartsIgnoreMatchOrder(a: seq<SniRoute>, b: seq<SniRoute>)
    requires |a| == |b| && forall i | 0 <= i < |a| :: SameRoute(a[i], b[i])
    ensures multiset(SniParts(a)) == multiset(SniParts(b))
  {
    if a != [] {
      var n := |a| - 1;
      PartsIgnoreMatchOrder(a[..n], b[..n]);
      assert SameRoute(a[n], b[n]);
      MatchLinesIgnoreOrder(a[n].matches, b[n].matches);
      assert |multiset(a[n].matches)| == |a[n].matches| && |multiset(b[n].matches)| == |b[n].matches|;
    }
  }

  lemma {:induction false} PartsIgnoreRouteOrder(a: seq<SniRoute>, b: seq<SniRoute>)
    requires multiset(a) == multiset(b)
    ensures multiset(SniParts(a)) == multiset(SniParts(b))
  {
    if a == [] {
      assert |multiset(b)| == 0;
    } else {
      var n := |a| - 1;
      var k := Counterpart(a, b);
      PartsIgnoreRouteOrder(a[..n], Without(b, k));
      SniPartsWithout(b, k);
      SniPartsWithout(a, n);
      assert Without(a, n) == a[..n];
    }
  }

  lemma SniPartsMiddle(x: seq<SniRoute>, m: seq<SniRoute>, y: seq<SniRoute>)
    ensures multiset(SniParts(x + m + y)) == multiset(SniParts(x + y)) + multiset(SniParts(m))
  {
    SniPartsConcat(x, y);
    SniPartsConcat(x + m, y);
    SniPartsConcat(x, m);
    MultisetMiddle(SniParts(x), SniParts(m), SniParts(y));
  }

  lemma SniPartsWithout(b: seq<SniRoute>, k: nat)
    requires k < |b|
    ensures multiset(SniParts(b)) == multiset(SniParts(Without(b, k))) + multiset(SniParts([b[k]]))
  {
    Reassemble(b, k);
    SniPartsMiddle(b[..k], [b[k]], b[k + 1..]);
  }

  /** Neither the order of the routes nor the order of the matches in them shows in the digest. */
  lemma DigestIgnoresOrder(a: seq<SniRoute>, b: seq<SniRoute>, c: seq<SniRoute>)
    requires |a| == |b| && forall i | 0 <= i < |a| :: SameRoute(a[i], b[i])
    requires multiset(b) == multiset(c)
    ensures Digest(a) == Digest(c)
  {
    PartsIgnoreMatchOrder(a, b);
    PartsIgnoreRouteOrder(b, c);
    SortIsCanonical(SniParts(a), SniParts(c));
  }

  lemma {:induction false} JoinBarIsInjective(a: seq<string>, b: seq<string>)
    requires forall i | 0 <= i < |a| :: '|' !in a[i] && a[i] != ""
    requires forall i | 0 <= i < |b| :: '|' !in b[i] && b[i] != ""
    requires JoinBar(a) == JoinBar(b)
    ensures a == b
  {
    SplitOfJoinBar(a);
    SplitOfJoinBar(b);
    if a == [] || b == [] {
      assert |a| > 0 ==> JoinBar(a) != "";
      assert |b| > 0 ==> JoinBar(b) != "";
    }
  }

  lemma {:induction false} SplitOfJoinBar(parts: seq<string>)
    requires forall i | 0 <= i < |parts| :: '|' !in parts[i] && parts[i] != ""
    ensures parts != [] ==> Split(JoinBar(parts), '|') == parts && JoinBar(parts) != ""
  {
    if |parts| == 1 {
      SplitWithoutSeparator(parts[0], '|');
    } else if |parts| > 1 {
      SplitOfJoinBar(parts[1..]);
      SplitUpToSeparator(parts[0], '|', JoinBar(parts[1..]));
      assert parts[0] + "|" + JoinBar(parts[1..]) == parts[0] + ['|'] + JoinBar(parts[1..]);
      assert parts == [parts[0]] + parts[1..];
    }
  }

  lemma {:induction false} SplitWithoutSeparator(s: string, sep: char)
    requires sep !in s
    ensures Split(s, sep) == [s]
  {
    if s != "" {
      SplitWithoutSeparator(s[1..], sep);
      assert s == [s[0]] + s[1..] && s[0] in s;
    }
  }

  ghost predicate BarFree(routes: seq<SniRoute>) {
    forall p | p in SniParts(routes) :: '|' !in p
  }

  lemma {:induction false} PartsAreNotEmpty(routes: seq<SniRoute>)
    ensures forall p | p in SniParts(routes) :: p != ""
  {
    if routes != [] {
      var n := |routes| - 1;
      PartsAreNotEmpty(routes[..n]);
      MatchLinesNotEmpty(routes[n].matches);
    }
  }

  lemma {:induction false} MatchLinesNotEmpty(ms: seq<SniMatch>)
    ensures forall p | p in MatchLines(ms) :: p != ""
  {
    if ms != [] {
      MatchLinesNotEmpty(ms[..|ms| - 1]);
    }
  }

  /** The digest identifies exactly the multiset of printed parts: two sets of routes have
      the same digest if and only if they print the same parts equally often. */
  lemma DigestIsExact(a: seq<SniRoute>, b: seq<SniRoute>)
    requires BarFree(a) && BarFree(b)
    ensures Digest(a) == Digest(b) <==> multiset(SniParts(a)) == multiset(SniParts(b))
  {
    SortIsSorted(SniParts(a));
    SortIsSorted(SniParts(b));
    if Digest(a) == Digest(b) {
      PartsAreNotEmpty(a);
      PartsAreNotEmpty(b);
      SortedPartsStayClean(a);
      SortedPartsStayClean(b);
      JoinBarIsInjective(Sort(SniParts(a)), Sort(SniParts(b)));
    } else if multiset(SniParts(a)) == multiset(SniParts(b)) {
      SortIsCanonical(SniParts(a), SniParts(b));
    }
  }

  lemma SortedPartsStayClean(routes: seq<SniRoute>)
    requires BarFree(routes)
    ensures forall i | 0 <= i < |Sort(SniParts(routes))| ::
              '|' !in Sort(SniParts(routes))[i] && Sort(SniParts(routes))[i] != ""
  {
    var parts := SniParts(routes);
    var s := Sort(parts);
    SortIsSorted(parts);
    PartsAreNotEmpty(routes);
    forall i | 0 <= i < |s| ensures s[i] in parts {
      assert s[i] in multiset(s);
    }
  }

  /** The parts do not say which route a match belongs to, so the digest does not notice two
      routes exchanging their matches. */
  lemma ExchangeKeepsDigest(a: SniRoute, b: SniRoute)
    requires |a.matches| == |b.matches|
    ensures Digest([a, b]) == Digest([a.(matches := b.matches), b.(matches := a.matches)])
  {
    var a', b' := a.(matches := b.matches), b.(matches := a.matches);
    PartsOfTwo(a, b);
    PartsOfTwo(a', b');
    assert SniLine(a') == SniLine(a) && SniLine(b') == SniLine(b);
    PartsExchanged(SniLine(a), MatchLines(a.matches), SniLine(b), MatchLines(b.matches));
    SortIsCanonical(SniParts([a, b]), SniParts([a', b']));
  }

  lemma PartsExchanged(x: string, m: seq<string>, y: string, n: seq<string>)
    ensures multiset([x] + m + [y] + n) == multiset([x] + n + [y] + m)
  {
  }

  lemma PartsOfTwo(r: SniRoute, s: SniRoute)
    ensures SniParts([r, s]) == [SniLine(r)] + MatchLines(r.matches) + [SniLine(s)] + MatchLines(s.matches)
  {
    assert [r, s][..1] == [r] && [r][..0] == [];
    assert SniParts([r]) == [] + [SniLine(r)] + MatchLines(r.matches);
  }

  // ---------------------------------------------------------------------- Diff

  predicate TunnelChanged(d: Tunnel, a: TunnelActual) {
    || !a.interfacePresent
    || (d.localOverlayIp != "" && a.localOverlayIp != "" && d.localOverlayIp != a.localOverlayIp)
    || (d.listenPort != 0 && a.listenPort != 0 && d.listenPort != a.listenPort)
  }

  /** What a plan does about one interface. */
  function TunnelStep(name: string, want: map<string, Tunnel>, have: map<string, TunnelActual>): (r: Option<Action>) {
    if name in want && name !in have then
      Some(Action(Add, TunnelTarget, want[name].id, "", TunnelDesiredLine(want[name])))
    else if name !in want && name in have then
      Some(Action(Delete, TunnelTarget, "", TunnelActualLine(have[name]), ""))
    else if name in want && name in have && TunnelChanged(want[name], have[name]) then
      Some(Action(Change, TunnelTarget, want[name].id, TunnelActualLine(have[name]), TunnelDesiredLine(want[name])))
    else None
  }

  /** What a plan does about one rule comment. */
  function RuleStep(comment: string, want: map<string, PortMapping>, have: map<string, FirewallRule>,
                    backends: map<string, Backend>): (r: Option<Action>) {
    if comment in want then
      var m := want[comment];
      var spec := MappingRuleSpec(m, backends);
      if comment !in have then Some(Action(Add, FirewallTarget, m.id, "", spec))
      else if have[comment].spec != spec then Some(Action(Change, FirewallTarget, m.id, have[comment].spec, spec))
      else None
    else if comment in have then Some(Action(Delete, FirewallTarget, "", have[comment].spec, ""))
    else None
  }

  /** One added entry for each route. */
  function RouteAdds(routes: seq<SniRoute>): (r: seq<Action>) {
    if routes == [] then []
    else
      var r := routes[|routes| - 1];
      RouteAdds(routes[..|routes| - 1]) + [Action(Add, HaproxyTarget, r.id, "", SniLine(r))]
  }

  function HaproxySteps(desired: seq<SniRoute>, digest: string, parsed: seq<SniRoute>): (r: seq<Action>) {
    if desired != [] then
      if digest == "" then RouteAdds(desired)
      else if digest != Digest(desired) then
        [Action(Change, HaproxyTarget, "", "digest=" + digest, "digest=" + Digest(desired))]
      else []
    else if digest != "" && parsed != [] then
      [Action(Delete, HaproxyTarget, "", "managed SNI sections", "")]
    else []
  }

  /** The steps of the names that have one, in the order of the names. */
  function Collect(names: seq<string>, step: string -> Option<Action>): (r: seq<Action>) {
    if names == [] then []
    else
      var n := |names| - 1;
      Collect(names[..n], step) + (if step(names[n]).Some? then [step(names[n]).value] else [])
  }

  /** The names that have a step, in order. */
  function Stepping(names: seq<string>, step: string -> Option<Action>): (r: seq<string>) {
    if names == [] then []
    else
      var n := |names| - 1;
      Stepping(names[..n], step) + (if step(names[n]).Some? then [names[n]] else [])
  }

  function InterfaceOf(t: Tunnel): (r: string) { t.interfaceName }

  function ActualInterfaceOf(t: TunnelActual): (r: string) { t.interfaceName }

  function CommentOf(m: PortMapping): (r: string) { MappingComment(m.id) }

  function RuleComment(r: FirewallRule): (res: string) { r.comment }

  function BackendId(b: Backend): (r: string) { b.id }

  function WantedTunnels(desired: DesiredState): (r: map<string, Tunnel>) { ByKey(desired.tunnels, InterfaceOf) }

  function FoundTunnels(actual: ActualState): (r: map<string, TunnelActual>) {
    ByKey(actual.tunnels, ActualInterfaceOf)
  }

  function WantedMappings(desired: DesiredState): (r: map<string, PortMapping>) { ByKey(desired.mappings, CommentOf) }

  function BackendTable(desired: DesiredState): (r: map<string, Backend>) { ByKey(desired.backends, BackendId) }

  /** The managed rules with a comment. */
  function ManagedRules(rules: seq<FirewallRule>): (r: seq<FirewallRule>) {
    if rules == [] then []
    else
      var r := rules[|rules| - 1];
      ManagedRules(rules[..|rules| - 1]) + (if r.managed && r.comment != "" then [r] else [])
  }

  function FoundRules(rules: seq<FirewallRule>): (r: map<string, FirewallRule>) {
    ByKey(ManagedRules(rules), RuleComment)
  }

  ghost function TunnelSteps(want: map<string, Tunnel>, have: map<string, TunnelActual>): (r: seq<Action>) {
    Collect(SortedSet(want.Keys + have.Keys), name => TunnelStep(name, want, have))
  }

  ghost function RuleSteps(want: map<string, PortMapping>, have: map<string, FirewallRule>,
                           backends: map<string, Backend>): (r: seq<Action>) {
    Collect(SortedSet(want.Keys + have.Keys), comment => RuleStep(comment, want, have, backends))
  }

  /** The whole plan as a value. */
  ghost function Difference(desired: DesiredState, actual: ActualState): (r: Plan) {
    Plan(TunnelSteps(WantedTunnels(desired), FoundTunnels(actual))
         + RuleSteps(WantedMappings(desired), FoundRules(actual.firewallRules), BackendTable(desired))
         + HaproxySteps(desired.sniRoutes, actual.haproxyDigest, actual.sniRoutes),
         actual.conflicts)
  }

  /** The union of the keys of two tables, sorted; a map is walked in no particular order. */
  method SortedKeys(a: set<string>, b: set<string>) returns (names: seq<string>)
    ensures names == SortedSet(a + b)
  {
    var rest := a + b;
    names := [];
    while rest != {}
      invariant multiset(names) + multiset(rest) == multiset(a + b)
      decreases rest
    {
      var name :| name in rest;
      assert multiset(rest) == multiset(rest - {name}) + multiset{name};
      names, rest := names + [name], rest - {name};
    }
    SortOfListing(a + b, names);
    names := Sort(names);
  }

  method Diff(desired: DesiredState, actual: ActualState) returns (p: Plan)
    ensures p == Difference(desired, actual)
  {
    var tunnels := DiffTunnels(WantedTunnels(desired), FoundTunnels(actual));
    var rules := DiffRules(WantedMappings(desired), FoundRules(actual.firewallRules), BackendTable(desired));
    var haproxy := DiffHaproxy(desired.sniRoutes, actual.haproxyDigest, actual.sniRoutes);
    p := Plan(tunnels + rules + haproxy, actual.conflicts);
  }

  method DiffTunnels(want: map<string, Tunnel>, have: map<string, TunnelActual>) returns (actions: seq<Action>)
    ensures actions == TunnelSteps(want, have)
  {
    actions := [];
    var ifaces := SortedKeys(want.Keys, have.Keys);
    ghost var step := name => TunnelStep(name, want, have);
    for i := 0 to |ifaces|
      invariant actions == Collect(ifaces[..i], step)
    {
      var name := ifaces[i];
      assert ifaces[..i + 1][..i] == ifaces[..i];
      if name in want && name !in have {
        var d := want[name];
        actions := actions + [Action(Add, TunnelTarget, d.id, "", TunnelDesiredLine(d))];
      } else if name !in want && name in have {
        actions := actions + [Action(Delete, TunnelTarget, "", TunnelActualLine(have[name]), "")];
      } else if name in want && name in have {
        var d, a := want[name], have[name];
        if TunnelChanged(d, a) {
          actions := actions + [Action(Change, TunnelTarget, d.id, TunnelActualLine(a), TunnelDesiredLine(d))];
        }
      }
    }
    assert ifaces[..|ifaces|] == ifaces;
  }

  method DiffRules(want: map<string, PortMapping>, have: map<string, FirewallRule>, backends: map<string, Backend>)
    returns (actions: seq<Action>)
    ensures actions == RuleSteps(want, have, backends)
  {
    actions := [];
    var comments := SortedKeys(want.Keys, have.Keys);
    ghost var step := comment => RuleStep(comment, want, have, backends);
    for i := 0 to |comments|
      invariant actions == Collect(comments[..i], step)
    {
      var c := comments[i];
      assert comments[..i + 1][..i] == comments[..i];
      if c in want && c !in have {
        var m := want[c];
        actions := actions + [Action(Add, FirewallTarget, m.id, "", MappingRuleSpec(m, backends))];
      } else if c !in want && c in have {
        actions := actions + [Action(Delete, FirewallTarget, "", have[c].spec, "")];
      } else if c in want && c in have {
        var m, r := want[c], have[c];
        var spec := MappingRuleSpec(m, backends);
        if r.spec != spec {
          actions := actions + [Action(Change, FirewallTarget, m.id, r.spec, spec)];
        }
      }
    }
    assert comments[..|comments|] == comments;
  }

  method DiffHaproxy(desired: seq<SniRoute>, digest: string, parsed: seq<SniRoute>) returns (actions: seq<Action>)
    ensures actions == HaproxySteps(desired, digest, parsed)
  {
    actions := [];
    if |desired| > 0 {
      var want := SniDigest(desired);
      if digest == "" {
        for i := 0 to |desired|
          invariant actions == RouteAdds(desired[..i])
        {
          var r := desired[i];
          assert desired[..i + 1][..i] == desired[..i];
          actions := actions + [Action(Add, HaproxyTarget, r.id, "", SniLine(r))];
        }
        assert desired[..|desired|] == desired;
      } else if digest != want {
        actions := [Action(Change, HaproxyTarget, "", "digest=" + digest, "digest=" + want)];
      }
    } else if digest != "" && |parsed| > 0 {
      actions := [Action(Delete, HaproxyTarget, "", "managed SNI sections", "")];
    }
  }

  // ------------------------------------------------------------ Diff is exact

  lemma {:induction false} CollectIsExact(names: seq<string>, step: string -> Option<Action>)
    ensures |Collect(names, step)| == |Stepping(names, step)|
    ensures forall i | 0 <= i < |Stepping(names, step)| ::
              && Stepping(names, step)[i] in names
              && step(Stepping(names, step)[i]) == Some(Collect(names, step)[i])
    ensures forall n | n in names && step(n).Some? :: n in Stepping(names, step)
  {
    if names != [] {
      CollectIsExact(names[..|names| - 1], step);
    }
  }

  lemma {:induction false} SteppingIsDistinct(names: seq<string>, step: string -> Option<Action>)
    requires forall i, j | 0 <= i < j < |names| :: names[i] != names[j]
    ensures forall i, j | 0 <= i < j < |Stepping(names, step)| :: Stepping(names, step)[i] != Stepping(names, step)[j]
  {
    if names != [] {
      var n := |names| - 1;
      SteppingIsDistinct(names[..n], step);
      CollectIsExact(names[..n], step);
    }
  }

  lemma CollectIsEmpty(keys: set<string>, step: string -> Option<Action>)
    ensures Collect(SortedSet(keys), step) == [] <==> forall k | k in keys :: step(k).None?
  {
    var names := SortedSet(keys);
    CollectIsExact(names, step);
    SortedSetMembers(keys);
    if Collect(names, step) != [] {
      assert Stepping(names, step)[0] in names;
    }
  }

  /** Host and desired state agree, as far as discovery can tell. */
  ghost predicate Agrees(desired: DesiredState, actual: ActualState) {
    var wantTunnels, haveTunnels := WantedTunnels(desired), FoundTunnels(actual);
    var wantRules, haveRules := WantedMappings(desired), FoundRules(actual.firewallRules);
    && wantTunnels.Keys == haveTunnels.Keys
    && (forall n | n in wantTunnels :: !TunnelChanged(wantTunnels[n], haveTunnels[n]))
    && wantRules.Keys == haveRules.Keys
    && (forall c | c in wantRules :: haveRules[c].spec == MappingRuleSpec(wantRules[c], BackendTable(desired)))
    && (if desired.sniRoutes != [] then actual.haproxyDigest != "" && actual.haproxyDigest == Digest(desired.sniRoutes)
        else actual.haproxyDigest == "" || actual.sniRoutes == [])
  }

  /** A plan is empty if and only if nothing differs. */
  lemma PlanIsEmptyIffAgreement(desired: DesiredState, actual: ActualState)
    ensures Difference(desired, actual).Empty() <==> Agrees(desired, actual)
  {
    var wantTunnels, haveTunnels := WantedTunnels(desired), FoundTunnels(actual);
    var wantRules, haveRules := WantedMappings(desired), FoundRules(actual.firewallRules);
    TunnelStepsEmpty(wantTunnels, haveTunnels);
    RuleStepsEmpty(wantRules, haveRules, BackendTable(desired));
    if desired.sniRoutes != [] {
      assert RouteAdds(desired.sniRoutes) != [];
    }
  }

  lemma TunnelStepsEmpty(want: map<string, Tunnel>, have: map<string, TunnelActual>)
    ensures TunnelSteps(want, have) == []
            <==> want.Keys == have.Keys && forall n | n in want :: !TunnelChanged(want[n], have[n])
  {
    var step := name => TunnelStep(name, want, have);
    CollectIsEmpty(want.Keys + have.Keys, step);
    if TunnelSteps(want, have) == [] {
      forall n ensures n in want <==> n in have {
        assert n in want.Keys + have.Keys ==> step(n).None?;
      }
      assert want.Keys == have.Keys;
      forall n | n in want ensures !TunnelChanged(want[n], have[n]) {
        assert step(n).None?;
      }
    }
  }

  lemma RuleStepsEmpty(want: map<string, PortMapping>, have: map<string, FirewallRule>, backends: map<string, Backend>)
    ensures RuleSteps(want, have, backends) == []
            <==> want.Keys == have.Keys && forall c | c in want :: have[c].spec == MappingRuleSpec(want[c], backends)
  {
    var step := comment => RuleStep(comment, want, have, backends);
    CollectIsEmpty(want.Keys + have.Keys, step);
    forall c | c in want.Keys + have.Keys
      ensures step(c).None? <==> c in want && c in have && have[c].spec == MappingRuleSpec(want[c], backends)
    {
      RuleStepNone(c, want, have, backends);
    }
    if RuleSteps(want, have, backends) == [] {
      assert forall c | c in want.Keys + have.Keys :: step(c).None?;
      assert want.Keys == have.Keys;
    }
  }

  lemma RuleStepNone(c: string, want: map<string, PortMapping>, have: map<string, FirewallRule>,
                     backends: map<string, Backend>)
    requires c in want || c in have
    ensures RuleStep(c, want, have, backends).None?
            <==> c in want && c in have && have[c].spec == MappingRuleSpec(want[c], backends)
  {
  }

  /** Every interface on which the two sides differ gets exactly one action, of the right
      kind, and no other interface gets any. `names` lists the differing interfaces. */
  lemma TunnelStepsAreExact(want: map<string, Tunnel>, have: map<string, TunnelActual>) returns (names: seq<string>)
    ensures |TunnelSteps(want, have)| == |names|
    ensures forall i, j | 0 <= i < j < |names| :: names[i] != names[j]
    ensures forall n :: n in names <==>
              (n in want && n !in have) || (n !in want && n in have)
                  || (n in want && n in have && TunnelChanged(want[n], have[n]))
    ensures forall i | 0 <= i < |names| ::
              TunnelSteps(want, have)[i].kind
              == if names[i] !in have then Add else if names[i] !in want then Delete else Change
    ensures forall i | 0 <= i < |names| && names[i] in want :: TunnelSteps(want, have)[i].id == want[names[i]].id
  {
    var step := name => TunnelStep(name, want, have);
    var all := SortedSet(want.Keys + have.Keys);
    names := Stepping(all, step);
    SortedSetMembers(want.Keys + have.Keys);
    CollectIsExact(all, step);
    SteppingIsDistinct(all, step);
    forall n | n in names ensures step(n).Some? {
      var i :| 0 <= i < |names| && names[i] == n;
    }
  }

  /** The same for rule comments. */
  lemma RuleStepsAreExact(want: map<string, PortMapping>, have: map<string, FirewallRule>,
                          backends: map<string, Backend>)
    returns (comments: seq<string>)
    ensures |RuleSteps(want, have, backends)| == |comments|
    ensures forall i, j | 0 <= i < j < |comments| :: comments[i] != comments[j]
    ensures forall c :: c in comments <==>
              (c in want && c !in have) || (c !in want && c in have)
              || (c in want && c in have && have[c].spec != MappingRuleSpec(want[c], backends))
    ensures forall i | 0 <= i < |comments| ::
              var a, c := RuleSteps(want, have, backends)[i], comments[i];
              && a.kind == (if c !in have then Add else if c !in want then Delete else Change)
              && (c in want ==> a.id == want[c].id && a.after == MappingRuleSpec(want[c], backends))
              && (c in have ==> a.before == have[c].spec)
  {
    var step := comment => RuleStep(comment, want, have, backends);
    var all := SortedSet(want.Keys + have.Keys);
    comments := Stepping(all, step);
    SortedSetMembers(want.Keys + have.Keys);
    CollectIsExact(all, step);
    SteppingIsDistinct(all, step);
    forall c | c in comments ensures step(c).Some? {
      var i :| 0 <= i < |comments| && comments[i] == c;
    }
  }

  // -------------------------------------------------------- plans are canonical

  ghost predicate SameMembers<T(!new)>(xs: seq<T>, ys: seq<T>) {
    forall x :: x in xs <==> x in ys
  }

  ghost predicate UniqueDesired(d: DesiredState) {
    UniqueKeys(d.tunnels, InterfaceOf) && UniqueKeys(d.mappings, CommentOf) && UniqueKeys(d.backends, BackendId)
  }

  ghost predicate UniqueActual(a: ActualState) {
    UniqueKeys(a.tunnels, ActualInterfaceOf) && UniqueKeys(ManagedRules(a.firewallRules), RuleComment)
  }

  /** With unique names, ids and comments a plan does not depend on the order in which
      anything is listed, on either side. */
  lemma PlanIgnoresOrder(d: DesiredState, d': DesiredState, a: ActualState, a': ActualState)
    requires UniqueDesired(d) && UniqueDesired(d') && UniqueActual(a) && UniqueActual(a')
    requires SameMembers(d.tunnels, d'.tunnels) && SameMembers(d.mappings, d'.mappings)
             && SameMembers(d.backends, d'.backends)
    requires SameMembers(a.tunnels, a'.tunnels) && SameMembers(a.firewallRules, a'.firewallRules)
    requires d.sniRoutes == d'.sniRoutes && a.haproxyDigest == a'.haproxyDigest && a.sniRoutes == a'.sniRoutes
    ensures Difference(d, a).actions == Difference(d', a').actions
  {
    ByKeyIgnoresOrder(d.tunnels, d'.tunnels, InterfaceOf);
    ByKeyIgnoresOrder(d.mappings, d'.mappings, CommentOf);
    ByKeyIgnoresOrder(d.backends, d'.backends, BackendId);
    ByKeyIgnoresOrder(a.tunnels, a'.tunnels, ActualInterfaceOf);
    ManagedRulesMembers(a.firewallRules);
    ManagedRulesMembers(a'.firewallRules);
    ByKeyIgnoresOrder(ManagedRules(a.firewallRules), ManagedRules(a'.firewallRules), RuleComment);
  }

  lemma {:induction false} ManagedRulesMembers(rules: seq<FirewallRule>)
    ensures forall r :: r in ManagedRules(rules) <==> r in rules && r.managed && r.comment != ""
  {
    if rules != [] {
      ManagedRulesMembers(rules[..|rules| - 1]);
    }
  }
}
