/** A node over its life: before the first reconciliation it is ready for every valid desired
    state, and whatever sequence of desired states is reconciled on it, it stays so
    (internal/engine/engine.go, internal/testhost/host.go). */
module Runs {
  import opened Model
  import opened Text
  import opened Tables
  import opened HostState
  import opened RuleText
  import opened FirewallSpec
  import opened FirewallSync
  import opened FirewallFrames
  import opened FirewallRecord
  import opened EngineSpec
  import W = WireGuard
  import H = Haproxy
  import HT = HaproxyText
  import HB = HaproxyBlock
  import HR = HaproxyRead
  import MarkedText
  import R = Reconcile

  /** The chains of the agent hold nothing yet; whatever is in other chains may stay. */
  ghost predicate Bare(t: Chains) {
    ParentsExist(t) && forall s: Slot :: RulesOf(t, ViewOf(s)) == []
  }

  /** Bare chains are well formed, and hold nothing foreign. */
  lemma BareIsWellFormed(t: Chains)
    requires Bare(t)
    ensures WellFormed(t) && Aliens(t, SLOTS, CodecOf) == []
  {
    AliensEmpty(t, SLOTS, CodecOf);
    forall c | Managed(c) ensures Absent(t, false, c) && Absent(t, true, c) {
    }
  }

  /** On a host without rules of the agent a plan only adds. */
  lemma BareStepsAdd(t: Chains, desired: DesiredState)
    requires Bare(t)
    ensures forall a | a in Steps(t, desired) :: a.kind.Add?
  {
    var want, have, table := R.WantedMappings(desired), Found(t), R.BackendTable(desired);
    BareIsWellFormed(t);
    DiscoverySeesAll(t);
    forall c ensures c !in have {
      assert SeesComment(t, have, c);
      assert Managed(c) ==> Absent(t, false, c) && Absent(t, true, c);
    }
    var comments := R.RuleStepsAreExact(want, have, table);
    forall a | a in Steps(t, desired) ensures a.kind.Add? {
      var i :| 0 <= i < |Steps(t, desired)| && Steps(t, desired)[i] == a;
      assert comments[i] !in have;
    }
  }

  /** If there is a mapping, being in step means to hold rules. */
  lemma SyncedHoldsRules(t: Chains, desired: DesiredState)
    requires Synced(t, desired) && desired.mappings != []
    ensures RulesOf(t, ViewOf(Slot(Dnat, false))) != []
  {
    ByKeyKeys(desired.mappings, R.CommentOf);
    var c := R.CommentOf(desired.mappings[0]);
    assert c in R.WantedMappings(desired);
    var f := Wanted(R.WantedMappings(desired)[c], desired.backends);
    assert With(RulesOf(t, ViewOf(Slot(Dnat, false))), CodecOf(Slot(Dnat, false)), f.comment) == [RuleOf(Dnat, f)];
  }

  /** What validation upstream sees to. */
  ghost predicate ValidDesired(desired: DesiredState, checks: W.Checks, routeChecks: H.RouteChecks) {
    && ValidTunnels(desired.tunnels, checks)
    && ValidMappings(desired)
    && HB.TameConfig(desired.sniRoutes, desired.backends)
    && forall r | r in desired.sniRoutes ::
         && H.ValidRoute(r, routeChecks) && HR.Complete(r)
         && HB.Renderable(r, ByKey(desired.backends, R.BackendId), ByKey(desired.backends, HB.BackendName))
  }

  lemma NothingInNothing(pat: string)
    requires pat != ""
    ensures !Contains("", pat)
  {
    MarkedText.ContainsIffAt("", pat);
  }

  lemma EmptyFileIsFree()
    ensures HT.SplitManaged("") == MarkedText.Sections("", "") && HT.Unmarked("")
  {
    NothingInNothing(HT.BEGIN);
    NothingInNothing(HT.END);
    NothingInNothing(HT.LEGACY_BEGIN);
    NothingInNothing(HT.LEGACY_END);
  }

  lemma EmptyFileBindsNothing(routes: seq<SniRoute>)
    ensures !H.PortBoundElsewhere("", routes)
  {
    forall r | r in routes ensures !Contains(ToLower(""), "bind " + ToLower(r.listen)) {
      NothingInNothing("bind " + ToLower(r.listen));
    }
  }

  lemma ValidRoutesFit(desired: DesiredState, checks: W.Checks, routeChecks: H.RouteChecks)
    requires ValidDesired(desired, checks, routeChecks)
    ensures ValidRoutes(desired, "", routeChecks)
  {
    EmptyFileIsFree();
    EmptyFileBindsNothing(desired.sniRoutes);
    HB.RefusedIff(desired.sniRoutes, desired.backends);
  }

  /** A node on which the agent has not been yet, with no wanted interface of another kind and
      no HAProxy file, is ready for every valid desired state. */
  lemma FreshNodeIsReady(desired: DesiredState, s: State, path: string, checks: W.Checks, routeChecks: H.RouteChecks)
    requires ValidDesired(desired, checks, routeChecks)
    requires Bare(s.tables) && s.file == None
             && forall n | n in W.Wanted(desired.tunnels) && n in s.links :: s.links[n].kind == WIREGUARD
    ensures Ready(desired, s, path, checks, routeChecks)
  {
    BareIsWellFormed(s.tables);
    MisfitsEmpty(s.links, W.Wanted(desired.tunnels));
    ValidRoutesFit(desired, checks, routeChecks);
    forall part: Part ensures ReadyIn(desired, s, path, checks, routeChecks, part) {
    }
  }

  // ------------------------------------------------------------- an example

  /** The chains of a new host: the built-in ones, without rules. */
  const BUILT_IN: Chains := map[
    View(Nat, "PREROUTING") := [], View(Nat, "POSTROUTING") := [],
    View(Filter, "FORWARD") := [], View(Filter, "INPUT") := [], View(Filter, "OUTPUT") := []]

  lemma NewHostIsBare()
    ensures Bare(BUILT_IN)
  {
    forall s: Slot ensures RulesOf(BUILT_IN, ViewOf(s)) == [] {
    }
    forall kind: Kind ensures ParentOf(kind) in BUILT_IN {
    }
  }

  const EDGE := Backend("b", "web", "1.0.0.2")
  const UPLINK := Tunnel("t", "b", WireGuard, "wg0", "1.0.0.1", "1.0.0.2", 51820, "", "", 25, "/k", "", "")
  const HTTPS := PortMapping("m", "b", "TCP", 443, 8443)
  const BY_NAME := SniRoute("r", ":443", [SniMatch("", true, "b", "")])
  const SAMPLE := DesiredState("n", [EDGE], [UPLINK], [HTTPS], [BY_NAME])

  lemma {:induction false} NoSeparator(line: string, sep: char)
    requires sep !in line
    ensures Split(line, sep) == [line]
  {
    if line != "" {
      NoSeparator(line[1..], sep);
      assert [line[0]] + line[1..] == line;
    }
  }

  lemma OctetsOf(a: string, b: string, c: string, d: string)
    requires '.' !in a && '.' !in b && '.' !in c && '.' !in d
    ensures Octets(a + ['.'] + (b + ['.'] + (c + ['.'] + d))) == [a, b, c, d]
  {
    var last, third := c + ['.'] + d, b + ['.'] + (c + ['.'] + d);
    NoSeparator(d, '.');
    SplitUpToSeparator(c, '.', d);
    SplitUpToSeparator(b, '.', last);
    SplitUpToSeparator(a, '.', third);
  }

  lemma DigitIsOctet(o: string)
    requires |o| == 1 && IsDigit(o[0])
    ensures Octet(o) && DigitsValue(o) <= 9
  {
    assert DigitsValue(o[..0]) == 0;
  }

  lemma DigitsAreAddress(s: string, a: string, b: string, d: string)
    requires |a| == |b| == |d| == 1 && IsDigit(a[0]) && IsDigit(b[0]) && IsDigit(d[0]) && d[0] != '0'
    requires s == a + ['.'] + (b + ['.'] + (b + ['.'] + d))
    ensures Ipv4(s)
  {
    OctetsOf(a, b, b, d);
    DigitIsOctet(a);
    DigitIsOctet(b);
    DigitIsOctet(d);
  }

  lemma AddressesAreValid()
    ensures Ipv4(UPLINK.localOverlayIp) && Ipv4(EDGE.address)
  {
    DigitsAreAddress("1.0.0.1", "1", "0", "1");
    DigitsAreAddress("1.0.0.2", "1", "0", "2");
  }

  lemma CommentIsClean(id: string)
    requires Clean(id)
    ensures Clean(R.MappingComment(id))
  {
    forall i | 0 <= i < |R.MAPPING_PREFIX| ensures !IsSpace(R.MAPPING_PREFIX[i]) && R.MAPPING_PREFIX[i] != '"' {}
  }

  lemma MappingTo(m: PortMapping, b: Backend)
    requires m.backendId == b.id && (m.protocol == "TCP" || m.protocol == "UDP")
    requires Port(m.publicPort) && Port(m.backendPort) && Clean(m.id) && Ipv4(b.address)
    ensures ValidMapping(m, [b])
  {
    assert BackendAddress(m, [b]) == b.address;
    CommentIsClean(m.id);
  }

  lemma MappingIsValid(m: PortMapping, b: Backend)
    requires m == HTTPS && b == EDGE
    ensures ValidMapping(m, [b])
  {
    AddressesAreValid();
    MappingTo(m, b);
  }

  lemma RouteIsRenderable(r: SniRoute, b: Backend)
    requires |r.matches| == 1 && r.matches[0].isDefault && r.matches[0].backendId == b.id != ""
    ensures HB.Renderable(r, ByKey([b], R.BackendId), ByKey([b], HB.BackendName))
  {
    ByKeyHolds([b], R.BackendId, 0);
    assert R.BackendId([b][0]) == b.id;
    assert r.matches[0] in r.matches;
  }

  lemma RouteIsValid(r: SniRoute, b: Backend, checks: H.RouteChecks)
    requires r == BY_NAME && b == EDGE && checks.listen(r.listen)
    ensures HB.TameConfig([r], [b]) && H.ValidRoute(r, checks) && HR.Complete(r)
    ensures HB.Renderable(r, ByKey([b], R.BackendId), ByKey([b], HB.BackendName))
  {
    assert H.Defaults(r.matches[1..]) == 0;
    assert HB.TameMatch(r.matches[0]) && HB.Tame(r.listen) && HB.Tame(b.address);
    RouteIsRenderable(r, b);
  }

  lemma SinglesAreValid(desired: DesiredState, b: Backend, t: Tunnel, m: PortMapping, r: SniRoute,
                        checks: W.Checks, routeChecks: H.RouteChecks)
    requires desired.backends == [b] && desired.tunnels == [t] && desired.mappings == [m] && desired.sniRoutes == [r]
    requires ValidTunnel(t, checks) && ValidMapping(m, [b])
    requires HB.TameConfig([r], [b]) && H.ValidRoute(r, routeChecks) && HR.Complete(r)
    requires HB.Renderable(r, ByKey([b], R.BackendId), ByKey([b], HB.BackendName))
    ensures ValidDesired(desired, checks, routeChecks)
  {
  }

  lemma TunnelIsValid(t: Tunnel, checks: W.Checks)
    requires t == UPLINK && checks.name(t.interfaceName) && checks.tunnel(t)
    ensures ValidTunnel(t, checks)
  {
    AddressesAreValid();
  }

  lemma SampleIsValid(desired: DesiredState, b: Backend, t: Tunnel, m: PortMapping, r: SniRoute,
                      checks: W.Checks, routeChecks: H.RouteChecks)
    requires b == EDGE && t == UPLINK && m == HTTPS && r == BY_NAME
    requires desired.backends == [b] && desired.tunnels == [t] && desired.mappings == [m] && desired.sniRoutes == [r]
    requires checks.name(t.interfaceName) && checks.tunnel(t) && routeChecks.listen(r.listen)
    ensures ValidDesired(desired, checks, routeChecks)
  {
    TunnelIsValid(t, checks);
    MappingIsValid(m, b);
    RouteIsValid(r, b, routeChecks);
    SinglesAreValid(desired, b, t, m, r, checks, routeChecks);
  }

  /** The sample is valid, so a new host is ready for it. */
  lemma NewHostIsReady(desired: DesiredState, path: string, checks: W.Checks, routeChecks: H.RouteChecks)
    requires desired == SAMPLE
    requires checks.name(UPLINK.interfaceName) && checks.tunnel(UPLINK) && routeChecks.listen(BY_NAME.listen)
    ensures Ready(desired, State(BUILT_IN, map[], None), path, checks, routeChecks)
  {
    var b, t, m, r := desired.backends[0], desired.tunnels[0], desired.mappings[0], desired.sniRoutes[0];
    assert b == EDGE && t == UPLINK && m == HTTPS && r == BY_NAME;
    SampleIsValid(desired, b, t, m, r, checks, routeChecks);
    NewHostIsBare();
    FreshNodeIsReady(desired, State(BUILT_IN, map[], None), path, checks, routeChecks);
  }

  // -------------------------------------------------- from one state to the next

  lemma LinksStayFit(e: DesiredState, d: DesiredState, links: Links, links': Links)
    requires Tended(d, links, links') && W.MisfitsAmong(links, W.Wanted(e.tunnels)) == []
    ensures W.MisfitsAmong(links', W.Wanted(e.tunnels)) == []
  {
    MisfitsEmpty(links, W.Wanted(e.tunnels));
    MisfitsEmpty(links', W.Wanted(e.tunnels));
  }

  /** What a finished reconciliation has done to the firewall: nothing if nothing was to do. */
  ghost predicate RulesMoved(d: DesiredState, t: Chains, t': Chains, added: seq<Placed>, deleted: seq<Placed>) {
    if Steps(t, d) == [] then t' == t
    else Reached(t, t', added, deleted, Steps(t, d), |Steps(t, d)|, R.WantedMappings(d), d.backends)
  }

  lemma TablesStayFit(d: DesiredState, t: Chains, t': Chains, added: seq<Placed>, deleted: seq<Placed>)
    requires WellFormed(t) && ValidMappings(d) && Aliens(t, SLOTS, CodecOf) == []
    requires RulesMoved(d, t, t', added, deleted)
    ensures WellFormed(t') && Aliens(t', SLOTS, CodecOf) == []
  {
    if Steps(t, d) != [] {
      SuccessfulApplySyncs(t, t', added, deleted, d);
    }
  }

  /** A line break at the end of a text makes no line of it. */
  lemma ContainsBeforeNewlines(x: string, y: string, z: string, pat: string)
    requires '\n' !in pat && forall i | 0 <= i < |y| :: y[i] == '\n'
    ensures Contains(x + y, pat) ==> Contains(x + z, pat)
  {
    MarkedText.ContainsIffAt(x + y, pat);
    MarkedText.ContainsIffAt(x + z, pat);
    if j :| At(x + y, pat, j) {
      if pat == "" {
        assert At(x + z, pat, 0);
      } else {
        assert (x + y)[j..j + |pat|][|pat| - 1] == (x + y)[j + |pat| - 1];
        assert j + |pat| <= |x|;
        assert (x + z)[j..j + |pat|] == x[j..j + |pat|] == (x + y)[j..j + |pat|];
        assert At(x + z, pat, j);
      }
    }
  }

  lemma LowerOfTame(listen: string)
    requires HB.Tame(listen)
    ensures '\n' !in "bind " + ToLower(listen)
  {
    var low := ToLower(listen);
    forall i | 0 <= i < |low| ensures low[i] != '\n' {
      assert !IsSpace(listen[i]) && low[i] == LowerChar(listen[i]);
    }
  }

  lemma BoundBeforeNewlines(r: string, left: string, right: string, routes: seq<SniRoute>)
    requires !H.PortBoundElsewhere(r + left, routes) && forall r | r in routes :: HR.Complete(r)
    requires forall i | 0 <= i < |right| :: right[i] == '\n'
    ensures !H.PortBoundElsewhere(r + right, routes)
  {
    H.LowerConcat(r, left);
    H.LowerConcat(r, right);
    forall route | route in routes && route.listen != ""
      ensures !Contains(ToLower(r + right), "bind " + ToLower(route.listen))
    {
      LowerOfTame(route.listen);
      ContainsBeforeNewlines(ToLower(r), ToLower(right), ToLower(left), "bind " + ToLower(route.listen));
    }
  }

  /** Taking out the last block brings no bind line into the user's text. */
  lemma BoundAfterRemoval(u: string, routes: seq<SniRoute>)
    requires !H.PortBoundElsewhere(u, routes) && forall r | r in routes :: HR.Complete(r)
    ensures !H.PortBoundElsewhere(MarkedText.JoinConfig(u, ""), routes)
  {
    var r := TrimRight(u, Newlines);
    TrimRightCuts(u, Newlines);
    assert u == r + u[|r|..];
    BoundBeforeNewlines(r, u[|r|..], if r == "" then "" else "\n", routes);
    assert r + "" == r;
  }

  /** The configuration written for one desired state binds nothing more, and can be read,
      whatever routes are looked for. */
  lemma WrittenIsOpen(d: DesiredState, routes: seq<SniRoute>, text: string, file: Option<string>, path: string,
                      checks: H.RouteChecks)
    requires ValidRoutes(d, text, checks) && Written(d, text, file)
    requires !H.PortBoundElsewhere(HT.SplitManaged(text).unmanaged, routes) && forall r | r in routes :: HR.Complete(r)
    ensures HT.SplitManaged(file.GetOr("")).Sections? && HT.Unmarked(HT.SplitManaged(file.GetOr("")).unmanaged)
    ensures !H.PortBoundElsewhere(HT.SplitManaged(file.GetOr("")).unmanaged, routes)
    ensures H.Seen(file, path, routes).Some? && H.Seen(file, path, routes).value.conflicts == []
  {
    var u, block := HT.SplitManaged(text).unmanaged, HB.Rendered(d.sniRoutes, d.backends).value;
    if d.sniRoutes == [] {
      HT.ReadBackNothing(u);
      H.NothingIsSeen(u, path);
      BoundAfterRemoval(u, routes);
    } else {
      H.RenderedIsReadBack(block, d.sniRoutes, d.backends, HR.ReadRoutes(HB.PRINTER, d.sniRoutes, HR.Head));
      HT.ReadBackIffFree(u, block);
      HT.UnmarkedText(u);
      H.BoundAfterTrim(u, routes);
    }
  }

  /** The configuration written for one desired state is a fit start for another one. */
  lemma TextStaysFit(d: DesiredState, e: DesiredState, text: string, file: Option<string>, path: string,
                     checks: H.RouteChecks)
    requires ValidRoutes(d, text, checks) && ValidRoutes(e, text, checks) && Written(d, text, file)
    ensures ValidRoutes(e, file.GetOr(""), checks)
    ensures H.Seen(file, path, e.sniRoutes).Some? && H.Seen(file, path, e.sniRoutes).value.conflicts == []
  {
    WrittenIsOpen(d, e.sniRoutes, text, file, path, checks);
  }

  // ----------------------------------------------------------------- runs

  /** What a finished reconciliation of d has made of the host, and what of the firewall is on
      record. The built-in chains are never removed. */
  ghost predicate MovedBy(d: DesiredState, s: State, s': State, path: string, added: seq<Placed>,
                          deleted: seq<Placed>) {
    && H.Seen(s.file, path, d.sniRoutes).Some?
    && (ParentsExist(s.tables) ==> ParentsExist(s'.tables))
    && Reconciled(d, s, s', path, added, deleted)
  }

  ghost predicate Moved(d: DesiredState, s: State, s': State, path: string) {
    exists added, deleted :: MovedBy(d, s, s', path, added, deleted)
  }

  /** Where nothing is left to do, doing nothing is a finished reconciliation. */
  lemma CalmIsMoved(d: DesiredState, s: State, path: string, checks: W.Checks, added: seq<Placed>, deleted: seq<Placed>)
    requires Calm(d, s, path) && ValidTunnels(d.tunnels, checks)
    ensures MovedBy(d, s, s, path, added, deleted)
  {
    CalmFacts(d, s, path);
    CalmIsTended(d, s.links, checks);
    IdleIsMoved(d, s, path, added, deleted);
  }

  lemma CalmFacts(d: DesiredState, s: State, path: string)
    requires Calm(d, s, path)
    ensures R.TunnelSteps(R.WantedTunnels(d), ByKey(W.SeenAll(s.links, W.Wanted(d.tunnels)), R.ActualInterfaceOf)) == []
    ensures Steps(s.tables, d) == [] && H.Seen(s.file, path, d.sniRoutes).Some? && SniSteps(d, s, path) == []
  {
    assert CalmIn(d, s, path, TunnelPart);
    assert CalmIn(d, s, path, FirewallPart);
    assert CalmIn(d, s, path, HaproxyPart);
  }

  lemma IdleIsMoved(d: DesiredState, s: State, path: string, added: seq<Placed>, deleted: seq<Placed>)
    requires Tended(d, s.links, s.links) && Steps(s.tables, d) == []
    requires H.Seen(s.file, path, d.sniRoutes).Some? && SniSteps(d, s, path) == []
    ensures MovedBy(d, s, s, path, added, deleted)
  {
  }

  lemma CalmIsTended(d: DesiredState, links: Links, checks: W.Checks)
    requires ValidTunnels(d.tunnels, checks)
    requires R.TunnelSteps(R.WantedTunnels(d), ByKey(W.SeenAll(links, W.Wanted(d.tunnels)), R.ActualInterfaceOf)) == []
    ensures Tended(d, links, links)
  {
    var want, have := R.WantedTunnels(d), ByKey(W.SeenAll(links, W.Wanted(d.tunnels)), R.ActualInterfaceOf);
    R.TunnelStepsEmpty(want, have);
    TunnelTable(d, checks);
    SeenTable(links, W.Wanted(d.tunnels));
    forall n | n in want ensures n in links && !R.TunnelChanged(want[n], W.Seen(links, n)) {
      assert n in have && have[n] == W.Seen(links, n);
    }
  }

  /** A reconciliation of one desired state keeps the host ready for any other. */
  lemma StaysReady(d: DesiredState, e: DesiredState, s: State, s': State, path: string, checks: W.Checks,
                   routeChecks: H.RouteChecks)
    requires Ready(d, s, path, checks, routeChecks) && Ready(e, s, path, checks, routeChecks)
    requires Moved(d, s, s', path)
    ensures Ready(e, s', path, checks, routeChecks)
  {
    var added, deleted :| MovedBy(d, s, s', path, added, deleted);
    ReadyFacts(d, s, path, checks, routeChecks);
    ReadyFacts(e, s, path, checks, routeChecks);
    LinksStayFit(e, d, s.links, s'.links);
    TablesStayFit(d, s.tables, s'.tables, added, deleted);
    if SniSteps(d, s, path) != [] {
      TextStaysFit(d, e, s.Text(), s'.file, path, routeChecks);
    }
    forall part: Part ensures ReadyIn(e, s', path, checks, routeChecks, part) {
    }
  }

  /** Whatever the host was ready for, it still is. */
  ghost predicate KeepsReady(s: State, s': State, path: string, checks: W.Checks, routeChecks: H.RouteChecks) {
    forall e :: Ready(e, s, path, checks, routeChecks) ==> Ready(e, s', path, checks, routeChecks)
  }

  lemma MovedKeepsReady(d: DesiredState, s: State, s': State, path: string, checks: W.Checks,
                        routeChecks: H.RouteChecks)
    requires Ready(d, s, path, checks, routeChecks) && Moved(d, s, s', path)
    ensures KeepsReady(s, s', path, checks, routeChecks)
  {
    forall e | Ready(e, s, path, checks, routeChecks)
      ensures Ready(e, s', path, checks, routeChecks)
    {
      StaysReady(d, e, s, s', path, checks, routeChecks);
    }
  }

  /** A chain that is jumped from exists. */
  lemma JumpingHasParents(t: Chains)
    requires Jumping(t)
    ensures ParentsExist(t)
  {
    forall kind: Kind ensures ParentOf(kind) in t {
      assert Jumps(t, kind);
    }
  }

  /** A completely applied plan leaves the host calm, and ready for all it was ready for. */
  lemma ReconciledSettles(d: DesiredState, s: State, s': State, path: string, checks: W.Checks,
                          routeChecks: H.RouteChecks, added: seq<Placed>, deleted: seq<Placed>)
    requires Ready(d, s, path, checks, routeChecks) && H.Seen(s.file, path, d.sniRoutes).Some?
    requires Reconciled(d, s, s', path, added, deleted)
    requires s'.tables == s.tables || Jumping(s'.tables)
    ensures Calm(d, s', path) && KeepsReady(s, s', path, checks, routeChecks)
    ensures MovedBy(d, s, s', path, added, deleted)
  {
    ReconciledIsCalm(d, s, s', path, checks, routeChecks, added, deleted);
    if Jumping(s'.tables) {
      JumpingHasParents(s'.tables);
    }
    assert MovedBy(d, s, s', path, added, deleted);
    MovedKeepsReady(d, s, s', path, checks, routeChecks);
  }

  /** The host over a run: states[i + 1] is what reconciling wanted[i] has made of states[i]. */
  ghost predicate Run(states: seq<State>, wanted: seq<DesiredState>, path: string) {
    |states| == |wanted| + 1 && forall i | 0 <= i < |wanted| :: MovedAt(states, wanted, path, i)
  }

  ghost predicate MovedAt(states: seq<State>, wanted: seq<DesiredState>, path: string, i: nat)
    requires i < |wanted| < |states|
  {
    Moved(wanted[i], states[i], states[i + 1], path)
  }

  ghost predicate ReadyForAll(wanted: seq<DesiredState>, s: State, path: string, checks: W.Checks,
                              routeChecks: H.RouteChecks) {
    forall e | e in wanted :: Ready(e, s, path, checks, routeChecks)
  }

  lemma StaysReadyForAll(wanted: seq<DesiredState>, d: DesiredState, s: State, s': State, path: string,
                         checks: W.Checks, routeChecks: H.RouteChecks)
    requires ReadyForAll(wanted, s, path, checks, routeChecks) && d in wanted && Moved(d, s, s', path)
    ensures ReadyForAll(wanted, s', path, checks, routeChecks)
  {
    forall e | e in wanted ensures Ready(e, s', path, checks, routeChecks) {
      StaysReady(d, e, s, s', path, checks, routeChecks);
    }
  }

  lemma OneStep(states: seq<State>, wanted: seq<DesiredState>, path: string,
                checks: W.Checks, routeChecks: H.RouteChecks, i: nat)
    requires i < |wanted| < |states| && MovedAt(states, wanted, path, i)
    requires ReadyForAll(wanted, states[i], path, checks, routeChecks)
    ensures ReadyForAll(wanted, states[i + 1], path, checks, routeChecks)
  {
    StaysReadyForAll(wanted, wanted[i], states[i], states[i + 1], path, checks, routeChecks);
  }

  /** In every run of a host that is ready for what will be wanted, the host stays ready for
      all of it. */
  lemma {:induction false} RunStaysReady(states: seq<State>, wanted: seq<DesiredState>, path: string,
                                         checks: W.Checks, routeChecks: H.RouteChecks, k: nat)
    requires Run(states, wanted, path) && k <= |wanted|
    requires ReadyForAll(wanted, states[0], path, checks, routeChecks)
    ensures ReadyForAll(wanted, states[k], path, checks, routeChecks)
  {
    if k > 0 {
      RunStaysReady(states, wanted, path, checks, routeChecks, k - 1);
      OneStep(states, wanted, path, checks, routeChecks, k - 1);
    }
  }

  /** In every such run, each reconciliation ends with the host as it was wanted at that time:
      nothing is left to plan, and each managed comment is in all three chains or in none. */
  lemma RunConverges(states: seq<State>, wanted: seq<DesiredState>, path: string,
                     checks: W.Checks, routeChecks: H.RouteChecks, k: nat)
    requires Run(states, wanted, path) && k < |wanted|
    requires ReadyForAll(wanted, states[0], path, checks, routeChecks)
    ensures Calm(wanted[k], states[k + 1], path) && Synced(states[k + 1].tables, wanted[k])
  {
    var d, s, s' := wanted[k], states[k], states[k + 1];
    RunStaysReady(states, wanted, path, checks, routeChecks, k);
    assert MovedAt(states, wanted, path, k) && Ready(d, s, path, checks, routeChecks);
    var added, deleted :| MovedBy(d, s, s', path, added, deleted);
    ReconciledIsCalm(d, s, s', path, checks, routeChecks, added, deleted);
    ReadyFacts(d, s, path, checks, routeChecks);
    TablesStayFit(d, s.tables, s'.tables, added, deleted);
    assert CalmIn(d, s', path, FirewallPart);
    NoStepsIffSynced(s'.tables, d);
  }
}
