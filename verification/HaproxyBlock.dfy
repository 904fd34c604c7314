/** Printing the managed block and reading it back (internal/haproxy/manager.go:177-247,
    286-331, 366-394). */
module HaproxyBlock {
  import opened Model
  import opened Text
  import opened MarkedText
  import opened HaproxyText
  import R = Reconcile
  import Sorting

  // ---------------------------------------------------------------- printing

  function SanitizeChar(c: char): (r: char) {
    if 'a' <= c <= 'z' || 'A' <= c <= 'Z' || '0' <= c <= '9' || c == '_' || c == '-' then c else '_'
  }

  function Sanitize(s: string): (r: string) {
    if s == "" then "x" else seq(|s|, i requires 0 <= i < |s| => SanitizeChar(s[i]))
  }

  const FRONT_PREFIX := "transitforge_fe_"
  const LEGACY_FRONT_PREFIX := "proxyctl_fe_"

  function FrontName(r: SniRoute): (res: string) {
    FRONT_PREFIX + Sanitize(if r.id == "" then r.listen else r.id)
  }

  function BackName(r: SniRoute, i: nat): (res: string) {
    "transitforge_be_" + Sanitize(r.id) + "_" + Itoa(i)
  }

  type Table = map<string, Backend>

  function BackendName(b: Backend): (r: string) { b.name }

  function ResolveBackend(m: SniMatch, byId: Table, byName: Table): (r: Option<Backend>) {
    if m.backendId != "" && m.backendId in byId then Some(byId[m.backendId])
    else if m.backend != "" && m.backend in byName then Some(byName[m.backend])
    else None
  }

  /** A line of the block: indented words. */
  function Indented(tokens: seq<string>): (r: string) { "    " + Join(tokens) }

  const MODE := Indented(["mode", "tcp"])
  const DELAY := Indented(["tcp-request", "inspect-delay", "5s"])
  const HELLO_WORDS := ["tcp-request", "content", "accept", "if", "{", "req_ssl_hello_type", "1", "}"]
  const HELLO := Indented(HELLO_WORDS)

  function FrontLines(r: SniRoute): (res: seq<string>) {
    [Join(["frontend", FrontName(r)]), Indented(["bind", r.listen]), MODE, DELAY, HELLO]
  }

  function UseLine(r: SniRoute, i: nat, m: SniMatch): (res: string) {
    Indented(["use_backend", BackName(r, i), "if", "{", "req_ssl_sni", "-i", m.host, "}"])
  }

  function DefaultLines(name: string): (r: seq<string>) {
    [Indented(["default_backend", name]), ""]
  }

  function BackLines(r: SniRoute, i: nat, b: Backend): (res: seq<string>) {
    [Join(["backend", BackName(r, i)]),
     MODE,
     Indented(["server", "s1", b.address + ":443"]),
     ""]
  }

  /** How the parts of a route are printed. The texts enter what follows only through these
      fields. */
  datatype Printer = Printer(
    front: SniRoute -> seq<string>,
    use: (SniRoute, nat, SniMatch) -> string,
    fallback: string -> seq<string>,
    back: (SniRoute, nat, Backend) -> seq<string>,
    name: (SniRoute, nat) -> string)

  const PRINTER := Printer(FrontLines, UseLine, DefaultLines, BackLines, BackName)

  /** The hostname rules among the first n matches. */
  function UseLines(p: Printer, r: SniRoute, n: nat): (res: seq<string>)
    requires n <= |r.matches|
  {
    if n == 0 then []
    else UseLines(p, r, n - 1) + (if r.matches[n - 1].isDefault then [] else [p.use(r, n - 1, r.matches[n - 1])])
  }

  /** The backend of the last default among the first n matches; empty if there is none. */
  function DefaultName(p: Printer, r: SniRoute, n: nat): (res: string)
    requires n <= |r.matches|
  {
    if n == 0 then ""
    else if r.matches[n - 1].isDefault then p.name(r, n - 1)
    else DefaultName(p, r, n - 1)
  }

  function AllBackLines(p: Printer, r: SniRoute, n: nat, byId: Table, byName: Table): (res: seq<string>)
    requires n <= |r.matches| && Resolves(r, n, byId, byName)
  {
    if n == 0 then []
    else AllBackLines(p, r, n - 1, byId, byName) + p.back(r, n - 1,
                                                          ResolveBackend(r.matches[n - 1], byId, byName).value)
  }

  predicate Resolves(r: SniRoute, n: nat, byId: Table, byName: Table)
    requires n <= |r.matches|
  {
    forall i | 0 <= i < n :: ResolveBackend(r.matches[i], byId, byName).Some?
  }

  /** The lines of one route; None if a match names no known backend or none is the default. */
  function RouteLines(p: Printer, r: SniRoute, byId: Table, byName: Table): (res: Option<seq<string>>) {
    var n := |r.matches|;
    if !Resolves(r, n, byId, byName) || DefaultName(p, r, n) == "" then None
    else Some(p.front(r) + UseLines(p, r, n) + p.fallback(DefaultName(p, r, n))
              + AllBackLines(p, r, n, byId, byName))
  }

  function AllRouteLines(p: Printer, routes: seq<SniRoute>, byId: Table, byName: Table): (r: Option<seq<string>>) {
    if routes == [] then Some([])
    else
      var n := |routes| - 1;
      var before, last := AllRouteLines(p, routes[..n], byId, byName), RouteLines(p, routes[n], byId, byName);
      if before.None? || last.None? then None else Some(before.value + last.value)
  }

  const GENERATED := "# Generated by transitforge." + " Do not edit this block."
  const DIGEST_PREFIX := "# transitforge-sni-digest:"
  const LEGACY_DIGEST_PREFIX := "# proxyctl-sni-digest:"

  function MidLines(routes: seq<SniRoute>, lines: seq<string>): (r: seq<string>) {
    [GENERATED, DIGEST_PREFIX + " " + R.Digest(routes)] + lines
  }

  /** The managed block for the routes; empty for none. */
  function Rendered(routes: seq<SniRoute>, backends: seq<Backend>): (r: Option<string>) {
    if routes == [] then Some("")
    else
      var lines := AllRouteLines(PRINTER, routes, ByKey(backends, R.BackendId), ByKey(backends, BackendName));
      if lines.None? then None
      else Some(Unlines([BEGIN] + MidLines(routes, lines.value) + [END]))
  }

  method RenderFront(p: Printer, r: SniRoute, byId: Table, byName: Table) returns (lines: Option<seq<string>>)
    ensures lines == if !Resolves(r, |r.matches|, byId, byName) || DefaultName(p, r, |r.matches|) == "" then None
                     else Some(p.front(r) + UseLines(p, r, |r.matches|) + p.fallback(DefaultName(p, r, |r.matches|)))
  {
    var out := p.front(r);
    var defName := "";
    for i := 0 to |r.matches|
      invariant Resolves(r, i, byId, byName)
      invariant out == p.front(r) + UseLines(p, r, i)
      invariant defName == DefaultName(p, r, i)
    {
      var m := r.matches[i];
      if ResolveBackend(m, byId, byName).None? {
        return None;
      }
      if m.isDefault {
        defName := p.name(r, i);
      } else {
        out := out + [p.use(r, i, m)];
      }
    }
    if defName == "" {
      return None;
    }
    return Some(out + p.fallback(defName));
  }

  method RenderRoute(p: Printer, r: SniRoute, byId: Table, byName: Table) returns (lines: Option<seq<string>>)
    ensures lines == RouteLines(p, r, byId, byName)
  {
    var front := RenderFront(p, r, byId, byName);
    if front.None? {
      return None;
    }
    var out := front.value;
    for i := 0 to |r.matches|
      invariant Resolves(r, |r.matches|, byId, byName)
      invariant out == front.value + AllBackLines(p, r, i, byId, byName)
    {
      var b := ResolveBackend(r.matches[i], byId, byName);
      out := out + p.back(r, i, b.value);
    }
    return Some(out);
  }

  method Render(routes: seq<SniRoute>, backends: seq<Backend>) returns (text: Option<string>)
    ensures text == Rendered(routes, backends)
  {
    if |routes| == 0 {
      return Some("");
    }
    var byId, byName := ByKey(backends, R.BackendId), ByKey(backends, BackendName);
    var digest := R.SniDigest(routes);
    var lines: seq<string> := [];
    for i := 0 to |routes|
      invariant AllRouteLines(PRINTER, routes[..i], byId, byName) == Some(lines)
    {
      assert routes[..i + 1][..i] == routes[..i];
      var route := RenderRoute(PRINTER, routes[i], byId, byName);
      if route.None? {
        UnrenderedRoute(PRINTER, routes, i, byId, byName);
        return None;
      }
      lines := lines + route.value;
    }
    assert routes[..|routes|] == routes;
    text := Some(Unlines([BEGIN] + ([GENERATED, DIGEST_PREFIX + " " + digest] + lines) + [END]));
  }

  lemma {:induction false} UnrenderedRoute(p: Printer, routes: seq<SniRoute>, i: nat, byId: Table, byName: Table)
    requires i < |routes| && RouteLines(p, routes[i], byId, byName).None?
    ensures AllRouteLines(p, routes, byId, byName).None?
  {
    var n := |routes| - 1;
    if i < n {
      UnrenderedRoute(p, routes[..n], i, byId, byName);
    }
  }

  /** Every match names a known backend, and one is the default. */
  ghost predicate Renderable(r: SniRoute, byId: Table, byName: Table) {
    && (forall m | m in r.matches :: ResolveBackend(m, byId, byName).Some?)
    && (exists m :: m in r.matches && m.isDefault)
  }

  /** Rendering is refused exactly when some route has no default, or a match without a known
      backend. */
  lemma {:induction false} RenderedIff(p: Printer, routes: seq<SniRoute>, byId: Table, byName: Table)
    requires forall r, i :: p.name(r, i) != ""
    ensures AllRouteLines(p, routes, byId, byName).Some? <==> forall r | r in routes :: Renderable(r, byId, byName)
  {
    if routes != [] {
      var n := |routes| - 1;
      RenderedIff(p, routes[..n], byId, byName);
      RouteRenderedIff(p, routes[n], byId, byName);
      AllButLast(routes, byId, byName);
    }
  }

  lemma AllButLast(routes: seq<SniRoute>, byId: Table, byName: Table)
    requires routes != []
    ensures (forall r | r in routes :: Renderable(r, byId, byName))
            <==> (forall r | r in routes[..|routes| - 1] :: Renderable(r, byId, byName))
                 && Renderable(routes[|routes| - 1], byId, byName)
  {
    assert routes == routes[..|routes| - 1] + [routes[|routes| - 1]];
  }

  lemma RouteRenderedIff(p: Printer, r: SniRoute, byId: Table, byName: Table)
    requires forall r, i :: p.name(r, i) != ""
    ensures RouteLines(p, r, byId, byName).Some? <==> Renderable(r, byId, byName)
  {
    DefaultIff(p, r, |r.matches|);
    assert r.matches[..|r.matches|] == r.matches;
  }

  lemma {:induction false} DefaultIff(p: Printer, r: SniRoute, n: nat)
    requires n <= |r.matches| && forall r, i :: p.name(r, i) != ""
    ensures DefaultName(p, r, n) != "" <==> exists m :: m in r.matches[..n] && m.isDefault
  {
    if n > 0 {
      DefaultIff(p, r, n - 1);
      assert r.matches[..n] == r.matches[..n - 1] + [r.matches[n - 1]];
    }
  }

  /** In the agent's own printing, rendering is refused exactly then. */
  lemma RefusedIff(routes: seq<SniRoute>, backends: seq<Backend>)
    ensures Rendered(routes, backends).Some?
            <==> forall r | r in routes :: Renderable(r, ByKey(backends, R.BackendId), ByKey(backends, BackendName))
  {
    forall r, i ensures BackName(r, i) != "" {}
    RenderedIff(PRINTER, routes, ByKey(backends, R.BackendId), ByKey(backends, BackendName));
  }

  // ------------------------------------------------- the block is well formed

  /** A value that cannot be mistaken for anything but one word of a line. */
  predicate Tame(s: string) {
    forall i | 0 <= i < |s| :: !IsSpace(s[i]) && s[i] != '#' && s[i] != '"'
  }

  predicate TameMatch(m: SniMatch) { Tame(m.host) && Tame(m.backend) && Tame(m.backendId) }

  predicate TameRoute(r: SniRoute) {
    Tame(r.listen) && forall m | m in r.matches :: TameMatch(m)
  }

  ghost predicate TameConfig(routes: seq<SniRoute>, backends: seq<Backend>) {
    (forall r | r in routes :: TameRoute(r)) && (forall b | b in backends :: Tame(b.address))
  }

  /** A line that neither ends early nor holds the character markers start with. */
  predicate Quiet(l: string) {
    forall i | 0 <= i < |l| :: l[i] != '#' && l[i] != '\n'
  }

  lemma {:induction false} JoinIsQuiet(tokens: seq<string>)
    requires forall i | 0 <= i < |tokens| :: Quiet(tokens[i])
    ensures Quiet(Join(tokens)) && Quiet(Indented(tokens))
  {
    if |tokens| > 1 {
      JoinIsQuiet(tokens[1..]);
    }
  }

  lemma SanitizedIsTame(s: string)
    ensures Tame(Sanitize(s)) && Sanitize(s) != ""
  {
  }

  lemma NumberIsTame(i: nat)
    ensures Tame(Itoa(i))
  {
    var s := Itoa(i);
    forall k | 0 <= k < |s| ensures !IsSpace(s[k]) && s[k] != '#' && s[k] != '"' {
      assert IsDigit(s[k]);
    }
  }

  lemma TameConcat(a: string, b: string)
    requires Tame(a) && Tame(b)
    ensures Tame(a + b)
  {
  }

  lemma NamesAreTame(r: SniRoute, i: nat)
    ensures Tame(FrontName(r)) && Tame(BackName(r, i)) && FrontName(r) != "" && BackName(r, i) != ""
  {
    SanitizedIsTame(if r.id == "" then r.listen else r.id);
    SanitizedIsTame(r.id);
    NumberIsTame(i);
    TameConcat("transitforge_be_", Sanitize(r.id));
    TameConcat("transitforge_be_" + Sanitize(r.id), "_");
    TameConcat("transitforge_be_" + Sanitize(r.id) + "_", Itoa(i));
    TameConcat(FRONT_PREFIX, Sanitize(if r.id == "" then r.listen else r.id));
  }

  lemma FrontIsQuiet(r: SniRoute)
    requires Tame(r.listen)
    ensures forall l | l in FrontLines(r) :: Quiet(l)
  {
    NamesAreTame(r, 0);
    JoinIsQuiet(["frontend", FrontName(r)]);
    JoinIsQuiet(["bind", r.listen]);
    FixedLinesAreQuiet();
    assert FrontLines(r) == [Join(["frontend", FrontName(r)]), Indented(["bind", r.listen]), MODE, DELAY, HELLO];
  }

  lemma FixedLinesAreQuiet()
    ensures Quiet(MODE) && Quiet(DELAY) && Quiet(HELLO)
  {
    JoinIsQuiet(["mode", "tcp"]);
    JoinIsQuiet(["tcp-request", "inspect-delay", "5s"]);
    HelloIsQuiet();
  }

  lemma HelloIsQuiet()
    ensures Quiet(HELLO)
  {
    JoinIsQuiet(HELLO_WORDS);
  }

  lemma UseIsQuiet(r: SniRoute, i: nat, m: SniMatch)
    requires Tame(m.host)
    ensures Quiet(UseLine(r, i, m))
  {
    NamesAreTame(r, i);
    JoinIsQuiet(["use_backend", BackName(r, i), "if", "{", "req_ssl_sni", "-i", m.host, "}"]);
  }

  lemma FallbackIsQuiet(name: string)
    requires Tame(name)
    ensures forall l | l in DefaultLines(name) :: Quiet(l)
  {
    JoinIsQuiet(["default_backend", name]);
  }

  lemma BackIsQuiet(r: SniRoute, i: nat, b: Backend)
    requires Tame(b.address)
    ensures forall l | l in BackLines(r, i, b) :: Quiet(l)
  {
    NamesAreTame(r, i);
    TameConcat(b.address, ":443");
    JoinIsQuiet(["backend", BackName(r, i)]);
    FixedLinesAreQuiet();
    JoinIsQuiet(["server", "s1", b.address + ":443"]);
  }

  /** Every part a printer prints of these routes passes a test. */
  ghost predicate PartsPass(p: Printer, routes: seq<SniRoute>, byId: Table, byName: Table, ok: string -> bool) {
    && (forall r, l | r in routes && l in p.front(r) :: ok(l))
    && (forall r, i, m | r in routes && m in r.matches :: ok(p.use(r, i, m)))
    && (forall r, i, l | r in routes && l in p.fallback(p.name(r, i)) :: ok(l))
    && (forall r, i, id, l | r in routes && id in byId && l in p.back(r, i, byId[id]) :: ok(l))
    && (forall r, i, id, l | r in routes && id in byName && l in p.back(r, i, byName[id]) :: ok(l))
  }

  lemma {:induction false} LinesPass(p: Printer, routes: seq<SniRoute>, byId: Table, byName: Table, ok: string -> bool)
    requires PartsPass(p, routes, byId, byName, ok) && AllRouteLines(p, routes, byId, byName).Some?
    ensures forall l | l in AllRouteLines(p, routes, byId, byName).value :: ok(l)
  {
    if routes != [] {
      var n := |routes| - 1;
      LinesPass(p, routes[..n], byId, byName, ok);
      RouteLinesPass(p, routes, routes[n], byId, byName, ok);
    }
  }

  lemma RouteLinesPass(p: Printer, routes: seq<SniRoute>, r: SniRoute, byId: Table, byName: Table, ok: string -> bool)
    requires PartsPass(p, routes, byId, byName, ok) && r in routes && RouteLines(p, r, byId, byName).Some?
    ensures forall l | l in RouteLines(p, r, byId, byName).value :: ok(l)
  {
    var n := |r.matches|;
    UsesPass(p, routes, r, n, byId, byName, ok);
    BacksPass(p, routes, r, n, byId, byName, ok);
    DefaultIsNamed(p, r, n);
    var a, b, c, d := p.front(r), UseLines(p, r, n), p.fallback(DefaultName(p, r, n)),
        AllBackLines(p, r, n, byId, byName);
    assert forall l :: l in a + b + c + d <==> l in a || l in b || l in c || l in d;
  }

  lemma {:induction false} DefaultIsNamed(p: Printer, r: SniRoute, n: nat)
    requires n <= |r.matches|
    ensures DefaultName(p, r, n) == "" || exists i: nat :: DefaultName(p, r, n) == p.name(r, i)
  {
    if n > 0 {
      DefaultIsNamed(p, r, n - 1);
    }
  }

  lemma {:induction false} UsesPass(p: Printer, routes: seq<SniRoute>, r: SniRoute, n: nat, byId: Table, byName: Table,
                                    ok: string -> bool)
    requires PartsPass(p, routes, byId, byName, ok) && r in routes && n <= |r.matches|
    ensures forall l | l in UseLines(p, r, n) :: ok(l)
  {
    if n > 0 {
      UsesPass(p, routes, r, n - 1, byId, byName, ok);
      assert r.matches[n - 1] in r.matches;
    }
  }

  lemma {:induction false} BacksPass(p: Printer, routes: seq<SniRoute>, r: SniRoute, n: nat, byId: Table,
                                     byName: Table, ok: string -> bool)
    requires PartsPass(p, routes, byId, byName, ok) && r in routes && n <= |r.matches| && Resolves(r, n, byId, byName)
    ensures forall l | l in AllBackLines(p, r, n, byId, byName) :: ok(l)
  {
    if n > 0 {
      BacksPass(p, routes, r, n - 1, byId, byName, ok);
    }
  }

  lemma PrinterIsQuiet(routes: seq<SniRoute>, backends: seq<Backend>)
    requires TameConfig(routes, backends)
    ensures PartsPass(PRINTER, routes, ByKey(backends, R.BackendId), ByKey(backends, BackendName), Quiet)
  {
    var byId, byName := ByKey(backends, R.BackendId), ByKey(backends, BackendName);
    ByKeyKeys(backends, R.BackendId);
    ByKeyKeys(backends, BackendName);
    forall r, l | r in routes && l in FrontLines(r) ensures Quiet(l) { FrontIsQuiet(r); }
    forall r, i, m | r in routes && m in r.matches ensures Quiet(UseLine(r, i, m)) {
      assert TameRoute(r) && TameMatch(m);
      UseIsQuiet(r, i, m);
    }
    forall r, i, l | r in routes && l in DefaultLines(BackName(r, i)) ensures Quiet(l) {
      NamesAreTame(r, i);
      FallbackIsQuiet(BackName(r, i));
    }
    forall r, i, id, l | r in routes && id in byId && l in BackLines(r, i, byId[id]) ensures Quiet(l) {
      BackIsQuiet(r, i, byId[id]);
    }
    forall r, i, id, l | r in routes && id in byName && l in BackLines(r, i, byName[id]) ensures Quiet(l) {
      BackIsQuiet(r, i, byName[id]);
    }
  }

  // ------------------------------------------------------------------ digest

  lemma {:induction false} MatchLinesAreQuiet(ms: seq<SniMatch>)
    requires forall m | m in ms :: TameMatch(m)
    ensures forall l | l in R.MatchLines(ms) :: Quiet(l) && Trimmed(l) && l != ""
  {
    if ms != [] {
      var n := |ms| - 1;
      MatchLinesAreQuiet(ms[..n]);
      MatchLineIsQuiet(ms[n]);
    }
  }

  lemma MatchLineIsQuiet(m: SniMatch)
    requires TameMatch(m)
    ensures Quiet(R.MatchLine(m)) && Trimmed(R.MatchLine(m)) && R.MatchLine(m) != ""
  {
    var tail := m.backendId + (if m.isDefault then ":true" else ":false");
    assert Tame(tail) && tail != "" && !IsSpace(tail[|tail| - 1]);
    assert Tame(":" + (m.backend + ":" + tail));
    var l := m.host + ":" + (m.backend + ":" + tail);
    assert l == m.host + (":" + (m.backend + ":" + tail));
    assert Tame(l);
    assert R.MatchLine(m) == l by {
      assert m.backend + ":" + tail == m.backend + (":" + tail);
    }
  }

  lemma SniLineIsQuiet(r: SniRoute)
    requires Tame(r.listen)
    ensures Quiet(R.SniLine(r)) && Trimmed(R.SniLine(r)) && R.SniLine(r) != ""
  {
    NumberIsTame(|r.matches|);
    var l := R.SniLine(r);
    assert l[0] == 'l';
    assert l[|l| - 1] == Itoa(|r.matches|)[|Itoa(|r.matches|)| - 1];
  }

  lemma {:induction false} PartsAreQuiet(routes: seq<SniRoute>)
    requires forall r | r in routes :: TameRoute(r)
    ensures forall l | l in R.SniParts(routes) :: Quiet(l) && Trimmed(l) && l != ""
  {
    if routes != [] {
      var n := |routes| - 1;
      PartsAreQuiet(routes[..n]);
      assert TameRoute(routes[n]);
      SniLineIsQuiet(routes[n]);
      MatchLinesAreQuiet(routes[n].matches);
    }
  }

  lemma {:induction false} JoinBarIsQuiet(parts: seq<string>)
    requires forall l | l in parts :: Quiet(l) && Trimmed(l) && l != ""
    ensures Quiet(R.JoinBar(parts)) && Trimmed(R.JoinBar(parts))
    ensures parts != [] ==> R.JoinBar(parts) != ""
  {
    if parts != [] {
      assert parts[0] in parts;
      if |parts| > 1 {
        assert forall l :: l in parts[1..] ==> l in parts;
        JoinBarIsQuiet(parts[1..]);
        var rest := R.JoinBar(parts[1..]);
        var l := parts[0] + "|" + rest;
        assert l[0] == parts[0][0] && l[|l| - 1] == rest[|rest| - 1];
      }
    }
  }

  lemma DigestIsQuiet(routes: seq<SniRoute>)
    requires forall r | r in routes :: TameRoute(r)
    ensures Quiet(R.Digest(routes)) && Trimmed(R.Digest(routes))
    ensures routes != [] ==> R.Digest(routes) != ""
  {
    var parts := R.SniParts(routes);
    var sorted := Sorting.Sort(parts);
    PartsAreQuiet(routes);
    Sorting.SortIsSorted(parts);
    forall l | l in sorted ensures l in parts {
      assert l in multiset(sorted);
    }
    JoinBarIsQuiet(sorted);
    if routes != [] {
      assert parts != [];
      assert |sorted| == |multiset(sorted)| == |parts|;
    }
  }

  // ----------------------------------------------------------------- framing

  lemma QuietIsFree(l: string)
    requires Quiet(l)
    ensures Free(l, BEGIN, END) && '\n' !in l
  {
    HashesMatter(l, BEGIN);
    HashesMatter(l, END);
  }

  lemma HashesMatter(l: string, pat: string)
    requires Quiet(l) && pat != "" && pat[0] == '#'
    ensures !Contains(l, pat)
  {
    ContainsIffAt(l, pat);
    forall j ensures !At(l, pat, j) {
      MatchesAt(l, pat, j, 0);
    }
  }

  /** A comment line is no marker unless it goes on like one. */
  lemma CommentIsFree(l: string, pat: string)
    requires |l| > 2 && Quiet(l[1..]) && |pat| > 2 && pat[0] == '#' && l[2] != pat[2]
    ensures !Contains(l, pat) && (l[0] == '#' ==> '\n' !in l)
  {
    ContainsIffAt(l, pat);
    forall j ensures !At(l, pat, j) {
      MatchesFirst(l, pat, j);
      assert 0 < j < |l| ==> l[j] == l[1..][j - 1] && l[j] != '#';
    }
    if l[0] == '#' {
      forall i | 0 <= i < |l| ensures l[i] != '\n' {
        assert i > 0 ==> l[i] == l[1..][i - 1];
      }
    }
  }

  lemma DigestLineIsFree(prefix: string, digest: string)
    requires prefix == DIGEST_PREFIX && Quiet(digest)
    ensures Free(prefix + " " + digest, BEGIN, END) && '\n' !in prefix + " " + digest
  {
    var l := prefix + " " + digest;
    assert Quiet(prefix[1..]) && |prefix| > 2 && prefix[2] == 't' && prefix[0] == '#';
    assert l[1..] == prefix[1..] + " " + digest;
    assert BEGIN[2] == 'B' && END[2] == 'E';
    CommentIsFree(l, BEGIN);
    CommentIsFree(l, END);
  }

  lemma GeneratedIsFree()
    ensures Free(GENERATED, BEGIN, END) && '\n' !in GENERATED
  {
    var a, b := "# Generated by transitforge.", " Do not edit this block.";
    assert Quiet(a[1..]) && Quiet(b) && a[2] == 'G';
    assert (a + b)[1..] == a[1..] + b;
    assert BEGIN[2] == 'B' && END[2] == 'E';
    CommentIsFree(a + b, BEGIN);
    CommentIsFree(a + b, END);
  }

  /** What is printed for tame routes is a block the editor can find again. */
  lemma RenderedIsBlock(routes: seq<SniRoute>, backends: seq<Backend>)
    requires TameConfig(routes, backends) && Rendered(routes, backends).Some?
    ensures if routes == [] then Rendered(routes, backends).value == ""
            else ManagedBlock(Rendered(routes, backends).value)
  {
    if routes != [] {
      var lines := RouteLinesAreQuiet(routes, backends);
      DigestIsQuiet(routes);
      HeadersAreFree(routes);
      FramedIsBlock(routes, lines);
    }
  }

  lemma RouteLinesAreQuiet(routes: seq<SniRoute>, backends: seq<Backend>) returns (lines: seq<string>)
    requires TameConfig(routes, backends) && Rendered(routes, backends).Some? && routes != []
    ensures AllRouteLines(PRINTER, routes, ByKey(backends, R.BackendId), ByKey(backends, BackendName)) == Some(lines)
    ensures Rendered(routes, backends).value == Unlines([BEGIN] + MidLines(routes, lines) + [END])
    ensures forall l | l in lines :: Quiet(l)
  {
    var byId, byName := ByKey(backends, R.BackendId), ByKey(backends, BackendName);
    lines := AllRouteLines(PRINTER, routes, byId, byName).value;
    PrinterIsQuiet(routes, backends);
    LinesPass(PRINTER, routes, byId, byName, Quiet);
  }

  lemma HeadersAreFree(routes: seq<SniRoute>)
    requires Quiet(R.Digest(routes))
    ensures forall l | l in [GENERATED, DIGEST_PREFIX + " " + R.Digest(routes)] :: Free(l, BEGIN, END) && '\n' !in l
  {
    DigestLineIsFree(DIGEST_PREFIX, R.Digest(routes));
    GeneratedIsFree();
  }

  lemma FramedIsBlock(routes: seq<SniRoute>, lines: seq<string>)
    requires forall l | l in lines :: Quiet(l)
    requires forall l | l in [GENERATED, DIGEST_PREFIX + " " + R.Digest(routes)] :: Free(l, BEGIN, END) && '\n' !in l
    ensures ManagedBlock(Unlines([BEGIN] + MidLines(routes, lines) + [END]))
  {
    var mid := MidLines(routes, lines);
    forall l | l in mid ensures '\n' !in l && Free(l, BEGIN, END) {
      if l in lines {
        QuietIsFree(l);
      }
    }
    MarkersAreMarkers();
    PrintedBlock(mid, BEGIN, END);
  }
}
