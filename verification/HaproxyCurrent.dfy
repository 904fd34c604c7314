/** When the managed block in the file is the one that would be written now. Discovery compares
    digests only, and a digest says neither which route a match belongs to nor where a backend
    is (internal/haproxy/manager.go:177-247, internal/reconcile/plan.go:182-210, 249-259). */
module HaproxyCurrent {
  import opened Model
  import opened Text
  import opened MarkedText
  import opened HaproxyText
  import opened HaproxyBlock
  import opened HaproxyRead
  import H = Haproxy
  import R = Reconcile

  // ------------------------------------------------------ what a route prints

  /** Two matches are printed alike under the same name: both are the default, or both are for
      the same hostname; and their backends have the same address. */
  predicate MatchAlike(m: SniMatch, m': SniMatch, byId: Table, byName: Table, byId': Table, byName': Table)
    requires ResolveBackend(m, byId, byName).Some? && ResolveBackend(m', byId', byName').Some?
  {
    && m.isDefault == m'.isDefault && (!m.isDefault ==> m.host == m'.host)
    && ResolveBackend(m, byId, byName).value.address == ResolveBackend(m', byId', byName').value.address
  }

  /** Two routes are printed alike: under the same names, for the same address, with matches
      that are printed alike. */
  ghost predicate RouteAlike(r: SniRoute, r': SniRoute, byId: Table, byName: Table, byId': Table, byName': Table)
    requires Resolves(r, |r.matches|, byId, byName) && Resolves(r', |r'.matches|, byId', byName')
  {
    && FrontName(r) == FrontName(r') && Sanitize(r.id) == Sanitize(r'.id) && r.listen == r'.listen
    && |r.matches| == |r'.matches|
    && forall i | 0 <= i < |r.matches| :: MatchAlike(r.matches[i], r'.matches[i], byId, byName, byId', byName')
  }

  lemma CancelLeft(p: string, a: string, b: string)
    requires p + a == p + b
    ensures a == b
  {
    assert a == (p + a)[|p|..] && b == (p + b)[|p|..];
  }

  lemma CancelRight(a: string, b: string, p: string)
    requires a + p == b + p
    ensures a == b
  {
    assert |a| == |b|;
    assert a == (a + p)[..|a|] && b == (b + p)[..|b|];
  }

  /** Where a word ends is where the first blank is. */
  lemma {:induction false} WordsEqual(w: string, w': string, rest: string, rest': string)
    requires ' ' !in w && ' ' !in w' && w + (" " + rest) == w' + (" " + rest')
    ensures w == w' && rest == rest'
  {
    var l, l' := w + (" " + rest), w' + (" " + rest');
    assert l[|w|] == ' ' && l'[|w'|] == ' ';
    assert (forall i | 0 <= i < |w| :: l[i] == w[i]) && (forall i | 0 <= i < |w'| :: l'[i] == w'[i]);
    assert |w| == |w'|;
    assert l[..|w|] == w && l'[..|w'|] == w';
    assert l[|w| + 1..] == rest && l'[|w'| + 1..] == rest';
  }

  /** A sequence of lines that starts with the only line of its kind is found at the end of any
      longer one. */
  lemma LastBlock(a: seq<string>, x: seq<string>, b: seq<string>, y: seq<string>, c: char)
    requires x != [] && y != [] && Starts(x[0], c) && Starts(y[0], c)
    requires forall i | 1 <= i < |x| :: !Starts(x[i], c)
    requires forall i | 1 <= i < |y| :: !Starts(y[i], c)
    requires a + x == b + y
    ensures a == b && x == y
  {
    var l := a + x;
    assert l[|a|] == x[0] && l[|b|] == y[0];
    forall k | |a| < k < |l| ensures !Starts(l[k], c) {
      assert l[k] == x[k - |a|];
    }
    forall k | |b| < k < |l| ensures !Starts(l[k], c) {
      assert l[k] == y[k - |b|];
    }
    assert |a| == |b|;
    assert l[..|a|] == a && l[..|b|] == b && l[|a|..] == x && l[|b|..] == y;
  }

  predicate Starts(line: string, c: char) { line != "" && line[0] == c }

  // --------------------------------------------------- one backend, one match

  lemma SpaceFree(s: string, i: nat)
    ensures ' ' !in Sanitize(s) && ' ' !in Itoa(i) && '_' !in Itoa(i)
  {
  }

  lemma BackNameIsOneWord(r: SniRoute, i: nat)
    ensures ' ' !in BackName(r, i)
  {
    SpaceFree(r.id, i);
  }

  /** The number is what follows the last underscore. */
  lemma BackNamesEqual(r: SniRoute, i: nat, r': SniRoute, i': nat)
    ensures BackName(r, i) == BackName(r', i') <==> Sanitize(r.id) == Sanitize(r'.id) && i == i'
  {
    if BackName(r, i) == BackName(r', i') {
      var p := "transitforge_be_";
      assert BackName(r, i) == p + (Sanitize(r.id) + "_" + Itoa(i))
             && BackName(r', i') == p + (Sanitize(r'.id) + "_" + Itoa(i'));
      CancelLeft(p, Sanitize(r.id) + "_" + Itoa(i), Sanitize(r'.id) + "_" + Itoa(i'));
      SpaceFree(r.id, i);
      SpaceFree(r'.id, i');
      TailsEqual(Sanitize(r.id), Itoa(i), Sanitize(r'.id), Itoa(i'));
      AtoiOfItoa(i);
      AtoiOfItoa(i');
    }
  }

  lemma TailsEqual(a: string, d: string, a': string, d': string)
    requires '_' !in d && '_' !in d' && a + "_" + d == a' + "_" + d'
    ensures a == a' && d == d'
  {
    var l := a + "_" + d;
    assert l == a' + "_" + d' && l[|a|] == '_' && l[|a'|] == '_';
    forall k | |a| < k < |l| ensures l[k] != '_' {
      assert l[k] == d[k - |a| - 1];
    }
    forall k | |a'| < k < |l| ensures l[k] != '_' {
      assert l[k] == d'[k - |a'| - 1];
    }
    assert |a| == |a'|;
    assert l[..|a|] == a && l[..|a'|] == a' && l[|a| + 1..] == d && l[|a'| + 1..] == d';
  }

  lemma JoinCons(word: string, rest: seq<string>)
    requires rest != []
    ensures Join([word] + rest) == word + (" " + Join(rest))
  {
    assert ([word] + rest)[1..] == rest;
    assert word + " " + Join(rest) == word + (" " + Join(rest));
  }

  /** The words after the first one of an indented line. */
  lemma IndentedCons(word: string, rest: seq<string>, line: string)
    requires rest != [] && line == Indented([word] + rest)
    ensures line == ("    " + word + " ") + Join(rest)
  {
    JoinCons(word, rest);
    assert "    " + (word + (" " + Join(rest))) == ("    " + word + " ") + Join(rest);
  }

  lemma BackLineShapes(r: SniRoute, i: nat, b: Backend)
    ensures BackLines(r, i, b)[0] == "backend" + (" " + BackName(r, i))
    ensures BackLines(r, i, b)[2] == ("    " + "server" + " ") + ("s1" + (" " + (b.address + ":443")))
  {
    var name, server := BackName(r, i), b.address + ":443";
    assert ["backend"] + [name] == ["backend", name] && ["s1"] + [server] == ["s1", server]
           && ["server"] + ["s1", server] == ["server", "s1", server];
    JoinCons("backend", [name]);
    JoinCons("s1", [server]);
    IndentedCons("server", ["s1", server], BackLines(r, i, b)[2]);
  }

  lemma BackLinesEqual(r: SniRoute, i: nat, b: Backend, r': SniRoute, i': nat, b': Backend)
    ensures BackLines(r, i, b) == BackLines(r', i', b')
            <==> BackName(r, i) == BackName(r', i') && b.address == b'.address
  {
    BackLineShapes(r, i, b);
    BackLineShapes(r', i', b');
    if BackLines(r, i, b)[0] == BackLines(r', i', b')[0] {
      CancelLeft("backend", " " + BackName(r, i), " " + BackName(r', i'));
      CancelLeft(" ", BackName(r, i), BackName(r', i'));
    }
    if BackLines(r, i, b)[2] == BackLines(r', i', b')[2] {
      var s, s' := b.address + ":443", b'.address + ":443";
      CancelLeft("    " + "server" + " ", "s1" + (" " + s), "s1" + (" " + s'));
      CancelLeft("s1", " " + s, " " + s');
      CancelLeft(" ", s, s');
      CancelRight(b.address, b'.address, ":443");
    }
  }

  const CONDITION := ["{", "req_ssl_sni", "-i"]

  lemma UseLineShape(r: SniRoute, i: nat, m: SniMatch)
    ensures UseLine(r, i, m) == ("    " + "use_backend" + " ")
            + (BackName(r, i) + (" " + ("if" + (" " + Join(CONDITION + [m.host, "}"])))))
  {
    var name, rest := BackName(r, i), CONDITION + [m.host, "}"];
    assert ["use_backend", name, "if", "{", "req_ssl_sni", "-i", m.host, "}"] == ["use_backend"]
           + ([name] + (["if"] + rest));
    IndentedCons("use_backend", [name] + (["if"] + rest), UseLine(r, i, m));
    JoinCons(name, ["if"] + rest);
    JoinCons("if", rest);
  }

  lemma ConditionShape(host: string)
    ensures Join(CONDITION + [host, "}"])
            == "{" + (" " + ("req_ssl_sni" + (" " + ("-i" + (" " + (host + (" " + "}")))))))
  {
    assert CONDITION + [host, "}"] == ["{"] + (["req_ssl_sni"] + (["-i"] + ([host] + ["}"])));
    JoinCons("{", ["req_ssl_sni"] + (["-i"] + ([host] + ["}"])));
    JoinCons("req_ssl_sni", ["-i"] + ([host] + ["}"]));
    JoinCons("-i", [host] + ["}"]);
    JoinCons(host, ["}"]);
  }

  lemma ConditionsEqual(host: string, host': string)
    requires Join(CONDITION + [host, "}"]) == Join(CONDITION + [host', "}"])
    ensures host == host'
  {
    ConditionShape(host);
    ConditionShape(host');
    var t, t' := host + (" " + "}"), host' + (" " + "}");
    CancelLeft("{", " " + ("req_ssl_sni" + (" " + ("-i" + (" " + t)))),
               " " + ("req_ssl_sni" + (" " + ("-i" + (" " + t')))));
    CancelLeft(" ", "req_ssl_sni" + (" " + ("-i" + (" " + t))), "req_ssl_sni" + (" " + ("-i" + (" " + t'))));
    CancelLeft("req_ssl_sni", " " + ("-i" + (" " + t)), " " + ("-i" + (" " + t')));
    CancelLeft(" ", "-i" + (" " + t), "-i" + (" " + t'));
    CancelLeft("-i", " " + t, " " + t');
    CancelLeft(" ", t, t');
    CancelRight(host, host', " " + "}");
  }

  lemma UseLinesEqual(r: SniRoute, i: nat, m: SniMatch, r': SniRoute, i': nat, m': SniMatch)
    ensures UseLine(r, i, m) == UseLine(r', i', m') <==> BackName(r, i) == BackName(r', i') && m.host == m'.host
  {
    UseLineShape(r, i, m);
    UseLineShape(r', i', m');
    if UseLine(r, i, m) == UseLine(r', i', m') {
      var c, c' := Join(CONDITION + [m.host, "}"]), Join(CONDITION + [m'.host, "}"]);
      var q, q' := "if" + (" " + c), "if" + (" " + c');
      CancelLeft("    " + "use_backend" + " ", BackName(r, i) + (" " + q), BackName(r', i') + (" " + q'));
      BackNameIsOneWord(r, i);
      BackNameIsOneWord(r', i');
      WordsEqual(BackName(r, i), BackName(r', i'), q, q');
      CancelLeft("if", " " + c, " " + c');
      CancelLeft(" ", c, c');
      ConditionsEqual(m.host, m'.host);
    }
  }

  lemma FrontLineShapes(r: SniRoute)
    ensures FrontLines(r)[0] == "frontend" + (" " + FrontName(r))
            && FrontLines(r)[1] == ("    " + "bind" + " ") + r.listen
  {
    assert ["frontend"] + [FrontName(r)] == ["frontend", FrontName(r)] && ["bind"] + [r.listen] == ["bind", r.listen];
    JoinCons("frontend", [FrontName(r)]);
    IndentedCons("bind", [r.listen], FrontLines(r)[1]);
  }

  lemma FrontLinesEqual(r: SniRoute, r': SniRoute)
    ensures FrontLines(r) == FrontLines(r') <==> FrontName(r) == FrontName(r') && r.listen == r'.listen
  {
    FrontLineShapes(r);
    FrontLineShapes(r');
    if FrontLines(r) == FrontLines(r') {
      assert FrontLines(r)[0] == FrontLines(r')[0] && FrontLines(r)[1] == FrontLines(r')[1];
      CancelLeft("frontend", " " + FrontName(r), " " + FrontName(r'));
      CancelLeft(" ", FrontName(r), FrontName(r'));
      CancelLeft("    " + "bind" + " ", r.listen, r'.listen);
    }
  }

  lemma FallbacksEqual(name: string, name': string)
    ensures DefaultLines(name) == DefaultLines(name') <==> name == name'
  {
    assert ["default_backend"] + [name] == ["default_backend", name]
           && ["default_backend"] + [name'] == ["default_backend", name'];
    IndentedCons("default_backend", [name], DefaultLines(name)[0]);
    IndentedCons("default_backend", [name'], DefaultLines(name')[0]);
    if DefaultLines(name) == DefaultLines(name') {
      assert DefaultLines(name)[0] == DefaultLines(name')[0];
      CancelLeft("    " + "default_backend" + " ", name, name');
    }
  }

  // ------------------------------------------------------ what a printer does

  ghost predicate FrontsAgree(p: Printer, r: SniRoute, r': SniRoute) {
    p.front(r) == p.front(r') <==> FrontName(r) == FrontName(r') && r.listen == r'.listen
  }

  ghost predicate UsesAgree(p: Printer, r: SniRoute, i: nat, m: SniMatch, r': SniRoute, i': nat, m': SniMatch) {
    p.use(r, i, m) == p.use(r', i', m') <==> p.name(r, i) == p.name(r', i') && m.host == m'.host
  }

  ghost predicate BacksAgree(p: Printer, r: SniRoute, i: nat, b: Backend, r': SniRoute, i': nat, b': Backend) {
    p.back(r, i, b) == p.back(r', i', b') <==> p.name(r, i) == p.name(r', i') && b.address == b'.address
  }

  ghost predicate NamesAgree(p: Printer, r: SniRoute, i: nat, r': SniRoute, i': nat) {
    p.name(r, i) == p.name(r', i') <==> Sanitize(r.id) == Sanitize(r'.id) && i == i'
  }

  ghost predicate FallbacksAgree(p: Printer, name: string, name': string) {
    p.fallback(name) == p.fallback(name') <==> name == name'
  }

  /** Only the first line starts with the character. */
  ghost predicate Headed(lines: seq<string>, c: char) {
    lines != [] && Starts(lines[0], c) && forall i | 1 <= i < |lines| :: !Starts(lines[i], c)
  }

  ghost predicate Lacks(lines: seq<string>, c: char) { forall l | l in lines :: !Starts(l, c) }

  ghost predicate FrontIs(p: Printer, r: SniRoute) {
    |p.front(r)| == 5 && Headed(p.front(r), 'f') && Lacks(p.front(r), 'b')
  }

  ghost predicate UseIs(p: Printer, r: SniRoute, i: nat, m: SniMatch) {
    !Starts(p.use(r, i, m), 'f') && !Starts(p.use(r, i, m), 'b')
  }

  ghost predicate BackIs(p: Printer, r: SniRoute, i: nat, b: Backend) {
    Headed(p.back(r, i, b), 'b') && Lacks(p.back(r, i, b), 'f')
  }

  ghost predicate FallbackIs(p: Printer, name: string) {
    |p.fallback(name)| == 2 && Lacks(p.fallback(name), 'f') && Lacks(p.fallback(name), 'b')
  }

  /** What is printed says what it is printed from, and the parts of a route can be told apart. */
  ghost predicate Telling(p: Printer) {
    && (forall r, r' :: FrontsAgree(p, r, r'))
    && (forall r, i, m, r', i', m' :: UsesAgree(p, r, i, m, r', i', m'))
    && (forall r, i, b, r', i', b' :: BacksAgree(p, r, i, b, r', i', b'))
    && (forall r, i, r', i' :: NamesAgree(p, r, i, r', i'))
    && (forall name, name' :: FallbacksAgree(p, name, name'))
    && (forall r :: FrontIs(p, r)) && (forall r, i, m :: UseIs(p, r, i, m)) && (forall r, i, b :: BackIs(p, r, i, b))
    && (forall name :: FallbackIs(p, name))
  }

  lemma PrinterIsTelling()
    ensures Telling(PRINTER)
  {
    forall r, r' ensures FrontsAgree(PRINTER, r, r') { FrontLinesEqual(r, r'); }
    forall r, i, m, r', i', m' ensures UsesAgree(PRINTER, r, i, m, r', i', m') { UseLinesEqual(r, i, m, r', i', m'); }
    forall r, i, b, r', i', b' ensures BacksAgree(PRINTER, r, i, b, r', i', b') { BackLinesEqual(r, i, b, r', i', b'); }
    forall r, i, r', i' ensures NamesAgree(PRINTER, r, i, r', i') { BackNamesEqual(r, i, r', i'); }
    forall name, name' ensures FallbacksAgree(PRINTER, name, name') { FallbacksEqual(name, name'); }
    forall r ensures FrontIs(PRINTER, r) { FrontIsHeaded(r); }
    forall r, i, m ensures UseIs(PRINTER, r, i, m) { UseLineShape(r, i, m); }
    forall r, i, b ensures BackIs(PRINTER, r, i, b) { BackIsHeaded(r, i, b); }
    forall name ensures FallbackIs(PRINTER, name) { }
  }

  lemma FrontIsHeaded(r: SniRoute)
    ensures FrontIs(PRINTER, r)
  {
    FrontLineShapes(r);
  }

  lemma BackIsHeaded(r: SniRoute, i: nat, b: Backend)
    ensures BackIs(PRINTER, r, i, b)
  {
    BackLineShapes(r, i, b);
  }

  // ------------------------------------------------------------ one route

  /** The backends of two routes are printed alike only if everything before is. */
  lemma {:induction false} BacksAlike(p: Printer, a: seq<string>, r: SniRoute, n: nat, byId: Table, byName: Table,
                                      a': seq<string>, r': SniRoute, n': nat, byId': Table, byName': Table)
    requires Telling(p) && Lacks(a, 'b') && Lacks(a', 'b')
    requires n <= |r.matches| && Resolves(r, n, byId, byName) && n' <= |r'.matches| && Resolves(r', n', byId', byName')
    requires a + AllBackLines(p, r, n, byId, byName) == a' + AllBackLines(p, r', n', byId', byName')
    ensures n == n' && a == a'
    ensures forall i | 0 <= i < n :: p.name(r, i) == p.name(r', i)
              && ResolveBackend(r.matches[i], byId, byName).value.address
                 == ResolveBackend(r'.matches[i], byId', byName').value.address
    decreases n
  {
    if n == 0 || n' == 0 {
      NoBacks(p, a, r, n, byId, byName);
      NoBacks(p, a', r', n', byId', byName');
    } else {
      var b, b' := ResolveBackend(r.matches[n - 1], byId, byName).value,
          ResolveBackend(r'.matches[n' - 1], byId', byName').value;
      var x, x' := p.back(r, n - 1, b), p.back(r', n' - 1, b');
      BacksSplit(p, a, r, n, byId, byName, b);
      BacksSplit(p, a', r', n', byId', byName', b');
      LastBlock(a + AllBackLines(p, r, n - 1, byId, byName), x, a' + AllBackLines(p, r', n' - 1, byId', byName'), x',
                'b');
      BacksAlike(p, a, r, n - 1, byId, byName, a', r', n' - 1, byId', byName');
      assert BacksAgree(p, r, n - 1, b, r', n' - 1, b');
    }
  }

  lemma BacksSplit(p: Printer, a: seq<string>, r: SniRoute, n: nat, byId: Table, byName: Table, b: Backend)
    requires Telling(p) && 0 < n <= |r.matches| && Resolves(r, n, byId, byName)
    requires ResolveBackend(r.matches[n - 1], byId, byName) == Some(b)
    ensures a + AllBackLines(p, r, n, byId, byName) == (a + AllBackLines(p, r, n - 1, byId, byName))
            + p.back(r, n - 1, b)
    ensures Headed(p.back(r, n - 1, b), 'b')
  {
    assert BackIs(p, r, n - 1, b);
  }

  /** A line of a backend is there if and only if there is a backend. */
  lemma NoBacks(p: Printer, a: seq<string>, r: SniRoute, n: nat, byId: Table, byName: Table)
    requires Telling(p) && Lacks(a, 'b') && n <= |r.matches| && Resolves(r, n, byId, byName)
    ensures n == 0 <==> Lacks(a + AllBackLines(p, r, n, byId, byName), 'b')
    ensures n == 0 ==> a + AllBackLines(p, r, n, byId, byName) == a
  {
    if n > 0 {
      var b := ResolveBackend(r.matches[n - 1], byId, byName).value;
      var x := p.back(r, n - 1, b);
      assert BackIs(p, r, n - 1, b);
      assert x[0] in x;
      assert x[0] in a + AllBackLines(p, r, n, byId, byName);
    }
  }

  lemma {:induction false} UseLinesAre(p: Printer, r: SniRoute, n: nat)
    requires Telling(p) && n <= |r.matches|
    ensures Lacks(UseLines(p, r, n), 'f') && Lacks(UseLines(p, r, n), 'b')
    ensures forall l | l in UseLines(p, r, n) :: exists j :: 0 <= j < n && l == p.use(r, j, r.matches[j])
  {
    if n > 0 {
      UseLinesAre(p, r, n - 1);
      assert UseIs(p, r, n - 1, r.matches[n - 1]);
    }
  }

  ghost predicate HostAlike(m: SniMatch, m': SniMatch) {
    m.isDefault == m'.isDefault && (!m.isDefault ==> m.host == m'.host)
  }

  /** The hostname rules of two routes are printed alike only if the matches are. */
  lemma {:induction false} UsesAlike(p: Printer, r: SniRoute, r': SniRoute, n: nat)
    requires Telling(p) && n <= |r.matches| && n <= |r'.matches|
    requires forall i | 0 <= i < n :: p.name(r, i) == p.name(r', i)
    requires UseLines(p, r, n) == UseLines(p, r', n)
    ensures forall i | 0 <= i < n :: HostAlike(r.matches[i], r'.matches[i])
  {
    if n > 0 {
      if r.matches[n - 1].isDefault != r'.matches[n - 1].isDefault {
        if r.matches[n - 1].isDefault {
          UseIsNew(p, r', r, n);
        } else {
          UseIsNew(p, r, r', n);
        }
      } else {
        var l, l' := UseLines(p, r, n), UseLines(p, r', n);
        if r.matches[n - 1].isDefault {
          assert l == UseLines(p, r, n - 1) && l' == UseLines(p, r', n - 1);
        } else {
          assert l[..|l| - 1] == UseLines(p, r, n - 1) && l'[..|l'| - 1] == UseLines(p, r', n - 1);
          assert l[|l| - 1] == l'[|l'| - 1];
          assert UsesAgree(p, r, n - 1, r.matches[n - 1], r', n - 1, r'.matches[n - 1]);
        }
        UsesAlike(p, r, r', n - 1);
      }
    }
  }

  /** A rule is not among the rules of earlier matches. */
  lemma UseIsNew(p: Printer, r: SniRoute, r': SniRoute, n: nat)
    requires Telling(p) && 0 < n <= |r.matches| && n <= |r'.matches|
    requires forall i | 0 <= i < n :: p.name(r, i) == p.name(r', i)
    requires !r.matches[n - 1].isDefault
    ensures UseLines(p, r, n) != UseLines(p, r', n - 1)
  {
    var l := p.use(r, n - 1, r.matches[n - 1]);
    var lines := UseLines(p, r, n);
    assert lines[|lines| - 1] == l && l in lines;
    UseLinesAre(p, r', n - 1);
    forall j | 0 <= j < n - 1 ensures l != p.use(r', j, r'.matches[j]) {
      assert NamesAgree(p, r, n - 1, r, j);
      assert UsesAgree(p, r, n - 1, r.matches[n - 1], r', j, r'.matches[j]);
    }
  }

  lemma {:induction false} AlikeUses(p: Printer, r: SniRoute, r': SniRoute, n: nat)
    requires Telling(p) && n <= |r.matches| && n <= |r'.matches|
    requires forall i | 0 <= i < n :: p.name(r, i) == p.name(r', i) && HostAlike(r.matches[i], r'.matches[i])
    ensures UseLines(p, r, n) == UseLines(p, r', n) && DefaultName(p, r, n) == DefaultName(p, r', n)
  {
    if n > 0 {
      AlikeUses(p, r, r', n - 1);
      assert UsesAgree(p, r, n - 1, r.matches[n - 1], r', n - 1, r'.matches[n - 1]);
    }
  }

  lemma {:induction false} AlikeBacks(p: Printer, r: SniRoute, byId: Table, byName: Table, r': SniRoute, byId': Table,
                                      byName': Table, n: nat)
    requires Telling(p) && n <= |r.matches| && n <= |r'.matches| && Resolves(r, n, byId, byName)
             && Resolves(r', n, byId', byName')
    requires forall i | 0 <= i < n :: p.name(r, i) == p.name(r', i)
               && ResolveBackend(r.matches[i], byId, byName).value.address
                  == ResolveBackend(r'.matches[i], byId', byName').value.address
    ensures AllBackLines(p, r, n, byId, byName) == AllBackLines(p, r', n, byId', byName')
  {
    if n > 0 {
      AlikeBacks(p, r, byId, byName, r', byId', byName', n - 1);
      assert BacksAgree(p, r, n - 1, ResolveBackend(r.matches[n - 1], byId, byName).value,
                        r', n - 1, ResolveBackend(r'.matches[n - 1], byId', byName').value);
    }
  }

  /** What a route prints before its backends. */
  function Frontend(p: Printer, r: SniRoute): (res: seq<string>) {
    p.front(r) + UseLines(p, r, |r.matches|) + p.fallback(DefaultName(p, r, |r.matches|))
  }

  lemma FrontendParts(p: Printer, r: SniRoute)
    requires Telling(p)
    ensures Lacks(Frontend(p, r), 'b') && Headed(Frontend(p, r), 'f') && |Frontend(p, r)| >= 7
    ensures Frontend(p, r)[..5] == p.front(r) && Frontend(p, r)[5..|Frontend(p, r)| - 2] == UseLines(p, r, |r.matches|)
  {
    UseLinesAre(p, r, |r.matches|);
    assert FrontIs(p, r) && FallbackIs(p, DefaultName(p, r, |r.matches|));
    var f, u, d := p.front(r), UseLines(p, r, |r.matches|), p.fallback(DefaultName(p, r, |r.matches|));
    forall i | 1 <= i < |f + u + d| ensures !Starts((f + u + d)[i], 'f') {
      assert (f + u + d)[i] == if i < 5 then f[i] else if i < 5 + |u| then u[i - 5] else d[i - 5 - |u|];
      assert i >= 5 && i < 5 + |u| ==> u[i - 5] in u;
      assert i >= 5 + |u| ==> d[i - 5 - |u|] in d;
    }
  }

  /** Two routes are printed with the same lines if and only if they are alike. */
  lemma RouteLinesEqualIff(p: Printer, r: SniRoute, byId: Table, byName: Table, r': SniRoute, byId': Table,
                           byName': Table)
    requires Telling(p) && RouteLines(p, r, byId, byName).Some? && RouteLines(p, r', byId', byName').Some?
    ensures RouteLines(p, r, byId, byName) == RouteLines(p, r', byId', byName')
            <==> RouteAlike(r, r', byId, byName, byId', byName')
  {
    var n, n' := |r.matches|, |r'.matches|;
    FrontendParts(p, r);
    FrontendParts(p, r');
    assert FrontsAgree(p, r, r');
    if RouteLines(p, r, byId, byName) == RouteLines(p, r', byId', byName') {
      BacksAlike(p, Frontend(p, r), r, n, byId, byName, Frontend(p, r'), r', n', byId', byName');
      UsesAlike(p, r, r', n);
      assert n > 0;
      assert NamesAgree(p, r, 0, r', 0);
      forall i | 0 <= i < n ensures MatchAlike(r.matches[i], r'.matches[i], byId, byName, byId', byName') {
        assert HostAlike(r.matches[i], r'.matches[i]);
      }
    }
    if RouteAlike(r, r', byId, byName, byId', byName') {
      forall i | 0 <= i < n ensures p.name(r, i) == p.name(r', i) && HostAlike(r.matches[i], r'.matches[i]) {
        assert NamesAgree(p, r, i, r', i) && MatchAlike(r.matches[i], r'.matches[i], byId, byName, byId', byName');
      }
      forall i | 0 <= i < n
        ensures ResolveBackend(r.matches[i], byId, byName).value.address
                == ResolveBackend(r'.matches[i], byId', byName').value.address
      {
        assert MatchAlike(r.matches[i], r'.matches[i], byId, byName, byId', byName');
      }
      AlikeUses(p, r, r', n);
      AlikeBacks(p, r, byId, byName, r', byId', byName', n);
    }
  }

  // ------------------------------------------------------------ all routes

  lemma RouteLinesAreHeaded(p: Printer, r: SniRoute, byId: Table, byName: Table)
    requires Telling(p) && RouteLines(p, r, byId, byName).Some?
    ensures Headed(RouteLines(p, r, byId, byName).value, 'f')
  {
    FrontendParts(p, r);
    BacksLack(p, r, |r.matches|, byId, byName);
    var f, b := Frontend(p, r), AllBackLines(p, r, |r.matches|, byId, byName);
    forall i | 1 <= i < |f + b| ensures !Starts((f + b)[i], 'f') {
      assert (f + b)[i] == if i < |f| then f[i] else b[i - |f|];
      assert i >= |f| ==> b[i - |f|] in b;
    }
  }

  lemma {:induction false} BacksLack(p: Printer, r: SniRoute, n: nat, byId: Table, byName: Table)
    requires Telling(p) && n <= |r.matches| && Resolves(r, n, byId, byName)
    ensures Lacks(AllBackLines(p, r, n, byId, byName), 'f')
  {
    if n > 0 {
      BacksLack(p, r, n - 1, byId, byName);
      assert BackIs(p, r, n - 1, ResolveBackend(r.matches[n - 1], byId, byName).value);
    }
  }

  ghost predicate AllResolve(routes: seq<SniRoute>, byId: Table, byName: Table) {
    forall i | 0 <= i < |routes| :: Resolves(routes[i], |routes[i].matches|, byId, byName)
  }

  /** Routes that are printed alike, one by one. */
  ghost predicate RoutesAlike(a: seq<SniRoute>, byId: Table, byName: Table, b: seq<SniRoute>, byId': Table,
                              byName': Table)
    requires AllResolve(a, byId, byName) && AllResolve(b, byId', byName')
  {
    |a| == |b| && forall i | 0 <= i < |a| :: RouteAlike(a[i], b[i], byId, byName, byId', byName')
  }

  lemma {:induction false} PrintedResolve(p: Printer, routes: seq<SniRoute>, byId: Table, byName: Table)
    requires AllRouteLines(p, routes, byId, byName).Some?
    ensures AllResolve(routes, byId, byName)
  {
    if routes != [] {
      var n := |routes| - 1;
      PrintedResolve(p, routes[..n], byId, byName);
      forall i | 0 <= i < |routes| ensures Resolves(routes[i], |routes[i].matches|, byId, byName) {
        assert i < n ==> routes[..n][i] == routes[i];
      }
    }
  }

  /** All routes are printed with the same lines if and only if they are alike one by one. */
  lemma {:induction false} AllRouteLinesEqualIff(p: Printer, a: seq<SniRoute>, byId: Table, byName: Table,
                                                 b: seq<SniRoute>, byId': Table, byName': Table)
    requires Telling(p) && AllRouteLines(p, a, byId, byName).Some? && AllRouteLines(p, b, byId', byName').Some?
    requires AllResolve(a, byId, byName) && AllResolve(b, byId', byName')
    ensures AllRouteLines(p, a, byId, byName) == AllRouteLines(p, b, byId', byName')
            <==> RoutesAlike(a, byId, byName, b, byId', byName')
    decreases |a|
  {
    if a == [] || b == [] {
      LinesIffRoutes(p, a, byId, byName);
      LinesIffRoutes(p, b, byId', byName');
    } else {
      var n, n' := |a| - 1, |b| - 1;
      PrintedResolve(p, a[..n], byId, byName);
      PrintedResolve(p, b[..n'], byId', byName');
      var la, lb := AllRouteLines(p, a[..n], byId, byName).value, AllRouteLines(p, b[..n'], byId', byName').value;
      var x, y := RouteLines(p, a[n], byId, byName).value, RouteLines(p, b[n'], byId', byName').value;
      RouteLinesAreHeaded(p, a[n], byId, byName);
      RouteLinesAreHeaded(p, b[n'], byId', byName');
      if la + x == lb + y {
        LastBlock(la, x, lb, y, 'f');
      }
      AllRouteLinesEqualIff(p, a[..n], byId, byName, b[..n'], byId', byName');
      RouteLinesEqualIff(p, a[n], byId, byName, b[n'], byId', byName');
      AlikeSnoc(a, byId, byName, b, byId', byName');
    }
  }

  lemma LinesIffRoutes(p: Printer, a: seq<SniRoute>, byId: Table, byName: Table)
    requires Telling(p) && AllRouteLines(p, a, byId, byName).Some?
    ensures a == [] <==> AllRouteLines(p, a, byId, byName).value == []
  {
    if a != [] {
      RouteLinesAreHeaded(p, a[|a| - 1], byId, byName);
    }
  }

  lemma AlikeSnoc(a: seq<SniRoute>, byId: Table, byName: Table, b: seq<SniRoute>, byId': Table, byName': Table)
    requires a != [] && b != [] && AllResolve(a, byId, byName) && AllResolve(b, byId', byName')
    requires AllResolve(a[..|a| - 1], byId, byName) && AllResolve(b[..|b| - 1], byId', byName')
    ensures RoutesAlike(a, byId, byName, b, byId', byName')
            <==> RoutesAlike(a[..|a| - 1], byId, byName, b[..|b| - 1], byId', byName')
                 && RouteAlike(a[|a| - 1], b[|b| - 1], byId, byName, byId', byName')
  {
    if RoutesAlike(a, byId, byName, b, byId', byName') {
      var a', b' := a[..|a| - 1], b[..|b| - 1];
      forall i | 0 <= i < |a'| ensures RouteAlike(a'[i], b'[i], byId, byName, byId', byName') {
        assert RouteAlike(a[i], b[i], byId, byName, byId', byName');
      }
    }
    if RoutesAlike(a[..|a| - 1], byId, byName, b[..|b| - 1], byId', byName')
        && RouteAlike(a[|a| - 1], b[|b| - 1], byId, byName, byId', byName') {
      forall i | 0 <= i < |a| ensures RouteAlike(a[i], b[i], byId, byName, byId', byName') {
        if i < |a| - 1 {
          assert RouteAlike(a[..|a| - 1][i], b[..|b| - 1][i], byId, byName, byId', byName');
        }
      }
    }
  }

  // --------------------------------------------------------------- the block

  /** Two configurations give the same block. */
  ghost predicate Alike(a: seq<SniRoute>, backends: seq<Backend>, b: seq<SniRoute>, backends': seq<Backend>)
    requires Rendered(a, backends).Some? && a != [] && Rendered(b, backends').Some? && b != []
  {
    var byId, byName, byId', byName' := ByKey(backends, R.BackendId), ByKey(backends, BackendName),
                                        ByKey(backends', R.BackendId), ByKey(backends', BackendName);
    PrintedResolve(PRINTER, a, byId, byName);
    PrintedResolve(PRINTER, b, byId', byName');
    R.Digest(a) == R.Digest(b) && RoutesAlike(a, byId, byName, b, byId', byName')
  }

  /** Two blocks are the same text if and only if their digests are the same and their routes
      are alike, one by one: hostnames, order, and addresses of backends. */
  lemma RenderedEqualIff(a: seq<SniRoute>, backends: seq<Backend>, b: seq<SniRoute>, backends': seq<Backend>)
    requires Rendered(a, backends).Some? && a != [] && Rendered(b, backends').Some? && b != []
    requires TameConfig(a, backends) && TameConfig(b, backends')
    ensures Rendered(a, backends) == Rendered(b, backends') <==> Alike(a, backends, b, backends')
  {
    var byId, byName, byId', byName' := ByKey(backends, R.BackendId), ByKey(backends, BackendName),
                                        ByKey(backends', R.BackendId), ByKey(backends', BackendName);
    PrintedResolve(PRINTER, a, byId, byName);
    PrintedResolve(PRINTER, b, byId', byName');
    PrinterIsTelling();
    AllRouteLinesEqualIff(PRINTER, a, byId, byName, b, byId', byName');
    var lines, lines' := AllRouteLines(PRINTER, a, byId, byName).value, AllRouteLines(PRINTER, b, byId', byName').value;
    BlocksEqualIff(a, backends, lines, b, backends', lines');
  }

  lemma BlocksEqualIff(a: seq<SniRoute>, backends: seq<Backend>, lines: seq<string>, b: seq<SniRoute>,
                       backends': seq<Backend>, lines': seq<string>)
    requires a != [] && b != [] && TameConfig(a, backends) && TameConfig(b, backends')
    requires AllRouteLines(PRINTER, a, ByKey(backends, R.BackendId), ByKey(backends, BackendName)) == Some(lines)
    requires AllRouteLines(PRINTER, b, ByKey(backends', R.BackendId), ByKey(backends', BackendName)) == Some(lines')
    ensures Rendered(a, backends) == Rendered(b, backends') <==> R.Digest(a) == R.Digest(b) && lines == lines'
  {
    if Rendered(a, backends) == Rendered(b, backends') {
      var block := Rendered(a, backends).value;
      var l := RenderedLines(a, backends, block);
      var l' := RenderedLines(b, backends', block);
      FramesEqual(BEGIN, GENERATED, DIGEST_PREFIX + " ", R.Digest(a), l, END, R.Digest(b), l');
    }
  }

  lemma FramesEqual(begin: string, note: string, prefix: string, digest: string, lines: seq<string>, end: string,
                    digest': string, lines': seq<string>)
    requires [begin] + ([note, prefix + digest] + lines) + [end] == [begin] + ([note, prefix + digest'] + lines')
             + [end]
    ensures digest == digest' && lines == lines'
  {
    var f, f' := [begin] + ([note, prefix + digest] + lines) + [end],
        [begin] + ([note, prefix + digest'] + lines') + [end];
    assert f[2] == prefix + digest && f'[2] == prefix + digest';
    CancelLeft(prefix, digest, digest');
    assert |f| == |lines| + 4 && |f'| == |lines'| + 4;
    assert lines == f[3..|f| - 1] && lines' == f'[3..|f'| - 1];
  }

  /** The file holds the block that was written for some routes. A plan has nothing to do for
      HAProxy if and only if the digest is that of the routes wanted now; the block is then the
      one that would be written now if and only if the two are printed alike. */
  lemma EmptyPlanMeansCurrentIff(a: seq<SniRoute>, backends: seq<Backend>, b: seq<SniRoute>, backends': seq<Backend>,
                                 parsed: seq<SniRoute>)
    requires Rendered(a, backends).Some? && a != [] && Rendered(b, backends').Some? && b != []
    requires TameConfig(a, backends) && TameConfig(b, backends')
    ensures R.HaproxySteps(b, R.Digest(a), parsed) == [] <==> R.Digest(b) == R.Digest(a)
    ensures R.HaproxySteps(b, R.Digest(a), parsed) == [] ==>
              (Rendered(b, backends') == Rendered(a, backends) <==> Alike(a, backends, b, backends'))
  {
    DigestIsQuiet(a);
    RenderedEqualIff(a, backends, b, backends');
  }

  /** The same match leads to the same address with either list of backends. */
  predicate SameAddress(m: SniMatch, backends: seq<Backend>, backends': seq<Backend>) {
    AddressOf(m, backends) == AddressOf(m, backends')
  }

  function AddressOf(m: SniMatch, backends: seq<Backend>): (address: Option<string>) {
    var b := ResolveBackend(m, ByKey(backends, R.BackendId), ByKey(backends, BackendName));
    if b.None? then None else Some(b.value.address)
  }

  /** If only backends have changed, a plan never has anything to do for HAProxy; but the block
      is still the right one if and only if no match leads to another address than before. */
  lemma MovedBackendsGoUnnoticed(routes: seq<SniRoute>, backends: seq<Backend>, backends': seq<Backend>,
                                 parsed: seq<SniRoute>)
    requires routes != [] && Rendered(routes, backends).Some? && Rendered(routes, backends').Some?
    requires TameConfig(routes, backends) && TameConfig(routes, backends')
    ensures R.HaproxySteps(routes, R.Digest(routes), parsed) == []
    ensures Rendered(routes, backends') == Rendered(routes, backends)
            <==> forall i, j | 0 <= i < |routes| && 0 <= j < |routes[i].matches| ::
                SameAddress(routes[i].matches[j], backends, backends')
  {
    DigestIsQuiet(routes);
    RenderedEqualIff(routes, backends, routes, backends');
    var byId, byName, byId', byName' := ByKey(backends, R.BackendId), ByKey(backends, BackendName),
                                        ByKey(backends', R.BackendId), ByKey(backends', BackendName);
    PrintedResolve(PRINTER, routes, byId, byName);
    PrintedResolve(PRINTER, routes, byId', byName');
    forall i | 0 <= i < |routes|
      ensures RouteAlike(routes[i], routes[i], byId, byName, byId', byName')
              <==> forall j | 0 <= j < |routes[i].matches| :: SameAddress(routes[i].matches[j], backends, backends')
    {
      SameRouteAlikeIff(routes[i], backends, backends', byId, byName, byId', byName');
    }
  }

  lemma SameRouteAlikeIff(r: SniRoute, backends: seq<Backend>, backends': seq<Backend>, byId: Table, byName: Table,
                          byId': Table, byName': Table)
    requires byId == ByKey(backends, R.BackendId) && byName == ByKey(backends, BackendName)
    requires byId' == ByKey(backends', R.BackendId) && byName' == ByKey(backends', BackendName)
    requires Resolves(r, |r.matches|, byId, byName) && Resolves(r, |r.matches|, byId', byName')
    ensures RouteAlike(r, r, byId, byName, byId', byName')
            <==> forall j | 0 <= j < |r.matches| :: SameAddress(r.matches[j], backends, backends')
  {
    forall j | 0 <= j < |r.matches|
      ensures MatchAlike(r.matches[j], r.matches[j], byId, byName, byId', byName')
              <==> SameAddress(r.matches[j], backends, backends')
    {
    }
  }

  // ------------------------------------------------------ exchanged matches

  /** Two routes that exchange the matches of two hostnames. */
  function Exchanged(a: SniRoute, b: SniRoute): (routes: seq<SniRoute>) {
    [a.(matches := b.matches), b.(matches := a.matches)]
  }

  /** Blocks whose first routes serve different hostnames first are different. */
  lemma FirstHostShows(a: seq<SniRoute>, b: seq<SniRoute>, backends: seq<Backend>)
    requires a != [] && b != [] && TameConfig(a, backends) && TameConfig(b, backends)
    requires Rendered(a, backends).Some? && Rendered(b, backends).Some?
    requires a[0].matches != [] && b[0].matches != [] && !a[0].matches[0].isDefault
             && a[0].matches[0].host != b[0].matches[0].host
    ensures Rendered(a, backends) != Rendered(b, backends)
  {
    RenderedEqualIff(a, backends, b, backends);
    var byId, byName := ByKey(backends, R.BackendId), ByKey(backends, BackendName);
    PrintedResolve(PRINTER, a, byId, byName);
    PrintedResolve(PRINTER, b, byId, byName);
    assert !MatchAlike(a[0].matches[0], b[0].matches[0], byId, byName, byId, byName);
    assert !RouteAlike(a[0], b[0], byId, byName, byId, byName);
  }

  lemma ExchangedIsTame(a: SniRoute, b: SniRoute, backends: seq<Backend>)
    requires TameConfig([a, b], backends)
    ensures TameConfig(Exchanged(a, b), backends)
  {
    assert [a, b][0] == a && [a, b][1] == b;
    assert TameRoute(a) && TameRoute(b);
  }

  /** Exchanging the matches of two routes with equally many gives the same digest, so that a
      plan has nothing to do for HAProxy; but if the first hostnames differ the block in the
      file is not the one that is wanted: that hostname is served on the other address. */
  lemma ExchangeGoesUnnoticed(a: SniRoute, b: SniRoute, backends: seq<Backend>, parsed: seq<SniRoute>)
    requires |a.matches| == |b.matches| > 0 && !a.matches[0].isDefault && !b.matches[0].isDefault
             && a.matches[0].host != b.matches[0].host
    requires TameConfig([a, b], backends) && Rendered([a, b], backends).Some?
             && Rendered(Exchanged(a, b), backends).Some?
    ensures R.HaproxySteps(Exchanged(a, b), R.Digest([a, b]), parsed) == []
    ensures Rendered(Exchanged(a, b), backends) != Rendered([a, b], backends)
  {
    var routes := Exchanged(a, b);
    R.ExchangeKeepsDigest(a, b);
    ExchangedIsTame(a, b, backends);
    DigestIsQuiet(routes);
    FirstHostShows([a, b], routes, backends);
  }

  /** A route for one hostname, with a default. */
  function Serving(id: string, listen: string, host: string, backendId: string): (r: SniRoute) {
    SniRoute(id, listen, [SniMatch(host, false, backendId, ""), SniMatch("", true, backendId, "")])
  }

  lemma ServingIsValid(r: SniRoute, id: string, listen: string, host: string, b: Backend, checks: H.RouteChecks)
    requires r == Serving(id, listen, host, b.id) && b.id != "" && host != "" && Tame(listen) && Tame(host)
             && Tame(b.id)
    requires checks.listen(listen) && checks.hostname(host)
    ensures H.ValidRoute(r, checks) && TameRoute(r)
    ensures Renderable(r, ByKey([b], R.BackendId), ByKey([b], BackendName))
  {
    assert r.matches[1..] == [r.matches[1]] && r.matches[1..][1..] == [];
    assert H.Defaults(r.matches[1..]) == H.Defaults([]) + 1;
    ByKeyHolds([b], R.BackendId, 0);
    assert R.BackendId([b][0]) == b.id;
    assert r.matches[1] in r.matches;
  }

  const WEB := Backend("b", "web", "1.0.0.2")

  /** A concrete pair of valid routes: the plan made after they have exchanged their hostnames
      has nothing to do for HAProxy, although hostname "x" is wanted on port 2 now and the file
      still serves it on port 1. */
  lemma DigestMissesExchangedMatches(a: SniRoute, b: SniRoute, backends: seq<Backend>, parsed: seq<SniRoute>,
                                     checks: H.RouteChecks)
    requires a == Serving("p", ":1", "x", "b") && b == Serving("q", ":2", "y", "b") && backends == [WEB]
    requires checks.listen(":1") && checks.listen(":2") && checks.hostname("x") && checks.hostname("y")
    ensures Exchanged(a, b) == [Serving("p", ":1", "y", "b"), Serving("q", ":2", "x", "b")]
    ensures forall r | r in [a, b] + Exchanged(a, b) :: H.ValidRoute(r, checks)
    ensures Rendered([a, b], backends).Some? && Rendered(Exchanged(a, b), backends).Some?
    ensures R.HaproxySteps(Exchanged(a, b), R.Digest([a, b]), parsed) == []
    ensures Rendered(Exchanged(a, b), backends) != Rendered([a, b], backends)
  {
    var c, d := Serving("p", ":1", "y", "b"), Serving("q", ":2", "x", "b");
    ServingIsValid(a, "p", ":1", "x", WEB, checks);
    ServingIsValid(b, "q", ":2", "y", WEB, checks);
    ServingIsValid(c, "p", ":1", "y", WEB, checks);
    ServingIsValid(d, "q", ":2", "x", WEB, checks);
    ExchangedServing(a, b, c, d, WEB, backends, parsed, checks);
  }

  lemma ExchangedServing(a: SniRoute, b: SniRoute, c: SniRoute, d: SniRoute, web: Backend, backends: seq<Backend>,
                         parsed: seq<SniRoute>, checks: H.RouteChecks)
    requires backends == [web] && Tame(web.address) && Exchanged(a, b) == [c, d]
    requires forall r | r in [a, b, c, d] :: H.ValidRoute(r, checks) && TameRoute(r)
               && Renderable(r, ByKey([web], R.BackendId), ByKey([web], BackendName))
    requires |a.matches| == |b.matches| > 0 && !a.matches[0].isDefault && !b.matches[0].isDefault
             && a.matches[0].host != b.matches[0].host
    ensures forall r | r in [a, b] + Exchanged(a, b) :: H.ValidRoute(r, checks)
    ensures Rendered([a, b], backends).Some? && Rendered(Exchanged(a, b), backends).Some?
    ensures R.HaproxySteps(Exchanged(a, b), R.Digest([a, b]), parsed) == []
    ensures Rendered(Exchanged(a, b), backends) != Rendered([a, b], backends)
  {
    var all := [a, b, c, d];
    assert all[0] == a && all[1] == b && all[2] == c && all[3] == d;
    assert a in all && b in all && c in all && d in all;
    PairIsRenderable(a, b, web);
    PairIsRenderable(c, d, web);
    ExchangeGoesUnnoticed(a, b, backends, parsed);
  }

  lemma PairIsRenderable(a: SniRoute, b: SniRoute, backend: Backend)
    requires TameRoute(a) && TameRoute(b) && Tame(backend.address)
    requires Renderable(a, ByKey([backend], R.BackendId), ByKey([backend], BackendName))
    requires Renderable(b, ByKey([backend], R.BackendId), ByKey([backend], BackendName))
    ensures Rendered([a, b], [backend]).Some? && TameConfig([a, b], [backend])
  {
    RefusedIff([a, b], [backend]);
  }
}
