/** What discovery reads back of a managed block (internal/haproxy/manager.go:286-331,
    379-394). */
module HaproxyRead {
  import opened Model
  import opened Text
  import opened MarkedText
  import opened HaproxyText
  import opened HaproxyBlock
  import R = Reconcile

  // ------------------------------------------------------------------ digest

  /** The value of the first line that starts like a digest comment. */
  function DigestIn(lines: seq<string>): (r: string) {
    if lines == [] then ""
    else
      var line := Trim(lines[0]);
      if DIGEST_PREFIX <= line then Trim(line[|DIGEST_PREFIX|..])
      else if LEGACY_DIGEST_PREFIX <= line then Trim(line[|LEGACY_DIGEST_PREFIX|..])
      else DigestIn(lines[1..])
  }

  function ParseDigestComment(managed: string): (r: string) { DigestIn(Split(managed, '\n')) }

  // ----------------------------------------------------------------- parsing

  function CutPrefix(s: string, prefix: string): (r: string) {
    if prefix <= s then s[|prefix|..] else s
  }

  function TrimFrontendName(name: string): (r: string) {
    CutPrefix(CutPrefix(name, FRONT_PREFIX), LEGACY_FRONT_PREFIX)
  }

  function TrimBraces(s: string): (r: string) {
    if s != "" && s[|s| - 1] == '}' then TrimBraces(s[..|s| - 1]) else s
  }

  /** What the words of one line do to the routes read so far. A line that consists of the
      word `frontend` alone makes the program index past the end of its words: None. */
  function ParseFields(routes: seq<SniRoute>, fs: seq<string>): (r: Option<seq<SniRoute>>) {
    var n := |routes| - 1;
    if fs == [] then Some(routes)
    else if fs[0] == "frontend" then
      if |fs| < 2 then None else Some(routes + [SniRoute(TrimFrontendName(fs[1]), "", [])])
    else if fs[0] == "bind" then
      Some(if routes != [] && |fs| > 1 then routes[n := routes[n].(listen := fs[1])] else routes)
    else if fs[0] == "use_backend" then
      Some(if routes != [] && |fs| >= 8 then WithMatch(routes, SniMatch(TrimBraces(fs[|fs| - 1]), false, "", fs[1]))
           else routes)
    else if fs[0] == "default_backend" then
      Some(if routes != [] && |fs| > 1 then WithMatch(routes, SniMatch("", true, "", fs[1])) else routes)
    else Some(routes)
  }

  function WithMatch(routes: seq<SniRoute>, m: SniMatch): (r: seq<SniRoute>)
    requires routes != []
  {
    var n := |routes| - 1;
    routes[n := routes[n].(matches := routes[n].matches + [m])]
  }

  function ParseLine(routes: seq<SniRoute>, line: string): (r: Option<seq<SniRoute>>) {
    ParseFields(routes, Fields(Trim(line)))
  }

  type Reader = (seq<SniRoute>, string) -> Option<seq<SniRoute>>

  function ReadLines(read: Reader, routes: seq<SniRoute>, lines: seq<string>): (r: Option<seq<SniRoute>>)
    decreases |lines|
  {
    if lines == [] then Some(routes)
    else
      var next := read(routes, lines[0]);
      if next.None? then None else ReadLines(read, next.value, lines[1..])
  }

  function Parsed(managed: string): (r: Option<seq<SniRoute>>) {
    if managed == "" then Some([]) else ReadLines(ParseLine, [], Split(managed, '\n'))
  }

  /** A line that is the word `frontend` alone. */
  predicate IsBareFrontend(line: string) { Fields(Trim(line)) == ["frontend"] }

  /** A section that cannot be read: some line of it is the word `frontend` alone. */
  predicate Crashes(managed: string) {
    managed != "" && exists l | l in Split(managed, '\n') :: IsBareFrontend(l)
  }

  lemma LineFailsIff(routes: seq<SniRoute>, line: string)
    ensures ParseLine(routes, line).None? <==> IsBareFrontend(line)
  {
    var fs := Fields(Trim(line));
    assert |fs| == 1 ==> fs == [fs[0]];
  }

  lemma {:induction false} ReadingFailsIff(routes: seq<SniRoute>, lines: seq<string>)
    ensures ReadLines(ParseLine, routes, lines).None? <==> exists l | l in lines :: IsBareFrontend(l)
    decreases |lines|
  {
    if lines != [] {
      LineFailsIff(routes, lines[0]);
      var next := ParseLine(routes, lines[0]);
      assert lines == [lines[0]] + lines[1..];
      if next.Some? {
        ReadingFailsIff(next.value, lines[1..]);
      }
    }
  }

  /** Reading a section fails if and only if some line of it is the word `frontend` alone. */
  lemma ParsingFailsIff(managed: string)
    ensures Parsed(managed).None? <==> Crashes(managed)
  {
    if managed != "" {
      ReadingFailsIff([], Split(managed, '\n'));
    }
  }

  method ParseManaged(managed: string) returns (routes: Option<seq<SniRoute>>)
    ensures routes == Parsed(managed)
    ensures routes.None? <==> Crashes(managed)
  {
    ParsingFailsIff(managed);
    if managed == "" {
      return Some([]);
    }
    var lines := Split(managed, '\n');
    var read: seq<SniRoute> := [];
    for i := 0 to |lines|
      invariant ReadLines(ParseLine, [], lines) == ReadLines(ParseLine, read, lines[i..])
    {
      var fs := Fields(Trim(lines[i]));
      var next := ParseFields(read, fs);
      assert next == ParseLine(read, lines[i]);
      assert lines[i..][1..] == lines[i + 1..];
      if next.None? {
        return None;
      }
      read := next.value;
    }
    return Some(read);
  }

  // ------------------------------------------------------- lines of the block

  lemma {:induction false} SplitOfLines(lines: seq<string>, last: string)
    requires (forall l | l in lines :: '\n' !in l) && '\n' !in last
    ensures Split(Unlines(lines) + last, '\n') == lines + [last]
  {
    if lines == [] {
      R.SplitWithoutSeparator(last, '\n');
      assert "" + last == last;
    } else {
      var rest := Unlines(lines[1..]) + last;
      assert Unlines(lines) + last == lines[0] + ['\n'] + rest;
      assert lines[0] in lines && forall l | l in lines[1..] :: l in lines;
      SplitUpToSeparator(lines[0], '\n', rest);
      SplitOfLines(lines[1..], last);
      assert [lines[0]] + (lines[1..] + [last]) == lines + [last];
    }
  }

  /** The lines of the block, as a managed section without its last newline splits into them. */
  lemma LinesOfBlock(mid: seq<string>)
    requires forall l | l in mid :: '\n' !in l
    ensures var block := Unlines([BEGIN] + mid + [END]);
            block != "" && Split(block[..|block| - 1], '\n') == [BEGIN] + mid + [END]
  {
    MarkersAreMarkers();
    LastLine([BEGIN] + mid, END);
  }

  lemma LastLine(lines: seq<string>, last: string)
    requires (forall l | l in lines :: '\n' !in l) && '\n' !in last
    ensures var block := Unlines(lines + [last]);
            block != "" && Split(block[..|block| - 1], '\n') == lines + [last]
  {
    UnlinesOfTail(lines, last);
    var block := Unlines(lines + [last]);
    assert block == Unlines(lines) + last + "\n";
    assert block[..|block| - 1] == Unlines(lines) + last;
    SplitOfLines(lines, last);
  }

  // ------------------------------------------------------ reading back digests

  lemma DigestSkips(line: string, lines: seq<string>)
    requires Trimmed(line) && |line| > 2 && line[2] != 't' && line[2] != 'p'
    ensures DigestIn([line] + lines) == DigestIn(lines)
  {
    TrimOfTrimmed(line);
    assert DIGEST_PREFIX[2] == 't' && LEGACY_DIGEST_PREFIX[2] == 'p';
    assert ([line] + lines)[1..] == lines;
  }

  lemma DigestFound(prefix: string, digest: string, lines: seq<string>)
    requires prefix == DIGEST_PREFIX && Trimmed(digest) && digest != ""
    ensures DigestIn([prefix + " " + digest] + lines) == digest
  {
    var line := prefix + " " + digest;
    assert prefix[0] == '#' && |prefix| > 0;
    assert line[0] == prefix[0] && line[|line| - 1] == digest[|digest| - 1];
    TrimOfTrimmed(line);
    assert line[|prefix|..] == " " + digest + "";
    TrimIsUnique(" " + digest + "", " ", digest, "");
  }

  lemma DigestOfLines(begin: string, generated: string, prefix: string, digest: string, lines: seq<string>, end: string)
    requires begin == BEGIN && generated == GENERATED && prefix == DIGEST_PREFIX
    requires Trimmed(digest) && digest != ""
    ensures DigestIn([begin] + ([generated, prefix + " " + digest] + lines) + [end]) == digest
  {
    MarkerShapes(begin, generated);
    var digestLine, rest := prefix + " " + digest, lines + [end];
    assert [begin] + ([generated, digestLine] + lines) + [end] == [begin] + ([generated] + ([digestLine] + rest));
    DigestSkips(begin, [generated] + ([digestLine] + rest));
    DigestSkips(generated, [digestLine] + rest);
    DigestFound(prefix, digest, rest);
  }

  lemma MarkerShapes(begin: string, generated: string)
    requires begin == BEGIN && generated == GENERATED
    ensures Trimmed(begin) && |begin| > 2 && begin[2] == 'B' && Trimmed(generated) && |generated| > 2
            && generated[2] == 'G'
  {
    CurrentMarkers();
    assert GENERATED[0] == '#' && GENERATED[|GENERATED| - 1] == '.';
  }

  /** The digest read from a rendered block is the digest of its routes. */
  lemma DigestIsReadBack(routes: seq<SniRoute>, backends: seq<Backend>, block: string)
    requires TameConfig(routes, backends) && routes != [] && Rendered(routes, backends) == Some(block)
    ensures block != "" && ParseDigestComment(block[..|block| - 1]) == R.Digest(routes) && R.Digest(routes) != ""
  {
    var lines := RenderedLines(routes, backends, block);
    DigestIsQuiet(routes);
    DigestOfLines(BEGIN, GENERATED, DIGEST_PREFIX, R.Digest(routes), lines, END);
  }

  /** The lines of a rendered block. */
  lemma RenderedLines(routes: seq<SniRoute>, backends: seq<Backend>, block: string) returns (lines: seq<string>)
    requires TameConfig(routes, backends) && routes != [] && Rendered(routes, backends) == Some(block)
    ensures AllRouteLines(PRINTER, routes, ByKey(backends, R.BackendId), ByKey(backends, BackendName)) == Some(lines)
    ensures block != "" && Split(block[..|block| - 1], '\n') == [BEGIN] + MidLines(routes, lines) + [END]
  {
    lines := RouteLinesAreQuiet(routes, backends);
    MidLinesAreLines(routes, lines);
    LinesOfBlock(MidLines(routes, lines));
  }

  lemma MidLinesAreLines(routes: seq<SniRoute>, lines: seq<string>)
    requires (forall r | r in routes :: TameRoute(r)) && forall l | l in lines :: Quiet(l)
    ensures forall l | l in MidLines(routes, lines) :: '\n' !in l
  {
    DigestIsQuiet(routes);
    HeadersAreFree(routes);
    forall l | l in MidLines(routes, lines) ensures '\n' !in l {
      if l in lines {
        QuietIsFree(l);
      }
    }
  }

  // ------------------------------------------------------ reading back routes

  lemma {:induction false} ReadConcat(read: Reader, routes: seq<SniRoute>, a: seq<string>, b: seq<string>)
    ensures ReadLines(read, routes, a + b)
            == if ReadLines(read, routes, a).None? then None else ReadLines(read, ReadLines(read, routes, a).value, b)
    decreases |a|
  {
    if a == [] {
      assert a + b == b;
    } else {
      assert (a + b)[1..] == a[1..] + b;
      if read(routes, a[0]).Some? {
        ReadConcat(read, read(routes, a[0]).value, a[1..], b);
      }
    }
  }

  lemma ReadOne(read: Reader, routes: seq<SniRoute>, line: string)
    ensures ReadLines(read, routes, [line]) == read(routes, line)
  {
    assert [line][1..] == [];
  }

  /** How the parts of a route are to be read. */
  ghost predicate Reads(read: Reader, p: Printer, r: SniRoute, head: SniRoute) {
    && head.matches == []
    && (forall before :: ReadLines(read, before, p.front(r)) == Some(before + [head]))
    && (forall before, i: nat, m | m in r.matches && !m.isDefault && before != [] ::
          ReadLines(read, before, [p.use(r, i, m)]) == Some(WithMatch(before, SniMatch("", false, "", p.name(r, i)))))
    && (forall before, i: nat | before != [] ::
          ReadLines(read, before, p.fallback(p.name(r, i)))
              == Some(WithMatch(before, SniMatch("", true, "", p.name(r, i)))))
    && (forall before, i: nat, b: Backend | Tame(b.address) :: ReadLines(read, before, p.back(r, i, b)) == Some(before))
  }

  /** The hostname rules as they are read: the backends' names, but no hostname. */
  function ReadMatches(p: Printer, r: SniRoute, n: nat): (res: seq<SniMatch>)
    requires n <= |r.matches|
  {
    if n == 0 then []
    else ReadMatches(p, r, n - 1) + (if r.matches[n - 1].isDefault then []
                                     else [SniMatch("", false, "", p.name(r, n - 1))])
  }

  function ReadRoute(p: Printer, r: SniRoute, head: SniRoute): (res: SniRoute) {
    head.(matches := ReadMatches(p, r, |r.matches|) + [SniMatch("", true, "", DefaultName(p, r, |r.matches|))])
  }

  lemma {:induction false} UsesAreRead(read: Reader, p: Printer, r: SniRoute, head: SniRoute, before: seq<SniRoute>,
                                       n: nat)
    requires Reads(read, p, r, head) && n <= |r.matches|
    ensures ReadLines(read, before + [head], UseLines(p, r, n))
            == Some(before + [head.(matches := ReadMatches(p, r, n))])
  {
    if n > 0 {
      var m := r.matches[n - 1];
      assert m in r.matches;
      UsesAreRead(read, p, r, head, before, n - 1);
      var now := before + [head.(matches := ReadMatches(p, r, n - 1))];
      if m.isDefault {
        assert UseLines(p, r, n - 1) + [] == UseLines(p, r, n - 1);
        assert ReadMatches(p, r, n - 1) + [] == ReadMatches(p, r, n - 1);
      } else {
        ReadConcat(read, before + [head], UseLines(p, r, n - 1), [p.use(r, n - 1, m)]);
        assert WithMatch(now, SniMatch("", false, "", p.name(r, n - 1)))
            == before + [head.(matches := ReadMatches(p, r, n - 1) + [SniMatch("", false, "", p.name(r, n - 1))])];
      }
    }
  }

  ghost predicate TameTable(table: Table) {
    forall id | id in table :: Tame(table[id].address)
  }

  lemma {:induction false} BacksAreRead(read: Reader, p: Printer, r: SniRoute, head: SniRoute, now: seq<SniRoute>,
                                        n: nat, byId: Table, byName: Table)
    requires Reads(read, p, r, head) && n <= |r.matches| && Resolves(r, n, byId, byName) && TameTable(byId)
             && TameTable(byName)
    ensures ReadLines(read, now, AllBackLines(p, r, n, byId, byName)) == Some(now)
  {
    if n > 0 {
      BacksAreRead(read, p, r, head, now, n - 1, byId, byName);
      ReadConcat(read, now, AllBackLines(p, r, n - 1, byId, byName),
                 p.back(r, n - 1, ResolveBackend(r.matches[n - 1], byId, byName).value));
    }
  }

  lemma RouteIsRead(read: Reader, p: Printer, r: SniRoute, head: SniRoute, before: seq<SniRoute>, byId: Table,
                    byName: Table)
    requires Reads(read, p, r, head) && RouteLines(p, r, byId, byName).Some? && TameTable(byId) && TameTable(byName)
    ensures ReadLines(read, before, RouteLines(p, r, byId, byName).value) == Some(before + [ReadRoute(p, r, head)])
  {
    var n := |r.matches|;
    var a, b, c, d := p.front(r), UseLines(p, r, n), p.fallback(DefaultName(p, r, n)),
        AllBackLines(p, r, n, byId, byName);
    DefaultIsNamed(p, r, n);
    var i: nat :| DefaultName(p, r, n) == p.name(r, i);
    ReadConcat(read, before, a + b + c, d);
    ReadConcat(read, before, a + b, c);
    ReadConcat(read, before, a, b);
    UsesAreRead(read, p, r, head, before, n);
    var now := before + [head.(matches := ReadMatches(p, r, n))];
    assert WithMatch(now, SniMatch("", true, "", p.name(r, i))) == before + [ReadRoute(p, r, head)];
    BacksAreRead(read, p, r, head, before + [ReadRoute(p, r, head)], n, byId, byName);
  }

  function ReadRoutes(p: Printer, routes: seq<SniRoute>, head: SniRoute -> SniRoute): (r: seq<SniRoute>) {
    if routes == [] then []
    else ReadRoutes(p, routes[..|routes| - 1], head) + [ReadRoute(p, routes[|routes| - 1], head(routes[|routes| - 1]))]
  }

  lemma {:induction false} RoutesAreRead(read: Reader, p: Printer, routes: seq<SniRoute>, head: SniRoute -> SniRoute,
                                         byId: Table, byName: Table)
    requires (forall r | r in routes :: Reads(read, p, r, head(r))) && AllRouteLines(p, routes, byId, byName).Some?
    requires TameTable(byId) && TameTable(byName)
    ensures ReadLines(read, [], AllRouteLines(p, routes, byId, byName).value) == Some(ReadRoutes(p, routes, head))
  {
    if routes != [] {
      var n := |routes| - 1;
      RoutesAreRead(read, p, routes[..n], head, byId, byName);
      ReadConcat(read, [], AllRouteLines(p, routes[..n], byId, byName).value,
                 RouteLines(p, routes[n], byId, byName).value);
      RouteIsRead(read, p, routes[n], head(routes[n]), ReadRoutes(p, routes[..n], head), byId, byName);
    }
  }

  // -------------------------------------------------------- the words of a line

  lemma WordsOfLine(tokens: seq<string>)
    requires AllClean(tokens)
    ensures Fields(Trim(Join(tokens))) == tokens && Fields(Trim(Indented(tokens))) == tokens
  {
    JoinIsTrimmed(tokens);
    TrimOfTrimmed(Join(tokens));
    assert Indented(tokens) == "    " + Join(tokens) + "";
    TrimPadded("    ", Join(tokens), "");
    FieldsOfJoin(tokens);
  }

  lemma TameIsClean(s: string)
    requires Tame(s) && s != ""
    ensures Clean(s)
  {
  }

  predicate Keyword(w: string) {
    w == "frontend" || w == "bind" || w == "use_backend" || w == "default_backend"
  }

  lemma OtherWords(tokens: seq<string>, before: seq<SniRoute>)
    requires AllClean(tokens) && tokens != [] && !Keyword(tokens[0])
    ensures ParseLine(before, Join(tokens)) == Some(before) && ParseLine(before, Indented(tokens)) == Some(before)
  {
    WordsOfLine(tokens);
  }

  lemma NoKeywords()
    ensures !Keyword("mode") && !Keyword("tcp-request") && !Keyword("backend") && !Keyword("server")
  {
    assert "mode"[0] == 'm' && "tcp-request"[0] == 't' && "backend"[1] == 'a' && "bind"[1] == 'i' && "server"[0] == 's';
  }

  lemma FixedLinesAreSkipped(before: seq<SniRoute>)
    ensures ParseLine(before, MODE) == Some(before)
    ensures ParseLine(before, DELAY) == Some(before)
    ensures ParseLine(before, HELLO) == Some(before)
  {
    ModeIsSkipped(before);
    DelayIsSkipped(before);
    HelloIsSkipped(before);
  }

  lemma ModeIsSkipped(before: seq<SniRoute>)
    ensures ParseLine(before, MODE) == Some(before)
  {
    NoKeywords();
    OtherWords(["mode", "tcp"], before);
  }

  lemma DelayIsSkipped(before: seq<SniRoute>)
    ensures ParseLine(before, DELAY) == Some(before)
  {
    NoKeywords();
    OtherWords(["tcp-request", "inspect-delay", "5s"], before);
  }

  lemma HelloWordsAreClean()
    ensures AllClean(HELLO_WORDS) && HELLO_WORDS[0] == "tcp-request"
  {
  }

  lemma HelloIsSkipped(before: seq<SniRoute>)
    ensures ParseLine(before, HELLO) == Some(before)
  {
    NoKeywords();
    HelloWordsAreClean();
    OtherWords(HELLO_WORDS, before);
  }

  lemma ReadMany(read: Reader, before: seq<SniRoute>, a: string, b: string, rest: seq<string>)
    ensures ReadLines(read, before, [a, b] + rest)
            == if read(before, a).None? then None
               else if read(read(before, a).value, b).None? then None
               else ReadLines(read, read(read(before, a).value, b).value, rest)
  {
    ReadConcat(read, before, [a, b], rest);
    ReadConcat(read, before, [a], [b]);
    assert [a, b] == [a] + [b];
    ReadOne(read, before, a);
    if read(before, a).Some? {
      ReadOne(read, read(before, a).value, b);
    }
  }

  /** The route as its head is read: the frontend's name and the listen address. */
  function Head(r: SniRoute): (res: SniRoute) {
    SniRoute(TrimFrontendName(FrontName(r)), r.listen, [])
  }

  lemma FrontIsRead(r: SniRoute, before: seq<SniRoute>)
    requires Tame(r.listen) && r.listen != ""
    ensures ReadLines(ParseLine, before, FrontLines(r)) == Some(before + [Head(r)])
  {
    NamesAreTame(r, 0);
    TameIsClean(FrontName(r));
    TameIsClean(r.listen);
    var one := before + [SniRoute(TrimFrontendName(FrontName(r)), "", [])];
    FrontendWord(FrontName(r), before);
    BindWord(r.listen, one);
    assert one[|before| := one[|before|].(listen := r.listen)] == before + [Head(r)];
    FixedLinesAreSkipped(before + [Head(r)]);
    FiveLines(ParseLine, before, Join(["frontend", FrontName(r)]), Indented(["bind", r.listen]), MODE, DELAY, HELLO,
              before + [Head(r)]);
  }

  lemma FiveLines(read: Reader, before: seq<SniRoute>, a: string, b: string, c: string, d: string, e: string,
                  after: seq<SniRoute>)
    requires read(before, a).Some? && read(read(before, a).value, b) == Some(after)
    requires read(after, c) == Some(after) && read(after, d) == Some(after) && read(after, e) == Some(after)
    ensures ReadLines(read, before, [a, b, c, d, e]) == Some(after)
  {
    assert [a, b, c, d, e] == [a, b] + ([c, d] + [e]);
    ReadMany(read, before, a, b, [c, d] + [e]);
    ReadMany(read, after, c, d, [e]);
    ReadOne(read, after, e);
  }

  lemma FrontendWord(name: string, before: seq<SniRoute>)
    requires Clean(name)
    ensures ParseLine(before, Join(["frontend", name])) == Some(before + [SniRoute(TrimFrontendName(name), "", [])])
  {
    WordsOfLine(["frontend", name]);
  }

  lemma BindWord(listen: string, before: seq<SniRoute>)
    requires Clean(listen) && before != []
    ensures ParseLine(before, Indented(["bind", listen]))
            == Some(before[|before| - 1 := before[|before| - 1].(listen := listen)])
  {
    WordsOfLine(["bind", listen]);
    assert "bind" != "frontend";
  }

  lemma UseIsRead(r: SniRoute, i: nat, m: SniMatch, before: seq<SniRoute>)
    requires Tame(m.host) && m.host != "" && before != []
    ensures ReadLines(ParseLine, before, [UseLine(r, i, m)])
            == Some(WithMatch(before, SniMatch("", false, "", BackName(r, i))))
  {
    NamesAreTame(r, i);
    TameIsClean(BackName(r, i));
    TameIsClean(m.host);
    UseWords(BackName(r, i), m.host, before);
    ReadOne(ParseLine, before, UseLine(r, i, m));
  }

  /** The last word of such a line is the closing brace, so no hostname is read. */
  lemma UseWords(name: string, host: string, before: seq<SniRoute>)
    requires Clean(name) && Clean(host) && before != []
    ensures ParseLine(before, Indented(["use_backend", name, "if", "{", "req_ssl_sni", "-i", host, "}"]))
            == Some(WithMatch(before, SniMatch("", false, "", name)))
  {
    var tokens := ["use_backend", name, "if", "{", "req_ssl_sni", "-i", host, "}"];
    assert AllClean(tokens);
    WordsOfLine(tokens);
    assert TrimBraces("}") == "" by { assert "}"[..0] == ""; }
    assert tokens[0] != "frontend" && tokens[0] != "bind";
  }

  lemma FallbackWords(tokens: seq<string>, name: string, before: seq<SniRoute>)
    requires tokens == ["default_backend", name] && Clean(name) && before != []
    ensures ParseLine(before, Indented(tokens)) == Some(WithMatch(before, SniMatch("", true, "", name)))
  {
    WordsOfLine(tokens);
    assert tokens[0] != "frontend" && tokens[0] != "bind" && tokens[0] != "use_backend";
  }

  lemma BlankIsSkipped(before: seq<SniRoute>)
    ensures ParseLine(before, "") == Some(before)
  {
  }

  lemma TwoLines(read: Reader, before: seq<SniRoute>, a: string, b: string, after: seq<SniRoute>)
    requires read(before, a) == Some(after) && read(after, b) == Some(after)
    ensures ReadLines(read, before, [a, b]) == Some(after)
  {
    assert [a, b] == [a, b] + [];
    ReadMany(read, before, a, b, []);
  }

  lemma FallbackIsRead(name: string, before: seq<SniRoute>)
    requires Clean(name) && before != []
    ensures ReadLines(ParseLine, before, DefaultLines(name)) == Some(WithMatch(before, SniMatch("", true, "", name)))
  {
    var tokens, after := ["default_backend", name], WithMatch(before, SniMatch("", true, "", name));
    FallbackWords(tokens, name, before);
    BlankIsSkipped(after);
    TwoLines(ParseLine, before, Indented(tokens), "", after);
  }

  lemma BackendLineIsSkipped(name: string, before: seq<SniRoute>)
    requires Clean(name)
    ensures ParseLine(before, Join(["backend", name])) == Some(before)
  {
    NoKeywords();
    OtherWords(["backend", name], before);
  }

  lemma ServerLineIsSkipped(target: string, before: seq<SniRoute>)
    requires Clean(target)
    ensures ParseLine(before, Indented(["server", "s1", target])) == Some(before)
  {
    NoKeywords();
    OtherWords(["server", "s1", target], before);
  }

  lemma FourSkipped(read: Reader, before: seq<SniRoute>, a: string, b: string, c: string, d: string)
    requires read(before, a) == read(before, b) == read(before, c) == read(before, d) == Some(before)
    ensures ReadLines(read, before, [a, b, c, d]) == Some(before)
  {
    assert [a, b, c, d] == [a, b] + ([c, d] + []);
    ReadMany(read, before, a, b, [c, d] + []);
    ReadMany(read, before, c, d, []);
  }

  lemma BackIsSkipped(r: SniRoute, i: nat, b: Backend, before: seq<SniRoute>)
    requires Tame(b.address)
    ensures ReadLines(ParseLine, before, BackLines(r, i, b)) == Some(before)
  {
    NamesAreTame(r, i);
    TameIsClean(BackName(r, i));
    TameConcat(b.address, ":443");
    TameIsClean(b.address + ":443");
    BackendLineIsSkipped(BackName(r, i), before);
    ServerLineIsSkipped(b.address + ":443", before);
    ModeIsSkipped(before);
    FourSkipped(ParseLine, before, Join(["backend", BackName(r, i)]), MODE,
                Indented(["server", "s1", b.address + ":443"]), "");
  }

  /** Routes whose printed form has a word in every place. */
  predicate Complete(r: SniRoute) {
    TameRoute(r) && r.listen != "" && forall m | m in r.matches && !m.isDefault :: m.host != ""
  }

  lemma RouteReads(r: SniRoute)
    requires Complete(r)
    ensures Reads(ParseLine, PRINTER, r, Head(r))
  {
    forall before ensures ReadLines(ParseLine, before, FrontLines(r))
        == Some(before + [Head(r)]) { FrontIsRead(r, before); }
    forall before, i: nat, m | m in r.matches && !m.isDefault && before != []
      ensures ReadLines(ParseLine, before, [UseLine(r, i, m)])
              == Some(WithMatch(before, SniMatch("", false, "", BackName(r, i))))
    {
      assert TameMatch(m);
      UseIsRead(r, i, m, before);
    }
    forall before, i: nat | before != []
      ensures ReadLines(ParseLine, before, DefaultLines(BackName(r, i)))
              == Some(WithMatch(before, SniMatch("", true, "", BackName(r, i))))
    {
      NamesAreTame(r, i);
      TameIsClean(BackName(r, i));
      FallbackIsRead(BackName(r, i), before);
    }
    forall before, i: nat, b: Backend | Tame(b.address)
      ensures ReadLines(ParseLine, before, BackLines(r, i, b)) == Some(before)
    {
      BackIsSkipped(r, i, b, before);
    }
  }

  lemma CommentIsSkipped(line: string, before: seq<SniRoute>)
    requires Trimmed(line) && line != "" && line[0] == '#'
    ensures ParseLine(before, line) == Some(before)
  {
    TrimOfTrimmed(line);
    var w := Fields(line)[0];
    assert w[0] == '#';
    assert "frontend"[0] == 'f' && "bind"[0] == 'b' && "use_backend"[0] == 'u' && "default_backend"[0] == 'd';
  }

  /** Reading a rendered block gives one route for each route rendered, in order, with its
      name, its listen address and its backends' names; but the hostnames are lost. */
  lemma RoutesAreReadBack(routes: seq<SniRoute>, backends: seq<Backend>, block: string)
    requires TameConfig(routes, backends) && routes != [] && Rendered(routes, backends) == Some(block)
    requires forall r | r in routes :: Complete(r)
    ensures block != "" && Parsed(block[..|block| - 1]) == Some(ReadRoutes(PRINTER, routes, Head))
  {
    var byId, byName := ByKey(backends, R.BackendId), ByKey(backends, BackendName);
    var lines := RenderedLines(routes, backends, block);
    ByKeyKeys(backends, R.BackendId);
    ByKeyKeys(backends, BackendName);
    forall r | r in routes ensures Reads(ParseLine, PRINTER, r, Head(r)) { RouteReads(r); }
    RoutesAreRead(ParseLine, PRINTER, routes, Head, byId, byName);
    DigestIsQuiet(routes);
    FrameIsSkipped(ParseLine, BEGIN, GENERATED, DIGEST_PREFIX, R.Digest(routes), lines, END,
                   ReadRoutes(PRINTER, routes, Head));
  }

  lemma FrameIsSkipped(read: Reader, begin: string, generated: string, prefix: string, digest: string,
                       lines: seq<string>, end: string, routes: seq<SniRoute>)
    requires read == ParseLine && begin == BEGIN && generated == GENERATED && prefix == DIGEST_PREFIX && end == END
    requires Trimmed(digest) && digest != "" && ReadLines(read, [], lines) == Some(routes)
    ensures ReadLines(read, [], [begin] + ([generated, prefix + " " + digest] + lines) + [end]) == Some(routes)
  {
    MarkerShapes(begin, generated);
    CurrentMarkers();
    var digestLine := prefix + " " + digest;
    assert prefix[0] == '#' && digestLine[0] == '#' && digestLine[|digestLine| - 1] == digest[|digest| - 1];
    CommentIsSkipped(begin, []);
    CommentIsSkipped(generated, []);
    CommentIsSkipped(digestLine, []);
    CommentIsSkipped(end, routes);
    SkippedAround(read, begin, generated, digestLine, lines, end, routes);
  }

  lemma SkippedAround(read: Reader, a: string, b: string, c: string, lines: seq<string>, e: string,
                      routes: seq<SniRoute>)
    requires read([], a) == read([], b) == read([], c) == Some([])
    requires ReadLines(read, [], lines) == Some(routes) && read(routes, e) == Some(routes)
    ensures ReadLines(read, [], [a] + ([b, c] + lines) + [e]) == Some(routes)
  {
    assert [a] + ([b, c] + lines) + [e] == [a, b] + ([c] + (lines + [e]));
    ReadMany(read, [], a, b, [c] + (lines + [e]));
    ReadConcat(read, [], [c], lines + [e]);
    ReadOne(read, [], c);
    ReadConcat(read, [], lines, [e]);
    ReadOne(read, routes, e);
  }

  lemma {:induction false} ReadRoutesAt(p: Printer, routes: seq<SniRoute>, head: SniRoute -> SniRoute, i: nat)
    requires i < |routes|
    ensures |ReadRoutes(p, routes, head)| == |routes|
            && ReadRoutes(p, routes, head)[i] == ReadRoute(p, routes[i], head(routes[i]))
  {
    var n := |routes| - 1;
    if i < n {
      ReadRoutesAt(p, routes[..n], head, i);
    } else if n > 0 {
      ReadRoutesAt(p, routes[..n], head, n - 1);
    }
  }

  // ------------------------------------------------------- a fatal section

  const BARE_FRONTEND := "frontend"

  /** The markers on lines of their own and the word `frontend` between them. */
  function FatalBlock(): (block: string) { Unlines([BEGIN] + [BARE_FRONTEND] + [END]) }

  lemma BareWord(word: string)
    requires word == BARE_FRONTEND
    ensures IsBareFrontend(word) && Quiet(word)
  {
    assert Clean(word) && Trimmed(word);
    TrimOfTrimmed(word);
    WordOf(word, "");
    assert word + "" == word && word[..|word|] == word && word[|word|..] == "";
    assert Join([word]) == word;
    FieldsOfJoin([word]);
  }

  lemma CrashesAt(managed: string, lines: seq<string>, i: nat)
    requires Split(managed, '\n') == lines && i < |lines| && |lines| > 1 && IsBareFrontend(lines[i])
    ensures Crashes(managed)
  {
    assert Split("", '\n') == [""];
    assert lines[i] in lines;
  }

  lemma FatalIsBlock(word: string, block: string)
    requires Quiet(word) && block == Unlines([BEGIN] + [word] + [END])
    ensures ManagedBlock(block)
  {
    MarkersAreMarkers();
    QuietIsFree(word);
    PrintedBlock([word], BEGIN, END);
  }

  lemma FatalCrashes(word: string, block: string)
    requires IsBareFrontend(word) && Quiet(word) && block == Unlines([BEGIN] + [word] + [END])
    ensures block != "" && Crashes(block[..|block| - 1])
  {
    LinesOfBlock([word]);
    CrashesAt(block[..|block| - 1], [BEGIN] + [word] + [END], 1);
  }

  /** A block alone is what is written under an empty text. */
  lemma BlockAlone(b: string, block: string)
    requires Block(block, b, END) && Marker(b) && b[0] != '\n'
    ensures JoinConfig("", block) == block
  {
    assert At(block, b, 0);
    assert block[0] == block[0..0 + |b|][0] == b[0];
  }

  lemma EmptyIsFree(b: string, e: string)
    requires Marker(b) && Marker(e)
    ensures Free("", b, e)
  {
    ContainsIffAt("", b);
    ContainsIffAt("", e);
  }

  /** A file that consists of that block can be split, but its section cannot be read. */
  lemma FatalFile(block: string)
    requires block == FatalBlock()
    ensures SplitManaged(block).Sections? && Crashes(SplitManaged(block).managed)
  {
    BareWord(BARE_FRONTEND);
    FatalIsBlock(BARE_FRONTEND, block);
    FatalCrashes(BARE_FRONTEND, block);
    MarkersAreMarkers();
    EmptyIsFree(BEGIN, END);
    BlockAlone(BEGIN, block);
    ReadBackIffFree("", block);
  }
}
