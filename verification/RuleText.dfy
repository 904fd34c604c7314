/** How firewall rules are written and read back (internal/firewall/iptables.go and
    manager.go): comments and specs are recovered from the text of saved rules. */
module RuleText {
  import opened Model
  import opened Text
  import opened Tables
  import R = Reconcile

  const LEGACY_MAPPING_PREFIX := "proxyctl:mapping:"
  const NEEDLE := "--comment "
  const SPEC_NEEDLE := "comment "

  predicate Managed(comment: string) {
    R.MAPPING_PREFIX <= comment || LEGACY_MAPPING_PREFIX <= comment
  }

  // ------------------------------------------------------------- reading

  /** The comment of a saved rule: what follows the first `--comment `, up to the closing
      quotation mark if it opens one, else up to white space. */
  function ParseComment(line: string): (r: string) {
    var i := Index(line, NEEDLE);
    if i < 0 then ""
    else
      var rest := Trim(line[i + |NEEDLE|..]);
      if rest != "" && rest[0] == '"' && Index(rest[1..], "\"") >= 0 then rest[1..][..Index(rest[1..], "\"")]
      else FirstField(if rest != "" && rest[0] == '"' then rest[1..] else rest)
  }

  function FirstField(s: string): (r: string) {
    var fields := Fields(s);
    if fields == [] then "" else fields[0]
  }

  /** The tokens of a saved rule; quotation marks group and are dropped. */
  function Scan(s: string, cur: string, quoted: bool): (r: seq<string>) {
    if s == "" then (if cur == "" then [] else [cur])
    else if s[0] == '"' then Scan(s[1..], cur, !quoted)
    else if s[0] == ' ' && !quoted then (if cur == "" then [] else [cur]) + Scan(s[1..], "", quoted)
    else Scan(s[1..], cur + [s[0]], quoted)
  }

  function Tokens(line: string): (r: seq<string>) {
    Scan(line, "", false)
  }

  method SplitArgs(line: string) returns (out: seq<string>)
    ensures out == Tokens(line)
  {
    out := [];
    var cur, quoted := "", false;
    for i := 0 to |line|
      invariant out + Scan(line[i..], cur, quoted) == Tokens(line)
    {
      var c := line[i];
      assert line[i..][0] == c && line[i..][1..] == line[i + 1..];
      if c == '"' {
        quoted := !quoted;
      } else if c == ' ' && !quoted {
        if |cur| > 0 {
          out, cur := out + [cur], "";
        }
      } else {
        cur := cur + [c];
      }
    }
    if |cur| > 0 {
      out := out + [cur];
    }
  }

  /** What the flags of a rule said last. */
  datatype Flags = Flags(proto: string, dport: int, dest: string)

  function ReadFlags(fields: seq<string>, n: nat): (r: Flags)
    requires n <= |fields|
  {
    if n == 0 then Flags("", 0, "")
    else
      var f := ReadFlags(fields, n - 1);
      if n == |fields| then f
      else if fields[n - 1] == "-p" then f.(proto := ToUpper(fields[n]))
      else if fields[n - 1] == "--dport" then f.(dport := AtoiOrZero(fields[n]))
      else if fields[n - 1] == "--to-destination" then f.(dest := fields[n])
      else f
  }

  /** The comparable form of a saved rule. */
  function SpecOfLine(line: string, comment: string): (r: string) {
    if !Managed(comment) then line
    else
      var f := ReadFlags(Fields(line), |Fields(line)|);
      if f.proto != "" && f.dport > 0 && f.dest != ""
      then Join([f.proto, "dport", R.FormatInt(f.dport), "->", f.dest, "comment", comment])
      else line
  }

  method SpecFromSaveLine(line: string, comment: string) returns (spec: string)
    ensures spec == SpecOfLine(line, comment)
  {
    if !Managed(comment) {
      return line;
    }
    var proto, dport, dest := "", 0, "";
    var fields := Fields(line);
    for i := 0 to |fields|
      invariant Flags(proto, dport, dest) == ReadFlags(fields, i)
    {
      if i + 1 < |fields| {
        match fields[i] {
          case "-p" => proto := ToUpper(fields[i + 1]);
          case "--dport" => dport := AtoiOrZero(fields[i + 1]);
          case "--to-destination" => dest := fields[i + 1];
          case _ =>
        }
      }
    }
    if proto != "" && dport > 0 && dest != "" {
      return Join([proto, "dport", R.FormatInt(dport), "->", dest, "comment", comment]);
    }
    return line;
  }

  function CommentFromSpec(spec: string): (r: string) {
    var i := LastIndex(spec, SPEC_NEEDLE);
    if i < 0 then "" else Trim(spec[i + |SPEC_NEEDLE|..])
  }

  // ------------------------------------------------------------- writing

  /** The three places a mapping occupies. */
  datatype Kind = Dnat | Forward | Snat

  /** A mapping as its rules need it. */
  datatype Forwarding = Forwarding(proto: string, publicPort: nat, address: string, backendPort: nat, comment: string)

  predicate Port(p: int) { 1 <= p <= 65535 }

  function Octets(s: string): (r: seq<string>) { Split(s, '.') }

  predicate Octet(s: string) {
    && 1 <= |s| <= 3
    && (forall i | 0 <= i < |s| :: IsDigit(s[i]))
    && (|s| > 1 ==> s[0] != '0')
    && DigitsValue(s) <= 255
  }

  /** A usable IPv4 address in dotted form: four octets, neither 0.0.0.0 nor multicast. */
  predicate Ipv4(s: string) {
    var parts := Octets(s);
    && |parts| == 4
    && (forall i | 0 <= i < 4 :: Octet(parts[i]))
    && !(parts[0] == "0" && parts[1] == "0" && parts[2] == "0" && parts[3] == "0")
    && !(224 <= DigitsValue(parts[0]) <= 239)
  }

  /** A forwarding whose rules can be read back: a known protocol, ports in range, an
      address without surrounding white space and a managed comment of one token. */
  predicate Readable(f: Forwarding) {
    && (f.proto == "tcp" || f.proto == "udp")
    && Port(f.publicPort) && Port(f.backendPort)
    && Ipv4(f.address)
    && Clean(f.comment) && Managed(f.comment)
  }

  function Destination(f: Forwarding): (r: string) { f.address + ":" + Itoa(f.backendPort) }

  /** The arguments of a mapping's rule after `-A chain`. */
  function RuleArgs(kind: Kind, f: Forwarding): (r: seq<string>) {
    match kind
    case Dnat =>
      ["-p", f.proto, "-m", f.proto, "--dport", Itoa(f.publicPort),
       "-m", "comment", "--comment", f.comment,
       "-j", "DNAT", "--to-destination", Destination(f)]
    case Forward =>
      ["-p", f.proto, "-m", f.proto, "-d", f.address, "--dport", Itoa(f.backendPort),
       "-m", "comment", "--comment", f.comment,
       "-j", "ACCEPT"]
    case Snat =>
      ["-p", f.proto, "-m", f.proto, "-d", f.address, "--dport", Itoa(f.backendPort),
       "-m", "comment", "--comment", f.comment,
       "-j", "MASQUERADE"]
  }

  /** The rule as a chain holds it. */
  function RuleOf(kind: Kind, f: Forwarding): (r: string) { Join(RuleArgs(kind, f)) }

  /** The comparable form of the forwarding itself. */
  function SpecOf(f: Forwarding): (r: string) {
    R.RuleSpec(ToUpper(f.proto), f.publicPort, f.address, f.backendPort, f.comment)
  }

  /** What the agent sees of a rule in a chain. */
  function SeenComment(chain: string, rule: string): (r: string) { ParseComment(Trim(RuleLine(chain, rule))) }

  function SeenSpec(chain: string, rule: string): (r: string) {
    SpecOfLine(Trim(RuleLine(chain, rule)), SeenComment(chain, rule))
  }

  /** The arguments the agent would use to delete a rule it sees. */
  function SeenArgs(chain: string, rule: string): (r: Option<seq<string>>) {
    var tokens := Tokens(Trim(RuleLine(chain, rule)));
    if |tokens| < 2 then None else Some(tokens[2..])
  }

  // ------------------------------------------------------------ round trips

  lemma {:induction false} ScanWord(t: string, cur: string, rest: string)
    requires forall i | 0 <= i < |t| :: t[i] != ' ' && t[i] != '"'
    ensures Scan(t + rest, cur, false) == Scan(rest, cur + t, false)
  {
    if t == "" {
      assert t + rest == rest && cur + t == cur;
    } else {
      assert (t + rest)[0] == t[0] && (t + rest)[1..] == t[1..] + rest;
      ScanWord(t[1..], cur + [t[0]], rest);
      assert cur + [t[0]] + t[1..] == cur + t;
    }
  }

  /** Clean tokens survive being joined and split. */
  lemma {:induction false} TokensOfJoin(tokens: seq<string>)
    requires AllClean(tokens)
    ensures Tokens(Join(tokens)) == tokens
  {
    if tokens != [] {
      var t := tokens[0];
      assert Clean(t);
      if |tokens| == 1 {
        ScanWord(t, "", "");
        assert t + "" == t && "" + t == t;
      } else {
        var rest := " " + Join(tokens[1..]);
        ScanWord(t, "", rest);
        assert t + rest == t + " " + Join(tokens[1..]) && "" + t == t;
        assert rest[1..] == Join(tokens[1..]);
        TokensOfJoin(tokens[1..]);
      }
    }
  }

  predicate EndsWith(s: string, suffix: string) {
    |suffix| <= |s| && s[|s| - |suffix|..] == suffix
  }

  const FLAG := "--comment"

  /** In front of a token that does not end with the flag there is no occurrence of the
      needle, so a search may skip the token. */
  lemma IndexSkipsToken(t: string, rest: string)
    requires Clean(t) && !EndsWith(t, FLAG)
    requires Index(rest, NEEDLE) >= 0
    ensures Index(t + " " + rest, NEEDLE) == |t| + 1 + Index(rest, NEEDLE)
  {
    var s := t + " " + rest;
    var k := Index(rest, NEEDLE);
    IndexIsFirst(rest, NEEDLE);
    assert s[|t| + 1 + k..|t| + 1 + k + |NEEDLE|] == rest[k..k + |NEEDLE|];
    forall j | 0 <= j < |t| + 1 + k ensures !At(s, NEEDLE, j) {
      if j <= |t| {
        NoNeedleAcross(t, rest, j);
      } else {
        assert !At(rest, NEEDLE, j - |t| - 1);
        if j + |NEEDLE| <= |s| {
          assert s[j..j + |NEEDLE|] == rest[j - |t| - 1..j - |t| - 1 + |NEEDLE|];
        }
      }
    }
    IndexIs(s, NEEDLE, |t| + 1 + k);
  }

  lemma NoNeedleAcross(t: string, rest: string, j: nat)
    requires Clean(t) && !EndsWith(t, FLAG) && j <= |t|
    ensures !At(t + " " + rest, NEEDLE, j)
  {
    var s := t + " " + rest;
    assert NEEDLE[9] == ' ' && |NEEDLE| == 10 && NEEDLE[..9] == FLAG;
    assert forall i | 0 <= i < 9 :: NEEDLE[i] != ' ';
    assert forall i | 0 <= i < |t| :: s[i] == t[i] && t[i] != ' ';
    assert s[|t|] == ' ';
    if j + 10 <= |s| {
      if j + 9 < |t| {
        assert s[j..j + 10][9] == s[j + 9];
      } else if j + 9 == |t| {
        assert s[j..j + 10][..9] == t[j..];
      } else {
        assert s[j..j + 10][|t| - j] == ' ';
      }
    }
  }

  /** The needle is found where the first flag token is. */
  lemma {:induction false} IndexOfFlag(pre: seq<string>, comment: string, post: seq<string>)
    requires AllPlain(pre) && Clean(comment)
    ensures var line := Join(pre + ["--comment", comment] + post);
            var i := Index(line, NEEDLE);
            i >= 0 && line[i + |NEEDLE|..] == Join([comment] + post)
  {
    var tokens := pre + ["--comment", comment] + post;
    if pre == [] {
      assert tokens == ["--comment"] + ([comment] + post);
      assert tokens[1..] == [comment] + post;
      var line := Join(tokens);
      assert line == "--comment" + " " + Join([comment] + post);
      assert line[0..10] == NEEDLE;
      IndexIs(line, NEEDLE, 0);
    } else {
      var rest := pre[1..] + ["--comment", comment] + post;
      assert tokens == [pre[0]] + rest && tokens[1..] == rest;
      assert Plain(pre[0]);
      IndexOfFlag(pre[1..], comment, post);
      IndexSkipsToken(pre[0], Join(rest));
      var k := Index(Join(rest), NEEDLE);
      assert Join(tokens) == pre[0] + " " + Join(rest);
      assert Join(tokens)[|pre[0]| + 1 + k + |NEEDLE|..] == Join(rest)[k + |NEEDLE|..];
    }
  }

  /** The comment of a printed rule is its comment token. */
  lemma CommentOfLine(pre: seq<string>, comment: string, post: seq<string>)
    requires AllPlain(pre) && AllClean(post) && Clean(comment)
    ensures ParseComment(Join(pre + ["--comment", comment] + post)) == comment
  {
    IndexOfFlag(pre, comment, post);
    var tokens := [comment] + post;
    JoinIsTrimmed(tokens);
    TrimOfTrimmed(Join(tokens));
    FieldsOfJoin(tokens);
    assert Join(tokens)[0] == comment[0];
    CommentBehindNeedle(Join(pre + ["--comment", comment] + post), Join(tokens));
  }

  lemma CommentBehindNeedle(line: string, body: string)
    requires Index(line, NEEDLE) >= 0 && line[Index(line, NEEDLE) + |NEEDLE|..] == body
    requires Trim(body) == body && body != "" && body[0] != '"'
    ensures ParseComment(line) == FirstField(body)
  {
  }

  ghost predicate InSome(c: char, parts: seq<string>) {
    exists k :: 0 <= k < |parts| && c in parts[k]
  }

  lemma {:induction false} PartsAreIn(s: string, sep: char, i: nat)
    requires i < |s| && s[i] != sep
    ensures InSome(s[i], Split(s, sep))
  {
    var rest := Split(s[1..], sep);
    var all := Split(s, sep);
    if i == 0 {
      assert s[0] in all[0];
    } else {
      PartsAreIn(s[1..], sep, i - 1);
      var k :| 0 <= k < |rest| && s[i] in rest[k];
      if s[0] == sep {
        assert all[k + 1] == rest[k];
      } else if k == 0 {
        assert all[0] == [s[0]] + rest[0];
      } else {
        assert all[k] == rest[k];
      }
    }
  }

  /** An address is made of digits and dots. */
  lemma AddressIsClean(a: string)
    requires Ipv4(a)
    ensures a != "" && (forall i | 0 <= i < |a| :: IsDigit(a[i]) || a[i] == '.')
    ensures Clean(a) && !EndsWith(a, FLAG)
  {
    forall i | 0 <= i < |a| ensures IsDigit(a[i]) || a[i] == '.' {
      if a[i] != '.' {
        PartsAreIn(a, '.', i);
        var k :| 0 <= k < |Octets(a)| && a[i] in Octets(a)[k];
        assert Octet(Octets(a)[k]);
      }
    }
    DigitsDoNotEndWithFlag(a);
  }

  lemma DigitsDoNotEndWithFlag(a: string)
    requires a != "" && forall i | 0 <= i < |a| :: IsDigit(a[i]) || a[i] == '.'
    ensures !EndsWith(a, FLAG)
  {
    assert FLAG[8] == 't' && |FLAG| == 9;
    if |a| >= 9 {
      assert a[|a| - 9..][8] == a[|a| - 1];
    }
  }

  const CHAINS := ["TRANSITFORGE_DNAT", "TRANSITFORGE_FORWARD", "TRANSITFORGE_SNAT",
                   "PROXYCTL_DNAT", "PROXYCTL_FORWARD", "PROXYCTL_SNAT"]

  /** The listing of a mapping's rule, as tokens around its comment. */
  function Before(chain: string, kind: Kind, f: Forwarding): (r: seq<string>) {
    ["-A", chain, "-p", f.proto, "-m", f.proto]
    + (if kind.Dnat? then ["--dport", Itoa(f.publicPort)] else ["-d", f.address, "--dport", Itoa(f.backendPort)])
    + ["-m", "comment"]
  }

  function Behind(kind: Kind, f: Forwarding): (r: seq<string>) {
    match kind
    case Dnat => ["-j", "DNAT", "--to-destination", Destination(f)]
    case Forward => ["-j", "ACCEPT"]
    case Snat => ["-j", "MASQUERADE"]
  }

  lemma ArgsAroundComment(chain: string, kind: Kind, f: Forwarding)
    ensures ["-A", chain] + RuleArgs(kind, f) == Before(chain, kind, f) + ["--comment", f.comment] + Behind(kind, f)
  {
  }

  lemma LineTokens(chain: string, kind: Kind, f: Forwarding)
    ensures RuleLine(chain, RuleOf(kind, f)) == Join(["-A", chain] + RuleArgs(kind, f))
  {
    LineOfArgs(chain, RuleArgs(kind, f));
  }

  lemma LineOfArgs(chain: string, args: seq<string>)
    requires args != []
    ensures RuleLine(chain, Join(args)) == Join(["-A", chain] + args)
  {
    JoinAppend(["-A", chain], args);
    assert ["-A", chain][1..] == [chain];
  }

  ghost predicate Plain(t: string) { Clean(t) && !EndsWith(t, FLAG) }

  ghost predicate AllPlain(tokens: seq<string>) { forall i | 0 <= i < |tokens| :: Plain(tokens[i]) }

  lemma AllPlainAppend(a: seq<string>, b: seq<string>)
    requires AllPlain(a) && AllPlain(b)
    ensures AllPlain(a + b)
  {
  }

  lemma HeadIsPlain(chain: string, proto: string)
    requires chain in CHAINS && (proto == "tcp" || proto == "udp")
    ensures AllPlain(["-A", chain, "-p", proto, "-m", proto])
  {
    ChainsAreClean();
    assert Plain("-A") && Plain("-p") && Plain("-m") && Plain(proto);
  }

  lemma PortsArePlain(kind: Kind, f: Forwarding)
    requires Readable(f)
    ensures AllPlain(if kind.Dnat? then ["--dport", Itoa(f.publicPort)]
                     else ["-d", f.address, "--dport", Itoa(f.backendPort)])
  {
    AddressIsClean(f.address);
    DigitsDoNotEndWithFlag(Itoa(f.publicPort));
    DigitsDoNotEndWithFlag(Itoa(f.backendPort));
    assert Plain("--dport") && Plain("-d");
  }

  lemma BeforeIsPlain(chain: string, kind: Kind, f: Forwarding)
    requires chain in CHAINS && Readable(f)
    ensures AllPlain(Before(chain, kind, f))
  {
    var head := ["-A", chain, "-p", f.proto, "-m", f.proto];
    var mid := if kind.Dnat? then ["--dport", Itoa(f.publicPort)]
        else ["-d", f.address, "--dport", Itoa(f.backendPort)];
    HeadIsPlain(chain, f.proto);
    PortsArePlain(kind, f);
    assert AllPlain(["-m", "comment"]) by {
      assert Plain("-m") && Plain("comment");
    }
    AllPlainAppend(head, mid);
    AllPlainAppend(head + mid, ["-m", "comment"]);
  }

  lemma BehindIsClean(kind: Kind, f: Forwarding)
    requires Readable(f)
    ensures AllClean(Behind(kind, f))
  {
    AddressIsClean(f.address);
    assert Clean(Destination(f));
    assert Clean("-j") && Clean("DNAT") && Clean("ACCEPT") && Clean("MASQUERADE") && Clean("--to-destination");
  }

  lemma TokensAreClean(chain: string, kind: Kind, f: Forwarding)
    requires chain in CHAINS && Readable(f)
    ensures AllPlain(Before(chain, kind, f)) && AllClean(Behind(kind, f))
    ensures AllClean(["-A", chain] + RuleArgs(kind, f))
  {
    BeforeIsPlain(chain, kind, f);
    BehindIsClean(kind, f);
    ArgsAroundComment(chain, kind, f);
    assert Clean("--comment");
    AllCleanAppend(Before(chain, kind, f), ["--comment", f.comment]);
    AllCleanAppend(Before(chain, kind, f) + ["--comment", f.comment], Behind(kind, f));
  }

  lemma ChainsAreClean()
    ensures forall c | c in CHAINS :: Clean(c) && !EndsWith(c, FLAG)
  {
  }

  /** The agent reads back, from the listing of a rule it wrote, the rule's own comment and
      the arguments it wrote it with, in any of its chains. */
  lemma WrittenRuleIsReadBack(chain: string, kind: Kind, f: Forwarding)
    requires chain in CHAINS && Readable(f)
    ensures SeenComment(chain, RuleOf(kind, f)) == f.comment
    ensures SeenArgs(chain, RuleOf(kind, f)) == Some(RuleArgs(kind, f))
    ensures Trimmed(RuleLine(chain, RuleOf(kind, f)))
  {
    LineTokens(chain, kind, f);
    TokensAreClean(chain, kind, f);
    ArgsAroundComment(chain, kind, f);
    var tokens := ["-A", chain] + RuleArgs(kind, f);
    JoinIsTrimmed(tokens);
    TrimOfTrimmed(Join(tokens));
    CommentOfLine(Before(chain, kind, f), f.comment, Behind(kind, f));
    TokensOfJoin(tokens);
    assert tokens[2..] == RuleArgs(kind, f);
  }

  /** From a DNAT rule it wrote the agent reads back exactly the spec it compares with. */
  lemma WrittenSpecIsReadBack(chain: string, f: Forwarding)
    requires chain in CHAINS && Readable(f)
    ensures SeenSpec(chain, RuleOf(Dnat, f)) == SpecOf(f)
  {
    WrittenRuleIsReadBack(chain, Dnat, f);
    LineTokens(chain, Dnat, f);
    TokensAreClean(chain, Dnat, f);
    var tokens := ["-A", chain] + RuleArgs(Dnat, f);
    FieldsOfJoin(tokens);
    TrimOfTrimmed(Join(tokens));
    FlagsOfDnat(chain, f);
    assert f.publicPort > 0 && f.address != "";
  }

  lemma FlagsOfDnat(chain: string, f: Forwarding)
    requires chain in CHAINS && Readable(f)
    ensures var tokens := ["-A", chain] + RuleArgs(Dnat, f);
            ReadFlags(tokens, |tokens|) == Flags(ToUpper(f.proto), f.publicPort, Destination(f))
  {
    var t := ["-A", chain] + RuleArgs(Dnat, f);
    AtoiOfItoa(f.publicPort);
    assert chain != "-p" && chain != "--dport" && chain != "--to-destination";
    assert f.comment != "-p" && f.comment != "--dport" && f.comment != "--to-destination";
    assert Itoa(f.publicPort)[0] != '-';
    SkipFlags(t, 0, 2);
    SkipFlags(t, 3, 6);
    SkipFlags(t, 7, 14);
    assert ReadFlags(t, 3) == Flags(ToUpper(f.proto), 0, "");
    assert ReadFlags(t, 7) == Flags(ToUpper(f.proto), f.publicPort, "");
    assert ReadFlags(t, 15) == Flags(ToUpper(f.proto), f.publicPort, Destination(f));
  }

  /** Tokens that are no flags change nothing. */
  lemma {:induction false} SkipFlags(t: seq<string>, a: nat, b: nat)
    requires a <= b <= |t|
    requires forall i | a <= i < b :: t[i] != "-p" && t[i] != "--dport" && t[i] != "--to-destination"
    ensures ReadFlags(t, a) == ReadFlags(t, b)
  {
    if a < b {
      SkipFlags(t, a, b - 1);
    }
  }

  function SpecTokens(f: Forwarding): (r: seq<string>) {
    [ToUpper(f.proto), "dport", Itoa(f.publicPort), "->", Destination(f), "comment", f.comment]
  }

  lemma SpecIsClean(f: Forwarding)
    requires Readable(f)
    ensures SpecOf(f) == Join(SpecTokens(f)) && AllClean(SpecTokens(f))
  {
    AddressIsClean(f.address);
    assert Clean(Destination(f));
    assert Clean("dport") && Clean("->") && Clean("comment");
    assert ToUpper("tcp") == "TCP" && ToUpper("udp") == "UDP";
    assert Clean("TCP") && Clean("UDP");
  }

  /** The comment is recovered from the spec, which is how a deletion finds its rules. */
  lemma CommentOfSpec(f: Forwarding)
    requires Readable(f)
    ensures CommentFromSpec(SpecOf(f)) == f.comment
  {
    SpecIsClean(f);
    var head := SpecTokens(f)[..6];
    assert SpecTokens(f) == head + [f.comment];
    JoinAppend(head, [f.comment]);
    assert head == head[..5] + ["comment"];
    JoinAppend(head[..5], ["comment"]);
    var a := Join(head[..5]) + " ";
    LastNeedle(a, f.comment);
    TrimOfTrimmed(f.comment);
    assert SpecOf(f) == a + SPEC_NEEDLE + f.comment;
  }

  lemma LastNeedle(a: string, comment: string)
    requires Clean(comment)
    ensures var s := a + SPEC_NEEDLE + comment;
            LastIndex(s, SPEC_NEEDLE) == |a| && s[|a| + |SPEC_NEEDLE|..] == comment
  {
    var s := a + SPEC_NEEDLE + comment;
    assert |SPEC_NEEDLE| == 8 && SPEC_NEEDLE[7] == ' ';
    assert s[|a|..|a| + 8] == SPEC_NEEDLE;
    forall j | |a| < j ensures !At(s, SPEC_NEEDLE, j) {
      if j + 8 <= |s| {
        assert s[j..j + 8][7] == s[j + 7] == comment[j + 7 - |a| - 8];
        assert !IsSpace(comment[j + 7 - |a| - 8]);
      }
    }
    LastIndexIs(s, SPEC_NEEDLE, |a|);
  }

  /** Two readable forwardings have the same spec only if they are the same: the DNAT rule's
      spec, the one rule discovery looks at, determines the other two rules as well. */
  lemma SpecDeterminesForwarding(f: Forwarding, g: Forwarding)
    requires Readable(f) && Readable(g) && SpecOf(f) == SpecOf(g)
    ensures f == g
  {
    SpecIsClean(f);
    SpecIsClean(g);
    JoinIsInjective(SpecTokens(f), SpecTokens(g));
    var s, t := SpecTokens(f), SpecTokens(g);
    assert s[0] == t[0] && s[2] == t[2] && s[4] == t[4] && s[6] == t[6];
    assert ToUpper("tcp") == "TCP" && ToUpper("udp") == "UDP";
    assert ToUpper("tcp")[0] != ToUpper("udp")[0];
    DigitsOfItoa(f.publicPort);
    DigitsOfItoa(g.publicPort);
    DestinationSplits(f, g);
  }

  lemma DestinationSplits(f: Forwarding, g: Forwarding)
    requires Readable(f) && Readable(g) && Destination(f) == Destination(g)
    ensures f.address == g.address && f.backendPort == g.backendPort
  {
    AddressIsClean(f.address);
    AddressIsClean(g.address);
    var d := Destination(f);
    assert d[|f.address|] == ':' && d[|g.address|] == ':';
    assert |f.address| == |g.address| by {
      assert forall i | 0 <= i < |f.address| :: d[i] == f.address[i];
      assert forall i | 0 <= i < |g.address| :: d[i] == g.address[i];
    }
    assert f.address == d[..|f.address|] && g.address == d[..|g.address|];
    assert Itoa(f.backendPort) == d[|f.address| + 1..] && Itoa(g.backendPort) == d[|g.address| + 1..];
    DigitsOfItoa(f.backendPort);
    DigitsOfItoa(g.backendPort);
  }
}
