/** The packet-filter tables of a host and their saved text (internal/testhost/host.go). */
module Tables {
  import opened Model
  import opened Text

  datatype Table = Nat | Filter

  datatype View = View(table: Table, chain: string)

  /** Every chain's rules, in order, without the leading `-A chain`. */
  type Chains = map<View, seq<string>>

  function RulesOf(t: Chains, v: View): (r: seq<string>) {
    if v in t then t[v] else []
  }

  /** What -D does: the first rule with that text goes. */
  function RemoveFirst(rules: seq<string>, rule: string): (r: seq<string>) {
    if rules == [] then []
    else if rules[0] == rule then rules[1..]
    else [rules[0]] + RemoveFirst(rules[1..], rule)
  }

  lemma {:induction false} RemoveFirstAt(a: seq<string>, rule: string, b: seq<string>)
    requires rule !in a
    ensures RemoveFirst(a + [rule] + b, rule) == a + b
  {
    if a == [] {
      assert a + [rule] + b == [rule] + b && a + b == b;
    } else {
      assert (a + [rule] + b)[1..] == a[1..] + [rule] + b;
      assert a[0] in a;
      RemoveFirstAt(a[1..], rule, b);
      assert [a[0]] + (a[1..] + b) == a + b;
    }
  }

  lemma {:induction false} RemoveFirstMultiset(rules: seq<string>, rule: string)
    requires rule in rules
    ensures multiset(RemoveFirst(rules, rule)) == multiset(rules) - multiset{rule}
    ensures |RemoveFirst(rules, rule)| == |rules| - 1
  {
    assert rules == [rules[0]] + rules[1..];
    if rules[0] != rule {
      RemoveFirstMultiset(rules[1..], rule);
    }
  }

  // ----------------------------------------------------------------- saving

  function RuleLine(chain: string, rule: string): (r: string) { "-A " + chain + " " + rule }

  function RuleLines(chain: string, rules: seq<string>): (r: seq<string>) {
    if rules == [] then []
    else RuleLines(chain, rules[..|rules| - 1]) + [RuleLine(chain, rules[|rules| - 1])]
  }

  function ChainLines(v: View, rules: seq<string>): (r: seq<string>) {
    [":" + v.chain + " - [0:0]"] + RuleLines(v.chain, rules)
  }

  /** The chains of one table, in some order. */
  function Section(t: Chains, order: seq<View>): (r: seq<string>)
    requires forall v | v in order :: v in t
  {
    if order == [] then []
    else Section(t, order[..|order| - 1]) + ChainLines(order[|order| - 1], t[order[|order| - 1]])
  }

  /** `order` lists the chains of one table, each once. */
  ghost predicate Lists(order: seq<View>, t: Chains, table: Table) {
    && (forall v :: v in order <==> v in t && v.table == table)
    && (forall i, j | 0 <= i < j < |order| :: order[i] != order[j])
  }

  function SavedLines(t: Chains, nat': seq<View>, filter: seq<View>): (r: seq<string>)
    requires (forall v | v in nat' :: v in t) && (forall v | v in filter :: v in t)
  {
    ["*nat"] + Section(t, nat') + ["COMMIT", "*filter"] + Section(t, filter) + ["COMMIT"]
  }

  /** `text` is what iptables-save prints for the tables; the order of the chains is open. */
  ghost predicate SavedAs(t: Chains, text: string) {
    exists nat', filter ::
        Lists(nat', t, Nat) && Lists(filter, t, Filter) && text == Unlines(SavedLines(t, nat', filter))
  }

  // -------------------------------------------------------------- restoring

  /** What a line of saved text is to iptables-restore. */
  datatype Entry = Begin(table: Table) | Header(chain: string) | Rule(chain: string, rule: string) | Ignored

  function Classify(raw: string): (r: Entry) {
    var line := Trim(raw);
    if line == "*nat" then Begin(Nat)
    else if line == "*filter" then Begin(Filter)
    else if ":" <= line then
      var fields := Fields(line[1..]);
      if fields == [] then Ignored else Header(fields[0])
    else if "-A " <= line then
      var rest := line[3..];
      var k := Index(rest, " ");
      if k < 0 then Ignored else Rule(rest[..k], rest[k + 1..])
    else Ignored
  }

  function ClassifyAll(lines: seq<string>): (r: seq<Entry>) {
    seq(|lines|, i requires 0 <= i < |lines| => Classify(lines[i]))
  }

  datatype Restoring = Restoring(table: Option<Table>, chains: Chains)

  function RestoreEntry(r: Restoring, e: Entry): (res: Restoring) {
    match e
    case Begin(table) => r.(table := Some(table))
    case Header(chain) =>
      if r.table.None? then r else r.(chains := r.chains[View(r.table.value, chain) := []])
    case Rule(chain, rule) =>
      if r.table.None? then r
      else
        var v := View(r.table.value, chain);
        r.(chains := r.chains[v := RulesOf(r.chains, v) + [rule]])
    case Ignored => r
  }

  function RestoreEntries(r: Restoring, entries: seq<Entry>): (res: Restoring) {
    if entries == [] then r
    else RestoreEntry(RestoreEntries(r, entries[..|entries| - 1]), entries[|entries| - 1])
  }

  /** The tables iptables-restore builds from a text; what was there before is dropped. */
  function Restored(text: string): (r: Chains) {
    RestoreEntries(Restoring(None, map[]), ClassifyAll(Split(text, '\n'))).chains
  }

  // -------------------------------------------- restoring what was saved

  /** Rules whose text form is unambiguous: no newline, and no white space at the end. */
  predicate PrintableRule(rule: string) {
    rule != "" && '\n' !in rule && !IsSpace(rule[|rule| - 1])
  }

  /** Chain names are single words and rules are printable. */
  ghost predicate Printable(t: Chains) {
    forall v | v in t :: Clean(v.chain) && forall i | 0 <= i < |t[v]| :: PrintableRule(t[v][i])
  }

  function RuleEntries(chain: string, rules: seq<string>): (r: seq<Entry>) {
    if rules == [] then []
    else RuleEntries(chain, rules[..|rules| - 1]) + [Rule(chain, rules[|rules| - 1])]
  }

  function ChainEntries(v: View, rules: seq<string>): (r: seq<Entry>) {
    [Header(v.chain)] + RuleEntries(v.chain, rules)
  }

  function SectionEntries(t: Chains, order: seq<View>): (r: seq<Entry>)
    requires forall v | v in order :: v in t
  {
    if order == [] then []
    else SectionEntries(t, order[..|order| - 1]) + ChainEntries(order[|order| - 1], t[order[|order| - 1]])
  }

  lemma ClassifyHeader(chain: string)
    requires Clean(chain)
    ensures Classify(":" + chain + " - [0:0]") == Header(chain)
  {
    var line := ":" + chain + " - [0:0]";
    TrimOfTrimmed(line);
    var tokens := [chain, "-", "[0:0]"];
    assert tokens[1..] == ["-", "[0:0]"] && tokens[1..][1..] == ["[0:0]"];
    assert Join(tokens) == chain + " " + Join(tokens[1..]);
    assert Join(tokens[1..]) == "-" + " " + "[0:0]";
    assert line[1..] == Join(tokens);
    assert AllClean(tokens);
    FieldsOfJoin(tokens);
    assert line[0] == ':';
  }

  lemma RuleLineShape(chain: string, rule: string)
    requires Clean(chain) && PrintableRule(rule)
    ensures var line := RuleLine(chain, rule);
            Trim(line) == line && |line| > 3 && line[..3] == "-A " && line[3..] == chain + " " + rule
  {
    var line := RuleLine(chain, rule);
    assert line[0] == '-' && line[|line| - 1] == rule[|rule| - 1];
    TrimOfTrimmed(line);
  }

  lemma FirstBlank(chain: string, rule: string)
    requires Clean(chain)
    ensures Index(chain + " " + rule, " ") == |chain|
  {
    var rest := chain + " " + rule;
    assert rest[|chain|..|chain| + 1] == " ";
    forall j | 0 <= j < |chain| ensures !At(rest, " ", j) {
      assert rest[j..j + 1][0] == chain[j];
    }
    IndexIs(rest, " ", |chain|);
  }

  lemma ClassifyRule(chain: string, rule: string)
    requires Clean(chain) && PrintableRule(rule)
    ensures Classify(RuleLine(chain, rule)) == Rule(chain, rule)
  {
    var line, rest := RuleLine(chain, rule), chain + " " + rule;
    RuleLineShape(chain, rule);
    FirstBlank(chain, rule);
    assert line[1] == line[..3][1] == 'A';
    assert rest[..|chain|] == chain && rest[|chain| + 1..] == rule;
  }

  lemma ClassifyMarkers()
    ensures Classify("*nat") == Begin(Nat) && Classify("*filter") == Begin(Filter)
    ensures Classify("COMMIT") == Ignored && Classify("") == Ignored
  {
    TrimOfTrimmed("*nat");
    TrimOfTrimmed("*filter");
    TrimOfTrimmed("COMMIT");
    TrimOfTrimmed("");
  }

  lemma {:induction false} ClassifyRules(chain: string, rules: seq<string>)
    requires Clean(chain) && forall i | 0 <= i < |rules| :: PrintableRule(rules[i])
    ensures ClassifyAll(RuleLines(chain, rules)) == RuleEntries(chain, rules)
  {
    if rules != [] {
      var n := |rules| - 1;
      ClassifyRules(chain, rules[..n]);
      ClassifyRule(chain, rules[n]);
      ClassifyConcat(RuleLines(chain, rules[..n]), [RuleLine(chain, rules[n])]);
    }
  }

  lemma ClassifyConcat(a: seq<string>, b: seq<string>)
    ensures ClassifyAll(a + b) == ClassifyAll(a) + ClassifyAll(b)
  {
  }

  lemma {:induction false} ClassifySection(t: Chains, order: seq<View>)
    requires Printable(t) && forall v | v in order :: v in t
    ensures ClassifyAll(Section(t, order)) == SectionEntries(t, order)
  {
    if order != [] {
      var n := |order| - 1;
      var v := order[n];
      assert v in t && Clean(v.chain);
      ClassifySection(t, order[..n]);
      ClassifyChain(v, t[v]);
      ClassifyConcat(Section(t, order[..n]), ChainLines(v, t[v]));
    }
  }

  lemma ClassifyChain(v: View, rules: seq<string>)
    requires Clean(v.chain) && forall i | 0 <= i < |rules| :: PrintableRule(rules[i])
    ensures ClassifyAll(ChainLines(v, rules)) == ChainEntries(v, rules)
  {
    var header := ":" + v.chain + " - [0:0]";
    ClassifyConcat([header], RuleLines(v.chain, rules));
    ClassifyRules(v.chain, rules);
    assert ClassifyAll([header]) == [Header(v.chain)] by {
      ClassifyHeader(v.chain);
    }
  }

  lemma {:induction false} RestoreConcat(r: Restoring, a: seq<Entry>, b: seq<Entry>)
    ensures RestoreEntries(r, a + b) == RestoreEntries(RestoreEntries(r, a), b)
  {
    if b == [] {
      assert a + b == a;
    } else {
      var n := |b| - 1;
      assert (a + b)[..|a + b| - 1] == a + b[..n];
      RestoreConcat(r, a, b[..n]);
    }
  }

  lemma {:induction false} RestoreRules(r: Restoring, v: View, rules: seq<string>)
    requires r.table == Some(v.table) && v in r.chains && r.chains[v] == []
    ensures RestoreEntries(r, RuleEntries(v.chain, rules)) == r.(chains := r.chains[v := rules])
  {
    if rules == [] {
      assert r.chains[v := []] == r.chains;
    } else {
      var n := |rules| - 1;
      RestoreRules(r, v, rules[..n]);
      RestoreSnoc(r, RuleEntries(v.chain, rules[..n]), Rule(v.chain, rules[n]));
      RestoreRule(r, v, rules[..n], rules[n]);
      assert rules[..n] + [rules[n]] == rules;
    }
  }

  lemma RestoreSnoc(r: Restoring, entries: seq<Entry>, e: Entry)
    ensures RestoreEntries(r, entries + [e]) == RestoreEntry(RestoreEntries(r, entries), e)
  {
    assert (entries + [e])[..|entries|] == entries;
  }

  lemma RestoreRule(r: Restoring, v: View, rules: seq<string>, rule: string)
    requires r.table == Some(v.table)
    ensures RestoreEntry(r.(chains := r.chains[v := rules]), Rule(v.chain, rule))
            == r.(chains := r.chains[v := rules + [rule]])
  {
    assert View(v.table, v.chain) == v;
    assert r.chains[v := rules][v := rules + [rule]] == r.chains[v := rules + [rule]];
  }

  lemma RestoreOne(r: Restoring, e: Entry)
    ensures RestoreEntries(r, [e]) == RestoreEntry(r, e)
  {
    assert [e][..0] == [];
  }

  lemma RestoreChain(r: Restoring, v: View, rules: seq<string>)
    requires r.table == Some(v.table)
    ensures RestoreEntries(r, ChainEntries(v, rules)) == r.(chains := r.chains[v := rules])
  {
    RestoreOne(r, Header(v.chain));
    RestoreConcat(r, [Header(v.chain)], RuleEntries(v.chain, rules));
    RestoreRules(r.(chains := r.chains[v := []]), v, rules);
    assert r.chains[v := []][v := rules] == r.chains[v := rules];
  }

  /** The part of the tables a list of views covers. */
  function Only(t: Chains, order: seq<View>): (r: Chains) {
    map v | v in t && v in order :: t[v]
  }

  lemma {:induction false} RestoreSection(r: Restoring, t: Chains, order: seq<View>, table: Table)
    requires forall v | v in order :: v in t && v.table == table
    requires r.table == Some(table)
    ensures RestoreEntries(r, SectionEntries(t, order)) == r.(chains := r.chains + Only(t, order))
  {
    if order == [] {
      assert Only(t, order) == map[];
    } else {
      var n := |order| - 1;
      var v := order[n];
      RestoreSection(r, t, order[..n], table);
      var before := r.(chains := r.chains + Only(t, order[..n]));
      RestoreChain(before, v, t[v]);
      RestoreConcat(r, SectionEntries(t, order[..n]), ChainEntries(v, t[v]));
      OnlyOneMore(r.chains, t, order[..n], v);
      assert order == order[..n] + [v];
    }
  }

  lemma OnlyOneMore(chains: Chains, t: Chains, order: seq<View>, v: View)
    requires v in t
    ensures chains + Only(t, order + [v]) == (chains + Only(t, order))[v := t[v]]
  {
  }

  lemma OnlyBoth(t: Chains, nat': seq<View>, filter: seq<View>)
    requires Lists(nat', t, Nat) && Lists(filter, t, Filter)
    ensures Only(t, nat') + Only(t, filter) == t
  {
    forall v | v in t ensures v in nat' || v in filter {
      assert v.table == Nat || v.table == Filter;
    }
  }

  lemma RestoreSaved(t: Chains, nat': seq<View>, filter: seq<View>)
    requires Lists(nat', t, Nat) && Lists(filter, t, Filter)
    ensures RestoreEntries(Restoring(None, map[]),
                           [Begin(Nat)] + SectionEntries(t, nat') + [Ignored, Begin(Filter)]
                               + SectionEntries(t, filter) + [Ignored, Ignored])
            == Restoring(Some(Filter), Only(t, nat') + Only(t, filter))
  {
    var r0 := Restoring(None, map[]);
    var r1 := Restoring(Some(Nat), map[]);
    var r2 := Restoring(Some(Nat), Only(t, nat'));
    var r3 := Restoring(Some(Filter), Only(t, nat'));
    var r4 := Restoring(Some(Filter), Only(t, nat') + Only(t, filter));
    var a, b := SectionEntries(t, nat'), SectionEntries(t, filter);
    RestoreOne(r0, Begin(Nat));
    RestoreSection(r1, t, nat', Nat);
    assert map[] + Only(t, nat') == Only(t, nat');
    RestoreConcat(r0, [Begin(Nat)], a);
    assert RestoreEntries(r2, [Ignored, Begin(Filter)]) == r3 by {
      RestoreOne(r2, Ignored);
      RestoreOne(r2, Begin(Filter));
      RestoreConcat(r2, [Ignored], [Begin(Filter)]);
      assert [Ignored] + [Begin(Filter)] == [Ignored, Begin(Filter)];
    }
    RestoreConcat(r0, [Begin(Nat)] + a, [Ignored, Begin(Filter)]);
    RestoreSection(r3, t, filter, Filter);
    RestoreConcat(r0, [Begin(Nat)] + a + [Ignored, Begin(Filter)], b);
    assert RestoreEntries(r4, [Ignored, Ignored]) == r4 by {
      RestoreOne(r4, Ignored);
      RestoreConcat(r4, [Ignored], [Ignored]);
      assert [Ignored] + [Ignored] == [Ignored, Ignored];
    }
    RestoreConcat(r0, [Begin(Nat)] + a + [Ignored, Begin(Filter)] + b, [Ignored, Ignored]);
  }

  /** Restoring the saved text gives back every chain with its rules in order, whatever
      order the chains were saved in. */
  lemma RestoreOfSave(t: Chains, text: string)
    requires Printable(t) && SavedAs(t, text)
    ensures Restored(text) == t
  {
    var nat', filter :| Lists(nat', t, Nat) && Lists(filter, t, Filter) && text == Unlines(SavedLines(t, nat', filter));
    SavedLinesHaveNoNewline(t, nat', filter);
    SplitOfUnlines(SavedLines(t, nat', filter));
    assert Split(text, '\n') == SavedLines(t, nat', filter) + [""];
    ClassifySaved(t, nat', filter);
    RestoreSaved(t, nat', filter);
    OnlyBoth(t, nat', filter);
  }

  lemma ClassifySaved(t: Chains, nat': seq<View>, filter: seq<View>)
    requires Printable(t) && Lists(nat', t, Nat) && Lists(filter, t, Filter)
    ensures ClassifyAll(SavedLines(t, nat', filter) + [""])
            == [Begin(Nat)] + SectionEntries(t, nat') + [Ignored, Begin(Filter)] + SectionEntries(t, filter)
                + [Ignored, Ignored]
  {
    ClassifySection(t, nat');
    ClassifySection(t, filter);
    ClassifyFrame("*nat", Section(t, nat'), "COMMIT", "*filter", Section(t, filter), "");
    ClassifyMarkers();
  }

  lemma ClassifyFrame(n: string, a: seq<string>, c: string, f: string, b: seq<string>, e: string)
    ensures ClassifyAll([n] + a + [c, f] + b + [c] + [e])
            == [Classify(n)] + ClassifyAll(a) + [Classify(c), Classify(f)] + ClassifyAll(b) + [Classify(c), Classify(e)]
  {
    var x, y, z := [n], [c, f], [c, e];
    ClassifyTwo(n, n);
    ClassifyTwo(c, f);
    ClassifyTwo(c, e);
    ClassifyConcat(x, a);
    ClassifyConcat(x + a, y);
    ClassifyConcat(x + a + y, b);
    ClassifyConcat(x + a + y + b, z);
    assert [c] + [e] == z;
    LastTwo(x + a + y + b, [c], [e]);
  }

  lemma LastTwo(s: seq<string>, x: seq<string>, y: seq<string>)
    ensures s + x + y == s + (x + y)
  {
  }

  lemma ClassifyTwo(x: string, y: string)
    ensures ClassifyAll([x]) == [Classify(x)] && ClassifyAll([x, y]) == [Classify(x), Classify(y)]
  {
  }

  ghost predicate OneLiners(lines: seq<string>) {
    forall i | 0 <= i < |lines| :: '\n' !in lines[i]
  }

  lemma {:induction false} RuleLinesHaveNoNewline(chain: string, rules: seq<string>)
    requires '\n' !in chain && forall i | 0 <= i < |rules| :: '\n' !in rules[i]
    ensures OneLiners(RuleLines(chain, rules))
  {
    if rules != [] {
      RuleLinesHaveNoNewline(chain, rules[..|rules| - 1]);
    }
  }

  lemma {:induction false} SectionHasNoNewline(t: Chains, order: seq<View>)
    requires Printable(t) && forall v | v in order :: v in t
    ensures OneLiners(Section(t, order))
  {
    if order != [] {
      var n := |order| - 1;
      var v := order[n];
      SectionHasNoNewline(t, order[..n]);
      assert v in t && Clean(v.chain);
      assert '\n' !in v.chain by {
        assert forall i | 0 <= i < |v.chain| :: !IsSpace(v.chain[i]);
      }
      forall i | 0 <= i < |t[v]| ensures '\n' !in t[v][i] {
        assert PrintableRule(t[v][i]);
      }
      RuleLinesHaveNoNewline(v.chain, t[v]);
    }
  }

  lemma SavedLinesHaveNoNewline(t: Chains, nat': seq<View>, filter: seq<View>)
    requires Printable(t) && Lists(nat', t, Nat) && Lists(filter, t, Filter)
    ensures OneLiners(SavedLines(t, nat', filter))
  {
    SectionHasNoNewline(t, nat');
    SectionHasNoNewline(t, filter);
  }
}
