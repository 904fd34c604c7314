/** What discovery makes of the firewall, which rule actions a plan stands for, and why a
    fully applied plan leaves every chain in step with the desired mappings, including the
    two chains discovery does not look at (internal/firewall/iptables.go,
    internal/reconcile/plan.go). */
module FirewallSync {
  import opened Model
  import opened Text
  import opened Tables
  import opened RuleText
  import opened FirewallSpec
  import Sorting
  import R = Reconcile

  // -------------------------------------------------------------- discovery

  /** What discovery reports of one rule: nothing, if the rule is managed and not in a DNAT
      chain. */
  function Reported(s: Slot, x: Codec, rule: string): (r: seq<FirewallRule>) {
    var comment := x.read(rule);
    if Managed(comment) && !s.kind.Dnat? then []
    else [FirewallRule(ChainName(s), comment, x.spec(rule), Managed(comment))]
  }

  function ReportedAll(s: Slot, x: Codec, rules: seq<string>): (r: seq<FirewallRule>) {
    if rules == [] then []
    else ReportedAll(s, x, rules[..|rules| - 1]) + Reported(s, x, rules[|rules| - 1])
  }

  /** Everything discovery reports of the given slots. */
  function Listing(t: Chains, slots: seq<Slot>, codec: Slot -> Codec): (r: seq<FirewallRule>) {
    if slots == [] then []
    else
      var s := slots[|slots| - 1];
      Listing(t, slots[..|slots| - 1], codec) + ReportedAll(s, codec(s), RulesOf(t, ViewOf(s)))
  }

  /** A comment that is neither the agent's nor a jump's. */
  predicate Alien(comment: string) {
    comment != "" && !Managed(comment) && comment != JUMP_COMMENT && comment != LEGACY_JUMP_COMMENT
  }

  function AlienIn(s: Slot, x: Codec, rule: string): (r: seq<Conflict>) {
    if Alien(x.read(rule)) then [Conflict("UNMANAGED_RULE", ChainName(s))] else []
  }

  function AliensAmong(s: Slot, x: Codec, rules: seq<string>): (r: seq<Conflict>) {
    if rules == [] then []
    else
      AliensAmong(s, x, rules[..|rules| - 1]) + AlienIn(s, x, rules[|rules| - 1])
  }

  function Aliens(t: Chains, slots: seq<Slot>, codec: Slot -> Codec): (r: seq<Conflict>) {
    if slots == [] then []
    else
      var s := slots[|slots| - 1];
      Aliens(t, slots[..|slots| - 1], codec) + AliensAmong(s, codec(s), RulesOf(t, ViewOf(s)))
  }

  /** The managed rules by comment, as a plan sees them. */
  function Found(t: Chains): (r: map<string, FirewallRule>) { R.FoundRules(Listing(t, SLOTS, CodecOf)) }

  // -------------------------------------------------------- well-formed hosts

  ghost predicate Present(t: Chains, legacy: bool, f: Forwarding) {
    forall kind: Kind ::
        With(RulesOf(t, ViewOf(Slot(kind, legacy))), CodecOf(Slot(kind, legacy)), f.comment) == [RuleOf(kind, f)]
  }

  ghost predicate Absent(t: Chains, legacy: bool, comment: string) {
    forall kind: Kind :: With(RulesOf(t, ViewOf(Slot(kind, legacy))), CodecOf(Slot(kind, legacy)), comment) == []
  }

  /** A managed comment is in none of the three chains of a generation, or exactly once in
      each of them, on the three rules of one forwarding. */
  ghost predicate Whole(t: Chains, legacy: bool, comment: string) {
    Absent(t, legacy, comment) || exists f :: Readable(f) && f.comment == comment && Present(t, legacy, f)
  }

  ghost predicate WellFormed(t: Chains) {
    forall c | Managed(c) :: Whole(t, false, c) && Whole(t, true, c) && (R.MAPPING_PREFIX <= c ==> Absent(t, true, c))
  }

  // ------------------------------------------- what discovery finds of a comment

  lemma {:induction false} ReportedAllManaged(s: Slot, x: Codec, rules: seq<string>, r: FirewallRule)
    requires r.managed
    ensures r in ReportedAll(s, x, rules) <==> s.kind.Dnat? && ReportsOne(s, x, rules, r)
  {
    if rules != [] {
      var n := |rules| - 1;
      Snoc(rules);
      ReportedAllManaged(s, x, rules[..n], r);
    }
  }

  /** r reports some managed rule of the chain. */
  ghost predicate ReportsOne(s: Slot, x: Codec, rules: seq<string>, r: FirewallRule) {
    exists rule ::
        rule in rules && Managed(x.read(rule)) && r == FirewallRule(ChainName(s), x.read(rule), x.spec(rule), true)
  }

  /** r reports a managed rule of a DNAT chain. */
  ghost predicate Reports(t: Chains, s: Slot, codec: Slot -> Codec, r: FirewallRule) {
    s.kind.Dnat? && ReportsOne(s, codec(s), RulesOf(t, ViewOf(s)), r)
  }

  ghost predicate ReportedBySome(t: Chains, slots: seq<Slot>, codec: Slot -> Codec, r: FirewallRule) {
    exists s | s in slots :: Reports(t, s, codec, r)
  }

  lemma InSnoc<T>(xs: seq<T>)
    requires xs != []
    ensures forall x :: x in xs <==> x in xs[..|xs| - 1] || x == xs[|xs| - 1]
  {
    assert xs == xs[..|xs| - 1] + [xs[|xs| - 1]];
  }

  lemma {:induction false} ListingManaged(t: Chains, slots: seq<Slot>, codec: Slot -> Codec, r: FirewallRule)
    requires r.managed
    ensures r in Listing(t, slots, codec) <==> ReportedBySome(t, slots, codec, r)
  {
    if slots != [] {
      var n := |slots| - 1;
      ListingManaged(t, slots[..n], codec, r);
      ReportedAllManaged(slots[n], codec(slots[n]), RulesOf(t, ViewOf(slots[n])), r);
      InSnoc(slots);
      if s :| s in slots[..n] && Reports(t, s, codec, r) {
        assert s in slots;
      }
      assert slots[n] in slots;
    }
  }

  /** The comments found are those read from a managed rule of a DNAT chain, and what is
      found for a comment was reported of such a rule. */
  lemma FoundIsReported(t: Chains, c: string)
    ensures c in Found(t) ==> Found(t)[c].comment == c && exists s: Slot :: Reports(t, s, CodecOf, Found(t)[c])
  {
    var managed := R.ManagedRules(Listing(t, SLOTS, CodecOf));
    R.ManagedRulesMembers(Listing(t, SLOTS, CodecOf));
    ByKeyKeys(managed, R.RuleComment);
    if c in Found(t) {
      var r := Found(t)[c];
      assert r in managed && r.managed && R.RuleComment(r) == c;
      ListingManaged(t, SLOTS, CodecOf, r);
    }
  }

  lemma ReportedIsFound(t: Chains, s: Slot, r: FirewallRule)
    requires Reports(t, s, CodecOf, r) && r.comment != ""
    ensures r.comment in Found(t)
  {
    var managed := R.ManagedRules(Listing(t, SLOTS, CodecOf));
    R.ManagedRulesMembers(Listing(t, SLOTS, CodecOf));
    ByKeyKeys(managed, R.RuleComment);
    SlotsAreAll(s);
    ListingManaged(t, SLOTS, CodecOf, r);
    assert r in managed;
    var i :| 0 <= i < |managed| && managed[i] == r;
    assert R.RuleComment(managed[i]) == r.comment;
  }

  lemma PresentIsReported(t: Chains, legacy: bool, f: Forwarding)
    requires Readable(f) && Present(t, legacy, f)
    ensures Reports(t, Slot(Dnat, legacy), CodecOf,
                    FirewallRule(ChainName(Slot(Dnat, legacy)), f.comment, SpecOf(f), true))
  {
    var s := Slot(Dnat, legacy);
    WithMembers(RulesOf(t, ViewOf(s)), CodecOf(s), f.comment);
    assert RuleOf(Dnat, f) in With(RulesOf(t, ViewOf(s)), CodecOf(s), f.comment);
    ReadBack(s, f);
  }

  /** What the codec of a slot reads from a rule the agent wrote. */
  lemma ReadBack(s: Slot, f: Forwarding)
    requires Readable(f)
    ensures CodecOf(s).read(RuleOf(s.kind, f)) == f.comment
    ensures s.kind.Dnat? ==> CodecOf(s).spec(RuleOf(s.kind, f)) == SpecOf(f)
  {
    ChainIsKnown(s);
    WrittenRuleIsReadBack(ChainName(s), s.kind, f);
    if s.kind.Dnat? {
      WrittenSpecIsReadBack(ChainName(s), f);
    }
  }

  lemma ChainIsKnown(s: Slot)
    ensures ChainName(s) in CHAINS
  {
    var i := (match s.kind case Dnat => 0 case Forward => 1 case Snat => 2) + (if s.legacy then 3 else 0);
    assert CHAINS[i] == ChainName(s);
  }

  /** In a DNAT chain where a comment is whole, whatever is reported under the comment is the
      spec of the comment's forwarding. */
  lemma ReportedOfWhole(t: Chains, s: Slot, r: FirewallRule)
    requires Reports(t, s, CodecOf, r) && Whole(t, s.legacy, r.comment)
    ensures !Absent(t, s.legacy, r.comment) && Managed(r.comment)
    ensures exists f :: Readable(f) && f.comment == r.comment && Present(t, s.legacy, f) && r.spec == SpecOf(f)
  {
    assert s == Slot(Dnat, s.legacy);
    var rules, x := RulesOf(t, ViewOf(s)), CodecOf(s);
    var rule := ReportedRule(s, x, rules, r);
    TheOnlyRule(rules, x, r.comment, rule);
    assert With(rules, x, r.comment) != [];
    var f :| Readable(f) && f.comment == r.comment && Present(t, s.legacy, f);
    assert With(rules, x, r.comment) == [RuleOf(Dnat, f)];
    ReadBack(s, f);
  }

  lemma ReportedRule(s: Slot, x: Codec, rules: seq<string>, r: FirewallRule) returns (rule: string)
    requires ReportsOne(s, x, rules, r)
    ensures rule in rules && x.read(rule) == r.comment && x.spec(rule) == r.spec && Managed(r.comment)
  {
    rule :| rule in rules && Managed(x.read(rule)) && r == FirewallRule(ChainName(s), x.read(rule), x.spec(rule), true);
  }

  lemma TheOnlyRule(rules: seq<string>, x: Codec, c: string, rule: string)
    requires rule in rules && x.read(rule) == c
    ensures With(rules, x, c) != [] && (|With(rules, x, c)| == 1 ==> With(rules, x, c) == [rule])
  {
    WithMembers(rules, x, c);
    assert rule in With(rules, x, c);
  }

  /** What is seen of one comment: it is seen exactly when it is there, with the spec of a
      forwarding that has that comment; and for a comment of the current form that forwarding
      is in all three current chains. */
  ghost predicate SeesComment(t: Chains, have: map<string, FirewallRule>, c: string) {
    && (c in have <==> Managed(c) && !(Absent(t, false, c) && Absent(t, true, c)))
    && (c in have ==> exists f ::
          Readable(f) && f.comment == c && have[c].spec == SpecOf(f)
              && (R.MAPPING_PREFIX <= c ==> Present(t, false, f)))
  }

  ghost predicate Sees(t: Chains, have: map<string, FirewallRule>) {
    forall c :: SeesComment(t, have, c)
  }

  /** On a well-formed host discovery, which looks at the DNAT chains alone, sees everything. */
  lemma DiscoverySeesAll(t: Chains)
    requires WellFormed(t)
    ensures Sees(t, Found(t))
  {
    forall c ensures SeesComment(t, Found(t), c) {
      FoundIsReported(t, c);
      if c in Found(t) {
        var s: Slot :| Reports(t, s, CodecOf, Found(t)[c]);
        FoundIsWhole(t, s, Found(t)[c]);
      } else if Managed(c) {
        MissingIsAbsent(t, c, false);
        MissingIsAbsent(t, c, true);
      }
    }
  }

  lemma FoundIsWhole(t: Chains, s: Slot, r: FirewallRule)
    requires WellFormed(t) && Reports(t, s, CodecOf, r)
    ensures Managed(r.comment) && !(Absent(t, false, r.comment) && Absent(t, true, r.comment))
    ensures exists f ::
              Readable(f) && f.comment == r.comment && r.spec == SpecOf(f)
                  && (R.MAPPING_PREFIX <= r.comment ==> Present(t, false, f))
  {
    var _ := ReportedRule(s, CodecOf(s), RulesOf(t, ViewOf(s)), r);
    assert Whole(t, s.legacy, r.comment);
    ReportedOfWhole(t, s, r);
    assert R.MAPPING_PREFIX <= r.comment ==> !s.legacy;
  }

  lemma MissingIsAbsent(t: Chains, c: string, legacy: bool)
    requires WellFormed(t) && Managed(c) && c !in Found(t)
    ensures Absent(t, legacy, c)
  {
    assert Whole(t, legacy, c);
    if !Absent(t, legacy, c) {
      var f :| Readable(f) && f.comment == c && Present(t, legacy, f);
      PresentIsReported(t, legacy, f);
      ReportedIsFound(t, Slot(Dnat, legacy), FirewallRule(ChainName(Slot(Dnat, legacy)), f.comment, SpecOf(f), true));
      assert false;
    }
  }

  // ---------------------------------------------- from plan actions to rule actions

  /** The first backend with the mapping's backend id, as BackendAddr looks it up. */
  function BackendAddress(m: PortMapping, backends: seq<Backend>): (r: string) {
    if backends == [] then ""
    else if backends[0].id == m.backendId then backends[0].address
    else BackendAddress(m, backends[1..])
  }

  function ForwardingOf(m: PortMapping, address: string): (r: Forwarding)
    requires Port(m.publicPort) && Port(m.backendPort)
  {
    Forwarding(ToLower(m.protocol), m.publicPort, address, m.backendPort, R.MappingComment(m.id))
  }

  /** What one firewall action of a plan stands for; None when applying it is refused. The
      address is validated without the white space around it. */
  function Resolve(a: R.Action, want: map<string, PortMapping>, backends: seq<Backend>): (r: Option<RuleAction>) {
    match a.kind
    case Delete =>
      var c := CommentFromSpec(a.before);
      Some(DeleteRule(if c == "" then a.id else c))
    case _ =>
      var c := R.MappingComment(a.id);
      if c !in want then None
      else
        var m := want[c];
        var address := BackendAddress(m, backends);
        if address == "" || !Ipv4(Trim(address)) || !Port(m.publicPort) || !Port(m.backendPort) then None
        else if a.kind.Add? then Some(AddRule(ForwardingOf(m, address)))
        else Some(ChangeRule(ForwardingOf(m, address)))
  }

  /** The rule actions of a plan, or None if one of its firewall actions is refused. */
  function ResolveAll(actions: seq<R.Action>, want: map<string, PortMapping>,
                      backends: seq<Backend>): (r: Option<seq<RuleAction>>) {
    if actions == [] then Some([])
    else
      var n := |actions| - 1;
      var before := ResolveAll(actions[..n], want, backends);
      if before.None? then None
      else if !actions[n].target.FirewallTarget? then before
      else
        var a := Resolve(actions[n], want, backends);
        if a.None? then None else Some(before.value + [a.value])
  }

  ghost predicate AllReadable(actions: seq<RuleAction>) {
    forall i | 0 <= i < |actions| && !actions[i].DeleteRule? :: Readable(actions[i].f)
  }

  /** Mappings as the controller hands them out: unique ids, TCP or UDP, ports in range, and
      a backend with an address. */
  ghost predicate ValidMappings(desired: DesiredState) {
    && UniqueKeys(desired.mappings, R.CommentOf)
    && UniqueKeys(desired.backends, R.BackendId)
    && forall m | m in desired.mappings :: ValidMapping(m, desired.backends)
  }

  predicate ValidMapping(m: PortMapping, backends: seq<Backend>) {
    && (m.protocol == "TCP" || m.protocol == "UDP")
    && Port(m.publicPort) && Port(m.backendPort)
    && Clean(R.MappingComment(m.id))
    && Ipv4(BackendAddress(m, backends))
  }

  function Wanted(m: PortMapping, backends: seq<Backend>): (r: Forwarding)
    requires ValidMapping(m, backends)
  {
    ForwardingOf(m, BackendAddress(m, backends))
  }

  lemma {:induction false} AddressIsInTable(m: PortMapping, backends: seq<Backend>)
    requires UniqueKeys(backends, R.BackendId)
    requires BackendAddress(m, backends) != ""
    ensures m.backendId in ByKey(backends, R.BackendId)
    ensures ByKey(backends, R.BackendId)[m.backendId].address == BackendAddress(m, backends)
  {
    var i := AddressIndex(m, backends);
    ByKeyHolds(backends, R.BackendId, i);
    assert R.BackendId(backends[i]) == m.backendId;
  }

  lemma {:induction false} AddressIndex(m: PortMapping, backends: seq<Backend>) returns (i: nat)
    requires BackendAddress(m, backends) != ""
    ensures i < |backends| && backends[i].id == m.backendId && backends[i].address == BackendAddress(m, backends)
  {
    if backends[0].id == m.backendId {
      i := 0;
    } else {
      i := AddressIndex(m, backends[1..]);
      i := i + 1;
    }
  }

  lemma WantedIsReadable(m: PortMapping, backends: seq<Backend>)
    requires ValidMapping(m, backends) && UniqueKeys(backends, R.BackendId)
    ensures Readable(Wanted(m, backends))
    ensures R.MappingRuleSpec(m, ByKey(backends, R.BackendId)) == SpecOf(Wanted(m, backends))
    ensures Trim(BackendAddress(m, backends)) == BackendAddress(m, backends)
  {
    var address := BackendAddress(m, backends);
    AddressIsClean(address);
    AddressIsInTable(m, backends);
    assert !IsSpace(address[0]) && !IsSpace(address[|address| - 1]);
    TrimOfTrimmed(address);
    ProtocolCase(m.protocol);
  }

  lemma ProtocolCase(p: string)
    requires p == "TCP" || p == "UDP"
    ensures ToUpper(ToLower(p)) == p && (ToLower(p) == "tcp" || ToLower(p) == "udp")
  {
    assert ToLower("TCP") == "tcp" && ToLower("UDP") == "udp" && ToUpper("tcp") == "TCP" && ToUpper("udp") == "UDP";
  }

  // ------------------------------------------------------------ convergence

  /** The firewall actions of the plan computed from what discovery finds. */
  ghost function Steps(t: Chains, desired: DesiredState): (r: seq<R.Action>) {
    R.RuleSteps(R.WantedMappings(desired), Found(t), R.BackendTable(desired))
  }

  type Wants = map<string, PortMapping>

  type Finds = map<string, FirewallRule>

  /** What the rule action about one comment must be. */
  ghost predicate Answers(a: RuleAction, c: string, want: Wants, have: Finds, backends: seq<Backend>) {
    if c in want then
      ValidMapping(want[c], backends)
      && a == if c in have then ChangeRule(Wanted(want[c], backends)) else AddRule(Wanted(want[c], backends))
    else a == DeleteRule(c)
  }

  /** A comment on which the two sides differ. */
  ghost predicate Differs(c: string, want: Wants, have: Finds, backends: seq<Backend>) {
    || (c in want && c !in have)
    || (c !in want && c in have)
    || (c in want && c in have && have[c].spec != R.MappingRuleSpec(want[c], ByKey(backends, R.BackendId)))
  }

  /** One action for exactly each comment on which the two sides differ. */
  ghost predicate Settles(actions: seq<RuleAction>, comments: seq<string>, want: Wants, have: Finds,
                          backends: seq<Backend>) {
    && |actions| == |comments|
    && (forall i | 0 <= i < |actions| :: Answers(actions[i], comments[i], want, have, backends) && Managed(comments[i]))
    && (forall i, j | 0 <= i < j < |comments| :: comments[i] != comments[j])
    && (forall c :: c in comments <==> Differs(c, want, have, backends))
  }

  /** A table of wanted mappings by comment, as desired state gives it. */
  ghost predicate Sound(want: Wants, backends: seq<Backend>) {
    && UniqueKeys(backends, R.BackendId)
    && forall c | c in want :: ValidMapping(want[c], backends) && R.MappingComment(want[c].id) == c
  }

  lemma WantedAreSound(desired: DesiredState)
    requires ValidMappings(desired)
    ensures Sound(R.WantedMappings(desired), desired.backends)
    ensures forall m | m in desired.mappings ::
              R.MappingComment(m.id) in R.WantedMappings(desired)
                  && R.WantedMappings(desired)[R.MappingComment(m.id)] == m
  {
    var want := R.WantedMappings(desired);
    ByKeyKeys(desired.mappings, R.CommentOf);
    forall c | c in want ensures ValidMapping(want[c], desired.backends) && R.MappingComment(want[c].id) == c {
      assert want[c] in desired.mappings && R.CommentOf(want[c]) == c;
    }
    forall m | m in desired.mappings ensures R.MappingComment(m.id) in want && want[R.MappingComment(m.id)] == m {
      var k :| 0 <= k < |desired.mappings| && desired.mappings[k] == m;
      ByKeyHolds(desired.mappings, R.CommentOf, k);
      assert R.CommentOf(m) == R.MappingComment(m.id);
    }
  }

  lemma CommentsAreManaged(want: Wants, backends: seq<Backend>, c: string)
    requires Sound(want, backends) && c in want
    ensures R.MAPPING_PREFIX <= c && Managed(c)
    ensures Wanted(want[c], backends).comment == c && Readable(Wanted(want[c], backends))
    ensures R.MappingRuleSpec(want[c], ByKey(backends, R.BackendId)) == SpecOf(Wanted(want[c], backends))
  {
    WantedIsReadable(want[c], backends);
  }

  lemma WantedResolves(a: R.Action, c: string, want: Wants, have: Finds, backends: seq<Backend>)
    requires Sound(want, backends) && c in want
    requires R.RuleStep(c, want, have, ByKey(backends, R.BackendId)) == Some(a)
    ensures Resolve(a, want, backends).Some? && Answers(Resolve(a, want, backends).value, c, want, have, backends)
  {
    var m := want[c];
    WantedIsReadable(m, backends);
    AddressIsClean(BackendAddress(m, backends));
    assert a.id == m.id && (a.kind.Add? || a.kind.Change?) && R.MappingComment(a.id) == c;
  }

  lemma UnwantedResolves(a: R.Action, c: string, t: Chains, want: Wants, have: Finds, backends: seq<Backend>)
    requires SeesComment(t, have, c) && c !in want
    requires R.RuleStep(c, want, have, ByKey(backends, R.BackendId)) == Some(a)
    ensures Resolve(a, want, backends).Some? && Answers(Resolve(a, want, backends).value, c, want, have, backends)
    ensures Managed(c)
  {
    SpecNamesComment(have[c].spec, c);
  }

  lemma SpecNamesComment(spec: string, c: string)
    requires exists f :: Readable(f) && f.comment == c && spec == SpecOf(f)
    ensures CommentFromSpec(spec) == c && Managed(c) && c != ""
  {
    var f :| Readable(f) && f.comment == c && spec == SpecOf(f);
    CommentOfSpec(f);
  }

  lemma {:induction false} CollectResolves(names: seq<string>, step: string -> Option<R.Action>, t: Chains,
                                           want: Wants, have: Finds, backends: seq<Backend>)
    requires Sees(t, have) && Sound(want, backends)
    requires forall c :: step(c) == R.RuleStep(c, want, have, ByKey(backends, R.BackendId))
    ensures var r := ResolveAll(R.Collect(names, step), want, backends);
            && r.Some? && |r.value| == |R.Stepping(names, step)|
            && forall i | 0 <= i < |r.value| ::
                 Answers(r.value[i], R.Stepping(names, step)[i], want, have, backends)
                     && Managed(R.Stepping(names, step)[i])
  {
    if names != [] {
      var n := |names| - 1;
      var c := names[n];
      CollectResolves(names[..n], step, t, want, have, backends);
      if step(c).Some? {
        var a := step(c).value;
        if c in want {
          CommentsAreManaged(want, backends, c);
          WantedResolves(a, c, want, have, backends);
        } else {
          assert SeesComment(t, have, c);
          UnwantedResolves(a, c, t, want, have, backends);
        }
        ResolveSnoc(R.Collect(names[..n], step), a, want, backends);
      } else {
        assert R.Collect(names, step) == R.Collect(names[..n], step);
        assert R.Stepping(names, step) == R.Stepping(names[..n], step);
      }
    }
  }

  lemma ResolveSnoc(actions: seq<R.Action>, a: R.Action, want: Wants, backends: seq<Backend>)
    requires a.target.FirewallTarget?
    ensures ResolveAll(actions + [a], want, backends)
            == if ResolveAll(actions, want, backends).None? || Resolve(a, want, backends).None? then None
               else Some(ResolveAll(actions, want, backends).value + [Resolve(a, want, backends).value])
  {
    assert (actions + [a])[..|actions|] == actions;
  }

  /** The plan computed from what discovery sees resolves to rule actions with different
      comments, one for exactly each comment that is missing, superfluous or wrong. */
  lemma PlanResolves(t: Chains, want: Wants, have: Finds, backends: seq<Backend>)
    returns (actions: seq<RuleAction>, comments: seq<string>)
    requires Sees(t, have) && Sound(want, backends)
    ensures ResolveAll(R.RuleSteps(want, have, ByKey(backends, R.BackendId)), want, backends) == Some(actions)
    ensures Settles(actions, comments, want, have, backends)
  {
    var table := ByKey(backends, R.BackendId);
    var step := comment => R.RuleStep(comment, want, have, table);
    var names := Sorting.SortedSet(want.Keys + have.Keys);
    CollectResolves(names, step, t, want, have, backends);
    actions := ResolveAll(R.RuleSteps(want, have, table), want, backends).value;
    comments := R.Stepping(names, step);
    SteppingSettles(want, have, table);
    forall c ensures c in comments <==> Differs(c, want, have, backends) {}
  }

  lemma SteppingSettles(want: Wants, have: Finds, table: map<string, Backend>)
    ensures var comments := R.Stepping(Sorting.SortedSet(want.Keys + have.Keys),
                                       comment => R.RuleStep(comment, want, have, table));
            && (forall i, j | 0 <= i < j < |comments| :: comments[i] != comments[j])
            && forall c :: c in comments <==>
                 (c in want && c !in have) || (c !in want && c in have)
                 || (c in want && c in have && have[c].spec != R.MappingRuleSpec(want[c], table))
  {
    var step := comment => R.RuleStep(comment, want, have, table);
    var all := Sorting.SortedSet(want.Keys + have.Keys);
    Sorting.SortedSetMembers(want.Keys + have.Keys);
    R.CollectIsExact(all, step);
    R.SteppingIsDistinct(all, step);
    var comments := R.Stepping(all, step);
    forall c | c in comments ensures step(c).Some? {
      var i :| 0 <= i < |comments| && comments[i] == c;
    }
  }

  lemma SettlingIsOrderly(actions: seq<RuleAction>, comments: seq<string>, want: Wants, have: Finds,
                          backends: seq<Backend>, s: Slot)
    requires Sound(want, backends) && Settles(actions, comments, want, have, backends)
    ensures forall i | 0 <= i < |actions| :: actions[i].Comment() == comments[i]
    ensures Orderly(actions, CodecOf(s)) && AllReadable(actions)
  {
    forall i | 0 <= i < |actions|
      ensures actions[i].Comment() == comments[i]
      ensures !actions[i].DeleteRule? ==>
                Readable(actions[i].f) && CodecOf(s).read(CodecOf(s).write(actions[i].f)) == actions[i].f.comment
    {
      var c := comments[i];
      assert Answers(actions[i], c, want, have, backends);
      if c in want {
        CommentsAreManaged(want, backends, c);
        ReadBack(s, actions[i].f);
      }
    }
  }

  /** t' is t after the rule actions, in every chain the agent manages. */
  ghost predicate Applied(t: Chains, t': Chains, actions: seq<RuleAction>) {
    forall s: Slot :: RulesOf(t', ViewOf(s)) == Effects(RulesOf(t, ViewOf(s)), CodecOf(s), actions)
  }

  /** Every wanted mapping has exactly its three rules, and nothing else managed is left in
      any of the six chains. */
  ghost predicate SyncedWith(t: Chains, want: Wants, backends: seq<Backend>) {
    && (forall c | c in want :: ValidMapping(want[c], backends) && Present(t, false, Wanted(want[c], backends)))
    && (forall c | Managed(c) :: Absent(t, true, c))
    && (forall c | Managed(c) && c !in want :: Absent(t, false, c))
  }

  ghost predicate Synced(t: Chains, desired: DesiredState) {
    SyncedWith(t, R.WantedMappings(desired), desired.backends)
  }

  /** What one comment's rules in one chain become, given what they were. */
  lemma ChainConverges(rules: seq<string>, x: Codec, want: Wants, have: Finds, backends: seq<Backend>,
                       actions: seq<RuleAction>, comments: seq<string>, c: string)
    requires Orderly(actions, x) && Settles(actions, comments, want, have, backends)
    requires forall i | 0 <= i < |actions| :: actions[i].Comment() == comments[i]
    requires c in want ==> ValidMapping(want[c], backends)
    requires var had := With(rules, x, c);
             if c in comments then (c in want && (c !in have || !x.written) ==> had == [])
             else had == if c in want then Own(x, Wanted(want[c], backends)) else []
    ensures With(Effects(rules, x, actions), x, c) == if c in want then Own(x, Wanted(want[c], backends)) else []
  {
    EffectsOnComment(rules, x, actions, c);
    if c in comments {
      var i :| 0 <= i < |comments| && comments[i] == c;
      assert actions[i].Comment() == c && Answers(actions[i], c, want, have, backends);
    } else {
      NotTouched(actions, comments, c);
    }
  }

  lemma CommentConverges(t: Chains, want: Wants, have: Finds, backends: seq<Backend>,
                         actions: seq<RuleAction>, comments: seq<string>, s: Slot, c: string)
    requires WellFormed(t) && SeesComment(t, have, c) && Sound(want, backends) && Managed(c)
    requires Settles(actions, comments, want, have, backends)
    ensures With(Effects(RulesOf(t, ViewOf(s)), CodecOf(s), actions), CodecOf(s), c)
            == if c in want then Own(CodecOf(s), Wanted(want[c], backends)) else []
  {
    SettlingIsOrderly(actions, comments, want, have, backends, s);
    SlotOf(s);
    if c in want {
      CommentsAreManaged(want, backends, c);
      assert Absent(t, true, c);
    }
    assert c in comments <==> Differs(c, want, have, backends);
    if c in want && c !in comments {
      UndisputedIsPresent(t, want, have, backends, c);
    }
    ChainConverges(RulesOf(t, ViewOf(s)), CodecOf(s), want, have, backends, actions, comments, c);
  }

  lemma SlotOf(s: Slot)
    ensures s == Slot(s.kind, s.legacy)
  {
  }

  lemma UndisputedIsPresent(t: Chains, want: Wants, have: Finds, backends: seq<Backend>, c: string)
    requires SeesComment(t, have, c) && Sound(want, backends) && c in want && !Differs(c, want, have, backends)
    ensures Present(t, false, Wanted(want[c], backends))
  {
    CommentsAreManaged(want, backends, c);
    var g :| Readable(g) && g.comment == c && have[c].spec == SpecOf(g) && Present(t, false, g);
    SpecDeterminesForwarding(Wanted(want[c], backends), g);
  }

  lemma NotTouched(actions: seq<RuleAction>, comments: seq<string>, c: string)
    requires |actions| == |comments| && c !in comments
    requires forall i | 0 <= i < |actions| :: actions[i].Comment() == comments[i]
    ensures !Touches(actions, c)
  {
  }

  /** Applying in full the plan computed from discovery brings every chain in step, although
      discovery has only seen the DNAT chains; and rules without a managed comment keep
      their order. */
  lemma ApplyConverges(t: Chains, t': Chains, desired: DesiredState, actions: seq<RuleAction>)
    requires WellFormed(t) && ValidMappings(desired)
    requires ResolveAll(Steps(t, desired), R.WantedMappings(desired), desired.backends) == Some(actions)
    requires Applied(t, t', actions)
    ensures Synced(t', desired) && AllReadable(actions)
    ensures forall s: Slot ::
              Untagged(RulesOf(t', ViewOf(s)), CodecOf(s)) == Untagged(RulesOf(t, ViewOf(s)), CodecOf(s))
  {
    var want, have, backends := R.WantedMappings(desired), Found(t), desired.backends;
    DiscoverySeesAll(t);
    WantedAreSound(desired);
    var as', comments := PlanResolves(t, want, have, backends);
    assert as' == actions;
    SettledConverges(t, t', want, have, backends, actions, comments);
  }

  lemma SettledConverges(t: Chains, t': Chains, want: Wants, have: Finds, backends: seq<Backend>,
                         actions: seq<RuleAction>, comments: seq<string>)
    requires WellFormed(t) && Sees(t, have) && Sound(want, backends)
    requires Settles(actions, comments, want, have, backends) && Applied(t, t', actions)
    ensures SyncedWith(t', want, backends) && AllReadable(actions)
    ensures forall s: Slot ::
              Untagged(RulesOf(t', ViewOf(s)), CodecOf(s)) == Untagged(RulesOf(t, ViewOf(s)), CodecOf(s))
  {
    SettlingIsOrderly(actions, comments, want, have, backends, Slot(Dnat, false));
    forall s: Slot
      ensures Untagged(RulesOf(t', ViewOf(s)), CodecOf(s)) == Untagged(RulesOf(t, ViewOf(s)), CodecOf(s))
    {
      SettlingIsOrderly(actions, comments, want, have, backends, s);
      UntaggedRulesStay(RulesOf(t, ViewOf(s)), CodecOf(s), actions);
    }
    forall c | Managed(c)
      ensures Absent(t', true, c)
      ensures c !in want ==> Absent(t', false, c)
      ensures c in want ==> Present(t', false, Wanted(want[c], backends))
    {
      assert SeesComment(t, have, c);
      if c in want {
        CommentsAreManaged(want, backends, c);
      }
      forall s: Slot
        ensures With(RulesOf(t', ViewOf(s)), CodecOf(s), c)
                == if c in want then Own(CodecOf(s), Wanted(want[c], backends)) else []
      {
        CommentConverges(t, want, have, backends, actions, comments, s, c);
      }
    }
    forall c | c in want ensures Managed(c) {
      CommentsAreManaged(want, backends, c);
    }
  }

  lemma SyncedIsWellFormed(t: Chains, want: Wants, backends: seq<Backend>)
    requires Sound(want, backends) && SyncedWith(t, want, backends)
    ensures WellFormed(t)
  {
    forall c | Managed(c) ensures Whole(t, false, c) && Whole(t, true, c)
        && (R.MAPPING_PREFIX <= c ==> Absent(t, true, c)) {
      if c in want {
        CommentsAreManaged(want, backends, c);
        assert Present(t, false, Wanted(want[c], backends));
      }
    }
  }

  /** What discovery sees of a host in step is what is wanted. */
  lemma SyncedIsSeen(t: Chains, want: Wants, have: Finds, backends: seq<Backend>, c: string)
    requires Sound(want, backends) && SyncedWith(t, want, backends) && SeesComment(t, have, c)
    ensures !Differs(c, want, have, backends)
  {
    if c in want {
      var f := Wanted(want[c], backends);
      CommentsAreManaged(want, backends, c);
      assert Present(t, false, f);
      var s := Slot(Dnat, false);
      assert With(RulesOf(t, ViewOf(s)), CodecOf(s), f.comment) == [RuleOf(Dnat, f)];
      assert !Absent(t, false, c);
      var g :| Readable(g) && g.comment == c && have[c].spec == SpecOf(g) && Present(t, false, g);
      assert With(RulesOf(t, ViewOf(s)), CodecOf(s), g.comment) == [RuleOf(Dnat, g)];
      assert RuleOf(Dnat, f) == [RuleOf(Dnat, f)][0] == [RuleOf(Dnat, g)][0] == RuleOf(Dnat, g);
      ReadBack(s, f);
      ReadBack(s, g);
    } else {
      assert Managed(c) ==> Absent(t, false, c) && Absent(t, true, c);
    }
  }

  /** A host in step is well formed, and discovery on it agrees with the desired mappings:
      the next plan has no firewall action. */
  lemma SyncedIsStable(t: Chains, desired: DesiredState)
    requires Synced(t, desired) && ValidMappings(desired)
    ensures WellFormed(t)
    ensures Steps(t, desired) == []
  {
    var want, have, backends := R.WantedMappings(desired), Found(t), desired.backends;
    WantedAreSound(desired);
    SyncedIsWellFormed(t, want, backends);
    DiscoverySeesAll(t);
    forall c ensures !Differs(c, want, have, backends) {
      assert SeesComment(t, have, c);
      SyncedIsSeen(t, want, have, backends, c);
    }
    NothingDiffers(want, have, backends);
  }

  /** On a well-formed host, a plan made from what discovery sees in the DNAT chains has no
      firewall action if and only if all six chains are in step. */
  lemma NoStepsIffSynced(t: Chains, desired: DesiredState)
    requires WellFormed(t) && ValidMappings(desired)
    ensures Steps(t, desired) == [] <==> Synced(t, desired)
  {
    var want, have, backends := R.WantedMappings(desired), Found(t), desired.backends;
    if Synced(t, desired) {
      SyncedIsStable(t, desired);
    }
    if Steps(t, desired) == [] {
      R.RuleStepsEmpty(want, have, R.BackendTable(desired));
      WantedAreSound(desired);
      DiscoverySeesAll(t);
      forall c | Managed(c)
        ensures Absent(t, true, c) && (c !in want ==> Absent(t, false, c))
      {
        UnplannedIsSynced(t, want, have, backends, c);
      }
      forall c | c in want
        ensures ValidMapping(want[c], backends) && Present(t, false, Wanted(want[c], backends))
      {
        assert SeesComment(t, have, c);
        UndisputedIsPresent(t, want, have, backends, c);
      }
    }
  }

  lemma UnplannedIsSynced(t: Chains, want: Wants, have: Finds, backends: seq<Backend>, c: string)
    requires WellFormed(t) && Sees(t, have) && Sound(want, backends) && Managed(c) && want.Keys == have.Keys
    ensures Absent(t, true, c) && (c !in want ==> Absent(t, false, c))
  {
    assert SeesComment(t, have, c) && (c in want <==> c in have);
    if c in want {
      CommentsAreManaged(want, backends, c);
    }
    assert Whole(t, true, c) && (R.MAPPING_PREFIX <= c ==> Absent(t, true, c));
  }

  lemma NothingDiffers(want: Wants, have: Finds, backends: seq<Backend>)
    requires forall c :: !Differs(c, want, have, backends)
    ensures R.RuleSteps(want, have, ByKey(backends, R.BackendId)) == []
  {
    forall c ensures c in want <==> c in have {
      assert !Differs(c, want, have, backends);
    }
    assert want.Keys == have.Keys;
    forall c | c in want ensures have[c].spec == R.MappingRuleSpec(want[c], ByKey(backends, R.BackendId)) {
      assert !Differs(c, want, have, backends);
    }
    R.RuleStepsEmpty(want, have, ByKey(backends, R.BackendId));
  }

  // ------------------------------------------------------------- conflicts

  lemma {:induction false} AliensAmongEmpty(s: Slot, x: Codec, rules: seq<string>)
    ensures AliensAmong(s, x, rules) == [] <==> forall r | r in rules :: !Alien(x.read(r))
  {
    if rules != [] {
      Snoc(rules);
      AliensAmongEmpty(s, x, rules[..|rules| - 1]);
    }
  }

  lemma {:induction false} AliensEmpty(t: Chains, slots: seq<Slot>, codec: Slot -> Codec)
    ensures Aliens(t, slots, codec) == []
            <==> forall s | s in slots :: AliensAmong(s, codec(s), RulesOf(t, ViewOf(s))) == []
  {
    if slots != [] {
      var n := |slots| - 1;
      AliensEmpty(t, slots[..n], codec);
      assert forall s :: s in slots <==> s in slots[..n] || s == slots[n];
    }
  }

  lemma {:induction false} EffectsMembers(rules: seq<string>, x: Codec, actions: seq<RuleAction>, r: string)
    requires r in Effects(rules, x, actions)
    ensures r in rules || exists i :: 0 <= i < |actions| && !actions[i].DeleteRule? && r == x.write(actions[i].f)
  {
    if actions != [] {
      var n := |actions| - 1;
      var before, a := Effects(rules, x, actions[..n]), actions[n];
      WithoutMembers(before, x, a.Comment());
      if r in before {
        EffectsMembers(rules, x, actions[..n], r);
        if r !in rules {
          var i :| 0 <= i < n && !actions[..n][i].DeleteRule? && r == x.write(actions[..n][i].f);
          assert actions[i] == actions[..n][i];
        }
      } else {
        assert !a.DeleteRule? && r == x.write(actions[n].f);
      }
    }
  }

  /** Applying a plan brings no foreign rule into the agent's chains. */
  lemma NoNewAliens(t: Chains, t': Chains, actions: seq<RuleAction>)
    requires Applied(t, t', actions) && AllReadable(actions) && Aliens(t, SLOTS, CodecOf) == []
    ensures Aliens(t', SLOTS, CodecOf) == []
  {
    AliensEmpty(t, SLOTS, CodecOf);
    AliensEmpty(t', SLOTS, CodecOf);
    forall s | s in SLOTS ensures AliensAmong(s, CodecOf(s), RulesOf(t', ViewOf(s))) == [] {
      AliensAmongEmpty(s, CodecOf(s), RulesOf(t, ViewOf(s)));
      AliensAmongEmpty(s, CodecOf(s), RulesOf(t', ViewOf(s)));
      forall r | r in RulesOf(t', ViewOf(s)) ensures !Alien(CodecOf(s).read(r)) {
        EffectsMembers(RulesOf(t, ViewOf(s)), CodecOf(s), actions, r);
        if r !in RulesOf(t, ViewOf(s)) {
          var i :| 0 <= i < |actions| && !actions[i].DeleteRule? && r == CodecOf(s).write(actions[i].f);
          ReadBack(s, actions[i].f);
        }
      }
    }
  }
}
