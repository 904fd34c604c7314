/** What applying a plan does to the chains the agent manages, as a function on rule
    sequences, and why it converges (internal/firewall/iptables.go, manager.go). */
module FirewallSpec {
  import opened Model
  import opened Text
  import opened Tables
  import opened RuleText

  /** One of the six chains the agent looks at: the three it writes and the three that an
      older release wrote. */
  datatype Slot = Slot(kind: Kind, legacy: bool)

  function ChainName(s: Slot): (r: string) {
    match s.kind
    case Dnat => if s.legacy then "PROXYCTL_DNAT" else "TRANSITFORGE_DNAT"
    case Forward => if s.legacy then "PROXYCTL_FORWARD" else "TRANSITFORGE_FORWARD"
    case Snat => if s.legacy then "PROXYCTL_SNAT" else "TRANSITFORGE_SNAT"
  }

  function ViewOf(s: Slot): (r: View) {
    View(if s.kind.Forward? then Filter else Nat, ChainName(s))
  }

  const SLOTS: seq<Slot> := [
    Slot(Dnat, false), Slot(Forward, false), Slot(Snat, false),
    Slot(Dnat, true), Slot(Forward, true), Slot(Snat, true)]

  lemma SlotsAreAll(s: Slot)
    ensures s in SLOTS
  {
    var i := (match s.kind case Dnat => 0 case Forward => 1 case Snat => 2) + (if s.legacy then 3 else 0);
    assert SLOTS[i] == s;
  }

  /** The built-in chain that jumps to a slot's chain. */
  function ParentOf(kind: Kind): (r: View) {
    match kind
    case Dnat => View(Nat, "PREROUTING")
    case Forward => View(Filter, "FORWARD")
    case Snat => View(Nat, "POSTROUTING")
  }

  const JUMP_COMMENT := "transitforge:jump"
  const LEGACY_JUMP_COMMENT := "proxyctl:jump"

  function JumpArgs(s: Slot): (r: seq<string>) {
    ["-m", "comment", "--comment", if s.legacy then LEGACY_JUMP_COMMENT else JUMP_COMMENT, "-j", ChainName(s)]
  }

  function Jump(s: Slot): (r: string) { Join(JumpArgs(s)) }

  lemma ViewsDiffer(s: Slot, t: Slot)
    requires s != t
    ensures ViewOf(s) != ViewOf(t)
  {
    ChainNamesDiffer(s, t);
  }

  lemma ChainNamesDiffer(s: Slot, t: Slot)
    requires s != t
    ensures ChainName(s) != ChainName(t)
  {
    assert ChainName(s)[0] == (if s.legacy then 'P' else 'T');
    assert ChainName(t)[0] == (if t.legacy then 'P' else 'T');
    assert s.legacy == t.legacy ==> |ChainName(s)| == |ChainName(t)| ==>
             s.kind != t.kind && !s.kind.Forward? && !t.kind.Forward?;
    assert s.kind.Dnat? ==> ChainName(s)[|ChainName(s)| - 4] == 'D';
    assert s.kind.Snat? ==> ChainName(s)[|ChainName(s)| - 4] == 'S';
    assert t.kind.Dnat? ==> ChainName(t)[|ChainName(t)| - 4] == 'D';
    assert t.kind.Snat? ==> ChainName(t)[|ChainName(t)| - 4] == 'S';
  }

  lemma ParentsAreForeign(kind: Kind, s: Slot)
    ensures ParentOf(kind) != ViewOf(s)
  {
    assert ChainName(s)[0] == (if s.legacy then 'P' else 'T');
    assert s.legacy ==> ChainName(s)[2] == 'O' && ChainName(s)[3] == 'X';
    assert ParentOf(kind).chain
           == (match kind case Dnat => "PREROUTING" case Forward => "FORWARD" case Snat => "POSTROUTING");
    assert ParentOf(kind).chain[3] != 'X' && ParentOf(kind).chain[0] != 'T';
  }

  // ------------------------------------------------- rules by their comment

  /** How a chain's rules are read (comment and comparable form) and written. The text
      functions enter the proofs below only through these fields. */
  datatype Codec = Codec(read: string -> string, spec: string -> string, write: Forwarding -> string, written: bool)

  /** A rule's comment is read from a line that names its chain; only the chains of the
      current names are written to. */
  function CodecOf(s: Slot): (r: Codec) {
    Codec(rule => SeenComment(ChainName(s), rule), rule => SeenSpec(ChainName(s), rule), f => RuleOf(s.kind, f),
          !s.legacy)
  }

  /** The rules with a given comment, in order. */
  function With(rules: seq<string>, x: Codec, comment: string): (r: seq<string>) {
    if rules == [] then []
    else
      var n := |rules| - 1;
      With(rules[..n], x, comment) + (if x.read(rules[n]) == comment then [rules[n]] else [])
  }

  /** The other rules, in order. */
  function WithoutComment(rules: seq<string>, x: Codec, comment: string): (r: seq<string>) {
    if rules == [] then []
    else
      var n := |rules| - 1;
      WithoutComment(rules[..n], x, comment) + (if x.read(rules[n]) == comment then [] else [rules[n]])
  }

  /** The rules that carry no managed comment, in order. */
  function Untagged(rules: seq<string>, x: Codec): (r: seq<string>) {
    if rules == [] then []
    else
      var n := |rules| - 1;
      Untagged(rules[..n], x) + (if Managed(x.read(rules[n])) then [] else [rules[n]])
  }

  lemma Snoc(rules: seq<string>)
    requires rules != []
    ensures rules == rules[..|rules| - 1] + [rules[|rules| - 1]]
  {
  }

  lemma {:induction false} WithOfWithout(rules: seq<string>, x: Codec, c: string, d: string)
    ensures With(WithoutComment(rules, x, d), x, c) == if c == d then [] else With(rules, x, c)
  {
    if rules != [] {
      var n := |rules| - 1;
      WithOfWithout(rules[..n], x, c, d);
      if x.read(rules[n]) != d {
        WithSnoc(WithoutComment(rules[..n], x, d), rules[n], x, c);
      } else {
        assert WithoutComment(rules, x, d) == WithoutComment(rules[..n], x, d);
      }
    }
  }

  lemma WithSnoc(rules: seq<string>, rule: string, x: Codec, c: string)
    ensures With(rules + [rule], x, c) == With(rules, x, c) + (if x.read(rule) == c then [rule] else [])
  {
    assert (rules + [rule])[..|rules|] == rules;
  }

  lemma WithoutSnoc(rules: seq<string>, rule: string, x: Codec, c: string)
    ensures WithoutComment(rules + [rule], x, c) == WithoutComment(rules, x, c)
            + (if x.read(rule) == c then [] else [rule])
  {
    assert (rules + [rule])[..|rules|] == rules;
  }

  lemma UntaggedSnoc(rules: seq<string>, rule: string, x: Codec)
    ensures Untagged(rules + [rule], x) == Untagged(rules, x) + (if Managed(x.read(rule)) then [] else [rule])
  {
    assert (rules + [rule])[..|rules|] == rules;
  }

  lemma {:induction false} UntaggedOfWithout(rules: seq<string>, x: Codec, c: string)
    requires Managed(c)
    ensures Untagged(WithoutComment(rules, x, c), x) == Untagged(rules, x)
  {
    if rules != [] {
      var n := |rules| - 1;
      UntaggedOfWithout(rules[..n], x, c);
      if x.read(rules[n]) != c {
        UntaggedSnoc(WithoutComment(rules[..n], x, c), rules[n], x);
      } else {
        assert WithoutComment(rules, x, c) == WithoutComment(rules[..n], x, c);
      }
    }
  }

  lemma {:induction false} WithMembers(rules: seq<string>, x: Codec, c: string)
    ensures forall r :: r in With(rules, x, c) <==> r in rules && x.read(r) == c
  {
    if rules != [] {
      Snoc(rules);
      WithMembers(rules[..|rules| - 1], x, c);
    }
  }

  lemma {:induction false} WithoutMembers(rules: seq<string>, x: Codec, c: string)
    ensures forall r :: r in WithoutComment(rules, x, c) <==> r in rules && x.read(r) != c
  {
    if rules != [] {
      Snoc(rules);
      WithoutMembers(rules[..|rules| - 1], x, c);
    }
  }

  lemma {:induction false} WithoutIsRest(rules: seq<string>, x: Codec, c: string)
    ensures multiset(rules) == multiset(WithoutComment(rules, x, c)) + multiset(With(rules, x, c))
  {
    if rules != [] {
      Snoc(rules);
      WithoutIsRest(rules[..|rules| - 1], x, c);
    }
  }

  // ---------------------------------------------------------- rule actions

  datatype RuleAction = AddRule(f: Forwarding) | ChangeRule(f: Forwarding) | DeleteRule(comment: string) {
    function Comment(): (r: string) {
      if DeleteRule? then comment else f.comment
    }
  }

  /** The chain's own new rule, if the chain is one the agent writes. */
  function Own(x: Codec, f: Forwarding): (r: seq<string>) {
    if x.written then [x.write(f)] else []
  }

  function Effect(rules: seq<string>, x: Codec, a: RuleAction): (r: seq<string>) {
    match a
    case AddRule(f) => rules + Own(x, f)
    case ChangeRule(f) => WithoutComment(rules, x, f.comment) + Own(x, f)
    case DeleteRule(c) => WithoutComment(rules, x, c)
  }

  /** A chain after a list of actions. */
  function Effects(rules: seq<string>, x: Codec, actions: seq<RuleAction>): (r: seq<string>) {
    if actions == [] then rules
    else
      var n := |actions| - 1;
      Effect(Effects(rules, x, actions[..n]), x, actions[n])
  }

  /** What the deletions among the actions took from the chain, in order. */
  function Taken(rules: seq<string>, x: Codec, actions: seq<RuleAction>): (r: seq<string>) {
    if actions == [] then []
    else
      var n := |actions| - 1;
      Taken(rules, x, actions[..n])
      + (if actions[n].DeleteRule? then With(Effects(rules, x, actions[..n]), x, actions[n].comment) else [])
  }

  /** What the actions added to the chain, in order. */
  function Given(x: Codec, actions: seq<RuleAction>): (r: seq<string>) {
    if actions == [] then []
    else
      var n := |actions| - 1;
      Given(x, actions[..n]) + (if actions[n].DeleteRule? then [] else Own(x, actions[n].f))
  }

  /** At most one action for each comment, and new rules that carry their own comment. */
  ghost predicate Orderly(actions: seq<RuleAction>, x: Codec) {
    && (forall i, j | 0 <= i < j < |actions| :: actions[i].Comment() != actions[j].Comment())
    && (forall i | 0 <= i < |actions| :: Managed(actions[i].Comment()))
    && (forall i | 0 <= i < |actions| && !actions[i].DeleteRule? ::
        x.read(x.write(actions[i].f)) == actions[i].f.comment)
  }

  ghost predicate Touches(actions: seq<RuleAction>, c: string) {
    exists i :: 0 <= i < |actions| && actions[i].Comment() == c
  }

  lemma TouchesSnoc(actions: seq<RuleAction>, c: string)
    requires actions != []
    ensures Touches(actions, c) <==> Touches(actions[..|actions| - 1], c) || actions[|actions| - 1].Comment() == c
  {
    var n := |actions| - 1;
    if Touches(actions[..n], c) {
      var i :| 0 <= i < |actions[..n]| && actions[..n][i].Comment() == c;
      assert actions[i].Comment() == c;
    }
    if Touches(actions, c) {
      var i :| 0 <= i < |actions| && actions[i].Comment() == c;
      assert i < n ==> actions[..n][i].Comment() == c;
    }
  }

  /** What an action leaves of the rules with its comment. */
  function Leaves(a: RuleAction, x: Codec, had: seq<string>): (r: seq<string>) {
    match a
    case AddRule(f) => had + Own(x, f)
    case ChangeRule(f) => Own(x, f)
    case DeleteRule(_) => []
  }

  /** What the actions leave of one comment: its action's own result, or what was there. */
  lemma {:induction false} EffectsOnComment(rules: seq<string>, x: Codec, actions: seq<RuleAction>, c: string)
    requires Orderly(actions, x)
    ensures !Touches(actions, c) ==> With(Effects(rules, x, actions), x, c) == With(rules, x, c)
    ensures forall i | 0 <= i < |actions| && actions[i].Comment() == c ::
              With(Effects(rules, x, actions), x, c) == Leaves(actions[i], x, With(rules, x, c))
  {
    if actions != [] {
      var n := |actions| - 1;
      var before, a := Effects(rules, x, actions[..n]), actions[n];
      EffectsOnComment(rules, x, actions[..n], c);
      EffectOnComment(before, x, a, c);
      TouchesSnoc(actions, c);
      if a.Comment() != c {
        forall i | 0 <= i < |actions| && actions[i].Comment() == c ensures i < n && actions[..n][i] == actions[i] {}
      } else {
        assert !Touches(actions[..n], c);
      }
    }
  }

  lemma EffectOnComment(rules: seq<string>, x: Codec, a: RuleAction, c: string)
    requires !a.DeleteRule? ==> x.read(x.write(a.f)) == a.f.comment
    ensures With(Effect(rules, x, a), x, c) == if a.Comment() != c then With(rules, x, c)
            else Leaves(a, x, With(rules, x, c))
  {
    match a {
      case AddRule(f) => WithSnocOwn(rules, x, f, c);
      case ChangeRule(f) =>
        WithOfWithout(rules, x, c, f.comment);
        WithSnocOwn(WithoutComment(rules, x, f.comment), x, f, c);
      case DeleteRule(d) => WithOfWithout(rules, x, c, d);
    }
  }

  lemma WithSnocOwn(rules: seq<string>, x: Codec, f: Forwarding, c: string)
    requires x.read(x.write(f)) == f.comment
    ensures With(rules + Own(x, f), x, c) == With(rules, x, c) + (if f.comment == c then Own(x, f) else [])
  {
    if x.written {
      WithSnoc(rules, x.write(f), x, c);
    } else {
      assert rules + [] == rules;
    }
  }

  /** Rules without a managed comment stay, in their order. */
  lemma {:induction false} UntaggedRulesStay(rules: seq<string>, x: Codec, actions: seq<RuleAction>)
    requires Orderly(actions, x)
    ensures Untagged(Effects(rules, x, actions), x) == Untagged(rules, x)
  {
    if actions != [] {
      var n := |actions| - 1;
      UntaggedRulesStay(rules, x, actions[..n]);
      UntaggedRulesStayOnce(Effects(rules, x, actions[..n]), x, actions[n]);
    }
  }

  lemma UntaggedRulesStayOnce(rules: seq<string>, x: Codec, a: RuleAction)
    requires Managed(a.Comment()) && (!a.DeleteRule? ==> x.read(x.write(a.f)) == a.f.comment)
    ensures Untagged(Effect(rules, x, a), x) == Untagged(rules, x)
  {
    UntaggedOfWithout(rules, x, a.Comment());
    if !a.DeleteRule? {
      var base := if a.AddRule? then rules else WithoutComment(rules, x, a.f.comment);
      if x.written {
        UntaggedSnoc(base, x.write(a.f), x);
      } else {
        assert base + [] == base;
      }
    }
  }

  // ------------------------------------------------ undoing additions and deletions

  /** Removing rules one by one, the last one first. */
  function RemoveEach(rules: seq<string>, gone: seq<string>): (r: seq<string>)
    decreases |gone|
  {
    if gone == [] then rules
    else
      var n := |gone| - 1;
      RemoveEach(RemoveFirst(rules, gone[n]), gone[..n])
  }

  /** Every removal of RemoveEach finds its rule. */
  predicate AllFound(rules: seq<string>, gone: seq<string>)
    decreases |gone|
  {
    if gone == [] then true
    else
      var n := |gone| - 1;
      gone[n] in rules && AllFound(RemoveFirst(rules, gone[n]), gone[..n])
  }

  /** What of the chain's first rules the deletions among the actions leave. */
  function Kept(rules: seq<string>, x: Codec, actions: seq<RuleAction>): (r: seq<string>) {
    if actions == [] then rules
    else
      var n := |actions| - 1;
      var kept := Kept(rules, x, actions[..n]);
      if actions[n].DeleteRule? then WithoutComment(kept, x, actions[n].comment) else kept
  }

  ghost predicate OnlyAddsAndDeletes(actions: seq<RuleAction>) {
    forall i | 0 <= i < |actions| :: !actions[i].ChangeRule?
  }

  /** The additions of an add/delete plan end the chain; in front of them is what is kept. */
  lemma {:induction false} EffectsSplit(rules: seq<string>, x: Codec, actions: seq<RuleAction>)
    requires Orderly(actions, x) && OnlyAddsAndDeletes(actions)
    ensures Effects(rules, x, actions) == Kept(rules, x, actions) + Given(x, actions)
    ensures multiset(rules) == multiset(Kept(rules, x, actions)) + multiset(Taken(rules, x, actions))
  {
    if actions == [] {
      assert rules + [] == rules;
    } else {
      var n := |actions| - 1;
      EffectsSplit(rules, x, actions[..n]);
      if actions[n].DeleteRule? {
        DeletionSplits(rules, x, actions);
      } else {
        assert Kept(rules, x, actions[..n]) + Given(x, actions[..n]) + Own(x, actions[n].f)
            == Kept(rules, x, actions[..n]) + (Given(x, actions[..n]) + Own(x, actions[n].f));
      }
    }
  }

  lemma DeletionSplits(rules: seq<string>, x: Codec, actions: seq<RuleAction>)
    requires actions != [] && Orderly(actions, x) && actions[|actions| - 1].DeleteRule?
    requires var prefix := actions[..|actions| - 1];
             && Effects(rules, x, prefix) == Kept(rules, x, prefix) + Given(x, prefix)
             && multiset(rules) == multiset(Kept(rules, x, prefix)) + multiset(Taken(rules, x, prefix))
    ensures Effects(rules, x, actions) == Kept(rules, x, actions) + Given(x, actions)
    ensures multiset(rules) == multiset(Kept(rules, x, actions)) + multiset(Taken(rules, x, actions))
  {
    var n := |actions| - 1;
    var prefix, c := actions[..n], actions[n].comment;
    var kept, given := Kept(rules, x, prefix), Given(x, prefix);
    NotTouchedBefore(actions);
    GivenAvoids(x, prefix, c);
    SplitByComment(kept, given, x, c);
    WithoutIsRest(kept, x, c);
    assert Given(x, actions) == given;
    assert Taken(rules, x, actions) == Taken(rules, x, prefix) + With(kept, x, c);
  }

  lemma NotTouchedBefore(actions: seq<RuleAction>)
    requires actions != []
    requires forall i, j | 0 <= i < j < |actions| :: actions[i].Comment() != actions[j].Comment()
    ensures !Touches(actions[..|actions| - 1], actions[|actions| - 1].Comment())
  {
    var n := |actions| - 1;
    forall i | 0 <= i < n ensures actions[..n][i].Comment() != actions[n].Comment() {
      assert actions[..n][i] == actions[i];
    }
  }

  lemma {:induction false} GivenAvoids(x: Codec, actions: seq<RuleAction>, c: string)
    requires Orderly(actions, x) && !Touches(actions, c)
    ensures forall i | 0 <= i < |Given(x, actions)| :: x.read(Given(x, actions)[i]) != c
  {
    if actions != [] {
      TouchesSnoc(actions, c);
      GivenAvoids(x, actions[..|actions| - 1], c);
    }
  }

  lemma {:induction false} SplitByComment(kept: seq<string>, given: seq<string>, x: Codec, c: string)
    requires forall i | 0 <= i < |given| :: x.read(given[i]) != c
    ensures With(kept + given, x, c) == With(kept, x, c)
    ensures WithoutComment(kept + given, x, c) == WithoutComment(kept, x, c) + given
  {
    if given == [] {
      assert kept + given == kept;
    } else {
      var n := |given| - 1;
      assert kept + given == kept + given[..n] + [given[n]];
      SplitByComment(kept, given[..n], x, c);
      WithSnoc(kept + given[..n], given[n], x, c);
      WithoutSnoc(kept + given[..n], given[n], x, c);
      Snoc(given);
    }
  }

  /** The added rules are new to the chain and differ from each other. */
  lemma {:induction false} GivenIsNew(rules: seq<string>, x: Codec, actions: seq<RuleAction>)
    requires Orderly(actions, x)
    requires forall i | 0 <= i < |actions| && !actions[i].DeleteRule? :: With(rules, x, actions[i].f.comment) == []
    ensures forall i | 0 <= i < |Given(x, actions)| :: Given(x, actions)[i] !in rules
    ensures forall i, j | 0 <= i < j < |Given(x, actions)| :: Given(x, actions)[i] != Given(x, actions)[j]
  {
    if actions != [] {
      var n := |actions| - 1;
      var a := actions[n];
      GivenIsNew(rules, x, actions[..n]);
      if !a.DeleteRule? && x.written {
        NotTouchedBefore(actions);
        GivenAvoids(x, actions[..n], a.f.comment);
        WithMembers(rules, x, a.f.comment);
        assert With(rules, x, actions[n].f.comment) == [];
      }
    }
  }

  lemma {:induction false} KeptMembers(rules: seq<string>, x: Codec, actions: seq<RuleAction>)
    ensures forall r | r in Kept(rules, x, actions) :: r in rules
    ensures (forall i | 0 <= i < |actions| :: !actions[i].DeleteRule?) ==>
              Kept(rules, x, actions) == rules && Taken(rules, x, actions) == []
  {
    if actions != [] {
      var n := |actions| - 1;
      KeptMembers(rules, x, actions[..n]);
      if actions[n].DeleteRule? {
        WithoutMembers(Kept(rules, x, actions[..n]), x, actions[n].comment);
      }
    }
  }

  lemma {:induction false} RemoveEachUndoesAppend(kept: seq<string>, given: seq<string>)
    requires forall i | 0 <= i < |given| :: given[i] !in kept
    requires forall i, j | 0 <= i < j < |given| :: given[i] != given[j]
    ensures AllFound(kept + given, given) && RemoveEach(kept + given, given) == kept
  {
    if given == [] {
      assert kept + given == kept;
    } else {
      var n := |given| - 1;
      var last := given[n];
      assert last !in given[..n];
      assert kept + given == (kept + given[..n]) + [last] + [];
      RemoveFirstAt(kept + given[..n], last, []);
      assert kept + given[..n] + [] == kept + given[..n];
      RemoveEachUndoesAppend(kept, given[..n]);
    }
  }

  /** Undoing a fully applied plan of additions and deletions, the way rollback does it,
      finds every rule it removes and gives back the same rules; and the same sequence when
      nothing was deleted. */
  lemma InverseRestores(rules: seq<string>, x: Codec, actions: seq<RuleAction>)
    requires Orderly(actions, x) && OnlyAddsAndDeletes(actions)
    requires forall i | 0 <= i < |actions| && actions[i].AddRule? :: With(rules, x, actions[i].f.comment) == []
    ensures var now, given, taken := Effects(rules, x, actions), Given(x, actions), Taken(rules, x, actions);
            && AllFound(now, given)
            && multiset(RemoveEach(now, given) + taken) == multiset(rules)
            && Untagged(RemoveEach(now, given), x) == Untagged(rules, x)
            && ((forall i | 0 <= i < |actions| :: !actions[i].DeleteRule?) ==> RemoveEach(now, given) + taken == rules)
  {
    EffectsSplit(rules, x, actions);
    GivenIsNew(rules, x, actions);
    KeptMembers(rules, x, actions);
    RemoveEachUndoesAppend(Kept(rules, x, actions), Given(x, actions));
    KeptKeepsUntagged(rules, x, actions);
  }

  lemma {:induction false} KeptKeepsUntagged(rules: seq<string>, x: Codec, actions: seq<RuleAction>)
    requires Orderly(actions, x)
    ensures Untagged(Kept(rules, x, actions), x) == Untagged(rules, x)
  {
    if actions != [] {
      var n := |actions| - 1;
      KeptKeepsUntagged(rules, x, actions[..n]);
      if actions[n].DeleteRule? {
        assert Managed(actions[n].Comment());
        UntaggedOfWithout(Kept(rules, x, actions[..n]), x, actions[n].comment);
      }
    }
  }
}
