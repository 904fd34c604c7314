/** What one command of the iptables manager may change, and how such changes add up: the
    frames of internal/firewall/iptables.go. */
module FirewallFrames {
  import opened Model
  import opened Text
  import opened Tables
  import opened HostState
  import opened RuleText
  import opened FirewallSpec
  import opened FirewallSync

  /** A rule the manager added or deleted: where, and with which arguments. */
  datatype Placed = Placed(view: View, args: seq<string>)

  /** The texts of the rules placed in one chain, in order. */
  function RulesIn(ps: seq<Placed>, v: View): (r: seq<string>) {
    if ps == [] then []
    else
      var n := |ps| - 1;
      RulesIn(ps[..n], v) + (if ps[n].view == v then [Join(ps[n].args)] else [])
  }

  lemma {:induction false} RulesInConcat(a: seq<Placed>, b: seq<Placed>, v: View)
    ensures RulesIn(a + b, v) == RulesIn(a, v) + RulesIn(b, v)
  {
    if b == [] {
      assert a + b == a;
    } else {
      var n := |b| - 1;
      assert (a + b)[..|a + b| - 1] == a + b[..n];
      RulesInConcat(a, b[..n], v);
    }
  }

  lemma {:induction false} RuleLinesAt(chain: string, rules: seq<string>, i: nat)
    requires i < |rules|
    ensures |RuleLines(chain, rules)| == |rules| && RuleLines(chain, rules)[i] == RuleLine(chain, rules[i])
  {
    var n := |rules| - 1;
    RuleLinesLength(chain, rules[..n]);
    if i < n {
      RuleLinesAt(chain, rules[..n], i);
    }
  }

  lemma {:induction false} RuleLinesLength(chain: string, rules: seq<string>)
    ensures |RuleLines(chain, rules)| == |rules|
  {
    if rules != [] {
      RuleLinesLength(chain, rules[..|rules| - 1]);
    }
  }

  /** A listed line names the chain or holds a rule, and trimming does not hide which. */
  lemma ListedLines(s: Slot, rule: string)
    ensures Trim("-N " + ChainName(s)) != "" && "-N " <= Trim("-N " + ChainName(s))
    ensures var line := Trim(RuleLine(ChainName(s), rule)); line != "" && "-A " <= line && !("-N " <= line)
  {
    var c := ChainName(s);
    assert c != "" && !IsSpace(c[|c| - 1]) by {
      ChainIsKnown(s);
      ChainsAreClean();
    }
    TrimOfTrimmed("-N " + c);
    var head := "-A " + c;
    assert RuleLine(c, rule) == head + (" " + rule);
    TrimKeepsHead(head, " " + rule);
    var line := Trim(RuleLine(c, rule));
    assert line == head + TrimRight(" " + rule, Spaces);
    assert line[0] == '-' && line[1] == 'A' && line[2] == ' ';
    assert "-N "[1] == 'N';
  }

  /** Trimming keeps a head that starts and ends with something visible. */
  lemma TrimKeepsHead(head: string, rest: string)
    requires head != "" && Trimmed(head)
    ensures Trim(head + rest) == head + TrimRight(rest, Spaces)
  {
    var r := TrimRight(rest, Spaces);
    TrimRightCuts(rest, Spaces);
    HeadedIsTrimmed(head, r);
    Regroup(head, r, rest[|r|..]);
    assert r + rest[|r|..] == rest;
    TrimIsUnique(head + rest, "", head + r, rest[|r|..]);
  }

  lemma HeadedIsTrimmed(head: string, r: string)
    requires head != "" && Trimmed(head) && (r != "" ==> !IsSpace(r[|r| - 1]))
    ensures Trimmed(head + r)
  {
    assert (head + r)[0] == head[0];
  }

  lemma Regroup(a: string, b: string, c: string)
    ensures a + (b + c) == "" + (a + b) + c
  {
  }

  /** What the first i lines of a listing, the first of which names the chain, contribute. */
  ghost predicate ReportedUpTo(s: Slot, x: Codec, held: seq<string>, i: nat, rules: seq<FirewallRule>,
                               conflicts: seq<Conflict>) {
    var n := if i == 0 then 0 else i - 1;
    n <= |held| && rules == ReportedAll(s, x, held[..n]) && conflicts == AliensAmong(s, x, held[..n])
  }

  lemma ReportedNone(s: Slot, x: Codec, held: seq<string>)
    ensures ReportedUpTo(s, x, held, 0, [], [])
  {
    assert held[..0] == [];
  }

  lemma ReportedStep(s: Slot, x: Codec, held: seq<string>, i: nat, rules: seq<FirewallRule>, conflicts: seq<Conflict>)
    requires ReportedUpTo(s, x, held, i, rules, conflicts) && i <= |held|
    ensures if i == 0 then ReportedUpTo(s, x, held, 1, rules + [], conflicts + [])
            else ReportedUpTo(s, x, held, i + 1, rules + Reported(s, x, held[i - 1]),
                              conflicts + AlienIn(s, x, held[i - 1]))
  {
    assert rules + [] == rules && conflicts + [] == conflicts;
    if i > 0 {
      assert held[..i][..i - 1] == held[..i - 1];
    }
  }

  // ------------------------------------------------------------- conditions

  /** The agent's own way of reading a rule with this comment gives back the rule. */
  ghost predicate Deletable(s: Slot, rules: seq<string>, comment: string) {
    forall r | r in rules && CodecOf(s).read(r) == comment :: IsReadBack(s, r)
  }

  predicate IsReadBack(s: Slot, rule: string) {
    SeenArgs(ChainName(s), rule).Some? && Join(SeenArgs(ChainName(s), rule).value) == rule
  }

  /** Every managed rule can be deleted by reading it. */
  ghost predicate Canonical(t: Chains) {
    forall s: Slot, c | Managed(c) :: Deletable(s, RulesOf(t, ViewOf(s)), c)
  }

  /** Everything but one chain is as before. */
  ghost predicate OnlyChanges(t: Chains, t': Chains, v: View) {
    t'.Keys == t.Keys && forall u | u in t && u != v :: t'[u] == t[u]
  }

  /** The rules of a built-in chain that are not jumps to the agent's chains, in order. */
  function Foreign(rules: seq<string>): (r: seq<string>) {
    if rules == [] then []
    else
      var n := |rules| - 1;
      Foreign(rules[..n]) + (if IsJump(rules[n]) then [] else [rules[n]])
  }

  predicate IsJump(rule: string) {
    exists s | s in SLOTS :: rule == Jump(s)
  }

  /** Chains the agent has no business with are untouched, and the built-in chains keep
      every rule of theirs, in order: only jumps come and go. */
  ghost predicate LeavesOthersAlone(t: Chains, t': Chains) {
    forall v: View | forall s: Slot :: v != ViewOf(s) :: 
      && (v in t ==> v in t')
      && Foreign(RulesOf(t', v)) == Foreign(RulesOf(t, v))
      && ((forall kind: Kind :: v != ParentOf(kind)) ==> RulesOf(t', v) == RulesOf(t, v) && (v in t' ==> v in t))
  }

  /** Nothing but the agent's own chains has changed. */
  ghost predicate OnlyOwnChains(t: Chains, t': Chains) {
    t'.Keys == t.Keys && forall v: View | forall s: Slot :: v != ViewOf(s) :: RulesOf(t', v) == RulesOf(t, v)
  }

  lemma OwnChangesAreAllowed(t: Chains, t': Chains, s: Slot)
    requires OnlyChanges(t, t', ViewOf(s))
    ensures OnlyOwnChains(t, t')
  {
  }

  lemma OnlyOwnTransitive(t: Chains, t': Chains, t'': Chains)
    requires OnlyOwnChains(t, t') && OnlyOwnChains(t', t'')
    ensures OnlyOwnChains(t, t'')
  {
  }

  lemma OwnChangesKeepJumps(t: Chains, t': Chains)
    requires OnlyOwnChains(t, t')
    ensures LeavesOthersAlone(t, t')
    ensures forall kind: Kind :: RulesOf(t', ParentOf(kind)) == RulesOf(t, ParentOf(kind))
    ensures Jumping(t) ==> Jumping(t')
    ensures ChainsExist(t) ==> ChainsExist(t')
  {
    AllParentsAreForeign();
    if Jumping(t) {
      forall kind: Kind ensures Jumps(t', kind) {
        assert Jumps(t, kind);
      }
    }
  }

  lemma AllParentsAreForeign()
    ensures forall kind: Kind, s: Slot :: ParentOf(kind) != ViewOf(s)
  {
    forall kind: Kind, s: Slot ensures ParentOf(kind) != ViewOf(s) {
      ParentsAreForeign(kind, s);
    }
  }

  lemma LeavesOthersAloneTransitive(t: Chains, t': Chains, t'': Chains)
    requires LeavesOthersAlone(t, t') && LeavesOthersAlone(t', t'')
    ensures LeavesOthersAlone(t, t'')
  {
  }

  ghost predicate ChainsExist(t: Chains) {
    forall kind: Kind :: ViewOf(Slot(kind, false)) in t
  }

  ghost predicate ParentsExist(t: Chains) {
    forall kind: Kind :: ParentOf(kind) in t
  }

  const KINDS: seq<Kind> := [Dnat, Forward, Snat]

  function KindIndex(kind: Kind): (k: nat)
    ensures k < |KINDS| && KINDS[k] == kind
  {
    match kind case Dnat => 0 case Forward => 1 case Snat => 2
  }

  lemma ParentsDiffer(kind: Kind, other: Kind)
    requires kind != other
    ensures ParentOf(kind) != ParentOf(other)
  {
    assert "PREROUTING"[1] == 'R' && "POSTROUTING"[1] == 'O';
  }

  predicate Jumps(t: Chains, kind: Kind) {
    Jump(Slot(kind, false)) in RulesOf(t, ParentOf(kind))
  }

  /** Every current chain is jumped to. */
  ghost predicate Jumping(t: Chains) {
    forall kind: Kind :: Jumps(t, kind)
  }

  lemma {:induction false} OtherCountStays(rules: seq<string>, rule: string, other: string)
    requires other != rule
    ensures multiset(RemoveFirst(rules, rule))[other] == multiset(rules)[other]
  {
    if rules != [] {
      assert rules == [rules[0]] + rules[1..];
      if rules[0] != rule {
        OtherCountStays(rules[1..], rule, other);
      }
    }
  }

  /** No chain is lost, and the agent's own chains hold what they held. */
  ghost predicate KeepsRules(t: Chains, t': Chains) {
    t.Keys <= t'.Keys && forall s: Slot :: RulesOf(t', ViewOf(s)) == RulesOf(t, ViewOf(s))
  }

  /** At most chain v is new, and at most one jump has been appended to its parent. */
  ghost predicate Ensured(t: Chains, t': Chains, v: View, parent: View, jump: string) {
    && t.Keys <= t'.Keys && t'.Keys <= t.Keys + {v}
    && (forall u | u != parent :: RulesOf(t', u) == RulesOf(t, u))
    && (RulesOf(t', parent) == RulesOf(t, parent) || RulesOf(t', parent) == RulesOf(t, parent) + [jump])
  }

  /** At most one jump has been removed. */
  ghost predicate Dropped(t: Chains, t': Chains, parent: View, jump: string) {
    && t'.Keys == t.Keys
    && (forall u | u != parent :: RulesOf(t', u) == RulesOf(t, u))
    && (RulesOf(t', parent) == RulesOf(t, parent) || RulesOf(t', parent) == RemoveFirst(RulesOf(t, parent), jump))
  }

  lemma EnsuredLeavesOthersAlone(t: Chains, t': Chains, kind: Kind, s: Slot)
    requires Ensured(t, t', ViewOf(s), ParentOf(kind), Jump(s))
    ensures LeavesOthersAlone(t, t') && KeepsRules(t, t')
  {
    ForeignOfJump(RulesOf(t, ParentOf(kind)), s);
    forall s': Slot ensures ViewOf(s') != ParentOf(kind) { ParentsAreForeign(kind, s'); }
  }

  lemma DroppedLeavesOthersAlone(t: Chains, t': Chains, kind: Kind, s: Slot)
    requires Dropped(t, t', ParentOf(kind), Jump(s))
    ensures LeavesOthersAlone(t, t') && KeepsRules(t, t')
  {
    ForeignOfRemoval(RulesOf(t, ParentOf(kind)), s);
    forall s': Slot ensures ViewOf(s') != ParentOf(kind) { ParentsAreForeign(kind, s'); }
  }

  lemma EnsuredStep(was: Chains, now: Chains, next: Chains, i: nat)
    requires i < |KINDS|
    requires LeavesOthersAlone(was, now) && KeepsRules(was, now)
    requires Ensured(now, next, ViewOf(Slot(KINDS[i], false)), ParentOf(KINDS[i]), Jump(Slot(KINDS[i], false)))
    ensures LeavesOthersAlone(was, next) && KeepsRules(was, next)
    ensures forall k | 0 <= k < |KINDS| && k != i ::
              RulesOf(next, ParentOf(KINDS[k])) == RulesOf(now, ParentOf(KINDS[k]))
  {
    EnsuredLeavesOthersAlone(now, next, KINDS[i], Slot(KINDS[i], false));
    LeavesOthersAloneTransitive(was, now, next);
    OtherParents(i);
  }

  lemma DroppedStep(was: Chains, now: Chains, next: Chains, i: nat)
    requires i < |KINDS|
    requires LeavesOthersAlone(was, now) && KeepsRules(was, now)
    requires Dropped(now, next, ParentOf(KINDS[i]), Jump(Slot(KINDS[i], true)))
    ensures LeavesOthersAlone(was, next) && KeepsRules(was, next)
    ensures forall k | 0 <= k < |KINDS| && k != i ::
              RulesOf(next, ParentOf(KINDS[k])) == RulesOf(now, ParentOf(KINDS[k]))
    ensures Jumping(now) ==> Jumping(next)
  {
    DroppedLeavesOthersAlone(now, next, KINDS[i], Slot(KINDS[i], true));
    LeavesOthersAloneTransitive(was, now, next);
    OtherParents(i);
    if Jumping(now) {
      forall kind: Kind ensures Jumps(next, kind) {
        assert Jumps(now, kind);
        if kind == KINDS[i] {
          JumpSurvives(RulesOf(now, ParentOf(kind)), kind);
        } else {
          ParentsDiffer(kind, KINDS[i]);
        }
      }
    }
  }

  lemma OtherParents(i: nat)
    requires i < |KINDS|
    ensures forall k | 0 <= k < |KINDS| && k != i :: ParentOf(KINDS[k]) != ParentOf(KINDS[i])
  {
    forall k | 0 <= k < |KINDS| && k != i ensures ParentOf(KINDS[k]) != ParentOf(KINDS[i]) {
      ParentsDiffer(KINDS[k], KINDS[i]);
    }
  }

  lemma LinkedThenDropped(t: Chains, t': Chains, t'': Chains)
    requires LeavesOthersAlone(t, t') && KeepsRules(t, t') && LeavesOthersAlone(t', t'') && KeepsRules(t', t'')
    ensures LeavesOthersAlone(t, t'') && KeepsRules(t, t'')
  {
    LeavesOthersAloneTransitive(t, t', t'');
  }

  lemma ForeignOfJump(rules: seq<string>, s: Slot)
    ensures Foreign(rules + [Jump(s)]) == Foreign(rules)
  {
    SlotsAreAll(s);
    assert (rules + [Jump(s)])[..|rules|] == rules;
  }

  lemma {:induction false} ForeignConcat(a: seq<string>, b: seq<string>)
    ensures Foreign(a + b) == Foreign(a) + Foreign(b)
  {
    if b == [] {
      assert a + b == a;
    } else {
      var n := |b| - 1;
      assert (a + b)[..|a + b| - 1] == a + b[..n];
      ForeignConcat(a, b[..n]);
    }
  }

  lemma {:induction false} ForeignOfRemoval(rules: seq<string>, s: Slot)
    ensures Foreign(RemoveFirst(rules, Jump(s))) == Foreign(rules)
  {
    if rules != [] {
      SlotsAreAll(s);
      assert rules == [rules[0]] + rules[1..];
      ForeignConcat([rules[0]], rules[1..]);
      if rules[0] == Jump(s) {
        ForeignOfOne(rules[0]);
      } else {
        ForeignOfRemoval(rules[1..], s);
        ForeignConcat([rules[0]], RemoveFirst(rules[1..], Jump(s)));
      }
    }
  }

  lemma ForeignOfOne(rule: string)
    ensures Foreign([rule]) == if IsJump(rule) then [] else [rule]
  {
    assert [rule][..0] == [];
  }

  lemma {:induction false} RemoveAbsent(rules: seq<string>, rule: string)
    requires rule !in rules
    ensures RemoveFirst(rules, rule) == rules
  {
    if rules != [] {
      RemoveAbsent(rules[1..], rule);
    }
  }

  lemma {:induction false} RemoveOther(rules: seq<string>, rule: string, other: string)
    requires other in rules && other != rule
    ensures other in RemoveFirst(rules, rule)
  {
    if rules[0] != rule && rules[0] != other {
      RemoveOther(rules[1..], rule, other);
    }
  }

  lemma JumpsDiffer(s: Slot, t: Slot)
    requires s != t
    ensures Jump(s) != Jump(t)
  {
    ChainNamesDiffer(s, t);
    if Jump(s) == Jump(t) {
      JumpWordsAreClean(s);
      JumpWordsAreClean(t);
      JumpNamesChain(JumpWord(s), ChainName(s), JumpWord(t), ChainName(t));
    }
  }

  function JumpWord(s: Slot): (r: string) { JumpArgs(s)[3] }

  lemma JumpCommentsAreClean()
    ensures Clean(JUMP_COMMENT) && Clean(LEGACY_JUMP_COMMENT)
  {
  }

  lemma ChainNameIsClean(s: Slot)
    ensures Clean(ChainName(s))
  {
    ChainIsKnown(s);
    ChainsAreClean();
  }

  lemma JumpWordsAreClean(s: Slot)
    ensures Clean(JumpWord(s)) && Clean(ChainName(s))
  {
    ChainNameIsClean(s);
    JumpCommentsAreClean();
  }

  lemma JumpNamesChain(comment: string, chain: string, comment': string, chain': string)
    requires Clean(comment) && Clean(chain) && Clean(comment') && Clean(chain')
    requires Join(["-m", "comment", "--comment", comment, "-j", chain])
             == Join(["-m", "comment", "--comment", comment', "-j", chain'])
    ensures chain == chain'
  {
    var a, b := ["-m", "comment", "--comment", comment, "-j", chain],
        ["-m", "comment", "--comment", comment', "-j", chain'];
    assert Clean("-m") && Clean("comment") && Clean("--comment") && Clean("-j");
    JoinIsInjective(a, b);
    assert a[5] == b[5];
  }

  lemma JumpSurvives(rules: seq<string>, kind: Kind)
    requires Jump(Slot(kind, false)) in rules
    ensures Jump(Slot(kind, false)) in RemoveFirst(rules, Jump(Slot(kind, true)))
  {
    JumpsDiffer(Slot(kind, false), Slot(kind, true));
    RemoveOther(rules, Jump(Slot(kind, true)), Jump(Slot(kind, false)));
  }

  lemma AddedIn(f: Forwarding, s: Slot)
    ensures RulesIn([Placed(ViewOf(Slot(Dnat, false)), RuleArgs(Dnat, f)),
                     Placed(ViewOf(Slot(Forward, false)), RuleArgs(Forward, f)),
                     Placed(ViewOf(Slot(Snat, false)), RuleArgs(Snat, f))], ViewOf(s)) == Own(CodecOf(s), f)
  {
    SlotOf(s);
    if s != Slot(Dnat, false) { ViewsDiffer(s, Slot(Dnat, false)); }
    if s != Slot(Forward, false) { ViewsDiffer(s, Slot(Forward, false)); }
    if s != Slot(Snat, false) { ViewsDiffer(s, Slot(Snat, false)); }
    RulesInThree(Placed(ViewOf(Slot(Dnat, false)), RuleArgs(Dnat, f)),
                 Placed(ViewOf(Slot(Forward, false)), RuleArgs(Forward, f)),
                 Placed(ViewOf(Slot(Snat, false)), RuleArgs(Snat, f)), ViewOf(s));
  }

  lemma RulesInThree(a: Placed, b: Placed, c: Placed, v: View)
    ensures RulesIn([a, b, c], v)
            == (if a.view == v then [Join(a.args)] else []) + (if b.view == v then [Join(b.args)] else [])
               + (if c.view == v then [Join(c.args)] else [])
  {
    var x := if a.view == v then [Join(a.args)] else [];
    assert [a, b, c][..2] == [a, b] && [a, b][..1] == [a] && [a][..0] == [];
    assert RulesIn([a], v) == [] + x == x;
  }

  ghost predicate AllDeletable(t: Chains, comment: string) {
    forall s: Slot :: Deletable(s, RulesOf(t, ViewOf(s)), comment)
  }

  /** The rules with the comment, and no others, have left the first k chains; the record of
      what was deleted says so, chain by chain. */
  ghost predicate DeletedIn(t: Chains, t': Chains, deleted: seq<Placed>, slots: seq<Slot>, k: nat, comment: string)
    requires k <= |slots|
  {
    forall i | 0 <= i < k ::
      Deleted(CodecOf(slots[i]), RulesOf(t, ViewOf(slots[i])), comment, RulesOf(t', ViewOf(slots[i])),
              RulesIn(deleted, ViewOf(slots[i])))
  }

  lemma SlotsDiffer(i: nat, j: nat)
    requires i < j < |SLOTS|
    ensures ViewOf(SLOTS[i]) != ViewOf(SLOTS[j])
  {
    assert SLOTS[i] != SLOTS[j];
    ViewsDiffer(SLOTS[i], SLOTS[j]);
  }

  lemma {:induction false} RulesInElsewhere(ps: seq<Placed>, v: View)
    requires forall p | p in ps :: p.view != v
    ensures RulesIn(ps, v) == []
  {
    if ps != [] {
      RulesInElsewhere(ps[..|ps| - 1], v);
    }
  }

  lemma DeletedInStep(was: Chains, now: Chains, next: Chains, before: seq<Placed>, some: seq<Placed>, i: nat,
                      comment: string)
    requires i < |SLOTS| && OnlyChanges(now, next, ViewOf(SLOTS[i]))
    requires forall p | p in some :: p.view == ViewOf(SLOTS[i])
    requires forall p | p in before :: exists k :: 0 <= k < i && p.view == ViewOf(SLOTS[k])
    requires forall k | i <= k < |SLOTS| :: RulesOf(now, ViewOf(SLOTS[k])) == RulesOf(was, ViewOf(SLOTS[k]))
    ensures forall k | i < k < |SLOTS| :: RulesOf(next, ViewOf(SLOTS[k])) == RulesOf(was, ViewOf(SLOTS[k]))
    ensures forall p | p in before + some :: exists k :: 0 <= k < i + 1 && p.view == ViewOf(SLOTS[k])
    ensures DeletedIn(was, now, before, SLOTS, i, comment)
            && Deleted(CodecOf(SLOTS[i]), RulesOf(now, ViewOf(SLOTS[i])), comment, RulesOf(next, ViewOf(SLOTS[i])),
                       RulesIn(some, ViewOf(SLOTS[i])))
            ==> DeletedIn(was, next, before + some, SLOTS, i + 1, comment)
  {
    forall k | 0 <= k < |SLOTS| && k != i
      ensures RulesOf(next, ViewOf(SLOTS[k])) == RulesOf(now, ViewOf(SLOTS[k]))
      ensures RulesIn(before + some, ViewOf(SLOTS[k])) == RulesIn(before, ViewOf(SLOTS[k]))
    {
      if k < i { SlotsDiffer(k, i); } else { SlotsDiffer(i, k); }
      RulesInConcat(before, some, ViewOf(SLOTS[k]));
      RulesInElsewhere(some, ViewOf(SLOTS[k]));
    }
    RulesInConcat(before, some, ViewOf(SLOTS[i]));
    forall p | p in before ensures p.view != ViewOf(SLOTS[i]) {
      var k :| 0 <= k < i && p.view == ViewOf(SLOTS[k]);
      SlotsDiffer(k, i);
    }
    RulesInElsewhere(before, ViewOf(SLOTS[i]));
  }

  /** The first k rules of a listing have been looked at: `now` is what the chain holds,
      `gone` what was deleted. */
  ghost predicate Deleting(x: Codec, held: seq<string>, k: nat, comment: string, now: seq<string>, gone: seq<string>)
    requires k <= |held|
  {
    now == WithoutComment(held[..k], x, comment) + held[k..] && gone == With(held[..k], x, comment)
  }

  /** The rules with the comment, and no others, have left the chain. */
  ghost predicate Deleted(x: Codec, held: seq<string>, comment: string, now: seq<string>, gone: seq<string>) {
    now == WithoutComment(held, x, comment) && gone == With(held, x, comment)
  }

  lemma DeletingEnds(x: Codec, held: seq<string>, comment: string, now: seq<string>, gone: seq<string>)
    ensures Deleting(x, held, 0, comment, held, [])
    ensures Deleting(x, held, |held|, comment, now, gone) ==> Deleted(x, held, comment, now, gone)
  {
    assert held[..0] == [] && [] + held == held && held[0..] == held;
    assert held[..|held|] == held && WithoutComment(held, x, comment) + held[|held|..]
           == WithoutComment(held, x, comment);
  }

  /** What the k-th rule of a listing means for the deletions. */
  lemma DeletingStep(x: Codec, held: seq<string>, k: nat, comment: string, now: seq<string>, gone: seq<string>)
    requires k < |held|
    ensures Deleting(x, held, k, comment, now, gone) ==>
              if x.read(held[k]) != comment then Deleting(x, held, k + 1, comment, now, gone)
              else held[k] in now && Deleting(x, held, k + 1, comment, RemoveFirst(now, held[k]), gone + [held[k]])
  {
    var before, r, rest := held[..k], held[k], held[k + 1..];
    if Deleting(x, held, k, comment, now, gone) {
      assert held[..k + 1] == before + [r] && held[k..] == [r] + rest;
      DeletingOne(x, before, r, comment);
      DeletingSplit(WithoutComment(before, x, comment), r, rest);
      WithoutMembers(before, x, comment);
      if x.read(r) == comment {
        RemoveFirstAt(WithoutComment(before, x, comment), r, rest);
      }
    }
  }

  lemma DeletingSplit(w: seq<string>, r: string, rest: seq<string>)
    ensures w + ([r] + rest) == w + [r] + rest && r in w + ([r] + rest)
  {
  }

  lemma DeletingOne(x: Codec, before: seq<string>, r: string, comment: string)
    ensures WithoutComment(before + [r], x, comment)
            == if x.read(r) == comment then WithoutComment(before, x, comment)
                else WithoutComment(before, x, comment) + [r]
    ensures With(before + [r], x, comment)
            == if x.read(r) == comment then With(before, x, comment) + [r] else With(before, x, comment)
  {
    WithSnoc(before, r, x, comment);
    WithoutSnoc(before, r, x, comment);
    assert WithoutComment(before, x, comment) + [] == WithoutComment(before, x, comment);
    assert With(before, x, comment) + [] == With(before, x, comment);
  }
}
