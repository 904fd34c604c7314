/** What the iptables manager remembers of a transaction, and why undoing from that record
    brings the rules back (internal/firewall/iptables.go:118-213). */
module FirewallRecord {
  import opened Model
  import opened Text
  import opened Tables
  import opened RuleText
  import opened FirewallSpec
  import opened FirewallSync
  import opened FirewallFrames
  import Sorting
  import R = Reconcile

  ghost predicate AllManaged(actions: seq<RuleAction>) {
    forall i | 0 <= i < |actions| :: Managed(actions[i].Comment())
  }

  /** Rule actions the manager can carry out exactly. */
  ghost predicate Exact(t: Chains, actions: seq<RuleAction>) {
    Canonical(t) && AllReadable(actions) && AllManaged(actions)
  }

  ghost predicate OnSlots(ps: seq<Placed>) {
    forall p | p in ps :: exists s: Slot :: p.view == ViewOf(s)
  }

  /** The record holds what the actions added to and deleted from each chain. */
  ghost predicate Recorded(t: Chains, added: seq<Placed>, deleted: seq<Placed>, actions: seq<RuleAction>) {
    && OnSlots(added) && OnSlots(deleted)
    && forall s: Slot ::
         && RulesIn(added, ViewOf(s)) == Given(CodecOf(s), actions)
         && RulesIn(deleted, ViewOf(s)) == Taken(RulesOf(t, ViewOf(s)), CodecOf(s), actions)
  }

  /** One rule action has been carried out in every chain, and recorded. */
  ghost predicate CarriedOut(t: Chains, t': Chains, added: seq<Placed>, deleted: seq<Placed>, a: RuleAction) {
    && OnSlots(added) && OnSlots(deleted)
    && forall s: Slot ::
         && RulesOf(t', ViewOf(s)) == Effect(RulesOf(t, ViewOf(s)), CodecOf(s), a)
         && RulesIn(added, ViewOf(s)) == (if a.DeleteRule? then [] else Own(CodecOf(s), a.f))
         && RulesIn(deleted, ViewOf(s)) == (if a.DeleteRule? then With(RulesOf(t, ViewOf(s)), CodecOf(s), a.comment)
                                            else [])
  }

  lemma DeletedEverywhere(t: Chains, t': Chains, deleted: seq<Placed>, comment: string)
    requires DeletedIn(t, t', deleted, SLOTS, |SLOTS|, comment)
    ensures forall s: Slot ::
              && RulesOf(t', ViewOf(s)) == WithoutComment(RulesOf(t, ViewOf(s)), CodecOf(s), comment)
              && RulesIn(deleted, ViewOf(s)) == With(RulesOf(t, ViewOf(s)), CodecOf(s), comment)
  {
    forall s: Slot
      ensures RulesOf(t', ViewOf(s)) == WithoutComment(RulesOf(t, ViewOf(s)), CodecOf(s), comment)
      ensures RulesIn(deleted, ViewOf(s)) == With(RulesOf(t, ViewOf(s)), CodecOf(s), comment)
    {
      SlotsAreAll(s);
      var i :| 0 <= i < |SLOTS| && SLOTS[i] == s;
    }
  }

  lemma DeletionIsCarriedOut(t: Chains, t': Chains, deleted: seq<Placed>, comment: string)
    requires DeletedIn(t, t', deleted, SLOTS, |SLOTS|, comment) && OnSlots(deleted)
    ensures CarriedOut(t, t', [], deleted, DeleteRule(comment))
  {
    DeletedEverywhere(t, t', deleted, comment);
  }

  lemma AdditionIsCarriedOut(t: Chains, t': Chains, added: seq<Placed>, f: Forwarding)
    requires OnSlots(added) && AddedTo(t, t', added, f)
    ensures CarriedOut(t, t', added, [], AddRule(f))
  {
  }

  /** A change deletes first, without a record, and then adds. */
  lemma ChangeIsCarriedOut(t: Chains, t1: Chains, t2: Chains, deleted: seq<Placed>, added: seq<Placed>, f: Forwarding)
    requires DeletedIn(t, t1, deleted, SLOTS, |SLOTS|, f.comment)
    requires OnSlots(added) && AddedTo(t1, t2, added, f)
    ensures CarriedOut(t, t2, added, [], ChangeRule(f))
  {
    DeletedEverywhere(t, t1, deleted, f.comment);
  }

  /** The forwarding's rules have been appended to the chains that are written. */
  ghost predicate AddedTo(t: Chains, t': Chains, added: seq<Placed>, f: Forwarding) {
    forall s: Slot ::
      && RulesOf(t', ViewOf(s)) == RulesOf(t, ViewOf(s)) + Own(CodecOf(s), f)
      && RulesIn(added, ViewOf(s)) == Own(CodecOf(s), f)
  }

  /** The rules of one mapping, in the order in which they are appended. */
  function MappingRules(f: Forwarding): (r: seq<Placed>) {
    [Placed(ViewOf(Slot(Dnat, false)), RuleArgs(Dnat, f)),
     Placed(ViewOf(Slot(Forward, false)), RuleArgs(Forward, f)),
     Placed(ViewOf(Slot(Snat, false)), RuleArgs(Snat, f))]
  }

  lemma MappingRulesOnSlots(f: Forwarding)
    ensures OnSlots(MappingRules(f))
  {
    assert MappingRules(f)[0].view == ViewOf(Slot(Dnat, false));
    assert MappingRules(f)[1].view == ViewOf(Slot(Forward, false));
    assert MappingRules(f)[2].view == ViewOf(Slot(Snat, false));
  }

  lemma NothingDone(t: Chains, t': Chains)
    requires KeepsRules(t, t')
    ensures Applied(t, t', []) && Recorded(t, [], [], [])
  {
  }

  lemma OneMoreDone(t: Chains, now: Chains, next: Chains, actions: seq<RuleAction>, a: RuleAction,
                    added: seq<Placed>, deleted: seq<Placed>, some: seq<Placed>, gone: seq<Placed>)
    requires Applied(t, now, actions) && Recorded(t, added, deleted, actions)
    requires CarriedOut(now, next, some, gone, a)
    ensures Applied(t, next, actions + [a]) && Recorded(t, added + some, deleted + gone, actions + [a])
  {
    assert (actions + [a])[..|actions|] == actions;
    forall s: Slot
      ensures RulesIn(added + some, ViewOf(s)) == Given(CodecOf(s), actions + [a])
      ensures RulesIn(deleted + gone, ViewOf(s)) == Taken(RulesOf(t, ViewOf(s)), CodecOf(s), actions + [a])
      ensures RulesOf(next, ViewOf(s)) == Effects(RulesOf(t, ViewOf(s)), CodecOf(s), actions + [a])
    {
      RulesInConcat(added, some, ViewOf(s));
      RulesInConcat(deleted, gone, ViewOf(s));
    }
  }

  // ------------------------------------------------------ action by action

  /** The first k actions of a plan have been carried out and recorded. */
  ghost predicate Reached(t: Chains, now: Chains, added: seq<Placed>, deleted: seq<Placed>,
                          actions: seq<R.Action>, k: nat, want: Wants, backends: seq<Backend>)
    requires k <= |actions|
  {
    && ResolveAll(actions[..k], want, backends).Some?
    && (Exact(t, ResolveAll(actions[..k], want, backends).value) ==>
          && Applied(t, now, ResolveAll(actions[..k], want, backends).value)
          && Recorded(t, added, deleted, ResolveAll(actions[..k], want, backends).value))
  }

  /** Every firewall action of the plan can be carried out exactly. */
  ghost predicate Feasible(t: Chains, actions: seq<R.Action>, want: Wants, backends: seq<Backend>) {
    ResolveAll(actions, want, backends).Some? && Exact(t, ResolveAll(actions, want, backends).value)
  }

  lemma FeasibleFrom(t: Chains, t': Chains, actions: seq<R.Action>, want: Wants, backends: seq<Backend>)
    requires KeepsRules(t, t')
    ensures Feasible(t, actions, want, backends) <==> Feasible(t', actions, want, backends)
  {
  }

  /** Chains that hold the same rules make no difference to what has been reached. */
  lemma ReachedFrom(t: Chains, t': Chains, now: Chains, added: seq<Placed>, deleted: seq<Placed>,
                    actions: seq<R.Action>, want: Wants, backends: seq<Backend>)
    requires KeepsRules(t, t') && Reached(t', now, added, deleted, actions, |actions|, want, backends)
    ensures Reached(t, now, added, deleted, actions, |actions|, want, backends)
  {
    var done := ResolveAll(actions[..|actions|], want, backends).value;
    if Exact(t, done) {
      assert Canonical(t');
      forall s: Slot ensures RulesOf(t', ViewOf(s)) == RulesOf(t, ViewOf(s)) {}
    }
  }

  lemma ReachedNone(t: Chains, actions: seq<R.Action>, want: Wants, backends: seq<Backend>)
    ensures Reached(t, t, [], [], actions, 0, want, backends)
  {
    assert actions[..0] == [];
    NothingDone(t, t);
  }

  lemma ReachedOther(t: Chains, now: Chains, added: seq<Placed>, deleted: seq<Placed>,
                     actions: seq<R.Action>, k: nat, want: Wants, backends: seq<Backend>)
    requires k < |actions| && Reached(t, now, added, deleted, actions, k, want, backends)
    requires !actions[k].target.FirewallTarget?
    ensures Reached(t, now, added, deleted, actions, k + 1, want, backends)
  {
    assert actions[..k + 1][..k] == actions[..k];
  }

  /** What is on the host when action k comes up can be deleted by reading it. */
  lemma ReachedIsDeletable(t: Chains, now: Chains, added: seq<Placed>, deleted: seq<Placed>,
                           actions: seq<R.Action>, k: nat, want: Wants, backends: seq<Backend>, a: RuleAction)
    requires k < |actions| && Reached(t, now, added, deleted, actions, k, want, backends)
    requires Exact(t, ResolveAll(actions[..k], want, backends).value) && Managed(a.Comment())
    ensures AllDeletable(now, a.Comment())
  {
    CanonicalStays(t, now, ResolveAll(actions[..k], want, backends).value);
  }

  lemma ReachedOneMore(t: Chains, now: Chains, next: Chains, added: seq<Placed>, deleted: seq<Placed>,
                       some: seq<Placed>, gone: seq<Placed>,
                       actions: seq<R.Action>, k: nat, want: Wants, backends: seq<Backend>)
    requires k < |actions| && Reached(t, now, added, deleted, actions, k, want, backends)
    requires actions[k].target.FirewallTarget? && Resolve(actions[k], want, backends).Some?
    requires AllDeletable(now, Resolve(actions[k], want, backends).value.Comment()) ==>
               CarriedOut(now, next, some, gone, Resolve(actions[k], want, backends).value)
    ensures Reached(t, next, added + some, deleted + gone, actions, k + 1, want, backends)
  {
    assert actions[..k + 1][..k] == actions[..k];
    var before, a := ResolveAll(actions[..k], want, backends).value, Resolve(actions[k], want, backends).value;
    assert ResolveAll(actions[..k + 1], want, backends) == Some(before + [a]);
    if Exact(t, before + [a]) {
      ExactPrefix(t, before, a);
      ReachedIsDeletable(t, now, added, deleted, actions, k, want, backends, a);
      OneMoreDone(t, now, next, before, a, added, deleted, some, gone);
    }
  }

  lemma ExactPrefix(t: Chains, before: seq<RuleAction>, a: RuleAction)
    requires Exact(t, before + [a])
    ensures Exact(t, before) && Managed(a.Comment())
  {
    forall i | 0 <= i < |before|
      ensures Managed(before[i].Comment()) && (!before[i].DeleteRule? ==> Readable(before[i].f))
    {
      assert (before + [a])[i] == before[i];
    }
    assert (before + [a])[|before|] == a;
  }

  /** A plan that resolves exactly does so up to each of its actions. */
  lemma {:induction false} ExactUpTo(t: Chains, actions: seq<R.Action>, k: nat, want: Wants, backends: seq<Backend>)
    requires k < |actions| && ResolveAll(actions, want, backends).Some?
             && Exact(t, ResolveAll(actions, want, backends).value)
    ensures ResolveAll(actions[..k], want, backends).Some? && Exact(t, ResolveAll(actions[..k], want, backends).value)
    ensures actions[k].target.FirewallTarget? ==>
              Resolve(actions[k], want, backends).Some? && Managed(Resolve(actions[k], want, backends).value.Comment())
    decreases |actions|
  {
    var n := |actions| - 1;
    if actions[n].target.FirewallTarget? {
      ExactPrefix(t, ResolveAll(actions[..n], want, backends).value, Resolve(actions[n], want, backends).value);
    }
    if k < n {
      ExactUpTo(t, actions[..n], k, want, backends);
      assert actions[..n][..k] == actions[..k];
    }
  }

  // ---------------------------------------------------- rules stay readable

  lemma RuleIsReadBack(s: Slot, f: Forwarding)
    requires Readable(f)
    ensures IsReadBack(s, RuleOf(s.kind, f))
  {
    ChainIsKnown(s);
    WrittenRuleIsReadBack(ChainName(s), s.kind, f);
  }

  /** Carrying out actions leaves only rules that can be deleted by reading them. */
  lemma CanonicalStays(t: Chains, t': Chains, actions: seq<RuleAction>)
    requires Canonical(t) && AllReadable(actions) && Applied(t, t', actions)
    ensures Canonical(t')
  {
    forall s: Slot, c, r | Managed(c) && r in RulesOf(t', ViewOf(s)) && CodecOf(s).read(r) == c
      ensures IsReadBack(s, r)
    {
      EffectsMembers(RulesOf(t, ViewOf(s)), CodecOf(s), actions, r);
      if r in RulesOf(t, ViewOf(s)) {
        assert Deletable(s, RulesOf(t, ViewOf(s)), c);
      } else {
        var i :| 0 <= i < |actions| && !actions[i].DeleteRule? && r == CodecOf(s).write(actions[i].f);
        RuleIsReadBack(s, actions[i].f);
      }
    }
  }

  /** On a well-formed host every managed rule can be deleted by reading it. */
  lemma WellFormedIsCanonical(t: Chains)
    requires WellFormed(t)
    ensures Canonical(t)
  {
    forall s: Slot, c, r | Managed(c) && r in RulesOf(t, ViewOf(s)) && CodecOf(s).read(r) == c
      ensures IsReadBack(s, r)
    {
      SlotOf(s);
      assert Whole(t, s.legacy, c);
      WithMembers(RulesOf(t, ViewOf(s)), CodecOf(s), c);
      assert r in With(RulesOf(t, ViewOf(s)), CodecOf(s), c);
      var f :| Readable(f) && f.comment == c && Present(t, s.legacy, f);
      assert With(RulesOf(t, ViewOf(s)), CodecOf(s), c) == [RuleOf(s.kind, f)];
      RuleIsReadBack(s, f);
    }
  }

  // ------------------------------------------------------------------- undo

  lemma {:induction false} RemoveEachFront(rules: seq<string>, r: string, gone: seq<string>)
    ensures RemoveEach(rules, [r] + gone) == RemoveFirst(RemoveEach(rules, gone), r)
    ensures AllFound(rules, [r] + gone) <==> AllFound(rules, gone) && r in RemoveEach(rules, gone)
    decreases |gone|
  {
    if gone == [] {
      assert [r] + gone == [r] && [r][..0] == [];
    } else {
      var n := |gone| - 1;
      assert ([r] + gone)[..|gone|] == [r] + gone[..n];
      RemoveEachFront(RemoveFirst(rules, gone[n]), r, gone[..n]);
    }
  }

  lemma RulesInFront(p: Placed, ps: seq<Placed>, v: View)
    ensures RulesIn([p] + ps, v) == (if p.view == v then [Join(p.args)] + RulesIn(ps, v) else RulesIn(ps, v))
  {
    RulesInConcat([p], ps, v);
    assert [p][..0] == [];
    assert [] + RulesIn(ps, v) == RulesIn(ps, v);
  }

  /** In one chain, the additions from the i-th on have been removed, the last one first. */
  ghost predicate RemovedIn(t: Chains, now: Chains, ps: seq<Placed>, i: nat, v: View)
    requires i <= |ps|
  {
    RulesOf(now, v) == RemoveEach(RulesOf(t, v), RulesIn(ps[i..], v))
  }

  ghost predicate Removed(t: Chains, now: Chains, ps: seq<Placed>, i: nat)
    requires i <= |ps|
  {
    forall v :: RemovedIn(t, now, ps, i, v)
  }

  lemma RemovedNone(t: Chains, ps: seq<Placed>)
    ensures Removed(t, t, ps, |ps|)
  {
    assert ps[|ps|..] == [];
  }

  /** What removing one more added rule, the one before those already removed, does. */
  lemma RemovedOneMore(t: Chains, now: Chains, next: Chains, ps: seq<Placed>, i: nat)
    requires i < |ps| && Removed(t, now, ps, i + 1)
    requires forall v :: RulesOf(next, v)
                         == if v == ps[i].view then RemoveFirst(RulesOf(now, v), Join(ps[i].args)) else RulesOf(now, v)
    ensures Removed(t, next, ps, i)
  {
    assert ps[i..] == [ps[i]] + ps[i + 1..];
    forall v ensures RemovedIn(t, next, ps, i, v) {
      assert RemovedIn(t, now, ps, i + 1, v);
      RulesInFront(ps[i], ps[i + 1..], v);
      RemoveEachFront(RulesOf(t, v), Join(ps[i].args), RulesIn(ps[i + 1..], v));
    }
  }

  /** If every removal finds its rule, the next one does. */
  lemma NextIsFound(t: Chains, now: Chains, ps: seq<Placed>, i: nat)
    requires i < |ps| && Undoable(t, ps) && Removed(t, now, ps, i + 1)
    ensures Join(ps[i].args) in RulesOf(now, ps[i].view)
  {
    assert RemovedIn(t, now, ps, i + 1, ps[i].view);
    NextIsFoundIn(RulesOf(t, ps[i].view), ps, i);
  }

  lemma NextIsFoundIn(rules: seq<string>, ps: seq<Placed>, i: nat)
    requires i < |ps| && AllFound(rules, RulesIn(ps, ps[i].view))
    ensures Join(ps[i].args) in RemoveEach(rules, RulesIn(ps[i + 1..], ps[i].view))
  {
    var v := ps[i].view;
    SuffixFound(rules, ps, i, v);
    assert ps[i..] == [ps[i]] + ps[i + 1..];
    RulesInFront(ps[i], ps[i + 1..], v);
    RemoveEachFront(rules, Join(ps[i].args), RulesIn(ps[i + 1..], v));
  }

  lemma {:induction false} SuffixFound(rules: seq<string>, ps: seq<Placed>, i: nat, v: View)
    requires i <= |ps| && AllFound(rules, RulesIn(ps, v))
    ensures AllFound(rules, RulesIn(ps[i..], v))
    decreases i
  {
    if i == 0 {
      assert ps[0..] == ps;
    } else {
      SuffixFound(rules, ps, i - 1, v);
      assert ps[i - 1..] == [ps[i - 1]] + ps[i..];
      RulesInFront(ps[i - 1], ps[i..], v);
      RemoveEachFront(rules, Join(ps[i - 1].args), RulesIn(ps[i..], v));
    }
  }

  lemma AppendedOneMore(t: Chains, now: Chains, next: Chains, ps: seq<Placed>, i: nat)
    requires i < |ps|
    requires forall v :: RulesOf(now, v) == RulesOf(t, v) + RulesIn(ps[..i], v)
    requires forall v ::
               RulesOf(next, v) == if v == ps[i].view then RulesOf(now, v) + [Join(ps[i].args)] else RulesOf(now, v)
    ensures forall v :: RulesOf(next, v) == RulesOf(t, v) + RulesIn(ps[..i + 1], v)
  {
    assert ps[..i + 1][..i] == ps[..i];
    forall v ensures RulesOf(next, v) == RulesOf(t, v) + RulesIn(ps[..i + 1], v) {
      assert RulesOf(t, v) + RulesIn(ps[..i], v) + [Join(ps[i].args)] == RulesOf(t, v)
             + (RulesIn(ps[..i], v) + [Join(ps[i].args)]);
    }
  }

  /** The tables after the additions have been removed and the deletions added back. */
  ghost predicate Undone(t: Chains, t': Chains, added: seq<Placed>, deleted: seq<Placed>) {
    forall v :: RulesOf(t', v) == RemoveEach(RulesOf(t, v), RulesIn(added, v)) + RulesIn(deleted, v)
  }

  lemma NothingAppended(t: Chains, t': Chains, added: seq<Placed>)
    requires Removed(t, t', added, 0)
    ensures Undone(t, t', added, [])
  {
    assert added[0..] == added;
    forall v ensures RulesOf(t', v) == RemoveEach(RulesOf(t, v), RulesIn(added, v)) + RulesIn([], v) {
      assert RemovedIn(t, t', added, 0, v);
      assert RulesOf(t', v) + [] == RulesOf(t', v);
    }
  }

  lemma UndoneBoth(t: Chains, t': Chains, t'': Chains, added: seq<Placed>, deleted: seq<Placed>)
    requires Undone(t, t', added, [])
    requires forall v :: RulesOf(t'', v) == RulesOf(t', v) + RulesIn(deleted, v)
    ensures Undone(t, t'', added, deleted)
  {
    forall v ensures RulesOf(t'', v) == RemoveEach(RulesOf(t, v), RulesIn(added, v)) + RulesIn(deleted, v) {
      assert RemoveEach(RulesOf(t, v), RulesIn(added, v)) + [] == RemoveEach(RulesOf(t, v), RulesIn(added, v));
    }
  }

  /** Every recorded addition is there to be removed. */
  ghost predicate Undoable(t: Chains, added: seq<Placed>) {
    forall v :: AllFound(RulesOf(t, v), RulesIn(added, v))
  }

  /** None of the comments to be added is on the host. */
  ghost predicate AddsAreNew(t: Chains, actions: seq<RuleAction>) {
    forall s: Slot, i | 0 <= i < |actions| && actions[i].AddRule? ::
        With(RulesOf(t, ViewOf(s)), CodecOf(s), actions[i].f.comment) == []
  }

  /** Each comment is dealt with once. */
  ghost predicate Distinct(actions: seq<RuleAction>) {
    forall i, j | 0 <= i < j < |actions| :: actions[i].Comment() != actions[j].Comment()
  }

  lemma ReadableIsOrderly(actions: seq<RuleAction>, s: Slot)
    requires Distinct(actions) && AllReadable(actions) && AllManaged(actions)
    ensures Orderly(actions, CodecOf(s))
  {
    forall i | 0 <= i < |actions| && !actions[i].DeleteRule?
      ensures CodecOf(s).read(CodecOf(s).write(actions[i].f)) == actions[i].f.comment
    {
      ReadBack(s, actions[i].f);
    }
  }

  /** For a plan of additions and deletions that was carried out in full, every recorded
      addition is there to be removed. */
  lemma FullPlanIsUndoable(t: Chains, t': Chains, actions: seq<RuleAction>, added: seq<Placed>, deleted: seq<Placed>)
    requires Applied(t, t', actions) && Recorded(t, added, deleted, actions)
    requires Distinct(actions) && AllReadable(actions) && AllManaged(actions) && OnlyAddsAndDeletes(actions)
             && AddsAreNew(t, actions)
    ensures Undoable(t', added)
  {
    forall v ensures AllFound(RulesOf(t', v), RulesIn(added, v)) {
      if s: Slot :| v == ViewOf(s) {
        ReadableIsOrderly(actions, s);
        InverseRestores(RulesOf(t, v), CodecOf(s), actions);
      } else {
        forall p | p in added ensures p.view != v {
          assert exists s: Slot :: p.view == ViewOf(s);
        }
        RulesInElsewhere(added, v);
      }
    }
  }

  /** Undoing such a plan gives every chain the same rules back, those without a managed
      comment in the same order, and the same sequence if the plan deleted nothing. */
  lemma UndoRestores(t: Chains, t': Chains, t'': Chains, actions: seq<RuleAction>, added: seq<Placed>,
                     deleted: seq<Placed>)
    requires Applied(t, t', actions) && Recorded(t, added, deleted, actions) && Undone(t', t'', added, deleted)
    requires Distinct(actions) && AllReadable(actions) && AllManaged(actions) && OnlyAddsAndDeletes(actions)
             && AddsAreNew(t, actions)
    ensures forall s: Slot ::
              && multiset(RulesOf(t'', ViewOf(s))) == multiset(RulesOf(t, ViewOf(s)))
              && Untagged(RulesOf(t'', ViewOf(s)), CodecOf(s)) == Untagged(RulesOf(t, ViewOf(s)), CodecOf(s))
              && ((forall i | 0 <= i < |actions| :: !actions[i].DeleteRule?) ==>
                  RulesOf(t'', ViewOf(s)) == RulesOf(t, ViewOf(s)))
  {
    forall s: Slot
      ensures multiset(RulesOf(t'', ViewOf(s))) == multiset(RulesOf(t, ViewOf(s)))
      ensures Untagged(RulesOf(t'', ViewOf(s)), CodecOf(s)) == Untagged(RulesOf(t, ViewOf(s)), CodecOf(s))
      ensures (forall i | 0 <= i < |actions| :: !actions[i].DeleteRule?) ==>
                RulesOf(t'', ViewOf(s)) == RulesOf(t, ViewOf(s))
    {
      ReadableIsOrderly(actions, s);
      InverseRestores(RulesOf(t, ViewOf(s)), CodecOf(s), actions);
      UntaggedOfTaken(RulesOf(t, ViewOf(s)), CodecOf(s), actions);
      UntaggedConcat(RemoveEach(RulesOf(t', ViewOf(s)), Given(CodecOf(s), actions)),
                     Taken(RulesOf(t, ViewOf(s)), CodecOf(s), actions), CodecOf(s));
    }
  }

  lemma {:induction false} UntaggedConcat(a: seq<string>, b: seq<string>, x: Codec)
    ensures Untagged(a + b, x) == Untagged(a, x) + Untagged(b, x)
  {
    if b == [] {
      assert a + b == a;
    } else {
      var n := |b| - 1;
      Snoc(b);
      assert a + b == a + b[..n] + [b[n]];
      UntaggedConcat(a, b[..n], x);
      UntaggedSnoc(a + b[..n], b[n], x);
    }
  }

  lemma {:induction false} UntaggedOfManaged(rules: seq<string>, x: Codec)
    requires forall r | r in rules :: Managed(x.read(r))
    ensures Untagged(rules, x) == []
  {
    if rules != [] {
      UntaggedOfManaged(rules[..|rules| - 1], x);
    }
  }

  /** Whatever is deleted carried a managed comment. */
  lemma {:induction false} UntaggedOfTaken(rules: seq<string>, x: Codec, actions: seq<RuleAction>)
    requires AllManaged(actions)
    ensures Untagged(Taken(rules, x, actions), x) == []
  {
    if actions != [] {
      var n := |actions| - 1;
      var a := actions[n];
      UntaggedOfTaken(rules, x, actions[..n]);
      if a.DeleteRule? {
        var had := With(Effects(rules, x, actions[..n]), x, a.comment);
        WithMembers(Effects(rules, x, actions[..n]), x, a.comment);
        assert Managed(actions[n].Comment());
        UntaggedOfManaged(had, x);
        UntaggedConcat(Taken(rules, x, actions[..n]), had, x);
      } else {
        assert Taken(rules, x, actions) == Taken(rules, x, actions[..n]);
      }
    }
  }

  // ------------------------------------------- the plan computed from discovery

  lemma StepsAreFeasible(t: Chains, desired: DesiredState) returns (actions: seq<RuleAction>, comments: seq<string>)
    requires WellFormed(t) && ValidMappings(desired)
    ensures ResolveAll(Steps(t, desired), R.WantedMappings(desired), desired.backends) == Some(actions)
    ensures Exact(t, actions) && Distinct(actions)
    ensures Settles(actions, comments, R.WantedMappings(desired), Found(t), desired.backends)
    ensures forall i | 0 <= i < |actions| :: actions[i].Comment() == comments[i]
  {
    var want, have, backends := R.WantedMappings(desired), Found(t), desired.backends;
    DiscoverySeesAll(t);
    WantedAreSound(desired);
    WellFormedIsCanonical(t);
    actions, comments := PlanResolves(t, want, have, backends);
    SettlingIsOrderly(actions, comments, want, have, backends, Slot(Dnat, false));
  }

  /** A successful Apply of the plan that was computed from discovery leaves the host in step
      with the desired mappings, well formed, and with nothing left to plan; rules without a
      managed comment keep their order. */
  lemma SuccessfulApplySyncs(t: Chains, t': Chains, added: seq<Placed>, deleted: seq<Placed>, desired: DesiredState)
    requires WellFormed(t) && ValidMappings(desired)
    requires Reached(t, t', added, deleted, Steps(t, desired), |Steps(t, desired)|, R.WantedMappings(desired),
                     desired.backends)
    ensures Synced(t', desired) && WellFormed(t') && Steps(t', desired) == []
    ensures forall s: Slot ::
              Untagged(RulesOf(t', ViewOf(s)), CodecOf(s)) == Untagged(RulesOf(t, ViewOf(s)), CodecOf(s))
    ensures Aliens(t, SLOTS, CodecOf) == [] ==> Aliens(t', SLOTS, CodecOf) == []
  {
    var steps := Steps(t, desired);
    assert steps[..|steps|] == steps;
    var actions, _ := StepsAreFeasible(t, desired);
    ApplyConverges(t, t', desired, actions);
    SyncedIsStable(t', desired);
    if Aliens(t, SLOTS, CodecOf) == [] {
      NoNewAliens(t, t', actions);
    }
  }

  lemma AddsOfPlanAreNew(t: Chains, desired: DesiredState, actions: seq<RuleAction>, comments: seq<string>)
    requires WellFormed(t)
    requires Settles(actions, comments, R.WantedMappings(desired), Found(t), desired.backends)
    requires forall i | 0 <= i < |actions| :: actions[i].Comment() == comments[i]
    ensures AddsAreNew(t, actions)
  {
    DiscoverySeesAll(t);
    forall s: Slot, i | 0 <= i < |actions| && actions[i].AddRule?
      ensures With(RulesOf(t, ViewOf(s)), CodecOf(s), actions[i].f.comment) == []
    {
      var c := comments[i];
      assert Answers(actions[i], c, R.WantedMappings(desired), Found(t), desired.backends) && Managed(c);
      assert SeesComment(t, Found(t), c);
      SlotOf(s);
      assert Absent(t, s.legacy, c);
    }
  }

  /** What carrying out the plan computed from discovery means for its rule actions. */
  lemma StepsCarriedOut(t: Chains, t': Chains, added: seq<Placed>, deleted: seq<Placed>, desired: DesiredState)
    returns (actions: seq<RuleAction>, comments: seq<string>)
    requires WellFormed(t) && ValidMappings(desired)
    requires Reached(t, t', added, deleted, Steps(t, desired), |Steps(t, desired)|, R.WantedMappings(desired),
                     desired.backends)
    ensures ResolveAll(Steps(t, desired), R.WantedMappings(desired), desired.backends) == Some(actions)
    ensures Exact(t, actions) && Distinct(actions) && AddsAreNew(t, actions)
    ensures Settles(actions, comments, R.WantedMappings(desired), Found(t), desired.backends)
    ensures forall i | 0 <= i < |actions| :: actions[i].Comment() == comments[i]
    ensures Applied(t, t', actions) && Recorded(t, added, deleted, actions)
  {
    var steps := Steps(t, desired);
    assert steps[..|steps|] == steps;
    actions, comments := StepsAreFeasible(t, desired);
    AddsOfPlanAreNew(t, desired, actions, comments);
  }

  /** Rolling back a successful Apply of such a plan finds everything it has to remove and
      gives every chain its rules back, unless the plan changed a rule in place. */
  lemma RollbackUndoesApply(t: Chains, t': Chains, added: seq<Placed>, deleted: seq<Placed>, desired: DesiredState)
    requires WellFormed(t) && ValidMappings(desired)
    requires Reached(t, t', added, deleted, Steps(t, desired), |Steps(t, desired)|, R.WantedMappings(desired),
                     desired.backends)
    requires forall a | a in Steps(t, desired) :: !a.kind.Change?
    ensures Undoable(t', added)
    ensures forall t'' | Undone(t', t'', added, deleted) :: SameRules(t, t'')
    ensures (forall a | a in Steps(t, desired) :: a.kind.Add?) ==>
              forall t'', s: Slot | Undone(t', t'', added, deleted) :: RulesOf(t'', ViewOf(s)) == RulesOf(t, ViewOf(s))
  {
    var actions, _ := StepsCarriedOut(t, t', added, deleted, desired);
    ResolvedKinds(Steps(t, desired), R.WantedMappings(desired), desired.backends);
    FullPlanIsUndoable(t, t', actions, added, deleted);
    forall t'' | Undone(t', t'', added, deleted)
      ensures SameRules(t, t'')
      ensures (forall i | 0 <= i < |actions| :: !actions[i].DeleteRule?) ==>
                forall s: Slot :: RulesOf(t'', ViewOf(s)) == RulesOf(t, ViewOf(s))
    {
      UndoRestores(t, t', t'', actions, added, deleted);
    }
  }

  /** Every chain the agent manages holds the same rules, those without a managed comment in
      the same order. */
  ghost predicate SameRules(t: Chains, t': Chains) {
    forall s: Slot ::
      && multiset(RulesOf(t', ViewOf(s))) == multiset(RulesOf(t, ViewOf(s)))
      && Untagged(RulesOf(t', ViewOf(s)), CodecOf(s)) == Untagged(RulesOf(t, ViewOf(s)), CodecOf(s))
  }

  lemma {:induction false} ResolvedKinds(actions: seq<R.Action>, want: Wants, backends: seq<Backend>)
    requires ResolveAll(actions, want, backends).Some?
    ensures (forall a | a in actions :: !a.kind.Change?) ==>
              OnlyAddsAndDeletes(ResolveAll(actions, want, backends).value)
    ensures (forall a | a in actions :: a.kind.Add?) ==>
              forall i | 0 <= i < |ResolveAll(actions, want, backends).value| ::
                  !ResolveAll(actions, want, backends).value[i].DeleteRule?
  {
    if actions != [] {
      var n := |actions| - 1;
      assert actions[n] in actions;
      ResolvedKinds(actions[..n], want, backends);
    }
  }

  // ------------------------------------------------ changes are not undone

  lemma {:induction false} GivenMembers(x: Codec, actions: seq<RuleAction>, i: nat)
    requires i < |actions| && !actions[i].DeleteRule? && x.written
    ensures x.write(actions[i].f) in Given(x, actions)
  {
    if i < |actions| - 1 {
      GivenMembers(x, actions[..|actions| - 1], i);
    }
  }

  lemma {:induction false} TakenMembers(rules: seq<string>, x: Codec, actions: seq<RuleAction>, r: string)
    requires r in Taken(rules, x, actions)
    ensures exists i :: 0 <= i < |actions| && actions[i].DeleteRule? && x.read(r) == actions[i].comment
  {
    var n := |actions| - 1;
    WithMembers(Effects(rules, x, actions[..n]), x, actions[n].Comment());
    if r in Taken(rules, x, actions[..n]) {
      TakenMembers(rules, x, actions[..n], r);
      var i :| 0 <= i < n && actions[..n][i].DeleteRule? && x.read(r) == actions[..n][i].comment;
      assert actions[i] == actions[..n][i];
    }
  }

  lemma CountAfterRemoval(rules: seq<string>, rule: string, r: string)
    ensures multiset(RemoveFirst(rules, rule))[r]
            == if rule == r && r in rules then multiset(rules)[r] - 1 else multiset(rules)[r]
  {
    if rule != r {
      OtherCountStays(rules, rule, r);
    } else if r in rules {
      RemoveFirstMultiset(rules, r);
    } else {
      RemoveAbsent(rules, r);
    }
  }

  lemma {:induction false} RemoveEachMembers(rules: seq<string>, gone: seq<string>, r: string)
    ensures multiset(RemoveEach(rules, gone))[r] <= multiset(rules)[r]
    ensures r in gone && multiset(rules)[r] <= 1 ==> r !in RemoveEach(rules, gone)
    decreases |gone|
  {
    if gone != [] {
      var n := |gone| - 1;
      RemoveEachMembers(RemoveFirst(rules, gone[n]), gone[..n], r);
      CountAfterRemoval(rules, gone[n], r);
    }
  }

  lemma OnlyOnce(rules: seq<string>, x: Codec, c: string, w: string)
    requires With(rules, x, c) == [w] && x.read(w) == c
    ensures multiset(rules)[w] == 1
  {
    WithoutIsRest(rules, x, c);
    WithoutMembers(rules, x, c);
    assert w !in WithoutComment(rules, x, c);
  }

  /** After a changed rule has been rolled back, no rule with its comment is left. */
  lemma ChangeIsLost(rules: seq<string>, x: Codec, actions: seq<RuleAction>, i: nat)
    requires Orderly(actions, x) && x.written && i < |actions| && actions[i].ChangeRule?
    ensures forall r | r in RemoveEach(Effects(rules, x, actions), Given(x, actions)) + Taken(rules, x, actions) ::
              x.read(r) != actions[i].f.comment
  {
    var f := actions[i].f;
    var c, w, now := f.comment, x.write(f), Effects(rules, x, actions);
    assert actions[i].Comment() == c && x.read(w) == c;
    EffectsOnComment(rules, x, actions, c);
    assert With(now, x, c) == [w];
    OnlyOnce(now, x, c, w);
    GivenMembers(x, actions, i);
    WithMembers(now, x, c);
    forall r | r in RemoveEach(now, Given(x, actions)) ensures x.read(r) != c {
      RemoveEachMembers(now, Given(x, actions), r);
      assert r in multiset(RemoveEach(now, Given(x, actions)));
      assert r in multiset(now);
      assert r in now;
      assert x.read(r) == c ==> r in With(now, x, c);
    }
    forall r | r in Taken(rules, x, actions) ensures x.read(r) != c {
      TakenMembers(rules, x, actions, r);
      var j :| 0 <= j < |actions| && actions[j].DeleteRule? && x.read(r) == actions[j].comment;
      assert actions[j].Comment() == x.read(r);
    }
  }

  /** A chain that was changed in place is not the same after a rollback. */
  lemma ChangedIsNotSame(t: Chains, t': Chains, t'': Chains, added: seq<Placed>, deleted: seq<Placed>,
                         actions: seq<RuleAction>, i: nat, s: Slot)
    requires Applied(t, t', actions) && Recorded(t, added, deleted, actions) && Undone(t', t'', added, deleted)
    requires Orderly(actions, CodecOf(s)) && CodecOf(s).written && i < |actions| && actions[i].ChangeRule?
    requires exists r :: r in RulesOf(t, ViewOf(s)) && CodecOf(s).read(r) == actions[i].f.comment
    ensures !SameRules(t, t'')
  {
    ChangeIsLost(RulesOf(t, ViewOf(s)), CodecOf(s), actions, i);
    var r :| r in RulesOf(t, ViewOf(s)) && CodecOf(s).read(r) == actions[i].f.comment;
    assert r !in RulesOf(t'', ViewOf(s));
    assert r in multiset(RulesOf(t, ViewOf(s))) && r !in multiset(RulesOf(t'', ViewOf(s)));
  }

  /** Rolling back an applied plan gives every chain its rules back if and only if the plan
      changed no rule in place. */
  lemma RollbackRestoresIffNothingChanged(t: Chains, t': Chains, t'': Chains, added: seq<Placed>, deleted: seq<Placed>,
                                          desired: DesiredState)
    requires WellFormed(t) && ValidMappings(desired)
    requires Reached(t, t', added, deleted, Steps(t, desired), |Steps(t, desired)|, R.WantedMappings(desired),
                     desired.backends)
    requires Undone(t', t'', added, deleted)
    ensures SameRules(t, t'') <==> forall a | a in Steps(t, desired) :: !a.kind.Change?
  {
    if forall a | a in Steps(t, desired) :: !a.kind.Change? {
      RollbackUndoesApply(t, t', added, deleted, desired);
    } else {
      var a :| a in Steps(t, desired) && a.kind.Change?;
      ChangeIsNotUndone(t, t', t'', added, deleted, desired, a);
    }
  }

  lemma ChangeIsNotUndone(t: Chains, t': Chains, t'': Chains, added: seq<Placed>, deleted: seq<Placed>,
                          desired: DesiredState, a: R.Action)
    requires WellFormed(t) && ValidMappings(desired)
    requires Reached(t, t', added, deleted, Steps(t, desired), |Steps(t, desired)|, R.WantedMappings(desired),
                     desired.backends)
    requires Undone(t', t'', added, deleted) && a in Steps(t, desired) && a.kind.Change?
    ensures !SameRules(t, t'')
  {
    var actions, comments := StepsCarriedOut(t, t', added, deleted, desired);
    StepsAreRules(R.WantedMappings(desired), Found(t), R.BackendTable(desired));
    var i := ResolvedChange(Steps(t, desired), a, R.WantedMappings(desired), desired.backends);
    ChangeWasThere(t, desired, actions, comments, i);
    ReadableIsOrderly(actions, Slot(Dnat, false));
    ChangedIsNotSame(t, t', t'', added, deleted, actions, i, Slot(Dnat, false));
  }

  lemma StepsAreRules(want: Wants, have: Finds, table: map<string, Backend>)
    ensures forall a | a in R.RuleSteps(want, have, table) :: a.target.FirewallTarget?
  {
    var step := comment => R.RuleStep(comment, want, have, table);
    R.CollectIsExact(Sorting.SortedSet(want.Keys + have.Keys), step);
  }

  lemma {:induction false} ResolvedChange(actions: seq<R.Action>, a: R.Action, want: Wants, backends: seq<Backend>)
    returns (i: nat)
    requires ResolveAll(actions, want, backends).Some?
    requires forall b | b in actions :: b.target.FirewallTarget?
    requires a in actions && a.kind.Change?
    ensures i < |ResolveAll(actions, want, backends).value| && ResolveAll(actions, want, backends).value[i].ChangeRule?
  {
    var n := |actions| - 1;
    assert actions[n] in actions;
    var before, last := ResolvedSnoc(actions, want, backends);
    if a == actions[n] {
      i := |before|;
    } else {
      i := ResolvedChange(actions[..n], a, want, backends);
    }
  }

  lemma ResolvedSnoc(actions: seq<R.Action>, want: Wants, backends: seq<Backend>)
    returns (before: seq<RuleAction>, last: RuleAction)
    requires actions != [] && ResolveAll(actions, want, backends).Some? && actions[|actions| - 1].target.FirewallTarget?
    ensures ResolveAll(actions[..|actions| - 1], want, backends) == Some(before)
    ensures ResolveAll(actions, want, backends) == Some(before + [last])
    ensures last.ChangeRule? <==> actions[|actions| - 1].kind.Change?
  {
    var n := |actions| - 1;
    before := ResolveAll(actions[..n], want, backends).value;
    last := Resolve(actions[n], want, backends).value;
  }

  /** A rule that a plan changes is on the host. */
  lemma ChangeWasThere(t: Chains, desired: DesiredState, actions: seq<RuleAction>, comments: seq<string>, i: nat)
    requires WellFormed(t) && ValidMappings(desired)
    requires Settles(actions, comments, R.WantedMappings(desired), Found(t), desired.backends)
    requires i < |actions| && actions[i].ChangeRule? && actions[i].Comment() == comments[i]
    ensures exists r ::
              r in RulesOf(t, ViewOf(Slot(Dnat, false))) && CodecOf(Slot(Dnat, false)).read(r) == actions[i].f.comment
  {
    DiscoverySeesAll(t);
    WantedAreSound(desired);
    var c, s := comments[i], Slot(Dnat, false);
    assert Answers(actions[i], c, R.WantedMappings(desired), Found(t), desired.backends);
    CommentsAreManaged(R.WantedMappings(desired), desired.backends, c);
    assert SeesComment(t, Found(t), c);
    var f :| Readable(f) && f.comment == c && Present(t, false, f);
    WithMembers(RulesOf(t, ViewOf(s)), CodecOf(s), c);
    assert With(RulesOf(t, ViewOf(s)), CodecOf(s), f.comment) == [RuleOf(Dnat, f)];
    assert RuleOf(Dnat, f) in With(RulesOf(t, ViewOf(s)), CodecOf(s), c);
  }
}
