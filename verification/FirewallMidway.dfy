/** What a transaction that stops midway has left unrecorded, and why that never cancels out by
    chance (internal/firewall/iptables.go:137-183, 299-364). */
module FirewallMidway {
  import opened Model
  import opened Text
  import opened Tables
  import opened HostState
  import opened RuleText
  import opened FirewallSpec
  import opened FirewallSync
  import opened FirewallFrames
  import opened FirewallRecord
  import opened FirewallLedger
  import R = Reconcile

  // ------------------------------------------------------ one action, midway

  /** Every one of the rules, read in its chain, has the comment. */
  ghost predicate Reads(ps: seq<Placed>, c: string) {
    forall s: Slot, r | r in RulesIn(ps, ViewOf(s)) :: CodecOf(s).read(r) == c
  }

  lemma ReadsConcat(a: seq<Placed>, b: seq<Placed>, c: string)
    requires Reads(a, c) && Reads(b, c)
    ensures Reads(a + b, c)
  {
    forall s: Slot, r | r in RulesIn(a + b, ViewOf(s)) ensures CodecOf(s).read(r) == c {
      RulesInConcat(a, b, ViewOf(s));
    }
  }

  lemma ReadsInChain(s: Slot, ps: seq<Placed>, c: string)
    requires forall p | p in ps :: p.view == ViewOf(s)
    requires forall r | r in RulesIn(ps, ViewOf(s)) :: CodecOf(s).read(r) == c
    ensures Reads(ps, c)
  {
    forall s': Slot, r | r in RulesIn(ps, ViewOf(s')) ensures CodecOf(s').read(r) == c {
      if s' != s {
        ViewsDiffer(s, s');
        RulesInElsewhere(ps, ViewOf(s'));
      }
    }
  }

  /** What has been deleted so far while going through a listing has the comment. */
  lemma DeletingReads(s: Slot, held: seq<string>, k: nat, comment: string, now: seq<string>, deleted: seq<Placed>)
    requires k <= |held| && forall p | p in deleted :: p.view == ViewOf(s)
    requires Deleting(CodecOf(s), held, k, comment, now, RulesIn(deleted, ViewOf(s)))
    ensures Reads(deleted, comment)
  {
    WithMembers(held[..k], CodecOf(s), comment);
    ReadsInChain(s, deleted, comment);
  }

  lemma ReadsNothing(c: string)
    ensures Reads([], c)
  {
  }

  /** Fewer than all of a mapping's rules have been appended. */
  ghost predicate Started(loose: seq<Placed>, f: Forwarding) {
    exists j :: 0 <= j < 3 && loose == MappingRules(f)[..j]
  }

  /** What an action that failed has done: some of the appends; or some of the deletions; or, if
      it was to change a rule, all deletions and some of the appends. */
  ghost predicate Halfway(t: Chains, a: RuleAction, loose: seq<Placed>, lost: seq<Placed>) {
    match a
    case AddRule(f) => lost == [] && Started(loose, f)
    case DeleteRule(c) => loose == [] && Reads(lost, c)
    case ChangeRule(f) =>
      && Reads(lost, f.comment)
      && (loose == []
          || (Started(loose, f)
              && forall s: Slot :: RulesIn(lost, ViewOf(s)) == With(RulesOf(t, ViewOf(s)), CodecOf(s), f.comment)))
  }

  /** The deletions of a change are all done, the appends are not. */
  lemma HalfReplaced(t: Chains, now: Chains, deleted: seq<Placed>, loose: seq<Placed>, f: Forwarding)
    requires DeletedIn(t, now, deleted, SLOTS, |SLOTS|, f.comment) && Reads(deleted, f.comment) && Started(loose, f)
    ensures Halfway(t, ChangeRule(f), loose, deleted)
  {
    DeletedEverywhere(t, now, deleted, f.comment);
  }

  lemma OneSidedIsUntangled(loose: seq<Placed>, lost: seq<Placed>)
    requires loose == [] || lost == []
    ensures Untangled(loose, lost)
  {
    OwnedIffThere(loose);
    OwnedIffThere(lost);
    if Cancels(loose, lost) {
      forall s: Slot ensures RulesIn(loose, ViewOf(s)) == [] && RulesIn(lost, ViewOf(s)) == [] {
        assert multiset(RulesIn(loose, ViewOf(s))) == multiset(RulesIn(lost, ViewOf(s)));
        EmptyBags(RulesIn(loose, ViewOf(s)), RulesIn(lost, ViewOf(s)));
      }
    }
  }

  lemma EmptyBags(a: seq<string>, b: seq<string>)
    requires multiset(a) == multiset(b)
    ensures a == [] <==> b == []
  {
    assert |multiset(a)| == |a| && |multiset(b)| == |b|;
  }

  /** Appending some of a mapping's rules touches only the agent's chains. */
  lemma AppendedAreOwn(t: Chains, t': Chains, f: Forwarding, n: nat)
    requires n <= 3 && t'.Keys == t.Keys
             && forall v :: RulesOf(t', v) == RulesOf(t, v) + RulesIn(MappingRules(f)[..n], v)
    ensures OnlyOwnChains(t, t') && OnSlots(MappingRules(f))
    ensures ChainsExist(t) ==> forall p | p in MappingRules(f) :: p.view in t
  {
    MappingRulesOnSlots(f);
    forall v: View | forall s: Slot :: v != ViewOf(s) ensures RulesOf(t', v) == RulesOf(t, v) {
      forall p | p in MappingRules(f)[..n] ensures p.view != v {
        assert p in MappingRules(f);
      }
      RulesInElsewhere(MappingRules(f)[..n], v);
    }
  }

  lemma AllAppended(t: Chains, t': Chains, f: Forwarding)
    requires forall v :: RulesOf(t', v) == RulesOf(t, v) + RulesIn(MappingRules(f)[..3], v)
    ensures AddedTo(t, t', MappingRules(f), f)
  {
    assert MappingRules(f)[..3] == MappingRules(f);
    forall s: Slot ensures RulesIn(MappingRules(f), ViewOf(s)) == Own(CodecOf(s), f) {
      AddedIn(f, s);
    }
  }

  /** How many of three commands, the first of which is number c, are carried out before one
      fails. */
  function Reach(faults: nat -> bool, c: nat): (n: nat)
    ensures n <= 3
  {
    if faults(c) then 0 else if faults(c + 1) then 1 else if faults(c + 2) then 2 else 3
  }

  lemma ReachIs(faults: nat -> bool, c: nat, n: nat)
    requires n <= 3 && QuietBetween(faults, c, c + n) && (n < 3 ==> faults(c + n))
    ensures Reach(faults, c) == n
  {
  }

  /** The first action of a plan is an addition, and one of its appends fails. */
  ghost predicate StopsAtFirst(actions: seq<R.Action>, want: Wants, backends: seq<Backend>, faults: nat -> bool,
                               c: nat) {
    && actions != [] && actions[0].target.FirewallTarget? && actions[0].kind.Add?
    && Resolve(actions[0], want, backends).Some? && Reach(faults, c) < 3
  }

  /** What it then leaves. */
  ghost function FirstLeft(actions: seq<R.Action>, want: Wants, backends: seq<Backend>, faults: nat -> bool,
                           c: nat): (loose: seq<Placed>)
    requires StopsAtFirst(actions, want, backends, faults, c)
  {
    MappingRules(Resolve(actions[0], want, backends).value.f)[..Reach(faults, c)]
  }

  lemma FirstAlone(actions: seq<R.Action>, want: Wants, backends: seq<Backend>, faults: nat -> bool, c: nat)
    requires StopsAtFirst(actions, want, backends, faults, c)
    ensures StopsAtFirst([actions[0]], want, backends, faults, c)
    ensures FirstLeft([actions[0]], want, backends, faults, c) == FirstLeft(actions, want, backends, faults, c)
  {
  }

  // ------------------------------------------------------------- whole plans

  /** A plan that a discovery would make: each comment is dealt with once, and a rule that is to
      be changed is there, in the last of the chains as well. */
  ghost predicate Sensible(t: Chains, actions: seq<RuleAction>) {
    && Exact(t, actions) && Distinct(actions)
    && forall i | 0 <= i < |actions| && actions[i].ChangeRule? :: IsThere(t, actions[i].f.comment)
  }

  ghost predicate IsThere(t: Chains, c: string) {
    With(RulesOf(t, ViewOf(Slot(Snat, false))), CodecOf(Slot(Snat, false)), c) != []
  }

  /** A plan of which what is left midway can be told apart: it changes no rule in place, or it
      was made from a discovery of a well-formed host. */
  ghost predicate Discernible(t: Chains, actions: seq<R.Action>, want: Wants, backends: seq<Backend>) {
    NoChange(actions)
    || (ResolveAll(actions, want, backends).Some? && Sensible(t, ResolveAll(actions, want, backends).value))
  }

  lemma SensiblePrefix(t: Chains, before: seq<RuleAction>, all: seq<RuleAction>)
    requires Sensible(t, all) && before <= all
    ensures Sensible(t, before)
  {
    forall i | 0 <= i < |before| ensures before[i] == all[i] {
    }
  }

  lemma {:induction false} ResolvedPrefix(actions: seq<R.Action>, k: nat, want: Wants, backends: seq<Backend>)
    requires k <= |actions| && ResolveAll(actions, want, backends).Some?
    ensures ResolveAll(actions[..k], want, backends).Some?
    ensures ResolveAll(actions[..k], want, backends).value <= ResolveAll(actions, want, backends).value
    decreases |actions|
  {
    if k == |actions| {
      assert actions[..k] == actions;
    } else {
      var n := |actions| - 1;
      assert actions[..n][..k] == actions[..k];
      ResolvedPrefix(actions[..n], k, want, backends);
    }
  }

  /** What completed changes have deleted: each rule has the comment of one of them. */
  ghost predicate FromChanges(before: seq<RuleAction>, earlier: seq<Placed>) {
    forall s: Slot, r | r in RulesIn(earlier, ViewOf(s)) :: OfChange(before, CodecOf(s).read(r))
  }

  ghost predicate OfChange(before: seq<RuleAction>, c: string) {
    exists i :: 0 <= i < |before| && before[i].ChangeRule? && before[i].f.comment == c
  }

  lemma FromChangesOneMore(before: seq<RuleAction>, a: RuleAction, earlier: seq<Placed>, lost: seq<Placed>)
    requires FromChanges(before, earlier) && Reads(lost, a.Comment()) && (!a.ChangeRule? ==> lost == [])
    ensures FromChanges(before + [a], earlier + lost)
  {
    forall s: Slot, r | r in RulesIn(earlier + lost, ViewOf(s)) ensures OfChange(before + [a], CodecOf(s).read(r)) {
      RulesInConcat(earlier, lost, ViewOf(s));
      if r in RulesIn(earlier, ViewOf(s)) {
        var i :| 0 <= i < |before| && before[i].ChangeRule? && before[i].f.comment == CodecOf(s).read(r);
        assert (before + [a])[i] == before[i];
      } else {
        assert (before + [a])[|before|] == a;
      }
    }
  }

  lemma StartedReads(loose: seq<Placed>, f: Forwarding)
    requires Started(loose, f) && Readable(f)
    ensures Reads(loose, f.comment) && RulesIn(loose, ViewOf(Slot(Snat, false))) == []
  {
    var j :| 0 <= j < 3 && loose == MappingRules(f)[..j];
    var rules := MappingRules(f);
    assert rules == rules[..j] + rules[j..];
    forall s: Slot, r | r in RulesIn(loose, ViewOf(s)) ensures CodecOf(s).read(r) == f.comment {
      RulesInConcat(rules[..j], rules[j..], ViewOf(s));
      AddedIn(f, s);
      ReadBack(s, f);
    }
    ViewsDiffer(Slot(Dnat, false), Slot(Snat, false));
    ViewsDiffer(Slot(Forward, false), Slot(Snat, false));
    forall p | p in loose ensures p.view != ViewOf(Slot(Snat, false)) {
    }
    RulesInElsewhere(loose, ViewOf(Slot(Snat, false)));
  }

  lemma NotOfChange(before: seq<RuleAction>, a: RuleAction)
    requires Distinct(before + [a])
    ensures !OfChange(before, a.Comment())
  {
    forall i | 0 <= i < |before| ensures before[i].Comment() != a.Comment() {
      assert (before + [a])[i] == before[i] && (before + [a])[|before|] == a;
    }
  }

  lemma NothingIn(a: seq<string>)
    requires multiset(a) == multiset{}
    ensures a == []
  {
    assert |multiset(a)| == |a|;
  }

  lemma EarlierIsNothingIn(before: seq<RuleAction>, c: string, x: Codec, loose: seq<string>, earlier: seq<string>,
                           lost: seq<string>)
    requires !OfChange(before, c) && multiset(loose) == multiset(earlier + lost)
    requires (forall r | r in loose :: x.read(r) == c) && (forall r | r in earlier :: OfChange(before, x.read(r)))
    ensures earlier == [] && multiset(loose) == multiset(lost)
  {
    forall r ensures r !in multiset(earlier) {
      assert r in multiset(earlier) ==> r in multiset(earlier + lost) && r in multiset(loose);
      assert r in multiset(earlier) ==> r in earlier && r in loose;
    }
    NothingIn(earlier);
    assert earlier + lost == lost;
  }

  /** What earlier changes deleted is not made up for by what the failing action appended. */
  lemma EarlierIsNothing(before: seq<RuleAction>, a: RuleAction, loose: seq<Placed>, earlier: seq<Placed>,
                         lost: seq<Placed>)
    requires Distinct(before + [a]) && FromChanges(before, earlier) && Reads(loose, a.Comment())
    requires Cancels(loose, earlier + lost)
    ensures forall s: Slot :: RulesIn(earlier, ViewOf(s)) == []
    ensures Cancels(loose, lost)
  {
    NotOfChange(before, a);
    forall s: Slot
      ensures RulesIn(earlier, ViewOf(s)) == [] && multiset(RulesIn(loose, ViewOf(s)))
              == multiset(RulesIn(lost, ViewOf(s)))
    {
      RulesInConcat(earlier, lost, ViewOf(s));
      EarlierIsNothingIn(before, a.Comment(), CodecOf(s), RulesIn(loose, ViewOf(s)), RulesIn(earlier, ViewOf(s)),
                         RulesIn(lost, ViewOf(s)));
    }
  }

  /** What an action that fails has done does not cancel out by itself. */
  lemma HalfwayIsUntangled(t: Chains, a: RuleAction, loose: seq<Placed>, lost: seq<Placed>)
    requires Halfway(t, a, loose, lost) && (!a.DeleteRule? ==> Readable(a.f))
             && (a.ChangeRule? ==> IsThere(t, a.f.comment))
    ensures Untangled(loose, lost) && Reads(loose, a.Comment())
  {
    if a.DeleteRule? || loose == [] || lost == [] {
      OneSidedIsUntangled(loose, lost);
      if !a.DeleteRule? && loose != [] {
        StartedReads(loose, a.f);
      }
    } else {
      StartedReads(loose, a.f);
      var v := ViewOf(Slot(Snat, false));
      assert RulesIn(loose, v) == [] && RulesIn(lost, v) != [];
      if Cancels(loose, lost) {
        assert multiset(RulesIn(loose, v)) == multiset(RulesIn(lost, v));
        EmptyBags(RulesIn(loose, v), RulesIn(lost, v));
      }
      OwnedIffThere(lost);
    }
  }

  /** The rule that is to be changed is still there when its turn comes. */
  lemma StillThere(t: Chains, now: Chains, before: seq<RuleAction>, a: RuleAction)
    requires Sensible(t, before + [a]) && Applied(t, now, before) && a.ChangeRule?
    ensures IsThere(now, a.f.comment)
  {
    var s, c := Slot(Snat, false), a.f.comment;
    assert (before + [a])[|before|] == a;
    forall i | 0 <= i < |before| ensures before[i].Comment() != c {
      assert (before + [a])[i] == before[i];
    }
    SensiblePrefix(t, before, before + [a]);
    ReadableIsOrderly(before, s);
    EffectsOnComment(RulesOf(t, ViewOf(s)), CodecOf(s), before, c);
  }

  /** A plan made from a discovery that stops midway: what went unrecorded, by completed changes
      and by the action that failed, cancels out only if there was nothing. */
  lemma MidwayIsUntangled(t: Chains, now: Chains, before: seq<RuleAction>, a: RuleAction,
                          loose: seq<Placed>, earlier: seq<Placed>, lost: seq<Placed>)
    requires Sensible(t, before + [a]) && Applied(t, now, before)
    requires FromChanges(before, earlier) && Halfway(now, a, loose, lost)
    ensures Untangled(loose, earlier + lost)
  {
    assert (before + [a])[|before|] == a;
    if a.ChangeRule? {
      StillThere(t, now, before, a);
    }
    HalfwayIsUntangled(now, a, loose, lost);
    OwnedConcat(earlier, lost);
    OwnedIffThere(earlier);
    if Cancels(loose, earlier + lost) {
      EarlierIsNothing(before, a, loose, earlier, lost);
    }
    if Owned(loose) == 0 && Owned(earlier + lost) == 0 {
      OwnedIffThere(loose);
      OwnedIffThere(earlier + lost);
    }
  }

  // -------------------------------------------------------- action by action

  /** Of a sensible plan, what the first k actions have left unrecorded was deleted by changes. */
  ghost predicate Traceable(t: Chains, actions: seq<R.Action>, k: nat, want: Wants, backends: seq<Backend>,
                            lost: seq<Placed>)
    requires k <= |actions|
  {
    ResolveAll(actions[..k], want, backends).Some? && Exact(t, ResolveAll(actions[..k], want, backends).value) ==>
      FromChanges(ResolveAll(actions[..k], want, backends).value, lost)
  }

  lemma TraceableOther(t: Chains, actions: seq<R.Action>, k: nat, want: Wants, backends: seq<Backend>,
                       lost: seq<Placed>)
    requires k < |actions| && Traceable(t, actions, k, want, backends, lost) && !actions[k].target.FirewallTarget?
    ensures Traceable(t, actions, k + 1, want, backends, lost)
  {
    assert actions[..k + 1][..k] == actions[..k];
  }

  lemma TraceableOneMore(t: Chains, now: Chains, added: seq<Placed>, deleted: seq<Placed>, actions: seq<R.Action>,
                         k: nat, want: Wants, backends: seq<Backend>, earlier: seq<Placed>, lost: seq<Placed>)
    requires k < |actions| && Traceable(t, actions, k, want, backends, earlier)
    requires Reached(t, now, added, deleted, actions, k, want, backends)
    requires actions[k].target.FirewallTarget? && Resolve(actions[k], want, backends).Some?
    requires !actions[k].kind.Change? ==> lost == []
    requires AllDeletable(now, Resolve(actions[k], want, backends).value.Comment()) ==>
               Reads(lost, Resolve(actions[k], want, backends).value.Comment())
    ensures Traceable(t, actions, k + 1, want, backends, earlier + lost)
  {
    assert actions[..k + 1][..k] == actions[..k];
    var before, a := ResolveAll(actions[..k], want, backends).value, Resolve(actions[k], want, backends).value;
    assert ResolveAll(actions[..k + 1], want, backends) == Some(before + [a]);
    if Exact(t, before + [a]) {
      ExactPrefix(t, before, a);
      ReachedIsDeletable(t, now, added, deleted, actions, k, want, backends, a);
      FromChangesOneMore(before, a, earlier, lost);
    }
  }

  /** A plan of which what is left can be told apart has stopped at action k. */
  lemma StoppedIsUntangled(t: Chains, now: Chains, added: seq<Placed>, deleted: seq<Placed>, actions: seq<R.Action>,
                           k: nat, want: Wants, backends: seq<Backend>, earlier: seq<Placed>, loose: seq<Placed>,
                           lost: seq<Placed>)
    requires k < |actions| && Traceable(t, actions, k, want, backends, earlier)
    requires Reached(t, now, added, deleted, actions, k, want, backends) && actions[k].target.FirewallTarget?
    requires NoChange(actions) ==> earlier == []
    requires if Resolve(actions[k], want, backends).None? then loose == [] && lost == []
             else !actions[k].kind.Change? ==> loose == [] || lost == []
    requires Resolve(actions[k], want, backends).Some?
             && AllDeletable(now, Resolve(actions[k], want, backends).value.Comment()) ==>
               Halfway(now, Resolve(actions[k], want, backends).value, loose, lost)
    ensures Discernible(t, actions, want, backends) ==> Untangled([] + loose, earlier + lost)
  {
    assert [] + loose == loose;
    if NoChange(actions) {
      assert earlier + lost == lost;
      assert actions[k] in actions;
      OneSidedIsUntangled(loose, lost);
    } else if Discernible(t, actions, want, backends) {
      ResolvedPrefix(actions, k, want, backends);
      ResolvedPrefix(actions, k + 1, want, backends);
      assert actions[..k + 1][..k] == actions[..k];
      var before, a := ResolveAll(actions[..k], want, backends).value, Resolve(actions[k], want, backends).value;
      assert ResolveAll(actions[..k + 1], want, backends) == Some(before + [a]);
      SensiblePrefix(t, before + [a], ResolveAll(actions, want, backends).value);
      ExactPrefix(t, before, a);
      ReachedIsDeletable(t, now, added, deleted, actions, k, want, backends, a);
      MidwayIsUntangled(t, now, before, a, loose, earlier, lost);
    }
  }

  /** What one action has done, whether it failed or not. */
  ghost predicate Acted(t: Chains, l: Log, t': Chains, l': Log, act: R.Action, want: Wants, backends: seq<Backend>,
                        ok: bool, added: seq<Placed>, deleted: seq<Placed>, loose: seq<Placed>, lost: seq<Placed>) {
    && OnlyOwnChains(t, t') && Booked(t, l, t', l', added + loose, deleted + lost)
    && (ok ==> Resolve(act, want, backends).Some? && loose == [] && (!act.kind.Change? ==> lost == []))
    && (!ok ==> added == [] && deleted == []
                && if Resolve(act, want, backends).None? then loose == [] && lost == []
                   else !act.kind.Change? ==> loose == [] || lost == [])
    && (Resolve(act, want, backends).Some? ==> ActedOn(t, t', Resolve(act, want, backends).value, ok, added, deleted,
                                                       loose, lost))
  }

  ghost predicate ActedOn(t: Chains, t': Chains, a: RuleAction, ok: bool, added: seq<Placed>, deleted: seq<Placed>,
                          loose: seq<Placed>, lost: seq<Placed>) {
    AllDeletable(t, a.Comment()) ==>
      Reads(lost, a.Comment()) && if ok then CarriedOut(t, t', added, deleted, a) else Halfway(t, a, loose, lost)
  }

  /** The first i actions have been carried out, recorded, and noted by the host. */
  ghost predicate Advanced(was: Chains, first: Log, now: Chains, note: Log, added: seq<Placed>, deleted: seq<Placed>,
                           actions: seq<R.Action>, i: nat, want: Wants, backends: seq<Backend>, lost: seq<Placed>)
    requires i <= |actions|
  {
    && OnlyOwnChains(was, now) && Booked(was, first, now, note, added, deleted + lost)
    && (NoChange(actions) ==> lost == [])
    && Reached(was, now, added, deleted, actions, i, want, backends)
    && Traceable(was, actions, i, want, backends, lost)
  }

  lemma AdvancedNone(was: Chains, first: Log, actions: seq<R.Action>, want: Wants, backends: seq<Backend>)
    ensures Advanced(was, first, was, first, [], [], actions, 0, want, backends, [])
  {
    BookedNothing(was, first);
    ReachedNone(was, actions, want, backends);
    assert actions[..0] == [];
    NothingRecorded([], []);
  }

  lemma AdvancedOther(was: Chains, first: Log, now: Chains, note: Log, added: seq<Placed>, deleted: seq<Placed>,
                      actions: seq<R.Action>, i: nat, want: Wants, backends: seq<Backend>, lost: seq<Placed>)
    requires i < |actions| && Advanced(was, first, now, note, added, deleted, actions, i, want, backends, lost)
    requires !actions[i].target.FirewallTarget?
    ensures Advanced(was, first, now, note, added, deleted, actions, i + 1, want, backends, lost)
  {
    ReachedOther(was, now, added, deleted, actions, i, want, backends);
    TraceableOther(was, actions, i, want, backends, lost);
  }

  /** The books after one more action. */
  lemma BooksAfter(was: Chains, first: Log, now: Chains, note: Log, next: Chains, last: Log, added: seq<Placed>,
                   deleted: seq<Placed>, lost: seq<Placed>, added': seq<Placed>, deleted': seq<Placed>,
                   loose': seq<Placed>, lost': seq<Placed>)
    requires Booked(was, first, now, note, added, deleted + lost)
             && Booked(now, note, next, last, added' + loose', deleted' + lost')
    ensures Booked(was, first, next, last, (added + added') + loose', (deleted + deleted') + (lost + lost'))
  {
    assert added + [] == added && [] + loose' == loose';
    RecordGrows(was, first, now, note, next, last, added, deleted, [], lost, added', deleted', loose', lost');
  }

  lemma Onwards(was: Chains, first: Log, now: Chains, note: Log, next: Chains, last: Log, added: seq<Placed>,
                deleted: seq<Placed>, actions: seq<R.Action>, i: nat, want: Wants, backends: seq<Backend>,
                lost: seq<Placed>, some: seq<Placed>, gone: seq<Placed>, lost': seq<Placed>)
    requires i < |actions| && Advanced(was, first, now, note, added, deleted, actions, i, want, backends, lost)
    requires actions[i].target.FirewallTarget? && Acted(now, note, next, last, actions[i], want, backends, true, some,
                                                        gone, [], lost')
    ensures Advanced(was, first, next, last, added + some, deleted + gone, actions, i + 1, want, backends, lost + lost')
  {
    OnlyOwnTransitive(was, now, next);
    BooksAfter(was, first, now, note, next, last, added, deleted, lost, some, gone, [], lost');
    assert (added + some) + [] == added + some;
    assert actions[i] in actions;
    TraceableOneMore(was, now, added, deleted, actions, i, want, backends, lost, lost');
    ReachedOneMore(was, now, next, added, deleted, some, gone, actions, i, want, backends);
  }

  lemma Stopped(was: Chains, first: Log, now: Chains, note: Log, next: Chains, last: Log, added: seq<Placed>,
                deleted: seq<Placed>, actions: seq<R.Action>, i: nat, want: Wants, backends: seq<Backend>,
                lost: seq<Placed>, loose: seq<Placed>, lost': seq<Placed>)
    requires i < |actions| && Advanced(was, first, now, note, added, deleted, actions, i, want, backends, lost)
    requires actions[i].target.FirewallTarget? && Acted(now, note, next, last, actions[i], want, backends, false, [],
                                                        [], loose, lost')
    ensures OnlyOwnChains(was, next) && Booked(was, first, next, last, added + loose, deleted + (lost + lost'))
    ensures Discernible(was, actions, want, backends) ==> Untangled(loose, lost + lost')
  {
    OnlyOwnTransitive(was, now, next);
    BooksAfter(was, first, now, note, next, last, added, deleted, lost, [], [], loose, lost');
    NothingRecorded(added, deleted);
    StoppedIsUntangled(was, now, added, deleted, actions, i, want, backends, lost, loose, lost');
    assert [] + loose == loose;
  }

  /** Chains that hold the same rules make no difference. */
  lemma DiscernibleFrom(t: Chains, t': Chains, actions: seq<R.Action>, want: Wants, backends: seq<Backend>)
    requires KeepsRules(t, t')
    ensures Discernible(t, actions, want, backends) ==> Discernible(t', actions, want, backends)
  {
  }

  // ------------------------------------------------ plans made by discovery

  /** The plan made from a discovery of a well-formed host is one. */
  lemma StepsAreDiscernible(t: Chains, desired: DesiredState)
    requires WellFormed(t) && ValidMappings(desired)
    ensures Discernible(t, Steps(t, desired), R.WantedMappings(desired), desired.backends)
  {
    var actions, comments := StepsAreFeasible(t, desired);
    forall i | 0 <= i < |actions| && actions[i].ChangeRule? ensures IsThere(t, actions[i].f.comment) {
      ChangeIsThere(t, desired, actions, comments, i);
    }
  }

  lemma ChangeIsThere(t: Chains, desired: DesiredState, actions: seq<RuleAction>, comments: seq<string>, i: nat)
    requires WellFormed(t) && ValidMappings(desired)
    requires Settles(actions, comments, R.WantedMappings(desired), Found(t), desired.backends)
    requires i < |actions| && actions[i].ChangeRule? && actions[i].Comment() == comments[i]
    ensures IsThere(t, actions[i].f.comment)
  {
    DiscoverySeesAll(t);
    WantedAreSound(desired);
    var c, s := comments[i], Slot(Snat, false);
    assert Answers(actions[i], c, R.WantedMappings(desired), Found(t), desired.backends);
    CommentsAreManaged(R.WantedMappings(desired), desired.backends, c);
    assert SeesComment(t, Found(t), c);
    var f :| Readable(f) && f.comment == c && Present(t, false, f);
    assert With(RulesOf(t, ViewOf(s)), CodecOf(s), f.comment) == [RuleOf(Snat, f)];
  }
}
