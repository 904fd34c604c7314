/** Bookkeeping of a transaction: what the chains hold is what they held, plus what was
    appended, minus what was deleted, whichever commands fail. What a rollback restores
    follows from what of that is on record (internal/firewall/iptables.go:118-213). */
module FirewallLedger {
  import opened Model
  import opened Text
  import opened Tables
  import opened HostState
  import opened RuleText
  import opened FirewallSpec
  import opened FirewallSync
  import opened FirewallFrames
  import opened FirewallRecord
  import R = Reconcile

  // ------------------------------------------------------------- the host's log

  /** One of the chains the agent manages. */
  predicate IsOwn(v: View) { exists s | s in SLOTS :: ViewOf(s) == v }

  lemma ParentIsForeign(kind: Kind)
    ensures !IsOwn(ParentOf(kind))
  {
    AllParentsAreForeign();
  }

  predicate IsEdit(e: Event) { (e.RuleAdded? || e.RuleGone?) && IsOwn(e.view) }

  /** How many rules of the agent's chains have been added or deleted, as the host has noted. */
  function Edits(log: Log): (n: nat) {
    if log == [] then 0 else Edits(log[..|log| - 1]) + (if IsEdit(log[|log| - 1]) then 1 else 0)
  }

  /** How many of the rules are in one of the agent's chains. */
  function Owned(ps: seq<Placed>): (n: nat) {
    if ps == [] then 0 else Owned(ps[..|ps| - 1]) + (if IsOwn(ps[|ps| - 1].view) then 1 else 0)
  }

  lemma {:induction false} OwnedConcat(a: seq<Placed>, b: seq<Placed>)
    ensures Owned(a + b) == Owned(a) + Owned(b)
  {
    if b == [] {
      assert a + b == a;
    } else {
      var n := |b| - 1;
      assert (a + b)[..|a + b| - 1] == a + b[..n];
      OwnedConcat(a, b[..n]);
    }
  }

  /** Since then the host has noted only additions and deletions of rules; in the agent's chains
      they are as many as these. */
  ghost predicate Noted(l: Log, l': Log, added: seq<Placed>, deleted: seq<Placed>) {
    && l <= l' && (forall i | |l| <= i < |l'| :: l'[i].RuleAdded? || l'[i].RuleGone?)
    && Edits(l') == Edits(l) + Owned(added) + Owned(deleted)
  }

  lemma NotedThen(l: Log, l': Log, l'': Log, added: seq<Placed>, deleted: seq<Placed>, some: seq<Placed>,
                  gone: seq<Placed>)
    requires Noted(l, l', added, deleted) && Noted(l', l'', some, gone)
    ensures Noted(l, l'', added + some, deleted + gone)
  {
    OwnedConcat(added, some);
    OwnedConcat(deleted, gone);
  }

  lemma NotedOne(l: Log, l': Log, e: Event, p: Placed)
    requires (e == RuleAdded(p.view) || e == RuleGone(p.view)) && l' == l + [e]
    ensures Noted(l, l', [p], []) && Noted(l, l', [], [p])
  {
    assert l'[..|l|] == l && [p][..0] == [];
  }

  lemma NotedForeign(l: Log, l': Log, e: Event)
    requires (e.RuleAdded? || e.RuleGone?) && !IsOwn(e.view) && l' == l + [e]
    ensures Noted(l, l', [], [])
  {
    assert l'[..|l|] == l;
  }

  /** A rule is in one of the chains if and only if it is counted. */
  lemma {:induction false} OwnedIffThere(ps: seq<Placed>)
    ensures Owned(ps) == 0 <==> forall s: Slot :: RulesIn(ps, ViewOf(s)) == []
  {
    if ps != [] {
      var n := |ps| - 1;
      OwnedIffThere(ps[..n]);
      if IsOwn(ps[n].view) {
        var s :| s in SLOTS && ViewOf(s) == ps[n].view;
        assert RulesIn(ps, ViewOf(s)) != [];
      } else {
        forall s: Slot ensures ps[n].view != ViewOf(s) {
          SlotsAreAll(s);
        }
      }
    }
  }

  // ---------------------------------------------------------------- balance

  ghost predicate BalancedAt(t: Chains, t': Chains, added: seq<Placed>, deleted: seq<Placed>, s: Slot) {
    multiset(RulesOf(t', ViewOf(s))) + multiset(RulesIn(deleted, ViewOf(s)))
    == multiset(RulesOf(t, ViewOf(s))) + multiset(RulesIn(added, ViewOf(s)))
  }

  /** Between the two, exactly `added` has come into the chains and `deleted` has gone. */
  ghost predicate Balanced(t: Chains, t': Chains, added: seq<Placed>, deleted: seq<Placed>) {
    forall s: Slot :: BalancedAt(t, t', added, deleted, s)
  }

  /** The tables and the log tell the same: exactly `added` has come and `deleted` has gone. */
  ghost predicate Booked(t: Chains, l: Log, t': Chains, l': Log, added: seq<Placed>, deleted: seq<Placed>) {
    Balanced(t, t', added, deleted) && Noted(l, l', added, deleted)
  }

  lemma BookedNone(t: Chains, t': Chains, l: Log, l': Log)
    requires KeepsRules(t, t') && Noted(l, l', [], [])
    ensures Booked(t, l, t', l', [], [])
  {
    BalancedNone(t, t');
  }

  lemma BookedNothing(t: Chains, l: Log)
    ensures Booked(t, l, t, l, [], [])
  {
    BalancedNone(t, t);
  }

  lemma BookedThen(t: Chains, l: Log, t': Chains, l': Log, t'': Chains, l'': Log,
                   added: seq<Placed>, deleted: seq<Placed>, some: seq<Placed>, gone: seq<Placed>)
    requires Booked(t, l, t', l', added, deleted) && Booked(t', l', t'', l'', some, gone)
    ensures Booked(t, l, t'', l'', added + some, deleted + gone)
  {
    BalancedThen(t, t', t'', added, deleted, some, gone);
    NotedThen(l, l', l'', added, deleted, some, gone);
  }

  lemma BookedAppend(t: Chains, l: Log, t': Chains, l': Log, p: Placed)
    requires p.view in t && t' == t[p.view := t[p.view] + [Join(p.args)]] && l' == l + [RuleAdded(p.view)]
    ensures Booked(t, l, t', l', [p], [])
  {
    BalancedAppend(t, t', p);
    NotedOne(l, l', RuleAdded(p.view), p);
  }

  lemma BookedDelete(t: Chains, l: Log, t': Chains, l': Log, p: Placed)
    requires p.view in t && Join(p.args) in t[p.view] && t' == t[p.view := RemoveFirst(t[p.view], Join(p.args))]
    requires l' == l + [RuleGone(p.view)]
    ensures Booked(t, l, t', l', [], [p])
  {
    BalancedDelete(t, t', p);
    NotedOne(l, l', RuleGone(p.view), p);
  }

  lemma BalancedNone(t: Chains, t': Chains)
    requires KeepsRules(t, t')
    ensures Balanced(t, t', [], [])
  {
  }

  lemma Sums(m0: multiset<string>, m1: multiset<string>, m2: multiset<string>,
             a: multiset<string>, d: multiset<string>, a': multiset<string>, d': multiset<string>)
    requires m1 + d == m0 + a && m2 + d' == m1 + a'
    ensures m2 + (d + d') == m0 + (a + a')
  {
    forall x: string ensures (m2 + (d + d'))[x] == (m0 + (a + a'))[x] {
      assert (m1 + d)[x] == (m0 + a)[x] && (m2 + d')[x] == (m1 + a')[x];
    }
  }

  lemma BalancedThen(t: Chains, t': Chains, t'': Chains, added: seq<Placed>, deleted: seq<Placed>, some: seq<Placed>,
                     gone: seq<Placed>)
    requires Balanced(t, t', added, deleted) && Balanced(t', t'', some, gone)
    ensures Balanced(t, t'', added + some, deleted + gone)
  {
    forall s: Slot ensures BalancedAt(t, t'', added + some, deleted + gone, s) {
      var v := ViewOf(s);
      assert BalancedAt(t, t', added, deleted, s) && BalancedAt(t', t'', some, gone, s);
      RulesInConcat(added, some, v);
      RulesInConcat(deleted, gone, v);
      Sums(multiset(RulesOf(t, v)), multiset(RulesOf(t', v)), multiset(RulesOf(t'', v)),
           multiset(RulesIn(added, v)), multiset(RulesIn(deleted, v)), multiset(RulesIn(some, v)),
           multiset(RulesIn(gone, v)));
    }
  }

  lemma RulesInOne(p: Placed, v: View)
    ensures RulesIn([p], v) == if p.view == v then [Join(p.args)] else []
  {
    assert [p][..0] == [];
  }

  lemma BalancedAppend(t: Chains, t': Chains, p: Placed)
    requires p.view in t && t' == t[p.view := t[p.view] + [Join(p.args)]]
    ensures Balanced(t, t', [p], [])
  {
    forall s: Slot ensures BalancedAt(t, t', [p], [], s) {
      RulesInOne(p, ViewOf(s));
    }
  }

  lemma BalancedDelete(t: Chains, t': Chains, p: Placed)
    requires p.view in t && Join(p.args) in t[p.view] && t' == t[p.view := RemoveFirst(t[p.view], Join(p.args))]
    ensures Balanced(t, t', [], [p])
  {
    RemoveFirstMultiset(t[p.view], Join(p.args));
    forall s: Slot ensures BalancedAt(t, t', [], [p], s) {
      RulesInOne(p, ViewOf(s));
    }
  }

  /** What one more action recorded and did not record, added to what there was. */
  lemma RecordGrows(t: Chains, l: Log, now: Chains, m: Log, next: Chains, n: Log,
                    added: seq<Placed>, deleted: seq<Placed>, loose: seq<Placed>, lost: seq<Placed>,
                    added': seq<Placed>, deleted': seq<Placed>, loose': seq<Placed>, lost': seq<Placed>)
    requires Booked(t, l, now, m, added + loose, deleted + lost)
             && Booked(now, m, next, n, added' + loose', deleted' + lost')
    ensures Booked(t, l, next, n, (added + added') + (loose + loose'), (deleted + deleted') + (lost + lost'))
  {
    BookedThen(t, l, now, m, next, n, added + loose, deleted + lost, added' + loose', deleted' + lost');
    forall s: Slot ensures BalancedAt(t, next, (added + added') + (loose + loose'),
                                      (deleted + deleted') + (lost + lost'), s) {
      assert BalancedAt(t, next, (added + loose) + (added' + loose'), (deleted + lost) + (deleted' + lost'), s);
      SameBag(added, loose, added', loose', ViewOf(s));
      SameBag(deleted, lost, deleted', lost', ViewOf(s));
    }
    SameOwned(added, loose, added', loose');
    SameOwned(deleted, lost, deleted', lost');
  }

  lemma SameOwned(a: seq<Placed>, b: seq<Placed>, c: seq<Placed>, d: seq<Placed>)
    ensures Owned((a + b) + (c + d)) == Owned((a + c) + (b + d))
  {
    OwnedConcat(a + b, c + d);
    OwnedConcat(a, b);
    OwnedConcat(c, d);
    OwnedConcat(a + c, b + d);
    OwnedConcat(a, c);
    OwnedConcat(b, d);
  }

  lemma SameBag(a: seq<Placed>, b: seq<Placed>, c: seq<Placed>, d: seq<Placed>, v: View)
    ensures multiset(RulesIn((a + b) + (c + d), v)) == multiset(RulesIn((a + c) + (b + d), v))
  {
    RulesInConcat(a + b, c + d, v);
    RulesInConcat(a, b, v);
    RulesInConcat(c, d, v);
    RulesInConcat(a + c, b + d, v);
    RulesInConcat(a, c, v);
    RulesInConcat(b, d, v);
  }

  lemma NothingRecorded(added: seq<Placed>, deleted: seq<Placed>)
    ensures added + [] == added && deleted + [] == deleted
  {
  }

  lemma BookedAfter(t: Chains, l: Log, t': Chains, l': Log, t'': Chains, l'': Log, added: seq<Placed>,
                    deleted: seq<Placed>)
    requires Booked(t, l, t', l', [], []) && Booked(t', l', t'', l'', added, deleted)
    ensures Booked(t, l, t'', l'', added, deleted)
  {
    BookedThen(t, l, t', l', t'', l'', [], [], added, deleted);
    assert [] + added == added && [] + deleted == deleted;
  }

  lemma UnbookedNone(t: Chains, l: Log, added: seq<Placed>)
    ensures Booked(t, l, t, l, [], added[|added|..])
  {
    assert added[|added|..] == [];
    BookedNothing(t, l);
  }

  /** One more addition has been removed, the one before those already removed. */
  lemma BookedOneLess(t: Chains, l: Log, now: Chains, m: Log, next: Chains, n: Log, added: seq<Placed>, i: nat)
    requires i < |added| && Booked(t, l, now, m, [], added[i + 1..]) && Booked(now, m, next, n, [], [added[i]])
    ensures Booked(t, l, next, n, [], added[i..])
  {
    BookedThen(t, l, now, m, next, n, [], added[i + 1..], [], [added[i]]);
    assert added[i..] == [added[i]] + added[i + 1..];
    forall s: Slot ensures BalancedAt(t, next, [], added[i..], s) {
      assert BalancedAt(t, next, [] + [], added[i + 1..] + [added[i]], s);
      RulesInConcat(added[i + 1..], [added[i]], ViewOf(s));
      RulesInConcat([added[i]], added[i + 1..], ViewOf(s));
    }
    OwnedConcat(added[i + 1..], [added[i]]);
    OwnedConcat([added[i]], added[i + 1..]);
  }

  /** The additions have been removed, and then the deletions appended. */
  lemma BookedBack(t: Chains, l: Log, t': Chains, l': Log, t'': Chains, l'': Log, added: seq<Placed>,
                   deleted: seq<Placed>)
    requires Booked(t, l, t', l', [], added) && Booked(t', l', t'', l'', deleted, [])
    ensures Booked(t, l, t'', l'', deleted, added)
  {
    BookedThen(t, l, t', l', t'', l'', [], added, deleted, []);
    assert [] + deleted == deleted && added + [] == added;
  }

  lemma BookedDeletes(t: Chains, l: Log, t': Chains, l': Log, t'': Chains, l'': Log, deleted: seq<Placed>,
                      gone: seq<Placed>)
    requires Booked(t, l, t', l', [], deleted) && Booked(t', l', t'', l'', [], gone)
    ensures Booked(t, l, t'', l'', [], deleted + gone)
  {
    BookedThen(t, l, t', l', t'', l'', [], deleted, [], gone);
    var none: seq<Placed> := [];
    assert none + none == none;
  }

  lemma BookedAdds(t: Chains, l: Log, t': Chains, l': Log, t'': Chains, l'': Log, added: seq<Placed>, some: seq<Placed>)
    requires Booked(t, l, t', l', added, []) && Booked(t', l', t'', l'', some, [])
    ensures Booked(t, l, t'', l'', added + some, [])
  {
    BookedThen(t, l, t', l', t'', l'', added, [], some, []);
    var none: seq<Placed> := [];
    assert none + none == none;
  }

  lemma BookedNext(t: Chains, l: Log, now: Chains, m: Log, next: Chains, n: Log, ps: seq<Placed>, i: nat)
    requires i < |ps| && Booked(t, l, now, m, ps[..i], []) && ps[i].view in now
    requires next == now[ps[i].view := now[ps[i].view] + [Join(ps[i].args)]] && n == m + [RuleAdded(ps[i].view)]
    ensures Booked(t, l, next, n, ps[..i + 1], [])
  {
    BookedAppend(now, m, next, n, ps[i]);
    BookedAdds(t, l, now, m, next, n, ps[..i], [ps[i]]);
    assert ps[..i + 1] == ps[..i] + [ps[i]];
  }

  /** The first i rules have been appended, and nothing else has happened. */
  ghost predicate AppendedUpTo(t: Chains, l: Log, t': Chains, l': Log, ps: seq<Placed>, i: nat)
    requires i <= |ps|
  {
    && t'.Keys == t.Keys && Booked(t, l, t', l', ps[..i], [])
    && forall v :: RulesOf(t', v) == RulesOf(t, v) + RulesIn(ps[..i], v)
  }

  lemma AppendedUpToNone(t: Chains, l: Log, ps: seq<Placed>)
    ensures AppendedUpTo(t, l, t, l, ps, 0)
  {
    BookedNothing(t, l);
    assert ps[..0] == [];
    forall v ensures RulesOf(t, v) == RulesOf(t, v) + RulesIn(ps[..0], v) {
      assert RulesOf(t, v) + [] == RulesOf(t, v);
    }
  }

  lemma AppendedUpToNext(t: Chains, l: Log, now: Chains, m: Log, next: Chains, n: Log, ps: seq<Placed>, i: nat)
    requires i < |ps| && AppendedUpTo(t, l, now, m, ps, i) && ps[i].view in now
    requires next == now[ps[i].view := now[ps[i].view] + [Join(ps[i].args)]] && n == m + [RuleAdded(ps[i].view)]
    ensures AppendedUpTo(t, l, next, n, ps, i + 1)
  {
    AppendedOneMore(t, now, next, ps, i);
    BookedNext(t, l, now, m, next, n, ps, i);
  }

  predicate NoChange(actions: seq<R.Action>) {
    forall a | a in actions :: !a.kind.Change?
  }

  // ------------------------------------------------------- what is on record

  /** What the manager remembers of its last transaction. */
  datatype Record = Record(snapshot: Option<string>, added: seq<Placed>, deleted: seq<Placed>)

  const NO_RECORD := Record(None, [], [])

  /** The agent's chains, what the host has noted, and what the manager has on record. */
  datatype Stand = Stand(tables: Chains, log: Log, record: Record)

  /** What one transaction did to the manager's record. It may not have reached the firewall;
      or it saved the tables or not, and began a new record or not. `loose` and `lost` are the
      rules it appended and deleted without recording them. */
  datatype Trace = NotApplied | Attempted(saved: bool, renewed: bool, loose: seq<Placed>, lost: seq<Placed>)

  /** Undoing the record finds everything it looks for. */
  ghost predicate Retrievable(t: Chains, record: Record) {
    Undoable(t, record.added) && forall p | p in record.deleted :: p.view in t
  }

  lemma UndoneNothing(t: Chains)
    ensures Undone(t, t, [], [])
  {
    forall v ensures RulesOf(t, v) == RemoveEach(RulesOf(t, v), RulesIn([], v)) + RulesIn([], v) {
    }
  }

  lemma NothingChanges(t: Chains, l: Log)
    ensures Booked(t, l, t, l, [], []) && LeavesOthersAlone(t, t)
  {
    BookedNothing(t, l);
  }

  /** How a rollback ended: there was nothing to undo, the recorded changes were undone, or
      a command failed and the saved tables were restored, or that failed too. */
  datatype Undo = Nothing | Inverted | FellBack | Failing

  /** The trace tells what has become of the chains and of the record. A transaction that has
      reached the firewall has tried to save the tables; what it then added and deleted is on
      the host's log, and either on record or in the trace. */
  ghost predicate Tracked(trace: Trace, from: Stand, to: Stand) {
    match trace
    case NotApplied => to == from
    case Attempted(saved, renewed, loose, lost) =>
      && (if saved then to.record.snapshot.Some? && SavedAs(from.tables, to.record.snapshot.value)
          else to.record.snapshot == from.record.snapshot && to.tables == from.tables)
      && (renewed ==> saved)
      && (if renewed then
            Booked(from.tables, from.log + [SaveTried], to.tables, to.log, to.record.added + loose,
                   to.record.deleted + lost)
          else
            && to.record.added == from.record.added && to.record.deleted == from.record.deleted
            && Booked(from.tables, from.log + [SaveTried], to.tables, to.log, [], []))
  }

  /** What a rollback has made of the chains, of the log and of the record. */
  ghost predicate Rolled(u: Undo, from: Stand, to: Stand) {
    && (to.record == if u.Inverted? then Record(from.record.snapshot, [], []) else from.record)
    && match u
       case Nothing => to.tables == from.tables && to.log == from.log && from.record.snapshot.GetOr("") == ""
       case Inverted => Booked(from.tables, from.log, to.tables, to.log, from.record.deleted, from.record.added)
       case FellBack =>
         && from.record.snapshot.Some? && to.tables == Restored(from.record.snapshot.value)
         && |from.log| < |to.log| && to.log[|to.log| - 1] == TablesPutBack && from.log <= to.log
       case Failing => from.log <= to.log
  }

  /** Every chain the agent manages holds the same rules. */
  ghost predicate SameContents(t: Chains, t': Chains) {
    forall s: Slot :: multiset(RulesOf(t', ViewOf(s))) == multiset(RulesOf(t, ViewOf(s)))
  }

  /** In every chain, the same rules have been added and deleted. */
  ghost predicate Cancels(added: seq<Placed>, deleted: seq<Placed>) {
    forall s: Slot :: multiset(RulesIn(added, ViewOf(s))) == multiset(RulesIn(deleted, ViewOf(s)))
  }

  /** When a rollback gives the chains back what they held before the transaction. A record of
      an earlier transaction does harm unless it cancels out; one of this transaction helps
      unless commands went unrecorded; saved tables help if they are those of this transaction. */
  ghost predicate Restores(trace: Trace, u: Undo, t: Chains, before: Record) {
    match u
    case Nothing => true
    case Inverted =>
      if trace.Attempted? && trace.renewed then Cancels(trace.loose, trace.lost)
          else Cancels(before.added, before.deleted)
    case FellBack =>
      (trace.Attempted? && trace.saved) || SameContents(t, Restored(before.snapshot.GetOr("")))
    case Failing => false
  }

  lemma Difference(m: multiset<string>, m': multiset<string>, a: multiset<string>, d: multiset<string>)
    requires m' + d == m + a
    ensures m' == m <==> a == d
  {
    if m' == m {
      forall x: string ensures a[x] == d[x] {
        assert (m' + d)[x] == (m + a)[x];
      }
    }
    if a == d {
      forall x: string ensures m'[x] == m[x] {
        assert (m' + d)[x] == (m + a)[x];
      }
    }
  }

  /** Chains are the same again if and only if what has come and what has gone cancel out. */
  lemma SameIffCancels(t: Chains, t': Chains, added: seq<Placed>, deleted: seq<Placed>)
    requires Balanced(t, t', added, deleted)
    ensures SameContents(t, t') <==> Cancels(added, deleted)
  {
    forall s: Slot
      ensures multiset(RulesOf(t', ViewOf(s))) == multiset(RulesOf(t, ViewOf(s)))
              <==> multiset(RulesIn(added, ViewOf(s))) == multiset(RulesIn(deleted, ViewOf(s)))
    {
      assert BalancedAt(t, t', added, deleted, s);
      Difference(multiset(RulesOf(t, ViewOf(s))), multiset(RulesOf(t', ViewOf(s))),
                 multiset(RulesIn(added, ViewOf(s))), multiset(RulesIn(deleted, ViewOf(s))));
    }
  }

  /** Undoing a record that missed `loose` and `lost` leaves exactly these. */
  lemma UndoneLeaves(t: Chains, now: Chains, t': Chains, added: seq<Placed>, deleted: seq<Placed>, loose: seq<Placed>,
                     lost: seq<Placed>)
    requires Balanced(t, now, added + loose, deleted + lost) && Balanced(now, t', deleted, added)
    ensures Balanced(t, t', loose, lost)
  {
    BalancedThen(t, now, t', added + loose, deleted + lost, deleted, added);
    forall s: Slot ensures BalancedAt(t, t', loose, lost, s) {
      var v := ViewOf(s);
      assert BalancedAt(t, t', added + loose + deleted, deleted + lost + added, s);
      RulesInConcat(added + loose, deleted, v);
      RulesInConcat(added, loose, v);
      RulesInConcat(deleted + lost, added, v);
      RulesInConcat(deleted, lost, v);
      Removing(multiset(RulesOf(t, v)), multiset(RulesOf(t', v)), multiset(RulesIn(added, v)),
               multiset(RulesIn(deleted, v)),
               multiset(RulesIn(loose, v)), multiset(RulesIn(lost, v)));
    }
  }

  lemma Removing(m: multiset<string>, m': multiset<string>, a: multiset<string>, d: multiset<string>,
                 l: multiset<string>, k: multiset<string>)
    requires m' + ((d + k) + a) == m + ((a + l) + d)
    ensures m' + k == m + l
  {
    forall x: string ensures (m' + k)[x] == (m + l)[x] {
      assert (m' + ((d + k) + a))[x] == (m + ((a + l) + d))[x];
    }
  }

  lemma SavedIsNotEmpty(t: Chains, text: string)
    requires SavedAs(t, text)
    ensures text != ""
  {
    var nat', filter :| Lists(nat', t, Nat) && Lists(filter, t, Filter) && text == Unlines(SavedLines(t, nat', filter));
    assert SavedLines(t, nat', filter) != [];
  }

  /** A transaction failed at some point and was rolled back: the chains hold what they held
      before if and only if `Restores` says so. */
  lemma RollbackRestoresIff(trace: Trace, u: Undo, from: Stand, at: Stand, back: Stand, to: Stand)
    requires Tracked(trace, from, at) && back.tables == at.tables && back.record == at.record && Rolled(u, back, to)
    requires Printable(from.tables) && !u.Failing?
    ensures SameContents(from.tables, to.tables) <==> Restores(trace, u, from.tables, from.record)
    ensures u.FellBack? && trace.Attempted? && trace.saved ==> to.tables == from.tables
  {
    match u
    case Nothing =>
      if trace.Attempted? && trace.saved {
        SavedIsNotEmpty(from.tables, at.record.snapshot.value);
      }
    case Inverted =>
      if trace.Attempted? && trace.renewed {
        UndoneLeaves(from.tables, at.tables, to.tables, at.record.added, at.record.deleted, trace.loose, trace.lost);
        SameIffCancels(from.tables, to.tables, trace.loose, trace.lost);
      } else {
        StaleUndone(from.tables, at.tables, to.tables, at.record.added, at.record.deleted);
      }
    case FellBack =>
      if trace.Attempted? && trace.saved {
        RestoreOfSave(from.tables, at.record.snapshot.value);
      }
    case Failing =>
  }

  /** Undoing the record of an earlier transaction. */
  lemma StaleUndone(t: Chains, now: Chains, t': Chains, added: seq<Placed>, deleted: seq<Placed>)
    requires (now == t || Balanced(t, now, [], [])) && Balanced(now, t', deleted, added)
    ensures SameContents(t, t') <==> Cancels(added, deleted)
  {
    if now == t {
      BalancedNone(t, now);
    }
    BalancedThen(t, now, t', [], [], deleted, added);
    assert [] + deleted == deleted && [] + added == added;
    SameIffCancels(t, t', deleted, added);
    assert Cancels(added, deleted) <==> Cancels(deleted, added);
  }

  // ------------------------------------------------------ what the log tells

  /** The log up to the first rollback that has begun since its n-th event. */
  function UntilRollback(log: Log, n: nat): (r: Log)
    requires n <= |log|
    ensures n <= |r| && r <= log
    decreases |log| - n
  {
    if n == |log| then log else if log[n] == RollbackBegun then log[..n] else UntilRollback(log, n + 1)
  }

  lemma {:induction false} UntilRollbackIs(log: Log, n: nat, m: nat)
    requires n <= m < |log| && log[m] == RollbackBegun && forall i | n <= i < m :: log[i] != RollbackBegun
    ensures UntilRollback(log, n) == log[..m]
    decreases m - n
  {
    if n < m {
      UntilRollbackIs(log, n + 1, m);
    }
  }

  /** How many rules of the agent's chains a run has changed before its rollback began. */
  function Changed(from: Log, to: Log): (n: int)
    requires |from| <= |to|
  {
    Edits(UntilRollback(to, |from|)) - Edits(from)
  }

  /** How many of them the rollback has changed. */
  function ChangedBack(from: Log, to: Log): (n: int)
    requires |from| <= |to|
  {
    Edits(to) - Edits(UntilRollback(to, |from|))
  }

  /** A transaction and its rollback took place: the rollback began where the transaction had
      stopped. */
  ghost predicate Ended(trace: Trace, u: Undo, from: Stand, to: Stand) {
    exists at :: EndedAt(trace, u, from, at, to)
  }

  ghost predicate EndedAt(trace: Trace, u: Undo, from: Stand, at: Stand, to: Stand) {
    Tracked(trace, from, at) && Rolled(u, at.(log := at.log + [RollbackBegun]), to)
  }

  lemma LogGrows(trace: Trace, u: Undo, from: Stand, at: Stand, to: Stand)
    requires EndedAt(trace, u, from, at, to)
    ensures from.log <= at.log && at.log + [RollbackBegun] <= to.log && UntilRollback(to.log, |from.log|) == at.log
    ensures trace.NotApplied? <==> SaveTried !in at.log[|from.log|..]
  {
    var m := |at.log|;
    if trace.Attempted? {
      var l := from.log + [SaveTried];
      assert l <= at.log && at.log[|from.log|] == l[|from.log|] == SaveTried;
      assert at.log[|from.log|..][0] == SaveTried;
      forall i | |from.log| <= i < m ensures at.log[i] != RollbackBegun {
        assert i > |from.log| ==> at.log[i].RuleAdded? || at.log[i].RuleGone?;
      }
    }
    assert at.log + [RollbackBegun] <= to.log;
    assert to.log[m] == (at.log + [RollbackBegun])[m] && to.log[..m] == (at.log + [RollbackBegun])[..m] == at.log;
    forall i | |from.log| <= i < m ensures to.log[i] != RollbackBegun {
      assert to.log[i] == at.log[i];
    }
    UntilRollbackIs(to.log, |from.log|, m);
  }

  lemma EditsOfMark(l: Log, e: Event)
    requires !IsEdit(e)
    ensures Edits(l + [e]) == Edits(l)
  {
    assert (l + [e])[..|l|] == l;
  }

  /** Where the rollback undid a record, the chains are as before if and only if it changed as
      many rules back as the transaction had changed: provided that neither what went unrecorded
      nor, if the transaction began no record, the record before it cancels out by chance. */
  lemma RestoredIffChangedBack(trace: Trace, from: Stand, at: Stand, to: Stand)
    requires EndedAt(trace, Inverted, from, at, to) && Printable(from.tables)
    requires if trace.Attempted? && trace.renewed then Untangled(trace.loose, trace.lost)
             else Untangled(from.record.added, from.record.deleted)
    ensures from.log <= to.log
    ensures SameContents(from.tables, to.tables) <==> Changed(from.log, to.log) == ChangedBack(from.log, to.log)
  {
    var back := at.(log := at.log + [RollbackBegun]);
    LogGrows(trace, Inverted, from, at, to);
    RollbackRestoresIff(trace, Inverted, from, at, back, to);
    EditsOfMark(from.log, SaveTried);
    EditsOfMark(at.log, RollbackBegun);
    if trace.Attempted? && trace.renewed {
      OwnedConcat(at.record.added, trace.loose);
      OwnedConcat(at.record.deleted, trace.lost);
    }
  }

  /** What went unrecorded cancels out only if it touched none of the chains. */
  ghost predicate Untangled(loose: seq<Placed>, lost: seq<Placed>) {
    Cancels(loose, lost) <==> Owned(loose) == 0 && Owned(lost) == 0
  }

  // --------------------------------------------- plans that ran to their end

  lemma DeletedOtherComments(rules: seq<string>, x: Codec, actions: seq<RuleAction>, i: nat)
    requires Orderly(actions, x) && i < |actions| && actions[i].ChangeRule?
    ensures forall r | r in Taken(rules, x, actions) :: x.read(r) != actions[i].f.comment
  {
    forall r | r in Taken(rules, x, actions) ensures x.read(r) != actions[i].f.comment {
      TakenMembers(rules, x, actions, r);
      var j :| 0 <= j < |actions| && actions[j].DeleteRule? && x.read(r) == actions[j].comment;
      assert actions[j].Comment() == x.read(r) && actions[i].Comment() == actions[i].f.comment;
    }
  }

  /** In one chain, a rule that was changed in place is missing from the record. */
  lemma ChangeIsUnrecorded(rules: seq<string>, now: seq<string>, x: Codec, actions: seq<RuleAction>, i: nat, r: string,
                           added: seq<string>, deleted: seq<string>, lost: seq<string>)
    requires Orderly(actions, x) && x.written && i < |actions| && actions[i].ChangeRule?
    requires now == Effects(rules, x, actions) && added == Given(x, actions) && deleted == Taken(rules, x, actions)
    requires r in rules && x.read(r) == actions[i].f.comment
    requires multiset(now) + multiset(deleted + lost) == multiset(rules) + multiset(added)
    ensures lost != []
  {
    var f := actions[i].f;
    var c, w := f.comment, x.write(f);
    assert actions[i].Comment() == c && x.read(w) == c;
    EffectsOnComment(rules, x, actions, c);
    WithMembers(now, x, c);
    OnlyOnce(now, x, c, w);
    GivenMembers(x, actions, i);
    DeletedOtherComments(rules, x, actions, i);
    if r in now {
      assert r in With(now, x, c);
    }
    assert multiset(deleted)[r] == 0 && multiset(rules)[r] >= 1;
    assert (multiset(now) + multiset(deleted))[r] <= (if r == w then 1 else 0);
    assert (multiset(rules) + multiset(added))[r] >= (if r == w then 2 else 1);
    assert deleted + [] == deleted;
  }

  /** Of a plan made on a well-formed host that ran to its end, everything is on record if and
      only if it changed no rule in place. */
  lemma FullPlanIsRecordedIff(t: Chains, t': Chains, added: seq<Placed>, deleted: seq<Placed>, lost: seq<Placed>,
                              desired: DesiredState)
    requires WellFormed(t) && ValidMappings(desired)
    requires Reached(t, t', added, deleted, Steps(t, desired), |Steps(t, desired)|, R.WantedMappings(desired),
                     desired.backends)
    requires Balanced(t, t', added, deleted + lost) && (NoChange(Steps(t, desired)) ==> lost == [])
    ensures Cancels([], lost) <==> NoChange(Steps(t, desired))
  {
    if !NoChange(Steps(t, desired)) {
      var a :| a in Steps(t, desired) && a.kind.Change?;
      var actions, comments := StepsCarriedOut(t, t', added, deleted, desired);
      StepsAreRules(R.WantedMappings(desired), Found(t), R.BackendTable(desired));
      var i := ResolvedChange(Steps(t, desired), a, R.WantedMappings(desired), desired.backends);
      ChangeWasThere(t, desired, actions, comments, i);
      var s := Slot(Dnat, false);
      var v := ViewOf(s);
      var r :| r in RulesOf(t, v) && CodecOf(s).read(r) == actions[i].f.comment;
      ReadableIsOrderly(actions, s);
      RulesInConcat(deleted, lost, v);
      assert BalancedAt(t, t', added, deleted + lost, s);
      ChangeIsUnrecorded(RulesOf(t, v), RulesOf(t', v), CodecOf(s), actions, i, r, RulesIn(added, v),
                         RulesIn(deleted, v), RulesIn(lost, v));
      assert multiset(RulesIn(lost, v)) != multiset(RulesIn([], v)) by {
        assert RulesIn(lost, v)[0] in multiset(RulesIn(lost, v));
      }
    }
  }
}
