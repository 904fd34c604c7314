/** The iptables manager over more than one call: Apply and then Rollback, and a run in which
    one failing command leaves a second jump (internal/firewall/iptables.go). */
module FirewallTrials {
  import opened Model
  import opened Text
  import opened Tables
  import opened HostState
  import opened RuleText
  import opened FirewallSpec
  import opened FirewallSync
  import opened FirewallFrames
  import opened FirewallJumps
  import opened FirewallRecord
  import opened FirewallLedger
  import opened FirewallMidway
  import opened Firewall
  import opened Runs
  import R = Reconcile

  /** Applies a plan and rolls it back, whichever commands fail. If the record is undone, the
      chains are as before exactly when nothing went unrecorded: which is, unless a plan that
      changes rules in place was made on a host that is not well formed, when the rollback has
      changed as many rules as Apply had. If one of the commands of the rollback fails, the
      fallback gives back exactly the tables from before. */
  method ApplyThenRollback(m: IptablesManager, plan: R.Plan, desired: seq<PortMapping>, backends: seq<Backend>)
    returns (ok: bool, u: Undo, ghost trace: Trace)
    requires Printable(m.host.tables)
    modifies m, m.host
    ensures trace.NotApplied? <==> plan.HasConflicts()
    ensures !u.Failing? ==> (SameContents(old(m.host.tables), m.host.tables)
                             <==> Restores(trace, u, old(m.host.tables), old(m.RecordOf())))
    ensures u.Inverted? && trace.Attempted? && trace.renewed ==>
              (ok || Discernible(old(m.host.tables), plan.actions, ByKey(desired, R.CommentOf), backends)) ==>
              old(m.host.log) <= m.host.log
              && (SameContents(old(m.host.tables), m.host.tables)
                  <==> Changed(old(m.host.log), m.host.log) == ChangedBack(old(m.host.log), m.host.log))
    ensures ok ==> trace.Attempted? && trace.saved && trace.renewed && !u.Nothing?
    ensures ok && u.FellBack? ==> m.host.tables == old(m.host.tables)
    ensures ok && !u.Failing? && NoChange(plan.actions) ==> SameContents(old(m.host.tables), m.host.tables)
    ensures ok && FaultFree(m.host.faults) ==> !u.Failing?
  {
    ghost var from := m.StandOf();
    ghost var l;
    ok, trace, l := m.Apply(plan, desired, backends);
    ghost var at := m.StandOf();
    m.host.NoteRollback();
    ghost var back := m.StandOf();
    u := m.Rollback();
    if !u.Failing? {
      RollbackRestoresIff(trace, u, from, at, back, m.StandOf());
    }
    if u.Inverted? && trace.Attempted? && trace.renewed && Untangled(trace.loose, trace.lost) {
      RestoredIffChangedBack(trace, from, at, m.StandOf());
    }
    if ok {
      SavedIsNotEmpty(from.tables, at.record.snapshot.value);
    }
  }

  // ---------------------------------------------------------- a second jump

  /** A host on which the infrastructure is complete. */
  function Complete(): (t: Chains) {
    map[ViewOf(Slot(Dnat, false)) := [], ViewOf(Slot(Forward, false)) := [], ViewOf(Slot(Snat, false)) := [],
        ParentOf(Dnat) := [Jump(Slot(Dnat, false))], ParentOf(Forward) := [Jump(Slot(Forward, false))],
        ParentOf(Snat) := [Jump(Slot(Snat, false))]]
  }

  lemma CompleteIsComplete(t: Chains, kind: Kind)
    requires t == Complete()
    ensures ViewOf(Slot(kind, false)) in t && ParentOf(kind) in t
            && RulesOf(t, ParentOf(kind)) == [Jump(Slot(kind, false))]
  {
    AllParentsAreForeign();
    assert ViewOf(Slot(kind, false)) in t;
    if kind != Dnat { ParentsDiffer(kind, Dnat); }
    if kind != Forward { ParentsDiffer(kind, Forward); }
    if kind != Snat { ParentsDiffer(kind, Snat); }
  }

  /** Only the second command fails, which looks for the first jump. */
  function SecondFails(): (faults: nat -> bool) { n => n == 1 }

  lemma LinksDespite(l: Launch, t: Chains)
    requires LaunchAt(l, t, SecondFails(), 0) && t == Complete()
    ensures l.LinksUpTo(|KINDS|) && l.CheckAt(KindIndex(Dnat)) == 1 && Jumps(t, Dnat) && JumpCount(t, Dnat) == 1
  {
    forall kind: Kind
      ensures ViewOf(Slot(kind, false)) in t && ParentOf(kind) in t && Jumps(t, kind)
    {
      CompleteIsComplete(t, kind);
    }
    CompleteIsComplete(t, Dnat);
    assert l.TimedAt(0) && l.TimedAt(1) && l.TimedAt(2);
    forall k | 0 <= k < |KINDS| ensures l.Links(k) {
    }
  }

  /** On a complete host, one failing look for a jump leaves that jump twice. */
  method SecondJump() returns (host: Host)
    ensures JumpCount(Complete(), Dnat) == 1 && JumpCount(host.tables, Dnat) == 2
  {
    host := new Host(SecondFails(), Complete(), map[], {}, map[]);
    var m := new IptablesManager(host, false);
    ghost var l := LaunchExists(host.tables, host.faults, host.calls);
    LinksDespite(l, host.tables);
    var ok := m.EnsureInfrastructure(l);
    SecondJumpIffCheckFailed(l, host.tables, Dnat);
  }

  // --------------------------------------------------------- a rule too many

  /** The infrastructure is complete, and there is no rule yet. */
  ghost predicate Idle(t: Chains) { Bare(t) && ChainsExist(t) && Jumping(t) }

  lemma CompleteIsIdle()
    ensures Idle(Complete())
  {
    forall kind: Kind
      ensures ViewOf(Slot(kind, false)) in Complete() && ParentOf(kind) in Complete() && Jumps(Complete(), kind)
    {
      CompleteIsComplete(Complete(), kind);
    }
  }

  lemma OneIsValid(desired: DesiredState, m: PortMapping, b: Backend)
    requires desired.mappings == [m] && desired.backends == [b] && ValidMapping(m, [b])
    ensures ValidMappings(desired) && desired.mappings != []
  {
  }

  /** There is such a host, and there are mappings to be wanted on it. */
  lemma SomeAreIdle(desired: DesiredState)
    requires desired == SAMPLE
    ensures Idle(Complete()) && ValidMappings(desired) && desired.mappings != []
  {
    CompleteIsIdle();
    assert desired.mappings == [HTTPS] && desired.backends == [EDGE];
    MappingIsValid(HTTPS, EDGE);
    OneIsValid(desired, HTTPS, EDGE);
  }

  /** Only the eighteenth command fails: of a transaction that saves the tables and finds the
      infrastructure complete, the second append. */
  function EighteenthFails(): (faults: nat -> bool) { n => n == 17 }

  lemma SecondAppendFails(l: Launch, t: Chains)
    requires LaunchAt(l, t, EighteenthFails(), 1) && Idle(t)
    ensures Quiet(l) && Reach(EighteenthFails(), l.End()) == 1
  {
    assert l.TimedAt(0) && l.TimedAt(1) && l.TimedAt(2);
    forall k | 0 <= k < |KINDS| ensures l.Links(k) {
      assert ViewOf(Slot(KINDS[k], false)) in t && Jumps(t, KINDS[k]);
    }
  }

  lemma BareNeedsSteps(t: Chains, desired: DesiredState)
    requires Bare(t) && ValidMappings(desired) && desired.mappings != []
    ensures Steps(t, desired) != []
  {
    BareIsWellFormed(t);
    NoStepsIffSynced(t, desired);
    assert RulesOf(t, ViewOf(Slot(Dnat, false))) == [];
    if Synced(t, desired) {
      SyncedHoldsRules(t, desired);
    }
  }

  lemma FirstResolves(actions: seq<R.Action>, want: Wants, backends: seq<Backend>)
    requires ResolveAll(actions, want, backends).Some? && actions != [] && actions[0].target.FirewallTarget?
    ensures Resolve(actions[0], want, backends).Some?
  {
    ResolvedPrefix(actions, 1, want, backends);
    assert actions[..1] == [actions[0]] && [actions[0]][..0] == [];
  }

  /** A plan for a host without rules begins with an addition. */
  lemma BareBeginsWithAdd(t: Chains, desired: DesiredState)
    requires Bare(t) && ValidMappings(desired) && desired.mappings != []
    ensures Steps(t, desired) != [] && Steps(t, desired)[0].target.FirewallTarget? && Steps(t, desired)[0].kind.Add?
    ensures Resolve(Steps(t, desired)[0], R.WantedMappings(desired), desired.backends).Some?
    ensures Resolve(Steps(t, desired)[0], R.WantedMappings(desired), desired.backends).value.AddRule?
  {
    BareIsWellFormed(t);
    BareNeedsSteps(t, desired);
    BareStepsAdd(t, desired);
    StepsAreRules(R.WantedMappings(desired), Found(t), R.BackendTable(desired));
    assert Steps(t, desired)[0] in Steps(t, desired);
    var _, _ := StepsAreFeasible(t, desired);
    FirstResolves(Steps(t, desired), R.WantedMappings(desired), desired.backends);
  }

  lemma OneLeft(rules: seq<string>, r: string)
    requires multiset(rules) == multiset([r])
    ensures rules == [r]
  {
    assert |multiset(rules)| == |rules| == 1;
    assert rules[0] in multiset(rules);
  }

  /** What is left when only the first rule of a mapping was appended, and nothing taken back. */
  lemma FirstRuleStays(t: Chains, t': Chains, f: Forwarding, loose: seq<Placed>)
    requires Bare(t) && Balanced(t, t', loose, []) && loose == MappingRules(f)[..1]
    ensures RulesOf(t', ViewOf(Slot(Dnat, false))) == [RuleOf(Dnat, f)]
    ensures forall s: Slot | s != Slot(Dnat, false) :: RulesOf(t', ViewOf(s)) == []
  {
    assert loose == [MappingRules(f)[0]];
    forall s: Slot ensures RulesOf(t', ViewOf(s)) == if s == Slot(Dnat, false) then [RuleOf(Dnat, f)] else [] {
      assert BalancedAt(t, t', loose, [], s);
      RulesInOne(MappingRules(f)[0], ViewOf(s));
      if s == Slot(Dnat, false) {
        OneLeft(RulesOf(t', ViewOf(s)), RuleOf(Dnat, f));
      } else {
        ViewsDiffer(s, Slot(Dnat, false));
        NothingIn(RulesOf(t', ViewOf(s)));
      }
    }
  }

  /** Whenever the infrastructure has been ensured, the second append of the plan fails. */
  ghost predicate Half(t: Chains, faults: nat -> bool, calls: nat, plan: R.Plan, desired: DesiredState, f: Forwarding) {
    forall l | LaunchAt(l, t, faults, calls) ::
      && Quiet(l) && StopsAtFirst(plan.actions, R.WantedMappings(desired), desired.backends, faults, l.End())
      && FirstLeft(plan.actions, R.WantedMappings(desired), desired.backends, faults, l.End()) == MappingRules(f)[..1]
  }

  lemma EighteenthStopsHalf(t: Chains, desired: DesiredState, plan: R.Plan) returns (f: Forwarding)
    requires Idle(t) && ValidMappings(desired) && desired.mappings != [] && plan == R.Plan(Steps(t, desired), [])
    ensures Half(t, EighteenthFails(), 1, plan, desired, f)
  {
    BareBeginsWithAdd(t, desired);
    f := Resolve(plan.actions[0], R.WantedMappings(desired), desired.backends).value.f;
    forall l | LaunchAt(l, t, EighteenthFails(), 1)
      ensures Quiet(l) && Reach(EighteenthFails(), l.End()) == 1
    {
      SecondAppendFails(l, t);
    }
  }

  /** The transaction stops at the second append, with nothing on record but the saved tables. */
  method StopHalf(m: IptablesManager, plan: R.Plan, desired: DesiredState, ghost f: Forwarding) returns (ok: bool)
    requires !m.keepsBackups && !plan.HasConflicts() && !m.host.faults(m.host.calls)
    requires Half(m.host.tables, m.host.faults, m.host.calls + 1, plan, desired, f)
    modifies m, m.host
    ensures !ok && m.lastAdd == [] && m.lastDel == [] && m.snapshot.GetOr("") != ""
    ensures Balanced(old(m.host.tables), m.host.tables, MappingRules(f)[..1], [])
  {
    ghost var was := m.host.tables;
    ghost var trace, l;
    ok, trace, l := m.Apply(plan, desired.mappings, desired.backends);
    assert trace == Attempted(true, true, MappingRules(f)[..1], []);
    SavedIsNotEmpty(was, m.snapshot.value);
    NothingRecorded(trace.loose, trace.lost);
    assert [] + trace.loose == trace.loose;
  }

  /** And the rollback reports success, and leaves the rule that was appended first. */
  method HalfAndBack(faults: nat -> bool, t: Chains, plan: R.Plan, desired: DesiredState, ghost f: Forwarding)
    returns (host: Host, ok: bool, u: Undo)
    requires !faults(0) && !plan.HasConflicts() && Bare(t) && Half(t, faults, 1, plan, desired, f)
    ensures !ok && u.Inverted?
    ensures RulesOf(host.tables, ViewOf(Slot(Dnat, false))) == [RuleOf(Dnat, f)]
    ensures forall s: Slot | s != Slot(Dnat, false) :: RulesOf(host.tables, ViewOf(s)) == []
  {
    host := new Host(faults, t, map[], {}, map[]);
    var m := new IptablesManager(host, false);
    ok := StopHalf(m, plan, desired, f);
    ghost var now := host.tables;
    u := m.Rollback();
    BalancedThen(t, now, host.tables, MappingRules(f)[..1], [], [], []);
    NothingRecorded(MappingRules(f)[..1], []);
    FirstRuleStays(t, host.tables, f, MappingRules(f)[..1]);
  }

  /** Whatever mappings are wanted: on any host with a complete infrastructure and no rules, the
      second append fails; the rollback reports success, and the rule that was appended first
      stays. */
  method HalfAdded(t: Chains, desired: DesiredState, plan: R.Plan)
    returns (host: Host, ok: bool, u: Undo, ghost f: Forwarding)
    requires Idle(t) && ValidMappings(desired) && desired.mappings != [] && plan == R.Plan(Steps(t, desired), [])
    ensures !ok && u.Inverted?
    ensures RulesOf(host.tables, ViewOf(Slot(Dnat, false))) == [RuleOf(Dnat, f)]
    ensures forall s: Slot | s != Slot(Dnat, false) :: RulesOf(host.tables, ViewOf(s)) == []
  {
    f := EighteenthStopsHalf(t, desired, plan);
    host, ok, u := HalfAndBack(EighteenthFails(), t, plan, desired, f);
  }
}
