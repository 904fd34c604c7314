/** Which jumps the built-in chains have after the infrastructure has been ensured, as a
    function of which commands fail (internal/firewall/iptables.go:257-297). */
module FirewallJumps {
  import opened Model
  import opened Text
  import opened Tables
  import opened HostState
  import opened RuleText
  import opened FirewallSpec
  import opened FirewallFrames

  /** The host when its infrastructure begins to be ensured. `begun` tells, for each chain in
      the order of KINDS, the number of the first command about it if all chains before it
      were linked; and then that of the first command about older jumps. */
  datatype Launch = Launch(tables: Chains, faults: nat -> bool, begun: seq<nat>) {
    /** The number of the command that looks for the k-th jump. */
    function CheckAt(k: nat): (n: nat)
      requires k < |KINDS| < |begun|
    {
      begun[k] + (if ViewOf(Slot(KINDS[k], false)) in tables then 1 else 2)
    }

    /** A jump is appended where there is none, and also where looking for it failed. */
    predicate Gains(k: nat)
      requires k < |KINDS| < |begun|
    {
      !Jumps(tables, KINDS[k]) || faults(CheckAt(k))
    }

    /** Commands are counted one by one. */
    ghost predicate Timed(calls: nat) {
      |begun| == |KINDS| + 1 && begun[0] == calls && forall k | 0 <= k < |KINDS| :: TimedAt(k)
    }

    ghost predicate TimedAt(k: nat)
      requires k < |KINDS| < |begun|
    {
      begun[k + 1] == CheckAt(k) + (if Gains(k) then 2 else 1)
    }

    /** No command that links the k-th chain fails but, possibly, the look for its jump. */
    predicate Links(k: nat)
      requires k < |KINDS| < |begun|
    {
      && !faults(begun[k])
      && (ViewOf(Slot(KINDS[k], false)) in tables || !faults(begun[k] + 1))
      && (Gains(k) ==> ParentOf(KINDS[k]) in tables && !faults(CheckAt(k) + 1))
    }

    /** The number of the first command after the infrastructure has been ensured. */
    function End(): (n: nat)
      requires |KINDS| < |begun|
    {
      begun[|KINDS|] + 3 * |KINDS|
    }

    ghost predicate LinksUpTo(i: nat)
      requires i <= |KINDS| < |begun|
    {
      forall k | 0 <= k < i :: Links(k)
    }

    /** The k-th built-in chain once it jumps to the current chain. */
    function Linked(k: nat): (rules: seq<string>)
      requires k < |KINDS| < |begun|
    {
      RulesOf(tables, ParentOf(KINDS[k])) + (if Gains(k) then [Jump(Slot(KINDS[k], false))] else [])
    }

    /** The same chain after the older jump has been dropped, if that did not fail. */
    function After(k: nat): (rules: seq<string>)
      requires k < |KINDS| < |begun|
    {
      if faults(begun[|KINDS|] + 3 * k) then Linked(k) else RemoveFirst(Linked(k), Jump(Slot(KINDS[k], true)))
    }
  }

  // ----------------------------------------------------------- chain by chain

  ghost predicate LinkedAt(l: Launch, now: Chains, k: nat)
    requires k < |KINDS| < |l.begun|
  {
    ViewOf(Slot(KINDS[k], false)) in now && RulesOf(now, ParentOf(KINDS[k])) == l.Linked(k)
  }

  ghost predicate UnlinkedAt(l: Launch, now: Chains, k: nat)
    requires k < |KINDS|
  {
    && RulesOf(now, ParentOf(KINDS[k])) == RulesOf(l.tables, ParentOf(KINDS[k]))
    && (ViewOf(Slot(KINDS[k], false)) in now <==> ViewOf(Slot(KINDS[k], false)) in l.tables)
    && (ParentOf(KINDS[k]) in now <==> ParentOf(KINDS[k]) in l.tables)
  }

  /** The first i chains are linked, the others are as they were. */
  ghost predicate LinkedUpTo(l: Launch, now: Chains, i: nat)
    requires i <= |KINDS| < |l.begun|
  {
    && (forall k | 0 <= k < i :: LinkedAt(l, now, k))
    && (forall k | i <= k < |KINDS| :: UnlinkedAt(l, now, k))
  }

  lemma LinkedNone(l: Launch)
    requires |KINDS| < |l.begun|
    ensures LinkedUpTo(l, l.tables, 0)
  {
  }

  lemma OwnAndParentsDiffer(i: nat, k: nat)
    requires i < |KINDS| && k < |KINDS|
    ensures ViewOf(Slot(KINDS[i], false)) != ParentOf(KINDS[k])
    ensures i != k ==>
              ViewOf(Slot(KINDS[i], false)) != ViewOf(Slot(KINDS[k], false)) && ParentOf(KINDS[i]) != ParentOf(KINDS[k])
  {
    ParentsAreForeign(KINDS[k], Slot(KINDS[i], false));
    if i != k {
      ViewsDiffer(Slot(KINDS[i], false), Slot(KINDS[k], false));
      ParentsDiffer(KINDS[i], KINDS[k]);
    }
  }

  lemma LinkedStep(l: Launch, now: Chains, next: Chains, i: nat)
    requires i < |KINDS| < |l.begun| && LinkedUpTo(l, now, i) && LinkedAt(l, next, i)
    requires Ensured(now, next, ViewOf(Slot(KINDS[i], false)), ParentOf(KINDS[i]), Jump(Slot(KINDS[i], false)))
    ensures LinkedUpTo(l, next, i + 1)
  {
    forall k | 0 <= k < i + 1 ensures LinkedAt(l, next, k) {
      if k < i {
        assert LinkedAt(l, now, k);
        OwnAndParentsDiffer(i, k);
      }
    }
    forall k | i + 1 <= k < |KINDS| ensures UnlinkedAt(l, next, k) {
      assert UnlinkedAt(l, now, k);
      OwnAndParentsDiffer(i, k);
    }
  }

  lemma LinkedAll(l: Launch, now: Chains)
    requires |KINDS| < |l.begun| && LinkedUpTo(l, now, |KINDS|)
    ensures ChainsExist(now) && Jumping(now)
  {
    forall kind: Kind ensures ViewOf(Slot(kind, false)) in now && Jumps(now, kind) {
      assert LinkedAt(l, now, KindIndex(kind)) && KINDS[KindIndex(kind)] == kind;
    }
  }

  ghost predicate ShedAt(l: Launch, now: Chains, k: nat)
    requires k < |KINDS| < |l.begun|
  {
    RulesOf(now, ParentOf(KINDS[k])) == l.After(k)
  }

  ghost predicate UnshedAt(l: Launch, now: Chains, k: nat)
    requires k < |KINDS| < |l.begun|
  {
    RulesOf(now, ParentOf(KINDS[k])) == l.Linked(k)
  }

  /** The first i built-in chains have lost the older jump, if that did not fail. */
  ghost predicate ShedUpTo(l: Launch, now: Chains, i: nat)
    requires i <= |KINDS| < |l.begun|
  {
    && (forall k | 0 <= k < i :: ShedAt(l, now, k))
    && (forall k | i <= k < |KINDS| :: UnshedAt(l, now, k))
  }

  /** What ensuring one chain does, command by command: the chain is listed, and made if it is
      missing; its jump is looked for, and appended if it is missing or the look failed. */
  ghost predicate Ensuring(faults: nat -> bool, t: Chains, calls: nat, t': Chains, calls': nat, ok: bool, v: View,
                           parent: View, jump: string) {
    var rules, at := RulesOf(t, parent), calls + (if v in t then 1 else 2);
    var gains := jump !in rules || faults(at);
    && Ensured(t, t', v, parent, jump)
    && (ok <==> !faults(calls) && (v in t || !faults(calls + 1)) && (gains ==> parent in t && !faults(at + 1)))
    && (ok ==>
        v in t' && RulesOf(t', parent) == rules + (if gains then [jump] else [])
            && calls' == at + (if gains then 2 else 1))
  }

  lemma EnsuringLinks(l: Launch, now: Chains, next: Chains, i: nat, calls': nat, ok: bool, v: View, parent: View,
                      jump: string)
    requires i < |KINDS| < |l.begun| && UnlinkedAt(l, now, i) && l.TimedAt(i)
    requires v == ViewOf(Slot(KINDS[i], false)) && parent == ParentOf(KINDS[i]) && jump == Jump(Slot(KINDS[i], false))
    requires Ensuring(l.faults, now, l.begun[i], next, calls', ok, v, parent, jump)
    ensures ok <==> l.Links(i)
    ensures ok ==> LinkedAt(l, next, i) && calls' == l.begun[i + 1]
  {
    var rules := RulesOf(l.tables, parent);
    assert rules == RulesOf(now, parent);
    assert l.Gains(i) <==> jump !in rules || l.faults(l.CheckAt(i));
  }

  /** The first i chains have been linked, and nothing else has been touched. */
  ghost predicate Linking(l: Launch, was: Chains, now: Chains, calls: nat, i: nat)
    requires i <= |KINDS| < |l.begun|
  {
    LeavesOthersAlone(was, now) && KeepsRules(was, now) && LinkedUpTo(l, now, i) && calls == l.begun[i]
  }

  lemma LinkingStep(l: Launch, was: Chains, now: Chains, next: Chains, calls: nat, calls': nat, i: nat, ok: bool)
    requires i < |KINDS| < |l.begun| && Linking(l, was, now, calls, i) && l.TimedAt(i)
    requires Ensuring(l.faults, now, calls, next, calls', ok, ViewOf(Slot(KINDS[i], false)), ParentOf(KINDS[i]),
                      Jump(Slot(KINDS[i], false)))
    requires l.LinksUpTo(i)
    ensures LeavesOthersAlone(was, next) && KeepsRules(was, next)
    ensures if ok then Linking(l, was, next, calls', i + 1) && l.LinksUpTo(i + 1) else !l.LinksUpTo(|KINDS|)
  {
    assert UnlinkedAt(l, now, i);
    EnsuringLinks(l, now, next, i, calls', ok, ViewOf(Slot(KINDS[i], false)), ParentOf(KINDS[i]),
                  Jump(Slot(KINDS[i], false)));
    EnsuredStep(was, now, next, i);
    if ok {
      LinkedStep(l, now, next, i);
    }
  }

  ghost predicate Dropping(faults: nat -> bool, t: Chains, calls: nat, t': Chains, parent: View, jump: string) {
    && Dropped(t, t', parent, jump)
    && RulesOf(t', parent) == if faults(calls) then RulesOf(t, parent) else RemoveFirst(RulesOf(t, parent), jump)
  }

  /** The first i built-in chains have lost the older jump, and nothing else has been touched. */
  ghost predicate Shedding(l: Launch, was: Chains, now: Chains, calls: nat, i: nat)
    requires i <= |KINDS| < |l.begun|
  {
    LeavesOthersAlone(was, now) && KeepsRules(was, now) && Jumping(now) && ShedUpTo(l, now, i)
        && calls == l.begun[|KINDS|] + 3 * i
  }

  lemma SheddingStep(l: Launch, was: Chains, now: Chains, next: Chains, calls: nat, i: nat)
    requires i < |KINDS| < |l.begun| && Shedding(l, was, now, calls, i)
    requires Dropping(l.faults, now, calls, next, ParentOf(KINDS[i]), Jump(Slot(KINDS[i], true)))
    ensures Shedding(l, was, next, calls + 3, i + 1)
  {
    DroppedStep(was, now, next, i);
    SheddingOneMore(l, now, next, calls, i);
  }

  lemma SheddingOneMore(l: Launch, now: Chains, next: Chains, calls: nat, i: nat)
    requires i < |KINDS| < |l.begun| && ShedUpTo(l, now, i) && calls == l.begun[|KINDS|] + 3 * i
    requires Dropping(l.faults, now, calls, next, ParentOf(KINDS[i]), Jump(Slot(KINDS[i], true)))
    requires forall k | 0 <= k < |KINDS| && k != i ::
               RulesOf(next, ParentOf(KINDS[k])) == RulesOf(now, ParentOf(KINDS[k]))
    ensures ShedUpTo(l, next, i + 1)
  {
    assert UnshedAt(l, now, i);
    DroppingSheds(l, now, next, calls, i, ParentOf(KINDS[i]), Jump(Slot(KINDS[i], true)));
    ShedStep(l, now, next, i);
  }

  lemma DroppingSheds(l: Launch, now: Chains, next: Chains, calls: nat, i: nat, parent: View, jump: string)
    requires i < |KINDS| < |l.begun| && calls == l.begun[|KINDS|] + 3 * i && UnshedAt(l, now, i)
    requires parent == ParentOf(KINDS[i]) && jump == Jump(Slot(KINDS[i], true))
    requires Dropping(l.faults, now, calls, next, parent, jump)
    ensures ShedAt(l, next, i)
  {
    ShedOne(l, now, next, i);
  }

  lemma ShedNone(l: Launch, now: Chains)
    requires |KINDS| < |l.begun| && LinkedUpTo(l, now, |KINDS|)
    ensures ShedUpTo(l, now, 0)
  {
    forall k | 0 <= k < |KINDS| ensures UnshedAt(l, now, k) {
      assert LinkedAt(l, now, k);
    }
  }

  lemma ShedOne(l: Launch, now: Chains, next: Chains, i: nat)
    requires i < |KINDS| < |l.begun| && UnshedAt(l, now, i)
    requires RulesOf(next, ParentOf(KINDS[i]))
             == if l.faults(l.begun[|KINDS|] + 3 * i) then RulesOf(now, ParentOf(KINDS[i]))
                else RemoveFirst(RulesOf(now, ParentOf(KINDS[i])), Jump(Slot(KINDS[i], true)))
    ensures ShedAt(l, next, i)
  {
  }

  lemma ShedElsewhere(l: Launch, now: Chains, next: Chains, k: nat)
    requires k < |KINDS| < |l.begun| && RulesOf(next, ParentOf(KINDS[k])) == RulesOf(now, ParentOf(KINDS[k]))
    ensures ShedAt(l, now, k) ==> ShedAt(l, next, k)
    ensures UnshedAt(l, now, k) ==> UnshedAt(l, next, k)
  {
  }

  lemma ShedStep(l: Launch, now: Chains, next: Chains, i: nat)
    requires i < |KINDS| < |l.begun| && ShedUpTo(l, now, i) && ShedAt(l, next, i)
    requires forall k | 0 <= k < |KINDS| && k != i ::
               RulesOf(next, ParentOf(KINDS[k])) == RulesOf(now, ParentOf(KINDS[k]))
    ensures ShedUpTo(l, next, i + 1)
  {
    forall k | 0 <= k < |KINDS| && k != i
      ensures (ShedAt(l, now, k) ==> ShedAt(l, next, k)) && (UnshedAt(l, now, k) ==> UnshedAt(l, next, k))
    {
      ShedElsewhere(l, now, next, k);
    }
  }

  /** Every built-in chain is what the commands that did not fail have made of it. */
  ghost predicate Launched(l: Launch, now: Chains) {
    |KINDS| < |l.begun| && ShedUpTo(l, now, |KINDS|)
  }

  /** The launch of a host. */
  ghost predicate LaunchAt(l: Launch, t: Chains, faults: nat -> bool, calls: nat) {
    l.tables == t && l.faults == faults && l.Timed(calls)
  }

  /** The infrastructure can be ensured. */
  ghost predicate Quiet(l: Launch) { |KINDS| < |l.begun| && l.LinksUpTo(|KINDS|) }

  lemma LaunchExists(t: Chains, faults: nat -> bool, calls: nat) returns (l: Launch)
    ensures LaunchAt(l, t, faults, calls)
  {
    l := Launch(t, faults, [calls, calls, calls, calls]);
    for k := 0 to |KINDS|
      invariant l.tables == t && l.faults == faults && |l.begun| == |KINDS| + 1 && l.begun[0] == calls
      invariant forall i | 0 <= i < k :: l.TimedAt(i)
    {
      ghost var was := l;
      l := l.(begun := l.begun[k + 1 := l.CheckAt(k) + (if l.Gains(k) then 2 else 1)]);
      forall i | 0 <= i < k + 1 ensures l.TimedAt(i) {
        assert i < k ==> was.TimedAt(i);
      }
    }
  }

  lemma LaunchedFrame(l: Launch, now: Chains, next: Chains)
    requires Launched(l, now) && forall kind: Kind :: RulesOf(next, ParentOf(kind)) == RulesOf(now, ParentOf(kind))
    ensures Launched(l, next)
  {
    forall k | 0 <= k < |KINDS| ensures ShedAt(l, next, k) {
      assert ShedAt(l, now, k);
    }
  }

  // ------------------------------------------------------------ second jumps

  /** How often a built-in chain jumps to the agent's chain. */
  function JumpCount(t: Chains, kind: Kind): (n: nat) {
    multiset(RulesOf(t, ParentOf(kind)))[Jump(Slot(kind, false))]
  }

  lemma Counted(rules: seq<string>, linked: seq<string>, after: seq<string>, jump: string, older: string, gains: bool,
                kept: bool)
    requires jump != older && linked == rules + (if gains then [jump] else [])
    requires after == if kept then linked else RemoveFirst(linked, older)
    ensures multiset(after)[jump] == multiset(rules)[jump] + (if gains then 1 else 0)
    ensures multiset(rules)[jump] > 0 <==> jump in rules
  {
    OtherCountStays(linked, older, jump);
  }

  lemma GainedCounts(l: Launch, now: Chains, kind: Kind, k: nat, rules: seq<string>, after: seq<string>, jump: string,
                     older: string)
    requires k < |KINDS| < |l.begun| && KINDS[k] == kind && ShedAt(l, now, k) && jump != older
    requires rules == RulesOf(l.tables, ParentOf(kind)) && after == RulesOf(now, ParentOf(kind))
    requires jump == Jump(Slot(kind, false)) && older == Jump(Slot(kind, true))
    ensures multiset(after)[jump] == multiset(rules)[jump] + (if jump in rules && !l.faults(l.CheckAt(k)) then 0 else 1)
    ensures multiset(rules)[jump] > 0 <==> jump in rules
  {
    Counted(rules, l.Linked(k), after, jump, older, l.Gains(k), l.faults(l.begun[|KINDS|] + 3 * k));
  }

  /** A chain that is jumped to gets a second jump if and only if the command that looked for
      the first one failed; a chain that is not jumped to gets one. */
  lemma SecondJumpIffCheckFailed(l: Launch, now: Chains, kind: Kind)
    requires Launched(l, now)
    ensures Jumps(l.tables, kind) ==>
              (JumpCount(now, kind) == JumpCount(l.tables, kind) + 1 <==> l.faults(l.CheckAt(KindIndex(kind))))
              && (JumpCount(now, kind) == JumpCount(l.tables, kind) <==> !l.faults(l.CheckAt(KindIndex(kind))))
    ensures !Jumps(l.tables, kind) ==> JumpCount(now, kind) == 1
  {
    JumpsDiffer(Slot(kind, false), Slot(kind, true));
    assert ShedAt(l, now, KindIndex(kind));
    GainedCounts(l, now, kind, KindIndex(kind), RulesOf(l.tables, ParentOf(kind)), RulesOf(now, ParentOf(kind)),
                 Jump(Slot(kind, false)), Jump(Slot(kind, true)));
  }

  /** When no command fails, repeating never adds a second jump, and a built-in chain with one
      jump and no older one is not touched at all. */
  lemma NoSecondJump(l: Launch, now: Chains, kind: Kind)
    requires FaultFree(l.faults) && Launched(l, now)
    ensures JumpCount(now, kind) == if Jumps(l.tables, kind) then JumpCount(l.tables, kind) else 1
    ensures Jumps(l.tables, kind) && Jump(Slot(kind, true)) !in RulesOf(l.tables, ParentOf(kind)) ==>
              RulesOf(now, ParentOf(kind)) == RulesOf(l.tables, ParentOf(kind))
  {
    var k, older := KindIndex(kind), Jump(Slot(kind, true));
    SecondJumpIffCheckFailed(l, now, kind);
    assert ShedAt(l, now, k) && KINDS[k] == kind;
    if Jumps(l.tables, kind) && older !in RulesOf(l.tables, ParentOf(kind)) {
      assert RulesOf(l.tables, ParentOf(kind)) + [] == RulesOf(l.tables, ParentOf(kind));
      RemoveAbsent(RulesOf(l.tables, ParentOf(kind)), older);
    }
  }

  /** When no command fails and the built-in chains exist, every chain is linked. */
  lemma QuietLinks(l: Launch)
    requires FaultFree(l.faults) && ParentsExist(l.tables) && |KINDS| < |l.begun|
    ensures forall k | 0 <= k < |KINDS| :: l.Links(k)
  {
  }
}
