/** The iptables manager (internal/firewall/iptables.go): it discovers, applies and rolls
    back by issuing commands one at a time, any of which may fail. */
module Firewall {
  import opened Model
  import opened Text
  import opened Tables
  import opened HostState
  import opened RuleText
  import opened FirewallSpec
  import opened FirewallSync
  import opened FirewallFrames
  import opened FirewallJumps
  import opened FirewallRecord
  import opened FirewallLedger
  import opened FirewallMidway
  import R = Reconcile

  class IptablesManager {
    const host: Host
    /** Whether a copy of the snapshot is written to a backup directory. */
    const keepsBackups: bool
    var snapshot: Option<string>
    var lastAdd: seq<Placed>
    var lastDel: seq<Placed>

    constructor (host: Host, keepsBackups: bool)
      ensures this.host == host && this.keepsBackups == keepsBackups
      ensures snapshot == None && lastAdd == [] && lastDel == []
    {
      this.host, this.keepsBackups := host, keepsBackups;
      snapshot, lastAdd, lastDel := None, [], [];
    }

    ghost function RecordOf(): (r: Record)
      reads this
    {
      Record(snapshot, lastAdd, lastDel)
    }

    ghost function StandOf(): (stand: Stand)
      reads this, host
    {
      Stand(host.tables, host.log, RecordOf())
    }

    // ------------------------------------------------------------ discovery

    /** What one listed line contributes; the line that names the chain contributes nothing. */
    method InspectLine(s: Slot, raw: string, ghost rule: Option<string>)
      returns (rules: seq<FirewallRule>, conflicts: seq<Conflict>)
      requires raw == if rule.None? then "-N " + ChainName(s) else RuleLine(ChainName(s), rule.value)
      ensures rules == if rule.None? then [] else Reported(s, CodecOf(s), rule.value)
      ensures conflicts == if rule.None? then [] else AlienIn(s, CodecOf(s), rule.value)
    {
      rules, conflicts := [], [];
      var line := Trim(raw);
      ListedLines(s, rule.GetOr(""));
      if line == "" || "-N " <= line {
        return;
      }
      var comment := ParseComment(line);
      if Alien(comment) {
        conflicts := [Conflict("UNMANAGED_RULE", ChainName(s))];
      }
      if Managed(comment) && !s.kind.Dnat? {
        return;
      }
      var spec := SpecFromSaveLine(line, comment);
      rules := [FirewallRule(ChainName(s), comment, spec, Managed(comment))];
    }

    method DiscoverChain(s: Slot) returns (ok: bool, rules: seq<FirewallRule>, conflicts: seq<Conflict>)
      modifies host`calls
      ensures ok ==> rules == ReportedAll(s, CodecOf(s), RulesOf(host.tables, ViewOf(s)))
      ensures ok ==> conflicts == AliensAmong(s, CodecOf(s), RulesOf(host.tables, ViewOf(s)))
      ensures FaultFree(host.faults) ==> ok
    {
      ok, rules, conflicts := true, [], [];
      var status, lines := host.ListChain(ViewOf(s));
      if status.Failed? {
        ok := status.why.Missing?;
        return;
      }
      ghost var held := host.tables[ViewOf(s)];
      RuleLinesLength(ChainName(s), held);
      ReportedNone(s, CodecOf(s), held);
      for i := 0 to |lines|
        invariant ReportedUpTo(s, CodecOf(s), held, i, rules, conflicts)
      {
        if i > 0 {
          RuleLinesAt(ChainName(s), held, i - 1);
        }
        ghost var rule := if i == 0 then None else Some(held[i - 1]);
        var some, odd := InspectLine(s, lines[i], rule);
        ReportedStep(s, CodecOf(s), held, i, rules, conflicts);
        rules, conflicts := rules + some, conflicts + odd;
      }
      assert held[..|held|] == held;
    }

    method Discover() returns (ok: bool, rules: seq<FirewallRule>, conflicts: seq<Conflict>)
      modifies host`calls
      ensures ok ==> rules == Listing(host.tables, SLOTS, CodecOf)
      ensures ok ==> conflicts == Aliens(host.tables, SLOTS, CodecOf)
      ensures FaultFree(host.faults) ==> ok
    {
      ok, rules, conflicts := true, [], [];
      var slots := SLOTS;
      for i := 0 to |slots|
        invariant ok && rules == Listing(host.tables, slots[..i], CodecOf)
        invariant conflicts == Aliens(host.tables, slots[..i], CodecOf)
      {
        var fine, some, odd := DiscoverChain(slots[i]);
        if !fine {
          return false, [], [];
        }
        rules, conflicts := rules + some, conflicts + odd;
        assert slots[..i + 1][..i] == slots[..i];
      }
      assert slots[..|slots|] == slots;
    }

    // ------------------------------------------------------------- deleting

    /** Deletes, in one chain, every rule with the comment, reading each from the listing. */
    method DeleteInChain(s: Slot, comment: string) returns (ok: bool, deleted: seq<Placed>)
      modifies host`calls, host`tables, host`log
      ensures OnlyChanges(old(host.tables), host.tables, ViewOf(s))
      ensures Booked(old(host.tables), old(host.log), host.tables, host.log, [], deleted)
      ensures forall p | p in deleted :: p.view == ViewOf(s)
      ensures ok && Deletable(s, RulesOf(old(host.tables), ViewOf(s)), comment) ==>
                Deleted(CodecOf(s), RulesOf(old(host.tables), ViewOf(s)), comment, RulesOf(host.tables, ViewOf(s)),
                        RulesIn(deleted, ViewOf(s)))
      ensures Deletable(s, RulesOf(old(host.tables), ViewOf(s)), comment) ==> Reads(deleted, comment)
      ensures FaultFree(host.faults) && Deletable(s, RulesOf(old(host.tables), ViewOf(s)), comment) ==> ok
    {
      var status, lines := host.ListChain(ViewOf(s));
      if status.Failed? {
        BookedNothing(host.tables, host.log);
        ReadsNothing(comment);
        return status.why.Missing?, [];
      }
      ok, deleted := DeleteListedRules(s, lines[1..], comment);
    }

    method DeleteListedRules(s: Slot, lines: seq<string>, comment: string) returns (ok: bool, deleted: seq<Placed>)
      requires ViewOf(s) in host.tables && lines == RuleLines(ChainName(s), host.tables[ViewOf(s)])
      modifies host`calls, host`tables, host`log
      ensures OnlyChanges(old(host.tables), host.tables, ViewOf(s))
      ensures Booked(old(host.tables), old(host.log), host.tables, host.log, [], deleted)
      ensures forall p | p in deleted :: p.view == ViewOf(s)
      ensures ok && Deletable(s, old(host.tables)[ViewOf(s)], comment) ==>
                Deleted(CodecOf(s), old(host.tables)[ViewOf(s)], comment, host.tables[ViewOf(s)],
                        RulesIn(deleted, ViewOf(s)))
      ensures Deletable(s, old(host.tables)[ViewOf(s)], comment) ==> Reads(deleted, comment)
      ensures FaultFree(host.faults) && Deletable(s, old(host.tables)[ViewOf(s)], comment) ==> ok
    {
      ok, deleted := true, [];
      ghost var held := host.tables[ViewOf(s)];
      RuleLinesLength(ChainName(s), held);
      DeletingEnds(CodecOf(s), held, comment, held, []);
      BookedNothing(host.tables, host.log);
      for i := 0 to |lines|
        invariant ok && OnlyChanges(old(host.tables), host.tables, ViewOf(s)) && ViewOf(s) in host.tables
        invariant Booked(old(host.tables), old(host.log), host.tables, host.log, [], deleted)
        invariant forall p | p in deleted :: p.view == ViewOf(s)
        invariant Deletable(s, held, comment) ==>
                    Deleting(CodecOf(s), held, i, comment, host.tables[ViewOf(s)], RulesIn(deleted, ViewOf(s)))
      {
        RuleLinesAt(ChainName(s), held, i);
        DeletingStep(CodecOf(s), held, i, comment, host.tables[ViewOf(s)], RulesIn(deleted, ViewOf(s)));
        ghost var now, note := host.tables, host.log;
        var gone;
        ok, gone := DeleteListed(s, lines[i], comment, held[i]);
        if !ok {
          if Deletable(s, held, comment) {
            DeletingReads(s, held, i, comment, now[ViewOf(s)], deleted);
          }
          return;
        }
        BookedDeletes(old(host.tables), old(host.log), now, note, host.tables, host.log, deleted, gone);
        RulesInConcat(deleted, gone, ViewOf(s));
        deleted := deleted + gone;
      }
      if Deletable(s, held, comment) {
        DeletingReads(s, held, |held|, comment, host.tables[ViewOf(s)], deleted);
      }
      DeletingEnds(CodecOf(s), held, comment, host.tables[ViewOf(s)], RulesIn(deleted, ViewOf(s)));
    }

    /** Deletes a listed rule if it has the comment. */
    method DeleteListed(s: Slot, raw: string, comment: string, ghost rule: string) returns (ok: bool, gone: seq<Placed>)
      requires raw == RuleLine(ChainName(s), rule) && ViewOf(s) in host.tables
      modifies host`calls, host`tables, host`log
      ensures OnlyChanges(old(host.tables), host.tables, ViewOf(s))
      ensures Booked(old(host.tables), old(host.log), host.tables, host.log, [], gone)
      ensures forall p | p in gone :: p.view == ViewOf(s)
      ensures CodecOf(s).read(rule) != comment ==> ok && host.tables == old(host.tables) && gone == []
      ensures !ok ==> host.tables == old(host.tables) && host.log == old(host.log) && gone == []
      ensures ok && CodecOf(s).read(rule) == comment && IsReadBack(s, rule) ==>
                && host.tables[ViewOf(s)] == RemoveFirst(old(host.tables)[ViewOf(s)], rule)
                && RulesIn(gone, ViewOf(s)) == [rule]
      ensures FaultFree(host.faults) && IsReadBack(s, rule) && rule in old(host.tables)[ViewOf(s)] ==> ok
    {
      ok, gone := true, [];
      BookedNothing(host.tables, host.log);
      var args := ArgsToDelete(s, raw, comment, rule);
      if args.Some? {
        var status := host.DeleteRule(ViewOf(s), args.value);
        ok := status.Done?;
        if ok {
          gone := [Placed(ViewOf(s), args.value)];
          BookedDelete(old(host.tables), old(host.log), host.tables, host.log, gone[0]);
          RulesInOne(gone[0], ViewOf(s));
        }
      }
    }

    /** The arguments that delete a listed rule, if it has the comment. */
    method ArgsToDelete(s: Slot, raw: string, comment: string, ghost rule: string) returns (args: Option<seq<string>>)
      requires raw == RuleLine(ChainName(s), rule)
      ensures args == if CodecOf(s).read(rule) != comment then None else SeenArgs(ChainName(s), rule)
    {
      var line := Trim(raw);
      ListedLines(s, rule);
      if ParseComment(line) != comment || !("-A " <= line) {
        return None;
      }
      var tokens := SplitArgs(line);
      if |tokens| < 2 {
        return None;
      }
      return Some(tokens[2..]);
    }

    /** Deletes the rules with a comment from every chain the agent looks at. */
    method DeleteByComment(comment: string) returns (ok: bool, deleted: seq<Placed>)
      modifies host`calls, host`tables, host`log
      ensures OnlyOwnChains(old(host.tables), host.tables)
      ensures OnSlots(deleted)
      ensures Booked(old(host.tables), old(host.log), host.tables, host.log, [], deleted)
      ensures ok && AllDeletable(old(host.tables), comment) ==>
                DeletedIn(old(host.tables), host.tables, deleted, SLOTS, |SLOTS|, comment)
      ensures AllDeletable(old(host.tables), comment) ==> Reads(deleted, comment)
      ensures FaultFree(host.faults) && AllDeletable(old(host.tables), comment) ==> ok
    {
      ok, deleted := true, [];
      var slots := SLOTS;
      ghost var was, first := host.tables, host.log;
      BookedNothing(was, first);
      ReadsNothing(comment);
      for i := 0 to |slots|
        invariant ok && OnlyOwnChains(was, host.tables) && Booked(was, first, host.tables, host.log, [], deleted)
        invariant AllDeletable(was, comment) ==>
                    DeletedIn(was, host.tables, deleted, slots, i, comment) && Reads(deleted, comment)
        invariant forall k | i <= k < |slots| ::
                    RulesOf(host.tables, ViewOf(slots[k])) == RulesOf(was, ViewOf(slots[k]))
        invariant forall p | p in deleted :: exists k :: 0 <= k < i && p.view == ViewOf(slots[k])
      {
        ghost var now, note, before := host.tables, host.log, deleted;
        var some;
        ok, some := DeleteInChain(slots[i], comment);
        OwnChangesAreAllowed(now, host.tables, slots[i]);
        OnlyOwnTransitive(was, now, host.tables);
        BookedDeletes(was, first, now, note, host.tables, host.log, deleted, some);
        DeletedInStep(was, now, host.tables, before, some, i, comment);
        if AllDeletable(was, comment) {
          ReadsConcat(deleted, some, comment);
        }
        deleted := deleted + some;
        if !ok {
          return;
        }
      }
    }

    // --------------------------------------------------------------- adding

    /** Appends rules one by one, until one fails; `n` of them have been appended. */
    method AppendAll(ps: seq<Placed>) returns (ok: bool, ghost n: nat)
      modifies host`calls, host`tables, host`log
      ensures n <= |ps| && (ok <==> n == |ps|)
      ensures AppendedUpTo(old(host.tables), old(host.log), host.tables, host.log, ps, n)
      ensures (forall p | p in ps :: p.view in old(host.tables)) ==>
                QuietBetween(host.faults, old(host.calls), old(host.calls) + n)
                    && (!ok ==> host.faults(old(host.calls) + n))
    {
      ghost var was, first := host.tables, host.log;
      n := 0;
      AppendedUpToNone(was, first, ps);
      for i := 0 to |ps|
        invariant n == i && host.calls == old(host.calls) + i && AppendedUpTo(was, first, host.tables, host.log, ps, i)
        invariant QuietBetween(host.faults, old(host.calls), old(host.calls) + i)
      {
        ok := AppendNext(ps, i, was, first);
        if !ok {
          return false, n;
        }
        n := i + 1;
      }
      ok := true;
    }

    method AppendNext(ps: seq<Placed>, i: nat, ghost was: Chains, ghost first: Log) returns (ok: bool)
      requires i < |ps| && AppendedUpTo(was, first, host.tables, host.log, ps, i)
      modifies host`calls, host`tables, host`log
      ensures host.calls == old(host.calls) + 1
      ensures AppendedUpTo(was, first, host.tables, host.log, ps, if ok then i + 1 else i)
      ensures ps[i].view in was ==> (ok <==> !host.faults(old(host.calls)))
      ensures ok ==> !host.faults(old(host.calls))
    {
      ghost var now, note := host.tables, host.log;
      var added := host.AppendRule(ps[i].view, ps[i].args);
      ok := added.Done?;
      if ok {
        AppendedUpToNext(was, first, now, note, host.tables, host.log, ps, i);
      }
    }

    /** Appends a mapping's three rules; an append that fails leaves the ones before it, which
        are not recorded. */
    method AddMappingRules(f: Forwarding) returns (ok: bool, added: seq<Placed>, ghost loose: seq<Placed>)
      modifies host`calls, host`tables, host`log
      ensures OnlyOwnChains(old(host.tables), host.tables)
      ensures Booked(old(host.tables), old(host.log), host.tables, host.log, added + loose, [])
      ensures OnSlots(added) && (ok ==> AddedTo(old(host.tables), host.tables, added, f))
      ensures if ok then added == MappingRules(f) && loose == []
              else added == [] && Started(loose, f)
      ensures ChainsExist(old(host.tables)) ==>
                (ok <==> Reach(host.faults, old(host.calls)) == 3)
                && (!ok ==> loose == MappingRules(f)[..Reach(host.faults, old(host.calls))])
      ensures FaultFree(host.faults) && ChainsExist(old(host.tables)) ==> ok
    {
      added, loose := [], [];
      var rules := MappingRules(f);
      ghost var n;
      ok, n := AppendAll(rules);
      AppendedAreOwn(old(host.tables), host.tables, f, n);
      if ChainsExist(old(host.tables)) {
        ReachIs(host.faults, old(host.calls), n);
      }
      if ok {
        added := rules;
        assert rules[..n] == rules == added + loose;
        AllAppended(old(host.tables), host.tables, f);
      } else {
        loose := rules[..n];
        assert added + loose == loose;
      }
    }

    // ------------------------------------------------------- infrastructure

    /** Makes sure that a chain exists and is jumped to from a built-in chain. The jump is
        appended if it is not there or if looking for it fails. */
    method EnsureChain(v: View, parent: View, jump: seq<string>) returns (ok: bool)
      requires v != parent && !IsOwn(parent)
      modifies host`calls, host`tables, host`log
      ensures Noted(old(host.log), host.log, [], [])
      ensures Ensuring(host.faults, old(host.tables), old(host.calls), host.tables, host.calls, ok, v, parent,
                       Join(jump))
    {
      var status, _ := host.ListChain(v);
      if status.Failed? {
        if !status.why.Missing? {
          return false;
        }
        var made := host.NewChain(v);
        if made.Failed? {
          return false;
        }
      }
      var found := host.CheckRule(parent, jump);
      if found.Failed? {
        var appended := host.AppendRule(parent, jump);
        if appended.Failed? {
          return false;
        }
        NotedForeign(old(host.log), host.log, RuleAdded(parent));
      }
      ok := true;
    }

    /** Drops the jump to a chain of the older names, if it can; what fails is ignored. */
    method DropChain(v: View, parent: View, jump: seq<string>)
      requires !IsOwn(parent)
      modifies host`calls, host`tables, host`log
      ensures Noted(old(host.log), host.log, [], [])
      ensures Dropping(host.faults, old(host.tables), old(host.calls), host.tables, parent, Join(jump))
      ensures host.calls == old(host.calls) + 3
    {
      ghost var was := RulesOf(host.tables, parent);
      if Join(jump) !in was {
        RemoveAbsent(was, Join(jump));
      }
      var dropped := host.DeleteRule(parent, jump);
      if dropped.Done? {
        NotedForeign(old(host.log), host.log, RuleGone(parent));
      }
      var flushed := host.UnsupportedRuleCommand();
      var deleted := host.UnsupportedRuleCommand();
    }

    /** Makes sure that chains exist and are jumped to, and drops older jumps. Which jumps there
        are afterwards, and whether this succeeds, depends on which commands fail. */
    method EnsureInfrastructure(ghost l: Launch) returns (ok: bool)
      requires LaunchAt(l, host.tables, host.faults, host.calls)
      modifies host`calls, host`tables, host`log
      ensures Noted(old(host.log), host.log, [], [])
      ensures LeavesOthersAlone(old(host.tables), host.tables) && KeepsRules(old(host.tables), host.tables)
      ensures ok ==>
                ChainsExist(host.tables) && Jumping(host.tables) && Launched(l, host.tables) && host.calls == l.End()
      ensures ok <==> l.LinksUpTo(|KINDS|)
    {
      ghost var was := host.tables;
      ok := LinkChains(l);
      if ok {
        ghost var linked := host.tables;
        LinkedAll(l, linked);
        DropLegacyChains(l);
        LinkedThenDropped(was, linked, host.tables);
      }
    }

    /** Makes sure that the three current chains exist and are jumped to. */
    method LinkChains(ghost l: Launch) returns (ok: bool)
      requires LaunchAt(l, host.tables, host.faults, host.calls)
      modifies host`calls, host`tables, host`log
      ensures Noted(old(host.log), host.log, [], [])
      ensures LeavesOthersAlone(old(host.tables), host.tables) && KeepsRules(old(host.tables), host.tables)
      ensures ok ==> Linking(l, old(host.tables), host.tables, host.calls, |KINDS|)
      ensures ok <==> l.LinksUpTo(|KINDS|)
    {
      ok := true;
      ghost var was := host.tables;
      var kinds := KINDS;
      LinkedNone(l);
      for i := 0 to |kinds|
        invariant ok && Linking(l, was, host.tables, host.calls, i) && l.LinksUpTo(i)
        invariant Noted(old(host.log), host.log, [], [])
      {
        ghost var now, calls := host.tables, host.calls;
        assert l.TimedAt(i);
        ok := LinkChain(kinds[i]);
        LinkingStep(l, was, now, host.tables, calls, host.calls, i, ok);
        if !ok {
          return;
        }
      }
    }

    method LinkChain(kind: Kind) returns (ok: bool)
      modifies host`calls, host`tables, host`log
      ensures Noted(old(host.log), host.log, [], [])
      ensures Ensuring(host.faults, old(host.tables), old(host.calls), host.tables, host.calls, ok,
                       ViewOf(Slot(kind, false)), ParentOf(kind), Jump(Slot(kind, false)))
    {
      ParentsAreForeign(kind, Slot(kind, false));
      ParentIsForeign(kind);
      ok := EnsureChain(ViewOf(Slot(kind, false)), ParentOf(kind), JumpArgs(Slot(kind, false)));
    }

    method DropLegacyChains(ghost l: Launch)
      requires |KINDS| < |l.begun| && l.faults == host.faults && host.calls == l.begun[|KINDS|]
      requires LinkedUpTo(l, host.tables, |KINDS|) && Jumping(host.tables)
      modifies host`calls, host`tables, host`log
      ensures Noted(old(host.log), host.log, [], [])
      ensures Shedding(l, old(host.tables), host.tables, host.calls, |KINDS|)
    {
      ghost var was := host.tables;
      var kinds := KINDS;
      ShedNone(l, was);
      for i := 0 to |kinds|
        invariant Shedding(l, was, host.tables, host.calls, i)
        invariant Noted(old(host.log), host.log, [], [])
      {
        ghost var now, calls := host.tables, host.calls;
        DropLegacyChain(kinds[i]);
        SheddingStep(l, was, now, host.tables, calls, i);
      }
    }

    method DropLegacyChain(kind: Kind)
      modifies host`calls, host`tables, host`log
      ensures Noted(old(host.log), host.log, [], [])
      ensures Dropping(host.faults, old(host.tables), old(host.calls), host.tables, ParentOf(kind),
                       Jump(Slot(kind, true)))
      ensures host.calls == old(host.calls) + 3
    {
      ParentIsForeign(kind);
      DropChain(ViewOf(Slot(kind, true)), ParentOf(kind), JumpArgs(Slot(kind, true)));
    }

    // ---------------------------------------------------------------- applying

    method Backup() returns (ok: bool, ghost saved: bool)
      modifies host`calls, host`log, this`snapshot
      ensures if saved then snapshot.Some? && SavedAs(host.tables, snapshot.value) else snapshot == old(snapshot)
      ensures host.log == old(host.log) + [SaveTried]
      ensures ok ==> saved && host.calls == old(host.calls) + (if keepsBackups then 2 else 1)
      ensures ok <==> !host.faults(old(host.calls)) && (keepsBackups ==> !host.faults(old(host.calls) + 1))
      ensures FaultFree(host.faults) ==> ok
    {
      saved := false;
      var status, text := host.Save();
      if status.Failed? {
        return false, false;
      }
      snapshot, saved := Some(text), true;
      if !keepsBackups {
        return true, true;
      }
      var fails := host.Fails();
      ok := !fails;
    }

    /** Carries out one firewall action of a plan. `loose` and `lost` are what it appended and
        deleted without a record: the deletions of a change, and whatever a failing action did. */
    method ApplyAction(act: R.Action, want: map<string, PortMapping>, backends: seq<Backend>)
      returns (ok: bool, added: seq<Placed>, deleted: seq<Placed>, ghost loose: seq<Placed>, ghost lost: seq<Placed>)
      modifies host`calls, host`tables, host`log
      ensures Acted(old(host.tables), old(host.log), host.tables, host.log, act, want, backends, ok, added, deleted,
                    loose, lost)
      ensures ChainsExist(old(host.tables)) && StopsAtFirst([act], want, backends, host.faults, old(host.calls)) ==>
                !ok && lost == [] && loose == FirstLeft([act], want, backends, host.faults, old(host.calls))
      ensures FaultFree(host.faults) && ChainsExist(old(host.tables)) && Resolve(act, want, backends).Some? ==>
                AllDeletable(old(host.tables), Resolve(act, want, backends).value.Comment()) ==> ok
    {
      added, deleted, loose, lost := [], [], [], [];
      BookedNothing(host.tables, host.log);
      if act.kind.Delete? {
        var comment := CommentFromSpec(act.before);
        if comment == "" {
          comment := act.id;
        }
        ok, deleted, lost := DeleteMappingRules(comment);
        return;
      }
      if R.MappingComment(act.id) !in want {
        return false, [], [], [], [];
      }
      var m := want[R.MappingComment(act.id)];
      var address := BackendAddr(m, backends);
      if address == "" || !Ipv4(Trim(address)) || !Port(m.publicPort) || !Port(m.backendPort) {
        return false, [], [], [], [];
      }
      ok, added, loose, lost := PutMappingRules(ForwardingOf(m, address), act.kind.Change?);
      assert deleted + lost == lost;
    }

    /** Adds a mapping's rules, or replaces them. */
    method PutMappingRules(f: Forwarding, change: bool)
      returns (ok: bool, added: seq<Placed>, ghost loose: seq<Placed>, ghost lost: seq<Placed>)
      modifies host`calls, host`tables, host`log
      ensures OnlyOwnChains(old(host.tables), host.tables)
      ensures Booked(old(host.tables), old(host.log), host.tables, host.log, added + loose, lost)
      ensures if ok then loose == [] && (!change ==> lost == []) else added == [] && (!change ==> lost == [])
      ensures !change && ChainsExist(old(host.tables)) ==>
                (ok <==> Reach(host.faults, old(host.calls)) == 3)
                && (!ok ==> loose == MappingRules(f)[..Reach(host.faults, old(host.calls))])
      ensures AllDeletable(old(host.tables), f.comment) ==>
                && Reads(lost, f.comment)
                && (!ok ==> Halfway(old(host.tables), if change then ChangeRule(f) else AddRule(f), loose, lost))
      ensures ok && AllDeletable(old(host.tables), f.comment) ==>
                CarriedOut(old(host.tables), host.tables, added, [], if change then ChangeRule(f) else AddRule(f))
      ensures FaultFree(host.faults) && ChainsExist(old(host.tables)) && AllDeletable(old(host.tables), f.comment) ==>
                ok
    {
      if change {
        ok, added, loose, lost := ReplaceMappingRules(f);
      } else {
        lost := [];
        ReadsNothing(f.comment);
        ok, added, loose := AddMappingRules(f);
        if ok {
          AdditionIsCarriedOut(old(host.tables), host.tables, added, f);
        }
      }
    }

    /** Deletes a mapping's rules; if that fails, those already deleted are not recorded. */
    method DeleteMappingRules(comment: string) returns (ok: bool, deleted: seq<Placed>, ghost lost: seq<Placed>)
      modifies host`calls, host`tables, host`log
      ensures OnlyOwnChains(old(host.tables), host.tables)
      ensures Booked(old(host.tables), old(host.log), host.tables, host.log, [], deleted + lost)
      ensures if ok then lost == [] else deleted == []
      ensures AllDeletable(old(host.tables), comment) ==> Reads(lost, comment)
      ensures ok && AllDeletable(old(host.tables), comment) ==>
                CarriedOut(old(host.tables), host.tables, [], deleted, DeleteRule(comment))
      ensures FaultFree(host.faults) && AllDeletable(old(host.tables), comment) ==> ok
    {
      lost := [];
      ReadsNothing(comment);
      ok, deleted := DeleteByComment(comment);
      NothingRecorded(deleted, deleted);
      if !ok {
        deleted, lost := [], deleted;
        assert deleted + lost == lost;
      } else if AllDeletable(old(host.tables), comment) {
        DeletionIsCarriedOut(old(host.tables), host.tables, deleted, comment);
      }
    }

    /** Deletes a mapping's rules and adds the new ones; the deleted ones are not recorded. */
    method ReplaceMappingRules(f: Forwarding)
      returns (ok: bool, added: seq<Placed>, ghost loose: seq<Placed>, ghost lost: seq<Placed>)
      modifies host`calls, host`tables, host`log
      ensures OnlyOwnChains(old(host.tables), host.tables)
      ensures Booked(old(host.tables), old(host.log), host.tables, host.log, added + loose, lost)
      ensures if ok then loose == [] else added == []
      ensures AllDeletable(old(host.tables), f.comment) ==>
                Reads(lost, f.comment) && (!ok ==> Halfway(old(host.tables), ChangeRule(f), loose, lost))
      ensures ok && AllDeletable(old(host.tables), f.comment) ==>
                CarriedOut(old(host.tables), host.tables, added, [], ChangeRule(f))
      ensures FaultFree(host.faults) && ChainsExist(old(host.tables)) && AllDeletable(old(host.tables), f.comment) ==>
                ok
    {
      added, loose := [], [];
      var deleted;
      ok, deleted := DeleteByComment(f.comment);
      lost := deleted;
      if !ok {
        assert added + loose == [];
        return;
      }
      ghost var now, note := host.tables, host.log;
      ok, added, loose := AddMappingRules(f);
      OnlyOwnTransitive(old(host.tables), now, host.tables);
      BookedThen(old(host.tables), old(host.log), now, note, host.tables, host.log, [], deleted, added + loose, []);
      assert [] + (added + loose) == added + loose && deleted + [] == deleted;
      if AllDeletable(old(host.tables), f.comment) {
        if ok {
          ChangeIsCarriedOut(old(host.tables), now, host.tables, deleted, added, f);
        } else {
          HalfReplaced(old(host.tables), now, deleted, loose, f);
        }
      }
    }

    method BackendAddr(m: PortMapping, backends: seq<Backend>) returns (address: string)
      ensures address == BackendAddress(m, backends)
    {
      for i := 0 to |backends|
        invariant BackendAddress(m, backends) == BackendAddress(m, backends[i..])
      {
        if backends[i].id == m.backendId {
          return backends[i].address;
        }
      }
      address := "";
    }

    /** Carries out the actions in order, until one fails. */
    method ApplyActions(actions: seq<R.Action>, want: map<string, PortMapping>, backends: seq<Backend>)
      returns (ok: bool, ghost loose: seq<Placed>, ghost lost: seq<Placed>)
      modifies host`calls, host`tables, host`log, this`lastAdd, this`lastDel
      ensures OnlyOwnChains(old(host.tables), host.tables)
      ensures Booked(old(host.tables), old(host.log), host.tables, host.log, lastAdd + loose, lastDel + lost)
      ensures ok ==> loose == [] && (NoChange(actions) ==> lost == [])
      ensures ok || Discernible(old(host.tables), actions, want, backends) ==> Untangled(loose, lost)
      ensures ok ==> Reached(old(host.tables), host.tables, lastAdd, lastDel, actions, |actions|, want, backends)
      ensures ChainsExist(old(host.tables)) && StopsAtFirst(actions, want, backends, host.faults, old(host.calls)) ==>
                && !ok && lastAdd == [] && lastDel == [] && lost == []
                && loose == FirstLeft(actions, want, backends, host.faults, old(host.calls))
      ensures FaultFree(host.faults) && ChainsExist(old(host.tables)) ==>
                Feasible(old(host.tables), actions, want, backends) ==> ok
    {
      ok, lastAdd, lastDel, loose, lost := true, [], [], [], [];
      ghost var was, first := host.tables, host.log;
      ghost var stops := ChainsExist(was) && StopsAtFirst(actions, want, backends, host.faults, host.calls);
      AdvancedNone(was, first, actions, want, backends);
      for i := 0 to |actions|
        invariant ok && loose == [] && Progress(was, first, actions, i, want, backends, lost)
        invariant i == 0 ==>
                    host.calls == old(host.calls) && host.tables == was && lastAdd == [] && lastDel == [] && lost == []
        invariant stops ==> i == 0
      {
        if actions[i].target.FirewallTarget? {
          if stops {
            FirstAlone(actions, want, backends, host.faults, old(host.calls));
          }
          ok, loose, lost := ApplyNext(actions, i, want, backends, was, first, lost);
          if !ok {
            return;
          }
        } else {
          AdvancedOther(was, first, host.tables, host.log, lastAdd, lastDel, actions, i, want, backends, lost);
        }
      }
      assert lastAdd + loose == lastAdd;
      OneSidedIsUntangled(loose, lost);
    }

    /** The first i actions have been carried out, recorded, and noted by the host. */
    ghost predicate Progress(was: Chains, first: Log, actions: seq<R.Action>, i: nat, want: map<string, PortMapping>,
                             backends: seq<Backend>, lost: seq<Placed>)
      requires i <= |actions|
      reads this, host
    {
      Advanced(was, first, host.tables, host.log, lastAdd, lastDel, actions, i, want, backends, lost)
    }

    /** Carries out the i-th action. */
    method ApplyNext(actions: seq<R.Action>, i: nat, want: map<string, PortMapping>, backends: seq<Backend>,
                     ghost was: Chains, ghost first: Log, ghost lost: seq<Placed>)
      returns (ok: bool, ghost loose: seq<Placed>, ghost lost': seq<Placed>)
      requires i < |actions| && actions[i].target.FirewallTarget?
               && Progress(was, first, actions, i, want, backends, lost)
      modifies host`calls, host`tables, host`log, this`lastAdd, this`lastDel
      ensures ok ==> loose == [] && Progress(was, first, actions, i + 1, want, backends, lost')
      ensures !ok ==>
                && OnlyOwnChains(was, host.tables) && lastAdd == old(lastAdd) && lastDel == old(lastDel)
                && Booked(was, first, host.tables, host.log, lastAdd + loose, lastDel + lost')
                && (Discernible(was, actions, want, backends) ==> Untangled(loose, lost'))
      ensures ChainsExist(old(host.tables)) ==>
                StopsAtFirst([actions[i]], want, backends, host.faults, old(host.calls)) ==>
                !ok && lost' == lost && loose == FirstLeft([actions[i]], want, backends, host.faults, old(host.calls))
      ensures FaultFree(host.faults) && ChainsExist(was) && Feasible(was, actions, want, backends) ==> ok
    {
      ghost var now, note := host.tables, host.log;
      if Feasible(was, actions, want, backends) {
        ExactUpTo(was, actions, i, want, backends);
        ReachedIsDeletable(was, now, lastAdd, lastDel, actions, i, want, backends,
                           Resolve(actions[i], want, backends).value);
      }
      ghost var gone;
      var added, deleted;
      ok, added, deleted, loose, gone := ApplyAction(actions[i], want, backends);
      lost' := lost + gone;
      if ok {
        Onwards(was, first, now, note, host.tables, host.log, lastAdd, lastDel, actions, i, want, backends, lost,
                added, deleted, gone);
        lastAdd, lastDel := lastAdd + added, lastDel + deleted;
      } else {
        Stopped(was, first, now, note, host.tables, host.log, lastAdd, lastDel, actions, i, want, backends, lost,
                loose, gone);
      }
    }

    /** Carries out the firewall actions of a plan. On success every chain the agent manages
        is what the actions make of it, and the record says what was added and deleted;
        whatever happens, the rules of others stay, and record, trace and the host's log
        account for all the others. What is left unrecorded never cancels out by chance. */
    method Apply(plan: R.Plan, desired: seq<PortMapping>, backends: seq<Backend>)
      returns (ok: bool, ghost trace: Trace, ghost l: Launch)
      modifies host`calls, host`tables, host`log, this`snapshot, this`lastAdd, this`lastDel
      ensures LeavesOthersAlone(old(host.tables), host.tables) && old(host.tables).Keys <= host.tables.Keys
      ensures plan.HasConflicts() ==> !ok
      ensures trace.NotApplied? <==> plan.HasConflicts()
      ensures Tracked(trace, old(StandOf()), StandOf())
      ensures ok ==> trace.renewed && trace.loose == [] && (NoChange(plan.actions) ==> trace.lost == [])
      ensures trace.Attempted? && (ok || Discernible(old(host.tables), plan.actions, ByKey(desired, R.CommentOf),
                                                     backends)) ==>
                Untangled(trace.loose, trace.lost)
      ensures ok ==> snapshot.Some? && SavedAs(old(host.tables), snapshot.value)
      ensures ok ==> ChainsExist(host.tables) && Jumping(host.tables)
      ensures ok ==> Reached(old(host.tables), host.tables, lastAdd, lastDel, plan.actions, |plan.actions|,
                             ByKey(desired, R.CommentOf), backends)
      ensures Quiet(l) && !plan.HasConflicts() && !host.faults(old(host.calls))
              && (keepsBackups ==> !host.faults(old(host.calls) + 1)) ==>
                StopsAtFirst(plan.actions, ByKey(desired, R.CommentOf), backends, host.faults, l.End()) ==>
                && !ok && lastAdd == [] && lastDel == []
                && trace == Attempted(true, true,
                     FirstLeft(plan.actions, ByKey(desired, R.CommentOf), backends, host.faults, l.End()), [])
      ensures LaunchAt(l, old(host.tables), host.faults, old(host.calls) + (if keepsBackups then 2 else 1))
      ensures ok ==> Launched(l, host.tables)
      ensures FaultFree(host.faults) && !plan.HasConflicts() && ParentsExist(old(host.tables)) ==>
                Feasible(old(host.tables), plan.actions, ByKey(desired, R.CommentOf), backends) ==> ok
    {
      trace := NotApplied;
      l := LaunchExists(host.tables, host.faults, host.calls + (if keepsBackups then 2 else 1));
      if plan.HasConflicts() {
        return false, trace, l;
      }
      ghost var saved;
      ok, saved := Backup();
      trace := Attempted(saved, false, [], []);
      BookedNothing(host.tables, host.log);
      OneSidedIsUntangled([], []);
      if !ok {
        return;
      }
      ok, trace := Carry(plan.actions, ByKey(desired, R.CommentOf), backends, l, old(StandOf()));
    }

    /** Ensures the infrastructure and carries out the actions. */
    method Carry(actions: seq<R.Action>, want: map<string, PortMapping>, backends: seq<Backend>, ghost l: Launch,
                 ghost from: Stand)
      returns (ok: bool, ghost trace: Trace)
      requires LaunchAt(l, host.tables, host.faults, host.calls)
      requires snapshot.Some? && SavedAs(host.tables, snapshot.value)
      requires from == Stand(host.tables, from.log, from.record) && host.log == from.log + [SaveTried]
      requires from.record.added == lastAdd && from.record.deleted == lastDel
      modifies host`calls, host`tables, host`log, this`lastAdd, this`lastDel
      ensures LeavesOthersAlone(old(host.tables), host.tables) && old(host.tables).Keys <= host.tables.Keys
      ensures trace.Attempted? && trace.saved && Tracked(trace, from, StandOf())
      ensures ok ==> trace.renewed && trace.loose == [] && (NoChange(actions) ==> trace.lost == [])
      ensures ok || Discernible(old(host.tables), actions, want, backends) ==> Untangled(trace.loose, trace.lost)
      ensures ok ==> ChainsExist(host.tables) && Jumping(host.tables) && Launched(l, host.tables)
      ensures ok ==> Reached(old(host.tables), host.tables, lastAdd, lastDel, actions, |actions|, want, backends)
      ensures Quiet(l) && StopsAtFirst(actions, want, backends, host.faults, l.End()) ==>
                && !ok && lastAdd == [] && lastDel == []
                && trace == Attempted(true, true, FirstLeft(actions, want, backends, host.faults, l.End()), [])
      ensures FaultFree(host.faults) && ParentsExist(old(host.tables)) ==>
                Feasible(old(host.tables), actions, want, backends) ==> ok
    {
      ghost var was, first, loose, lost := host.tables, host.log, [], [];
      if FaultFree(l.faults) && ParentsExist(was) {
        QuietLinks(l);
      }
      ok := EnsureInfrastructure(l);
      trace := Attempted(true, false, [], []);
      BookedNone(was, host.tables, first, host.log);
      OneSidedIsUntangled([], []);
      if !ok {
        return;
      }
      ghost var linked, note := host.tables, host.log;
      FeasibleFrom(was, linked, actions, want, backends);
      DiscernibleFrom(was, linked, actions, want, backends);
      ok, loose, lost := ApplyActions(actions, want, backends);
      BookedAfter(was, first, linked, note, host.tables, host.log, lastAdd + loose, lastDel + lost);
      trace := Attempted(true, true, loose, lost);
      OwnChangesKeepJumps(linked, host.tables);
      LeavesOthersAloneTransitive(was, linked, host.tables);
      if ok {
        ReachedFrom(was, linked, host.tables, lastAdd, lastDel, actions, want, backends);
        LaunchedFrame(l, linked, host.tables);
      }
    }

    // ------------------------------------------------------------ rolling back

    method RestoreSnapshot() returns (ok: bool)
      modifies host`calls, host`tables, host`log
      ensures host.tables == if ok then Restored(snapshot.GetOr("")) else old(host.tables)
      ensures ok ==> snapshot.Some?
      ensures host.log == if ok then old(host.log) + [TablesPutBack] else old(host.log)
      ensures FaultFree(host.faults) && snapshot.Some? ==> ok
    {
      if snapshot.None? {
        return false;
      }
      var status := host.Restore(snapshot.value);
      ok := status.Done?;
    }

    /** Removes the recorded additions, the last one first. */
    method RemoveAdded() returns (ok: bool)
      modifies host`calls, host`tables, host`log
      ensures host.tables.Keys == old(host.tables).Keys
      ensures ok ==>
                Undone(old(host.tables), host.tables, lastAdd, [])
                    && Booked(old(host.tables), old(host.log), host.tables, host.log, [], lastAdd)
      ensures old(host.log) <= host.log
      ensures (FaultFree(host.faults) && Undoable(old(host.tables), lastAdd)) || lastAdd == [] ==> ok
    {
      ghost var was, first := host.tables, host.log;
      var i := |lastAdd|;
      RemovedNone(was, lastAdd);
      UnbookedNone(was, first, lastAdd);
      while i > 0
        invariant 0 <= i <= |lastAdd| && host.tables.Keys == was.Keys && Removed(was, host.tables, lastAdd, i)
        invariant Booked(was, first, host.tables, host.log, [], lastAdd[i..])
      {
        i := i - 1;
        ghost var now, note := host.tables, host.log;
        if Undoable(was, lastAdd) {
          NextIsFound(was, now, lastAdd, i);
        }
        var gone := host.DeleteRule(lastAdd[i].view, lastAdd[i].args);
        if gone.Failed? {
          return false;
        }
        RemovedOneMore(was, now, host.tables, lastAdd, i);
        BookedDelete(now, note, host.tables, host.log, lastAdd[i]);
        BookedOneLess(was, first, now, note, host.tables, host.log, lastAdd, i);
      }
      NothingAppended(was, host.tables, lastAdd);
      assert lastAdd[0..] == lastAdd;
      ok := true;
    }

    /** Adds the recorded deletions back, each at the end of its chain. */
    method AddDeleted() returns (ok: bool)
      modifies host`calls, host`tables, host`log
      ensures ok ==> forall v :: RulesOf(host.tables, v) == RulesOf(old(host.tables), v) + RulesIn(lastDel, v)
      ensures old(host.log) <= host.log && (ok ==> Booked(old(host.tables), old(host.log), host.tables, host.log,
                                                          lastDel, []))
      ensures FaultFree(host.faults) && (forall p | p in lastDel :: p.view in old(host.tables)) ==> ok
      ensures lastDel == [] ==> ok
    {
      ghost var n;
      ok, n := AppendAll(lastDel);
      assert lastDel[..|lastDel|] == lastDel;
    }

    /** Undoes the recorded changes; if a command fails, restores the saved tables instead. */
    method Rollback() returns (u: Undo)
      modifies host`calls, host`tables, host`log, this`lastAdd, this`lastDel
      ensures u.Nothing? <==> old(snapshot).GetOr("") == "" && old(lastAdd) == [] && old(lastDel) == []
      ensures u.Nothing? ==> host.tables == old(host.tables)
      ensures Rolled(u, old(StandOf()), StandOf())
      ensures u.Inverted? ==>
                Undone(old(host.tables), host.tables, old(lastAdd), old(lastDel)) && lastAdd == [] && lastDel == []
      ensures !u.Inverted? ==> lastAdd == old(lastAdd) && lastDel == old(lastDel)
      ensures u.FellBack? ==> snapshot.Some? && host.tables == Restored(snapshot.value)
      ensures FaultFree(host.faults) && Undoable(old(host.tables), old(lastAdd)) ==>
                (forall p | p in old(lastDel) :: p.view in old(host.tables)) ==> u.Inverted? || u.Nothing?
      ensures old(lastAdd) == [] && old(lastDel) == [] && snapshot.GetOr("") != "" ==> u.Inverted?
      ensures FaultFree(host.faults) && snapshot.Some? ==> !u.Failing?
    {
      if snapshot.GetOr("") == "" && |lastAdd| == 0 && |lastDel| == 0 {
        return Nothing;
      }
      var ok := RemoveAdded();
      if ok {
        ghost var now, note := host.tables, host.log;
        ok := AddDeleted();
        if ok {
          UndoneBoth(old(host.tables), now, host.tables, lastAdd, lastDel);
          BookedBack(old(host.tables), old(host.log), now, note, host.tables, host.log, lastAdd, lastDel);
          lastAdd, lastDel := [], [];
          return Inverted;
        }
      }
      var restored := RestoreSnapshot();
      u := if restored then FellBack else Failing;
    }
  }
}
