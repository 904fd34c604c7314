# TransitForge: a verified model of the agent's core

TransitForge keeps edge nodes in step with a desired state: port mappings as iptables rules,
WireGuard interfaces, and an HAProxy section for TLS hostnames. An agent on each node
discovers what is there, compares, applies the difference, verifies, and rolls back what
failed; a failover controller moves single backends to an SSH tunnel and back.

This project models that core in Dafny and proves what it promises:

- **The reconcile pipeline** (`Engine`, `EngineSpec`, `Runs`, `SecondRun`) over three
  subsystems: the firewall (`Firewall`, `FirewallSpec`, `FirewallSync`, `FirewallFrames`,
  `FirewallJumps`, `FirewallRecord`, `FirewallLedger`, `FirewallMidway`, `FirewallTrials`,
  `RuleText`, `Tables`), WireGuard (`WireGuard`), and HAProxy (`Haproxy`, `HaproxyBlock`, `HaproxyRead`,
  `HaproxyCurrent`, `HaproxyText`, `MarkedText`), with the comparison in `Reconcile`.
- **The failover protocol**: the state machine (`Machine`, `Health`), the persisted list of
  records (`StateFile`), the addresses that stored modes stand for (`Overlay`), one round
  of the controller (`Controller`), and what rounds leave behind (`Rounds`).
- **Two small stateful cores**: the token bucket (`RateLimit`) and the rename of the SQLite
  files (`DbRename`).

`Host` is the node, with the command semantics of the repository's own simulator: packet
filter tables, links, units and files, changed one command at a time. Which commands fail
is an arbitrary oracle that is asked once per command, so each contract holds for every
combination of failures unless it names the fault-free case. Objects whose methods update
fields are classes with `modifies` clauses; each method is proved against a function or a
relation on values, about which the lemmas are.

The central invariant is that of a *well-formed* host: a managed comment is in none of the
three chains of a generation, or exactly once in each of them, on the three rules of one
forwarding. Discovery looks at one chain of the three, and well-formedness is what makes
that enough (`FirewallSync.DiscoverySeesAll`, `FirewallSync.NoStepsIffSynced`).

Strings stay strings: comments, arguments and specs are read from printed rules by models
of the program's own scanners, and markers are searched for in the text of the file.
Recursive text functions enter the larger proofs through the fields of a `Codec`, a
`Printer` or a `Reader`, which hold the functions as values.

## What the code does otherwise than one might expect

- `docs/OPERATIONS.md` and `docs/FAILOVER.md` say that a failed reconciliation restores the
  firewall. The manager keeps its record after a success, and a failed run always rolls the
  manager back: if it failed before the firewall was reached, the rules that the run before
  it added are deleted (`SecondRun.FailAfterSuccess`, `SecondRun.Example`). When a failed run
  leaves the managed chains as they were is `FirewallLedger.RollbackRestoresIff` and
  `FirewallLedger.RestoredIffChangedBack`.
- An append that fails leaves the ones before it off the record, so that a rollback which
  reports success does not take them back (`FirewallTrials.HalfAdded`).
- A rollback deletes new WireGuard interfaces, but the settings of those that were there
  stay as the failed run has changed them (`Engine.LinksStayLeft`).
- The backup of the HAProxy file is not forgotten after a success either, so the same
  rollback puts back the text from before the run before it (`SecondRun.Example`); the exact
  condition is part of `Engine.ReconcileEngine.Reconcile`.
- Rolling back drops rules that a plan had changed in place
  (`FirewallRecord.RollbackRestoresIffNothingChanged`, `FirewallLedger.FullPlanIsRecordedIff`).
- A failing `-C` makes the manager append a jump that may be there already
  (`FirewallJumps.SecondJumpIffCheckFailed`, `FirewallTrials.SecondJump`).
- `rolled` is reported after a failed verification even if the rollback reported errors
  (`Engine.ReconcileEngine.Transact`).
- The digest does not notice routes exchanging their matches
  (`HaproxyCurrent.DigestMissesExchangedMatches`), nor a backend changing its address, so a
  cutover leaves the HAProxy servers where they were
  (`HaproxyCurrent.MovedBackendsGoUnnoticed`).
- Removing a managed block that was squeezed into a marker makes the file unreadable after
  the next write (`HaproxyText.SeamIsFatal`).
- Hostnames are never read back from the managed section (`HaproxyRead.RoutesAreReadBack`),
  and a line that is the word `frontend` alone makes reading it crash
  (`HaproxyRead.ParseManaged`, `HaproxyRead.FatalFile`).
- `docs/FAILOVER.md` says that a failed cutover restores the transport state. The copy that
  is saved shares its memory with the list, so the records of backends handled earlier in
  the same round are saved in their new state (`Controller.FailedCutoverRestoresIff`,
  `Rounds.FailedCutoverLosesRecord`).
- `docs/FAILOVER.md` says that traffic is not blindly rerouted in `DEGRADED`. A backend that
  goes from the overlay to `DEGRADED` is served at its own address from the next round on,
  without a cutover (`Machine.SilentReroute`, `Overlay.TargetFollowsStoredMode`).
- A cutover starts from the plain desired state, so it takes every other backend off the
  overlay until the next round (`Overlay.CutoverForgetsOverlays`, and for the end of a round
  `Rounds.InstalledAgreesWithStoredIff`).
- A round that is not live stores its decisions although no cutover took place
  (`Rounds.UncutRoundAgreesIff`).

## Model

| member | source | states |
|---|---|---|
| `Engine.ReconcileEngine.Reconcile` | internal/engine/engine.go:84-128 | One reconciliation, whichever commands fail. Its plan never deletes a tunnel. A dry run, a conflict, an empty plan and a plan without a manager change nothing. Success means that desired and discovered state agree with no conflict, that rules of others are untouched, and, on a well-formed firewall, that all six chains are in step although only the DNAT chains are discovered. No interface that was there is ever deleted. A failure whose rollback reports no error leaves the same interfaces; the same HAProxy text if and only if the run made its own backup, or none was pending, or the pending one holds the present text; and the same rules in the managed chains if and only if what it undid accounts for what was done. Where the run had begun a record and the rollback undid it, for a plan made on a well-formed firewall or one that changes no rule in place, that is: if and only if, by the host's own log, the rollback changed as many of these rules as the run had, wherever the run stopped. If the tunnel actions are about different interfaces, as for valid tunnels they are, an interface that was there before keeps what the actions carried out have set; only that of the action that failed may be in between. The firewall is tried, by the log, only after the tunnels and HAProxy. A plan that HAProxy refuses undoes what earlier runs left on record. If no command fails, a ready host always ends at rest, as a finished reconciliation leaves it, and stays ready for every desired state that it was ready for, and at rest the next plan is empty and nothing changes |
| `Engine.ReconcileEngine.Transact` | internal/engine/engine.go:97-128 | Apply, discover again, verify: the verdict, the `rolled` flag (also set when a rollback after a failed verification reported errors) and what is left on the host in each case: links with their settings, configuration and managed chains, under the exact conditions for each. What a run left unrecorded in the chains is tied to the rules the host has noted, and, for plans of which it can be told apart, does not cancel out by chance |
| `Engine.ReconcileEngine.Begin` | internal/engine/engine.go:100-103 | However far a plan gets, the record of created interfaces accounts for every new one, those that were there are as the actions passed have left them, the configuration is untouched unless its text is in a backup of this run, and record, trace and host log account for every rule that has come or gone; the firewall has been tried only if all tunnels were passed and HAProxy has done its part; success means that every action has been carried out; on a ready host without faults it always succeeds |
| `Engine.ReconcileEngine.Discover` | internal/engine/engine.go:34-75 | What is reported is so on the host whichever commands fail: rules exactly, interfaces up to an unlisted address, and no interface that nobody wants; without faults the report is the one function of the host state |
| `Engine.ReconcileEngine.ValidatePlan` | internal/engine/engine.go:130-167 | Accepts a plan if and only if every action has a manager, with the tunnel actions looked up by id |
| `Engine.ReconcileEngine.ApplyPlan` | internal/engine/engine.go:169-231 | Needs no manager that validation did not ask for, but the WireGuard one if a tunnel is to be deleted. Keeps the account of created interfaces unless a tunnel is deleted, the backup of the configuration, and the books of the firewall; a failure among the tunnels, or in HAProxy, leaves the firewall untried; a plan with a tunnel that WireGuard refuses does not get past the tunnels; success means every action was carried out by its manager |
| `Engine.ReconcileEngine.ApplyTunnels` | internal/engine/engine.go:174-202 | After success the interfaces with an action match their tunnels, or are gone if they were to be deleted, all others are untouched and none has changed its kind. After a failure the interfaces of the earlier actions match, and no interface but that of the failing action is otherwise touched |
| `Engine.ReconcileEngine.ApplyFirewall` | internal/engine/engine.go:217-229 | Only the firewall actions go to the firewall manager, in order, and none means that it is not called |
| `Engine.ReconcileEngine.Rollback` | internal/engine/engine.go:233-256 | Deletes exactly the interfaces on record, restores the last backup of the configuration if there is one, and undoes the firewall record or restores the saved tables; without faults a record that can be retrieved is undone |
| `Engine.BeforeNamesInterface` | internal/engine/engine.go:258-270 | The interface name cut from the printed form of a discovered tunnel is that tunnel's interface |
| `Engine.LinksStayLeft` | internal/wireguard/wg.go:162-172 | A rollback deletes new interfaces only: those that were there before keep the settings that the actions before the failing one have given them |
| `Engine.PlanGoes` | internal/engine/engine.go:203-229 | The firewall manager gets exactly the rule steps of the plan, and HAProxy is called exactly when the plan has a step for it |
| `Engine.TunnelTargets` | internal/engine/engine.go:174-192 | The tunnel actions of a plan are about different interfaces, and one is about exactly each interface that is missing or changed |
| `Engine.PlanTends` | internal/engine/engine.go:169-202 | Carrying out the tunnel actions leaves every desired interface matching, touched only if it had changed |
| `Engine.FirewallPartSyncs` | internal/engine/engine.go:217-229 | Carrying out the firewall part of a plan made on a well-formed host brings all chains in step, and so does having nothing to carry out |
| `EngineSpec.PlansDeleteNoTunnel` | internal/engine/engine.go:44-65 | A plan made from the engine's own discovery never deletes a tunnel, since discovery looks at wanted interfaces only |
| `EngineSpec.CalmIffNothingToPlan` | internal/engine/engine.go:120-125 | Discovery finds nothing to do in each of the three subsystems if and only if the plan of the whole is empty and without conflict |
| `EngineSpec.ReconciledIsCalm` | internal/engine/engine.go:103-127 | On a ready host a completely applied plan leaves nothing to plan and no conflict, in all three subsystems: the verification cannot fail |
| `EngineSpec.TendedIsCalm` | internal/wireguard/wg.go:27-83 | After the tunnel actions, the next discovery reports every wanted interface as unchanged and as a WireGuard device |
| `Runs.RunConverges` | internal/engine/engine.go:84-128 | In every run of a host that is ready for what will be wanted, each step of which is what a finished Reconcile is proved to leave, whatever sequence of desired states is carried out, each one ends with nothing left to plan and all six chains in step with it |
| `Runs.StaysReady` | internal/engine/engine.go:84-128 | Carrying out one desired state keeps the host ready for every other one it was ready for: well-formed chains, no conflicting interface, and a HAProxy file that can be split and binds nothing that is wanted |
| `Runs.FreshNodeIsReady` | internal/testhost/host.go:42-50 | A host whose managed chains are absent or empty, with no wanted interface of another kind and no HAProxy file, is ready for every valid desired state, so that every such run can start there |
| `Runs.NewHostIsReady` | internal/testhost/host.go:42-50 | In particular a new simulated host is, for a concrete desired state with a tunnel, a mapping and a route |
| `Runs.BoundAfterRemoval` | internal/haproxy/manager.go:274-284 | Writing the user text without a block brings no bind line of a route into it |
| `SecondRun.FailAfterSuccess` | internal/engine/engine.go:97-113 | A first run on a host without rules of the agent succeeds; a second one, in which no command fails, is refused by HAProxy before it has changed anything. Its rollback takes away every rule that the first run added and puts back the configuration from before the first run |
| `SecondRun.Example` | internal/engine/engine.go:233-244 | The same for a concrete pair of desired states on a new host, the second with a valid route whose match names a backend that is not there: in between the mapping is forwarded and the block is in the file, after that no rule and no text is left |
| `SecondRun.StrayIsUnknown` | internal/model/validate.go:158-180 | Such a route passes validation, which looks up no backend, and cannot be rendered |
| `Reconcile.Diff` | internal/reconcile/plan.go:70-210 | The loops over sorted names compute the plan as a function of the two sides |
| `Reconcile.PlanIsEmptyIffAgreement` | internal/reconcile/plan.go:70-210 | The plan is empty if and only if interfaces, comments with their specs, and the HAProxy digest condition agree |
| `Reconcile.TunnelStepsAreExact` | internal/reconcile/plan.go:95-123 | Exactly each differing interface gets one action, of the right kind and for the right tunnel |
| `Reconcile.RuleStepsAreExact` | internal/reconcile/plan.go:153-180 | Exactly each differing comment gets one action, of the right kind, with the right specs |
| `Reconcile.PlanIgnoresOrder` | internal/reconcile/plan.go:74-180 | With unique names, ids and comments the actions do not depend on the order in which anything is listed |
| `Reconcile.SniDigest` | internal/reconcile/plan.go:249-259 | The loops compute the digest as a function of the routes |
| `Reconcile.DigestIgnoresOrder` | internal/reconcile/plan.go:249-259 | Neither the order of routes nor the order of matches within a route shows in the digest |
| `Reconcile.DigestIsExact` | internal/reconcile/plan.go:249-259 | Two sets of routes have the same digest if and only if they print the same parts equally often |
| `Firewall.IptablesManager.Discover` | internal/firewall/iptables.go:64-102 | Reports every rule of the six chains but the managed ones outside the DNAT chains, and one conflict for each rule with a foreign comment |
| `Firewall.IptablesManager.Apply` | internal/firewall/iptables.go:118-183 | Success means that every chain the agent manages is what the plan's actions make of it, that the record says what was added and deleted, that chains exist and are jumped to, and that each built-in chain has exactly the jumps that the failing commands account for. Other chains and foreign rules stay whatever happens, the saved text is that of the tables before, and what is in the managed chains is always what was there, plus what is recorded or traced as added, minus what is recorded or traced as deleted, as many rules as the host has noted. What is traced as unrecorded cancels out only if it is nothing, for every plan without changes in place and for every plan made on a well-formed host. Where the first addition fails, what it leaves is exact for every pattern of failing commands |
| `Firewall.IptablesManager.Rollback` | internal/firewall/iptables.go:185-213 | Either removes every recorded addition and appends every recorded deletion, chain by chain, or restores the saved tables exactly, or fails; without faults and with every addition in place it inverts |
| `Firewall.IptablesManager.EnsureInfrastructure` | internal/firewall/iptables.go:257-284 | For every pattern of failing commands: whether it succeeds, and after success exactly which jumps each built-in chain has; chains exist and are jumped to, and their rules are kept |
| `Firewall.IptablesManager.EnsureChain` | internal/firewall/iptables.go:268-281 | Whether it succeeds, and after success: the parent gains the jump if and only if it lacked it or the command that looks for it failed |
| `Firewall.IptablesManager.DropLegacyChains` | internal/firewall/iptables.go:286-297 | Each built-in chain loses one older jump unless that command fails, and never a current one; the chains themselves stay |
| `Firewall.IptablesManager.AddMappingRules` | internal/firewall/iptables.go:299-329 | Appends one rule to each of the three current chains and records them; an append that fails leaves exactly the ones before it, unrecorded, and how many these are is a function of which commands fail |
| `Firewall.IptablesManager.DeleteByComment` | internal/firewall/iptables.go:336-364 | Removes from all six chains exactly the rules with the comment, in place, and records them in order |
| `Firewall.IptablesManager.BackendAddr` | internal/firewall/manager.go:58-65 | The loop finds the address of the first backend with the id |
| `FirewallSync.DiscoverySeesAll` | internal/firewall/iptables.go:64-102 | On a well-formed host what is found in the DNAT chains tells, for every comment, whether it is anywhere, and with which forwarding in all three chains |
| `FirewallSync.PlanResolves` | internal/firewall/iptables.go:137-180 | Every action of a plan made from discovery resolves, to one rule action for exactly each comment that is missing, superfluous or wrong |
| `FirewallSync.ApplyConverges` | internal/firewall/iptables.go:118-183 | Fully applied, such a plan leaves exactly one correct rule per mapping in all three chains, the two that discovery skips included, and no other managed rule; untagged rules keep their order |
| `FirewallSync.SyncedIsStable` | internal/firewall/iptables.go:64-116 | A host in step is well formed, and the next plan has no firewall action |
| `FirewallSync.NoStepsIffSynced` | internal/firewall/iptables.go:64-116 | On a well-formed host a plan made from the DNAT chains has no firewall action if and only if all six chains are in step |
| `FirewallSync.NoNewAliens` | internal/firewall/iptables.go:82-88 | Applying a plan brings no rule into the chains that discovery would report as a conflict |
| `FirewallRecord.SuccessfulApplySyncs` | internal/firewall/iptables.go:118-183 | A successful Apply of the plan made from discovery leaves the host in step, well formed, with nothing left to plan; rules without a managed comment keep their order |
| `FirewallRecord.RollbackUndoesApply` | internal/firewall/iptables.go:185-213 | Rolling back a plan of additions and deletions finds every rule it removes and gives each chain the same rules back, the same sequence when nothing was deleted |
| `FirewallRecord.RollbackRestoresIffNothingChanged` | internal/firewall/iptables.go:160-164 | Rolling back an applied plan restores the rules of every chain if and only if the plan changed no rule in place |
| `FirewallRecord.WellFormedIsCanonical` | internal/firewall/iptables.go:336-364 | On a well-formed host every managed rule can be deleted by reading its listed line |
| `FirewallRecord.CanonicalStays` | internal/firewall/iptables.go:299-364 | Carrying out rule actions leaves only rules that can be deleted by reading them |
| `FirewallLedger.RollbackRestoresIff` | internal/firewall/iptables.go:134-213 | After any transaction, however far it got, and a rollback: the managed chains hold what they held before if and only if the record of an earlier transaction cancelled out, or what this one did without recording it cancelled out, or the tables restored were saved in this transaction or hold the same rules; in the third case all tables are restored exactly |
| `FirewallLedger.RestoredIffChangedBack` | internal/firewall/iptables.go:185-213 | Where a record was undone and nothing cancels out by chance, that is so if and only if the rollback changed as many rules of the managed chains as the transaction had, counted in the host's own log |
| `FirewallMidway.MidwayIsUntangled` | internal/firewall/iptables.go:160-180 | A transaction that stops anywhere: what completed changes have deleted and what the failing action has appended and deleted, none of it on record, cancel out only if there is nothing of either |
| `FirewallMidway.HalfwayIsUntangled` | internal/firewall/iptables.go:322-364 | The same for one action: some of the appends, some of the deletions, or, of a change, all deletions and some of the appends |
| `FirewallMidway.StepsAreDiscernible` | internal/firewall/iptables.go:64-116 | Every plan made from a discovery of a well-formed host is one of which this holds, changes in place included |
| `FirewallLedger.FullPlanIsRecordedIff` | internal/firewall/iptables.go:160-164 | Of a plan made on a well-formed host that ran to its end, everything is on record if and only if it changed no rule in place |
| `FirewallTrials.ApplyThenRollback` | internal/firewall/iptables.go:118-213 | Apply and then Rollback on one manager, whichever commands fail and wherever Apply stops: the exact condition for the same rules, by the record and by the host's log; all of them after a finished plan of additions and deletions; if a command of the rollback fails, the fallback gives back exactly the tables from before |
| `FirewallTrials.HalfAdded` | internal/firewall/iptables.go:322-327 | For all mappings that may be wanted: on a host with complete infrastructure and no rules, one command fails, the second append; the rollback reports success, and the DNAT rule that was appended first stays, alone |
| `FirewallJumps.SecondJumpIffCheckFailed` | internal/firewall/iptables.go:275-281 | A built-in chain that jumps to the agent gets a second jump if and only if the command that looks for the first one fails |
| `FirewallJumps.NoSecondJump` | internal/firewall/iptables.go:275-281 | When no command fails repeating never adds a second jump, and a chain with one jump and no older one is not touched |
| `FirewallTrials.SecondJump` | internal/firewall/iptables.go:275-281 | A concrete run on a complete host in which only that command fails, after which there are two jumps |
| `FirewallSpec.EffectsOnComment` | internal/firewall/iptables.go:137-180 | A list of actions with different comments leaves, of each comment, its own action's result and nothing else |
| `FirewallSpec.UntaggedRulesStay` | internal/firewall/iptables.go:346-350 | Rules without a managed comment stay, in their order, through any list of actions |
| `FirewallSpec.InverseRestores` | internal/firewall/iptables.go:191-209 | Removing the additions last first and appending the deletions gives back the same rules |
| `RuleText.SplitArgs` | internal/firewall/iptables.go:434-456 | The character loop computes the tokens of a line with quotation marks |
| `RuleText.SpecFromSaveLine` | internal/firewall/iptables.go:395-423 | The flag loop computes the comparable form of a listed rule |
| `RuleText.TokensOfJoin` | internal/firewall/iptables.go:434-456 | Splitting space-joined clean tokens returns the tokens |
| `RuleText.WrittenRuleIsReadBack` | internal/firewall/iptables.go:374-393 | From the listing of a rule the agent wrote, in any of its chains, its comment and its arguments are read back |
| `RuleText.WrittenSpecIsReadBack` | internal/firewall/iptables.go:395-423 | From the listing of a DNAT rule the agent wrote, the mapping's comparable form is read back |
| `RuleText.CommentOfSpec` | internal/firewall/iptables.go:425-432 | The comment is read back from the comparable form of a mapping |
| `RuleText.SpecDeterminesForwarding` | internal/firewall/manager.go:54-56 | Two mappings with the same comparable form have the same rules |
| `Tables.RestoreOfSave` | internal/testhost/host.go:194-245 | Restoring what was saved gives back every chain of the host, in whatever order the chains were printed |
| `HostState.Host.NewChain` | internal/testhost/host.go:107-115 | A new empty chain, unless it exists |
| `HostState.Host.ListChain` | internal/testhost/host.go:116-129 | The chain's name and its rules, a line each |
| `HostState.Host.AppendRule` | internal/testhost/host.go:130-140 | The rule at the end of an existing chain |
| `HostState.Host.DeleteRule` | internal/testhost/host.go:141-154 | The first rule with that text goes |
| `HostState.Host.CheckRule` | internal/testhost/host.go:155-166 | Whether the chain holds a rule with that text |
| `HostState.Host.Save` | internal/testhost/host.go:194-212 | Prints every chain of both tables once, in the order a map is walked |
| `HostState.Host.Restore` | internal/testhost/host.go:214-245 | The tables become what the text says, and nothing else |
| `HostState.Host.LinkAdd` | internal/testhost/host.go:311-328 | A new link, unless the name is taken |
| `HostState.Host.LinkDelete` | internal/testhost/host.go:329-343 | The link goes, if it is there |
| `HostState.Host.AddrReplace` | internal/testhost/host.go:270-284 | The address alone is on the link |
| `HostState.Host.WgSetDevice` | internal/testhost/host.go:422-455 | Listen port and key of an existing link |
| `HostState.Host.WgSetPeer` | internal/testhost/host.go:422-455 | Peer settings that are not given stay as they are |
| `HostState.Host.StartUnit` | internal/testhost/host.go:482-484 | The unit is active |
| `WireGuard.WgManager.Discover` | internal/wireguard/wg.go:27-47 | One report per wanted WireGuard tunnel, each what is on the host up to an address that could not be listed, and a conflict for exactly each interface of another kind |
| `WireGuard.WgManager.Inspect` | internal/wireguard/wg.go:49-83 | What is reported of one interface, and the conflict, for every combination of failing commands |
| `WireGuard.WgManager.Apply` | internal/wireguard/wg.go:85-149 | Success means that the link carries the tunnel's settings and keeps what the tunnel leaves open. Whatever happens no other link is touched, no kind changes, and a created link is on record |
| `WireGuard.WgManager.Delete` | internal/wireguard/wg.go:151-160 | A link that is not there counts as deleted; no other link changes |
| `WireGuard.WgManager.RollbackAll` | internal/wireguard/wg.go:162-172 | Deleting the interfaces on record never deletes one from before the transaction, and restores the set of interfaces when each deletion succeeds |
| `WireGuard.AccountedAfter` | internal/wireguard/wg.go:108-115 | One Apply, failed or not, keeps the account: what was there is there, and what is new is on record once |
| `WireGuard.ServedIsUnchanged` | internal/reconcile/plan.go:232-243 | After a successful Apply discovery does not report the tunnel as changed, even if its address cannot be listed |
| `WireGuard.MaskedIp` | internal/wireguard/wg.go:207-219 | The address that Apply sets is the address that discovery reads |
| `SshTun.SshManager.Apply` | internal/sshtun/manager.go:48-67 | Success means that the unit is active; no other unit is touched |
| `SshTun.SshManager.Discover` | internal/sshtun/manager.go:19-46 | Presence and activity are reported as they are |
| `MarkedText.SplitOfJoin` | internal/haproxy/manager.go:257-284 | For any markers: splitting what was joined returns the text, up to outer white space, and the block, if and only if the text holds no marker of its own; otherwise splitting is refused |
| `MarkedText.NoSeam` | internal/haproxy/manager.go:266 | Taking out a block that stands on lines of its own leaves no marker behind |
| `MarkedText.SeamMakesMarker` | internal/haproxy/manager.go:266 | Taking out a block that was squeezed into a marker leaves that marker |
| `MarkedText.PrintedBlock` | internal/haproxy/manager.go:188-231 | A block printed line by line has its markers only at its ends |
| `HaproxyText.ReadBackIffFree` | internal/haproxy/manager.go:249-284 | With the agent's markers: text and block are read back if and only if the text is free of the current markers |
| `HaproxyText.EditsKeepText` | internal/haproxy/manager.go:96-111 | After any sequence of additions, replacements and removals the file is the user's text followed by the last block |
| `HaproxyText.UserTextSurvives` | internal/haproxy/manager.go:249-284 | The user's text survives every sequence of edits, up to outer white space, and can always be told from the block |
| `HaproxyText.RewritingSettles` | internal/haproxy/manager.go:274-284 | Writing the same block again is a byte-for-byte fixed point from the second time on, and from the first exactly when the text has no outer white space but newlines at its end |
| `HaproxyText.AddThenRemove` | internal/haproxy/manager.go:274-284 | Adding a block and removing it gives back the user's text up to outer white space |
| `HaproxyText.OwnLinesAreReadable` | internal/haproxy/manager.go:257-272 | A file whose block stands on lines of its own can be rewritten without losing the boundary |
| `HaproxyText.SeamIsFatal` | internal/haproxy/manager.go:257-272 | A concrete family of files that can be split and rewritten once, and then never read again |
| `HaproxyBlock.Render` | internal/haproxy/manager.go:177-233 | The loops print the block as a function of routes and backends |
| `HaproxyBlock.RefusedIff` | internal/haproxy/manager.go:215-247 | Rendering is refused exactly when some route has no default or a match without a known backend |
| `HaproxyBlock.RenderedIsBlock` | internal/haproxy/manager.go:177-233 | What is printed for one-word values is a block that the editor can find again |
| `HaproxyRead.ParseManaged` | internal/haproxy/manager.go:286-319 | The loop computes what is read of a section, and fails if and only if some line of it is the word `frontend` alone |
| `HaproxyRead.FatalFile` | internal/haproxy/manager.go:293-296 | A literal file with such a line between the markers can be split, but its section cannot be read |
| `Haproxy.SeeingFailsIff` | internal/haproxy/manager.go:57-83 | What discovery makes of a file is undefined if and only if the file can be split and its section has such a line |
| `HaproxyRead.DigestIsReadBack` | internal/haproxy/manager.go:379-389 | The digest read from a rendered block is the digest of its routes |
| `HaproxyRead.RoutesAreReadBack` | internal/haproxy/manager.go:286-319 | Reading a rendered block gives one route per route rendered, in order, with name, listen address and backend names; the hostnames are lost |
| `HaproxyRead.UseWords` | internal/haproxy/manager.go:306-311 | The last word of a hostname rule is the closing brace, so the hostname read from it is empty |
| `Haproxy.HaproxyManager.Apply` | internal/haproxy/manager.go:85-131 | Either the file is the user's text and the new block, or its content is as it was: refused, or put back after validation or reload failed; if the call made a backup that holds the former content, and otherwise nothing has changed; without faults it succeeds exactly when the input is acceptable |
| `Haproxy.HaproxyManager.Discover` | internal/haproxy/manager.go:57-83 | Reports digest, routes and conflicts as a function of the file; without faults it fails if and only if the section has a line that is the word `frontend` alone |
| `Haproxy.HaproxyManager.Rollback` | internal/haproxy/manager.go:144-161 | The content becomes that of the last backup, and nothing happens without one |
| `Haproxy.HaproxyManager.RestoreFile` | internal/haproxy/manager.go:345-353 | Empty content is restored by removing the file; a failure changes nothing |
| `Haproxy.AppliedIsSeen` | internal/haproxy/manager.go:57-131 | After a successful Apply, discovery reports the digest of the routes, or no section for none, and no conflict |
| `Haproxy.AppliedKeepsText` | internal/haproxy/manager.go:85-131 | The user's text is still there after a successful Apply, free of markers, up to outer white space |
| `Haproxy.BoundAfterTrim` | internal/haproxy/manager.go:321-332 | A listen address that the text does not bind is not bound after trimming |
| `HaproxyCurrent.RenderedEqualIff` | internal/haproxy/manager.go:177-233 | Two configurations give the same block if and only if their digests are the same and their routes are printed alike one by one: names, listen addresses, hostnames, defaults, and addresses of backends |
| `HaproxyCurrent.EmptyPlanMeansCurrentIff` | internal/reconcile/plan.go:182-210 | A plan has nothing to do for HAProxy if and only if the digests agree; the block in the file is then the one that would be written now if and only if the routes are also printed alike |
| `HaproxyCurrent.MovedBackendsGoUnnoticed` | internal/reconcile/plan.go:249-259 | If only backends have changed, as in a cutover, a plan has nothing to do for HAProxy, and the block is still right if and only if no match leads to another address |
| `HaproxyCurrent.ExchangeGoesUnnoticed` | internal/reconcile/plan.go:249-259 | After two routes have exchanged their matches a plan has nothing to do for HAProxy, although another block is wanted |
| `HaproxyCurrent.DigestMissesExchangedMatches` | internal/reconcile/plan.go:249-259 | Concrete valid routes that exchange their hostnames: the HAProxy plan is empty and the rendered text differs |
| `Machine.Step` | internal/failover/machine.go:29-166 | The branch-by-branch step over a local record computes one decision as a function of record and input |
| `Machine.CounterCountsTheStreak` | internal/failover/machine.go:46-56 | In every run from a fresh record, in WG_PRIMARY the counter equals the number of unhealthy rounds since the last healthy one or the last entry |
| `Machine.LeavesWgOnlyAfterThreshold` | internal/failover/machine.go:52-80 | In every run, WG_PRIMARY is left only after at least the threshold of consecutive unhealthy rounds |
| `Machine.WgIsReenteredOnlyByOperator` | internal/failover/machine.go:100-163 | In every run, WG_PRIMARY is entered only in a round with an operator's fail-forward and a healthy primary, whatever the policy says |
| `Machine.CutoversMatchTheModeChange` | internal/failover/machine.go:73-80 | A round asks for SSH exactly when it enters the overlay, which takes automatic failback, a failed primary and a healthy fallback; for WireGuard exactly when it comes back; never both |
| `Machine.SilentReroute` | internal/failover/machine.go:117-133 | A round takes a backend off the overlay without asking for a cutover exactly when the fallback is unhealthy and nobody fails forward |
| `Machine.OutageEndsInSsh` | internal/failover/machine.go:45-166 | From any mode, threshold plus one rounds of failed primary and healthy fallback end in SSH_PRIMARY, and more of them stay there |
| `Machine.OutageBoundIsTight` | internal/failover/machine.go:52-80 | That bound cannot be lowered: from a fresh record one round less does not get there |
| `Machine.FailForwardEndsInWg` | internal/failover/machine.go:82-163 | With a healthy primary and fail-forward any mode reaches WG_PRIMARY in two rounds and stays |
| `Controller.FailoverController.RunOnce` | internal/failover/controller.go:24-101 | A finished round stores every loaded record with the machine's step put in for each backend that has a WireGuard tunnel; after a live one the host agrees with the overlaid desired state if there was no cutover, and otherwise with the plain one in which the backend cut over last is moved. A failed cutover was asked for by the next backend and stores what the copied list header shows by then, or, if saving fails, nothing new; any other failure leaves the file as it was; a round that is not live leaves the host alone but stores its records all the same. Without an engine no primary is healthy and no cutover succeeds |
| `Controller.FailoverController.Advance` | internal/failover/controller.go:53-95 | The record stored for a backend is the machine's step from its own record and sampled health; a cutover that was asked for has succeeded and the host agrees with the moved address |
| `Controller.FailoverController.Open` | internal/failover/controller.go:38-43 | After a live opening reconciliation succeeds the host agrees with the overlaid desired state |
| `Controller.FailoverController.Cutover` | internal/failover/controller.go:103-141 | Success means that the host agrees with the plain desired state in which that backend alone is at the tunnel's remote address |
| `Controller.FailoverController.StoredModesAreInstalled` | internal/failover/controller.go:38-43 | Then the DNAT rule found for each mapping leads where the stored mode of its backend says |
| `Controller.FailoverController.FallbackHealth` | internal/failover/controller.go:163-179 | A healthy verdict is given only for a unit that is active and an interface that is present |
| `Controller.FailoverController.Probe` | internal/failover/controller.go:181-192 | Every TCP mapping of the backend is dialled once, and failures are counted among them |
| `Controller.RoundIsPersisted` | internal/failover/controller.go:31-98 | With distinct backend ids each stored record is the step from that backend's own loaded record; all other records and the uniqueness of keys are kept |
| `Controller.FailedCutoverKeepsTheRest` | internal/failover/controller.go:35-36 | After a failed cutover the record of that backend, of every later one and of every other key is as it was loaded |
| `Controller.FailedCutoverRestoresIff` | internal/failover/controller.go:85-91 | What is saved after a failed cutover is what was loaded if and only if every backend handled before it that has a loaded record, up to the point where the list has no room for a new one, took a step to the same record; as steps are stamped, that is, once time has moved on, if and only if there is no such backend |
| `Rounds.FailedCutoverLosesRecord` | internal/failover/controller.go:35-36 | A round is run on a controller without an engine, with two backends and no failing command: the first takes its step, the cutover of the second to a healthy SSH tunnel fails, and what is saved holds the new record of the first |
| `Rounds.TargetBackends` | internal/failover/controller.go:38-43 | Where each backend is on the host after a finished live round |
| `Rounds.InstalledAgreesWithStoredIff` | internal/failover/controller.go:94-98 | After a finished round, when a backend is on the host where the records just stored say: the exact condition without a cutover, after a cutover of another backend, and after its own |
| `Rounds.UncutRoundAgreesIff` | internal/failover/controller.go:83-95 | Without a cutover, and in a round that is not live, a backend is left elsewhere than its new record says if and only if its mode entered or left the overlay and that makes a difference; in a live round that is exactly a silent reroute |
| `Rounds.CutBackendAgreesIff` | internal/failover/controller.go:103-130 | The backend cut over last is where its new record says if and only if it went to SSH or its WireGuard tunnel leads to its own address |
| `Rounds.FailedRoundSteps` | internal/failover/controller.go:85-91 | A round that ends with a failed cutover takes the step of exactly those backends whose records were overwritten in the shared memory; the counter of the backend whose cutover fails stands still |
| `Rounds.StoredRecordIsARun` | internal/failover/controller.go:31-98 | Over any number of rounds, finished or ended by a failed cutover, a stored record is what a run of the machine over the steps that were kept makes of it |
| `Rounds.StoredWgIsLeftOnlyAfterThreshold` | internal/failover/machine.go:52-80 | From an empty file on, a stored record leaves WG_PRIMARY only after at least the threshold of consecutive unhealthy rounds among those whose steps were kept |
| `Rounds.FinishedRoundSteps` | internal/failover/controller.go:92-98 | A finished round takes the step of every managed backend, from its own loaded record |
| `Rounds.StoredOutageEndsInSsh` | internal/failover/controller.go:31-98 | Over threshold plus one finished rounds or more, with the primary down and the fallback up, the stored record of a backend ends in SSH_PRIMARY |
| `Rounds.StoredFailForwardEndsInWg` | internal/failover/controller.go:31-98 | Over two finished rounds or more, with a healthy primary and a standing fail-forward request, it ends in WG_PRIMARY with no failure counted |
| `StateFile.File.Get` | internal/failover/state.go:61-72 | The loop finds the first record with the key, or makes a fresh one |
| `StateFile.File.Put` | internal/failover/state.go:74-82 | The record goes over the one with its key, in place, or to the end; the list moves to new memory exactly when it is full, and then the old memory keeps what it had |
| `StateFile.LookupOfPut` | internal/failover/state.go:61-82 | What is put is what is found, and no other key is affected |
| `StateFile.PutKeepsUniqueness` | internal/failover/state.go:74-82 | There is still one record for each key |
| `StateFile.CopyRestoresIff` | internal/failover/controller.go:35-36 | Saving a header that was copied before some puts restores what was loaded if and only if every record overwritten in place, before the list moved, was overwritten with itself |
| `Overlay.ApplyStoredOverlays` | internal/failover/controller.go:232-244 | The loop computes the overlaid desired state as a function of the entries; the given state is unchanged |
| `Overlay.RewriteBackendAddr` | internal/failover/controller.go:246-255 | Only the address of the backends with that id changes |
| `Overlay.SplitTunnels` | internal/failover/controller.go:194-209 | The last tunnel of each kind for the backend |
| `Overlay.OverlayFollowsStoredMode` | internal/failover/controller.go:232-244 | Each backend is at its SSH tunnel's remote address if and only if some entry of it is in SSH_PRIMARY or FAILBACK_IN_PROGRESS and there is such a tunnel, in whatever order the entries come |
| `Overlay.TargetFollowsStoredMode` | internal/failover/controller.go:38-43 | Once the host agrees with the overlaid state, the rule found for each mapping leads to that address |
| `Overlay.CutoverForgetsOverlays` | internal/failover/controller.go:104-127 | A cutover leaves every other backend at its own address, which is where the stored modes put it if and only if no record puts it on the overlay, or it has no SSH tunnel, or that leads to the same address |
| `RateLimit.Limiter.Allow` | internal/api/ratelimit.go:30-50 | One call decides and updates exactly the bucket of its key |
| `RateLimit.AllowedIffEveryWindowHasRoom` | internal/api/ratelimit.go:30-50 | A call passes if and only if every window of the run that ends with it has room for it: the bucket decides as the sliding window would |
| `RateLimit.WindowBound` | internal/api/ratelimit.go:30-50 | In any window of any run the calls of a key that passed number at most burst plus rate times length |
| `RateLimit.TokensStayInRange` | internal/api/ratelimit.go:39-49 | Tokens stay between zero and the burst |
| `RateLimit.PacedCallsAlwaysPass` | internal/api/ratelimit.go:39-49 | A call at least 1/rps after its key's previous ones always passes |
| `DbRename.RenameSqliteFile` | internal/config/config.go:204-230 | All files move with their contents, or the initial directory is back, or some prefix of the moves remains when moving back failed too; nothing is overwritten |
| `DbRename.ResolveDbPath` | internal/config/config.go:182-202 | The one path to use, after the old files were moved if only they exist; both existing is refused |
| `DbRename.NothingIsLost` | internal/config/config.go:219-229 | In every directory state that occurs, each file is at its old or at its new name with its content, and no two files collide |
| `DbRename.MainFileMovesLast` | internal/config/config.go:207-222 | In every such state, the main file is at its new name only if all its sidecars are |
| `DbRename.MigrationIsComplete` | internal/config/config.go:219-229 | After success every file is at its new name and the old names are free |

## Left out

- The HTTP API, client, command line, web interface, templates, metrics and logging: presentation and plumbing without state worth an invariant.
- The SQLite store: the desired state is a given value. The stored table is taken to have unique ids where a theorem says so.
- Password hashing, tokens, sessions and accounts.
- Field validators (`internal/validate`): host names, interface names, endpoints and paths are arbitrary predicates; IPv4 addresses and ports are spelled out, in the dotted form only. Normalisation is taken to have happened, for routes as well, whose matches the program normalises in place.
- Output of `iptables -S`, `ip` and `wg`: a chain's listing is a sequence of lines rather than one text, and links are records; the texts of rules and of saved tables are modelled in full.
- `iptables -F` and `-X`: the simulated host knows neither, so chains of older names stay; their jumps go.
- Firewall.IptablesManager.Apply: the copy of the saved tables in the backup directory is one more command that may fail; its file is not part of the host.
- Engine.ReconcileEngine.Reconcile: the fault-free theorem is about nodes with all three managers and WireGuard tunnels only, since whether an SSH unit brings its interface up is outside the code; the other clauses include SSH tunnels. If the rollback of a failed run itself reports an error, only what is always kept is claimed. For a plan that changes rules in place, made on a host that is not well formed, a run that stops midway is described by what cancels out, not by the count of rules: there, a rule may by chance be replaced by itself.
- Haproxy.HaproxyManager.Discover: a crash while reading the managed section is a failed discovery.
- Haproxy.AppliedIsSeen: host names, listen addresses, backend names and addresses are single words without `#` or quotation marks, as the validators see to for all but the free-form backend names of matches.
- RateLimit.Limiter.Allow: times and tokens are reals; rounding and the mutex are not modelled.
- Controller.FailoverController.RunOnce: the lock file and JSON encoding are not modelled; the state file holds a list of records, and how much room the decoder leaves behind it is a parameter. Clocks, handshake ages, pings and dials are oracles.
- `internal/firewall/iptables.go` Counters and `scripts/haproxy-reload-on-change.sh`.
- Mutexes and contexts: every operation is sequential and none is cancelled.
