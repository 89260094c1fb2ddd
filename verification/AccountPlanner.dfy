/** The planner as it runs (src/core/account-state-repair.ts): loops that extend the registry, the conflicts and the patches. */
module AccountPlanner {
  import opened Wrappers
  import opened AccountRepair
  import opened AccountVerdicts

  method Deduplicate(list: seq<string>) returns (out: seq<string>)
    ensures out == Unique(list)
  {
    out := [];
    for i := 0 to |list|
      invariant out == Unique(list[..i])
    {
      assert list[..i + 1][..i] == list[..i];
      if list[i] !in out {
        out := out + [list[i]];
      }
    }
    assert list[..|list|] == list;
  }

  /** The registry before unattested members are considered. */
  method BuildSeed(s: Snapshot) returns (registry: seq<string>)
    ensures registry == SeedRegistry(s)
  {
    registry := Deduplicate(RegistryBefore(s));
    if Primary(s).Some? && Primary(s).value !in registry {
      registry := [Primary(s).value] + registry;
    }
    ghost var led := registry;
    var ledger := Ledger(s);
    for i := 0 to |ledger|
      invariant registry == AddLedger(led, ledger[..i])
    {
      assert ledger[..i + 1][..i] == ledger[..i];
      if ledger[i].1 !in registry {
        registry := registry + [ledger[i].1];
      }
    }
    assert ledger[..|ledger|] == ledger;
  }

  method InspectRegistered(s: Snapshot, registry: seq<string>) returns (conflicts: seq<Conflict>, humans: set<string>)
    ensures conflicts == AllRegistered(s, registry)
    ensures humans == set id | id in registry && AccountHuman(s, id)
  {
    conflicts, humans := [], {};
    for i := 0 to |registry|
      invariant conflicts == AllRegistered(s, registry[..i])
      invariant humans == set id | id in registry[..i] && AccountHuman(s, id)
    {
      assert registry[..i + 1] == registry[..i] + [registry[i]];
      conflicts := conflicts + RegisteredConflicts(s, registry[i]);
      if AccountHuman(s, registry[i]) {
        humans := humans + {registry[i]};
      }
    }
    assert registry[..|registry|] == registry;
  }

  method InspectCandidates(s: Snapshot, humans: set<string>) returns (conflicts: seq<Conflict>)
    ensures conflicts == AllCandidates(s, humans, s.candidates)
  {
    conflicts := [];
    for i := 0 to |s.candidates|
      invariant conflicts == AllCandidates(s, humans, s.candidates[..i])
    {
      assert s.candidates[..i + 1][..i] == s.candidates[..i];
      conflicts := conflicts + CandidateConflicts(s, humans, s.candidates[i]);
    }
    assert s.candidates[..|s.candidates|] == s.candidates;
  }

  method InspectLedger(ledger: LedgerRows) returns (conflicts: seq<Conflict>)
    ensures conflicts == AllAliases(ledger)
  {
    conflicts := [];
    for i := 0 to |ledger|
      invariant conflicts == AllAliases(ledger[..i])
    {
      assert ledger[..i + 1][..i] == ledger[..i];
      conflicts := conflicts + AliasConflicts(ledger[..i], ledger[i]);
    }
    assert ledger[..|ledger|] == ledger;
  }

  /** Register every attested agent of the account; an unattested one is a conflict. */
  method ExtendRegistry(s: Snapshot, humans: set<string>, seed: seq<string>) returns (registry: seq<string>, conflicts: seq<Conflict>)
    ensures registry == AddMembers(s, humans, seed, s.members)
    ensures conflicts == AllMembers(s, humans, seed, s.members)
  {
    registry, conflicts := seed, [];
    for i := 0 to |s.members|
      invariant registry == AddMembers(s, humans, seed, s.members[..i])
      invariant conflicts == AllMembers(s, humans, seed, s.members[..i])
    {
      assert s.members[..i + 1][..i] == s.members[..i];
      var m := s.members[i];
      if AccountAgent(s, humans, m) && m.id !in registry {
        if Attested(s, m) {
          registry := registry + [m.id];
        } else {
          conflicts := conflicts + [Conflict(UnregisteredAgentWithoutEvidence, m.id)];
        }
      }
    }
    assert s.members[..|s.members|] == s.members;
  }

  method InspectActors(s: Snapshot, humans: set<string>, registry: seq<string>) returns (conflicts: seq<Conflict>, proposed: seq<Patch>)
    ensures Findings(conflicts, proposed) == AllActors(s, humans, registry)
  {
    conflicts, proposed := [], [];
    ghost var f := FindingsOf(s, humans);
    for i := 0 to |registry|
      invariant Findings(conflicts, proposed) == Collect(registry[..i], f)
    {
      assert registry[..i + 1][..i] == registry[..i];
      var found := ActorFindings(s, humans, registry[i]);
      assert found == f(registry[i]);
      conflicts, proposed := conflicts + found.conflicts, proposed + found.patches;
    }
    assert registry[..|registry|] == registry;
  }

  method RecountAgents(s: Snapshot, humans: set<string>, proposed: seq<Patch>, registry: seq<string>) returns (agents: nat, programmers: nat)
    ensures (agents, programmers) == CountAgents(s, humans, proposed, registry)
  {
    agents, programmers := 0, 0;
    for i := 0 to |registry|
      invariant (agents, programmers) == CountAgents(s, humans, proposed, registry[..i])
    {
      assert registry[..i + 1][..i] == registry[..i];
      var m := RegisteredAgent(s, humans, registry[i]);
      if m.Some? && Live(m.value) {
        agents := agents + 1;
        if Flag(FlagsAfter(proposed, m.value), "programmer") {
          programmers := programmers + 1;
        }
      }
    }
    assert registry[..|registry|] == registry;
  }

  /** The whole planner. Any conflict leaves the plan without patches. */
  method PlanAccountStateRepair(s: Snapshot) returns (plan: Plan)
    ensures plan == PlanOf(s)
    ensures plan.conflicts != [] ==> plan.patches == []
    ensures forall c :: c in plan.conflicts <==> Warranted(s, c)
  {
    var seed := BuildSeed(s);
    var registered, humans := InspectRegistered(s, seed);
    humans := humans + (if Primary(s).Some? then {Primary(s).value} else {});
    assert humans == ValidHumans(s);
    var candidates := InspectCandidates(s, humans);
    var aliases := InspectLedger(Ledger(s));
    var registry, unregistered := ExtendRegistry(s, humans, seed);
    assert registry == RegistryAfter(s);
    var found, fixes := InspectActors(s, humans, registry);
    var conflicts := HeaderConflicts(s) + PrimaryConflicts(s) + registered + candidates + aliases + unregistered + found;
    assert conflicts == AllConflicts(s);
    var proposed := CompletePatches(s, humans, registry, fixes);
    plan := if conflicts != [] then Plan(Conflicted, [], conflicts)
            else Plan(if proposed == [] then Empty else WouldApply, proposed, []);
    forall c ensures c in plan.conflicts <==> Warranted(s, c) {
      ConflictsExactly(s, c);
    }
  }

  /** The registry patch, then the two counters recounted under the patches so far. */
  method CompletePatches(s: Snapshot, humans: set<string>, registry: seq<string>, fixes: seq<Patch>) returns (proposed: seq<Patch>)
    requires humans == ValidHumans(s) && registry == RegistryAfter(s) && fixes == AllActors(s, humans, registry).patches
    ensures proposed == Proposed(s)
  {
    proposed := fixes + RegistryPatches(s, registry);
    var agents, programmers := RecountAgents(s, humans, proposed, registry);
    proposed := proposed + CountPatch(s, AgentCount, s.agentCount, agents)
              + CountPatch(s, ProgrammerAgentCount, s.programmerAgentCount, programmers);
  }
}
