/**
 * Whole-plan results for account repair: the registry a plan proposes, what
 * applying it does to every row, and convergence of the planner.
 */
module AccountPlan {
  import opened Sets
  import opened Wrappers
  import opened AccountRepair
  import opened AccountConvergence

  // --------------------------------------------------------------- registry lists

  ghost predicate Distinct(list: seq<string>) {
    forall i, j :: 0 <= i < j < |list| ==> list[i] != list[j]
  }

  lemma {:induction false} UniqueFacts(list: seq<string>)
    ensures Distinct(Unique(list))
    ensures forall x :: x in Unique(list) <==> x in list
    ensures Distinct(list) ==> Unique(list) == list
  {
    if list != [] {
      UniqueFacts(list[..|list| - 1]);
      assert list == list[..|list| - 1] + [list[|list| - 1]];
    }
  }

  lemma {:induction false} AddLedgerFacts(list: seq<string>, ledger: seq<(string, string)>)
    requires Distinct(list)
    ensures Distinct(AddLedger(list, ledger))
    ensures forall x :: x in list ==> x in AddLedger(list, ledger)
    ensures forall e :: e in ledger ==> e.1 in AddLedger(list, ledger)
    ensures forall x :: x in AddLedger(list, ledger) ==> x in list || exists e :: e in ledger && e.1 == x
    ensures (forall e :: e in ledger ==> e.1 in list) ==> AddLedger(list, ledger) == list
  {
    if ledger != [] {
      var init, last := ledger[..|ledger| - 1], ledger[|ledger| - 1];
      AddLedgerFacts(list, init);
      assert ledger == init + [last];
      assert last in ledger;
    }
  }

  lemma {:induction false} AddMembersFacts(s: Snapshot, humans: set<string>, list: seq<string>, members: seq<Member>)
    requires Distinct(list)
    ensures Distinct(AddMembers(s, humans, list, members))
    ensures forall x :: x in list ==> x in AddMembers(s, humans, list, members)
    ensures forall x :: x in AddMembers(s, humans, list, members) ==>
              x in list || exists m :: m in members && m.id == x && AccountAgent(s, humans, m) && Attested(s, m)
    ensures (forall m :: m in members && AccountAgent(s, humans, m) && Attested(s, m) ==> m.id in list) ==>
              AddMembers(s, humans, list, members) == list
  {
    if members != [] {
      var init, last := members[..|members| - 1], members[|members| - 1];
      AddMembersFacts(s, humans, list, init);
      assert members == init + [last];
      assert last in members;
    }
  }

  /** Without a member conflict the final registry holds every agent of the account the snapshot supplies. */
  lemma {:induction false} MembersRegistered(s: Snapshot, humans: set<string>, list: seq<string>, members: seq<Member>)
    requires Distinct(list) && AllMembers(s, humans, list, members) == []
    ensures forall m :: m in members && AccountAgent(s, humans, m) ==> m.id in AddMembers(s, humans, list, members)
  {
    if members != [] {
      var init, last := members[..|members| - 1], members[|members| - 1];
      MembersRegistered(s, humans, list, init);
      assert members == init + [last];
      assert MemberConflicts(s, humans, AddMembers(s, humans, list, init), last) == [];
    }
  }

  lemma {:induction false} MembersSilent(s: Snapshot, humans: set<string>, list: seq<string>, members: seq<Member>)
    requires Distinct(list) && forall m :: m in members && AccountAgent(s, humans, m) ==> m.id in list
    ensures AllMembers(s, humans, list, members) == []
  {
    if members != [] {
      var init, last := members[..|members| - 1], members[|members| - 1];
      assert last in members && forall m :: m in init ==> m in members;
      MembersSilent(s, humans, list, init);
      AddMembersFacts(s, humans, list, init);
    }
  }

  /** The deduplicated registry with the primary actor in front, if it was missing. */
  function Led(s: Snapshot): seq<string> {
    var unique := Unique(RegistryBefore(s));
    match Primary(s)
    case Some(p) => if p in unique then unique else [p] + unique
    case None => unique
  }

  lemma LedFacts(s: Snapshot)
    ensures Distinct(Led(s)) && SeedRegistry(s) == AddLedger(Led(s), Ledger(s))
    ensures forall x :: x in Led(s) <==> x in RegistryBefore(s) || Primary(s) == Some(x)
  {
    UniqueFacts(RegistryBefore(s));
  }

  lemma SeedFacts(s: Snapshot)
    ensures Distinct(SeedRegistry(s))
    ensures forall x :: x in RegistryBefore(s) ==> x in SeedRegistry(s)
    ensures Primary(s).Some? ==> Primary(s).value in SeedRegistry(s)
    ensures forall e :: e in Ledger(s) ==> e.1 in SeedRegistry(s)
    ensures forall x :: x in SeedRegistry(s) ==>
              x in RegistryBefore(s) || Primary(s) == Some(x) || exists e :: e in Ledger(s) && e.1 == x
  {
    LedFacts(s);
    AddLedgerFacts(Led(s), Ledger(s));
  }

  /** A registry that is already duplicate-free, led and complete is its own seed. */
  lemma SeedOfComplete(s: Snapshot)
    requires Distinct(RegistryBefore(s)) && Primary(s).Some? && Primary(s).value in RegistryBefore(s)
    requires forall e :: e in Ledger(s) ==> e.1 in RegistryBefore(s)
    ensures SeedRegistry(s) == RegistryBefore(s)
  {
    UniqueFacts(RegistryBefore(s));
    AddLedgerFacts(RegistryBefore(s), Ledger(s));
  }

  // ---------------------------------------------------------------- silent loops

  lemma {:induction false} RegisteredSilent(s: Snapshot, ids: seq<string>)
    ensures AllRegistered(s, ids) == [] <==> forall id :: id in ids ==> RegisteredConflicts(s, id) == []
  {
    if ids != [] {
      RegisteredSilent(s, ids[..|ids| - 1]);
      assert ids == ids[..|ids| - 1] + [ids[|ids| - 1]];
    }
  }

  lemma {:induction false} CandidatesSilent(s: Snapshot, humans: set<string>, ids: seq<string>)
    ensures AllCandidates(s, humans, ids) == [] <==> forall id :: id in ids ==> CandidateConflicts(s, humans, id) == []
  {
    if ids != [] {
      CandidatesSilent(s, humans, ids[..|ids| - 1]);
      assert ids == ids[..|ids| - 1] + [ids[|ids| - 1]];
    }
  }

  lemma {:induction false} ActorsSilent(ids: seq<string>, f: string -> Findings, id: string)
    requires id in ids && Collect(ids, f).conflicts == []
    ensures f(id).conflicts == []
  {
    if id != ids[|ids| - 1] {
      assert id in ids[..|ids| - 1];
      ActorsSilent(ids[..|ids| - 1], f, id);
    }
  }

  lemma {:induction false} SilentActors(ids: seq<string>, f: string -> Findings)
    requires forall id :: id in ids ==> f(id) == Findings([], [])
    ensures Collect(ids, f) == Findings([], [])
  {
    if ids != [] {
      SilentActors(ids[..|ids| - 1], f);
      assert ids[|ids| - 1] in ids;
    }
  }

  // ----------------------------------------------------------- applying patches

  lemma {:induction false} ApplyAppend(s: Snapshot, a: seq<Patch>, b: seq<Patch>)
    ensures Apply(s, a + b) == Apply(Apply(s, a), b)
  {
    if b == [] {
      assert a + b == a;
    } else {
      assert (a + b)[..|a + b| - 1] == a + b[..|b| - 1];
      ApplyAppend(s, a, b[..|b| - 1]);
    }
  }

  /** Patches touch member rows one by one and nothing of the account's identity. */
  lemma {:induction false} ApplyRows(s: Snapshot, patches: seq<Patch>)
    ensures var t := Apply(s, patches);
            && t.account == s.account && t.authorityRoot == s.authorityRoot && t.primaryActor == s.primaryActor
            && t.operatorLedger == s.operatorLedger && t.programmerSurface == s.programmerSurface && t.candidates == s.candidates
            && |t.members| == |s.members|
            && forall i :: 0 <= i < |s.members| ==> t.members[i] == TouchAll(s.members[i], patches)
  {
    if patches != [] {
      ApplyRows(s, patches[..|patches| - 1]);
    }
  }

  /** What no patch changes about a member. */
  ghost predicate SameIdentity(a: Member, b: Member) {
    && a.id == b.id && a.kind == b.kind && a.owner == b.owner && a.authorityRoot == b.authorityRoot && a.account == b.account
    && a.apiKeyId == b.apiKeyId && a.retiredAt == b.retiredAt && a.provisionId == b.provisionId
  }

  lemma {:induction false} TouchKeepsIdentity(m: Member, patches: seq<Patch>)
    ensures SameIdentity(TouchAll(m, patches), m)
    ensures TouchAll(m, patches).flags == FlagsAfter(patches, m)
  {
    if patches != [] {
      TouchKeepsIdentity(m, patches[..|patches| - 1]);
      OneTouch(TouchAll(m, patches[..|patches| - 1]), patches[|patches| - 1]);
    }
  }

  lemma OneTouch(m: Member, p: Patch)
    ensures SameIdentity(Touch(m, p), m)
    ensures Touch(m, p).flags == if p.LineageFlags? && p.subject == m.id then p.flagsAfter else m.flags
  {
  }

  lemma {:induction false} FindTouched(before: seq<Member>, after: seq<Member>, patches: seq<Patch>, id: string)
    requires |before| == |after| && forall i :: 0 <= i < |before| ==> after[i] == TouchAll(before[i], patches)
    ensures Find(after, id) == match Find(before, id) case Some(m) => Some(TouchAll(m, patches)) case None => None
  {
    if before != [] {
      TouchKeepsIdentity(before[|before| - 1], patches);
      FindTouched(before[..|before| - 1], after[..|after| - 1], patches, id);
    }
  }

  lemma {:induction false} FindFacts(members: seq<Member>, id: string)
    ensures Find(members, id).Some? ==> Find(members, id).value.id == id && Find(members, id).value in members
    ensures Find(members, id).None? ==> forall m :: m in members ==> m.id != id
  {
    if members != [] {
      FindFacts(members[..|members| - 1], id);
      assert members == members[..|members| - 1] + [members[|members| - 1]];
    }
  }

  // ------------------------------------------------------- patches of the actors

  /** A patch of one member's own fields. */
  predicate MemberPatch(p: Patch, id: string) {
    p.subject == id && (p.Property? ==> p.field.DeactivatedAt? || p.field.Features? || p.field.ApiKeys?)
  }

  lemma ReadableOwnPatches(s: Snapshot, m: Member, features: seq<string>, retired: Option<real>, deactivated: Option<real>)
    ensures forall p :: p in ReadableAgent(s, m, features, retired, deactivated).patches ==> MemberPatch(p, m.id)
  {
    var intent := AgentIntent(s, m, features, retired, deactivated);
    var a := if retired.Some? && deactivated.None? then PropertyPatch(m.id, DeactivatedAt, Null, Num(retired.value)) else [];
    var b := if intent.flags != m.flags then [LineageFlags(m.id, m.flags, intent.flags)] else [];
    var c := if intent.features != features then PropertyPatch(m.id, Features, Strings(features), Strings(intent.features)) else [];
    CredentialPatchShape(m, retired);
    JoinedOwnPatches(a, b, c, InspectCredentials(m, retired).patches, m.id);
  }

  lemma JoinedOwnPatches(a: seq<Patch>, b: seq<Patch>, c: seq<Patch>, d: seq<Patch>, id: string)
    requires OneField(a, id, DeactivatedAt) && OneField(c, id, Features) && OneField(d, id, ApiKeys)
    requires |b| <= 1 && (b != [] ==> b[0].LineageFlags? && b[0].subject == id)
    ensures forall p :: p in a + b + c + d ==> MemberPatch(p, id)
  {
  }

  lemma FindingsOwnPatches(s: Snapshot, m: Member)
    ensures forall p :: p in AgentFindings(s, m).patches ==> MemberPatch(p, m.id)
  {
    var features, retired, deactivated := StringList(m.features), Timestamp(m.retiredAt), Timestamp(m.deactivatedAt);
    if features.Some? && retired.Some? && deactivated.Some? {
      ReadableOwnPatches(s, m, features.value, retired.value, deactivated.value);
    }
  }

  /** Every actor's patches are of its own row. */
  ghost predicate OwnPatches(f: string -> Findings) {
    forall id, p :: p in f(id).patches ==> MemberPatch(p, id)
  }

  lemma ActorsPatchThemselves(s: Snapshot, humans: set<string>)
    ensures OwnPatches(FindingsOf(s, humans))
  {
    forall id, p | p in FindingsOf(s, humans)(id).patches ensures MemberPatch(p, id) {
      FindFacts(s.members, id);
      FindingsOwnPatches(s, Find(s.members, id).value);
    }
  }

  lemma {:induction false} CollectedPatches(ids: seq<string>, f: string -> Findings)
    requires OwnPatches(f)
    ensures forall p :: p in Collect(ids, f).patches ==> p.subject in ids && MemberPatch(p, p.subject)
  {
    if ids != [] {
      CollectedPatches(ids[..|ids| - 1], f);
      assert ids[|ids| - 1] in ids;
    }
  }

  /** A row is changed by its own actor's patches only. */
  lemma {:induction false} TouchedByOwn(ids: seq<string>, f: string -> Findings, m: Member)
    requires Distinct(ids) && OwnPatches(f)
    ensures TouchAll(m, Collect(ids, f).patches) == if m.id in ids then TouchAll(m, f(m.id).patches) else m
  {
    if ids != [] {
      var init, last := ids[..|ids| - 1], ids[|ids| - 1];
      assert ids == init + [last];
      TouchedByOwn(init, f, m);
      TouchAllAppend(m, Collect(init, f).patches, f(last).patches);
      TouchKeepsIdentity(m, Collect(init, f).patches);
      if last != m.id {
        TouchOthers(TouchAll(m, Collect(init, f).patches), f(last).patches);
      }
    }
  }

  /** Account-level patches. */
  ghost predicate AccountPatches(patches: seq<Patch>) {
    forall p :: p in patches ==> p.Property? && (p.field.Actors? || p.field.AgentCount? || p.field.ProgrammerAgentCount?)
  }

  lemma {:induction false} AccountPatchesSpareRows(m: Member, patches: seq<Patch>)
    requires AccountPatches(patches)
    ensures TouchAll(m, patches) == m && FlagsAfter(patches, m) == m.flags
  {
    if patches != [] {
      AccountPatchesSpareRows(m, patches[..|patches| - 1]);
    }
  }

  lemma {:induction false} MemberPatchesSpareAccount(s: Snapshot, patches: seq<Patch>)
    requires forall p :: p in patches ==> MemberPatch(p, p.subject)
    ensures var t := Apply(s, patches);
            t.actors == s.actors && t.agentCount == s.agentCount && t.programmerAgentCount == s.programmerAgentCount
  {
    if patches != [] {
      MemberPatchesSpareAccount(s, patches[..|patches| - 1]);
    }
  }

  lemma ApplyAtMostOne(s: Snapshot, patches: seq<Patch>)
    requires |patches| <= 1
    ensures Apply(s, patches) == if patches == [] then s else ApplyPatch(s, patches[0])
  {
    if patches != [] { assert patches[..0] == []; }
  }

  // -------------------------------------------------------------- the repaired state

  function ActorFixes(s: Snapshot): seq<Patch> {
    AllActors(s, ValidHumans(s), RegistryAfter(s)).patches
  }

  function CountPatches(s: Snapshot): seq<Patch> {
    var fixes := ActorFixes(s) + RegistryPatches(s, RegistryAfter(s));
    var counts := CountAgents(s, ValidHumans(s), fixes, RegistryAfter(s));
    CountPatch(s, AgentCount, s.agentCount, counts.0) + CountPatch(s, ProgrammerAgentCount, s.programmerAgentCount, counts.1)
  }

  lemma Reassociate<T>(a: seq<T>, b: seq<T>, c: seq<T>, d: seq<T>)
    ensures a + b + c + d == a + (b + (c + d))
  {
  }

  lemma AccountPatchesShape(s: Snapshot)
    ensures AccountPatches(RegistryPatches(s, RegistryAfter(s)) + CountPatches(s))
  {
  }

  lemma ProposedSplits(s: Snapshot)
    ensures Proposed(s) == ActorFixes(s) + (RegistryPatches(s, RegistryAfter(s)) + CountPatches(s))
    ensures AccountPatches(RegistryPatches(s, RegistryAfter(s)) + CountPatches(s))
  {
    AccountPatchesShape(s);
    var a, r := ActorFixes(s), RegistryPatches(s, RegistryAfter(s));
    var counts := CountAgents(s, ValidHumans(s), a + r, RegistryAfter(s));
    Reassociate(a, r, CountPatch(s, AgentCount, s.agentCount, counts.0), CountPatch(s, ProgrammerAgentCount, s.programmerAgentCount, counts.1));
  }

  lemma RegistryAfterFacts(s: Snapshot)
    ensures Distinct(RegistryAfter(s))
    ensures forall x :: x in SeedRegistry(s) ==> x in RegistryAfter(s)
    ensures forall x :: x in RegistryAfter(s) ==>
              x in SeedRegistry(s) || exists m :: m in s.members && m.id == x && AccountAgent(s, ValidHumans(s), m) && Attested(s, m)
  {
    SeedFacts(s);
    AddMembersFacts(s, ValidHumans(s), SeedRegistry(s), s.members);
  }

  /** Each row of the repaired state: its own actor's patches, and no other. */
  lemma RepairedRow(s: Snapshot, id: string)
    ensures var t := Apply(s, Proposed(s));
            Find(t.members, id) ==
            match Find(s.members, id)
            case None => None
            case Some(m) => Some(if id in RegistryAfter(s) then TouchAll(m, ActorFindings(s, ValidHumans(s), id).patches) else m)
    ensures var t := Apply(s, Proposed(s));
            && (Find(t.members, id).Some? <==> Find(s.members, id).Some?)
            && (Find(t.members, id).Some? ==>
                  SameIdentity(Find(t.members, id).value, Find(s.members, id).value)
                  && Find(t.members, id).value.flags == FlagsAfter(ActorFixes(s), Find(s.members, id).value))
  {
    var t := Apply(s, Proposed(s));
    ApplyRows(s, Proposed(s));
    FindTouched(s.members, t.members, Proposed(s), id);
    FindFacts(s.members, id);
    if Find(s.members, id).Some? {
      var m := Find(s.members, id).value;
      var f, rest := FindingsOf(s, ValidHumans(s)), RegistryPatches(s, RegistryAfter(s)) + CountPatches(s);
      ProposedSplits(s);
      TouchAllAppend(m, ActorFixes(s), rest);
      AccountPatchesSpareRows(TouchAll(m, ActorFixes(s)), rest);
      ActorsPatchThemselves(s, ValidHumans(s));
      RegistryAfterFacts(s);
      TouchedByOwn(RegistryAfter(s), f, m);
      TouchKeepsIdentity(m, ActorFixes(s));
    }
  }

  lemma {:induction false} LookupEntry<V>(entries: seq<(string, V)>, key: string)
    ensures Lookup(entries, key).Some? ==> (key, Lookup(entries, key).value) in entries
  {
    if entries != [] && entries[0].0 != key {
      LookupEntry(entries[1..], key);
    }
  }

  lemma LedgerNonEmpty(s: Snapshot, e: (string, string))
    requires e in Ledger(s)
    ensures e.0 != "" && e.1 != ""
  {
    var k :| 0 <= k < |Ledger(s)| && Ledger(s)[k] == e;
    assert s.operatorLedger.entries[k] in s.operatorLedger.entries;
  }

  lemma RegistryNonEmpty(s: Snapshot)
    ensures forall x :: x in RegistryAfter(s) ==> x != ""
  {
    SeedFacts(s);
    RegistryAfterFacts(s);
    if StringList(s.actors).Some? { StringListElements(s.actors); }
    forall x | x in RegistryAfter(s) ensures x != "" {
      if exists e :: e in Ledger(s) && e.1 == x {
        var e :| e in Ledger(s) && e.1 == x;
        LedgerNonEmpty(s, e);
      } else if x !in SeedRegistry(s) {
        var m :| m in s.members && m.id == x && AccountAgent(s, ValidHumans(s), m) && Attested(s, m);
        LookupEntry(Ledger(s), m.provisionId.s);
        LedgerNonEmpty(s, (m.provisionId.s, x));
      }
    }
  }

  // ------------------------------------------------------------------- the counts

  function Present(s: Snapshot, ids: seq<string>): set<string> {
    set id | id in ids && Find(s.members, id).Some?
  }

  lemma PresentSnoc(s: Snapshot, init: seq<string>, last: string)
    requires last !in init
    ensures |Present(s, init + [last])| == |Present(s, init)| + if Find(s.members, last).Some? then 1 else 0
  {
    assert Present(s, init + [last]) == if Find(s.members, last).Some? then Present(s, init) + {last} else Present(s, init);
  }

  lemma {:induction false} CountBound(s: Snapshot, humans: set<string>, patches: seq<Patch>, ids: seq<string>)
    requires Distinct(ids)
    ensures CountAgents(s, humans, patches, ids).1 <= CountAgents(s, humans, patches, ids).0 <= |Present(s, ids)|
  {
    if ids != [] {
      var init, last := ids[..|ids| - 1], ids[|ids| - 1];
      CountBound(s, humans, patches, init);
      assert ids == init + [last];
      PresentSnoc(s, init, last);
    }
  }

  function Supplied(members: seq<Member>): set<string> {
    set m | m in members :: m.id
  }

  lemma {:induction false} MemberIds(members: seq<Member>)
    ensures |Supplied(members)| <= |members|
  {
    if members != [] {
      var init, last := members[..|members| - 1], members[|members| - 1];
      MemberIds(init);
      assert members == init + [last];
      assert Supplied(members) == Supplied(init) + {last.id};
    }
  }

  /** The counts never exceed the number of supplied members. */
  lemma CountsFit(s: Snapshot, humans: set<string>, patches: seq<Patch>, ids: seq<string>)
    requires Distinct(ids)
    ensures CountAgents(s, humans, patches, ids).1 <= CountAgents(s, humans, patches, ids).0 <= |s.members|
  {
    CountBound(s, humans, patches, ids);
    forall id | id in Present(s, ids) ensures id in Supplied(s.members) {
      FindFacts(s.members, id);
    }
    SubsetSize(Present(s, ids), Supplied(s.members));
    MemberIds(s.members);
  }

  lemma CountReadsBack(n: nat)
    requires n <= MAX_SAFE_INTEGER
    ensures SafeCount(Num(n as real)) == Some(n)
  {
  }

  /** The same registered agent, retired or not alike, with the same flags in the end. */
  ghost predicate SameStanding(s: Snapshot, t: Snapshot, humans: set<string>, ps: seq<Patch>, qs: seq<Patch>, id: string) {
    && (RegisteredAgent(s, humans, id).Some? <==> RegisteredAgent(t, humans, id).Some?)
    && (RegisteredAgent(s, humans, id).Some? ==>
          var m, n := RegisteredAgent(s, humans, id).value, RegisteredAgent(t, humans, id).value;
          m.retiredAt == n.retiredAt && FlagsAfter(ps, m) == FlagsAfter(qs, n))
  }

  /** Two states that agree on every registered agent's standing count alike. */
  lemma {:induction false} CountsAgree(s: Snapshot, t: Snapshot, humans: set<string>, ps: seq<Patch>, qs: seq<Patch>, ids: seq<string>)
    requires forall id :: id in ids ==> SameStanding(s, t, humans, ps, qs, id)
    ensures CountAgents(s, humans, ps, ids) == CountAgents(t, humans, qs, ids)
  {
    if ids != [] {
      CountsAgree(s, t, humans, ps, qs, ids[..|ids| - 1]);
      assert ids[|ids| - 1] in ids;
    }
  }

  // ------------------------------------------------------------------ convergence

  function Repaired(s: Snapshot): Snapshot {
    Apply(s, Proposed(s))
  }

  function ExpectedCounts(s: Snapshot): (nat, nat) {
    CountAgents(s, ValidHumans(s), ActorFixes(s) + RegistryPatches(s, RegistryAfter(s)), RegistryAfter(s))
  }

  lemma CountWritten(s: Snapshot, field: Field, current: Json, expected: nat)
    requires expected <= MAX_SAFE_INTEGER
    ensures var ps := CountPatch(s, field, current, expected);
            OneAccountField(ps, s.account, field) && SafeCount(if ps == [] then current else ps[0].after) == Some(expected)
  {
    CountReadsBack(expected);
  }

  lemma RegistryWritten(s: Snapshot)
    requires StringList(s.actors).Some?
    ensures var ps := RegistryPatches(s, RegistryAfter(s));
            OneAccountField(ps, s.account, Actors) && StringList(if ps == [] then s.actors else ps[0].after) == Some(RegistryAfter(s))
  {
    var registry, after := StringList(s.actors).value, RegistryAfter(s);
    RegistryNonEmpty(s);
    StringListRoundTrip(after);
    if registry != after && Strings(registry) == Strings(after) {
      StringsInjective(registry, after);
    }
  }

  /** After the patches the registry and both counters read back as planned. */
  lemma RepairedAccount(s: Snapshot)
    requires StringList(s.actors).Some? && |s.members| <= MAX_SAFE_INTEGER
    ensures StringList(Repaired(s).actors) == Some(RegistryAfter(s))
    ensures SafeCount(Repaired(s).agentCount) == Some(ExpectedCounts(s).0)
    ensures SafeCount(Repaired(s).programmerAgentCount) == Some(ExpectedCounts(s).1)
  {
    var a, r := ActorFixes(s), RegistryPatches(s, RegistryAfter(s));
    var c := CountPatch(s, AgentCount, s.agentCount, ExpectedCounts(s).0);
    var d := CountPatch(s, ProgrammerAgentCount, s.programmerAgentCount, ExpectedCounts(s).1);
    RegistryAfterFacts(s);
    CountsFit(s, ValidHumans(s), a + r, RegistryAfter(s));
    RegistryWritten(s);
    CountWritten(s, AgentCount, s.agentCount, ExpectedCounts(s).0);
    CountWritten(s, ProgrammerAgentCount, s.programmerAgentCount, ExpectedCounts(s).1);
    ActorsPatchThemselves(s, ValidHumans(s));
    CollectedPatches(RegistryAfter(s), FindingsOf(s, ValidHumans(s)));
    MemberPatchesSpareAccount(s, a);
    ApplyRows(s, a);
    AccountWrites(s, a, r, c, d);
  }

  /** At most one patch, of one property of the account. */
  predicate OneAccountField(patches: seq<Patch>, account: string, field: Field) {
    |patches| <= 1 && (patches != [] ==> patches[0].Property? && patches[0].subject == account && patches[0].field == field)
  }

  lemma AccountFieldWritten(s: Snapshot, ps: seq<Patch>, field: Field)
    requires OneAccountField(ps, s.account, field)
    ensures var t := Apply(s, ps);
            && t.account == s.account
            && (field == Actors ==> t.actors == (if ps == [] then s.actors else ps[0].after)
                                    && t.agentCount == s.agentCount && t.programmerAgentCount == s.programmerAgentCount)
            && (field == AgentCount ==> t.agentCount == (if ps == [] then s.agentCount else ps[0].after)
                                        && t.actors == s.actors && t.programmerAgentCount == s.programmerAgentCount)
            && (field == ProgrammerAgentCount ==> t.programmerAgentCount == (if ps == [] then s.programmerAgentCount else ps[0].after)
                                                  && t.actors == s.actors && t.agentCount == s.agentCount)
  {
    ApplyAtMostOne(s, ps);
  }

  lemma ApplyChain(s: Snapshot, a: seq<Patch>, s1: Snapshot, b: seq<Patch>, s2: Snapshot)
    requires Apply(s, a) == s1 && Apply(s1, b) == s2
    ensures Apply(s, a + b) == s2
  {
    ApplyAppend(s, a, b);
  }

  lemma AccountWrites(s: Snapshot, a: seq<Patch>, r: seq<Patch>, c: seq<Patch>, d: seq<Patch>)
    requires OneAccountField(r, s.account, Actors) && OneAccountField(c, s.account, AgentCount) && OneAccountField(d, s.account, ProgrammerAgentCount)
    requires var s1 := Apply(s, a);
             s1.account == s.account && s1.actors == s.actors && s1.agentCount == s.agentCount && s1.programmerAgentCount == s.programmerAgentCount
    ensures var t := Apply(s, a + r + c + d);
            && t.actors == (if r == [] then s.actors else r[0].after)
            && t.agentCount == (if c == [] then s.agentCount else c[0].after)
            && t.programmerAgentCount == (if d == [] then s.programmerAgentCount else d[0].after)
  {
    var s1 := Apply(s, a);
    var s2 := Apply(s1, r);
    var s3 := Apply(s2, c);
    AccountFieldWritten(s1, r, Actors);
    AccountFieldWritten(s2, c, AgentCount);
    AccountFieldWritten(s3, d, ProgrammerAgentCount);
    ApplyChain(s, a, s1, r, s2);
    ApplyChain(s, a + r, s2, c, s3);
    ApplyChain(s, a + r + c, s3, d, Apply(s3, d));
  }

  /** A conflict-free snapshot, group by group. */
  ghost predicate Clean(s: Snapshot) {
    && HeaderConflicts(s) == [] && PrimaryConflicts(s) == [] && AllRegistered(s, SeedRegistry(s)) == []
    && AllCandidates(s, ValidHumans(s), s.candidates) == []
    && AllAliases(Ledger(s)) == [] && AllMembers(s, ValidHumans(s), SeedRegistry(s), s.members) == []
    && AllActors(s, ValidHumans(s), RegistryAfter(s)).conflicts == []
  }

  lemma CleanIsConflictFree(s: Snapshot)
    ensures AllConflicts(s) == [] <==> Clean(s)
  {
  }

  /** The same account, and the same member behind an id up to what patches may change. */
  ghost predicate SameMember(s: Snapshot, t: Snapshot, id: string) {
    && t.account == s.account && t.authorityRoot == s.authorityRoot && t.primaryActor == s.primaryActor
    && (Find(t.members, id).Some? <==> Find(s.members, id).Some?)
    && (Find(t.members, id).Some? ==> SameIdentity(Find(t.members, id).value, Find(s.members, id).value))
  }

  lemma RepairedMember(s: Snapshot, id: string)
    ensures SameMember(s, Repaired(s), id)
  {
    RepairedFlags(s, Repaired(s), id);
    ApplyRows(s, Proposed(s));
  }

  /** Whether an id is an account human, or conflicts, is decided by identities alone. */
  lemma IdentityDecides(s: Snapshot, t: Snapshot, id: string)
    requires SameMember(s, t, id)
    ensures AccountHuman(t, id) == AccountHuman(s, id)
    ensures RegisteredConflicts(t, id) == RegisteredConflicts(s, id)
    ensures forall humans :: CandidateConflicts(t, humans, id) == CandidateConflicts(s, humans, id)
    ensures Primary(s) == Some(id) ==> PrimaryConflicts(t) == PrimaryConflicts(s)
  {
  }

  lemma RepairedIdentities(s: Snapshot, id: string)
    ensures AccountHuman(Repaired(s), id) == AccountHuman(s, id)
    ensures RegisteredConflicts(Repaired(s), id) == RegisteredConflicts(s, id)
    ensures forall humans :: CandidateConflicts(Repaired(s), humans, id) == CandidateConflicts(s, humans, id)
    ensures Primary(s) == Some(id) ==> PrimaryConflicts(Repaired(s)) == PrimaryConflicts(s)
  {
    RepairedMember(s, id);
    IdentityDecides(s, Repaired(s), id);
  }

  /** One row per member id, as the snapshot's adapters supply it. */
  ghost predicate UniqueMembers(members: seq<Member>) {
    forall i, j :: 0 <= i < j < |members| ==> members[i].id != members[j].id
  }

  lemma FindUnique(members: seq<Member>, m: Member)
    requires UniqueMembers(members) && m in members
    ensures Find(members, m.id) == Some(m)
  {
    FindFacts(members, m.id);
  }

  /** An entry the plan adds beyond the seed is an attested agent of the account. */
  lemma AddedAreAgents(s: Snapshot, id: string)
    requires UniqueMembers(s.members) && id in RegistryAfter(s) && id !in SeedRegistry(s)
    ensures Find(s.members, id).Some? && AccountAgent(s, ValidHumans(s), Find(s.members, id).value)
    ensures !AccountHuman(s, id) && RegisteredConflicts(s, id) == []
  {
    RegistryAfterFacts(s);
    var m :| m in s.members && m.id == id && AccountAgent(s, ValidHumans(s), m) && Attested(s, m);
    FindUnique(s.members, m);
  }

  lemma RepairedHeader(s: Snapshot)
    ensures Ledger(Repaired(s)) == Ledger(s) && Surface(Repaired(s)) == Surface(s) && Primary(Repaired(s)) == Primary(s)
  {
    ApplyRows(s, Proposed(s));
  }

  lemma RepairedSeed(s: Snapshot)
    requires |s.members| <= MAX_SAFE_INTEGER && Clean(s)
    ensures RegistryBefore(Repaired(s)) == RegistryAfter(s) == SeedRegistry(Repaired(s))
  {
    RepairedAccount(s);
    RepairedHeader(s);
    SeedFacts(s);
    RegistryAfterFacts(s);
    SeedOfComplete(Repaired(s));
  }

  /** The repaired registry is a fixed point: the same entries, humans and order come out again. */
  lemma RepairedRegistry(s: Snapshot)
    requires UniqueMembers(s.members) && |s.members| <= MAX_SAFE_INTEGER && Clean(s)
    ensures RegistryBefore(Repaired(s)) == RegistryAfter(s) == SeedRegistry(Repaired(s))
    ensures ValidHumans(Repaired(s)) == ValidHumans(s)
    ensures Ledger(Repaired(s)) == Ledger(s) && Surface(Repaired(s)) == Surface(s) && Primary(Repaired(s)) == Primary(s)
  {
    RepairedSeed(s);
    RepairedHeader(s);
    RegistryAfterFacts(s);
    forall id ensures id in ValidHumans(Repaired(s)) <==> id in ValidHumans(s) {
      RepairedIdentities(s, id);
      if id in RegistryAfter(s) && id !in SeedRegistry(s) {
        AddedAreAgents(s, id);
      }
    }
  }

  lemma RepairedMemberRegistered(s: Snapshot, i: nat)
    requires Clean(s) && i < |s.members|
    requires AccountAgent(Repaired(s), ValidHumans(s), TouchAll(s.members[i], Proposed(s)))
    ensures s.members[i].id in RegistryAfter(s)
  {
    SeedFacts(s);
    MembersRegistered(s, ValidHumans(s), SeedRegistry(s), s.members);
    TouchKeepsIdentity(s.members[i], Proposed(s));
    ApplyRows(s, Proposed(s));
    assert s.members[i] in s.members;
  }

  lemma RepairedMembers(s: Snapshot)
    requires UniqueMembers(s.members) && |s.members| <= MAX_SAFE_INTEGER && Clean(s)
    ensures AllMembers(Repaired(s), ValidHumans(s), RegistryAfter(s), Repaired(s).members) == []
    ensures AddMembers(Repaired(s), ValidHumans(s), RegistryAfter(s), Repaired(s).members) == RegistryAfter(s)
  {
    var t, humans, after := Repaired(s), ValidHumans(s), RegistryAfter(s);
    ApplyRows(s, Proposed(s));
    RegistryAfterFacts(s);
    forall n | n in t.members && AccountAgent(t, humans, n) ensures n.id in after {
      var i :| 0 <= i < |t.members| && t.members[i] == n;
      TouchKeepsIdentity(s.members[i], Proposed(s));
      RepairedMemberRegistered(s, i);
    }
    MembersSilent(t, humans, after, t.members);
    AddMembersFacts(t, humans, after, t.members);
  }

  /** Every registered actor of the repaired state is without findings. */
  lemma RepairedActor(s: Snapshot, id: string)
    requires UniqueMembers(s.members) && |s.members| <= MAX_SAFE_INTEGER && Clean(s) && id in RegistryAfter(s)
    ensures ActorFindings(Repaired(s), ValidHumans(s), id) == Findings([], [])
    ensures RegisteredConflicts(Repaired(s), id) == []
  {
    var t, humans := Repaired(s), ValidHumans(s);
    RegistryEntryKnown(s, id);
    RepairedRow(s, id);
    RepairedIdentities(s, id);
    var m := Find(s.members, id).value;
    if m.kind != Human {
      RepairedRegistry(s);
      AgentFindingsOfActor(s, id);
      AgentConverges(s, t, m);
    }
  }

  lemma RegistryEntryKnown(s: Snapshot, id: string)
    requires UniqueMembers(s.members) && Clean(s) && id in RegistryAfter(s)
    ensures RegisteredConflicts(s, id) == [] && Find(s.members, id).Some?
  {
    if id in SeedRegistry(s) {
      RegisteredSilent(s, SeedRegistry(s));
    } else {
      AddedAreAgents(s, id);
    }
  }

  lemma AgentFindingsOfActor(s: Snapshot, id: string)
    requires Clean(s) && id in RegistryAfter(s) && Find(s.members, id).Some? && Find(s.members, id).value.kind != Human
    ensures var m := Find(s.members, id).value;
            && m.kind == Agent && OwnedBy(m, ValidHumans(s))
            && ActorFindings(s, ValidHumans(s), id) == AgentFindings(s, m) && AgentFindings(s, m).conflicts == []
  {
    ActorsSilent(RegistryAfter(s), FindingsOf(s, ValidHumans(s)), id);
  }

  lemma RepairedIsClean(s: Snapshot)
    requires UniqueMembers(s.members) && |s.members| <= MAX_SAFE_INTEGER && Clean(s)
    ensures Clean(Repaired(s))
    ensures RegistryAfter(Repaired(s)) == RegistryAfter(s)
    ensures AllActors(Repaired(s), ValidHumans(s), RegistryAfter(s)) == Findings([], [])
  {
    var t, humans, after := Repaired(s), ValidHumans(s), RegistryAfter(s);
    RepairedRegistry(s);
    RepairedMembers(s);
    RepairedAccount(s);
    ApplyRows(s, Proposed(s));
    forall id | id in after ensures FindingsOf(t, humans)(id) == Findings([], []) && RegisteredConflicts(t, id) == [] {
      RepairedActor(s, id);
    }
    SilentActors(after, FindingsOf(t, humans));
    RegisteredSilent(t, after);
    CandidatesSilent(s, humans, s.candidates);
    forall id | id in s.candidates ensures CandidateConflicts(t, humans, id) == [] {
      RepairedIdentities(s, id);
    }
    CandidatesSilent(t, humans, s.candidates);
    RepairedPrimary(s);
  }

  lemma RepairedPrimary(s: Snapshot)
    ensures PrimaryConflicts(Repaired(s)) == PrimaryConflicts(s)
  {
    RepairedHeader(s);
    if Primary(s).Some? {
      RepairedIdentities(s, Primary(s).value);
    }
  }

  /** Rows that keep their identity and carry the flags planned for them keep their standing. */
  lemma StandingKept(s: Snapshot, t: Snapshot, humans: set<string>, a: seq<Patch>, b: seq<Patch>, id: string)
    requires AccountPatches(b)
    requires Find(t.members, id).Some? <==> Find(s.members, id).Some?
    requires Find(t.members, id).Some? ==>
               && SameIdentity(Find(t.members, id).value, Find(s.members, id).value)
               && Find(t.members, id).value.flags == FlagsAfter(a, Find(s.members, id).value)
    ensures SameStanding(s, t, humans, a + b, [], id)
  {
    if RegisteredAgent(s, humans, id).Some? {
      FlagsAfterAccount(a, b, RegisteredAgent(s, humans, id).value);
    }
  }

  lemma RepairedFlags(s: Snapshot, t: Snapshot, id: string)
    requires t == Repaired(s)
    ensures Find(t.members, id).Some? <==> Find(s.members, id).Some?
    ensures Find(t.members, id).Some? ==>
              && SameIdentity(Find(t.members, id).value, Find(s.members, id).value)
              && Find(t.members, id).value.flags == FlagsAfter(ActorFixes(s), Find(s.members, id).value)
  {
    RepairedRow(s, id);
  }

  lemma RepairedStandings(s: Snapshot, t: Snapshot, humans: set<string>, b: seq<Patch>)
    requires t == Repaired(s) && AccountPatches(b)
    ensures forall id :: SameStanding(s, t, humans, ActorFixes(s) + b, [], id)
  {
    forall id ensures SameStanding(s, t, humans, ActorFixes(s) + b, [], id) {
      RepairedFlags(s, t, id);
      StandingKept(s, t, humans, ActorFixes(s), b, id);
    }
  }

  lemma RepairedCounts(s: Snapshot)
    ensures CountAgents(Repaired(s), ValidHumans(s), [], RegistryAfter(s)) == ExpectedCounts(s)
  {
    var t, humans, after := Repaired(s), ValidHumans(s), RegistryAfter(s);
    var b := RegistryPatches(s, after);
    RepairedStandings(s, t, humans, b);
    CountsAgree(s, t, humans, ActorFixes(s) + b, [], after);
  }

  lemma {:induction false} FlagsAfterAccount(a: seq<Patch>, b: seq<Patch>, m: Member)
    requires AccountPatches(b)
    ensures FlagsAfter(a + b, m) == FlagsAfter(a, m)
  {
    if b == [] {
      assert a + b == a;
    } else {
      assert (a + b)[..|a + b| - 1] == a + b[..|b| - 1];
      assert b[|b| - 1] in b;
      FlagsAfterAccount(a, b[..|b| - 1], m);
    }
  }

  /**
   * Repair converges: whatever a conflict-free plan patches, planning again on
   * the patched state finds nothing to patch and nothing in conflict.
   */
  lemma RepairConverges(s: Snapshot)
    requires UniqueMembers(s.members) && |s.members| <= MAX_SAFE_INTEGER
    ensures PlanOf(s).status != Conflicted ==> PlanOf(Apply(s, PlanOf(s).patches)) == Plan(Empty, [], [])
  {
    CleanIsConflictFree(s);
    if Clean(s) {
      RepairedPlanIsEmpty(s);
    }
  }

  lemma RepairedPlanIsEmpty(s: Snapshot)
    requires UniqueMembers(s.members) && |s.members| <= MAX_SAFE_INTEGER && Clean(s)
    ensures PlanOf(Repaired(s)) == Plan(Empty, [], [])
  {
    var t := Repaired(s);
    CleanIsConflictFree(s);
    RepairedIsClean(s);
    CleanIsConflictFree(t);
    RepairedRegistry(s);
    RepairedAccount(s);
    RepairedCounts(s);
    assert RegistryPatches(t, RegistryAfter(s)) == [];
  }

  /** A flag an agent gains comes from the operator ledger, for an agent neither retired nor deactivated. */
  lemma GrantsFromLedger(s: Snapshot, m: Member, flag: string)
    requires AgentFindings(s, m).conflicts == []
    requires Flag(TouchAll(m, AgentFindings(s, m).patches).flags, flag) && !Flag(m.flags, flag)
    ensures flag == "programmer" || flag == "wizard"
    ensures LedgerEntry(Ledger(s), m.id).Some? && Timestamp(m.retiredAt) == Some(None) && Timestamp(m.deactivatedAt) == Some(None)
  {
    var features, retired, deactivated := StringList(m.features).value, Timestamp(m.retiredAt).value, Timestamp(m.deactivatedAt).value;
    PatchesFix(s, m, features, retired, deactivated);
    IntentGrants(s, m, features, retired, deactivated, flag);
  }

  lemma IntentGrants(s: Snapshot, m: Member, features: seq<string>, retired: Option<real>, deactivated: Option<real>, flag: string)
    requires AgentIntent(s, m, features, retired, deactivated).conflicts == []
    requires Flag(AgentIntent(s, m, features, retired, deactivated).flags, flag) && !Flag(m.flags, flag)
    ensures (flag == "programmer" || flag == "wizard") && LedgerEntry(Ledger(s), m.id).Some? && retired.None? && deactivated.None?
  {
  }

  /** Duplicate-free, with the primary actor, every ledger agent and every supplied agent of the account. */
  ghost predicate CompleteRegistry(s: Snapshot, registry: seq<string>) {
    && Distinct(registry)
    && Primary(s).Some? && Primary(s).value in registry
    && (forall e :: e in Ledger(s) ==> e.1 in registry)
    && (forall m :: m in s.members && AccountAgent(s, ValidHumans(s), m) ==> m.id in registry)
  }

  /** Both counters equal a recount over the registry of the same state. */
  ghost predicate CountersHold(t: Snapshot) {
    var counts := CountAgents(t, ValidHumans(t), [], RegistryBefore(t));
    SafeCount(t.agentCount) == Some(counts.0) && SafeCount(t.programmerAgentCount) == Some(counts.1)
  }

  /** A conflict-free plan leaves a complete, duplicate-free registry and counters that equal a recount over it. */
  lemma PlanIsComplete(s: Snapshot)
    requires UniqueMembers(s.members) && |s.members| <= MAX_SAFE_INTEGER
    ensures PlanOf(s).status != Conflicted ==>
              var t := Apply(s, PlanOf(s).patches);
              StringList(t.actors).Some? && CompleteRegistry(s, RegistryBefore(t)) && CountersHold(t)
  {
    CleanIsConflictFree(s);
    if Clean(s) {
      RepairedIsComplete(s);
    }
  }

  lemma RepairedIsComplete(s: Snapshot)
    requires UniqueMembers(s.members) && |s.members| <= MAX_SAFE_INTEGER && Clean(s)
    ensures StringList(Repaired(s).actors).Some? && CompleteRegistry(s, RegistryBefore(Repaired(s))) && CountersHold(Repaired(s))
  {
    SeedFacts(s);
    RegistryAfterFacts(s);
    MembersRegistered(s, ValidHumans(s), SeedRegistry(s), s.members);
    RepairedRegistry(s);
    RepairedAccount(s);
    RepairedCounts(s);
  }

  /** The registered agents that are not retired. */
  ghost function LiveAgents(s: Snapshot, ids: seq<string>): set<string> {
    set id | id in ids && IsLiveAgent(s, id)
  }

  ghost predicate IsLiveAgent(s: Snapshot, id: string) {
    var row := Find(s.members, id);
    && row.Some? && row.value.kind == Agent && OwnedBy(row.value, ValidHumans(s))
    && !(Timestamp(row.value.retiredAt).Some? && Timestamp(row.value.retiredAt).value.Some?)
  }

  /** Those of them that are programmers. */
  ghost function LiveProgrammers(s: Snapshot, ids: seq<string>): set<string> {
    set id | id in ids && IsLiveProgrammer(s, id)
  }

  ghost predicate IsLiveProgrammer(s: Snapshot, id: string) {
    IsLiveAgent(s, id) && Flag(Find(s.members, id).value.flags, "programmer")
  }

  lemma CountStep(s: Snapshot, init: seq<string>, last: string)
    ensures var before, after := CountAgents(s, ValidHumans(s), [], init), CountAgents(s, ValidHumans(s), [], init + [last]);
            && after.0 == before.0 + (if IsLiveAgent(s, last) then 1 else 0)
            && after.1 == before.1 + (if IsLiveProgrammer(s, last) then 1 else 0)
  {
    assert (init + [last])[..|init|] == init;
  }

  lemma {:induction false} CountIsCardinality(s: Snapshot, ids: seq<string>)
    requires Distinct(ids)
    ensures CountAgents(s, ValidHumans(s), [], ids).0 == |LiveAgents(s, ids)|
    ensures CountAgents(s, ValidHumans(s), [], ids).1 == |LiveProgrammers(s, ids)|
  {
    if ids == [] {
      assert LiveAgents(s, ids) == {} && LiveProgrammers(s, ids) == {};
    } else {
      var init, last := ids[..|ids| - 1], ids[|ids| - 1];
      assert ids == init + [last];
      CountIsCardinality(s, init);
      CountStep(s, init, last);
      CountGrows(s, init, last);
    }
  }

  lemma SelectionGrows(init: seq<string>, last: string, chosen: string -> bool)
    requires last !in init
    ensures |set id | id in init + [last] && chosen(id)| == |set id | id in init && chosen(id)| + if chosen(last) then 1 else 0
  {
    var before := set id | id in init && chosen(id);
    assert (set id | id in init + [last] && chosen(id)) == before + if chosen(last) then {last} else {};
  }

  lemma CountGrows(s: Snapshot, init: seq<string>, last: string)
    requires last !in init
    ensures |LiveAgents(s, init + [last])| == |LiveAgents(s, init)| + if IsLiveAgent(s, last) then 1 else 0
    ensures |LiveProgrammers(s, init + [last])| == |LiveProgrammers(s, init)| + if IsLiveProgrammer(s, last) then 1 else 0
  {
    var agent, programmer := (id: string) => IsLiveAgent(s, id), (id: string) => IsLiveProgrammer(s, id);
    SelectionGrows(init, last, agent);
    SelectionGrows(init, last, programmer);
    forall ids: seq<string> ensures LiveAgents(s, ids) == set id | id in ids && agent(id) {
    }
    forall ids: seq<string> ensures LiveProgrammers(s, ids) == set id | id in ids && programmer(id) {
    }
  }

  /** After a conflict-free plan the two counters are the numbers of live agents and of live programmers it registers. */
  lemma CountersAreExact(s: Snapshot)
    requires UniqueMembers(s.members) && |s.members| <= MAX_SAFE_INTEGER && PlanOf(s).status != Conflicted
    ensures var t := Apply(s, PlanOf(s).patches);
            && SafeCount(t.agentCount) == Some(|LiveAgents(t, RegistryBefore(t))|)
            && SafeCount(t.programmerAgentCount) == Some(|LiveProgrammers(t, RegistryBefore(t))|)
  {
    PlanIsComplete(s);
    var t := Apply(s, PlanOf(s).patches);
    CountIsCardinality(t, RegistryBefore(t));
  }

  lemma {:induction false} LedgerAppends(list: seq<string>, ledger: seq<(string, string)>)
    ensures list <= AddLedger(list, ledger)
  {
    if ledger != [] { LedgerAppends(list, ledger[..|ledger| - 1]); }
  }

  lemma {:induction false} MembersAppend(s: Snapshot, humans: set<string>, list: seq<string>, members: seq<Member>)
    ensures list <= AddMembers(s, humans, list, members)
  {
    if members != [] { MembersAppend(s, humans, list, members[..|members| - 1]); }
  }

  /** The repaired registry begins with the old one without its repetitions, behind the primary actor if that was missing. */
  lemma RegistryKeepsOrder(s: Snapshot)
    ensures var unique := Unique(RegistryBefore(s));
            if Primary(s).Some? && Primary(s).value !in RegistryBefore(s) then [Primary(s).value] + unique <= RegistryAfter(s)
            else unique <= RegistryAfter(s)
  {
    UniqueFacts(RegistryBefore(s));
    LedFacts(s);
    LedgerAppends(Led(s), Ledger(s));
    MembersAppend(s, ValidHumans(s), SeedRegistry(s), s.members);
  }

  lemma GrantedRow(s: Snapshot, id: string, flag: string)
    requires Clean(s) && Gains(s, id, flag)
    ensures var m := Find(s.members, id).value;
            && id in RegistryAfter(s) && LedgerEntry(Ledger(s), id).Some? && (flag == "programmer" || flag == "wizard")
            && Timestamp(m.retiredAt) == Some(None) && Timestamp(m.deactivatedAt) == Some(None)
  {
    var m := Find(s.members, id).value;
    RepairedRow(s, id);
    FindFacts(s.members, id);
    if m.kind != Human {
      AgentFindingsOfActor(s, id);
      GrantsFromLedger(s, m, flag);
    }
  }

  /**
   * No plan grants a privilege the operator ledger does not prove: a flag that
   * is set after the plan and was not before is `programmer` or `wizard`, on a
   * registered ledger agent that is neither retired nor deactivated.
   */
  lemma PlanIsConservative(s: Snapshot, id: string, flag: string)
    ensures var before, after := Find(s.members, id), Find(Apply(s, PlanOf(s).patches).members, id);
            before.Some? && after.Some? && Flag(after.value.flags, flag) && !Flag(before.value.flags, flag) ==>
              && id in RegistryAfter(s) && LedgerEntry(Ledger(s), id).Some? && (flag == "programmer" || flag == "wizard")
              && Timestamp(before.value.retiredAt) == Some(None) && Timestamp(before.value.deactivatedAt) == Some(None)
  {
    CleanIsConflictFree(s);
    if Clean(s) {
      if Gains(s, id, flag) { GrantedRow(s, id, flag); }
    } else {
      assert Apply(s, []) == s;
    }
  }

  /** The plan sets a flag that was not set. */
  predicate Gains(s: Snapshot, id: string, flag: string) {
    var before, after := Find(s.members, id), Find(Repaired(s).members, id);
    before.Some? && after.Some? && Flag(after.value.flags, flag) && !Flag(before.value.flags, flag)
  }
}
