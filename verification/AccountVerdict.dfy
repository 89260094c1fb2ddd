/**
 * When the account repair planner (src/core/account-state-repair.ts) reports
 * a conflict: each conflict code is tied to the stored rows that warrant it,
 * in both directions, so that a plan is neither too bold nor too timid.
 */
module AccountVerdicts {
  import opened Wrappers
  import opened AccountRepair
  import opened AccountConvergence
  import opened AccountPlan

  // ---------------------------------------------------------- facts about one agent

  /** Some entry of the operator ledger names the agent. */
  ghost predicate NamedByLedger(s: Snapshot, id: string) {
    exists e :: e in Ledger(s) && e.1 == id
  }

  /** The agent's own pointer names the first entry the ledger has for it. */
  ghost predicate PointsBack(s: Snapshot, m: Member) {
    exists i :: 0 <= i < |Ledger(s)| && Ledger(s)[i].1 == m.id && m.provisionId == Str(Ledger(s)[i].0)
             && forall j :: 0 <= j < i ==> Ledger(s)[j].1 != m.id
  }

  ghost predicate BooleanFlags(m: Member) {
    forall k :: k in m.flags ==> m.flags[k].Bool?
  }

  ghost predicate Listed(m: Member) {
    BooleanFlags(m) && StringList(m.features).Some?
  }

  ghost predicate Readable(m: Member) {
    Listed(m) && Timestamp(m.retiredAt).Some? && Timestamp(m.deactivatedAt).Some?
  }

  predicate IsRetired(m: Member) {
    Timestamp(m.retiredAt).Some? && Timestamp(m.retiredAt).value.Some?
  }

  predicate IsDeactivated(m: Member) {
    Timestamp(m.deactivatedAt).Some? && Timestamp(m.deactivatedAt).value.Some?
  }

  predicate Is(m: Member, flag: string) {
    flag in m.flags && m.flags[flag] == Bool(true)
  }

  predicate OnSurface(s: Snapshot, m: Member) {
    Surface(s).Some? && StringList(m.features).Some? && Surface(s).value in StringList(m.features).value
  }

  /** Provisioned by an operator and not retired since: the repair would make it a programmer and a wizard. */
  ghost predicate Provisionable(s: Snapshot, m: Member) {
    Readable(m) && !IsRetired(m) && NamedByLedger(s, m.id)
  }

  /** A wizard that is no programmer: provisioning was completed, and then taken back. */
  predicate Demoted(m: Member) {
    Is(m, "wizard") && !Is(m, "programmer")
  }

  /** A registered agent without any trace of the provisioning: it may have been taken back as well. */
  predicate Traceless(s: Snapshot, m: Member) {
    m.id in RegistryBefore(s) && !Is(m, "wizard") && !Is(m, "programmer") && !OnSurface(s, m)
  }

  predicate NoPointer(m: Member) {
    m.apiKeyId.Null? || m.apiKeyId == Str("")
  }

  /** The record of the key the agent points to. */
  function CurrentKey(m: Member): Option<Json> {
    if m.apiKeys.Dict? && m.apiKeyId.Str? && m.apiKeyId.s != "" then Lookup(m.apiKeys.entries, m.apiKeyId.s) else None
  }

  predicate OwnKey(m: Member) {
    var k := CurrentKey(m);
    k.Some? && k.value.Dict? && Lookup(k.value.entries, "actor") == Some(Str(m.id))
  }

  /** The facts that warrant each conflict about a registered agent. */
  ghost predicate AgentFault(s: Snapshot, m: Member, code: Code) {
    match code
    case MalformedActorFlags => !BooleanFlags(m)
    case MalformedFeatureList => BooleanFlags(m) && StringList(m.features).None?
    case InvalidRetiredAt => Listed(m) && Timestamp(m.retiredAt).None?
    case InvalidDeactivatedAt => Listed(m) && Timestamp(m.deactivatedAt).None?
    case LedgerReversePointerMismatch => Listed(m) && NamedByLedger(s, m.id) && !PointsBack(s, m)
    case ReversePointerMissingFromLedger =>
      && Listed(m) && (NamedByLedger(s, m.id) ==> PointsBack(s, m))
      && m.provisionId.Str? && Lookup(Ledger(s), m.provisionId.s) != Some(m.id)
    case OperatorAgentDemoted => Provisionable(s, m) && Demoted(m)
    case OperatorAgentDeactivated => Provisionable(s, m) && !Demoted(m) && IsDeactivated(m)
    case OperatorAgentIntentAmbiguous => Provisionable(s, m) && !IsDeactivated(m) && Traceless(s, m)
    case OperatorAgentMissingSurface =>
      Provisionable(s, m) && !Demoted(m) && !IsDeactivated(m) && !Traceless(s, m) && Surface(s).None?
    case SurfaceIntentAmbiguous =>
      && Readable(m) && !IsRetired(m) && !NamedByLedger(s, m.id)
      && Surface(s).Some? && Is(m, "programmer") != OnSurface(s, m)
    case InvalidApiKeyMap => Readable(m) && !m.apiKeys.Dict?
    case InvalidApiKeyPointer => Readable(m) && m.apiKeys.Dict? && !NoPointer(m) && !m.apiKeyId.Str?
    case ActiveCredentialsWithoutPointer =>
      Readable(m) && m.apiKeys.Dict? && NoPointer(m) && exists e :: e in m.apiKeys.entries && Active(e.1)
    case CurrentCredentialMissing =>
      && Readable(m) && m.apiKeys.Dict? && m.apiKeyId.Str? && m.apiKeyId.s != ""
      && (CurrentKey(m).None? || !CurrentKey(m).value.Dict?)
    case CurrentCredentialActorMismatch =>
      Readable(m) && CurrentKey(m).Some? && CurrentKey(m).value.Dict? && !OwnKey(m)
    case LiveAgentPointsToRevoked => Readable(m) && OwnKey(m) && !IsRetired(m) && !Active(CurrentKey(m).value)
    case RetiredActorHasActiveCredentials =>
      && Readable(m) && OwnKey(m) && IsRetired(m)
      && exists e :: e in m.apiKeys.entries && e.0 != m.apiKeyId.s && Active(e.1)
    case _ => false
  }

  lemma {:induction false} FirstEntry(ledger: LedgerRows, agent: string) returns (i: nat)
    ensures LedgerEntry(ledger, agent).Some? <==> exists e :: e in ledger && e.1 == agent
    ensures LedgerEntry(ledger, agent).Some? ==>
              && i < |ledger| && ledger[i] == (LedgerEntry(ledger, agent).value, agent)
              && forall j :: 0 <= j < i ==> ledger[j].1 != agent
  {
    i := 0;
    if ledger != [] && ledger[0].1 != agent {
      var k := FirstEntry(ledger[1..], agent);
      assert ledger == [ledger[0]] + ledger[1..];
      i := k + 1;
    }
  }

  lemma PointersExactly(s: Snapshot, m: Member)
    ensures LedgerEntry(Ledger(s), m.id).Some? <==> NamedByLedger(s, m.id)
    ensures PointsBack(s, m) <==> LedgerEntry(Ledger(s), m.id).Some? && m.provisionId == Str(LedgerEntry(Ledger(s), m.id).value)
  {
    var i := FirstEntry(Ledger(s), m.id);
  }

  predicate PointerCode(code: Code) {
    code.LedgerReversePointerMismatch? || code.ReversePointerMissingFromLedger?
  }

  predicate IntentCode(code: Code) {
    || code.OperatorAgentDemoted? || code.OperatorAgentDeactivated? || code.OperatorAgentIntentAmbiguous?
    || code.OperatorAgentMissingSurface? || code.SurfaceIntentAmbiguous?
  }

  predicate CredentialCode(code: Code) {
    || code.InvalidApiKeyMap? || code.InvalidApiKeyPointer? || code.ActiveCredentialsWithoutPointer?
    || code.CurrentCredentialMissing? || code.CurrentCredentialActorMismatch?
    || code.LiveAgentPointsToRevoked? || code.RetiredActorHasActiveCredentials?
  }

  predicate UnreadableCode(code: Code) {
    || code.MalformedActorFlags? || code.MalformedFeatureList? || code.InvalidRetiredAt? || code.InvalidDeactivatedAt?
  }

  predicate AgentCode(code: Code) {
    PointerCode(code) || IntentCode(code) || CredentialCode(code) || UnreadableCode(code)
  }

  lemma PointerFaults(s: Snapshot, m: Member, c: Conflict)
    requires Listed(m)
    ensures c in PointerConflicts(s, m) <==> c.subject == m.id && PointerCode(c.code) && AgentFault(s, m, c.code)
  {
    PointersExactly(s, m);
  }

  lemma IntentFaults(s: Snapshot, m: Member, c: Conflict)
    requires Readable(m)
    ensures c in AgentIntent(s, m, StringList(m.features).value, Timestamp(m.retiredAt).value, Timestamp(m.deactivatedAt).value).conflicts
            <==> c.subject == m.id && IntentCode(c.code) && AgentFault(s, m, c.code)
  {
    PointersExactly(s, m);
    if Provisionable(s, m) { ProvisionFaults(s, m, c); }
  }

  /** Why the ledger's grant is withheld, fact by fact. */
  lemma WithheldExactly(s: Snapshot, m: Member, features: seq<string>, code: Code)
    requires Provisionable(s, m) && StringList(m.features) == Some(features)
    ensures IntentConflict(m.id in RegistryBefore(s), Surface(s), m.flags, features, IsDeactivated(m)) == Some(code)
            <==> IntentCode(code) && AgentFault(s, m, code)
  {
  }

  lemma ProvisionFaults(s: Snapshot, m: Member, c: Conflict)
    requires Provisionable(s, m)
    ensures c in AgentIntent(s, m, StringList(m.features).value, Timestamp(m.retiredAt).value, Timestamp(m.deactivatedAt).value).conflicts
            <==> c.subject == m.id && IntentCode(c.code) && AgentFault(s, m, c.code)
  {
    PointersExactly(s, m);
    WithheldExactly(s, m, StringList(m.features).value, c.code);
  }

  lemma CredentialFaults(s: Snapshot, m: Member, c: Conflict)
    requires Readable(m)
    ensures c in InspectCredentials(m, Timestamp(m.retiredAt).value).conflicts
            <==> c.subject == m.id && CredentialCode(c.code) && AgentFault(s, m, c.code)
  {
  }

  /** The conflicts found for an agent are exactly those its row and the ledger warrant. */
  lemma AgentFaultsExactly(s: Snapshot, m: Member, c: Conflict)
    ensures c in AgentFindings(s, m).conflicts <==> c.subject == m.id && AgentFault(s, m, c.code)
  {
    if Listed(m) { PointerFaults(s, m, c); }
    if Readable(m) {
      IntentFaults(s, m, c);
      CredentialFaults(s, m, c);
    }
    FaultCodes(s, m, c.code);
  }

  lemma FaultCodes(s: Snapshot, m: Member, code: Code)
    ensures AgentFault(s, m, code) ==> AgentCode(code)
    ensures AgentFault(s, m, code) && PointerCode(code) ==> Listed(m)
    ensures AgentFault(s, m, code) && (IntentCode(code) || CredentialCode(code)) ==> Readable(m)
  {
  }

  // ---------------------------------------------------------- facts about the account

  /** In the registry, or the primary actor, or named by the ledger. */
  ghost predicate Enrolled(s: Snapshot, id: string) {
    id in RegistryBefore(s) || Primary(s) == Some(id) || NamedByLedger(s, id)
  }

  /** The primary actor, or an enrolled human of this account. */
  ghost predicate AccountPerson(s: Snapshot, id: string) {
    || Primary(s) == Some(id)
    || (&& Enrolled(s, id) && Find(s.members, id).Some?
        && var m := Find(s.members, id).value;
           m.authorityRoot == Some(s.authorityRoot) && m.kind == Human && m.account == Some(s.account))
  }

  ghost predicate PersonOwned(s: Snapshot, m: Member) {
    m.owner.Some? && m.owner.value != "" && AccountPerson(s, m.owner.value)
  }

  ghost predicate OurAgent(s: Snapshot, m: Member) {
    m.kind == Agent && PersonOwned(s, m) && m.authorityRoot == Some(s.authorityRoot)
  }

  /** Enrolled, or an agent of the account that the ledger attests. */
  ghost predicate Admitted(s: Snapshot, id: string) {
    Enrolled(s, id) || exists m :: m in s.members && m.id == id && OurAgent(s, m) && Attested(s, m)
  }

  /** A row of an agent of the account that nothing admits: neither its own pointer nor an earlier row's. */
  ghost predicate Stray(s: Snapshot, i: int) {
    && 0 <= i < |s.members| && OurAgent(s, s.members[i]) && !Enrolled(s, s.members[i].id) && !Attested(s, s.members[i])
    && forall j :: 0 <= j < i && s.members[j].id == s.members[i].id ==> !(OurAgent(s, s.members[j]) && Attested(s, s.members[j]))
  }

  /** Two entries of the ledger name the agent under different names. */
  ghost predicate Aliased(s: Snapshot, id: string) {
    exists e, f :: e in Ledger(s) && f in Ledger(s) && e.1 == id && f.1 == id && e.0 != f.0
  }

  predicate HeaderFault(s: Snapshot, code: Code) {
    match code
    case InvalidPrimaryActor => !(s.primaryActor.Str? && s.primaryActor.s != "")
    case InvalidActorRegistry => StringList(s.actors).None?
    case InvalidOperatorLedger => StringMap(s.operatorLedger).None?
    case _ => false
  }

  predicate PrimaryFault(s: Snapshot, row: Option<Member>, code: Code) {
    match code
    case PrimaryActorMissing => row.None?
    case PrimaryActorAccountMismatch => row.Some? && !(row.value.kind == Human && row.value.account == Some(s.account))
    case PrimaryActorAuthorityMismatch => row.Some? && row.value.authorityRoot != Some(s.authorityRoot)
    case _ => false
  }

  predicate RegisteredFault(s: Snapshot, row: Option<Member>, code: Code) {
    match code
    case RegisteredActorMissing => row.None?
    case RegisteredActorAuthorityMismatch => row.Some? && row.value.authorityRoot != Some(s.authorityRoot)
    case RegisteredHumanAccountMismatch =>
      && row.Some? && row.value.authorityRoot == Some(s.authorityRoot)
      && row.value.kind == Human && row.value.account != Some(s.account)
    case _ => false
  }

  ghost predicate CandidateFault(s: Snapshot, row: Option<Member>, code: Code) {
    match code
    case ExplicitCandidateMissing => row.None?
    case ExplicitCandidateNotAgent => row.Some? && row.value.kind != Agent
    case ExplicitCandidateAuthorityMismatch =>
      row.Some? && row.value.kind == Agent && row.value.authorityRoot != Some(s.authorityRoot)
    case ExplicitCandidateOwnerMismatch =>
      && row.Some? && row.value.kind == Agent && row.value.authorityRoot == Some(s.authorityRoot)
      && !PersonOwned(s, row.value)
    case _ => false
  }

  /** A registered actor that is neither human nor agent, an agent nobody of the account owns, or a fault of the agent itself. */
  ghost predicate ActorFault(s: Snapshot, row: Option<Member>, code: Code) {
    && row.Some? && row.value.kind != Human
    && if row.value.kind == Other then code == RegisteredActorNotAccountActor
       else if !PersonOwned(s, row.value) then code == RegisteredAgentOwnerMismatch
       else AgentFault(s, row.value, code)
  }

  /** What must hold of the stored state for a conflict to be reported. */
  ghost predicate Warranted(s: Snapshot, c: Conflict) {
    var row := Find(s.members, c.subject);
    || (c.subject == s.account && HeaderFault(s, c.code))
    || (Primary(s) == Some(c.subject) && PrimaryFault(s, row, c.code))
    || (Enrolled(s, c.subject) && RegisteredFault(s, row, c.code))
    || (c.subject in s.candidates && CandidateFault(s, row, c.code))
    || (c.code == OperatorLedgerAliasesAgent && Aliased(s, c.subject))
    || (c.code == UnregisteredAgentWithoutEvidence && exists i :: Stray(s, i) && s.members[i].id == c.subject)
    || (Admitted(s, c.subject) && ActorFault(s, row, c.code))
  }

  // ------------------------------------------------------- the lists and the facts

  lemma EnrolledExactly(s: Snapshot, id: string)
    ensures id in SeedRegistry(s) <==> Enrolled(s, id)
  {
    SeedFacts(s);
  }

  lemma PersonExactly(s: Snapshot, id: string)
    ensures id in ValidHumans(s) <==> AccountPerson(s, id)
  {
    EnrolledExactly(s, id);
  }

  lemma OwnedExactly(s: Snapshot, m: Member)
    ensures OwnedBy(m, ValidHumans(s)) <==> PersonOwned(s, m)
    ensures AccountAgent(s, ValidHumans(s), m) <==> OurAgent(s, m)
  {
    if m.owner.Some? { PersonExactly(s, m.owner.value); }
  }

  lemma {:induction false} AttestedAreAdded(s: Snapshot, humans: set<string>, list: seq<string>, members: seq<Member>)
    ensures forall x :: x in AddMembers(s, humans, list, members) <==>
              x in list || exists m :: m in members && m.id == x && AccountAgent(s, humans, m) && Attested(s, m)
  {
    if members != [] {
      var init, last := members[..|members| - 1], members[|members| - 1];
      AttestedAreAdded(s, humans, list, init);
      assert members == init + [last];
      assert last in members;
    }
  }

  lemma AdmittedExactly(s: Snapshot, id: string)
    ensures id in RegistryAfter(s) <==> Admitted(s, id)
  {
    EnrolledExactly(s, id);
    AttestedAreAdded(s, ValidHumans(s), SeedRegistry(s), s.members);
    forall m ensures AccountAgent(s, ValidHumans(s), m) <==> OurAgent(s, m) {
      OwnedExactly(s, m);
    }
  }

  lemma {:induction false} InRegistered(s: Snapshot, ids: seq<string>, c: Conflict)
    ensures c in AllRegistered(s, ids) <==> c.subject in ids && c in RegisteredConflicts(s, c.subject)
  {
    if ids != [] {
      InRegistered(s, ids[..|ids| - 1], c);
      assert ids == ids[..|ids| - 1] + [ids[|ids| - 1]];
      SubjectOfRegistered(s, ids[|ids| - 1], c);
    }
  }

  lemma SubjectOfRegistered(s: Snapshot, id: string, c: Conflict)
    ensures c in RegisteredConflicts(s, id) ==> c.subject == id
  {
  }

  lemma {:induction false} InCandidates(s: Snapshot, humans: set<string>, ids: seq<string>, c: Conflict)
    ensures c in AllCandidates(s, humans, ids) <==> c.subject in ids && c in CandidateConflicts(s, humans, c.subject)
  {
    if ids != [] {
      InCandidates(s, humans, ids[..|ids| - 1], c);
      assert ids == ids[..|ids| - 1] + [ids[|ids| - 1]];
      SubjectOfCandidate(s, humans, ids[|ids| - 1], c);
    }
  }

  lemma SubjectOfCandidate(s: Snapshot, humans: set<string>, id: string, c: Conflict)
    ensures c in CandidateConflicts(s, humans, id) ==> c.subject == id
  {
  }

  lemma {:induction false} InActors(s: Snapshot, humans: set<string>, ids: seq<string>, c: Conflict)
    ensures c in AllActors(s, humans, ids).conflicts <==> c.subject in ids && c in ActorFindings(s, humans, c.subject).conflicts
  {
    if ids != [] {
      InActors(s, humans, ids[..|ids| - 1], c);
      assert ids == ids[..|ids| - 1] + [ids[|ids| - 1]];
      SubjectOfActor(s, humans, ids[|ids| - 1], c);
      assert FindingsOf(s, humans)(ids[|ids| - 1]) == ActorFindings(s, humans, ids[|ids| - 1]);
    }
  }

  lemma SubjectOfActor(s: Snapshot, humans: set<string>, id: string, c: Conflict)
    ensures c in ActorFindings(s, humans, id).conflicts ==> c.subject == id
  {
    FindFacts(s.members, id);
    if Find(s.members, id).Some? { AgentFaultsExactly(s, Find(s.members, id).value, c); }
  }

  ghost predicate AliasedIn(ledger: LedgerRows, id: string) {
    exists e, f :: e in ledger && f in ledger && e.1 == id && f.1 == id && e.0 != f.0
  }

  lemma AliasedByLast(init: LedgerRows, last: (string, string), id: string)
    ensures AliasedIn(init + [last], id) <==> AliasedIn(init, id) || Conflict(OperatorLedgerAliasesAgent, id) in AliasConflicts(init, last)
  {
    var i := FirstEntry(init, last.1);
    if AliasedIn(init, id) {
      var e, f :| e in init && f in init && e.1 == id && f.1 == id && e.0 != f.0;
      assert e in init + [last] && f in init + [last];
    }
    if Conflict(OperatorLedgerAliasesAgent, id) in AliasConflicts(init, last) {
      assert init[i] in init + [last] && last in init + [last];
    }
  }

  lemma {:induction false} InAliases(ledger: LedgerRows, c: Conflict)
    ensures c in AllAliases(ledger) <==> c.code == OperatorLedgerAliasesAgent && AliasedIn(ledger, c.subject)
  {
    if ledger != [] {
      var init, last := ledger[..|ledger| - 1], ledger[|ledger| - 1];
      InAliases(init, c);
      assert ledger == init + [last];
      AliasedByLast(init, last, c.subject);
    }
  }

  ghost predicate StrayIn(s: Snapshot, humans: set<string>, list: seq<string>, members: seq<Member>, i: int) {
    && 0 <= i < |members| && AccountAgent(s, humans, members[i]) && members[i].id !in list && !Attested(s, members[i])
    && forall j :: 0 <= j < i && members[j].id == members[i].id ==> !(AccountAgent(s, humans, members[j]) && Attested(s, members[j]))
  }

  lemma StrayStep(s: Snapshot, humans: set<string>, list: seq<string>, init: seq<Member>, last: Member)
    ensures forall i :: 0 <= i < |init| ==> (StrayIn(s, humans, list, init + [last], i) <==> StrayIn(s, humans, list, init, i))
    ensures StrayIn(s, humans, list, init + [last], |init|) <==>
            AccountAgent(s, humans, last) && last.id !in AddMembers(s, humans, list, init) && !Attested(s, last)
  {
    AttestedAreAdded(s, humans, list, init);
    assert (init + [last])[|init|] == last;
    assert forall j :: 0 <= j < |init| ==> (init + [last])[j] == init[j];
  }

  ghost predicate SomeStray(s: Snapshot, humans: set<string>, list: seq<string>, members: seq<Member>, id: string) {
    exists i :: StrayIn(s, humans, list, members, i) && members[i].id == id
  }

  lemma StrayByLast(s: Snapshot, humans: set<string>, list: seq<string>, init: seq<Member>, last: Member, id: string)
    ensures SomeStray(s, humans, list, init + [last], id) <==>
            || SomeStray(s, humans, list, init, id)
            || Conflict(UnregisteredAgentWithoutEvidence, id) in MemberConflicts(s, humans, AddMembers(s, humans, list, init), last)
  {
    var members := init + [last];
    StrayStep(s, humans, list, init, last);
    if SomeStray(s, humans, list, init, id) {
      var i :| StrayIn(s, humans, list, init, i) && init[i].id == id;
      assert StrayIn(s, humans, list, members, i) && members[i].id == id;
    }
    if Conflict(UnregisteredAgentWithoutEvidence, id) in MemberConflicts(s, humans, AddMembers(s, humans, list, init), last) {
      assert StrayIn(s, humans, list, members, |init|) && members[|init|].id == id;
    }
  }

  lemma {:induction false} InMembers(s: Snapshot, humans: set<string>, list: seq<string>, members: seq<Member>, c: Conflict)
    ensures c in AllMembers(s, humans, list, members) <==>
            c.code == UnregisteredAgentWithoutEvidence && SomeStray(s, humans, list, members, c.subject)
  {
    if members != [] {
      var init, last := members[..|members| - 1], members[|members| - 1];
      InMembers(s, humans, list, init, c);
      assert members == init + [last];
      StrayByLast(s, humans, list, init, last, c.subject);
    }
  }

  // --------------------------------------------------------------- the whole plan

  lemma HeaderWarranted(s: Snapshot, c: Conflict)
    ensures c in HeaderConflicts(s) <==> c.subject == s.account && HeaderFault(s, c.code)
  {
  }

  lemma PrimaryWarranted(s: Snapshot, c: Conflict)
    ensures c in PrimaryConflicts(s) <==> Primary(s) == Some(c.subject) && PrimaryFault(s, Find(s.members, c.subject), c.code)
  {
    if Primary(s).Some? { FindFacts(s.members, Primary(s).value); }
  }

  lemma RegisteredWarranted(s: Snapshot, c: Conflict)
    ensures c in RegisteredConflicts(s, c.subject) <==> RegisteredFault(s, Find(s.members, c.subject), c.code)
  {
  }

  lemma CandidateWarranted(s: Snapshot, c: Conflict)
    ensures c in CandidateConflicts(s, ValidHumans(s), c.subject) <==> CandidateFault(s, Find(s.members, c.subject), c.code)
  {
    if Find(s.members, c.subject).Some? { OwnedExactly(s, Find(s.members, c.subject).value); }
  }

  lemma StraysExactly(s: Snapshot, i: int)
    ensures StrayIn(s, ValidHumans(s), SeedRegistry(s), s.members, i) <==> Stray(s, i)
  {
    if 0 <= i < |s.members| {
      EnrolledExactly(s, s.members[i].id);
      forall m ensures AccountAgent(s, ValidHumans(s), m) <==> OurAgent(s, m) {
        OwnedExactly(s, m);
      }
    }
  }

  lemma MembersWarranted(s: Snapshot, c: Conflict)
    ensures c in AllMembers(s, ValidHumans(s), SeedRegistry(s), s.members) <==>
            c.code == UnregisteredAgentWithoutEvidence && exists i :: Stray(s, i) && s.members[i].id == c.subject
  {
    InMembers(s, ValidHumans(s), SeedRegistry(s), s.members, c);
    forall i ensures StrayIn(s, ValidHumans(s), SeedRegistry(s), s.members, i) <==> Stray(s, i) {
      StraysExactly(s, i);
    }
  }

  lemma ActorWarranted(s: Snapshot, c: Conflict)
    ensures c in ActorFindings(s, ValidHumans(s), c.subject).conflicts <==> ActorFault(s, Find(s.members, c.subject), c.code)
  {
    var row := Find(s.members, c.subject);
    FindFacts(s.members, c.subject);
    if row.Some? {
      OwnedExactly(s, row.value);
      AgentFaultsExactly(s, row.value, c);
    }
  }

  lemma ActorsWarranted(s: Snapshot, c: Conflict)
    ensures c in AllActors(s, ValidHumans(s), RegistryAfter(s)).conflicts <==>
            Admitted(s, c.subject) && ActorFault(s, Find(s.members, c.subject), c.code)
  {
    InActors(s, ValidHumans(s), RegistryAfter(s), c);
    AdmittedExactly(s, c.subject);
    ActorWarranted(s, c);
  }

  /**
   * The planner neither overlooks a conflict nor invents one: a conflict is
   * reported exactly when the stored rows warrant it.
   */
  lemma ConflictsExactly(s: Snapshot, c: Conflict)
    ensures c in PlanOf(s).conflicts <==> Warranted(s, c)
  {
    HeaderWarranted(s, c);
    PrimaryWarranted(s, c);
    InRegistered(s, SeedRegistry(s), c);
    EnrolledExactly(s, c.subject);
    RegisteredWarranted(s, c);
    InCandidates(s, ValidHumans(s), s.candidates, c);
    CandidateWarranted(s, c);
    InAliases(Ledger(s), c);
    MembersWarranted(s, c);
    ActorsWarranted(s, c);
  }

  /** A plan is refused exactly when something stored warrants a conflict. */
  lemma ConflictedExactly(s: Snapshot)
    ensures PlanOf(s).status == Conflicted <==> exists c :: Warranted(s, c)
  {
    if PlanOf(s).status == Conflicted {
      var c := PlanOf(s).conflicts[0];
      ConflictsExactly(s, c);
    }
    if exists c :: Warranted(s, c) {
      var c :| Warranted(s, c);
      ConflictsExactly(s, c);
    }
  }

  // ------------------------------------------------------- one agent, all its conflicts

  /** The ledger and the agent's own pointer name each other, or neither names anything. */
  ghost predicate PointersAgree(s: Snapshot, m: Member) {
    && (NamedByLedger(s, m.id) ==> PointsBack(s, m))
    && (m.provisionId.Str? ==> Lookup(Ledger(s), m.provisionId.s) == Some(m.id))
  }

  /** Nothing opposes the grant of a provisioned agent; any other is a programmer exactly if it has the surface. */
  ghost predicate IntentClear(s: Snapshot, m: Member) {
    IsRetired(m) ||
    if NamedByLedger(s, m.id)
    then !Demoted(m) && !IsDeactivated(m) && !Traceless(s, m) && Surface(s).Some?
    else Surface(s).Some? ==> (Is(m, "programmer") <==> OnSurface(s, m))
  }

  /**
   * A dictionary of keys. Without a current key none is active; the current key
   * is the agent's own, active while it lives and the only active one after.
   */
  ghost predicate KeysInOrder(m: Member) {
    && m.apiKeys.Dict?
    && (if NoPointer(m) then forall e :: e in m.apiKeys.entries ==> !Active(e.1)
        else
          && m.apiKeyId.Str? && OwnKey(m)
          && if IsRetired(m) then forall e :: e in m.apiKeys.entries && e.0 != m.apiKeyId.s ==> !Active(e.1)
             else Active(CurrentKey(m).value))
  }

  lemma PointerGroup(s: Snapshot, m: Member)
    requires Readable(m)
    ensures PointersAgree(s, m) <==>
            !AgentFault(s, m, LedgerReversePointerMismatch) && !AgentFault(s, m, ReversePointerMissingFromLedger)
  {
  }

  lemma ClearIntent(s: Snapshot, m: Member, code: Code)
    requires Readable(m) && IntentClear(s, m)
    ensures IntentCode(code) ==> !AgentFault(s, m, code)
  {
  }

  lemma UnclearIntent(s: Snapshot, m: Member) returns (code: Code)
    requires Readable(m) && !IntentClear(s, m)
    ensures IntentCode(code) && AgentFault(s, m, code)
  {
    code := if !NamedByLedger(s, m.id) then SurfaceIntentAmbiguous
            else if Demoted(m) then OperatorAgentDemoted
            else if IsDeactivated(m) then OperatorAgentDeactivated
            else if Traceless(s, m) then OperatorAgentIntentAmbiguous
            else OperatorAgentMissingSurface;
  }

  lemma OrderlyKeys(s: Snapshot, m: Member, code: Code)
    requires Readable(m) && KeysInOrder(m)
    ensures CredentialCode(code) ==> !AgentFault(s, m, code)
  {
  }

  lemma DisorderlyKeys(s: Snapshot, m: Member) returns (code: Code)
    requires Readable(m) && !KeysInOrder(m)
    ensures CredentialCode(code) && AgentFault(s, m, code)
  {
    code := if !m.apiKeys.Dict? then InvalidApiKeyMap
            else if NoPointer(m) then ActiveCredentialsWithoutPointer
            else if !m.apiKeyId.Str? then InvalidApiKeyPointer
            else if CurrentKey(m).None? || !CurrentKey(m).value.Dict? then CurrentCredentialMissing
            else if !OwnKey(m) then CurrentCredentialActorMismatch
            else if IsRetired(m) then RetiredActorHasActiveCredentials
            else LiveAgentPointsToRevoked;
  }

  lemma NoFaultAtAll(s: Snapshot, m: Member)
    requires Readable(m)
    ensures (forall code :: !AgentFault(s, m, code)) <==> PointersAgree(s, m) && IntentClear(s, m) && KeysInOrder(m)
  {
    PointerGroup(s, m);
    if PointersAgree(s, m) && IntentClear(s, m) && KeysInOrder(m) {
      forall code ensures !AgentFault(s, m, code) {
        FaultCodes(s, m, code);
        ClearIntent(s, m, code);
        OrderlyKeys(s, m, code);
      }
    } else if !IntentClear(s, m) {
      var code := UnclearIntent(s, m);
    } else if !KeysInOrder(m) {
      var code := DisorderlyKeys(s, m);
    }
  }

  lemma OtherCodes(s: Snapshot, row: Option<Member>, code: Code)
    requires AgentCode(code)
    ensures !HeaderFault(s, code) && !PrimaryFault(s, row, code) && !RegisteredFault(s, row, code) && !CandidateFault(s, row, code)
    ensures code != OperatorLedgerAliasesAgent && code != UnregisteredAgentWithoutEvidence
  {
  }

  lemma AgentCodeIsAgents(s: Snapshot, m: Member, c: Conflict)
    requires Admitted(s, c.subject) && Find(s.members, c.subject) == Some(m) && m.kind == Agent && PersonOwned(s, m)
    ensures Warranted(s, c) && AgentCode(c.code) <==> AgentFault(s, m, c.code)
  {
    FaultCodes(s, m, c.code);
    if AgentCode(c.code) { OtherCodes(s, Some(m), c.code); }
  }

  /**
   * One registered agent with readable fields: the plan has no conflict about
   * it as an agent exactly if its pointers agree with the ledger, its intent is
   * clear and its keys are in order.
   */
  lemma AgentConflictsExactly(s: Snapshot, id: string, m: Member)
    requires Admitted(s, id) && Find(s.members, id) == Some(m) && m.kind == Agent && PersonOwned(s, m) && Readable(m)
    ensures (forall c :: c in PlanOf(s).conflicts && c.subject == id ==> !AgentCode(c.code)) <==>
            PointersAgree(s, m) && IntentClear(s, m) && KeysInOrder(m)
  {
    forall c: Conflict | c.subject == id ensures c in PlanOf(s).conflicts && AgentCode(c.code) <==> AgentFault(s, m, c.code) {
      ConflictsExactly(s, c);
      AgentCodeIsAgents(s, m, c);
    }
    forall code ensures AgentFault(s, m, code) ==> Conflict(code, id) in PlanOf(s).conflicts && AgentCode(code) {
      assert Conflict(code, id).code == code;
    }
    NoFaultAtAll(s, m);
  }
}
