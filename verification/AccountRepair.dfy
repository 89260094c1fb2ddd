/**
 * The account-state repair planner (src/core/account-state-repair.ts): from
 * one bounded snapshot of an account's authority it derives either a list of
 * patches or a list of conflicts, never both.
 */
module AccountRepair {
  import opened Wrappers

  // ------------------------------------------------------------ stored values

  /** A stored value. Dictionaries keep insertion order; `NonFinite` is a number JSON cannot carry. */
  datatype Json =
    | Undefined | Null | Bool(b: bool) | Num(v: real) | NonFinite | Str(s: string)
    | List(items: seq<Json>) | Dict(entries: seq<(string, Json)>)

  function Lookup<V>(entries: seq<(string, V)>, key: string): Option<V> {
    if entries == [] then None
    else if entries[0].0 == key then Some(entries[0].1)
    else Lookup(entries[1..], key)
  }

  /** Assign a key in place, or append it. */
  function SetKey(entries: seq<(string, Json)>, key: string, value: Json): seq<(string, Json)> {
    if entries == [] then [(key, value)]
    else if entries[0].0 == key then [(key, value)] + entries[1..]
    else [entries[0]] + SetKey(entries[1..], key, value)
  }

  function Strings(items: seq<string>): Json {
    List(seq(|items|, i requires 0 <= i < |items| => Str(items[i])))
  }

  /** A list of non-empty strings, or None. */
  function StringList(value: Json): Option<seq<string>> {
    if value.List? && forall x :: x in value.items ==> x.Str? && x.s != ""
    then Some(seq(|value.items|, i requires 0 <= i < |value.items| => value.items[i].s))
    else None
  }

  /** A dictionary from non-empty names to non-empty strings, or None. */
  function StringMap(value: Json): Option<seq<(string, string)>> {
    if value.Dict? && forall e :: e in value.entries ==> e.0 != "" && e.1.Str? && e.1.s != ""
    then Some(seq(|value.entries|, i requires 0 <= i < |value.entries| => (value.entries[i].0, value.entries[i].1.s)))
    else None
  }

  function SafeCount(value: Json): Option<nat> {
    if value.Num? && value.v == value.v.Floor as real && 0.0 <= value.v <= MAX_SAFE_INTEGER as real then Some(value.v.Floor) else None
  }

  /** A timestamp that may be absent: None when malformed, Some(None) when absent. */
  function Timestamp(value: Json): Option<Option<real>> {
    match value
    case Null => Some(None)
    case Undefined => Some(None)
    case Num(v) => if v >= 0.0 then Some(Some(v)) else None
    case _ => None
  }

  // ---------------------------------------------------------------- snapshots

  datatype Kind = Human | Agent | Other

  datatype Member = Member(
    id: string, kind: Kind, owner: Option<string>, authorityRoot: Option<string>, account: Option<string>,
    flags: map<string, Json>, features: Json, apiKeyId: Json, apiKeys: Json,
    deactivatedAt: Json, retiredAt: Json, provisionId: Json)

  datatype Snapshot = Snapshot(
    account: string, authorityRoot: string, primaryActor: Json, actors: Json,
    agentCount: Json, programmerAgentCount: Json, operatorLedger: Json, programmerSurface: Json,
    candidates: seq<string>, members: seq<Member>)

  /** The member with an id; of several rows the last one counts. */
  function Find(members: seq<Member>, id: string): Option<Member> {
    if members == [] then None
    else
      var last := members[|members| - 1];
      if last.id == id then Some(last) else Find(members[..|members| - 1], id)
  }

  datatype Code =
    | InvalidPrimaryActor | InvalidActorRegistry | InvalidOperatorLedger
    | PrimaryActorMissing | PrimaryActorAccountMismatch | PrimaryActorAuthorityMismatch
    | RegisteredActorMissing | RegisteredActorAuthorityMismatch | RegisteredHumanAccountMismatch
    | ExplicitCandidateMissing | ExplicitCandidateNotAgent | ExplicitCandidateAuthorityMismatch | ExplicitCandidateOwnerMismatch
    | OperatorLedgerAliasesAgent | UnregisteredAgentWithoutEvidence
    | RegisteredActorNotAccountActor | RegisteredAgentOwnerMismatch | MalformedActorFlags | MalformedFeatureList
    | LedgerReversePointerMismatch | ReversePointerMissingFromLedger | InvalidRetiredAt | InvalidDeactivatedAt
    | OperatorAgentDemoted | OperatorAgentDeactivated | OperatorAgentIntentAmbiguous | OperatorAgentMissingSurface
    | SurfaceIntentAmbiguous
    | InvalidApiKeyMap | InvalidApiKeyPointer | ActiveCredentialsWithoutPointer | CurrentCredentialMissing
    | CurrentCredentialActorMismatch | LiveAgentPointsToRevoked | RetiredActorHasActiveCredentials

  datatype Conflict = Conflict(code: Code, subject: string)

  datatype Field = Actors | AgentCount | ProgrammerAgentCount | DeactivatedAt | Features | ApiKeys

  datatype Patch =
    | Property(subject: string, field: Field, before: Json, after: Json)
    | LineageFlags(subject: string, flagsBefore: map<string, Json>, flagsAfter: map<string, Json>)

  datatype Status = Empty | WouldApply | Conflicted

  datatype Plan = Plan(status: Status, patches: seq<Patch>, conflicts: seq<Conflict>)

  /** A property patch is proposed only where it changes the stored value. */
  function PropertyPatch(subject: string, field: Field, before: Json, after: Json): seq<Patch> {
    if before == after then [] else [Property(subject, field, before, after)]
  }

  function When(condition: bool, code: Code, subject: string): seq<Conflict> {
    if condition then [Conflict(code, subject)] else []
  }

  // -------------------------------------------------------------- the registry

  function Primary(s: Snapshot): Option<string> {
    if s.primaryActor.Str? && s.primaryActor.s != "" then Some(s.primaryActor.s) else None
  }

  function RegistryBefore(s: Snapshot): seq<string> {
    match StringList(s.actors) case Some(r) => r case None => []
  }

  function Ledger(s: Snapshot): seq<(string, string)> {
    match StringMap(s.operatorLedger) case Some(l) => l case None => []
  }

  function AddMissing(list: seq<string>, id: string): seq<string> {
    if id in list then list else list + [id]
  }

  function Unique(list: seq<string>): seq<string> {
    if list == [] then [] else AddMissing(Unique(list[..|list| - 1]), list[|list| - 1])
  }

  function AddLedger(list: seq<string>, ledger: seq<(string, string)>): seq<string> {
    if ledger == [] then list else AddMissing(AddLedger(list, ledger[..|ledger| - 1]), ledger[|ledger| - 1].1)
  }

  /** The deduplicated registry, led by the primary actor if it was missing, with every ledger agent. */
  function SeedRegistry(s: Snapshot): seq<string> {
    var unique := Unique(RegistryBefore(s));
    var led := match Primary(s)
               case Some(p) => if p in unique then unique else [p] + unique
               case None => unique;
    AddLedger(led, Ledger(s))
  }

  predicate SameAuthority(s: Snapshot, m: Member) {
    m.authorityRoot == Some(s.authorityRoot)
  }

  predicate AccountHuman(s: Snapshot, id: string) {
    match Find(s.members, id)
    case Some(m) => SameAuthority(s, m) && m.kind == Human && m.account == Some(s.account)
    case None => false
  }

  function ValidHumans(s: Snapshot): set<string> {
    (set id | id in SeedRegistry(s) && AccountHuman(s, id)) + (if Primary(s).Some? then {Primary(s).value} else {})
  }

  predicate OwnedBy(m: Member, humans: set<string>) {
    m.owner.Some? && m.owner.value != "" && m.owner.value in humans
  }

  /** The agent's own pointer and the operator ledger attest each other. */
  predicate Attested(s: Snapshot, m: Member) {
    m.provisionId.Str? && m.provisionId.s != "" && Lookup(Ledger(s), m.provisionId.s) == Some(m.id)
  }

  /** An agent of this authority, owned by an account human. */
  predicate AccountAgent(s: Snapshot, humans: set<string>, m: Member) {
    m.kind == Agent && OwnedBy(m, humans) && SameAuthority(s, m)
  }

  function AddMember(s: Snapshot, humans: set<string>, list: seq<string>, m: Member): seq<string> {
    if AccountAgent(s, humans, m) && Attested(s, m) then AddMissing(list, m.id) else list
  }

  function AddMembers(s: Snapshot, humans: set<string>, list: seq<string>, members: seq<Member>): seq<string> {
    if members == [] then list
    else AddMember(s, humans, AddMembers(s, humans, list, members[..|members| - 1]), members[|members| - 1])
  }

  /** The repaired registry: the seed, then every attested agent the snapshot supplies. */
  function RegistryAfter(s: Snapshot): seq<string> {
    AddMembers(s, ValidHumans(s), SeedRegistry(s), s.members)
  }

  // ------------------------------------------------- conflicts of the registry

  function HeaderConflicts(s: Snapshot): seq<Conflict> {
    When(Primary(s).None?, InvalidPrimaryActor, s.account)
    + When(StringList(s.actors).None?, InvalidActorRegistry, s.account)
    + When(StringMap(s.operatorLedger).None?, InvalidOperatorLedger, s.account)
  }

  function PrimaryConflicts(s: Snapshot): seq<Conflict> {
    match Primary(s)
    case None => []
    case Some(p) =>
      match Find(s.members, p)
      case None => [Conflict(PrimaryActorMissing, p)]
      case Some(m) =>
        When(m.kind != Human || m.account != Some(s.account), PrimaryActorAccountMismatch, m.id)
        + When(!SameAuthority(s, m), PrimaryActorAuthorityMismatch, m.id)
  }

  function RegisteredConflicts(s: Snapshot, id: string): seq<Conflict> {
    match Find(s.members, id)
    case None => [Conflict(RegisteredActorMissing, id)]
    case Some(m) =>
      if !SameAuthority(s, m) then [Conflict(RegisteredActorAuthorityMismatch, id)]
      else When(m.kind == Human && m.account != Some(s.account), RegisteredHumanAccountMismatch, id)
  }

  function CandidateConflicts(s: Snapshot, humans: set<string>, id: string): seq<Conflict> {
    match Find(s.members, id)
    case None => [Conflict(ExplicitCandidateMissing, id)]
    case Some(m) =>
      if m.kind != Agent then [Conflict(ExplicitCandidateNotAgent, id)]
      else if !SameAuthority(s, m) then [Conflict(ExplicitCandidateAuthorityMismatch, id)]
      else When(!OwnedBy(m, humans), ExplicitCandidateOwnerMismatch, id)
  }

  type LedgerRows = seq<(string, string)>

  /** The first ledger entry that names an agent. */
  function LedgerEntry(ledger: seq<(string, string)>, agent: string): Option<string> {
    if ledger == [] then None
    else if ledger[0].1 == agent then Some(ledger[0].0)
    else LedgerEntry(ledger[1..], agent)
  }

  /** A ledger entry that names an agent an earlier one already named. */
  function AliasConflicts(earlier: LedgerRows, entry: (string, string)): seq<Conflict> {
    var prior := LedgerEntry(earlier, entry.1);
    When(prior.Some? && prior.value != entry.0, OperatorLedgerAliasesAgent, entry.1)
  }

  function MemberConflicts(s: Snapshot, humans: set<string>, list: seq<string>, m: Member): seq<Conflict> {
    When(AccountAgent(s, humans, m) && m.id !in list && !Attested(s, m), UnregisteredAgentWithoutEvidence, m.id)
  }

  // -------------------------------------------------------------- credentials

  /** An entry counts as active unless it is a record with a revocation. */
  predicate Active(raw: Json) {
    raw.Dict? ==>
      match Lookup(raw.entries, "revoked_at")
      case None => true
      case Some(v) => v.Null? || v.Undefined?
  }

  predicate AnyActive(keys: seq<(string, Json)>, except: Option<string>) {
    exists e :: e in keys && Some(e.0) != except && Active(e.1)
  }

  datatype Findings = Findings(conflicts: seq<Conflict>, patches: seq<Patch>)

  function Clash(code: Code, id: string): Findings {
    Findings([Conflict(code, id)], [])
  }

  function RevokedKeys(keys: seq<(string, Json)>, pointer: string, at: real): Json {
    var record := Lookup(keys, pointer);
    if record.Some? && record.value.Dict?
    then Dict(SetKey(keys, pointer, Dict(SetKey(record.value.entries, "revoked_at", Num(at)))))
    else Dict(keys)
  }

  function InspectCredentials(m: Member, retired: Option<real>): Findings {
    if !m.apiKeys.Dict? then Clash(InvalidApiKeyMap, m.id)
    else if !m.apiKeyId.Null? && !m.apiKeyId.Str? then Clash(InvalidApiKeyPointer, m.id)
    else
      var keys := m.apiKeys.entries;
      if m.apiKeyId.Null? || m.apiKeyId.s == "" then
        Findings(When(AnyActive(keys, None), ActiveCredentialsWithoutPointer, m.id), [])
      else
        var pointer := m.apiKeyId.s;
        var record := Lookup(keys, pointer);
        if record.None? || !record.value.Dict? then Clash(CurrentCredentialMissing, m.id)
        else if Lookup(record.value.entries, "actor") != Some(Str(m.id)) then Clash(CurrentCredentialActorMismatch, m.id)
        else match retired
          case None => Findings(When(!Active(record.value), LiveAgentPointsToRevoked, m.id), [])
          case Some(at) =>
            Findings(When(AnyActive(keys, Some(pointer)), RetiredActorHasActiveCredentials, m.id),
                     if Active(record.value) then PropertyPatch(m.id, ApiKeys, m.apiKeys, RevokedKeys(keys, pointer, at)) else [])
  }

  // ------------------------------------------------------------------- agents

  function Surface(s: Snapshot): Option<string> {
    if s.programmerSurface.Str? && s.programmerSurface.s != "" then Some(s.programmerSurface.s) else None
  }

  predicate Flag(flags: map<string, Json>, name: string) {
    name in flags && flags[name] == Bool(true)
  }

  predicate HasSurface(surface: Option<string>, features: seq<string>) {
    surface.Some? && surface.value in features
  }

  function Drop(list: seq<string>, x: string): seq<string> {
    if list == [] then [] else (if list[0] == x then [] else [list[0]]) + Drop(list[1..], x)
  }

  /** Why the provisioning ledger must not restore an agent's programmer status. */
  function IntentConflict(registered: bool, surface: Option<string>, flags: map<string, Json>, features: seq<string>, deactivated: bool): Option<Code> {
    if Flag(flags, "wizard") && !Flag(flags, "programmer") then Some(OperatorAgentDemoted)
    else if deactivated then Some(OperatorAgentDeactivated)
    else if registered && !Flag(flags, "wizard") && !Flag(flags, "programmer") && !HasSurface(surface, features) then Some(OperatorAgentIntentAmbiguous)
    else if surface.None? then Some(OperatorAgentMissingSurface)
    else None
  }

  /** What a well-formed agent should look like, or the conflict that prevents saying so. */
  datatype Intent = Intent(conflicts: seq<Conflict>, flags: map<string, Json>, features: seq<string>)

  function AgentIntent(s: Snapshot, m: Member, features: seq<string>, retired: Option<real>, deactivated: Option<real>): Intent {
    var surface := Surface(s);
    var provision := LedgerEntry(Ledger(s), m.id);
    if retired.Some? then
      Intent([], if Flag(m.flags, "programmer") then m.flags["programmer" := Bool(false)] else m.flags,
             if HasSurface(surface, features) then Drop(features, surface.value) else features)
    else if provision.Some? then
      match IntentConflict(m.id in RegistryBefore(s), surface, m.flags, features, deactivated.Some?)
      case Some(code) => Intent([Conflict(code, m.id)], m.flags, features)
      case None =>
        Intent([], m.flags["programmer" := Bool(true)]["wizard" := Bool(true)],
               if HasSurface(surface, features) || surface.None? then features else features + [surface.value])
    else
      Intent(When(surface.Some? && Flag(m.flags, "programmer") != HasSurface(surface, features), SurfaceIntentAmbiguous, m.id), m.flags, features)
  }

  function PointerConflicts(s: Snapshot, m: Member): seq<Conflict> {
    var provision := LedgerEntry(Ledger(s), m.id);
    if provision.Some? && m.provisionId != Str(provision.value) then [Conflict(LedgerReversePointerMismatch, m.id)]
    else When(m.provisionId.Str? && Lookup(Ledger(s), m.provisionId.s) != Some(m.id), ReversePointerMissingFromLedger, m.id)
  }

  /** Patches and conflicts of one agent whose flags, features and timestamps are readable. */
  function ReadableAgent(s: Snapshot, m: Member, features: seq<string>, retired: Option<real>, deactivated: Option<real>): Findings {
    var intent := AgentIntent(s, m, features, retired, deactivated);
    var credentials := InspectCredentials(m, retired);
    Findings(
      PointerConflicts(s, m) + intent.conflicts + credentials.conflicts,
      (if retired.Some? && deactivated.None? then PropertyPatch(m.id, DeactivatedAt, Null, Num(retired.value)) else [])
      + (if intent.flags != m.flags then [LineageFlags(m.id, m.flags, intent.flags)] else [])
      + (if intent.features != features then PropertyPatch(m.id, Features, Strings(features), Strings(intent.features)) else [])
      + credentials.patches)
  }

  function AgentFindings(s: Snapshot, m: Member): Findings {
    if exists k :: k in m.flags && !m.flags[k].Bool? then Clash(MalformedActorFlags, m.id)
    else match StringList(m.features)
      case None => Clash(MalformedFeatureList, m.id)
      case Some(features) =>
        var retired, deactivated := Timestamp(m.retiredAt), Timestamp(m.deactivatedAt);
        if retired.None? || deactivated.None? then
          Findings(PointerConflicts(s, m) + When(retired.None?, InvalidRetiredAt, m.id) + When(deactivated.None?, InvalidDeactivatedAt, m.id), [])
        else ReadableAgent(s, m, features, retired.value, deactivated.value)
  }

  /** The registered agent behind a registry entry, if it is one. */
  function RegisteredAgent(s: Snapshot, humans: set<string>, id: string): Option<Member> {
    match Find(s.members, id)
    case None => None
    case Some(m) => if m.kind == Agent && OwnedBy(m, humans) then Some(m) else None
  }

  function ActorFindings(s: Snapshot, humans: set<string>, id: string): Findings {
    match Find(s.members, id)
    case None => Findings([], [])
    case Some(m) =>
      if m.kind == Human then Findings([], [])
      else if m.kind != Agent then Clash(RegisteredActorNotAccountActor, id)
      else if !OwnedBy(m, humans) then Clash(RegisteredAgentOwnerMismatch, id)
      else AgentFindings(s, m)
  }

  // ------------------------------------------------------------------ the plan

  function AllRegistered(s: Snapshot, ids: seq<string>): seq<Conflict> {
    if ids == [] then [] else AllRegistered(s, ids[..|ids| - 1]) + RegisteredConflicts(s, ids[|ids| - 1])
  }

  function AllCandidates(s: Snapshot, humans: set<string>, ids: seq<string>): seq<Conflict> {
    if ids == [] then [] else AllCandidates(s, humans, ids[..|ids| - 1]) + CandidateConflicts(s, humans, ids[|ids| - 1])
  }

  function AllAliases(ledger: LedgerRows): seq<Conflict> {
    if ledger == [] then []
    else
      var init := ledger[..|ledger| - 1];
      AllAliases(init) + AliasConflicts(init, ledger[|ledger| - 1])
  }

  function AllMembers(s: Snapshot, humans: set<string>, list: seq<string>, members: seq<Member>): seq<Conflict> {
    if members == [] then []
    else
      var init := members[..|members| - 1];
      AllMembers(s, humans, list, init) + MemberConflicts(s, humans, AddMembers(s, humans, list, init), members[|members| - 1])
  }

  /** Findings of a list of actors, in order. */
  function Collect(ids: seq<string>, findings: string -> Findings): Findings {
    if ids == [] then Findings([], [])
    else
      var init, last := Collect(ids[..|ids| - 1], findings), findings(ids[|ids| - 1]);
      Findings(init.conflicts + last.conflicts, init.patches + last.patches)
  }

  function FindingsOf(s: Snapshot, humans: set<string>): string -> Findings {
    (id: string) => ActorFindings(s, humans, id)
  }

  function AllActors(s: Snapshot, humans: set<string>, ids: seq<string>): Findings {
    Collect(ids, FindingsOf(s, humans))
  }

  /** An agent that counts against the quota: registered and not retired. */
  predicate Live(m: Member) {
    Timestamp(m.retiredAt) == Some(None) || Timestamp(m.retiredAt) == None
  }

  /** The flags an agent has once the proposed patches land. */
  function FlagsAfter(patches: seq<Patch>, m: Member): map<string, Json> {
    if patches == [] then m.flags
    else
      var last := patches[|patches| - 1];
      if last.LineageFlags? && last.subject == m.id then last.flagsAfter else FlagsAfter(patches[..|patches| - 1], m)
  }

  /** Live registered agents, and those of them that end up programmers. */
  function CountAgents(s: Snapshot, humans: set<string>, patches: seq<Patch>, ids: seq<string>): (nat, nat) {
    if ids == [] then (0, 0)
    else
      var (agents, programmers) := CountAgents(s, humans, patches, ids[..|ids| - 1]);
      match RegisteredAgent(s, humans, ids[|ids| - 1])
      case Some(m) =>
        if !Live(m) then (agents, programmers)
        else (agents + 1, if Flag(FlagsAfter(patches, m), "programmer") then programmers + 1 else programmers)
      case None => (agents, programmers)
  }

  function RegistryPatches(s: Snapshot, after: seq<string>): seq<Patch> {
    match StringList(s.actors)
    case Some(registry) => if registry != after then PropertyPatch(s.account, Actors, Strings(registry), Strings(after)) else []
    case None => []
  }

  /** A value as a patch records it. */
  function Detail(value: Json): Json {
    if value.Undefined? then Str("undefined") else value
  }

  function CountPatch(s: Snapshot, field: Field, current: Json, expected: nat): seq<Patch> {
    if SafeCount(current) == Some(expected) then [] else PropertyPatch(s.account, field, Detail(current), Num(expected as real))
  }

  function AllConflicts(s: Snapshot): seq<Conflict> {
    var humans := ValidHumans(s);
    HeaderConflicts(s) + PrimaryConflicts(s) + AllRegistered(s, SeedRegistry(s)) + AllCandidates(s, humans, s.candidates)
    + AllAliases(Ledger(s)) + AllMembers(s, humans, SeedRegistry(s), s.members)
    + AllActors(s, humans, RegistryAfter(s)).conflicts
  }

  function Proposed(s: Snapshot): seq<Patch> {
    var humans, after := ValidHumans(s), RegistryAfter(s);
    var fixes := AllActors(s, humans, after).patches + RegistryPatches(s, after);
    var (agents, programmers) := CountAgents(s, humans, fixes, after);
    fixes + CountPatch(s, AgentCount, s.agentCount, agents) + CountPatch(s, ProgrammerAgentCount, s.programmerAgentCount, programmers)
  }

  /** A conflict anywhere suppresses every patch. */
  function PlanOf(s: Snapshot): Plan {
    if AllConflicts(s) != [] then Plan(Conflicted, [], AllConflicts(s))
    else Plan(if Proposed(s) == [] then Empty else WouldApply, Proposed(s), [])
  }

  // ------------------------------------------------------------ applying a plan

  function Touch(m: Member, p: Patch): Member {
    if p.subject != m.id then m
    else match p
      case LineageFlags(_, _, after) => m.(flags := after)
      case Property(_, field, _, after) =>
        match field
        case DeactivatedAt => m.(deactivatedAt := after)
        case Features => m.(features := after)
        case ApiKeys => m.(apiKeys := after)
        case _ => m
  }

  /** Write one patch to the stored state: every row with the id, or the account's own property. */
  function ApplyPatch(s: Snapshot, p: Patch): Snapshot {
    var members := seq(|s.members|, i requires 0 <= i < |s.members| => Touch(s.members[i], p));
    var t := s.(members := members);
    if p.LineageFlags? || p.subject != s.account then t
    else match p.field
      case Actors => t.(actors := p.after)
      case AgentCount => t.(agentCount := p.after)
      case ProgrammerAgentCount => t.(programmerAgentCount := p.after)
      case _ => t
  }

  function Apply(s: Snapshot, patches: seq<Patch>): Snapshot {
    if patches == [] then s else ApplyPatch(Apply(s, patches[..|patches| - 1]), patches[|patches| - 1])
  }
}
