/**
 * What a conflict-free plan achieves for each registered agent
 * (src/core/account-state-repair.ts:254-340 and 420-480), stated on the
 * repaired rows alone.
 */
module AccountOutcome {
  import opened Wrappers
  import opened AccountRepair
  import opened AccountConvergence
  import opened AccountPlan
  import opened AccountVerdicts

  /** No credential opens the account: the current key is revoked, and there is no other active one. */
  ghost predicate LockedOut(m: Member) {
    && m.apiKeys.Dict?
    && if m.apiKeyId.Str? && m.apiKeyId.s != ""
       then
         var current := Lookup(m.apiKeys.entries, m.apiKeyId.s);
         current.Some? && !Active(current.value) && !AnyActive(m.apiKeys.entries, Some(m.apiKeyId.s))
       else !AnyActive(m.apiKeys.entries, None)
  }

  ghost predicate Lists(m: Member, feature: string) {
    StringList(m.features).Some? && feature in StringList(m.features).value
  }

  /** A retired agent as it should be: deactivated, no programmer, without the surface, locked out. */
  ghost predicate Retired(m: Member, surface: Option<string>) {
    && Timestamp(m.deactivatedAt).Some? && Timestamp(m.deactivatedAt).value.Some?
    && !Flag(m.flags, "programmer")
    && (surface.Some? ==> !Lists(m, surface.value))
    && LockedOut(m)
  }

  /** A provisioned agent as it should be: active, programmer and wizard, with the surface. */
  ghost predicate Provisioned(m: Member, surface: Option<string>) {
    && Timestamp(m.deactivatedAt) == Some(None)
    && Flag(m.flags, "programmer") && Flag(m.flags, "wizard")
    && surface.Some? && Lists(m, surface.value)
  }

  lemma RevokedIsInactive(keys: seq<(string, Json)>, pointer: string, record: seq<(string, Json)>, at: real)
    requires Lookup(keys, pointer) == Some(Dict(record)) && !AnyActive(keys, Some(pointer))
    ensures var after := RevokedKeys(keys, pointer, at);
            && after.Dict? && !AnyActive(after.entries, Some(pointer))
            && Lookup(after.entries, pointer).Some? && !Active(Lookup(after.entries, pointer).value)
  {
    var revoked := Dict(SetKey(record, "revoked_at", Num(at)));
    SetKeyLookup(record, "revoked_at", Num(at), "");
    SetKeyLookup(keys, pointer, revoked, "");
    forall e | e in SetKey(keys, pointer, revoked) && e.0 != pointer ensures !Active(e.1) {
      SetKeyOthers(keys, pointer, revoked, e);
    }
  }

  lemma RetiredIsLockedOut(m: Member, at: real, fixed: Member)
    requires InspectCredentials(m, Some(at)).conflicts == [] && fixed.apiKeyId == m.apiKeyId
    requires var ps := InspectCredentials(m, Some(at)).patches;
             fixed.apiKeys == if ps == [] then m.apiKeys else ps[0].after
    ensures LockedOut(fixed)
  {
    var keys := m.apiKeys.entries;
    if m.apiKeyId.Str? && m.apiKeyId.s != "" {
      var record := Lookup(keys, m.apiKeyId.s).value;
      if Active(record) {
        RevokedIsInactive(keys, m.apiKeyId.s, record.entries, at);
      }
    }
  }

  lemma FixedRetired(s: Snapshot, m: Member, features: seq<string>, at: real, deactivated: Option<real>)
    requires at >= 0.0 && Timestamp(m.deactivatedAt) == Some(deactivated) && StringList(m.features) == Some(features)
    requires InspectCredentials(m, Some(at)).conflicts == []
    ensures Retired(FixedAgent(s, m, features, Some(at), deactivated), Surface(s))
  {
    var fixed := FixedAgent(s, m, features, Some(at), deactivated);
    FeaturesReadBack(s, m, features, Some(at), deactivated);
    if HasSurface(Surface(s), features) { DropFacts(features, Surface(s).value); }
    CredentialPatchShape(m, Some(at));
    RetiredIsLockedOut(m, at, fixed);
  }

  lemma FixedProvisioned(s: Snapshot, m: Member, features: seq<string>)
    requires Timestamp(m.deactivatedAt).Some? && StringList(m.features) == Some(features) && LedgerEntry(Ledger(s), m.id).Some?
    requires AgentIntent(s, m, features, None, Timestamp(m.deactivatedAt).value).conflicts == []
    ensures Provisioned(FixedAgent(s, m, features, None, Timestamp(m.deactivatedAt).value), Surface(s))
  {
    FeaturesReadBack(s, m, features, None, Timestamp(m.deactivatedAt).value);
  }

  lemma FixedPlain(s: Snapshot, m: Member, features: seq<string>, deactivated: Option<real>)
    requires LedgerEntry(Ledger(s), m.id).None?
    ensures FixedAgent(s, m, features, None, deactivated) == m
  {
  }

  lemma ReadableOutcome(s: Snapshot, m: Member, features: seq<string>, retired: Option<real>, deactivated: Option<real>)
    requires StringList(m.features) == Some(features) && Timestamp(m.deactivatedAt) == Some(deactivated)
    requires retired.Some? ==> retired.value >= 0.0
    requires AgentIntent(s, m, features, retired, deactivated).conflicts == [] && InspectCredentials(m, retired).conflicts == []
    ensures var n := FixedAgent(s, m, features, retired, deactivated);
            && (retired.Some? ==> Retired(n, Surface(s)))
            && (retired.None? && LedgerEntry(Ledger(s), m.id).Some? ==> Provisioned(n, Surface(s)))
            && (retired.None? && LedgerEntry(Ledger(s), m.id).None? ==> n == m)
  {
    if retired.Some? {
      FixedRetired(s, m, features, retired.value, deactivated);
    } else if LedgerEntry(Ledger(s), m.id).Some? {
      FixedProvisioned(s, m, features);
    } else {
      FixedPlain(s, m, features, deactivated);
    }
  }

  /** The outcome for one agent without conflicts. */
  lemma AgentOutcome(s: Snapshot, m: Member)
    requires AgentFindings(s, m).conflicts == []
    ensures var n, retired := TouchAll(m, AgentFindings(s, m).patches), Timestamp(m.retiredAt);
            && retired.Some?
            && (retired.value.Some? ==> Retired(n, Surface(s)))
            && (retired.value.None? && LedgerEntry(Ledger(s), m.id).Some? ==> Provisioned(n, Surface(s)))
            && (retired.value.None? && LedgerEntry(Ledger(s), m.id).None? ==> n == m)
  {
    var features, retired, deactivated := StringList(m.features).value, Timestamp(m.retiredAt).value, Timestamp(m.deactivatedAt).value;
    PatchesFix(s, m, features, retired, deactivated);
    ReadableOutcome(s, m, features, retired, deactivated);
  }

  /**
   * After a conflict-free plan every registered agent is as its history says: a
   * retired one is deactivated, no programmer, without the surface and locked
   * out; a provisioned one that is not retired is active, programmer and wizard,
   * with the surface; any other is left exactly as it was.
   */
  lemma PlanAchieves(s: Snapshot, id: string)
    requires PlanOf(s).status != Conflicted && id in RegistryAfter(s)
    ensures var before, after := Find(s.members, id), Find(Apply(s, PlanOf(s).patches).members, id);
            before.Some? && before.value.kind != Human ==>
              && after.Some? && Timestamp(before.value.retiredAt).Some?
              && (Timestamp(before.value.retiredAt).value.Some? ==> Retired(after.value, Surface(s)))
              && (Timestamp(before.value.retiredAt).value.None? && LedgerEntry(Ledger(s), id).Some? ==> Provisioned(after.value, Surface(s)))
              && (Timestamp(before.value.retiredAt).value.None? && LedgerEntry(Ledger(s), id).None? ==> after == before)
  {
    CleanIsConflictFree(s);
    if Find(s.members, id).Some? && Find(s.members, id).value.kind != Human {
      RegisteredOutcome(s, id);
    }
  }

  lemma RegisteredOutcome(s: Snapshot, id: string)
    requires Clean(s) && id in RegistryAfter(s) && Find(s.members, id).Some? && Find(s.members, id).value.kind != Human
    ensures var m, after := Find(s.members, id).value, Find(Repaired(s).members, id);
            && m.id == id && AgentFindings(s, m).conflicts == []
            && after == Some(TouchAll(m, AgentFindings(s, m).patches))
    ensures var m, after := Find(s.members, id).value, Find(Repaired(s).members, id);
            && Timestamp(m.retiredAt).Some?
            && (Timestamp(m.retiredAt).value.Some? ==> Retired(after.value, Surface(s)))
            && (Timestamp(m.retiredAt).value.None? && LedgerEntry(Ledger(s), id).Some? ==> Provisioned(after.value, Surface(s)))
            && (Timestamp(m.retiredAt).value.None? && LedgerEntry(Ledger(s), id).None? ==> after.value == m)
  {
    FindFacts(s.members, id);
    AgentFindingsOfActor(s, id);
    RepairedRow(s, id);
    AgentOutcome(s, Find(s.members, id).value);
  }

  // ------------------------------------------------------------ what a plan leaves alone

  /** Flags a plan never writes. */
  predicate SameFlag(m: Member, n: Member, flag: string) {
    (flag in n.flags <==> flag in m.flags) && (flag in m.flags ==> n.flags[flag] == m.flags[flag])
  }

  ghost predicate FlagsKept(s: Snapshot, m: Member, n: Member) {
    && (forall flag :: flag != "programmer" && flag != "wizard" ==> SameFlag(m, n, flag))
    && (IsRetired(m) || !NamedByLedger(s, m.id) ==> SameFlag(m, n, "wizard"))
    && (!IsRetired(m) && !NamedByLedger(s, m.id) ==> SameFlag(m, n, "programmer"))
  }

  /** The feature list is kept, or the surface is dropped from a retired agent's or put at the end of a provisioned one's. */
  ghost predicate FeaturesKept(s: Snapshot, m: Member, n: Member) {
    if StringList(m.features).None? then n.features == m.features
    else if IsRetired(m) && OnSurface(s, m) then
      && StringList(n.features).Some?
      && forall x :: x in StringList(n.features).value <==> x in StringList(m.features).value && x != Surface(s).value
    else if !IsRetired(m) && NamedByLedger(s, m.id) && Surface(s).Some? && !OnSurface(s, m) then
      StringList(n.features) == Some(StringList(m.features).value + [Surface(s).value])
    else n.features == m.features
  }

  /** Keys are kept, but for the end of a retired agent's current one. */
  ghost predicate KeysKept(m: Member, n: Member) {
    n.apiKeys == m.apiKeys ||
    (&& IsRetired(m) && OwnKey(m) && Active(CurrentKey(m).value) && n.apiKeys.Dict?
     && (forall e: (string, Json) :: e.0 != m.apiKeyId.s ==> (e in n.apiKeys.entries <==> e in m.apiKeys.entries))
     && var at := Timestamp(m.retiredAt).value.value;
        Lookup(n.apiKeys.entries, m.apiKeyId.s) == Some(Dict(SetKey(CurrentKey(m).value.entries, "revoked_at", Num(at)))))
  }

  /** All that a plan may do to an agent's row. */
  ghost predicate RowKept(s: Snapshot, m: Member, n: Member) {
    && SameIdentity(n, m) && FlagsKept(s, m, n)
    && FeaturesKept(s, m, n) && KeysKept(m, n)
    && n.deactivatedAt == if IsRetired(m) && !IsDeactivated(m) then Num(Timestamp(m.retiredAt).value.value) else m.deactivatedAt
  }

  lemma FixedKeepsFeatures(s: Snapshot, m: Member, features: seq<string>, retired: Option<real>, deactivated: Option<real>)
    requires StringList(m.features) == Some(features) && Timestamp(m.retiredAt) == Some(retired)
    requires AgentIntent(s, m, features, retired, deactivated).conflicts == []
    ensures FeaturesKept(s, m, FixedAgent(s, m, features, retired, deactivated))
  {
    PointersExactly(s, m);
    FeaturesReadBack(s, m, features, retired, deactivated);
    if retired.Some? && Surface(s).Some? {
      DropFacts(features, Surface(s).value);
      DropKeeps(features, Surface(s).value);
    }
  }

  lemma {:induction false} DropKeeps(list: seq<string>, x: string)
    ensures forall y :: y in list && y != x ==> y in Drop(list, x)
    ensures x in list ==> Drop(list, x) != list
  {
    if list != [] {
      DropKeeps(list[1..], x);
      DropFacts(list, x);
    }
  }

  lemma FixedKeepsKeys(m: Member, at: Option<real>, fixed: Member)
    requires Timestamp(m.retiredAt) == Some(at) && InspectCredentials(m, at).conflicts == []
    requires var ps := InspectCredentials(m, at).patches; fixed.apiKeys == if ps == [] then m.apiKeys else ps[0].after
    ensures KeysKept(m, fixed)
  {
    if InspectCredentials(m, at).patches != [] {
      var keys, pointer, record := m.apiKeys.entries, m.apiKeyId.s, CurrentKey(m).value;
      var revoked := Dict(SetKey(record.entries, "revoked_at", Num(at.value)));
      SetKeyLookup(keys, pointer, revoked, "");
      forall e: (string, Json) | e.0 != pointer ensures e in SetKey(keys, pointer, revoked) <==> e in keys {
        SetKeyOthers(keys, pointer, revoked, e);
      }
    }
  }

  lemma FixedKeepsFlags(s: Snapshot, m: Member, features: seq<string>, retired: Option<real>, deactivated: Option<real>)
    requires Timestamp(m.retiredAt) == Some(retired)
    requires AgentIntent(s, m, features, retired, deactivated).conflicts == []
    ensures FlagsKept(s, m, FixedAgent(s, m, features, retired, deactivated))
  {
    PointersExactly(s, m);
  }

  lemma FixedKept(s: Snapshot, m: Member, features: seq<string>, retired: Option<real>, deactivated: Option<real>)
    requires StringList(m.features) == Some(features)
    requires Timestamp(m.retiredAt) == Some(retired) && Timestamp(m.deactivatedAt) == Some(deactivated)
    requires AgentIntent(s, m, features, retired, deactivated).conflicts == [] && InspectCredentials(m, retired).conflicts == []
    ensures RowKept(s, m, FixedAgent(s, m, features, retired, deactivated))
  {
    FixedKeepsFlags(s, m, features, retired, deactivated);
    CredentialPatchShape(m, retired);
    FixedKeepsFeatures(s, m, features, retired, deactivated);
    FixedKeepsKeys(m, retired, FixedAgent(s, m, features, retired, deactivated));
  }

  /**
   * A conflict-free plan does no more to a registered agent's row than its
   * history calls for: other flags, other features, other keys and every
   * identity field are as before.
   */
  lemma PlanTouchesOnly(s: Snapshot, id: string)
    requires PlanOf(s).status != Conflicted && id in RegistryAfter(s)
    requires Find(s.members, id).Some? && Find(s.members, id).value.kind != Human
    ensures var after := Find(Apply(s, PlanOf(s).patches).members, id);
            after.Some? && RowKept(s, Find(s.members, id).value, after.value)
  {
    CleanIsConflictFree(s);
    RegisteredOutcome(s, id);
    var m := Find(s.members, id).value;
    var features, retired, deactivated := StringList(m.features).value, Timestamp(m.retiredAt).value, Timestamp(m.deactivatedAt).value;
    PatchesFix(s, m, features, retired, deactivated);
    FixedKept(s, m, features, retired, deactivated);
  }

  /** Humans, and agents the repaired registry does not list, keep their rows; so does everyone if there is a conflict. */
  lemma OthersUntouched(s: Snapshot, id: string)
    requires Find(s.members, id).Some?
    requires PlanOf(s).status == Conflicted || id !in RegistryAfter(s) || Find(s.members, id).value.kind == Human
    ensures Find(Apply(s, PlanOf(s).patches).members, id) == Find(s.members, id)
  {
    CleanIsConflictFree(s);
    if Clean(s) { RepairedRow(s, id); }
  }

  // --------------------------------------------------------------- what a grant takes

  lemma GrantIsUncontested(s: Snapshot, m: Member)
    requires AgentFindings(s, m).conflicts == [] && Provisionable(s, m)
    ensures !Demoted(m) && !Traceless(s, m) && !IsDeactivated(m)
  {
    AgentFaultsExactly(s, m, Conflict(OperatorAgentDemoted, m.id));
    AgentFaultsExactly(s, m, Conflict(OperatorAgentIntentAmbiguous, m.id));
    AgentFaultsExactly(s, m, Conflict(OperatorAgentDeactivated, m.id));
  }

  /**
   * A plan makes an agent a programmer only if it was no wizard, and either was
   * not in the registry or already had the surface among its features: where
   * the grant may have been taken back it is not given again.
   */
  lemma GrantsAreFresh(s: Snapshot, id: string)
    ensures var before, after := Find(s.members, id), Find(Apply(s, PlanOf(s).patches).members, id);
            before.Some? && after.Some? && Is(after.value, "programmer") && !Is(before.value, "programmer") ==>
              && !Is(before.value, "wizard") && !IsDeactivated(before.value) && !IsRetired(before.value)
              && (id !in RegistryBefore(s) || OnSurface(s, before.value))
  {
    PlanIsConservative(s, id, "programmer");
    CleanIsConflictFree(s);
    if Clean(s) && Gains(s, id, "programmer") {
      var m := Find(s.members, id).value;
      FindFacts(s.members, id);
      HumansGainNothing(s, id);
      AgentFindingsOfActor(s, id);
      ReadableWithoutFaults(s, m);
      PointersExactly(s, m);
      GrantIsUncontested(s, m);
    }
  }

  lemma HumansGainNothing(s: Snapshot, id: string)
    requires Clean(s) && Gains(s, id, "programmer")
    ensures Find(s.members, id).value.kind != Human
  {
    var m := Find(s.members, id).value;
    RepairedRow(s, id);
    assert m.kind == Human ==> ActorFindings(s, ValidHumans(s), id) == Findings([], []);
  }

  lemma ReadableWithoutFaults(s: Snapshot, m: Member)
    requires AgentFindings(s, m).conflicts == []
    ensures Readable(m)
  {
    AgentFaultsExactly(s, m, Conflict(MalformedActorFlags, m.id));
    AgentFaultsExactly(s, m, Conflict(MalformedFeatureList, m.id));
    AgentFaultsExactly(s, m, Conflict(InvalidRetiredAt, m.id));
    AgentFaultsExactly(s, m, Conflict(InvalidDeactivatedAt, m.id));
  }
}
