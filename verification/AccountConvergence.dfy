/**
 * Account repair converges: applying a conflict-free plan leaves a state whose
 * own plan is empty, and what the plan writes is complete and conservative.
 */
module AccountConvergence {
  import opened Wrappers
  import opened AccountRepair

  // ------------------------------------------------------- stored-value round trips

  lemma StringListRoundTrip(items: seq<string>)
    requires forall x :: x in items ==> x != ""
    ensures StringList(Strings(items)) == Some(items)
  {
    var value := Strings(items);
    assert forall x :: x in value.items ==> x.Str? && x.s in items;
    assert StringList(value).value == items;
  }

  lemma StringListElements(value: Json)
    requires StringList(value).Some?
    ensures forall x :: x in StringList(value).value ==> x != ""
    ensures Strings(StringList(value).value) == value
  {
    var items := StringList(value).value;
    assert Strings(items).items == value.items;
  }

  lemma StringsInjective(a: seq<string>, b: seq<string>)
    requires Strings(a) == Strings(b)
    ensures a == b
  {
    assert forall i :: 0 <= i < |a| ==> Strings(a).items[i] == Str(a[i]);
    assert forall i :: 0 <= i < |b| ==> Strings(b).items[i] == Str(b[i]);
  }

  lemma {:induction false} SetKeyLookup(entries: seq<(string, Json)>, key: string, value: Json, other: string)
    ensures Lookup(SetKey(entries, key, value), key) == Some(value)
    ensures other != key ==> Lookup(SetKey(entries, key, value), other) == Lookup(entries, other)
  {
    if entries != [] && entries[0].0 != key {
      SetKeyLookup(entries[1..], key, value, other);
      assert SetKey(entries, key, value)[1..] == SetKey(entries[1..], key, value);
    }
  }

  /** Assigning a present key leaves every other entry where it was. */
  lemma {:induction false} SetKeyOthers(entries: seq<(string, Json)>, key: string, value: Json, e: (string, Json))
    requires e.0 != key
    ensures e in SetKey(entries, key, value) <==> e in entries
  {
    if entries != [] && entries[0].0 != key {
      SetKeyOthers(entries[1..], key, value, e);
    }
  }

  // --------------------------------------------------------------- credentials

  lemma RevokingSettles(m: Member, at: real, keys: seq<(string, Json)>, record: seq<(string, Json)>, fixed: Member)
    requires at >= 0.0 && m.apiKeys == Dict(keys) && m.apiKeyId.Str? && m.apiKeyId.s != ""
    requires Lookup(keys, m.apiKeyId.s) == Some(Dict(record)) && Lookup(record, "actor") == Some(Str(m.id))
    requires !AnyActive(keys, Some(m.apiKeyId.s))
    requires fixed.id == m.id && fixed.apiKeyId == m.apiKeyId && fixed.apiKeys == RevokedKeys(keys, m.apiKeyId.s, at)
    ensures InspectCredentials(fixed, Some(at)) == Findings([], [])
  {
    var pointer, revoked := m.apiKeyId.s, Dict(SetKey(record, "revoked_at", Num(at)));
    SetKeyLookup(record, "revoked_at", Num(at), "actor");
    SetKeyLookup(keys, pointer, revoked, "");
    forall e | e in SetKey(keys, pointer, revoked) && e.0 != pointer ensures !Active(e.1) {
      SetKeyOthers(keys, pointer, revoked, e);
    }
  }

  /** One round of credential repair is enough. */
  lemma CredentialsConverge(m: Member, retired: Option<real>, fixed: Member)
    requires retired.Some? ==> retired.value >= 0.0
    requires InspectCredentials(m, retired).conflicts == []
    requires fixed.id == m.id && fixed.apiKeyId == m.apiKeyId
    requires var ps := InspectCredentials(m, retired).patches;
             fixed.apiKeys == if ps == [] then m.apiKeys else ps[0].after
    ensures InspectCredentials(fixed, retired) == Findings([], [])
  {
    var ps := InspectCredentials(m, retired).patches;
    if ps != [] {
      var keys := m.apiKeys.entries;
      RevokingSettles(m, retired.value, keys, Lookup(keys, m.apiKeyId.s).value.entries, fixed);
    } else if retired.Some? && m.apiKeyId.Str? && m.apiKeyId.s != "" {
      var keys := m.apiKeys.entries;
      var record := Lookup(keys, m.apiKeyId.s).value;
      if Active(record) {
        RevokingSettles(m, retired.value, keys, record.entries, fixed);
      }
    }
  }

  // ----------------------------------------------------------------- one agent

  lemma {:induction false} DropFacts(list: seq<string>, x: string)
    ensures x !in Drop(list, x)
    ensures forall y :: y in Drop(list, x) ==> y in list
    ensures x !in list ==> Drop(list, x) == list
  {
    if list != [] {
      DropFacts(list[1..], x);
    }
  }

  /** Repairing toward an intent reaches it: asked again, the intent is unchanged and unopposed. */
  lemma IntentConverges(s: Snapshot, t: Snapshot, m: Member, fixed: Member, features: seq<string>,
                        retired: Option<real>, deactivated: Option<real>, after: Option<real>)
    requires retired.None? ==> after == deactivated
    requires Ledger(t) == Ledger(s) && Surface(t) == Surface(s)
    requires AgentIntent(s, m, features, retired, deactivated).conflicts == []
    requires fixed.id == m.id && fixed.flags == AgentIntent(s, m, features, retired, deactivated).flags
    ensures var intent := AgentIntent(s, m, features, retired, deactivated);
            AgentIntent(t, fixed, intent.features, retired, after) == intent
  {
    var surface := Surface(s);
    if retired.Some? && surface.Some? {
      DropFacts(features, surface.value);
    }
  }

  /** What the plan makes of a readable agent. */
  function FixedAgent(s: Snapshot, m: Member, features: seq<string>, retired: Option<real>, deactivated: Option<real>): Member {
    var intent := AgentIntent(s, m, features, retired, deactivated);
    var credentials := InspectCredentials(m, retired).patches;
    m.(deactivatedAt := if retired.Some? && deactivated.None? then Num(retired.value) else m.deactivatedAt,
       flags := intent.flags,
       features := if intent.features != features then Strings(intent.features) else m.features,
       apiKeys := if credentials != [] && credentials[0].Property? then credentials[0].after else m.apiKeys)
  }

  function TouchAll(m: Member, patches: seq<Patch>): Member {
    if patches == [] then m else Touch(TouchAll(m, patches[..|patches| - 1]), patches[|patches| - 1])
  }

  lemma {:induction false} TouchAllAppend(m: Member, a: seq<Patch>, b: seq<Patch>)
    ensures TouchAll(m, a + b) == TouchAll(TouchAll(m, a), b)
  {
    if b == [] {
      assert a + b == a;
    } else {
      assert (a + b)[..|a + b| - 1] == a + b[..|b| - 1];
      TouchAllAppend(m, a, b[..|b| - 1]);
    }
  }

  lemma TouchAtMostOne(m: Member, patches: seq<Patch>)
    requires |patches| <= 1
    ensures TouchAll(m, patches) == if patches == [] then m else Touch(m, patches[0])
  {
    if patches != [] {
      assert patches[..0] == [];
    }
  }

  lemma {:induction false} TouchOthers(m: Member, patches: seq<Patch>)
    requires forall p :: p in patches ==> p.subject != m.id
    ensures TouchAll(m, patches) == m
  {
    if patches != [] {
      TouchOthers(m, patches[..|patches| - 1]);
    }
  }

  /** At most one patch, of one field of one object. */
  predicate OneField(patches: seq<Patch>, id: string, field: Field) {
    |patches| <= 1 && (patches != [] ==> patches[0].Property? && patches[0].subject == id && patches[0].field == field)
  }

  lemma TouchField(m: Member, ps: seq<Patch>)
    requires |ps| <= 1
    ensures OneField(ps, m.id, DeactivatedAt) ==> TouchAll(m, ps) == m.(deactivatedAt := if ps == [] then m.deactivatedAt else ps[0].after)
    ensures OneField(ps, m.id, Features) ==> TouchAll(m, ps) == m.(features := if ps == [] then m.features else ps[0].after)
    ensures OneField(ps, m.id, ApiKeys) ==> TouchAll(m, ps) == m.(apiKeys := if ps == [] then m.apiKeys else ps[0].after)
  {
    TouchAtMostOne(m, ps);
  }

  lemma TouchFlags(m: Member, ps: seq<Patch>)
    requires |ps| <= 1 && (ps != [] ==> ps[0].LineageFlags? && ps[0].subject == m.id)
    ensures TouchAll(m, ps) == m.(flags := if ps == [] then m.flags else ps[0].flagsAfter)
  {
    TouchAtMostOne(m, ps);
  }

  lemma TouchChain(m: Member, a: seq<Patch>, m1: Member, b: seq<Patch>, m2: Member)
    requires TouchAll(m, a) == m1 && TouchAll(m1, b) == m2
    ensures TouchAll(m, a + b) == m2
  {
    TouchAllAppend(m, a, b);
  }

  lemma AgentPatches(m: Member, a: seq<Patch>, b: seq<Patch>, c: seq<Patch>, d: seq<Patch>)
    requires OneField(a, m.id, DeactivatedAt) && OneField(c, m.id, Features) && OneField(d, m.id, ApiKeys)
    requires |b| <= 1 && (b != [] ==> b[0].LineageFlags? && b[0].subject == m.id)
    ensures TouchAll(m, a + b + c + d) ==
            m.(deactivatedAt := if a == [] then m.deactivatedAt else a[0].after,
               flags := if b == [] then m.flags else b[0].flagsAfter,
               features := if c == [] then m.features else c[0].after,
               apiKeys := if d == [] then m.apiKeys else d[0].after)
  {
    var m1 := TouchAll(m, a);
    var m2 := TouchAll(m1, b);
    var m3 := TouchAll(m2, c);
    TouchField(m, a);
    TouchFlags(m1, b);
    TouchField(m2, c);
    TouchField(m3, d);
    TouchChain(m, a, m1, b, m2);
    TouchChain(m, a + b, m2, c, m3);
    TouchChain(m, a + b + c, m3, d, TouchAll(m3, d));
  }

  lemma CredentialPatchShape(m: Member, retired: Option<real>)
    ensures OneField(InspectCredentials(m, retired).patches, m.id, ApiKeys)
  {
  }

  lemma PatchesFix(s: Snapshot, m: Member, features: seq<string>, retired: Option<real>, deactivated: Option<real>)
    ensures TouchAll(m, ReadableAgent(s, m, features, retired, deactivated).patches) == FixedAgent(s, m, features, retired, deactivated)
  {
    var intent := AgentIntent(s, m, features, retired, deactivated);
    var a := if retired.Some? && deactivated.None? then PropertyPatch(m.id, DeactivatedAt, Null, Num(retired.value)) else [];
    var b := if intent.flags != m.flags then [LineageFlags(m.id, m.flags, intent.flags)] else [];
    var c := if intent.features != features then PropertyPatch(m.id, Features, Strings(features), Strings(intent.features)) else [];
    var d := InspectCredentials(m, retired).patches;
    if Strings(features) == Strings(intent.features) {
      StringsInjective(features, intent.features);
    }
    CredentialPatchShape(m, retired);
    AgentPatches(m, a, b, c, d);
  }

  // ------------------------------------------------ an agent repaired is repaired

  lemma FeaturesReadBack(s: Snapshot, m: Member, features: seq<string>, retired: Option<real>, deactivated: Option<real>)
    requires StringList(m.features) == Some(features)
    ensures StringList(FixedAgent(s, m, features, retired, deactivated).features)
         == Some(AgentIntent(s, m, features, retired, deactivated).features)
  {
    var intent := AgentIntent(s, m, features, retired, deactivated);
    StringListElements(m.features);
    if intent.features != features {
      if retired.Some? { DropFacts(features, Surface(s).value); }
      StringListRoundTrip(intent.features);
    }
  }

  lemma FlagsReadable(s: Snapshot, m: Member, features: seq<string>, retired: Option<real>, deactivated: Option<real>)
    requires !exists k :: k in m.flags && !m.flags[k].Bool?
    ensures var flags := AgentIntent(s, m, features, retired, deactivated).flags; !exists k :: k in flags && !flags[k].Bool?
  {
  }

  lemma ReadableConverges(t: Snapshot, fixed: Member, intent: Intent, retired: Option<real>, deactivated: Option<real>)
    requires PointerConflicts(t, fixed) == [] && intent.conflicts == [] && fixed.flags == intent.flags
    requires InspectCredentials(fixed, retired) == Findings([], [])
    requires AgentIntent(t, fixed, intent.features, retired, deactivated) == intent
    requires retired.Some? ==> deactivated.Some?
    ensures ReadableAgent(t, fixed, intent.features, retired, deactivated) == Findings([], [])
  {
  }

  lemma ReadableAgentConverges(s: Snapshot, t: Snapshot, m: Member, features: seq<string>, retired: Option<real>, deactivated: Option<real>)
    requires Ledger(t) == Ledger(s) && Surface(t) == Surface(s)
    requires StringList(m.features) == Some(features) && (retired.Some? ==> retired.value >= 0.0)
    requires ReadableAgent(s, m, features, retired, deactivated).conflicts == []
    ensures var fixed, after := FixedAgent(s, m, features, retired, deactivated),
                                if retired.Some? && deactivated.None? then retired else deactivated;
            ReadableAgent(t, fixed, AgentIntent(s, m, features, retired, deactivated).features, retired, after) == Findings([], [])
  {
    var fixed := FixedAgent(s, m, features, retired, deactivated);
    var intent := AgentIntent(s, m, features, retired, deactivated);
    var after := if retired.Some? && deactivated.None? then retired else deactivated;
    IntentConverges(s, t, m, fixed, features, retired, deactivated, after);
    CredentialPatchShape(m, retired);
    CredentialsConverge(m, retired, fixed);
    ReadableConverges(t, fixed, intent, retired, after);
  }

  /** An agent's findings on the repaired state are empty. */
  lemma AgentConverges(s: Snapshot, t: Snapshot, m: Member)
    requires Ledger(t) == Ledger(s) && Surface(t) == Surface(s)
    requires AgentFindings(s, m).conflicts == []
    ensures AgentFindings(t, TouchAll(m, AgentFindings(s, m).patches)) == Findings([], [])
  {
    var features := StringList(m.features).value;
    var retired, deactivated := Timestamp(m.retiredAt).value, Timestamp(m.deactivatedAt).value;
    PatchesFix(s, m, features, retired, deactivated);
    FlagsReadable(s, m, features, retired, deactivated);
    FeaturesReadBack(s, m, features, retired, deactivated);
    ReadableAgentConverges(s, t, m, features, retired, deactivated);
  }
}
