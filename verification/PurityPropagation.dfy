/**
 * The purity propagation pass (src/core/authoring.ts, propagateVerbPurity):
 * an in-place iteration over the polymorphic call graph that ends with the
 * greatest set of verbs closed under the purity rule.
 */
module PurityPropagation {
  import opened Wrappers
  import opened TinyBytecode
  import opened VerbPurity

  /** What one bytecode verb contributes to a pass. */
  datatype Entry = Entry(key: Key, analyzed: Purity, hasPass: bool, calls: Option<seq<CallSite>>, declared: bool)

  /** Possible callees of `pass` in a verb, and of `this:name()` in a verb on an object. */
  datatype CallGraph = CallGraph(pass: Key -> Option<Target>, callees: Key -> map<Key, Target>)

  ghost function GraphOf(objects: Objects, dispatch: Dispatch): CallGraph {
    CallGraph((k: Key) => PassTarget(objects, k.0, k.1), (k: Key) => ThisTargets(objects, dispatch, k.0, k.1))
  }

  // --------------------------------------------------------------- the purity rule

  /** A native callee is trusted by its own mark or by the caller's declaration; a bytecode callee must be marked. */
  predicate TargetPure(t: Target, declared: bool, marked: set<Key>) {
    if t.native then t.markedPure || declared else t.Key() in marked
  }

  predicate AllPure(targets: map<Key, Target>, declared: bool, marked: set<Key>) {
    forall k :: k in targets ==> TargetPure(targets[k], declared, marked)
  }

  predicate SitePure(g: CallGraph, e: Entry, site: CallSite, marked: set<Key>) {
    if site.thisCall then
      var targets := g.callees((e.key.0, site.name));
      targets != map[] && AllPure(targets, e.declared, marked)
    else e.declared
  }

  predicate PassPure(g: CallGraph, e: Entry, marked: set<Key>) {
    e.hasPass ==> g.pass(e.key).Some? && TargetPure(g.pass(e.key).value, e.declared, marked)
  }

  /** When a verb may stay pure, given the verbs marked so far. */
  predicate Rule(g: CallGraph, e: Entry, marked: set<Key>) {
    || e.analyzed == Pure
    || (&& e.calls.Some?
        && PassPure(g, e, marked)
        && forall site :: site in e.calls.value ==> SitePure(g, e, site, marked))
  }

  /** The optimistic start: a verb is marked unless its bytecode is plainly impure; a later entry for a key wins. */
  function Seeds(entries: seq<Entry>): map<Key, bool> {
    if entries == [] then map[]
    else
      var last := entries[|entries| - 1];
      Seeds(entries[..|entries| - 1])[last.key := last.analyzed != Impure]
  }

  function Marked(pure: map<Key, bool>): set<Key> {
    set k | k in pure && pure[k]
  }

  ghost predicate PureClosed(g: CallGraph, entries: seq<Entry>, s: set<Key>) {
    && s <= Marked(Seeds(entries))
    && forall e :: e in entries && e.key in s ==> Rule(g, e, s)
  }

  /** The largest closed set: closed, and containing every closed set. */
  ghost predicate GreatestPure(g: CallGraph, entries: seq<Entry>, s: set<Key>) {
    PureClosed(g, entries, s) && forall t :: PureClosed(g, entries, t) ==> t <= s
  }

  lemma RuleMonotone(g: CallGraph, e: Entry, s: set<Key>, t: set<Key>)
    requires s <= t && Rule(g, e, s)
    ensures Rule(g, e, t)
  {
    if e.analyzed != Pure {
      forall site | site in e.calls.value ensures SitePure(g, e, site, t) {
        assert SitePure(g, e, site, s);
      }
    }
  }

  // ------------------------------------------------------------------ the pass

  method CheckPass(objects: Objects, dispatch: Dispatch, ghost g: CallGraph, e: Entry, marked: set<Key>) returns (ok: bool)
    requires g == GraphOf(objects, dispatch)
    ensures ok == PassPure(g, e, marked)
  {
    if !e.hasPass {
      return true;
    }
    var parent := ResolvePassTarget(objects, e.key.0, e.key.1);
    ok := parent.Some? && TargetPure(parent.value, e.declared, marked);
  }

  /** Callees of each call site: what the pass caches, since the class graph is fixed while it runs. */
  method SiteTargets(objects: Objects, dispatch: Dispatch, ghost g: CallGraph, definer: ObjRef, calls: seq<CallSite>)
    returns (targets: seq<map<Key, Target>>)
    requires g == GraphOf(objects, dispatch)
    ensures |targets| == |calls|
    ensures forall i :: 0 <= i < |calls| ==> targets[i] == g.callees((definer, calls[i].name))
  {
    targets := [];
    for i := 0 to |calls|
      invariant |targets| == i
      invariant forall k :: 0 <= k < i ==> targets[k] == g.callees((definer, calls[k].name))
    {
      var found := CollectThisCallTargets(objects, dispatch, definer, calls[i].name);
      targets := targets + [found];
    }
  }

  method CheckSites(ghost g: CallGraph, e: Entry, calls: seq<CallSite>, targets: seq<map<Key, Target>>, marked: set<Key>) returns (ok: bool)
    requires |targets| == |calls|
    requires forall i :: 0 <= i < |calls| ==> targets[i] == g.callees((e.key.0, calls[i].name))
    ensures ok == forall site :: site in calls ==> SitePure(g, e, site, marked)
  {
    for i := 0 to |calls|
      invariant forall k :: 0 <= k < i ==> SitePure(g, e, calls[k], marked)
    {
      ok := if calls[i].thisCall then targets[i] != map[] && AllPure(targets[i], e.declared, marked) else e.declared;
      if !ok {
        assert !SitePure(g, e, calls[i], marked);
        return;
      }
    }
    ok := true;
  }

  /** One verb's check: its recorded calls exist, and every callee it may reach is pure. */
  method StillPure(objects: Objects, dispatch: Dispatch, ghost g: CallGraph, e: Entry, marked: set<Key>) returns (ok: bool)
    requires g == GraphOf(objects, dispatch) && e.analyzed != Pure
    ensures ok == Rule(g, e, marked)
  {
    ok := false;
    if e.calls.Some? {
      ok := CheckPass(objects, dispatch, g, e, marked);
      if ok {
        var targets := SiteTargets(objects, dispatch, g, e.key.0, e.calls.value);
        ok := CheckSites(g, e, e.calls.value, targets, marked);
      }
    }
  }

  /** Poison verbs until a whole sweep finds nothing to poison. */
  method Stabilize(objects: Objects, dispatch: Dispatch, ghost g: CallGraph, entries: seq<Entry>) returns (pure: map<Key, bool>)
    requires g == GraphOf(objects, dispatch)
    ensures GreatestPure(g, entries, Marked(pure))
  {
    pure := Seeds(entries);
    var again := true;
    while again
      invariant Bounds(g, entries, pure)
      invariant !again ==> PureClosed(g, entries, Marked(pure))
      decreases Marked(pure), again
    {
      again := false;
      ghost var before := pure;
      for i := 0 to |entries|
        invariant Bounds(g, entries, pure) && Marked(pure) <= Marked(before)
        invariant again ==> Marked(pure) < Marked(before)
        invariant !again ==> pure == before && forall k :: 0 <= k < i && entries[k].key in Marked(pure) ==> Rule(g, entries[k], Marked(pure))
      {
        var e := entries[i];
        if e.key in pure && pure[e.key] && e.analyzed != Pure {
          var ok := StillPure(objects, dispatch, g, e, Marked(pure));
          if !ok {
            PoisonStep(g, entries, pure, e);
            pure := pure[e.key := false];
            again := true;
          }
        }
      }
    }
  }

  /** Nothing outside the seeds is marked, and no closed set has lost a member. */
  ghost predicate Bounds(g: CallGraph, entries: seq<Entry>, pure: map<Key, bool>) {
    && Marked(pure) <= Marked(Seeds(entries))
    && forall t :: PureClosed(g, entries, t) ==> t <= Marked(pure)
  }

  lemma PoisonStep(g: CallGraph, entries: seq<Entry>, pure: map<Key, bool>, e: Entry)
    requires Bounds(g, entries, pure) && e in entries && e.key in Marked(pure) && !Rule(g, e, Marked(pure))
    ensures Bounds(g, entries, pure[e.key := false])
    ensures Marked(pure[e.key := false]) == Marked(pure) - {e.key}
  {
    forall t | PureClosed(g, entries, t) ensures t <= Marked(pure) - {e.key} {
      if e.key in t {
        RuleMonotone(g, e, t, Marked(pure));
      }
    }
  }

  // -------------------------------------------------------------- order of visits

  ghost predicate UniqueKeys(entries: seq<Entry>) {
    forall i, j :: 0 <= i < j < |entries| ==> entries[i].key != entries[j].key
  }

  /** With unique keys, the verbs marked at the start are those whose entry is not impure. */
  lemma {:induction false} SeededIff(entries: seq<Entry>, k: Key)
    requires UniqueKeys(entries)
    ensures k in Marked(Seeds(entries)) <==> exists e :: e in entries && e.key == k && e.analyzed != Impure
  {
    if entries != [] {
      var init, last := entries[..|entries| - 1], entries[|entries| - 1];
      assert entries == init + [last];
      SeededIff(init, k);
    }
  }

  lemma {:induction false} OnceEach(entries: seq<Entry>, e: Entry)
    requires UniqueKeys(entries)
    ensures multiset(entries)[e] <= 1
  {
    if entries != [] {
      var init, last := entries[..|entries| - 1], entries[|entries| - 1];
      assert entries == init + [last];
      OnceEach(init, e);
      if e == last { assert e !in init; }
    }
  }

  lemma TwiceThere(entries: seq<Entry>, i: nat, j: nat)
    requires i < j < |entries| && entries[i] == entries[j]
    ensures multiset(entries)[entries[i]] >= 2
  {
    assert entries == entries[..j] + entries[j..];
    assert entries[i] in entries[..j] && entries[j] in entries[j..];
  }

  lemma ReorderedUnique(entries: seq<Entry>, reordered: seq<Entry>)
    requires UniqueKeys(entries) && multiset(reordered) == multiset(entries)
    ensures UniqueKeys(reordered) && forall e :: e in reordered <==> e in entries
  {
    forall e ensures e in reordered <==> e in entries {
      assert e in multiset(reordered) <==> e in multiset(entries);
    }
    forall i, j | 0 <= i < j < |reordered| ensures reordered[i].key != reordered[j].key {
      var a, b := reordered[i], reordered[j];
      assert a in entries && b in entries;
      if a == b {
        TwiceThere(reordered, i, j);
        OnceEach(entries, a);
      }
    }
  }

  lemma ReorderedClosed(g: CallGraph, entries: seq<Entry>, reordered: seq<Entry>, s: set<Key>)
    requires UniqueKeys(entries) && UniqueKeys(reordered) && forall e :: e in reordered <==> e in entries
    ensures PureClosed(g, entries, s) <==> PureClosed(g, reordered, s)
  {
    forall k ensures k in Marked(Seeds(entries)) <==> k in Marked(Seeds(reordered)) {
      SeededIff(entries, k);
      SeededIff(reordered, k);
    }
  }

  /** The order in which verbs are visited does not matter: the greatest set is the same for every reordering. */
  lemma OrderDoesNotMatter(g: CallGraph, entries: seq<Entry>, reordered: seq<Entry>, s: set<Key>)
    requires UniqueKeys(entries) && multiset(reordered) == multiset(entries)
    ensures GreatestPure(g, entries, s) <==> GreatestPure(g, reordered, s)
  {
    ReorderedUnique(entries, reordered);
    forall t ensures PureClosed(g, entries, t) <==> PureClosed(g, reordered, t) {
      ReorderedClosed(g, entries, reordered, t);
    }
  }

  // ------------------------------------------------------- snapshot and commit

  function VerbEntry(builtins: Builtins, ref: ObjRef, verb: Verb): seq<Entry> {
    if verb.native then []
    else [Entry((ref, verb.name), Analysis(builtins, verb.bytecode), HasPass(verb.bytecode), verb.calls, verb.declared)]
  }

  function ObjectEntries(builtins: Builtins, ref: ObjRef, verbs: seq<Verb>): seq<Entry> {
    if verbs == [] then []
    else ObjectEntries(builtins, ref, verbs[..|verbs| - 1]) + VerbEntry(builtins, ref, verbs[|verbs| - 1])
  }

  /** Every bytecode verb of the listed objects, in order. */
  function Entries(builtins: Builtins, objects: Objects, order: seq<ObjRef>): seq<Entry> {
    if order == [] then []
    else
      var ref := order[|order| - 1];
      Entries(builtins, objects, order[..|order| - 1])
      + if ref in objects then ObjectEntries(builtins, ref, objects[ref].verbs) else []
  }

  ghost predicate EntryOf(builtins: Builtins, ref: ObjRef, verb: Verb, e: Entry) {
    && !verb.native && e.key == (ref, verb.name) && e.calls == verb.calls && e.declared == verb.declared
    && (e.analyzed == Impure <==> verb.bytecode.Some? && exists op :: op in verb.bytecode.value.ops && ChangesState(builtins, op))
    && (e.analyzed == Pure <==> verb.bytecode.Some? && forall op :: op in verb.bytecode.value.ops ==> Harmless(builtins, op))
    && (e.hasPass <==> verb.bytecode.Some? && exists op :: op in verb.bytecode.value.ops && op.code == PASS)
  }

  /** A row that writes a property or its definition, shows something, or names a builtin that does. */
  ghost predicate ChangesState(builtins: Builtins, op: Op) {
    || op.code in {SET_PROP, SET_PROP_INFO, DEFINE_PROP, UNDEFINE_PROP, OBSERVE, EMIT}
    || (op.code == BUILTIN && exists b :: b in builtins.impure && Names(builtins, op, b))
  }

  /** A row that neither does that nor calls what cannot be seen from it. */
  ghost predicate Harmless(builtins: Builtins, op: Op) {
    && !ChangesState(builtins, op) && op.code != CALL_VERB && op.code != PASS
    && (op.code == BUILTIN ==> exists b :: Names(builtins, op, b))
  }

  /** The row's first cell is the builtin's name or its number. */
  ghost predicate Names(builtins: Builtins, op: Op, b: string) {
    && b != "" && |op.operands| > 0
    && (op.operands[0] == Text(b)
        || (op.operands[0].Num? && 0 <= op.operands[0].n < |builtins.names| && builtins.names[op.operands[0].n] == b))
  }

  lemma RowsByKind(builtins: Builtins, op: Op)
    ensures RowImpure(builtins, op) <==> ChangesState(builtins, op)
    ensures Harmless(builtins, op) <==> !RowImpure(builtins, op) && !RowOpaque(builtins, op)
  {
    var name := BuiltinName(builtins, op);
    if name.Some? { assert Names(builtins, op, name.value); }
    assert forall b :: Names(builtins, op, b) ==> name == Some(b);
  }

  lemma EntryIsOf(builtins: Builtins, ref: ObjRef, verb: Verb, e: Entry)
    ensures e in VerbEntry(builtins, ref, verb) <==> EntryOf(builtins, ref, verb, e)
  {
    forall op ensures (RowImpure(builtins, op) <==> ChangesState(builtins, op))
                   && (Harmless(builtins, op) <==> !RowImpure(builtins, op) && !RowOpaque(builtins, op)) {
      RowsByKind(builtins, op);
    }
  }

  lemma {:induction false} ObjectEntriesExactly(builtins: Builtins, ref: ObjRef, verbs: seq<Verb>, e: Entry)
    ensures e in ObjectEntries(builtins, ref, verbs) <==> exists v :: v in verbs && EntryOf(builtins, ref, v, e)
  {
    if verbs != [] {
      var init, last := verbs[..|verbs| - 1], verbs[|verbs| - 1];
      ObjectEntriesExactly(builtins, ref, init, e);
      EntryIsOf(builtins, ref, last, e);
      assert verbs == init + [last];
    }
  }

  /** A pass looks at exactly the bytecode verbs of the listed objects, each with what its code and its record say. */
  lemma {:induction false} EntriesExactly(builtins: Builtins, objects: Objects, order: seq<ObjRef>, e: Entry)
    ensures e in Entries(builtins, objects, order) <==>
            exists ref, v :: ref in order && ref in objects && v in objects[ref].verbs && EntryOf(builtins, ref, v, e)
  {
    if order != [] {
      var init, ref := order[..|order| - 1], order[|order| - 1];
      EntriesExactly(builtins, objects, init, e);
      assert order == init + [ref];
      if ref in objects { ObjectEntriesExactly(builtins, ref, objects[ref].verbs, e); }
    }
  }

  /** Rewrite the purity flag of the first own verb with a name, if it is bytecode. */
  function WithFlag(objects: Objects, key: Key, pure: bool): Objects {
    if key.0 !in objects then objects
    else match FirstNamed(objects[key.0].verbs, key.1)
      case None => objects
      case Some(k) =>
        var obj := objects[key.0];
        if obj.verbs[k].native then objects
        else objects[key.0 := obj.(verbs := obj.verbs[k := obj.verbs[k].(pure := pure)])]
  }

  function Commit(objects: Objects, entries: seq<Entry>, marked: set<Key>): Objects {
    if entries == [] then objects
    else
      var key := entries[|entries| - 1].key;
      WithFlag(Commit(objects, entries[..|entries| - 1], marked), key, key in marked)
  }

  /** The same classes and verbs, up to the purity flags of bytecode verbs. */
  ghost predicate SameVerb(a: Verb, b: Verb) {
    a == b || (!a.native && a.(pure := b.pure) == b)
  }

  ghost predicate SameShape(a: Objects, b: Objects) {
    && a.Keys == b.Keys
    && forall r :: r in a ==> SameObject(a[r], b[r])
  }

  ghost predicate SameObject(a: Obj, b: Obj) {
    && a.parent == b.parent && a.children == b.children && |a.verbs| == |b.verbs|
    && forall i :: 0 <= i < |a.verbs| ==> SameVerb(a.verbs[i], b.verbs[i])
  }

  lemma {:induction false} FirstNamedSame(a: seq<Verb>, b: seq<Verb>, name: string)
    requires |a| == |b| && forall i :: 0 <= i < |a| ==> SameVerb(a[i], b[i])
    ensures FirstNamed(a, name) == FirstNamed(b, name)
  {
    if a != [] {
      FirstNamedSame(a[1..], b[1..], name);
    }
  }

  lemma OwnVerbSame(a: Objects, b: Objects, ref: ObjRef, name: string)
    requires SameShape(a, b)
    ensures OwnVerb(a, ref, name) == OwnVerb(b, ref, name)
  {
    if ref in a {
      assert SameObject(a[ref], b[ref]);
      FirstNamedSame(a[ref].verbs, b[ref].verbs, name);
      var k := FirstNamed(a[ref].verbs, name);
      if k.Some? {
        assert SameVerb(a[ref].verbs[k.value], b[ref].verbs[k.value]);
      }
    }
  }

  lemma {:induction false} ChildPathSame(a: Objects, b: Objects, root: ObjRef, path: seq<ObjRef>)
    requires SameShape(a, b) && ChildPath(a, root, path)
    ensures ChildPath(b, root, path)
  {
    if |path| > 1 {
      ChildPathSame(a, b, root, path[..|path| - 1]);
      var p := path[|path| - 2];
      assert p in a ==> SameObject(a[p], b[p]);
    }
  }

  lemma DescendsSame(a: Objects, b: Objects, root: ObjRef, d: ObjRef)
    requires SameShape(a, b)
    ensures Descends(a, root, d) ==> Descends(b, root, d)
  {
    if Descends(a, root, d) {
      var path :| ChildPath(a, root, path) && path[|path| - 1] == d;
      ChildPathSame(a, b, root, path);
    }
  }

  lemma {:induction false} ClimbSame(a: Objects, b: Objects, cursor: Option<ObjRef>, name: string, seen: set<ObjRef>)
    requires SameShape(a, b)
    ensures Climb(a, cursor, name, seen) == Climb(b, cursor, name, seen)
    decreases a.Keys - seen
  {
    if cursor.Some? && cursor.value !in seen && cursor.value in a {
      OwnVerbSame(a, b, cursor.value, name);
      assert SameObject(a[cursor.value], b[cursor.value]);
      ClimbSame(a, b, a[cursor.value].parent, name, seen + {cursor.value});
    }
  }

  lemma SameOverrides(a: Objects, b: Objects, name: string, refs: set<ObjRef>)
    requires SameShape(a, b)
    ensures Overrides(a, name, refs) == Overrides(b, name, refs)
  {
    forall d | d in refs ensures OwnVerb(a, d, name) == OwnVerb(b, d, name) {
      OwnVerbSame(a, b, d, name);
    }
  }

  lemma CalleesSame(a: Objects, b: Objects, dispatch: Dispatch, key: Key)
    requires SameShape(a, b) && SameShape(b, a)
    ensures GraphOf(a, dispatch).pass(key) == GraphOf(b, dispatch).pass(key)
    ensures GraphOf(a, dispatch).callees(key) == GraphOf(b, dispatch).callees(key)
  {
    if key.0 in a {
      assert SameObject(a[key.0], b[key.0]);
      ClimbSame(a, b, a[key.0].parent, key.1, {});
    }
    var da := set d | d in a && d != key.0 && Descends(a, key.0, d);
    var db := set d | d in b && d != key.0 && Descends(b, key.0, d);
    forall d ensures d in da <==> d in db {
      DescendsSame(a, b, key.0, d);
      DescendsSame(b, a, key.0, d);
    }
    assert da == db;
    SameOverrides(a, b, key.1, da);
  }

  /** Rewriting flags changes nothing the pass looks at. */
  lemma FlagKeepsShape(objects: Objects, key: Key, pure: bool)
    ensures SameShape(objects, WithFlag(objects, key, pure)) && SameShape(WithFlag(objects, key, pure), objects)
  {
    var after := WithFlag(objects, key, pure);
    forall r | r in objects ensures SameObject(objects[r], after[r]) && SameObject(after[r], objects[r]) {
    }
  }

  lemma ShapeTransitive(a: Objects, b: Objects, c: Objects)
    requires SameShape(a, b) && SameShape(b, c)
    ensures SameShape(a, c)
  {
    forall r | r in a ensures SameObject(a[r], c[r]) {
      assert SameObject(a[r], b[r]) && SameObject(b[r], c[r]);
      forall i | 0 <= i < |a[r].verbs| ensures SameVerb(a[r].verbs[i], c[r].verbs[i]) {
        assert SameVerb(a[r].verbs[i], b[r].verbs[i]) && SameVerb(b[r].verbs[i], c[r].verbs[i]);
      }
    }
  }

  lemma {:induction false} CommitKeepsShape(objects: Objects, entries: seq<Entry>, marked: set<Key>)
    ensures SameShape(objects, Commit(objects, entries, marked)) && SameShape(Commit(objects, entries, marked), objects)
  {
    if entries == [] {
      assert forall r :: r in objects ==> SameObject(objects[r], objects[r]);
    } else {
      var init, last := entries[..|entries| - 1], entries[|entries| - 1];
      CommitKeepsShape(objects, init, marked);
      var mid := Commit(objects, init, marked);
      FlagKeepsShape(mid, last.key, last.key in marked);
      ShapeTransitive(objects, mid, Commit(objects, entries, marked));
      ShapeTransitive(Commit(objects, entries, marked), mid, objects);
    }
  }

  lemma {:induction false} ObjectEntriesSame(builtins: Builtins, ref: ObjRef, a: seq<Verb>, b: seq<Verb>)
    requires |a| == |b| && forall i :: 0 <= i < |a| ==> SameVerb(a[i], b[i])
    ensures ObjectEntries(builtins, ref, a) == ObjectEntries(builtins, ref, b)
  {
    if a != [] {
      ObjectEntriesSame(builtins, ref, a[..|a| - 1], b[..|b| - 1]);
      assert SameVerb(a[|a| - 1], b[|a| - 1]);
    }
  }

  lemma {:induction false} EntriesSame(builtins: Builtins, a: Objects, b: Objects, order: seq<ObjRef>)
    requires SameShape(a, b)
    ensures Entries(builtins, a, order) == Entries(builtins, b, order)
  {
    if order != [] {
      EntriesSame(builtins, a, b, order[..|order| - 1]);
      var ref := order[|order| - 1];
      if ref in a {
        assert SameObject(a[ref], b[ref]);
        ObjectEntriesSame(builtins, ref, a[ref].verbs, b[ref].verbs);
      }
    }
  }

  lemma ClosedSame(a: CallGraph, b: CallGraph, entries: seq<Entry>, s: set<Key>)
    requires forall k :: a.pass(k) == b.pass(k) && a.callees(k) == b.callees(k)
    requires PureClosed(a, entries, s)
    ensures PureClosed(b, entries, s)
  {
    forall e | e in entries && e.key in s ensures Rule(b, e, s) {
      if e.analyzed != Pure {
        assert PassPure(a, e, s) && a.pass(e.key) == b.pass(e.key);
        forall site | site in e.calls.value ensures SitePure(b, e, site, s) {
          assert SitePure(a, e, site, s) && a.callees((e.key.0, site.name)) == b.callees((e.key.0, site.name));
        }
      }
    }
  }

  /** The greatest closed set depends on the shape of the classes only, not on flags already written. */
  lemma GreatestSame(a: Objects, b: Objects, dispatch: Dispatch, entries: seq<Entry>, s: set<Key>, t: set<Key>)
    requires SameShape(a, b) && SameShape(b, a)
    requires GreatestPure(GraphOf(a, dispatch), entries, s) && GreatestPure(GraphOf(b, dispatch), entries, t)
    ensures s == t
  {
    var ga, gb := GraphOf(a, dispatch), GraphOf(b, dispatch);
    forall k ensures ga.pass(k) == gb.pass(k) && ga.callees(k) == gb.callees(k) {
      CalleesSame(a, b, dispatch, k);
    }
    ClosedSame(ga, gb, entries, s);
    ClosedSame(gb, ga, entries, t);
  }

  // ---------------------------------------------------------- the committed flags

  /** Every first-named bytecode verb with an entry carries its mark; every other verb is untouched. */
  ghost predicate Committed(before: Objects, after: Objects, keys: set<Key>, marked: set<Key>) {
    && before.Keys == after.Keys
    && forall r :: r in before ==> ObjectCommitted(before[r], after[r], r, keys, marked)
  }

  ghost predicate ObjectCommitted(before: Obj, after: Obj, r: ObjRef, keys: set<Key>, marked: set<Key>) {
    && after.parent == before.parent && after.children == before.children
    && |after.verbs| == |before.verbs|
    && forall i :: 0 <= i < |before.verbs| ==> after.verbs[i] == Flagged(before, r, i, keys, marked)
  }

  ghost function Flagged(obj: Obj, r: ObjRef, i: nat, keys: set<Key>, marked: set<Key>): Verb
    requires i < |obj.verbs|
  {
    var v := obj.verbs[i];
    if !v.native && FirstNamed(obj.verbs, v.name) == Some(i) && (r, v.name) in keys then v.(pure := (r, v.name) in marked) else v
  }

  function KeysOf(entries: seq<Entry>): set<Key> {
    set e | e in entries :: e.key
  }

  lemma OtherObjectKeepsFlags(before: Obj, after: Obj, r: ObjRef, keys: set<Key>, marked: set<Key>, key: Key)
    requires ObjectCommitted(before, after, r, keys, marked)
    requires key.0 != r || FirstNamed(before.verbs, key.1).None? || before.verbs[FirstNamed(before.verbs, key.1).value].native
    ensures ObjectCommitted(before, after, r, keys + {key}, marked)
  {
    forall i | 0 <= i < |before.verbs| ensures Flagged(before, r, i, keys + {key}, marked) == Flagged(before, r, i, keys, marked) {
    }
  }

  lemma OneVerbFlagged(before: Obj, after: Obj, r: ObjRef, keys: set<Key>, marked: set<Key>, name: string, k: nat)
    requires ObjectCommitted(before, after, r, keys, marked)
    requires FirstNamed(before.verbs, name) == Some(k) && !before.verbs[k].native
    ensures ObjectCommitted(before, after.(verbs := after.verbs[k := after.verbs[k].(pure := (r, name) in marked)]), r, keys + {(r, name)}, marked)
  {
    forall i | 0 <= i < |before.verbs| && i != k
      ensures Flagged(before, r, i, keys + {(r, name)}, marked) == Flagged(before, r, i, keys, marked)
    {
    }
    assert after.verbs[k] == Flagged(before, r, k, keys, marked);
  }

  lemma FlagCommits(before: Objects, mid: Objects, keys: set<Key>, marked: set<Key>, key: Key)
    requires Committed(before, mid, keys, marked) && SameShape(before, mid)
    ensures Committed(before, WithFlag(mid, key, key in marked), keys + {key}, marked)
  {
    var after := WithFlag(mid, key, key in marked);
    forall r | r in before ensures ObjectCommitted(before[r], after[r], r, keys + {key}, marked) {
      assert SameObject(before[r], mid[r]) && ObjectCommitted(before[r], mid[r], r, keys, marked);
      FirstNamedSame(before[r].verbs, mid[r].verbs, key.1);
      var k := FirstNamed(before[r].verbs, key.1);
      if k.Some? { assert SameVerb(before[r].verbs[k.value], mid[r].verbs[k.value]); }
      if key.0 == r && k.Some? && !before[r].verbs[k.value].native {
        OneVerbFlagged(before[r], mid[r], r, keys, marked, key.1, k.value);
      } else {
        OtherObjectKeepsFlags(before[r], mid[r], r, keys, marked, key);
      }
    }
  }

  lemma {:induction false} CommitFlags(objects: Objects, entries: seq<Entry>, marked: set<Key>)
    ensures Committed(objects, Commit(objects, entries, marked), KeysOf(entries), marked)
  {
    if entries == [] {
      assert forall r :: r in objects ==> ObjectCommitted(objects[r], objects[r], r, {}, marked);
    } else {
      var init, last := entries[..|entries| - 1], entries[|entries| - 1];
      CommitFlags(objects, init, marked);
      CommitKeepsShape(objects, init, marked);
      FlagCommits(objects, Commit(objects, init, marked), KeysOf(init), marked, last.key);
      assert KeysOf(entries) == KeysOf(init) + {last.key};
    }
  }

  /** The verb a commit would rewrite for this key already carries its mark. */
  ghost predicate Agrees(objects: Objects, key: Key, marked: set<Key>) {
    key.0 in objects ==>
      match FirstNamed(objects[key.0].verbs, key.1)
      case None => true
      case Some(k) => objects[key.0].verbs[k].native || objects[key.0].verbs[k].pure == (key in marked)
  }

  lemma AgreeingFlagKept(objects: Objects, key: Key, marked: set<Key>)
    requires Agrees(objects, key, marked)
    ensures WithFlag(objects, key, key in marked) == objects
  {
    if key.0 in objects && FirstNamed(objects[key.0].verbs, key.1).Some? {
      var obj, k := objects[key.0], FirstNamed(objects[key.0].verbs, key.1).value;
      if !obj.verbs[k].native {
        assert obj.verbs[k := obj.verbs[k].(pure := key in marked)] == obj.verbs;
      }
    }
  }

  lemma CommitAgrees(objects: Objects, entries: seq<Entry>, marked: set<Key>, e: Entry)
    requires e in entries
    ensures Agrees(Commit(objects, entries, marked), e.key, marked)
  {
    var after, r := Commit(objects, entries, marked), e.key.0;
    CommitFlags(objects, entries, marked);
    CommitKeepsShape(objects, entries, marked);
    if r in objects {
      assert SameObject(objects[r], after[r]) && ObjectCommitted(objects[r], after[r], r, KeysOf(entries), marked);
      FirstNamedSame(objects[r].verbs, after[r].verbs, e.key.1);
      var k := FirstNamed(objects[r].verbs, e.key.1);
      if k.Some? {
        assert after[r].verbs[k.value] == Flagged(objects[r], r, k.value, KeysOf(entries), marked);
        assert e.key in KeysOf(entries);
      }
    }
  }

  /** An immediate second pass computes the same marks and finds every flag already written. */
  lemma SecondPassChangesNothing(
    builtins: Builtins, objects: Objects, order: seq<ObjRef>, dispatch: Dispatch, first: set<Key>, second: set<Key>)
    requires GreatestPure(GraphOf(objects, dispatch), Entries(builtins, objects, order), first)
    requires var after := Commit(objects, Entries(builtins, objects, order), first);
             GreatestPure(GraphOf(after, dispatch), Entries(builtins, after, order), second)
    ensures first == second
    ensures var after := Commit(objects, Entries(builtins, objects, order), first);
            forall e :: e in Entries(builtins, after, order) ==> Agrees(after, e.key, second)
  {
    var entries := Entries(builtins, objects, order);
    var after := Commit(objects, entries, first);
    CommitKeepsShape(objects, entries, first);
    EntriesSame(builtins, objects, after, order);
    GreatestSame(objects, after, dispatch, entries, first, second);
    forall e | e in entries ensures Agrees(after, e.key, second) {
      CommitAgrees(objects, entries, first, e);
    }
  }

  // ------------------------------------------------------------- soundness of marks

  /** A call edge between bytecode verbs: a `pass`, or one possible callee of a `this` call. */
  ghost predicate Invokes(g: CallGraph, e: Entry, callee: Key) {
    && e.analyzed != Pure
    && (|| (e.hasPass && g.pass(e.key).Some? && !g.pass(e.key).value.native && g.pass(e.key).value.Key() == callee)
        || (e.calls.Some? && exists site :: site in e.calls.value && SiteInvokes(g, e, site, callee)))
  }

  ghost predicate SiteInvokes(g: CallGraph, e: Entry, site: CallSite, callee: Key) {
    var targets := g.callees((e.key.0, site.name));
    site.thisCall && exists k :: k in targets && !targets[k].native && targets[k].Key() == callee
  }

  /** A chain of calls through the listed verbs. */
  ghost predicate CallChain(g: CallGraph, entries: seq<Entry>, chain: seq<Key>) {
    && |chain| > 0
    && (|chain| > 1 ==>
          && CallChain(g, entries, chain[..|chain| - 1])
          && exists e :: e in entries && e.key == chain[|chain| - 2] && Invokes(g, e, chain[|chain| - 1]))
  }

  lemma {:induction false} SeedMember(entries: seq<Entry>, e: Entry)
    requires e in entries && forall i, j :: 0 <= i < j < |entries| ==> entries[i].key != entries[j].key
    ensures e.key in Seeds(entries) && Seeds(entries)[e.key] == (e.analyzed != Impure)
  {
    var init, last := entries[..|entries| - 1], entries[|entries| - 1];
    if e != last {
      assert e in init;
      SeedMember(init, e);
    }
  }

  /**
   * A verb the pass leaves marked never reaches an impure bytecode verb: every
   * verb on every chain of `pass` and `this` calls from it is marked too, and
   * (verb names being unique on each object) none of them has impure bytecode.
   */
  lemma {:induction false} MarkedReachesOnlyPure(g: CallGraph, entries: seq<Entry>, marked: set<Key>, chain: seq<Key>)
    requires PureClosed(g, entries, marked) && CallChain(g, entries, chain) && chain[0] in marked
    ensures chain[|chain| - 1] in marked && chain[|chain| - 1] in Marked(Seeds(entries))
    ensures (forall i, j :: 0 <= i < j < |entries| ==> entries[i].key != entries[j].key) ==>
              forall e :: e in entries && e.key == chain[|chain| - 1] ==> e.analyzed != Impure
  {
    if |chain| > 1 {
      MarkedReachesOnlyPure(g, entries, marked, chain[..|chain| - 1]);
      var callee := chain[|chain| - 1];
      var e :| e in entries && e.key == chain[|chain| - 2] && Invokes(g, e, callee);
      assert Rule(g, e, marked);
      if e.calls.Some? && exists site :: site in e.calls.value && SiteInvokes(g, e, site, callee) {
        var site :| site in e.calls.value && SiteInvokes(g, e, site, callee);
        assert SitePure(g, e, site, marked);
      }
    }
    if forall i, j :: 0 <= i < j < |entries| ==> entries[i].key != entries[j].key {
      forall e | e in entries && e.key == chain[|chain| - 1] ensures e.analyzed != Impure {
        SeedMember(entries, e);
      }
    }
  }

  // -------------------------------------------------------------------- the world

  class World {
    var objects: Objects
    const order: seq<ObjRef>
    const dispatch: Dispatch
    const builtins: Builtins

    constructor (objects: Objects, order: seq<ObjRef>, dispatch: Dispatch, builtins: Builtins)
      ensures this.objects == objects && this.order == order && this.dispatch == dispatch && this.builtins == builtins
    {
      this.objects, this.order, this.dispatch, this.builtins := objects, order, dispatch, builtins;
    }

    /** One entry per bytecode verb, in the world's own order. */
    method Snapshot() returns (entries: seq<Entry>)
      ensures entries == Entries(builtins, objects, order)
    {
      entries := [];
      for i := 0 to |order|
        invariant entries == Entries(builtins, objects, order[..i])
      {
        assert order[..i + 1][..i] == order[..i];
        if order[i] in objects {
          var own := OwnEntries(order[i], objects[order[i]].verbs);
          entries := entries + own;
        }
      }
      assert order[..|order|] == order;
    }

    /** The entries of one object's verbs. */
    method OwnEntries(ref: ObjRef, verbs: seq<Verb>) returns (entries: seq<Entry>)
      ensures entries == ObjectEntries(builtins, ref, verbs)
    {
      entries := [];
      for k := 0 to |verbs|
        invariant entries == ObjectEntries(builtins, ref, verbs[..k])
      {
        assert verbs[..k + 1][..k] == verbs[..k];
        if !verbs[k].native {
          var analyzed := AnalyzeBytecodePurity(builtins, verbs[k].bytecode);
          entries := entries + [Entry((ref, verbs[k].name), analyzed, HasPass(verbs[k].bytecode), verbs[k].calls, verbs[k].declared)];
        }
      }
      assert verbs[..|verbs|] == verbs;
    }

    /** Rewrite one verb's flag where it differs. */
    method WriteFlag(key: Key, pure: bool) returns (rewritten: bool)
      modifies this`objects
      ensures objects == if rewritten then WithFlag(old(objects), key, pure) else old(objects)
      ensures forall marked: set<Key> :: (key in marked) == pure ==> (rewritten <==> !Agrees(old(objects), key, marked))
    {
      rewritten := false;
      if key.0 in objects {
        var obj := objects[key.0];
        var own := FirstNamed(obj.verbs, key.1);
        if own.Some? && !obj.verbs[own.value].native && obj.verbs[own.value].pure != pure {
          objects := objects[key.0 := obj.(verbs := obj.verbs[own.value := obj.verbs[own.value].(pure := pure)])];
          rewritten := true;
        }
      }
    }

    /** Write every entry's final mark back to the world, counting the flags that change. */
    method CommitMarks(entries: seq<Entry>, pure: map<Key, bool>) returns (changed: nat)
      modifies this`objects
      ensures objects == Commit(old(objects), entries, Marked(pure))
      ensures changed == 0 <==> forall k :: 0 <= k < |entries| ==> Agrees(old(objects), entries[k].key, Marked(pure))
    {
      changed := 0;
      for i := 0 to |entries|
        invariant objects == Commit(old(objects), entries[..i], Marked(pure))
        invariant changed == 0 ==> objects == old(objects)
        invariant changed == 0 <==> forall k :: 0 <= k < i ==> Agrees(old(objects), entries[k].key, Marked(pure))
      {
        assert entries[..i + 1][..i] == entries[..i];
        var key := entries[i].key;
        var rewritten := WriteFlag(key, key in pure && pure[key]);
        if rewritten {
          changed := changed + 1;
        } else {
          AgreeingFlagKept(objects, key, Marked(pure));
        }
      }
      assert entries[..|entries|] == entries;
    }

    /**
     * The whole pass. Afterwards the flags of the world are those of the
     * greatest set of verbs closed under the purity rule; `changed` is zero
     * exactly when every flag already agreed with it.
     */
    method PropagateVerbPurity() returns (changed: nat, ghost marked: set<Key>)
      modifies this`objects
      ensures GreatestPure(GraphOf(old(objects), dispatch), Entries(builtins, old(objects), order), marked)
      ensures objects == Commit(old(objects), Entries(builtins, old(objects), order), marked)
      ensures changed == 0 <==> forall e :: e in Entries(builtins, old(objects), order) ==> Agrees(old(objects), e.key, marked)
    {
      var entries := Snapshot();
      var pure := Stabilize(objects, dispatch, GraphOf(objects, dispatch), entries);
      marked := Marked(pure);
      changed := CommitMarks(entries, pure);
    }

    /** Run twice, the second pass rewrites nothing. */
    method PropagateAgain() returns (changed: nat)
      modifies this`objects
      ensures changed == 0
    {
      ghost var start := objects;
      var first, again;
      ghost var m1, m2;
      first, m1 := PropagateVerbPurity();
      again, m2 := PropagateVerbPurity();
      SecondPassChangesNothing(builtins, start, order, dispatch, m1, m2);
      changed := again;
    }
  }
}
