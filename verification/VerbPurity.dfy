/**
 * Purity of verbs (src/core/authoring.ts): static classification of one
 * verb's bytecode, and the propagation pass that marks a verb pure only while
 * everything it may call through `this` or `pass` is pure as well.
 */
module VerbPurity {
  import opened Wrappers
  import opened TinyBytecode

  type ObjRef = string

  /** A verb's identity: the object that defines it and its name. */
  type Key = (ObjRef, string)

  datatype Purity = Pure | Impure | Unknown

  datatype CallSite = CallSite(name: string, thisCall: bool)

  /** `calls` is None for a verb compiled before call sites were recorded. */
  datatype Verb = Verb(
    name: string, aliases: seq<string>, native: bool, pure: bool, declared: bool,
    bytecode: Option<Bytecode>, calls: Option<seq<CallSite>>)

  datatype Obj = Obj(parent: Option<ObjRef>, children: seq<ObjRef>, verbs: seq<Verb>)

  type Objects = map<ObjRef, Obj>

  /** A possible callee, with the purity flag that is trusted for native verbs only. */
  datatype Target = Target(definer: ObjRef, name: string, native: bool, markedPure: bool) {
    function Key(): Key { (definer, name) }
  }

  function TargetOf(definer: ObjRef, verb: Verb): Target {
    Target(definer, verb.name, verb.native, verb.native && verb.pure)
  }

  /** The builtin index table and the builtins that change or broadcast state. */
  datatype Builtins = Builtins(names: seq<string>, impure: set<string>)

  // ------------------------------------------------------- one verb's bytecode

  predicate ImpureOpcode(code: Opcode) {
    code.SET_PROP? || code.SET_PROP_INFO? || code.DEFINE_PROP? || code.UNDEFINE_PROP? || code.OBSERVE? || code.EMIT?
  }

  /** The builtin a BUILTIN row names, by index or by name; None when it names nothing. */
  function BuiltinName(builtins: Builtins, op: Op): Option<string> {
    if op.operands == [] then None
    else match op.operands[0]
      case Num(n) => if 0 <= n < |builtins.names| && builtins.names[n] != "" then Some(builtins.names[n]) else None
      case Text(s) => if s != "" then Some(s) else None
      case _ => None
  }

  predicate RowImpure(builtins: Builtins, op: Op) {
    || ImpureOpcode(op.code)
    || (op.code.BUILTIN? && BuiltinName(builtins, op).Some? && BuiltinName(builtins, op).value in builtins.impure)
  }

  predicate RowOpaque(builtins: Builtins, op: Op) {
    op.code.CALL_VERB? || op.code.PASS? || (op.code.BUILTIN? && BuiltinName(builtins, op).None?)
  }

  function Analysis(builtins: Builtins, bytecode: Option<Bytecode>): Purity {
    match bytecode
    case None => Unknown
    case Some(b) =>
      if exists op :: op in b.ops && RowImpure(builtins, op) then Impure
      else if exists op :: op in b.ops && RowOpaque(builtins, op) then Unknown
      else Pure
  }

  /** One scan of the rows, stopping at the first impure one. */
  method AnalyzeBytecodePurity(builtins: Builtins, bytecode: Option<Bytecode>) returns (r: Purity)
    ensures r == Analysis(builtins, bytecode)
  {
    if bytecode.None? {
      return Unknown;
    }
    var ops := bytecode.value.ops;
    var calls := false;
    for i := 0 to |ops|
      invariant forall k :: 0 <= k < i ==> !RowImpure(builtins, ops[k])
      invariant calls <==> exists k :: 0 <= k < i && RowOpaque(builtins, ops[k])
    {
      if RowImpure(builtins, ops[i]) {
        return Impure;
      }
      if RowOpaque(builtins, ops[i]) {
        calls := true;
      }
    }
    r := if calls then Unknown else Pure;
  }

  predicate HasPass(bytecode: Option<Bytecode>) {
    bytecode.Some? && exists op :: op in bytecode.value.ops && op.code.PASS?
  }

  // ---------------------------------------------------------- the class graph

  /** Index of the first own verb with the given name. */
  function FirstNamed(verbs: seq<Verb>, name: string): (r: Option<nat>)
    ensures r.Some? ==> r.value < |verbs| && verbs[r.value].name == name
    ensures r.Some? ==> forall k :: 0 <= k < r.value ==> verbs[k].name != name
    ensures r.None? ==> forall k :: 0 <= k < |verbs| ==> verbs[k].name != name
  {
    if verbs == [] then None
    else if verbs[0].name == name then Some(0)
    else match FirstNamed(verbs[1..], name)
      case Some(k) => Some(k + 1)
      case None => None
  }

  function OwnVerb(objects: Objects, ref: ObjRef, name: string): Option<Target> {
    if ref !in objects then None
    else match FirstNamed(objects[ref].verbs, name)
      case Some(k) => Some(TargetOf(ref, objects[ref].verbs[k]))
      case None => None
  }

  function ChildrenOf(objects: Objects, ref: ObjRef): seq<ObjRef> {
    if ref in objects then objects[ref].children else []
  }

  /** A chain of child links from root to its last element. */
  ghost predicate ChildPath(objects: Objects, root: ObjRef, path: seq<ObjRef>) {
    && |path| > 0
    && if |path| == 1 then path[0] == root
       else ChildPath(objects, root, path[..|path| - 1]) && path[|path| - 1] in ChildrenOf(objects, path[|path| - 2])
  }

  ghost predicate Descends(objects: Objects, root: ObjRef, d: ObjRef) {
    exists path :: ChildPath(objects, root, path) && path[|path| - 1] == d
  }

  ghost predicate ChildClosed(objects: Objects, s: iset<ObjRef>) {
    forall x, y :: x in s && y in ChildrenOf(objects, x) ==> y in s
  }

  lemma DescendantsClosed(objects: Objects, root: ObjRef)
    ensures root in (iset d | Descends(objects, root, d))
    ensures ChildClosed(objects, iset d | Descends(objects, root, d))
  {
    assert ChildPath(objects, root, [root]);
    forall x, y | Descends(objects, root, x) && y in ChildrenOf(objects, x) ensures Descends(objects, root, y) {
      var path :| ChildPath(objects, root, path) && path[|path| - 1] == x;
      assert (path + [y])[..|path|] == path;
      assert ChildPath(objects, root, path + [y]);
    }
  }

  lemma {:induction false} ClosedHoldsPath(objects: Objects, root: ObjRef, s: iset<ObjRef>, path: seq<ObjRef>)
    requires root in s && ChildClosed(objects, s) && ChildPath(objects, root, path)
    ensures path[|path| - 1] in s
  {
    if |path| > 1 {
      ClosedHoldsPath(objects, root, s, path[..|path| - 1]);
    }
  }

  /** Every id the class graph mentions. */
  function Mentioned(objects: Objects): set<ObjRef> {
    set r, c | r in objects && c in objects[r].children :: c
  }

  /**
   * Depth-first walk of the child links. Child links may form cycles and may
   * name objects that are gone; the walk still ends with exactly the proper
   * descendants, each once.
   */
  method DescendantsOf(objects: Objects, root: ObjRef) returns (result: seq<ObjRef>)
    ensures forall d :: d in result <==> d != root && Descends(objects, root, d)
    ensures forall i, j :: 0 <= i < j < |result| ==> result[i] != result[j]
  {
    ghost var reach := iset d | Descends(objects, root, d);
    DescendantsClosed(objects, root);
    result := WalkChildren(objects, root, reach);
    ghost var closed := iset d | d == root || d in result;
    forall d | Descends(objects, root, d) ensures d in closed {
      var path :| ChildPath(objects, root, path) && path[|path| - 1] == d;
      ClosedHoldsPath(objects, root, closed, path);
    }
    assert forall d :: d in result ==> d in reach;
  }

  method WalkChildren(objects: Objects, root: ObjRef, ghost reach: iset<ObjRef>) returns (result: seq<ObjRef>)
    requires root in reach && ChildClosed(objects, reach)
    ensures forall d :: d in result ==> d in reach && d != root
    ensures forall i, j :: 0 <= i < j < |result| ==> result[i] != result[j]
    ensures ChildClosed(objects, iset d | d == root || d in result)
  {
    result := [];
    var visited := {root};
    var stack := ChildrenOf(objects, root);
    while |stack| > 0
      invariant forall x :: x in stack ==> x in reach && x in Mentioned(objects)
      invariant forall x :: x in visited <==> x == root || x in result
      invariant root !in result && forall x :: x in result ==> x in reach
      invariant forall i, j :: 0 <= i < j < |result| ==> result[i] != result[j]
      invariant forall x, y :: x in visited && y in ChildrenOf(objects, x) ==> y in visited || y in stack
      decreases Mentioned(objects) - visited, |stack|
    {
      var id := stack[|stack| - 1];
      stack := stack[..|stack| - 1];
      if id !in visited {
        visited := visited + {id};
        result := result + [id];
        stack := stack + ChildrenOf(objects, id);
      }
    }
  }

  // --------------------------------------------------------- possible callees

  /** Ordinary dispatch from an object: its own chain, then its features. Fixed while a pass runs. */
  type Dispatch = (ObjRef, string) -> Option<Target>

  /** The overrides of a name among the given objects. */
  function Overrides(objects: Objects, name: string, refs: set<ObjRef>): map<Key, Target> {
    map d | d in refs && OwnVerb(objects, d, name).Some? :: (d, name) := OwnVerb(objects, d, name).value
  }

  /** Everything `this:name()` may reach from a verb on `definer`: the inherited verb, and every descendant's override. */
  ghost function ThisTargets(objects: Objects, dispatch: Dispatch, definer: ObjRef, name: string): map<Key, Target> {
    Inherited(dispatch, definer, name)
    + Overrides(objects, name, set d | d in objects && d != definer && Descends(objects, definer, d))
  }

  function Inherited(dispatch: Dispatch, definer: ObjRef, name: string): map<Key, Target> {
    match dispatch(definer, name)
    case Some(t) => map[t.Key() := t]
    case None => map[]
  }

  function Refs(refs: seq<ObjRef>): set<ObjRef> {
    set d | d in refs
  }

  lemma OverridesGrow(objects: Objects, name: string, refs: set<ObjRef>, d: ObjRef, base: map<Key, Target>)
    ensures var own, before := OwnVerb(objects, d, name), base + Overrides(objects, name, refs);
            base + Overrides(objects, name, refs + {d}) == if own.Some? then before[(d, name) := own.value] else before
  {
    OverridesAdd(objects, name, refs, d);
    var own, over := OwnVerb(objects, d, name), Overrides(objects, name, refs);
    if own.Some? { assert base + over[(d, name) := own.value] == (base + over)[(d, name) := own.value]; }
  }

  lemma OverridesAdd(objects: Objects, name: string, refs: set<ObjRef>, d: ObjRef)
    ensures var own, over := OwnVerb(objects, d, name), Overrides(objects, name, refs);
            Overrides(objects, name, refs + {d}) == if own.Some? then over[(d, name) := own.value] else over
  {
  }

  method AddOverrides(objects: Objects, name: string, refs: seq<ObjRef>, base: map<Key, Target>) returns (seen: map<Key, Target>)
    ensures seen == base + Overrides(objects, name, Refs(refs))
  {
    seen := base;
    for i := 0 to |refs|
      invariant seen == base + Overrides(objects, name, Refs(refs[..i]))
    {
      OverridesGrow(objects, name, Refs(refs[..i]), refs[i], base);
      assert Refs(refs[..i + 1]) == Refs(refs[..i]) + {refs[i]};
      var verb := OwnVerb(objects, refs[i], name);
      if verb.Some? {
        seen := seen[(refs[i], name) := verb.value];
      }
    }
    assert refs[..|refs|] == refs;
  }

  method CollectThisCallTargets(objects: Objects, dispatch: Dispatch, definer: ObjRef, name: string) returns (seen: map<Key, Target>)
    ensures seen == ThisTargets(objects, dispatch, definer, name)
    ensures forall k :: k in seen <==>
              || (dispatch(definer, name).Some? && k == dispatch(definer, name).value.Key())
              || (k.1 == name && k.0 != definer && Descends(objects, definer, k.0) && OwnVerb(objects, k.0, name).Some?)
  {
    var descendants := DescendantsOf(objects, definer);
    seen := AddOverrides(objects, name, descendants, Inherited(dispatch, definer, name));
    OverridesOfPresent(objects, name, Refs(descendants), set d | d in objects && d != definer && Descends(objects, definer, d));
  }

  lemma OverridesOfPresent(objects: Objects, name: string, refs: set<ObjRef>, present: set<ObjRef>)
    requires forall d :: d in present <==> d in refs && d in objects
    ensures Overrides(objects, name, refs) == Overrides(objects, name, present)
  {
  }

  /** Climb the parents of an object, never visiting one twice, to the first that defines the name. */
  function Climb(objects: Objects, cursor: Option<ObjRef>, name: string, seen: set<ObjRef>): Option<Target>
    decreases objects.Keys - seen
  {
    if cursor.None? || cursor.value in seen || cursor.value !in objects then None
    else match OwnVerb(objects, cursor.value, name)
      case Some(t) => Some(t)
      case None => Climb(objects, objects[cursor.value].parent, name, seen + {cursor.value})
  }

  function PassTarget(objects: Objects, definer: ObjRef, name: string): Option<Target> {
    if definer !in objects then None else Climb(objects, objects[definer].parent, name, {})
  }

  method ResolvePassTarget(objects: Objects, definer: ObjRef, name: string) returns (r: Option<Target>)
    ensures r == PassTarget(objects, definer, name)
  {
    if definer !in objects {
      return None;
    }
    var cursor := objects[definer].parent;
    var seen: set<ObjRef> := {};
    while cursor.Some? && cursor.value !in seen
      invariant Climb(objects, cursor, name, seen) == PassTarget(objects, definer, name)
      decreases objects.Keys - seen
    {
      if cursor.value !in objects {
        return None;
      }
      var verb := OwnVerb(objects, cursor.value, name);
      if verb.Some? {
        return verb;
      }
      seen := seen + {cursor.value};
      cursor := objects[cursor.value].parent;
    }
    return None;
  }

  /** The k-th parent of an object, while every link on the way resolves. */
  function Ancestor(objects: Objects, ref: ObjRef, k: nat): Option<ObjRef> {
    if k == 0 then Some(ref)
    else match Ancestor(objects, ref, k - 1)
      case Some(a) => if a in objects then objects[a].parent else None
      case None => None
  }

  /** t is the verb `pass` means: on the closest proper ancestor that defines the name. */
  ghost predicate Nearest(objects: Objects, ref: ObjRef, name: string, k: nat, t: Target) {
    && 1 <= k
    && Ancestor(objects, ref, k) == Some(t.definer)
    && OwnVerb(objects, t.definer, name) == Some(t)
    && forall i :: 0 < i < k ==> Ancestor(objects, ref, i).Some? && OwnVerb(objects, Ancestor(objects, ref, i).value, name).None?
  }

  /** What the climb has passed: ancestors that define nothing, whose parents lead to the cursor. */
  ghost predicate Passed(objects: Objects, ref: ObjRef, name: string, j: nat, seen: set<ObjRef>) {
    && 1 <= j
    && (forall s :: s in seen ==> s in objects && OwnVerb(objects, s, name).None?)
    && (forall i :: 0 < i < j ==> Ancestor(objects, ref, i).Some? && Ancestor(objects, ref, i).value in seen)
    && (forall s :: s in seen && objects[s].parent.Some? ==> objects[s].parent.value in seen || objects[s].parent == Ancestor(objects, ref, j))
  }

  /** Once the climb revisits an ancestor, no later ancestor defines the name either. */
  lemma {:induction false} CycleDefinesNothing(objects: Objects, ref: ObjRef, name: string, j: nat, seen: set<ObjRef>, m: nat)
    requires Passed(objects, ref, name, j, seen) && Ancestor(objects, ref, j).Some? && Ancestor(objects, ref, j).value in seen
    requires j <= m && Ancestor(objects, ref, m).Some?
    ensures Ancestor(objects, ref, m).value in seen
  {
    if m > j {
      CycleDefinesNothing(objects, ref, name, j, seen, m - 1);
    }
  }

  /** Where the climb stops empty-handed there is no nearest definition. */
  lemma StoppedClimb(objects: Objects, ref: ObjRef, name: string, j: nat, seen: set<ObjRef>, t: Target, k: nat)
    requires Passed(objects, ref, name, j, seen)
    requires var cursor := Ancestor(objects, ref, j); cursor.None? || cursor.value in seen || cursor.value !in objects
    ensures !Nearest(objects, ref, name, k, t)
  {
    var cursor := Ancestor(objects, ref, j);
    if Nearest(objects, ref, name, k, t) && j <= k {
      if cursor.None? {
        AncestorsEnd(objects, ref, j, k);
      } else if cursor.value in seen {
        CycleDefinesNothing(objects, ref, name, j, seen, k);
      } else if j < k {
        AncestorsEnd(objects, ref, j + 1, k);
      }
    }
  }

  lemma {:induction false} ClimbFindsNearest(objects: Objects, ref: ObjRef, name: string, j: nat, seen: set<ObjRef>, t: Target)
    requires ref in objects && Passed(objects, ref, name, j, seen)
    ensures Climb(objects, Ancestor(objects, ref, j), name, seen) == Some(t) <==> exists k: nat :: Nearest(objects, ref, name, k, t)
    decreases objects.Keys - seen
  {
    var cursor := Ancestor(objects, ref, j);
    if cursor.Some? && cursor.value in objects && cursor.value !in seen {
      if OwnVerb(objects, cursor.value, name).None? {
        assert Passed(objects, ref, name, j + 1, seen + {cursor.value});
        ClimbFindsNearest(objects, ref, name, j + 1, seen + {cursor.value}, t);
      } else if OwnVerb(objects, cursor.value, name) == Some(t) {
        assert Nearest(objects, ref, name, j, t);
      } else {
        forall k: nat | Nearest(objects, ref, name, k, t) ensures false {
        }
      }
    } else {
      forall k: nat ensures !Nearest(objects, ref, name, k, t) {
        StoppedClimb(objects, ref, name, j, seen, t, k);
      }
    }
  }

  lemma {:induction false} AncestorsEnd(objects: Objects, ref: ObjRef, k: nat, m: nat)
    requires k <= m && Ancestor(objects, ref, k).None?
    ensures Ancestor(objects, ref, m).None?
  {
    if k < m { AncestorsEnd(objects, ref, k, m - 1); }
  }

  /** `pass` resolves to the closest ancestor's verb, and to nothing exactly when no ancestor defines one. */
  lemma PassTargetIsNearest(objects: Objects, definer: ObjRef, name: string, t: Target)
    requires definer in objects
    ensures PassTarget(objects, definer, name) == Some(t) <==> exists k: nat :: Nearest(objects, definer, name, k, t)
  {
    assert Ancestor(objects, definer, 1) == objects[definer].parent;
    ClimbFindsNearest(objects, definer, name, 1, {}, t);
  }
}
