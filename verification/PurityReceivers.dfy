/**
 * What a `this` call runs, receiver by receiver.
 *
 * The propagation pass (src/core/authoring.ts) looks at a call `this:name()`
 * from the definer's side: the verb the definer inherits, and the overrides
 * below it. The running system (src/core/world.ts) looks from the receiver's
 * side: the receiver's chain of parents, each object answering to the names
 * and the aliases of its verbs, and then the receiver's features. This module
 * states dispatch in the second form and relates the first to it.
 */
module PurityReceivers {
  import opened Wrappers
  import opened VerbPurity
  import opened PurityPropagation

  /** The class graph as dispatch sees it, with the features each object carries and the alias patterns. */
  datatype Classes = Classes(objects: Objects, features: ObjRef -> seq<ObjRef>, matches: (string, string) -> bool)

  // -------------------------------------------------------------------- dispatch

  predicate AnswersTo(c: Classes, verb: Verb, name: string) {
    exists alias :: alias in verb.aliases && c.matches(alias, name)
  }

  function FirstAliased(c: Classes, verbs: seq<Verb>, name: string): (r: Option<nat>)
    ensures r.Some? ==> r.value < |verbs| && AnswersTo(c, verbs[r.value], name)
  {
    if verbs == [] then None
    else if AnswersTo(c, verbs[0], name) then Some(0)
    else match FirstAliased(c, verbs[1..], name)
      case Some(k) => Some(k + 1)
      case None => None
  }

  /** The verb an object itself answers with: one of that name, else one with a matching alias. */
  function Answer(c: Classes, ref: ObjRef, name: string): Option<Target> {
    if ref !in c.objects then None
    else match OwnVerb(c.objects, ref, name)
      case Some(t) => Some(t)
      case None =>
        match FirstAliased(c, c.objects[ref].verbs, name)
        case Some(k) => Some(TargetOf(ref, c.objects[ref].verbs[k]))
        case None => None
  }

  /** The first answer on the chain of parents is t, from the i-th parent. */
  ghost predicate ChainFinds(c: Classes, ref: ObjRef, name: string, i: nat, t: Target) {
    && Ancestor(c.objects, ref, i) == Some(t.definer)
    && Answer(c, t.definer, name) == Some(t)
    && forall j :: 0 <= j < i ==> Ancestor(c.objects, ref, j).Some? && Answer(c, Ancestor(c.objects, ref, j).value, name).None?
  }

  ghost predicate ChainGives(c: Classes, ref: ObjRef, name: string, t: Target) {
    exists i: nat :: ChainFinds(c, ref, name, i, t)
  }

  ghost predicate ChainSilent(c: Classes, ref: ObjRef, name: string) {
    forall t :: !ChainGives(c, ref, name, t)
  }

  /** Where nothing on the object's own chain answers, the first feature whose chain does. */
  ghost predicate FeatureGives(c: Classes, ref: ObjRef, name: string, t: Target) {
    ChainSilent(c, ref, name) && exists j: nat :: FeatureAt(c, ref, name, j, t)
  }

  ghost predicate FeatureAt(c: Classes, ref: ObjRef, name: string, j: nat, t: Target) {
    && j < |c.features(ref)|
    && ChainGives(c, c.features(ref)[j], name, t)
    && forall m :: 0 <= m < j ==> ChainSilent(c, c.features(ref)[m], name)
  }

  ghost predicate DispatchesTo(c: Classes, ref: ObjRef, name: string, t: Target) {
    ref in c.objects && (ChainGives(c, ref, name, t) || FeatureGives(c, ref, name, t))
  }

  ghost predicate OrdinaryDispatch(c: Classes, dispatch: Dispatch) {
    forall ref, name, t :: dispatch(ref, name) == Some(t) <==> DispatchesTo(c, ref, name, t)
  }

  // ------------------------------------------------------------------- receivers

  /** The definer is the k-th parent of the receiver, and each object up to it is on its parent's list of children. */
  ghost predicate Inherits(objects: Objects, definer: ObjRef, r: ObjRef, k: nat) {
    && definer in objects
    && Ancestor(objects, r, k) == Some(definer)
    && forall i :: 0 <= i < k ==> Listed(objects, r, i)
  }

  ghost predicate Listed(objects: Objects, r: ObjRef, i: nat) {
    && Ancestor(objects, r, i).Some? && Ancestor(objects, r, i + 1).Some?
    && Ancestor(objects, r, i).value in ChildrenOf(objects, Ancestor(objects, r, i + 1).value)
  }

  lemma {:induction false} AncestorOfAncestor(objects: Objects, r: ObjRef, k: nat, a: ObjRef, m: nat)
    requires Ancestor(objects, r, k) == Some(a)
    ensures Ancestor(objects, a, m) == Ancestor(objects, r, k + m)
  {
    if m > 0 {
      AncestorOfAncestor(objects, r, k, a, m - 1);
    }
  }

  lemma {:induction false} InheritorsDescend(objects: Objects, definer: ObjRef, r: ObjRef, k: nat, i: nat)
    requires Inherits(objects, definer, r, k) && i <= k && Ancestor(objects, r, i).Some?
    ensures Descends(objects, definer, Ancestor(objects, r, i).value)
    decreases k - i
  {
    DescendantsClosed(objects, definer);
    if i < k {
      assert Listed(objects, r, i);
      InheritorsDescend(objects, definer, r, k, i + 1);
      var reach := iset d | Descends(objects, definer, d);
      assert Ancestor(objects, r, i + 1).value in reach;
      assert Ancestor(objects, r, i).value in reach;
    }
  }

  lemma AnswerFacts(c: Classes, ref: ObjRef, name: string)
    ensures Answer(c, ref, name).Some? ==> ref in c.objects && Answer(c, ref, name).value.definer == ref
    ensures Answer(c, ref, name).Some? ==>
              (Answer(c, ref, name).value.name == name <==> OwnVerb(c.objects, ref, name) == Answer(c, ref, name))
    ensures OwnVerb(c.objects, ref, name).Some? ==> Answer(c, ref, name) == OwnVerb(c.objects, ref, name)
  {
  }

  /** The targets are the definer's own dispatch and the present descendants' verbs of that name. */
  lemma TargetMember(objects: Objects, dispatch: Dispatch, definer: ObjRef, name: string, t: Target)
    requires forall u :: dispatch(definer, name) == Some(u) && u.name == name ==> OwnVerb(objects, u.definer, name) == Some(u)
    ensures t in ThisTargets(objects, dispatch, definer, name).Values <==>
            || dispatch(definer, name) == Some(t)
            || (t.definer != definer && Descends(objects, definer, t.definer) && OwnVerb(objects, t.definer, name) == Some(t))
  {
    var targets := ThisTargets(objects, dispatch, definer, name);
    if dispatch(definer, name) == Some(t) {
      assert targets[t.Key()] == t;
    }
    if t.definer != definer && Descends(objects, definer, t.definer) && OwnVerb(objects, t.definer, name) == Some(t) {
      assert targets[(t.definer, name)] == t;
    }
  }

  lemma DispatchedByName(c: Classes, dispatch: Dispatch, definer: ObjRef, name: string)
    requires OrdinaryDispatch(c, dispatch)
    ensures forall u :: dispatch(definer, name) == Some(u) ==>
              u.name == name ==> OwnVerb(c.objects, u.definer, name) == Some(u)
  {
    forall u | dispatch(definer, name) == Some(u) && u.name == name ensures OwnVerb(c.objects, u.definer, name) == Some(u) {
      assert DispatchesTo(c, definer, name, u);
      assert Answer(c, u.definer, name) == Some(u);
      AnswerFacts(c, u.definer, name);
    }
  }

  /**
   * Seen from a receiver that inherits the calling verb: what `this:name()`
   * runs there is among the targets exactly if it is found at or above the
   * definer, or answers by its own name, or is what the definer itself would
   * run. The one case left out is an override that answers by an alias.
   */
  lemma ReceiverIsCovered(
    c: Classes, dispatch: Dispatch, definer: ObjRef, r: ObjRef, k: nat, name: string, i: nat, t: Target)
    requires OrdinaryDispatch(c, dispatch) && Inherits(c.objects, definer, r, k) && ChainFinds(c, r, name, i, t)
    ensures t in ThisTargets(c.objects, dispatch, definer, name).Values <==>
            i >= k || t.name == name || dispatch(definer, name) == Some(t)
  {
    DispatchedByName(c, dispatch, definer, name);
    TargetMember(c.objects, dispatch, definer, name, t);
    AnswerFacts(c, t.definer, name);
    if i >= k {
      FoundAbove(c, r, k, definer, name, i, t);
    } else if t.definer == definer {
      assert ChainFinds(c, definer, name, 0, t);
    } else {
      InheritorsDescend(c.objects, definer, r, k, i);
    }
    assert ChainGives(c, definer, name, t) ==> DispatchesTo(c, definer, name, t);
  }

  /** What a receiver finds at or above an ancestor, that ancestor finds as well. */
  lemma FoundAbove(c: Classes, r: ObjRef, k: nat, a: ObjRef, name: string, i: nat, t: Target)
    requires k <= i && Ancestor(c.objects, r, k) == Some(a) && ChainFinds(c, r, name, i, t)
    ensures ChainGives(c, a, name, t)
  {
    forall j: nat | j <= i - k ensures Ancestor(c.objects, a, j) == Ancestor(c.objects, r, k + j) {
      AncestorOfAncestor(c.objects, r, k, a, j);
    }
    assert ChainFinds(c, a, name, i - k, t);
  }

  lemma OverrideRuns(c: Classes, r: ObjRef, name: string, t: Target)
    requires OwnVerb(c.objects, r, name) == Some(t)
    ensures r in c.objects && DispatchesTo(c, r, name, t)
  {
    AnswerFacts(c, r, name);
    assert ChainFinds(c, r, name, 0, t);
  }

  lemma DescendsFromItself(objects: Objects, root: ObjRef)
    ensures Descends(objects, root, root)
  {
    assert ChildPath(objects, root, [root]);
  }

  /** No target too many: each is what some receiver, the definer or a present descendant, runs. */
  lemma TargetsAreReached(c: Classes, dispatch: Dispatch, definer: ObjRef, name: string, t: Target) returns (r: ObjRef)
    requires OrdinaryDispatch(c, dispatch) && t in ThisTargets(c.objects, dispatch, definer, name).Values
    ensures r in c.objects && Descends(c.objects, definer, r) && DispatchesTo(c, r, name, t)
  {
    TargetsMayRun(c, dispatch, definer, name, t);
    if DispatchesTo(c, definer, name, t) {
      r := definer;
      DescendsFromItself(c.objects, definer);
    } else {
      r := t.definer;
      OverrideRuns(c, r, name, t);
    }
  }

  // ------------------------------------------------------------ what marked verbs run

  /**
   * On receiver r, the verb of this entry runs t next: by `pass`, found from
   * the definer's parent on, or by a `this` call, found from the receiver on.
   * Calls answered by an alias or by a feature are not counted.
   */
  ghost predicate Enters(c: Classes, r: ObjRef, e: Entry, t: Target) {
    && e.analyzed != Pure
    && ((e.hasPass && PassesTo(c, e.key.0, e.key.1, t)) || exists site :: CallsOn(c, r, e, site, t))
  }

  ghost predicate PassesTo(c: Classes, definer: ObjRef, name: string, t: Target) {
    && definer in c.objects && c.objects[definer].parent.Some?
    && ChainGives(c, c.objects[definer].parent.value, name, t) && t.name == name
  }

  ghost predicate CallsOn(c: Classes, r: ObjRef, e: Entry, site: CallSite, t: Target) {
    && e.calls.Some? && site in e.calls.value && site.thisCall
    && ChainGives(c, r, site.name, t) && t.name == site.name
  }

  /** Every object on the receiver's chain is on its parent's list of children. */
  ghost predicate ChainListed(objects: Objects, r: ObjRef) {
    forall i: nat :: Ancestor(objects, r, i + 1).Some? && Ancestor(objects, r, i + 1).value in objects ==> Listed(objects, r, i)
  }

  ghost predicate OnChain(objects: Objects, r: ObjRef, a: ObjRef) {
    a in objects && exists k: nat :: Ancestor(objects, r, k) == Some(a)
  }

  lemma {:induction false} AncestorsStart(objects: Objects, r: ObjRef, i: nat, k: nat)
    requires i <= k && Ancestor(objects, r, k).Some?
    ensures Ancestor(objects, r, i).Some? && (i < k ==> Ancestor(objects, r, i).value in objects)
  {
    if i < k {
      AncestorsStart(objects, r, i, k - 1);
    }
  }

  lemma ChainInherits(objects: Objects, definer: ObjRef, r: ObjRef, k: nat)
    requires ChainListed(objects, r) && definer in objects && Ancestor(objects, r, k) == Some(definer)
    ensures Inherits(objects, definer, r, k)
  {
    forall i: nat | i < k ensures Listed(objects, r, i) {
      AncestorsStart(objects, r, i + 1, k);
    }
  }

  lemma PassIsNearest(c: Classes, definer: ObjRef, name: string, t: Target)
    requires PassesTo(c, definer, name, t)
    ensures PassTarget(c.objects, definer, name) == Some(t)
  {
    var parent := c.objects[definer].parent.value;
    var i: nat :| ChainFinds(c, parent, name, i, t);
    assert Ancestor(c.objects, definer, 1) == Some(parent);
    forall j: nat | j <= i ensures Ancestor(c.objects, parent, j) == Ancestor(c.objects, definer, 1 + j) {
      AncestorOfAncestor(c.objects, definer, 1, parent, j);
    }
    AnswerFacts(c, t.definer, name);
    forall j | 0 < j < i + 1
      ensures Ancestor(c.objects, definer, j).Some? && OwnVerb(c.objects, Ancestor(c.objects, definer, j).value, name).None?
    {
      assert Ancestor(c.objects, parent, j - 1) == Ancestor(c.objects, definer, j);
      AnswerFacts(c, Ancestor(c.objects, definer, j).value, name);
    }
    assert Nearest(c.objects, definer, name, i + 1, t);
    PassTargetIsNearest(c.objects, definer, name, t);
  }

  /** One call of a marked verb: what runs is marked bytecode, or a native verb that is marked or vouched for. */
  lemma MarkedRunsPure(c: Classes, dispatch: Dispatch, entries: seq<Entry>, marked: set<Key>, r: ObjRef, e: Entry, t: Target)
    requires OrdinaryDispatch(c, dispatch) && PureClosed(GraphOf(c.objects, dispatch), entries, marked)
    requires ChainListed(c.objects, r) && OnChain(c.objects, r, e.key.0)
    requires e in entries && e.key in marked && Enters(c, r, e, t)
    ensures if t.native then t.markedPure || e.declared else t.Key() in marked
    ensures OnChain(c.objects, r, t.definer)
  {
    var g := GraphOf(c.objects, dispatch);
    assert Rule(g, e, marked);
    var k: nat :| Ancestor(c.objects, r, k) == Some(e.key.0);
    if e.hasPass && PassesTo(c, e.key.0, e.key.1, t) {
      PassIsNearest(c, e.key.0, e.key.1, t);
      assert g.pass(e.key) == Some(t);
      PassStaysOnChain(c, r, k, e.key.0, e.key.1, t);
    } else {
      var site :| CallsOn(c, r, e, site, t);
      var i: nat :| ChainFinds(c, r, site.name, i, t);
      ChainInherits(c.objects, e.key.0, r, k);
      ReceiverIsCovered(c, dispatch, e.key.0, r, k, site.name, i, t);
      SiteRunsPure(g, e, site, marked, t);
      AnswerFacts(c, t.definer, site.name);
    }
  }

  lemma PassStaysOnChain(c: Classes, r: ObjRef, k: nat, definer: ObjRef, name: string, t: Target)
    requires Ancestor(c.objects, r, k) == Some(definer) && PassesTo(c, definer, name, t)
    ensures OnChain(c.objects, r, t.definer)
  {
    var parent := c.objects[definer].parent.value;
    var i: nat :| ChainFinds(c, parent, name, i, t);
    assert Ancestor(c.objects, r, k + 1) == Some(parent);
    AncestorOfAncestor(c.objects, r, k + 1, parent, i);
    AnswerFacts(c, t.definer, name);
  }

  lemma SiteRunsPure(g: CallGraph, e: Entry, site: CallSite, marked: set<Key>, t: Target)
    requires e.analyzed != Pure && Rule(g, e, marked) && e.calls.Some? && site in e.calls.value && site.thisCall
    requires t in g.callees((e.key.0, site.name)).Values
    ensures TargetPure(t, e.declared, marked)
  {
    assert SitePure(g, e, site, marked);
  }

  /** Entries that run one after another on one receiver. */
  ghost predicate RunOn(c: Classes, entries: seq<Entry>, r: ObjRef, run: seq<Entry>) {
    && |run| > 0 && run[|run| - 1] in entries
    && (|run| > 1 ==> RunOn(c, entries, r, run[..|run| - 1]) && Follows(c, r, run[|run| - 2], run[|run| - 1]))
  }

  ghost predicate Follows(c: Classes, r: ObjRef, e: Entry, next: Entry) {
    exists t :: Enters(c, r, e, t) && !t.native && t.Key() == next.key
  }

  lemma {:induction false} RunStaysMarked(
    c: Classes, dispatch: Dispatch, entries: seq<Entry>, marked: set<Key>, r: ObjRef, run: seq<Entry>)
    requires OrdinaryDispatch(c, dispatch) && PureClosed(GraphOf(c.objects, dispatch), entries, marked)
    requires ChainListed(c.objects, r) && RunOn(c, entries, r, run) && run[0].key in marked && OnChain(c.objects, r, run[0].key.0)
    ensures run[|run| - 1].key in marked && OnChain(c.objects, r, run[|run| - 1].key.0)
  {
    if |run| > 1 {
      RunStaysMarked(c, dispatch, entries, marked, r, run[..|run| - 1]);
      var before, last := run[|run| - 2], run[|run| - 1];
      assert before in entries by { assert RunOn(c, entries, r, run[..|run| - 1]); }
      var t :| Enters(c, r, before, t) && !t.native && t.Key() == last.key;
      MarkedRunsPure(c, dispatch, entries, marked, r, before, t);
    }
  }

  /**
   * Whatever object a marked verb runs on, no run of `pass` and `this` calls
   * from it ever enters an impure verb: every bytecode verb on the way is
   * marked, and every native one is marked or vouched for by its caller.
   */
  lemma MarkedRunsOnlyPure(
    c: Classes, dispatch: Dispatch, entries: seq<Entry>, marked: set<Key>, r: ObjRef, run: seq<Entry>, t: Target)
    requires OrdinaryDispatch(c, dispatch) && PureClosed(GraphOf(c.objects, dispatch), entries, marked) && UniqueKeys(entries)
    requires ChainListed(c.objects, r) && RunOn(c, entries, r, run) && run[0].key in marked && OnChain(c.objects, r, run[0].key.0)
    ensures var last := run[|run| - 1];
            && last.key in marked && last.analyzed != Impure
            && (Enters(c, r, last, t) ==> if t.native then t.markedPure || last.declared else t.Key() in marked)
  {
    var last := run[|run| - 1];
    RunStaysMarked(c, dispatch, entries, marked, r, run);
    SeedMember(entries, last);
    if Enters(c, r, last, t) {
      MarkedRunsPure(c, dispatch, entries, marked, r, last, t);
    }
  }

  // ----------------------------------------------------------- marks, neither more nor less

  /** The definer dispatches the name to t, or some object below it overrides the name with t. */
  ghost predicate MayRun(c: Classes, definer: ObjRef, name: string, t: Target) {
    || DispatchesTo(c, definer, name, t)
    || (t.definer != definer && Descends(c.objects, definer, t.definer) && OwnVerb(c.objects, t.definer, name) == Some(t))
  }

  ghost predicate Trusted(t: Target, e: Entry, marked: set<Key>) {
    if t.native then t.markedPure || e.declared else t.Key() in marked
  }

  /** A call site that cannot betray the verb. */
  ghost predicate SiteVouched(c: Classes, e: Entry, site: CallSite, marked: set<Key>) {
    if site.thisCall then
      && (exists t :: MayRun(c, e.key.0, site.name, t))
      && forall t :: MayRun(c, e.key.0, site.name, t) ==> Trusted(t, e, marked)
    else e.declared
  }

  ghost predicate PassVouched(c: Classes, e: Entry, marked: set<Key>) {
    e.hasPass ==> exists k: nat, t :: Nearest(c.objects, e.key.0, e.key.1, k, t) && Trusted(t, e, marked)
  }

  ghost predicate Vouched(c: Classes, e: Entry, marked: set<Key>) {
    && e.calls.Some? && PassVouched(c, e, marked)
    && forall site :: site in e.calls.value ==> SiteVouched(c, e, site, marked)
  }

  lemma TargetsMayRun(c: Classes, dispatch: Dispatch, definer: ObjRef, name: string, t: Target)
    requires OrdinaryDispatch(c, dispatch)
    ensures t in ThisTargets(c.objects, dispatch, definer, name).Values <==> MayRun(c, definer, name, t)
  {
    DispatchedByName(c, dispatch, definer, name);
    TargetMember(c.objects, dispatch, definer, name, t);
  }

  lemma AllTrusted(targets: map<Key, Target>, e: Entry, marked: set<Key>, may: iset<Target>)
    requires forall t :: t in targets.Values <==> t in may
    ensures targets != map[] <==> exists t :: t in may
    ensures AllPure(targets, e.declared, marked) <==> forall t :: t in may ==> Trusted(t, e, marked)
  {
    if targets != map[] {
      var k :| k in targets;
      assert targets[k] in may;
    }
    if forall t :: t in may ==> Trusted(t, e, marked) {
      forall k | k in targets ensures TargetPure(targets[k], e.declared, marked) {
        assert targets[k] in may;
      }
    }
  }

  lemma SiteIsVouched(c: Classes, dispatch: Dispatch, e: Entry, site: CallSite, marked: set<Key>)
    requires OrdinaryDispatch(c, dispatch)
    ensures SitePure(GraphOf(c.objects, dispatch), e, site, marked) <==> SiteVouched(c, e, site, marked)
  {
    var may := iset t | MayRun(c, e.key.0, site.name, t);
    forall t ensures t in ThisTargets(c.objects, dispatch, e.key.0, site.name).Values <==> t in may {
      TargetsMayRun(c, dispatch, e.key.0, site.name, t);
    }
    AllTrusted(ThisTargets(c.objects, dispatch, e.key.0, site.name), e, marked, may);
    if exists t :: MayRun(c, e.key.0, site.name, t) {
      var t :| MayRun(c, e.key.0, site.name, t);
      assert t in may;
    }
  }

  lemma PassIsVouched(c: Classes, dispatch: Dispatch, e: Entry, marked: set<Key>)
    ensures PassPure(GraphOf(c.objects, dispatch), e, marked) <==> PassVouched(c, e, marked)
  {
    if e.key.0 in c.objects {
      forall t ensures PassTarget(c.objects, e.key.0, e.key.1) == Some(t) <==>
                       exists k: nat :: Nearest(c.objects, e.key.0, e.key.1, k, t) {
        PassTargetIsNearest(c.objects, e.key.0, e.key.1, t);
      }
    } else {
      forall k: nat, t ensures !Nearest(c.objects, e.key.0, e.key.1, k, t) {
        if k >= 1 {
          assert Ancestor(c.objects, e.key.0, 1).None?;
          AncestorsEnd(c.objects, e.key.0, 1, k);
        }
      }
    }
  }

  /** The greatest closed set leaves nothing out that its rule allows. */
  lemma GreatestIsFixed(g: CallGraph, entries: seq<Entry>, marked: set<Key>, e: Entry)
    requires GreatestPure(g, entries, marked) && UniqueKeys(entries) && e in entries
    ensures e.key in marked <==> e.analyzed != Impure && Rule(g, e, marked)
  {
    SeedMember(entries, e);
    if e.analyzed != Impure && Rule(g, e, marked) {
      var more := marked + {e.key};
      forall o | o in entries && o.key in more ensures Rule(g, o, more) {
        if o.key == e.key { assert o == e; }
        RuleMonotone(g, o, marked, more);
      }
      assert PureClosed(g, entries, more);
    }
  }

  /**
   * Which verbs stay marked: those with nothing impure and no calls, and those
   * with nothing impure all of whose calls are vouched for.
   */
  lemma MarkedExactly(c: Classes, dispatch: Dispatch, entries: seq<Entry>, marked: set<Key>, e: Entry)
    requires OrdinaryDispatch(c, dispatch) && GreatestPure(GraphOf(c.objects, dispatch), entries, marked)
    requires UniqueKeys(entries) && e in entries
    ensures e.key in marked <==> e.analyzed == Pure || (e.analyzed == Unknown && Vouched(c, e, marked))
  {
    GreatestIsFixed(GraphOf(c.objects, dispatch), entries, marked, e);
    PassIsVouched(c, dispatch, e, marked);
    if e.calls.Some? {
      forall site | site in e.calls.value
        ensures SitePure(GraphOf(c.objects, dispatch), e, site, marked) <==> SiteVouched(c, e, site, marked)
      {
        SiteIsVouched(c, dispatch, e, site, marked);
      }
    }
  }

  // ------------------------------------------------------- receivers the pass overlooks

  function NativeVerb(name: string, aliases: seq<string>, pure: bool): Verb {
    Verb(name, aliases, true, pure, false, None, None)
  }

  /**
   * Object a defines foo, whose code calls `this:bar()`, and a native bar that
   * is marked pure. Its child b has a native verb that is not marked and has
   * the alias bar. Object d carries a as a feature and has an unmarked bar.
   */
  ghost predicate Overlooked(c: Classes, a: ObjRef, b: ObjRef, d: ObjRef, foo: Verb, bar: string, other: string) {
    && a != b && b != d && a != d && bar != other && bar != foo.name && !foo.native
    && c.objects == map[a := Obj(None, [b], [foo, NativeVerb(bar, [], true)]),
                        b := Obj(Some(a), [], [NativeVerb(other, [bar], false)]),
                        d := Obj(None, [], [NativeVerb(bar, [], false)])]
    && c.matches(bar, bar) && !c.matches(bar, foo.name)
    && other != foo.name && c.features(a) == [] && c.features(d) == [a]
  }

  lemma OnlyOwnAnswer(c: Classes, ref: ObjRef, name: string, t: Target)
    requires Answer(c, ref, name).Some?
    ensures ChainGives(c, ref, name, t) <==> Answer(c, ref, name) == Some(t)
    ensures DispatchesTo(c, ref, name, t) <==> Answer(c, ref, name) == Some(t)
  {
    var own := Answer(c, ref, name).value;
    AnswerFacts(c, ref, name);
    assert ChainFinds(c, ref, name, 0, own);
    assert ChainGives(c, ref, name, own);
    forall i: nat | ChainFinds(c, ref, name, i, t) ensures t == own {
      assert Ancestor(c.objects, ref, 0) == Some(ref);
    }
  }

  lemma SilentRoot(c: Classes, ref: ObjRef, name: string)
    requires ref in c.objects && c.objects[ref].parent.None? && Answer(c, ref, name).None?
    ensures ChainSilent(c, ref, name)
  {
    forall i: nat, t ensures !ChainFinds(c, ref, name, i, t) {
      if i > 0 {
        assert Ancestor(c.objects, ref, 1).None?;
        AncestorsEnd(c.objects, ref, 1, i);
      }
    }
  }

  lemma OverlookedAnswers(c: Classes, a: ObjRef, b: ObjRef, d: ObjRef, foo: Verb, bar: string, other: string)
    requires Overlooked(c, a, b, d, foo, bar, other)
    ensures Answer(c, a, bar) == Some(Target(a, bar, true, true)) && Answer(c, a, foo.name) == Some(TargetOf(a, foo))
    ensures Answer(c, b, bar) == Some(Target(b, other, true, false)) && OwnVerb(c.objects, b, bar).None?
    ensures Answer(c, d, bar) == Some(Target(d, bar, true, false)) && Answer(c, d, foo.name).None?
  {
    var verbs := c.objects[a].verbs;
    assert verbs[1..] == [NativeVerb(bar, [], true)] && FirstNamed(verbs[1..], bar) == Some(0);
    assert bar in c.objects[b].verbs[0].aliases;
  }

  /**
   * The mark is no promise for every receiver: foo stays marked, yet on its
   * heir b, which overrides bar by an alias only, `this:bar()` runs the
   * unmarked verb; and on d, which runs foo as a feature, it runs d's own
   * unmarked bar.
   */
  lemma OverlookedReceivers(
    c: Classes, dispatch: Dispatch, marked: set<Key>, a: ObjRef, b: ObjRef, d: ObjRef, foo: Verb, bar: string, other: string)
    requires Overlooked(c, a, b, d, foo, bar, other) && OrdinaryDispatch(c, dispatch)
    requires var e := Entry((a, foo.name), Unknown, false, Some([CallSite(bar, true)]), false);
             GreatestPure(GraphOf(c.objects, dispatch), [e], marked)
    ensures (a, foo.name) in marked
    ensures Inherits(c.objects, a, b, 1) && DispatchesTo(c, b, bar, Target(b, other, true, false))
    ensures DispatchesTo(c, d, foo.name, TargetOf(a, foo)) && DispatchesTo(c, d, bar, Target(d, bar, true, false))
  {
    var site := CallSite(bar, true);
    var e := Entry((a, foo.name), Unknown, false, Some([site]), false);
    OverlookedAnswers(c, a, b, d, foo, bar, other);
    OverlookedDispatch(c, a, b, d, foo, bar, other);
    assert MayRun(c, a, bar, Target(a, bar, true, true));
    assert SiteVouched(c, e, site, marked);
    MarkedExactly(c, dispatch, [e], marked, e);
  }

  lemma OverlookedDispatch(c: Classes, a: ObjRef, b: ObjRef, d: ObjRef, foo: Verb, bar: string, other: string)
    requires Overlooked(c, a, b, d, foo, bar, other)
    ensures forall t :: MayRun(c, a, bar, t) ==> t == Target(a, bar, true, true)
    ensures DispatchesTo(c, a, bar, Target(a, bar, true, true))
    ensures Inherits(c.objects, a, b, 1) && DispatchesTo(c, b, bar, Target(b, other, true, false))
    ensures DispatchesTo(c, d, foo.name, TargetOf(a, foo)) && DispatchesTo(c, d, bar, Target(d, bar, true, false))
  {
    OverlookedAnswers(c, a, b, d, foo, bar, other);
    OnlyOwnAnswer(c, a, bar, Target(a, bar, true, true));
    OnlyOwnAnswer(c, b, bar, Target(b, other, true, false));
    OnlyOwnAnswer(c, d, bar, Target(d, bar, true, false));
    OnlyOwnAnswer(c, a, foo.name, TargetOf(a, foo));
    SilentRoot(c, d, foo.name);
    assert FeatureAt(c, d, foo.name, 0, TargetOf(a, foo));
    assert Ancestor(c.objects, b, 1) == Some(a) && Listed(c.objects, b, 0);
    forall t | MayRun(c, a, bar, t) ensures t == Target(a, bar, true, true) {
      OnlyOwnAnswer(c, a, bar, t);
      OnlyBelow(c.objects, a, b, d, t.definer);
    }
  }

  lemma OnlyBelow(objects: Objects, a: ObjRef, b: ObjRef, d: ObjRef, x: ObjRef)
    requires a != d && b != d && ChildrenOf(objects, a) == [b] && ChildrenOf(objects, b) == []
    ensures Descends(objects, a, x) ==> x == a || x == b
  {
    if Descends(objects, a, x) {
      var path :| ChildPath(objects, a, path) && path[|path| - 1] == x;
      ClosedHoldsPath(objects, a, iset{a, b}, path);
    }
  }
}
