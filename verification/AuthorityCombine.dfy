/**
 * Combining authority cell slices (src/core/authority-slice.ts,
 * combineSerializedAuthoritySlices): one page reference wins per cell.
 */
module AuthorityCombine {
  import opened AuthorityCells
  import opened AuthorityMerge

  /** A reference to a lineage page, known to the inline pages, that names the object by its id. */
  predicate StubLineage(r: Ref, inline: set<Page>) {
    r.cell.kind == LineageKind && r.hash in inline && r.hash.Lineage? && r.hash.name == r.cell.object_
  }

  predicate ShouldReplace(existing: Ref, candidate: Ref, inline: set<Page>) {
    var was, now := Rank(existing.provenance.source), Rank(candidate.provenance.source);
    if now != was then now > was
    else if StubLineage(existing, inline) != StubLineage(candidate, inline) then StubLineage(existing, inline)
    else true
  }

  /** The references standing so far, one per cell, and the pages seen so far. */
  datatype Tally = Tally(byKey: map<Cell, Ref>, inline: set<Page>)

  function Consider(t: Tally, r: Ref): Tally {
    if r.cell in t.byKey && !ShouldReplace(t.byKey[r.cell], r, t.inline) then t
    else t.(byKey := t.byKey[r.cell := r])
  }

  function ConsiderAll(t: Tally, refs: seq<Ref>): Tally
    decreases |refs|
  {
    if refs == [] then t else Consider(ConsiderAll(t, refs[..|refs| - 1]), refs[|refs| - 1])
  }

  function Pages(inline: seq<Page>): set<Page> {
    set p | p in inline
  }

  function TakeSlice(t: Tally, slice: Slice): Tally {
    ConsiderAll(t.(inline := t.inline + Pages(slice.inline)), slice.refs)
  }

  function TakeAll(slices: seq<Slice>): Tally {
    if slices == [] then Tally(map[], {}) else TakeSlice(TakeAll(slices[..|slices| - 1]), slices[|slices| - 1])
  }

  /** Objects whose identity some standing reference supplies. */
  function Identified(byKey: map<Cell, Ref>): set<ObjRef> {
    set k | k in byKey && k.kind == LineageKind :: k.object_
  }

  /** Standing references, without the cells of unidentified objects. */
  function Closed(byKey: map<Cell, Ref>): set<Ref> {
    set k | k in byKey && (k.kind == LineageKind || k.object_ in Identified(byKey)) :: byKey[k]
  }

  function Hashes(refs: set<Ref>): set<Page> {
    set r | r in refs :: r.hash
  }

  /** How references and pages are written out; any fixed order will do. */
  datatype Layout = Layout(refs: set<Ref> -> seq<Ref>, pages: set<Page> -> seq<Page>)

  ghost predicate Listing<T(!new)>(list: seq<T>, s: set<T>) {
    && (forall x :: x in list <==> x in s)
    && (forall i, j :: 0 <= i < j < |list| ==> list[i] != list[j])
  }

  ghost predicate Faithful(order: Layout) {
    && (forall s :: Listing(order.refs(s), s))
    && (forall s :: Listing(order.pages(s), s))
  }

  function Emit(order: Layout, t: Tally): Slice {
    var kept := Closed(t.byKey);
    Slice(order.refs(kept), order.pages(t.inline * Hashes(kept)))
  }

  function Combine(order: Layout, slices: seq<Slice>): Slice {
    Emit(order, TakeAll(slices))
  }

  /** The combination as it is computed: two maps, filled slice by slice. */
  method CombineSlices(order: Layout, slices: seq<Slice>) returns (combined: Slice)
    ensures combined == Combine(order, slices)
  {
    var t := Tally(map[], {});
    for i := 0 to |slices|
      invariant t == TakeAll(slices[..i])
    {
      var slice := slices[i];
      t := t.(inline := t.inline + Pages(slice.inline));
      ghost var before := t;
      for j := 0 to |slice.refs|
        invariant t == ConsiderAll(before, slice.refs[..j])
      {
        assert slice.refs[..j + 1][..j] == slice.refs[..j];
        t := Consider(t, slice.refs[j]);
      }
      assert slice.refs[..|slice.refs|] == slice.refs;
      assert slices[..i + 1][..i] == slices[..i];
    }
    assert slices[..|slices|] == slices;
    combined := Emit(order, t);
  }

  // ----------------------------------------------------- winners, independently

  predicate Stub(r: Ref) {
    r.cell.kind == LineageKind && r.hash.Lineage? && r.hash.name == r.cell.object_
  }

  /** Source rank first; among equals, a named identity before a stub. */
  function Score(r: Ref): nat {
    2 * Rank(r.provenance.source) + if Stub(r) then 0 else 1
  }

  /** The last of a cell's references with the greatest score. */
  ghost predicate IsWinner(refs: seq<Ref>, k: Cell, i: int) {
    && 0 <= i < |refs| && refs[i].cell == k
    && (forall j :: 0 <= j < |refs| && refs[j].cell == k ==> Score(refs[j]) <= Score(refs[i]))
    && (forall j :: i < j < |refs| && refs[j].cell == k ==> Score(refs[j]) < Score(refs[i]))
  }

  function Pick(best: map<Cell, Ref>, r: Ref): map<Cell, Ref> {
    if r.cell in best && Score(r) < Score(best[r.cell]) then best else best[r.cell := r]
  }

  function Winners(refs: seq<Ref>): map<Cell, Ref> {
    if refs == [] then map[] else Pick(Winners(refs[..|refs| - 1]), refs[|refs| - 1])
  }

  lemma {:induction false} WinnersWin(refs: seq<Ref>, k: Cell) returns (i: int)
    ensures k in Winners(refs) <==> Referred(refs, k)
    ensures k in Winners(refs) ==> IsWinner(refs, k, i) && refs[i] == Winners(refs)[k]
  {
    i := 0;
    if refs != [] {
      var init, last := refs[..|refs| - 1], refs[|refs| - 1];
      i := WinnersWin(init, k);
      assert refs == init + [last];
      assert Referred(refs, k) <==> Referred(init, k) || last.cell == k;
      if last.cell == k && (k in Winners(init) ==> Score(last) >= Score(Winners(init)[k])) {
        LastWins(init, last, k, i);
        i := |init|;
      }
    }
  }

  lemma LastWins(init: seq<Ref>, last: Ref, k: Cell, i: int)
    requires last.cell == k
    requires Referred(init, k) ==> IsWinner(init, k, i) && Score(last) >= Score(init[i])
    ensures IsWinner(init + [last], k, |init|)
  {
    var refs := init + [last];
    forall j | 0 <= j < |refs| && refs[j].cell == k ensures Score(refs[j]) <= Score(last) {
      if j < |init| {
        assert init[j] in init && refs[j] == init[j];
      }
    }
  }

  // ----------------------------------------------- the combination finds the winners

  /** Each slice carries the pages it refers to. */
  ghost predicate Carries(slice: Slice) {
    forall r :: r in slice.refs ==> r.hash in slice.inline
  }

  function AllRefs(slices: seq<Slice>): seq<Ref> {
    if slices == [] then [] else AllRefs(slices[..|slices| - 1]) + slices[|slices| - 1].refs
  }

  ghost predicate Sound(t: Tally) {
    forall k :: k in t.byKey ==> t.byKey[k].cell == k && t.byKey[k].hash in t.inline
  }

  lemma ReplacesByScore(existing: Ref, candidate: Ref, inline: set<Page>)
    requires existing.hash in inline && candidate.hash in inline
    requires existing.cell == candidate.cell
    ensures ShouldReplace(existing, candidate, inline) <==> Score(candidate) >= Score(existing)
  {
  }

  lemma {:induction false} ConsiderFindsWinners(t: Tally, earlier: seq<Ref>, refs: seq<Ref>)
    requires Sound(t) && t.byKey == Winners(earlier) && forall r :: r in refs ==> r.hash in t.inline
    ensures var done := ConsiderAll(t, refs);
            Sound(done) && done.inline == t.inline && done.byKey == Winners(earlier + refs)
    decreases |refs|
  {
    if refs == [] {
      assert earlier + refs == earlier;
    } else {
      var init, last := refs[..|refs| - 1], refs[|refs| - 1];
      assert last in refs && forall r :: r in init ==> r in refs;
      ConsiderFindsWinners(t, earlier, init);
      var before := ConsiderAll(t, init);
      assert (earlier + refs)[..|earlier + refs| - 1] == earlier + init;
      if last.cell in before.byKey {
        ReplacesByScore(before.byKey[last.cell], last, t.inline);
      }
    }
  }

  lemma {:induction false} TakeFindsWinners(slices: seq<Slice>)
    requires forall s :: s in slices ==> Carries(s)
    ensures Sound(TakeAll(slices)) && TakeAll(slices).byKey == Winners(AllRefs(slices))
  {
    if slices != [] {
      var init, last := slices[..|slices| - 1], slices[|slices| - 1];
      assert last in slices;
      TakeFindsWinners(init);
      var t := TakeAll(init);
      ConsiderFindsWinners(t.(inline := t.inline + Pages(last.inline)), AllRefs(init), last.refs);
    }
  }

  ghost predicate Wins(slices: seq<Slice>, r: Ref) {
    exists i :: IsWinner(AllRefs(slices), r.cell, i) && AllRefs(slices)[i] == r
  }

  lemma OnlyOneWinner(refs: seq<Ref>, k: Cell, i: int, j: int)
    requires IsWinner(refs, k, i) && IsWinner(refs, k, j)
    ensures i == j
  {
  }

  ghost predicate IdentityReferred(slices: seq<Slice>, o: ObjRef) {
    exists r :: r in AllRefs(slices) && r.cell.kind == LineageKind && r.cell.object_ == o
  }

  lemma IdentifiedIsReferred(slices: seq<Slice>, o: ObjRef)
    ensures o in Identified(Winners(AllRefs(slices))) <==> IdentityReferred(slices, o)
  {
    var all := AllRefs(slices);
    if o in Identified(Winners(all)) {
      var k :| k in Winners(all) && k.kind == LineageKind && k.object_ == o;
      var _ := WinnersWin(all, k);
    }
    if IdentityReferred(slices, o) {
      var r :| r in all && r.cell.kind == LineageKind && r.cell.object_ == o;
      var _ := WinnersWin(all, r.cell);
      assert Referred(all, r.cell);
    }
  }

  lemma StandingIffWins(slices: seq<Slice>, r: Ref)
    ensures var best := Winners(AllRefs(slices)); (r.cell in best && best[r.cell] == r) <==> Wins(slices, r)
  {
    var all := AllRefs(slices);
    var j := WinnersWin(all, r.cell);
    if Wins(slices, r) {
      var i :| IsWinner(all, r.cell, i) && all[i] == r;
      assert all[i] in all && Referred(all, r.cell);
      OnlyOneWinner(all, r.cell, i, j);
    }
  }

  /**
   * A combined slice holds, per cell, the last reference maximal in source rank
   * and then in being named, for exactly the objects whose identity some slice
   * supplies.
   */
  lemma CombinePicksLastMaximal(order: Layout, slices: seq<Slice>, r: Ref)
    requires Faithful(order) && forall s :: s in slices ==> Carries(s)
    ensures r in Combine(order, slices).refs <==> Wins(slices, r) && IdentityReferred(slices, r.cell.object_)
  {
    TakeFindsWinners(slices);
    IdentifiedIsReferred(slices, r.cell.object_);
    StandingIffWins(slices, r);
    var best := Winners(AllRefs(slices));
    assert r in Combine(order, slices).refs <==> r in Closed(best);
    ClosedMember(TakeAll(slices), r);
  }

  lemma ClosedMember(t: Tally, r: Ref)
    requires Sound(t)
    ensures r in Closed(t.byKey) <==>
            r.cell in t.byKey && t.byKey[r.cell] == r && r.cell.object_ in Identified(t.byKey)
  {
  }

  // ------------------------------------------------------------- a usable result

  /** Every object a slice refers to comes with a reference to its identity. */
  ghost predicate LineageClosed(slice: Slice) {
    forall r :: r in slice.refs ==> r.cell.object_ in Identities(slice.refs)
  }

  function Identities(refs: seq<Ref>): set<ObjRef> {
    set r | r in refs && r.cell.kind == LineageKind :: r.cell.object_
  }

  /** A combined slice meets what a merge asks of it: unique keys, pages carried, identities present. */
  lemma CombinedIsMergeable(order: Layout, slices: seq<Slice>)
    requires Faithful(order) && forall s :: s in slices ==> Carries(s)
    ensures var c := Combine(order, slices); UniqueRefs(c.refs) && Carries(c) && LineageClosed(c)
  {
    TakeFindsWinners(slices);
    EmittedIsMergeable(order, TakeAll(slices));
  }

  lemma EmittedIsMergeable(order: Layout, t: Tally)
    requires Faithful(order) && Sound(t)
    ensures var c := Emit(order, t); UniqueRefs(c.refs) && Carries(c) && LineageClosed(c)
    ensures forall r :: r in Emit(order, t).refs ==> r.cell in t.byKey && t.byKey[r.cell] == r
  {
    var c, kept := Emit(order, t), Closed(t.byKey);
    assert Listing(c.refs, kept) && Listing(c.inline, t.inline * Hashes(kept));
    EmittedIsCarried(t, c);
    EmittedIsUnique(t, c.refs);
    EmittedIsClosed(t, c);
  }

  lemma EmittedIsCarried(t: Tally, c: Slice)
    requires Sound(t) && forall r :: r in c.refs <==> r in Closed(t.byKey)
    requires forall p :: p in c.inline <==> p in t.inline * Hashes(Closed(t.byKey))
    ensures Carries(c) && forall r :: r in c.refs ==> r.cell in t.byKey && t.byKey[r.cell] == r
  {
    forall r | r in c.refs ensures r.cell in t.byKey && t.byKey[r.cell] == r && r.hash in c.inline {
      ClosedMember(t, r);
    }
  }

  lemma EmittedIsUnique(t: Tally, refs: seq<Ref>)
    requires forall r :: r in refs ==> r.cell in t.byKey && t.byKey[r.cell] == r
    requires forall i, j :: 0 <= i < j < |refs| ==> refs[i] != refs[j]
    ensures UniqueRefs(refs)
  {
    forall i, j | 0 <= i < j < |refs| ensures refs[i].cell != refs[j].cell {
      assert refs[i] in refs && refs[j] in refs;
    }
  }

  lemma EmittedIsClosed(t: Tally, c: Slice)
    requires Sound(t) && forall r :: r in c.refs <==> r in Closed(t.byKey)
    ensures LineageClosed(c)
  {
    forall r | r in c.refs ensures r.cell.object_ in Identities(c.refs) {
      KeptIdentity(t, r);
    }
  }

  lemma KeptIdentity(t: Tally, r: Ref)
    requires Sound(t) && r in Closed(t.byKey)
    ensures exists q :: q in Closed(t.byKey) && q.cell.kind == LineageKind && q.cell.object_ == r.cell.object_
  {
    ClosedMember(t, r);
    var k :| k in t.byKey && k.kind == LineageKind && k.object_ == r.cell.object_;
    ClosedMember(t, t.byKey[k]);
  }

  // ------------------------------------------------------------- nested grouping

  /** Two sets of winners joined; on equal scores the later wins. */
  function Join(m: map<Cell, Ref>, n: map<Cell, Ref>): map<Cell, Ref> {
    map k | k in m.Keys + n.Keys ::
      if k in n && (k in m ==> Score(n[k]) >= Score(m[k])) then n[k] else m[k]
  }

  lemma {:induction false} WinnersOwnCells(refs: seq<Ref>)
    ensures forall k :: k in Winners(refs) ==> Winners(refs)[k].cell == k
  {
    if refs != [] {
      WinnersOwnCells(refs[..|refs| - 1]);
    }
  }

  lemma {:induction false} WinnersJoin(a: seq<Ref>, b: seq<Ref>)
    ensures Winners(a + b) == Join(Winners(a), Winners(b))
    decreases |b|
  {
    if b == [] {
      assert a + b == a;
      assert Join(Winners(a), map[]) == Winners(a);
    } else {
      var init, last := b[..|b| - 1], b[|b| - 1];
      assert (a + b)[..|a + b| - 1] == a + init;
      WinnersJoin(a, init);
      WinnersOwnCells(a);
      WinnersOwnCells(init);
      PickJoins(Winners(a), Winners(init), last);
    }
  }

  lemma PickJoins(m: map<Cell, Ref>, n: map<Cell, Ref>, r: Ref)
    ensures Pick(Join(m, n), r) == Join(m, Pick(n, r))
  {
    var lhs, rhs := Pick(Join(m, n), r), Join(m, Pick(n, r));
    assert lhs.Keys == rhs.Keys;
    forall k | k in lhs.Keys ensures lhs[k] == rhs[k] {
    }
  }

  /** Listing winners and electing again changes nothing. */
  lemma {:induction false} UniqueAllWin(refs: seq<Ref>)
    requires UniqueRefs(refs)
    ensures forall r :: r in refs ==> r.cell in Winners(refs) && Winners(refs)[r.cell] == r
    ensures forall k :: k in Winners(refs) ==> Winners(refs)[k] in refs && Winners(refs)[k].cell == k
  {
    if refs != [] {
      var init, last := refs[..|refs| - 1], refs[|refs| - 1];
      assert refs == init + [last];
      UniqueAllWin(init);
    }
  }

  lemma ListedWinners(order: Layout, slices: seq<Slice>)
    requires Faithful(order) && forall s :: s in slices ==> Carries(s) && LineageClosed(s)
    ensures Winners(Combine(order, slices).refs) == Winners(AllRefs(slices))
  {
    var best, listed := Winners(AllRefs(slices)), Combine(order, slices).refs;
    TakeFindsWinners(slices);
    EmittedIsMergeable(order, TakeAll(slices));
    assert Listing(listed, Closed(best));
    forall k | k in best ensures best[k] in listed {
      ClosedDropsNothing(slices, k);
    }
    ElectedAgain(best, listed);
  }

  lemma ElectedAgain(best: map<Cell, Ref>, listed: seq<Ref>)
    requires UniqueRefs(listed)
    requires forall k :: k in best ==> best[k].cell == k && best[k] in listed
    requires forall r :: r in listed ==> r.cell in best && best[r.cell] == r
    ensures Winners(listed) == best
  {
    UniqueAllWin(listed);
    assert Winners(listed).Keys == best.Keys;
  }

  lemma ClosedDropsNothing(slices: seq<Slice>, k: Cell)
    requires k in Winners(AllRefs(slices)) && forall s :: s in slices ==> LineageClosed(s)
    ensures Winners(AllRefs(slices))[k] in Closed(Winners(AllRefs(slices)))
  {
    var i := WinnersWin(AllRefs(slices), k);
    WinnersOwnCells(AllRefs(slices));
    IntroducedSomewhere(slices, AllRefs(slices)[i]);
    IdentifiedIsReferred(slices, k.object_);
  }

  lemma {:induction false} IntroducedSomewhere(slices: seq<Slice>, r: Ref)
    requires r in AllRefs(slices) && forall s :: s in slices ==> LineageClosed(s)
    ensures IdentityReferred(slices, r.cell.object_)
  {
    var init, last := slices[..|slices| - 1], slices[|slices| - 1];
    assert last in slices && forall s :: s in init ==> s in slices;
    if r in last.refs {
      var q :| q in last.refs && q.cell.kind == LineageKind && q.cell.object_ == r.cell.object_;
      assert q in AllRefs(slices);
    } else {
      IntroducedSomewhere(init, r);
      var q :| q in AllRefs(init) && q.cell.kind == LineageKind && q.cell.object_ == r.cell.object_;
      assert q in AllRefs(slices);
    }
  }

  function Flatten(groups: seq<seq<Slice>>): seq<Slice> {
    if groups == [] then [] else Flatten(groups[..|groups| - 1]) + groups[|groups| - 1]
  }

  function CombineEach(order: Layout, groups: seq<seq<Slice>>): seq<Slice> {
    if groups == [] then [] else CombineEach(order, groups[..|groups| - 1]) + [Combine(order, groups[|groups| - 1])]
  }

  lemma {:induction false} AllRefsJoin(a: seq<Slice>, b: seq<Slice>)
    ensures AllRefs(a + b) == AllRefs(a) + AllRefs(b)
    decreases |b|
  {
    if b == [] {
      assert a + b == a;
    } else {
      assert (a + b)[..|a + b| - 1] == a + b[..|b| - 1];
      AllRefsJoin(a, b[..|b| - 1]);
    }
  }

  ghost predicate Orderly(slices: seq<Slice>) {
    forall s :: s in slices ==> Carries(s) && LineageClosed(s)
  }

  lemma {:induction false} NestedWinners(order: Layout, groups: seq<seq<Slice>>)
    requires Faithful(order) && forall g :: g in groups ==> Orderly(g)
    ensures Orderly(CombineEach(order, groups)) && Orderly(Flatten(groups))
    ensures Winners(AllRefs(CombineEach(order, groups))) == Winners(AllRefs(Flatten(groups)))
  {
    if groups != [] {
      var init, last := groups[..|groups| - 1], groups[|groups| - 1];
      assert last in groups;
      NestedWinners(order, init);
      var each, one := CombineEach(order, init), Combine(order, last);
      CombinedIsMergeable(order, last);
      assert (each + [one])[..|each|] == each;
      AllRefsJoin(Flatten(init), last);
      WinnersJoin(AllRefs(each), one.refs);
      WinnersJoin(AllRefs(Flatten(init)), AllRefs(last));
      ListedWinners(order, last);
    }
  }

  lemma EmittedByWinners(order: Layout, s: seq<Slice>, t: seq<Slice>)
    requires forall x :: x in s ==> Carries(x)
    requires forall x :: x in t ==> Carries(x)
    requires Winners(AllRefs(s)) == Winners(AllRefs(t))
    ensures Combine(order, s) == Combine(order, t)
  {
    TakeFindsWinners(s);
    TakeFindsWinners(t);
    var kept := Closed(Winners(AllRefs(s)));
    KeptAreCarried(TakeAll(s));
    KeptAreCarried(TakeAll(t));
  }

  lemma KeptAreCarried(t: Tally)
    requires Sound(t)
    ensures t.inline * Hashes(Closed(t.byKey)) == Hashes(Closed(t.byKey))
  {
    forall r | r in Closed(t.byKey) ensures r.hash in t.inline {
      ClosedMember(t, r);
    }
  }

  /** Combining in groups and then combining the results is combining everything at once. */
  lemma CombineNests(order: Layout, groups: seq<seq<Slice>>)
    requires Faithful(order) && forall g :: g in groups ==> Orderly(g)
    ensures Combine(order, CombineEach(order, groups)) == Combine(order, Flatten(groups))
  {
    NestedWinners(order, groups);
    EmittedByWinners(order, CombineEach(order, groups), Flatten(groups));
  }

  // --------------------------------------------------- precedence, source by source

  /** The sources from the weightiest to the lightest. */
  const Precedence: seq<Source> := [Authoritative, Projection, Cache, Fallback, Gossip]

  /** One source takes precedence over another if it is listed earlier. */
  ghost predicate Outweighs(a: Source, b: Source) {
    exists i, j :: 0 <= i < j < |Precedence| && Precedence[i] == a && Precedence[j] == b
  }

  lemma RankIsPrecedence(a: Source, b: Source)
    ensures Rank(a) > Rank(b) <==> Outweighs(a, b)
  {
    var i, j := 4 - Rank(a), 4 - Rank(b);
    assert Precedence[i] == a && Precedence[j] == b;
  }

  /** Why one reference stands where another for the same cell stood later or earlier. */
  ghost predicate Prevails(refs: seq<Ref>, i: int, j: int)
    requires 0 <= i < |refs| && 0 <= j < |refs|
  {
    var r, q := refs[i], refs[j];
    || Outweighs(r.provenance.source, q.provenance.source)
    || (r.provenance.source == q.provenance.source && !Stub(r) && Stub(q))
    || (r.provenance.source == q.provenance.source && (Stub(r) <==> Stub(q)) && j < i)
  }

  /**
   * Whatever a combination refers to prevails over every other reference for
   * its cell: by its source, at equal sources by bringing a name, and at equal
   * standing by coming later.
   */
  lemma CombinedPrevails(order: Layout, slices: seq<Slice>, r: Ref) returns (i: nat)
    requires Faithful(order) && (forall s :: s in slices ==> Carries(s)) && r in Combine(order, slices).refs
    ensures var all := AllRefs(slices);
            && i < |all| && all[i] == r
            && forall j :: 0 <= j < |all| && j != i && all[j].cell == r.cell ==> Prevails(all, i, j)
  {
    var all := AllRefs(slices);
    CombinePicksLastMaximal(order, slices, r);
    i :| IsWinner(all, r.cell, i) && all[i] == r;
    forall j | 0 <= j < |all| && j != i && all[j].cell == r.cell ensures Prevails(all, i, j) {
      RankIsPrecedence(r.provenance.source, all[j].provenance.source);
      RankIsPrecedence(all[j].provenance.source, r.provenance.source);
      SameRank(r.provenance.source, all[j].provenance.source);
    }
  }

  lemma SameRank(a: Source, b: Source)
    ensures Rank(a) == Rank(b) <==> a == b
  {
  }

  /** Every cell referred to has a reference in the combination, if some slice supplies its object's identity. */
  lemma CombinedCovers(order: Layout, slices: seq<Slice>, q: Ref)
    requires Faithful(order) && (forall s :: s in slices ==> Carries(s))
    requires q in AllRefs(slices) && IdentityReferred(slices, q.cell.object_)
    ensures Referred(Combine(order, slices).refs, q.cell)
  {
    var all := AllRefs(slices);
    var i := WinnersWin(all, q.cell);
    CombinePicksLastMaximal(order, slices, all[i]);
    assert Wins(slices, all[i]);
  }
}
