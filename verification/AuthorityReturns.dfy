/**
 * When a merge of cell pages returns, when it stops, and what a merge that
 * stops leaves behind (src/core/authority-slice.ts, mergeAuthorityCellPages).
 */
module AuthorityReturns {
  import opened Wrappers
  import opened AuthorityCells
  import opened AuthorityMerge
  import opened AuthorityState
  import opened AuthorityCombine

  // -------------------------------------------------- deciding without failures

  lemma {:induction false} NoFailureGoes(decide: Decider, table: Table, refs: seq<Ref>)
    requires UniqueRefs(refs) && Proper(decide)
    requires forall r :: r in refs ==> !decide(Recorded(table, r.cell), r).Fail?
    ensures DecideAll(decide, table, refs).Going?
  {
    if refs != [] {
      var init, last := refs[..|refs| - 1], refs[|refs| - 1];
      assert last in refs && forall r :: r in init ==> r in refs;
      NoFailureGoes(decide, table, init);
      assert !Referred(init, last.cell);
      UnreferredCell(decide, table, init, last.cell);
    }
  }

  lemma {:induction false} ChangedWasTaken(decide: Decider, table: Table, refs: seq<Ref>, p: Page)
    requires UniqueRefs(refs) && Proper(decide) && DecideAll(decide, table, refs).Going?
    requires p in DecideAll(decide, table, refs).changed
    ensures exists r :: r in refs && r.hash == p && decide(Recorded(table, r.cell), r).Take?
  {
    var init, last := refs[..|refs| - 1], refs[|refs| - 1];
    assert refs == init + [last];
    if p in DecideAll(decide, table, init).changed {
      ChangedWasTaken(decide, table, init, p);
      var r :| r in init && r.hash == p && decide(Recorded(table, r.cell), r).Take?;
      assert r in refs;
    } else {
      assert !Referred(init, last.cell);
      UnreferredCell(decide, table, init, last.cell);
      assert last in refs;
    }
  }

  // ------------------------------------------------------------ building new objects

  lemma {:induction false} InlineLineageFound(inline: seq<Page>, p: Page)
    requires p in inline && p.Lineage?
    ensures InlineLineage(inline, p.object_).Some?
  {
    var init, last := inline[..|inline| - 1], inline[|inline| - 1];
    assert inline == init + [last];
    if p != last { InlineLineageFound(init, p); }
  }

  lemma {:induction false} ScaffoldFromInline(w: World, inline: seq<Page>, changed: seq<Page>, n: nat, p: Page)
    requires n <= |changed| && p in Scaffold(w, inline, changed, n)
    ensures p.Lineage? && InlineLineage(inline, p.object_).Some?
  {
    InlineLineageShape(inline, changed[n - 1].object_);
    if p in Scaffold(w, inline, changed, n - 1) { ScaffoldFromInline(w, inline, changed, n - 1, p); }
  }

  lemma {:induction false} ScaffoldCovers(w: World, inline: seq<Page>, changed: seq<Page>, n: nat, i: nat)
    requires i < n <= |changed| && !Has(w, changed[i].object_) && InlineLineage(inline, changed[i].object_).Some?
    ensures HasLineagePage(changed, changed[i].object_) || HasLineagePage(Scaffold(w, inline, changed, n), changed[i].object_)
  {
    var o := changed[i].object_;
    InlineLineageShape(inline, changed[n - 1].object_);
    if i == n - 1 {
      var added, l := Scaffold(w, inline, changed, n - 1), InlineLineage(inline, o);
      if !HasLineagePage(changed, o) && !HasLineagePage(added, o) {
        assert l.value in Scaffold(w, inline, changed, n);
      }
    } else {
      ScaffoldCovers(w, inline, changed, n - 1, i);
      if HasLineagePage(Scaffold(w, inline, changed, n - 1), o) {
        var p :| p in Scaffold(w, inline, changed, n - 1) && p.Lineage? && p.object_ == o;
        assert p in Scaffold(w, inline, changed, n);
      }
    }
  }

  lemma IntroducedIff(w: World, inline: seq<Page>, changed: seq<Page>, o: ObjRef)
    requires forall p :: p in changed ==> p in inline
    requires o in Touched(changed) && !Has(w, o)
    ensures o in Introduced(changed + Scaffold(w, inline, changed, |changed|)) <==> InlineLineage(inline, o).Some?
  {
    var added := Scaffold(w, inline, changed, |changed|);
    var all := changed + added;
    if o in Introduced(all) {
      var p :| p in all && p.Lineage? && p.object_ == o;
      if p in changed { InlineLineageFound(inline, p); } else { ScaffoldFromInline(w, inline, changed, |changed|, p); }
    }
    if InlineLineage(inline, o).Some? {
      var i :| 0 <= i < |changed| && changed[i].object_ == o;
      ScaffoldCovers(w, inline, changed, |changed|, i);
      var p :| (p in changed || p in added) && p.Lineage? && p.object_ == o;
      assert p in all;
    }
  }

  lemma BuildsIff(w: World, inline: seq<Page>, changed: seq<Page>)
    requires forall p :: p in changed ==> p in inline
    ensures var all := changed + Scaffold(w, inline, changed, |changed|);
            MissingLineage(w, all) <==> exists o :: o in Touched(changed) && !Has(w, o) && InlineLineage(inline, o).None?
  {
    var added := Scaffold(w, inline, changed, |changed|);
    var all := changed + added;
    ScaffoldFacts(w, inline, changed, |changed|);
    assert Touched(all) == Touched(changed);
    forall o | o in Touched(changed) && !Has(w, o)
      ensures o in Introduced(all) <==> InlineLineage(inline, o).Some?
    {
      IntroducedIff(w, inline, changed, o);
    }
  }

  // ------------------------------------------------------- when a merge returns

  /** A reference that must be resolved and cannot be. */
  ghost predicate Unresolved(w: World, keeps: bool, table: Table, slice: Slice) {
    exists r :: r in slice.refs && DecisionFor(w, keeps, table, slice, r).Fail?
  }

  /** A page that lands, for an object neither present nor given a lineage by the inline pages. */
  ghost predicate Unbuildable(w: World, keeps: bool, table: Table, slice: Slice) {
    exists r :: r in slice.refs && Unbuilt(w, keeps, table, slice, r)
  }

  ghost predicate Unbuilt(w: World, keeps: bool, table: Table, slice: Slice, r: Ref) {
    && DecisionFor(w, keeps, table, slice, r).Take?
    && !Has(w, r.cell.object_) && InlineLineage(slice.inline, r.cell.object_).None?
  }

  lemma TakenFacts(w: World, keeps: bool, table: Table, slice: Slice, r: Ref)
    requires DecisionFor(w, keeps, table, slice, r).Take?
    ensures r.hash in slice.inline && CellOf(r.hash) == r.cell && r.hash.object_ == r.cell.object_
  {
  }

  /** What the decisions of a merge without failures change. */
  lemma ChangedAreTaken(w: World, keeps: bool, table: Table, slice: Slice, done: Progress)
    requires UniqueRefs(slice.refs) && done == DecideAll(Deciding(w, slice.inline, keeps), table, slice.refs) && done.Going?
    ensures forall p :: p in done.changed ==> p in slice.inline
    ensures forall o :: o in Touched(done.changed) ==>
              exists r :: r in slice.refs && DecisionFor(w, keeps, table, slice, r).Take? && r.cell.object_ == o
  {
    var decide := Deciding(w, slice.inline, keeps);
    DecidingProper(w, slice.inline, keeps);
    forall p | p in done.changed
      ensures p in slice.inline
      ensures exists r :: r in slice.refs && DecisionFor(w, keeps, table, slice, r).Take? && r.cell.object_ == p.object_
    {
      ChangedWasTaken(decide, table, slice.refs, p);
      var r :| r in slice.refs && r.hash == p && decide(Recorded(table, r.cell), r).Take?;
      TakenFacts(w, keeps, table, slice, r);
    }
  }

  lemma TakenIsChanged(w: World, keeps: bool, table: Table, slice: Slice, done: Progress, r: Ref)
    requires UniqueRefs(slice.refs) && done == DecideAll(Deciding(w, slice.inline, keeps), table, slice.refs) && done.Going?
    requires r in slice.refs
    ensures var d := DecisionFor(w, keeps, table, slice, r);
            !d.Fail? && (d.Take? ==> r.hash in done.changed && r.cell.object_ in Touched(done.changed))
  {
    DecidingProper(w, slice.inline, keeps);
    ReferredCell(Deciding(w, slice.inline, keeps), table, slice.refs, r);
    if DecisionFor(w, keeps, table, slice, r).Take? { TakenFacts(w, keeps, table, slice, r); }
  }

  lemma GoingThrowsIff(w: World, keeps: bool, table: Table, slice: Slice, done: Progress)
    requires UniqueRefs(slice.refs) && done == DecideAll(Deciding(w, slice.inline, keeps), table, slice.refs) && done.Going?
    ensures MergePages(w, keeps, table, slice).Threw? <==> Unbuildable(w, keeps, table, slice)
  {
    ChangedAreTaken(w, keeps, table, slice, done);
    BuildsIff(w, slice.inline, done.changed);
    if r :| r in slice.refs && Unbuilt(w, keeps, table, slice, r) {
      TakenIsChanged(w, keeps, table, slice, done, r);
    }
    if done.changed != [] && MergePages(w, keeps, table, slice).Threw? {
      var o :| o in Touched(done.changed) && !Has(w, o) && InlineLineage(slice.inline, o).None?;
      var r :| r in slice.refs && DecisionFor(w, keeps, table, slice, r).Take? && r.cell.object_ == o;
      assert Unbuilt(w, keeps, table, slice, r);
    }
  }

  /** A merge stops exactly on a page it must resolve and cannot, or on an object it cannot build. */
  lemma MergeStopsExactly(w: World, keeps: bool, table: Table, slice: Slice)
    requires UniqueRefs(slice.refs)
    ensures MergePages(w, keeps, table, slice).Threw? <==>
            Unresolved(w, keeps, table, slice) || Unbuildable(w, keeps, table, slice)
  {
    var decide := Deciding(w, slice.inline, keeps);
    DecidingProper(w, slice.inline, keeps);
    var done := DecideAll(decide, table, slice.refs);
    if done.Going? {
      GoingThrowsIff(w, keeps, table, slice, done);
      forall r | r in slice.refs ensures !DecisionFor(w, keeps, table, slice, r).Fail? {
        TakenIsChanged(w, keeps, table, slice, done, r);
      }
    } else if !Unresolved(w, keeps, table, slice) {
      forall r | r in slice.refs ensures !decide(Recorded(table, r.cell), r).Fail? {
        assert decide(Recorded(table, r.cell), r) == DecisionFor(w, keeps, table, slice, r);
      }
      NoFailureGoes(decide, table, slice.refs);
    }
  }

  /** Key-unique slices that carry their pages and identify their objects always merge. */
  lemma CompleteSliceMerges(w: World, keeps: bool, table: Table, slice: Slice)
    requires UniqueRefs(slice.refs) && InlineComplete(slice) && LineageClosed(slice)
    ensures MergePages(w, keeps, table, slice).Merged?
  {
    MergeStopsExactly(w, keeps, table, slice);
    forall r | r in slice.refs ensures InlineLineage(slice.inline, r.cell.object_).Some? {
      var q :| q in slice.refs && q.cell.kind == LineageKind && q.cell.object_ == r.cell.object_;
      assert CellOf(q.hash) == q.cell;
      InlineLineageFound(slice.inline, q.hash);
    }
  }

  lemma {:induction false} AllRefsOf(slices: seq<Slice>, r: Ref)
    requires r in AllRefs(slices)
    ensures exists s :: s in slices && r in s.refs
  {
    var init, last := slices[..|slices| - 1], slices[|slices| - 1];
    assert last in slices;
    if r !in last.refs {
      AllRefsOf(init, r);
      var s :| s in init && r in s.refs;
      assert s in slices;
    }
  }

  /** A combination of slices that carry their pages merges into any world: it never stops. */
  lemma CombinedSliceMerges(order: Layout, slices: seq<Slice>, w: World, keeps: bool, table: Table)
    requires Faithful(order) && forall s :: s in slices ==> InlineComplete(s)
    ensures MergePages(w, keeps, table, Combine(order, slices)).Merged?
  {
    var c := Combine(order, slices);
    CombinedIsMergeable(order, slices);
    forall r | r in c.refs ensures CellOf(r.hash) == r.cell {
      CombinePicksLastMaximal(order, slices, r);
      var i :| IsWinner(AllRefs(slices), r.cell, i) && AllRefs(slices)[i] == r;
      AllRefsOf(slices, r);
    }
    CompleteSliceMerges(w, keeps, table, c);
  }

  // ------------------------------------------------- what a merge that stops leaves

  /** The index of the first reference that fails, or the number of references. */
  function FirstFailure(decide: Decider, table: Table, refs: seq<Ref>): (n: nat)
    ensures n <= |refs|
  {
    if refs == [] then 0
    else
      var init, last := refs[..|refs| - 1], refs[|refs| - 1];
      var n := FirstFailure(decide, table, init);
      if n < |init| || decide(Recorded(table, last.cell), last).Fail? then n else |refs|
  }

  lemma {:induction false} FirstFailureIsFirst(decide: Decider, table: Table, refs: seq<Ref>)
    ensures var n := FirstFailure(decide, table, refs);
            && (forall i :: 0 <= i < n ==> !decide(Recorded(table, refs[i].cell), refs[i]).Fail?)
            && (n < |refs| ==> decide(Recorded(table, refs[n].cell), refs[n]).Fail?)
  {
    if refs != [] { FirstFailureIsFirst(decide, table, refs[..|refs| - 1]); }
  }

  /** Decisions up to the first failure are made, those after it are not. */
  lemma {:induction false} DecidedPrefix(decide: Decider, table: Table, refs: seq<Ref>)
    requires UniqueRefs(refs) && Proper(decide)
    ensures var n := FirstFailure(decide, table, refs);
            && DecideAll(decide, table, refs[..n]).Going?
            && DecideAll(decide, table, refs) == (if n < |refs| then Progress.Stopped(DecideAll(decide, table, refs[..n]).table) else DecideAll(decide, table, refs[..n]))
  {
    if refs != [] {
      var init, last := refs[..|refs| - 1], refs[|refs| - 1];
      DecidedPrefix(decide, table, init);
      var n, m := FirstFailure(decide, table, refs), FirstFailure(decide, table, init);
      assert refs[..|refs|] == refs && init[..|init|] == init && refs[..|init|] == init;
      if m < |init| {
        assert refs[..n] == init[..m];
      } else {
        assert !Referred(init, last.cell);
        UnreferredCell(decide, table, init, last.cell);
      }
    }
  }
}
