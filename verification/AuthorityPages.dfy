/**
 * Which page each cell of a planning world shows after a merge
 * (src/core/authority-slice.ts, mergeAuthorityCellPages), said in terms of
 * the references of the slice and the records of the table alone.
 */
module AuthorityPages {
  import opened Wrappers
  import opened AuthorityCells
  import opened AuthorityMerge
  import opened AuthorityRepair
  import opened AuthorityState
  import opened AuthorityRuns

  lemma OwnerPageIsOnly(refs: seq<Ref>, r: Ref)
    requires UniqueRefs(refs) && r in refs
    ensures OwnerPage(refs, r.cell) == if r.provenance.source == Authoritative then Some(r.hash) else None
  {
    OwnerPageIsCarried(refs, r.cell);
    assert forall q :: q in refs && q.cell == r.cell ==> q == r;
  }

  lemma UnreferredHasNoOwner(refs: seq<Ref>, k: Cell)
    requires !Referred(refs, k)
    ensures OwnerPage(refs, k).None?
  {
    OwnerPageIsCarried(refs, k);
  }

  // -------------------------------------------------------------- unranked cells

  predicate Plain(k: Cell) {
    k.kind == PropertyKind || k.kind == VerbKind
  }

  /** No provenance is kept for the cell: a property or a verb, or no table was supplied. */
  predicate Unranked(keeps: bool, k: Cell) {
    !keeps || Plain(k)
  }

  lemma UnrankedCarried(w: World, inline: seq<Page>, keeps: bool, recorded: Option<Provenance>, r: Ref, after: World, table: Table)
    requires Unranked(keeps, r.cell) && r.cell in w
    requires Carried(w, inline, r, Decide(w, inline, keeps && Tracked(r.cell.kind), recorded, r), after, table)
    ensures r.cell in after
    ensures Unmoved(if r.provenance.source == Authoritative then r.hash else w[r.cell], after[r.cell])
  {
  }

  /**
   * A present cell without provenance shows the owner's page if the slice has
   * one, and the old page otherwise: nothing derived ever overwrites it.
   */
  lemma UnrankedFollowsOwner(w: World, keeps: bool, table: Table, slice: Slice, k: Cell)
    requires WellFormed(w) && UniqueRefs(slice.refs) && MergePages(w, keeps, table, slice).Merged?
    requires k in w && Unranked(keeps, k)
    ensures var m, owner := MergePages(w, keeps, table, slice), OwnerPage(slice.refs, k);
            k in m.world && Unmoved(if owner.Some? then owner.value else w[k], m.world[k])
  {
    if Referred(slice.refs, k) {
      var r :| r in slice.refs && r.cell == k;
      var m := MergePages(w, keeps, table, slice);
      ReferredAfter(w, keeps, table, slice, r);
      UnrankedCarried(w, slice.inline, keeps, Recorded(table, k), r, m.world, m.table);
      OwnerPageIsOnly(slice.refs, r);
    } else {
      UnreferredAfter(w, keeps, table, slice, k);
      UnreferredHasNoOwner(slice.refs, k);
    }
  }

  lemma PlainUnmoved(before: Page, after: Page)
    requires Plain(CellOf(before)) && Unmoved(before, after)
    ensures after == before
  {
  }

  /** A property or a verb after one whole merge: the owner's page, or the page it had. */
  lemma PlainAfterMerge(sort: Sorting, keeps: bool, st: Snapshot, table: Table, a: Authority, k: Cell)
    requires WellFormed(st.world) && UniqueRefs(a.cells.refs) && MergeSlice(sort, keeps, st, table, a).Returned?
    requires k in st.world && Plain(k)
    ensures var after, owner := MergeSlice(sort, keeps, st, table, a).now.world, OwnerPage(a.cells.refs, k);
            k in after && after[k] == if owner.Some? then owner.value else st.world[k]
  {
    var m := MergePages(st.world, keeps, table, a.cells);
    UnrankedFollowsOwner(st.world, keeps, table, a.cells, k);
    MergedWellFormed(st.world, keeps, table, a.cells);
    assert CellOf(m.world[k]) == k;
    RepairTouchesContentsOnly(sort, m.world, k);
  }

  /**
   * Over any run, merges that stop included, a property or a verb that is
   * present shows the owner's page of the latest merge that returned with one,
   * and else the page it had at the start, whatever is on record.
   */
  lemma {:induction false} PlainFollowsOwner(sort: Sorting, c: Held, slices: seq<Authority>, k: Cell)
    requires WellFormed(c.now.world) && KeyUnique(slices) && k in c.now.world && Plain(k)
    ensures var end, latest := Run(sort, c, slices), LatestOwnerPage(sort, c, slices, k);
            k in end.now.world && end.now.world[k] == if latest.Some? then latest.value else c.now.world[k]
    decreases |slices|
  {
    if slices != [] {
      var init, last := slices[..|slices| - 1], slices[|slices| - 1];
      assert last in slices;
      PlainFollowsOwner(sort, c, init, k);
      RunKeepsShape(sort, c, init);
      var before := Run(sort, c, init);
      if Returns(sort, before, last) {
        PlainAfterMerge(sort, true, before.now, before.table, last, k);
      }
    }
  }

  // ---------------------------------------------------------------- ranked cells

  /** On record as something other than the owner's, and no higher than the source. */
  predicate Outranked(recorded: Option<Provenance>, source: Source) {
    recorded.Some? && recorded.value.source != Authoritative && Rank(recorded.value.source) <= Rank(source)
  }

  predicate IsStub(p: Page) {
    p.Lineage? && p.name == p.object_
  }

  /**
   * When a derived page takes the place of another page in a present cell.
   * Where: over a location, exactly if it outranks the record. Over a name,
   * exactly if it outranks the record and brings a name itself. Over an
   * id-as-name stub, exactly if it outranks the record or brings a name that
   * the owner has not ruled out.
   */
  predicate Lands(current: Page, recorded: Option<Provenance>, incoming: Page, source: Source) {
    var byRank := Outranked(recorded, source);
    if current.Live? then byRank
    else if !IsStub(current) then byRank && !IsStub(incoming)
    else byRank || (!IsStub(incoming) && !(recorded.Some? && recorded.value.source == Authoritative))
  }

  lemma DerivedDecision(w: World, inline: seq<Page>, recorded: Option<Provenance>, r: Ref)
    requires WellFormed(w) && r.cell in w && Tracked(r.cell.kind) && r.provenance.source != Authoritative
    requires w[r.cell] != r.hash && r.hash in inline && CellOf(r.hash) == r.cell
    ensures Decide(w, inline, true, recorded, r) ==
            if Lands(w[r.cell], recorded, r.hash, r.provenance.source) then Take(Some(r.provenance)) else Keep(recorded)
  {
    assert CellOf(w[r.cell]) == r.cell;
  }

  /** A derived page lands on a present tracked cell, and on its record, exactly when it may. */
  lemma DerivedLandsExactly(w: World, table: Table, slice: Slice, r: Ref)
    requires WellFormed(w) && UniqueRefs(slice.refs) && MergePages(w, true, table, slice).Merged?
    requires r in slice.refs && Tracked(r.cell.kind) && r.provenance.source != Authoritative
    requires r.cell in w && w[r.cell] != r.hash && r.hash in slice.inline && CellOf(r.hash) == r.cell
    ensures var m, lands := MergePages(w, true, table, slice), Lands(w[r.cell], Recorded(table, r.cell), r.hash, r.provenance.source);
            && r.cell in m.world
            && Unmoved(if lands then r.hash else w[r.cell], m.world[r.cell])
            && Recorded(m.table, r.cell) == if lands then Some(r.provenance) else Recorded(table, r.cell)
  {
    ReferredAfter(w, true, table, slice, r);
    DerivedDecision(w, slice.inline, Recorded(table, r.cell), r);
  }

  /** A page that repeats what the cell shows leaves it, and puts the stronger provenance on record. */
  lemma RepeatedPage(w: World, table: Table, slice: Slice, r: Ref)
    requires WellFormed(w) && UniqueRefs(slice.refs) && MergePages(w, true, table, slice).Merged?
    requires r in slice.refs && Tracked(r.cell.kind) && r.cell in w && w[r.cell] == r.hash
    ensures var m, recorded := MergePages(w, true, table, slice), Recorded(table, r.cell);
            && r.cell in m.world && Unmoved(w[r.cell], m.world[r.cell])
            && Recorded(m.table, r.cell).Some?
            && (Recorded(m.table, r.cell) == Some(r.provenance) || Recorded(m.table, r.cell) == recorded)
            && Rank(m.table[r.cell].source) >= Rank(r.provenance.source)
            && (recorded.Some? ==> Rank(m.table[r.cell].source) >= Rank(recorded.value.source))
  {
    ReferredAfter(w, true, table, slice, r);
  }

  /** A different page that the slice does not carry leaves a present cell and its record alone, if the merge returns. */
  lemma UncarriedIsKept(w: World, keeps: bool, table: Table, slice: Slice, r: Ref)
    requires WellFormed(w) && UniqueRefs(slice.refs) && MergePages(w, keeps, table, slice).Merged?
    requires r in slice.refs && r.cell in w && w[r.cell] != r.hash && (r.hash !in slice.inline || CellOf(r.hash) != r.cell)
    ensures var m := MergePages(w, keeps, table, slice);
            && r.cell in m.world && Unmoved(w[r.cell], m.world[r.cell])
            && Recorded(m.table, r.cell) == Recorded(table, r.cell)
            && r.provenance.source != Authoritative
  {
    ReferredAfter(w, keeps, table, slice, r);
  }

  // ---------------------------------------------------------------- missing cells

  /** A missing cell takes the page of its reference whatever its source, and a tracked one goes on record with it. */
  lemma MissingCellIsFilled(w: World, keeps: bool, table: Table, slice: Slice, r: Ref)
    requires WellFormed(w) && UniqueRefs(slice.refs) && MergePages(w, keeps, table, slice).Merged?
    requires r in slice.refs && r.cell !in w
    ensures var m := MergePages(w, keeps, table, slice);
            && r.hash in slice.inline && CellOf(r.hash) == r.cell
            && r.cell in m.world && m.world[r.cell] == Normal(r.hash)
            && (keeps && Tracked(r.cell.kind) ==> Recorded(m.table, r.cell) == Some(r.provenance))
  {
    ReferredAfter(w, keeps, table, slice, r);
  }

  lemma {:induction false} ScaffoldIsInline(w: World, inline: seq<Page>, changed: seq<Page>, n: nat)
    requires n <= |changed|
    ensures forall p :: p in Scaffold(w, inline, changed, n) ==> p in inline
  {
    if n > 0 {
      ScaffoldIsInline(w, inline, changed, n - 1);
      InlineLineageShape(inline, changed[n - 1].object_);
    }
  }

  /** What no reference names stays missing, but for what a new object needs: a lineage the slice carries and an empty row. */
  lemma NothingElseAppears(w: World, keeps: bool, table: Table, slice: Slice, k: Cell)
    requires WellFormed(w) && UniqueRefs(slice.refs) && MergePages(w, keeps, table, slice).Merged?
    requires k !in w && !Referred(slice.refs, k) && k in MergePages(w, keeps, table, slice).world
    ensures var m := MergePages(w, keeps, table, slice);
            || (k == LineageCell(k.object_) && m.world[k] in slice.inline && CellOf(m.world[k]) == k)
            || (k == LiveCell(k.object_) && m.world[k] == Empty(k.object_))
  {
    var done := Decided(w, keeps, table, slice);
    UnreferredCell(Deciding(w, slice.inline, keeps), table, slice.refs, k);
    var added := Scaffold(w, slice.inline, done.changed, |done.changed|);
    ScaffoldedUnique(w, slice.inline, done.changed);
    ScaffoldIsInline(w, slice.inline, done.changed, |done.changed|);
    MaterializedCell(w, done.changed + added, k);
    if Wrote(done.changed + added, k) {
      var p :| p in done.changed + added && CellOf(p) == k;
      assert p in added;
    }
  }
}
