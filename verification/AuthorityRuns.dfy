/**
 * Safety of the authority merge over whole runs: any sequence of cell slices
 * merged into one planning cache that keeps one provenance table.
 */
module AuthorityRuns {
  import opened Wrappers
  import opened AuthorityCells
  import opened AuthorityMerge
  import opened AuthorityRepair
  import opened AuthorityState
  import opened AuthorityReturns
  import opened AuthorityCombine

  /** The identity or location a tracked cell shows; contents and children are projections. */
  ghost predicate Shows(w: World, k: Cell, p: Page) {
    && k in w
    && if p.Live? then w[k].Live? && w[k].location == p.location else w[k] == p
  }

  /** The cell shows `p`, and is on record as authoritative. */
  ghost predicate Holds(w: World, table: Table, k: Cell, p: Page) {
    Shows(w, k, p) && k in table && table[k].source == Authoritative
  }

  predicate FromOwner(r: Ref, k: Cell) {
    r.cell == k && r.provenance.source == Authoritative
  }

  /** The owner's page for a cell, if the references carry one. */
  function OwnerPage(refs: seq<Ref>, k: Cell): Option<Page> {
    if refs == [] then None
    else if FromOwner(refs[|refs| - 1], k) then Some(refs[|refs| - 1].hash)
    else OwnerPage(refs[..|refs| - 1], k)
  }

  lemma {:induction false} OwnerPageIsCarried(refs: seq<Ref>, k: Cell)
    ensures OwnerPage(refs, k).Some? ==> exists r :: r in refs && FromOwner(r, k) && r.hash == OwnerPage(refs, k).value
    ensures OwnerPage(refs, k).None? ==> forall r :: r in refs ==> !FromOwner(r, k)
  {
    if refs != [] {
      var init, last := refs[..|refs| - 1], refs[|refs| - 1];
      OwnerPageIsCarried(init, k);
      assert refs == init + [last];
      assert last in refs;
      if !FromOwner(last, k) && OwnerPage(init, k).Some? {
        var r :| r in init && FromOwner(r, k) && r.hash == OwnerPage(init, k).value;
        assert r in refs;
      }
    }
  }

  // ------------------------------------------------------------------ one merge

  lemma UnmovedShows(before: Page, after: Page, p: Page)
    requires Unmoved(before, after)
    ensures before.Live? ==> after.Live? && after.location == before.location
    ensures !before.Live? ==> after == before
  {
  }

  /** What an owner's reference leaves in its cell. */
  lemma OwnerCarried(w: World, inline: seq<Page>, recorded: Option<Provenance>, r: Ref, after: World, table: Table)
    requires r.provenance.source == Authoritative
    requires Carried(w, inline, r, Decide(w, inline, true, recorded, r), after, table)
    ensures Holds(after, table, r.cell, r.hash)
  {
    if Decide(w, inline, true, recorded, r).Keep? {
      UnmovedShows(w[r.cell], after[r.cell], r.hash);
    }
  }

  /** What a derived reference leaves in a cell held for its owner. */
  lemma DerivedCarried(w: World, inline: seq<Page>, before: Table, r: Ref, after: World, table: Table, p: Page)
    requires r.provenance.source != Authoritative && Holds(w, before, r.cell, p)
    requires Carried(w, inline, r, Decide(w, inline, true, Recorded(before, r.cell), r), after, table)
    ensures Holds(after, table, r.cell, p)
  {
    assert Decide(w, inline, true, Recorded(before, r.cell), r) == Keep(Some(before[r.cell]));
    UnmovedShows(w[r.cell], after[r.cell], p);
  }

  lemma OwnerPageLands(w: World, table: Table, slice: Slice, r: Ref)
    requires WellFormed(w) && UniqueRefs(slice.refs) && MergePages(w, true, table, slice).Merged?
    requires r in slice.refs && Tracked(r.cell.kind) && r.provenance.source == Authoritative
    ensures var m := MergePages(w, true, table, slice); Holds(m.world, m.table, r.cell, r.hash)
  {
    var m := MergePages(w, true, table, slice);
    ReferredAfter(w, true, table, slice, r);
    OwnerCarried(w, slice.inline, Recorded(table, r.cell), r, m.world, m.table);
  }

  lemma DerivedPageBounces(w: World, table: Table, slice: Slice, r: Ref, p: Page)
    requires WellFormed(w) && UniqueRefs(slice.refs) && MergePages(w, true, table, slice).Merged?
    requires r in slice.refs && Tracked(r.cell.kind) && r.provenance.source != Authoritative
    requires Holds(w, table, r.cell, p)
    ensures var m := MergePages(w, true, table, slice); Holds(m.world, m.table, r.cell, p)
  {
    var m := MergePages(w, true, table, slice);
    ReferredAfter(w, true, table, slice, r);
    DerivedCarried(w, slice.inline, table, r, m.world, m.table, p);
  }

  lemma PagesKeepAuthority(w: World, table: Table, slice: Slice, k: Cell, p: Page)
    requires WellFormed(w) && UniqueRefs(slice.refs) && MergePages(w, true, table, slice).Merged? && Tracked(k.kind)
    requires OwnerPage(slice.refs, k) == Some(p) || (OwnerPage(slice.refs, k).None? && Holds(w, table, k, p))
    ensures var m := MergePages(w, true, table, slice); Holds(m.world, m.table, k, p)
  {
    OwnerPageIsCarried(slice.refs, k);
    if OwnerPage(slice.refs, k).Some? {
      var r :| r in slice.refs && FromOwner(r, k) && r.hash == p;
      OwnerPageLands(w, table, slice, r);
    } else if Referred(slice.refs, k) {
      var r :| r in slice.refs && r.cell == k;
      DerivedPageBounces(w, table, slice, r, p);
    } else {
      UnreferredAfter(w, true, table, slice, k);
      UnmovedShows(w[k], MergePages(w, true, table, slice).world[k], p);
    }
  }

  lemma MergeKeepsAuthority(sort: Sorting, st: Snapshot, table: Table, a: Authority, k: Cell, p: Page)
    requires WellFormed(st.world) && UniqueRefs(a.cells.refs) && Tracked(k.kind)
    requires MergeSlice(sort, true, st, table, a).Returned?
    requires OwnerPage(a.cells.refs, k) == Some(p) || (OwnerPage(a.cells.refs, k).None? && Holds(st.world, table, k, p))
    ensures var m := MergeSlice(sort, true, st, table, a); Holds(m.now.world, m.table, k, p)
  {
    PagesKeepAuthority(st.world, table, a.cells, k, p);
    RepairTouchesContentsOnly(sort, MergePages(st.world, true, table, a.cells).world, k);
  }

  lemma MergeKeepsShape(sort: Sorting, keeps: bool, st: Snapshot, table: Table, a: Authority)
    requires WellFormed(st.world) && UniqueRefs(a.cells.refs) && MergeSlice(sort, keeps, st, table, a).Returned?
    ensures WellFormed(MergeSlice(sort, keeps, st, table, a).now.world)
    ensures Lists(sort) && NormalWorld(st.world) ==> NormalWorld(MergeSlice(sort, keeps, st, table, a).now.world)
  {
    MergedWellFormed(st.world, keeps, table, a.cells);
    var merged := MergePages(st.world, keeps, table, a.cells).world;
    RepairWellFormed(sort, merged);
    if Lists(sort) && NormalWorld(st.world) { RepairNormal(sort, merged); }
  }

  // ----------------------------------------------- records, whether or not merges return

  /** On record as authoritative. */
  ghost predicate Owned(table: Table, k: Cell) {
    k in table && table[k].source == Authoritative
  }

  /** A decision procedure that never gives up a cell's authoritative record. */
  ghost predicate KeepsOwned(decide: Decider, k: Cell) {
    forall recorded: Option<Provenance>, r: Ref ::
      r.cell == k && recorded.Some? && recorded.value.source == Authoritative ==>
        var d := decide(recorded, r); d.Fail? || (d.recorded.Some? && d.recorded.value.source == Authoritative)
  }

  lemma DecidingKeepsOwned(w: World, inline: seq<Page>, k: Cell)
    requires k in w && Tracked(k.kind)
    ensures KeepsOwned(Deciding(w, inline, true), k)
  {
    var decide := Deciding(w, inline, true);
    forall recorded: Option<Provenance>, r: Ref | r.cell == k && recorded.Some? && recorded.value.source == Authoritative
      ensures var d := decide(recorded, r); d.Fail? || (d.recorded.Some? && d.recorded.value.source == Authoritative)
    {
      assert decide(recorded, r) == Decide(w, inline, true, recorded, r);
    }
  }

  lemma {:induction false} DecisionsKeepOwned(decide: Decider, table: Table, refs: seq<Ref>, k: Cell)
    requires KeepsOwned(decide, k) && Owned(table, k)
    ensures Owned(DecideAll(decide, table, refs).table, k)
  {
    if refs != [] {
      DecisionsKeepOwned(decide, table, refs[..|refs| - 1], k);
    }
  }

  lemma {:induction false} PutKeepsCells(w: World, pages: seq<Page>, k: Cell)
    requires k in w
    ensures k in Put(w, pages)
  {
    if pages != [] { PutKeepsCells(w, pages[..|pages| - 1], k); }
  }

  /** No merge, returned or stopped, takes a present cell away or its authoritative record. */
  lemma RecordStays(w: World, table: Table, slice: Slice, k: Cell)
    requires k in w && Tracked(k.kind) && Owned(table, k)
    ensures var m := MergePages(w, true, table, slice); Owned(m.table, k) && (m.Merged? ==> k in m.world)
  {
    var decide := Deciding(w, slice.inline, true);
    DecidingKeepsOwned(w, slice.inline, k);
    DecisionsKeepOwned(decide, table, slice.refs, k);
    var done := DecideAll(decide, table, slice.refs);
    if done.Going? && done.changed != [] {
      var added := Scaffold(w, slice.inline, done.changed, |done.changed|);
      ScaffoldRecord(done.table, added, k);
      PutKeepsCells(w, done.changed + added, k);
    }
  }

  // ---------------------------------------------------------------- whole runs

  /** Merging slices one after another into one cache, which goes on being used after a merge that stops. */
  function Run(sort: Sorting, c: Held, slices: seq<Authority>): Held
    decreases |slices|
  {
    if slices == [] then c else MergeInto(sort, Run(sort, c, slices[..|slices| - 1]), slices[|slices| - 1])
  }

  predicate Returns(sort: Sorting, c: Held, a: Authority) {
    MergeSlice(sort, true, c.now, c.table, a).Returned?
  }

  /** The owner's page for a cell in the latest merge that returned and had one. */
  function LatestOwnerPage(sort: Sorting, c: Held, slices: seq<Authority>, k: Cell): Option<Page>
    decreases |slices|
  {
    if slices == [] then None
    else
      var init, last := slices[..|slices| - 1], slices[|slices| - 1];
      var here := if Returns(sort, Run(sort, c, init), last) then OwnerPage(last.cells.refs, k) else None;
      if here.Some? then here else LatestOwnerPage(sort, c, init, k)
  }

  ghost predicate KeyUnique(slices: seq<Authority>) {
    forall a :: a in slices ==> UniqueRefs(a.cells.refs)
  }

  lemma {:induction false} RunKeepsShape(sort: Sorting, c: Held, slices: seq<Authority>)
    requires WellFormed(c.now.world) && KeyUnique(slices)
    ensures WellFormed(Run(sort, c, slices).now.world)
    ensures Lists(sort) && NormalWorld(c.now.world) ==> NormalWorld(Run(sort, c, slices).now.world)
    decreases |slices|
  {
    if slices != [] {
      var init, last := slices[..|slices| - 1], slices[|slices| - 1];
      assert last in slices;
      RunKeepsShape(sort, c, init);
      var before := Run(sort, c, init);
      if Returns(sort, before, last) { MergeKeepsShape(sort, true, before.now, before.table, last); }
    }
  }

  lemma MergeKeepsRecord(sort: Sorting, c: Held, a: Authority, k: Cell)
    requires k in c.now.world && Tracked(k.kind) && Owned(c.table, k)
    ensures var d := MergeInto(sort, c, a); k in d.now.world && Owned(d.table, k)
  {
    RecordStays(c.now.world, c.table, a.cells, k);
    if Returns(sort, c, a) {
      RepairTouchesContentsOnly(sort, MergePages(c.now.world, true, c.table, a.cells).world, k);
    }
  }

  /** Over any run at all, a present cell on record as authoritative stays present and on record. */
  lemma {:induction false} RecordsAreSticky(sort: Sorting, c: Held, slices: seq<Authority>, k: Cell)
    requires k in c.now.world && Tracked(k.kind) && Owned(c.table, k)
    ensures var end := Run(sort, c, slices); k in end.now.world && Owned(end.table, k)
    decreases |slices|
  {
    if slices != [] {
      RecordsAreSticky(sort, c, slices[..|slices| - 1], k);
      MergeKeepsRecord(sort, Run(sort, c, slices[..|slices| - 1]), slices[|slices| - 1], k);
    }
  }

  /**
   * Authority is sticky: after any run, merges that stop included, a tracked cell
   * shows the owner's page of the latest merge that returned with one and is on
   * record as authoritative; a cell so held at the start that no such page
   * reaches is held with the same page at the end.
   */
  lemma {:induction false} AuthorityIsSticky(sort: Sorting, c: Held, slices: seq<Authority>, k: Cell, p: Page)
    requires WellFormed(c.now.world) && KeyUnique(slices) && Tracked(k.kind)
    requires var latest := LatestOwnerPage(sort, c, slices, k);
             latest == Some(p) || (latest.None? && Holds(c.now.world, c.table, k, p))
    ensures var end := Run(sort, c, slices); Holds(end.now.world, end.table, k, p)
    decreases |slices|
  {
    if slices != [] {
      var init, last := slices[..|slices| - 1], slices[|slices| - 1];
      assert last in slices;
      RunKeepsShape(sort, c, init);
      var before := Run(sort, c, init);
      if !Returns(sort, before, last) || OwnerPage(last.cells.refs, k).None? {
        AuthorityIsSticky(sort, c, init, k, p);
      }
      if Returns(sort, before, last) {
        MergeKeepsAuthority(sort, before.now, before.table, last, k, p);
      } else {
        MergeKeepsRecord(sort, before, last, k);
      }
    }
  }

  // ----------------------------------------------------------------- identities

  ghost predicate Named(w: World, o: ObjRef) {
    NameOf(w, o).Some? && NameOf(w, o).value != o
  }

  /** The owner itself says that the object's name is its id. */
  ghost predicate OwnerBlanks(refs: seq<Ref>, o: ObjRef) {
    exists r :: r in refs && FromOwner(r, LineageCell(o)) && r.hash.Lineage? && r.hash.name == o
  }

  /** What a reference leaves of a name: gone exactly by an owner's page that blanks it. */
  lemma NameCarried(w: World, inline: seq<Page>, recorded: Option<Provenance>, r: Ref, after: World, table: Table, o: ObjRef)
    requires Named(w, o) && r.cell == LineageCell(o)
    requires Carried(w, inline, r, Decide(w, inline, true, recorded, r), after, table)
    ensures NameOf(after, o).Some?
    ensures Named(after, o) <==> !(r.provenance.source == Authoritative && r.hash.Lineage? && r.hash.name == o)
  {
  }

  lemma PagesKeepName(w: World, table: Table, slice: Slice, o: ObjRef)
    requires WellFormed(w) && UniqueRefs(slice.refs) && MergePages(w, true, table, slice).Merged? && Named(w, o)
    ensures var v := MergePages(w, true, table, slice).world;
            NameOf(v, o).Some? && (Named(v, o) <==> !OwnerBlanks(slice.refs, o))
  {
    var k, m := LineageCell(o), MergePages(w, true, table, slice);
    if Referred(slice.refs, k) {
      var r :| r in slice.refs && r.cell == k;
      ReferredAfter(w, true, table, slice, r);
      NameCarried(w, slice.inline, Recorded(table, k), r, m.world, m.table, o);
      OnlyReference(slice.refs, r, o);
    } else {
      UnreferredAfter(w, true, table, slice, k);
    }
  }

  lemma OnlyReference(refs: seq<Ref>, r: Ref, o: ObjRef)
    requires UniqueRefs(refs) && r in refs && r.cell == LineageCell(o)
    ensures OwnerBlanks(refs, o) <==> r.provenance.source == Authoritative && r.hash.Lineage? && r.hash.name == o
  {
    assert forall q :: q in refs && q.cell == r.cell ==> q == r;
  }

  /** A named identity becomes an id-as-name stub in a merge exactly when its owner says so. */
  lemma NameLostOnlyByOwner(sort: Sorting, st: Snapshot, table: Table, a: Authority, o: ObjRef)
    requires WellFormed(st.world) && UniqueRefs(a.cells.refs) && Named(st.world, o)
    requires MergeSlice(sort, true, st, table, a).Returned?
    ensures Named(MergeSlice(sort, true, st, table, a).now.world, o) <==> !OwnerBlanks(a.cells.refs, o)
  {
    PagesKeepName(st.world, table, a.cells, o);
    RepairTouchesContentsOnly(sort, MergePages(st.world, true, table, a.cells).world, LineageCell(o));
  }

  /** Over any run without an owner's stub page, merges that stop included, a name is never lost. */
  lemma {:induction false} NamesSurviveRuns(sort: Sorting, c: Held, slices: seq<Authority>, o: ObjRef)
    requires WellFormed(c.now.world) && KeyUnique(slices) && Named(c.now.world, o)
    requires forall a :: a in slices ==> !OwnerBlanks(a.cells.refs, o)
    ensures Named(Run(sort, c, slices).now.world, o)
    decreases |slices|
  {
    if slices != [] {
      var init, last := slices[..|slices| - 1], slices[|slices| - 1];
      assert last in slices;
      RunKeepsShape(sort, c, init);
      NamesSurviveRuns(sort, c, init, o);
      var before := Run(sort, c, init);
      if Returns(sort, before, last) { NameLostOnlyByOwner(sort, before.now, before.table, last, o); }
    }
  }

  // ---------------------------------------- the records a merge leaves, stopped or not

  /** A derived named page repairing a stub that a stronger derived source left. */
  ghost predicate RepairsFromBelow(w: World, table: Table, slice: Slice, r: Ref) {
    var k := r.cell;
    && k.kind == LineageKind && k in table && table[k].source != Authoritative
    && Rank(r.provenance.source) < Rank(table[k].source)
    && NameOf(w, k.object_) == Some(k.object_) && ResolvesNamed(slice.inline, r)
  }

  /** A page from a weaker source filling a cell that is on record but missing. */
  ghost predicate FillsFromBelow(w: World, table: Table, r: Ref) {
    r.cell !in w && r.cell in table && Rank(r.provenance.source) < Rank(table[r.cell].source)
  }

  /** How far a merge gets: the first reference it must resolve and cannot, or the end. */
  function StopsAt(w: World, table: Table, slice: Slice): nat {
    FirstFailure(Deciding(w, slice.inline, true), table, slice.refs)
  }

  ghost predicate OwnerBefore(refs: seq<Ref>, n: nat, k: Cell) {
    exists j :: 0 <= j < n && j < |refs| && FromOwner(refs[j], k)
  }

  /**
   * The table a merge leaves is that of the decisions it made; scaffolding adds
   * fallback records for cells that are missing and not on record.
   */
  lemma LeftRecord(w: World, table: Table, slice: Slice, k: Cell)
    requires WellFormed(w) && UniqueRefs(slice.refs)
    ensures var decide, n := Deciding(w, slice.inline, true), StopsAt(w, table, slice);
            && DecideAll(decide, table, slice.refs[..n]).Going?
            && var made := Recorded(DecideAll(decide, table, slice.refs[..n]).table, k);
               var left := Recorded(MergePages(w, true, table, slice).table, k);
               left == made || (k !in w && made.None? && left == Some(Provenance(Fallback, None)))
  {
    var decide := Deciding(w, slice.inline, true);
    DecidingProper(w, slice.inline, true);
    DecidedPrefix(decide, table, slice.refs);
    var done := DecideAll(decide, table, slice.refs);
    if done.Going? {
      ChangedUnique(decide, table, slice.refs);
      AppliedRecord(w, slice.inline, true, done.table, done.changed, k);
      ScaffoldRecord(done.table, Scaffold(w, slice.inline, done.changed, |done.changed|), k);
    }
  }

  /** The record a merge leaves for a cell on record: that of the decision on its reference, if that was reached. */
  lemma RecordLeft(w: World, table: Table, slice: Slice, i: nat)
    requires WellFormed(w) && UniqueRefs(slice.refs) && i < |slice.refs|
    requires Tracked(slice.refs[i].cell.kind) && slice.refs[i].cell in table
    ensures var r, m := slice.refs[i], MergePages(w, true, table, slice);
            var d := Decide(w, slice.inline, true, Recorded(table, r.cell), r);
            && (i < StopsAt(w, table, slice) ==> !d.Fail? && d.recorded.Some? && Recorded(m.table, r.cell) == d.recorded)
            && (i >= StopsAt(w, table, slice) ==> Recorded(m.table, r.cell) == Recorded(table, r.cell))
  {
    var decide, n, r := Deciding(w, slice.inline, true), StopsAt(w, table, slice), slice.refs[i];
    DecidingProper(w, slice.inline, true);
    LeftRecord(w, table, slice, r.cell);
    if i < n {
      assert slice.refs[..n][i] == r;
      ReferredCell(decide, table, slice.refs[..n], r);
      assert decide(Recorded(table, r.cell), r) == Decide(w, slice.inline, true, Recorded(table, r.cell), r);
    } else {
      UnreferredCell(decide, table, slice.refs[..n], r.cell);
    }
  }

  lemma UnreferredLeft(w: World, table: Table, slice: Slice, k: Cell)
    requires WellFormed(w) && UniqueRefs(slice.refs) && !Referred(slice.refs, k) && k in table
    ensures Recorded(MergePages(w, true, table, slice).table, k) == Recorded(table, k)
  {
    var n := StopsAt(w, table, slice);
    DecidingProper(w, slice.inline, true);
    LeftRecord(w, table, slice, k);
    assert forall r :: r in slice.refs[..n] ==> r in slice.refs;
    UnreferredCell(Deciding(w, slice.inline, true), table, slice.refs[..n], k);
  }

  /** A decision on a recorded cell lowers its rank exactly by repairing a stub or by filling a gap from below. */
  lemma DecisionLowers(w: World, table: Table, slice: Slice, r: Ref)
    requires WellFormed(w) && r.cell in table && Tracked(r.cell.kind)
    requires !Decide(w, slice.inline, true, Recorded(table, r.cell), r).Fail?
    ensures var after := Decide(w, slice.inline, true, Recorded(table, r.cell), r).recorded;
            after.Some? && (Rank(after.value.source) < Rank(table[r.cell].source) <==> LowersRank(w, table, slice, r))
  {
    if r.cell in w { assert CellOf(w[r.cell]) == r.cell; }
  }

  ghost predicate LowersRank(w: World, table: Table, slice: Slice, r: Ref) {
    RepairsFromBelow(w, table, slice, r) || FillsFromBelow(w, table, r)
  }

  /** A reference that the merge reached lowers the rank of its cell. */
  ghost predicate ReachedLowering(w: World, table: Table, slice: Slice, k: Cell) {
    exists i :: 0 <= i < |slice.refs| && i < StopsAt(w, table, slice) && slice.refs[i].cell == k && LowersRank(w, table, slice, slice.refs[i])
  }

  /**
   * The recorded rank of a cell drops in a merge, returned or stopped, exactly
   * when the merge reached a reference by which a weaker named page repairs an
   * id-as-name stub or a weaker page fills a missing cell.
   */
  lemma RankDropsExactly(w: World, table: Table, slice: Slice, k: Cell)
    requires WellFormed(w) && UniqueRefs(slice.refs) && Tracked(k.kind) && k in table
    ensures var m := MergePages(w, true, table, slice);
            && k in m.table
            && (Rank(m.table[k].source) < Rank(table[k].source) <==> ReachedLowering(w, table, slice, k))
  {
    if Referred(slice.refs, k) {
      var r :| r in slice.refs && r.cell == k;
      var i :| 0 <= i < |slice.refs| && slice.refs[i] == r;
      RecordLeft(w, table, slice, i);
      if i < StopsAt(w, table, slice) { DecisionLowers(w, table, slice, r); }
      assert forall j :: 0 <= j < |slice.refs| && slice.refs[j].cell == k ==> j == i;
    } else {
      UnreferredLeft(w, table, slice, k);
      forall i | 0 <= i < |slice.refs| ensures slice.refs[i].cell != k { assert slice.refs[i] in slice.refs; }
    }
  }

  /** A tracked cell ends up owned by its owner's page, and by no other unless it was. */
  lemma DecisionOwns(w: World, inline: seq<Page>, recorded: Option<Provenance>, r: Ref)
    requires !Decide(w, inline, true, recorded, r).Fail?
    ensures var after := Decide(w, inline, true, recorded, r).recorded;
            && (r.provenance.source == Authoritative ==> after.Some? && after.value.source == Authoritative)
            && (after.Some? && after.value.source == Authoritative ==>
                  r.provenance.source == Authoritative || (recorded.Some? && recorded.value.source == Authoritative))
  {
  }

  lemma OnlyOwner(refs: seq<Ref>, n: nat, r: Ref)
    requires UniqueRefs(refs) && n <= |refs| && r in refs[..n]
    ensures OwnerBefore(refs, n, r.cell) <==> r.provenance.source == Authoritative
  {
    var j :| 0 <= j < n && refs[..n][j] == r;
    assert refs[j] == r;
  }

  /** If the owner's reference was reached, the cell is on record as authoritative, present or not. */
  lemma ReachedIsOwned(w: World, table: Table, slice: Slice, k: Cell)
    requires WellFormed(w) && UniqueRefs(slice.refs) && Tracked(k.kind) && OwnerBefore(slice.refs, StopsAt(w, table, slice), k)
    ensures Owned(MergePages(w, true, table, slice).table, k)
  {
    var decide, n := Deciding(w, slice.inline, true), StopsAt(w, table, slice);
    var j :| 0 <= j < n && j < |slice.refs| && FromOwner(slice.refs[j], k);
    DecidingProper(w, slice.inline, true);
    LeftRecord(w, table, slice, k);
    assert slice.refs[..n][j] == slice.refs[j];
    ReferredCell(decide, table, slice.refs[..n], slice.refs[j]);
    DecisionOwns(w, slice.inline, Recorded(table, k), slice.refs[j]);
  }

  lemma UnreachedIsNotOwned(w: World, table: Table, slice: Slice, k: Cell)
    requires WellFormed(w) && UniqueRefs(slice.refs) && Tracked(k.kind) && !OwnerBefore(slice.refs, StopsAt(w, table, slice), k)
    requires !Owned(table, k)
    ensures !Owned(MergePages(w, true, table, slice).table, k)
  {
    var decide, n := Deciding(w, slice.inline, true), StopsAt(w, table, slice);
    DecidingProper(w, slice.inline, true);
    LeftRecord(w, table, slice, k);
    if Referred(slice.refs[..n], k) {
      var r :| r in slice.refs[..n] && r.cell == k;
      ReferredCell(decide, table, slice.refs[..n], r);
      DecisionOwns(w, slice.inline, Recorded(table, k), r);
      OnlyOwner(slice.refs, n, r);
    } else {
      UnreferredCell(decide, table, slice.refs[..n], k);
    }
  }

  /**
   * After a merge, returned or stopped, a cell that was not on record as
   * authoritative is so exactly if its owner's reference was reached, whether or
   * not the world holds the cell.
   */
  lemma OwnedIffReached(w: World, table: Table, slice: Slice, k: Cell)
    requires WellFormed(w) && UniqueRefs(slice.refs) && Tracked(k.kind) && !Owned(table, k)
    ensures Owned(MergePages(w, true, table, slice).table, k) <==> OwnerBefore(slice.refs, StopsAt(w, table, slice), k)
  {
    if OwnerBefore(slice.refs, StopsAt(w, table, slice), k) {
      ReachedIsOwned(w, table, slice, k);
    } else {
      UnreachedIsNotOwned(w, table, slice, k);
    }
  }

  /** The world holds another page than the owner sent, or none. */
  ghost predicate Lacks(w: World, refs: seq<Ref>, k: Cell) {
    OwnerPage(refs, k).Some? && (k in w ==> w[k] != OwnerPage(refs, k).value)
  }

  /** On record as authoritative, without the page its owner sent. */
  ghost predicate Mislabelled(w: World, table: Table, refs: seq<Ref>, k: Cell) {
    Owned(table, k) && Lacks(w, refs, k)
  }

  /** Where the owner's reference is the only one and was not reached, the record is as before. */
  lemma OwnedStaysUnreached(w: World, table: Table, slice: Slice, k: Cell)
    requires WellFormed(w) && UniqueRefs(slice.refs) && Owned(table, k) && OwnerPage(slice.refs, k).Some?
    requires Tracked(k.kind) && !OwnerBefore(slice.refs, StopsAt(w, table, slice), k)
    ensures Owned(MergePages(w, true, table, slice).table, k)
  {
    OwnerPageIsCarried(slice.refs, k);
    var r :| r in slice.refs && FromOwner(r, k);
    var i :| 0 <= i < |slice.refs| && slice.refs[i] == r;
    RecordLeft(w, table, slice, i);
  }

  /**
   * A merge that stops leaves a cell on record as authoritative without its
   * owner's page exactly when the world lacks that page and its reference was
   * reached before the failure, or the cell was on record as authoritative already.
   */
  lemma StoppedMergeMislabels(w: World, table: Table, slice: Slice, k: Cell)
    requires WellFormed(w) && UniqueRefs(slice.refs) && Tracked(k.kind)
    requires MergePages(w, true, table, slice).Threw?
    ensures Mislabelled(w, MergePages(w, true, table, slice).table, slice.refs, k) <==>
            Lacks(w, slice.refs, k) && (OwnerBefore(slice.refs, StopsAt(w, table, slice), k) || Owned(table, k))
  {
    if OwnerBefore(slice.refs, StopsAt(w, table, slice), k) {
      ReachedIsOwned(w, table, slice, k);
    } else if Owned(table, k) {
      if Lacks(w, slice.refs, k) { OwnedStaysUnreached(w, table, slice, k); }
    } else {
      UnreachedIsNotOwned(w, table, slice, k);
    }
  }

  // ------------------------------------------------------------- concrete merges

  /** One reference that is decided and one that fails: the merge stops between them. */
  lemma StopsAtSecond(w: World, table: Table, slice: Slice, a: Ref, b: Ref)
    requires slice.refs == [a, b] && a.cell != b.cell && Tracked(a.cell.kind)
    requires !Decide(w, slice.inline, true, Recorded(table, a.cell), a).Fail?
    requires Decide(w, slice.inline, Tracked(b.cell.kind), Recorded(table, b.cell), b).Fail?
    ensures UniqueRefs(slice.refs) && MergePages(w, true, table, slice).Threw? && StopsAt(w, table, slice) == 1
  {
    var decide := Deciding(w, slice.inline, true);
    assert [a][..0] == [] && slice.refs[..1] == [a];
    assert FirstFailure(decide, table, []) == 0;
    assert decide(Recorded(table, a.cell), a) == Decide(w, slice.inline, true, Recorded(table, a.cell), a);
    assert decide(Recorded(table, b.cell), b) == Decide(w, slice.inline, Tracked(b.cell.kind), Recorded(table, b.cell), b);
    assert FirstFailure(decide, table, [a]) == 1;
    DecidingProper(w, slice.inline, true);
    DecidedPrefix(decide, table, slice.refs);
  }

  /** An owner's reference to a live page that is neither held nor carried. */
  lemma MissingPageFails(w: World, inline: seq<Page>, recorded: Option<Provenance>, r: Ref)
    requires r.cell in w ==> w[r.cell] != r.hash
    requires r.hash !in inline && r.cell.kind == LiveKind && r.provenance.source == Authoritative
    ensures Decide(w, inline, true, recorded, r).Fail?
  {
  }

  /** An identity that lands, and a live page of the same object that stops the merge. */
  function Interrupted(identity: Ref, source: Provenance): Slice {
    var o := identity.cell.object_;
    Slice([identity, Ref(LiveCell(o), Live(o, Some(o), [], []), source)], [identity.hash])
  }

  lemma InterruptedStops(w: World, table: Table, identity: Ref)
    requires identity.cell.kind == LineageKind && identity.hash.Lineage?
    requires var l := LiveCell(identity.cell.object_); l in w ==> w[l] == Empty(identity.cell.object_)
    requires !Decide(w, [identity.hash], true, Recorded(table, identity.cell), identity).Fail?
    ensures var slice := Interrupted(identity, Provenance(Authoritative, None));
            UniqueRefs(slice.refs) && MergePages(w, true, table, slice).Threw? && StopsAt(w, table, slice) == 1
  {
    var slice := Interrupted(identity, Provenance(Authoritative, None));
    var live := slice.refs[1];
    MissingPageFails(w, slice.inline, Recorded(table, live.cell), live);
    StopsAtSecond(w, table, slice, identity, live);
  }

  /** An owner's name for a stub, then a live page that is not carried: the stub ends up on record as authoritative. */
  lemma MislabelledStub(o: ObjRef, name: string) returns (w: World, identity: Ref)
    requires name != o
    ensures var slice, k := Interrupted(identity, Provenance(Authoritative, None)), LineageCell(o);
            && WellFormed(w) && k in w && UniqueRefs(slice.refs) && MergePages(w, true, map[], slice).Threw?
            && Mislabelled(w, MergePages(w, true, map[], slice).table, slice.refs, k)
  {
    w := map[LineageCell(o) := Lineage(o, o, None, o, ""), LiveCell(o) := Empty(o)];
    identity := Ref(LineageCell(o), Lineage(o, name, None, o, ""), Provenance(Authoritative, None));
    InterruptedOwnerMislabels(w, identity);
  }

  /** The same into an empty world: a missing cell ends up on record as authoritative. */
  lemma MislabelledGap(o: ObjRef, name: string) returns (identity: Ref)
    ensures var slice, k := Interrupted(identity, Provenance(Authoritative, None)), LineageCell(o);
            && UniqueRefs(slice.refs) && MergePages(map[], true, map[], slice).Threw?
            && Mislabelled(map[], MergePages(map[], true, map[], slice).table, slice.refs, k)
  {
    identity := Ref(LineageCell(o), Lineage(o, name, None, o, ""), Provenance(Authoritative, None));
    InterruptedOwnerMislabels(map[], identity);
  }

  lemma InterruptedOwnerMislabels(w: World, identity: Ref)
    requires WellFormed(w) && FromOwner(identity, LineageCell(identity.cell.object_))
    requires CellOf(identity.hash) == identity.cell && (identity.cell in w ==> w[identity.cell] != identity.hash)
    requires var l := LiveCell(identity.cell.object_); l in w ==> w[l] == Empty(identity.cell.object_)
    ensures var slice := Interrupted(identity, Provenance(Authoritative, None));
            && UniqueRefs(slice.refs) && MergePages(w, true, map[], slice).Threw?
            && Mislabelled(w, MergePages(w, true, map[], slice).table, slice.refs, identity.cell)
  {
    var slice := Interrupted(identity, Provenance(Authoritative, None));
    InterruptedStops(w, map[], identity);
    assert FromOwner(slice.refs[0], identity.cell);
    OwnerFirst(slice.refs, identity.cell);
    StoppedMergeMislabels(w, map[], slice, identity.cell);
  }

  lemma OwnerFirst(refs: seq<Ref>, k: Cell)
    requires |refs| == 2 && FromOwner(refs[0], k) && refs[1].cell != k
    ensures OwnerPage(refs, k) == Some(refs[0].hash)
  {
    assert refs[..1][..0] == [];
  }

  lemma OneLineageMerges(w: World, table: Table, r: Ref)
    requires r.cell.kind == LineageKind && CellOf(r.hash) == r.cell
    ensures MergePages(w, true, table, Slice([r], [r.hash])).Merged?
  {
    var slice := Slice([r], [r.hash]);
    assert r in slice.refs && r.cell.object_ in Identities(slice.refs);
    CompleteSliceMerges(w, true, table, slice);
  }

  /** One lineage page is enough to drop a record, by repairing a stub or by filling a missing cell. */
  lemma OneLineageDropsRank(w: World, table: Table, r: Ref)
    requires WellFormed(w) && r.cell.kind == LineageKind && CellOf(r.hash) == r.cell
    requires LowersRank(w, table, Slice([r], [r.hash]), r)
    ensures var m := MergePages(w, true, table, Slice([r], [r.hash]));
            m.Merged? && r.cell in m.table && Rank(m.table[r.cell].source) < Rank(table[r.cell].source)
  {
    var slice := Slice([r], [r.hash]);
    OneLineageMerges(w, table, r);
    LoweredFirst(w, table, slice, r);
  }

  lemma LoweredFirst(w: World, table: Table, slice: Slice, r: Ref)
    requires WellFormed(w) && UniqueRefs(slice.refs) && r.cell.kind == LineageKind && CellOf(r.hash) == r.cell
    requires |slice.refs| > 0 && slice.refs[0] == r && r.hash in slice.inline && LowersRank(w, table, slice, r)
    ensures var m := MergePages(w, true, table, slice);
            r.cell in m.table && Rank(m.table[r.cell].source) < Rank(table[r.cell].source)
  {
    FirstFailureIsFirst(Deciding(w, slice.inline, true), table, slice.refs);
    assert !Decide(w, slice.inline, true, Recorded(table, r.cell), r).Fail?;
    assert Deciding(w, slice.inline, true)(Recorded(table, r.cell), r) == Decide(w, slice.inline, true, Recorded(table, r.cell), r);
    assert 0 < StopsAt(w, table, slice);
    assert ReachedLowering(w, table, slice, r.cell);
    RankDropsExactly(w, table, slice, r.cell);
  }

  /** It is enough in a merge that stops after it too: the record drops while the world keeps its page. */
  lemma InterruptedDropsRank(w: World, table: Table, r: Ref)
    requires WellFormed(w) && r.cell == LineageCell(r.cell.object_) && CellOf(r.hash) == r.cell
    requires LowersRank(w, table, Interrupted(r, Provenance(Authoritative, None)), r)
    requires var l := LiveCell(r.cell.object_); l in w ==> w[l] == Empty(r.cell.object_)
    ensures var m := MergePages(w, true, table, Interrupted(r, Provenance(Authoritative, None)));
            m.Threw? && r.cell in m.table && Rank(m.table[r.cell].source) < Rank(table[r.cell].source)
  {
    InterruptedStops(w, table, r);
    LoweredFirst(w, table, Interrupted(r, Provenance(Authoritative, None)), r);
  }

  /** A projected stub and a gossiped name for it. */
  lemma StubToRepair() returns (w: World, table: Table, r: Ref)
    ensures WellFormed(w) && r.cell == LineageCell("a") && CellOf(r.hash) == r.cell
    ensures RepairsFromBelow(w, table, Slice([r], [r.hash]), r)
    ensures RepairsFromBelow(w, table, Interrupted(r, Provenance(Authoritative, None)), r)
    ensures LiveCell("a") in w && w[LiveCell("a")] == Empty("a")
  {
    var k := LineageCell("a");
    w, table := map[k := Lineage("a", "a", None, "", ""), LiveCell("a") := Empty("a")], map[k := Provenance(Projection, None)];
    r := Ref(k, Lineage("a", "Ann", None, "", ""), Provenance(Gossip, None));
  }

  /** A missing cell on record as authoritative, and gossip to fill it. */
  lemma GapToFill() returns (w: World, table: Table, r: Ref)
    ensures WellFormed(w) && r.cell == LineageCell("a") && CellOf(r.hash) == r.cell
    ensures FillsFromBelow(w, table, r) && Owned(table, r.cell) && LiveCell("a") !in w
  {
    var k := LineageCell("a");
    w, table := map[], map[k := Provenance(Authoritative, None)];
    r := Ref(k, Lineage("a", "Ann", None, "", ""), Provenance(Gossip, None));
  }
}
