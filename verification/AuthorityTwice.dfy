/**
 * Merging the same slice a second time: the contents repair rewrites live rows
 * that the second merge then sets back and repairs again. When the second merge
 * returns, and when it changes nothing.
 */
module AuthorityTwice {
  import opened Wrappers
  import opened AuthorityCells
  import opened AuthorityMerge
  import opened AuthorityRepair
  import opened AuthorityState
  import opened AuthorityReturns

  // ------------------------------------------------------ the second decision

  /** The merge need not resolve the reference, or can. */
  ghost predicate Resolvable(w: World, keeps: bool, table: Table, slice: Slice, r: Ref) {
    || r.hash in slice.inline
    || (r.cell in w && w[r.cell] == r.hash)
    || (r.cell in w && !Replaces(w, slice.inline, keeps && Tracked(r.cell.kind), Recorded(table, r.cell), r))
  }

  /** A page the second merge would write is the live page the first left there, before its repair. */
  ghost predicate Rewrites(w1: World, p: Page) {
    p.Live? && CellOf(p) in w1 && (w1[CellOf(p)] == p || w1[CellOf(p)] == Normal(p))
  }

  /** What the first merge leaves in a referred cell, and why a second merge finds it so. */
  ghost predicate Found(w1: World, v: World, inline: seq<Page>, tracked: bool, recorded: Option<Provenance>, r: Ref) {
    && r.cell in w1 && r.cell in v && (r.cell.kind != LiveKind ==> v[r.cell] == w1[r.cell])
    && (|| (CellOf(r.hash) == r.cell && (w1[r.cell] == r.hash || w1[r.cell] == Normal(r.hash)))
        || !Replaces(v, inline, tracked, recorded, r))
  }

  lemma FirstMergeFound(sort: Sorting, w: World, keeps: bool, table: Table, slice: Slice, r: Ref)
    requires WellFormed(w) && UniqueRefs(slice.refs)
    requires MergePages(w, keeps, table, slice).Merged? && r in slice.refs
    ensures var m := MergePages(w, keeps, table, slice);
            Found(m.world, Repair(sort, m.world), slice.inline, keeps && Tracked(r.cell.kind), Recorded(m.table, r.cell), r)
  {
    var m := MergePages(w, keeps, table, slice);
    ReferredAfter(w, keeps, table, slice, r);
    MergedWellFormed(w, keeps, table, slice);
    assert CellOf(m.world[r.cell]) == r.cell;
    RepairTouchesContentsOnly(sort, m.world, r.cell);
    if DecisionFor(w, keeps, table, slice, r).Keep? {
      assert CellOf(w[r.cell]) == r.cell;
      if w[r.cell] != r.hash {
        SameVerdict(w, Repair(sort, m.world), slice.inline, keeps && Tracked(r.cell.kind), Recorded(table, r.cell), r);
      }
    }
  }

  lemma FoundDecision(w1: World, v: World, inline: seq<Page>, tracked: bool, recorded: Option<Provenance>, r: Ref)
    requires Found(w1, v, inline, tracked, recorded, r)
    ensures var d := Decide(v, inline, tracked, recorded, r);
            && (d.Fail? <==> r.hash !in inline && v[r.cell] != r.hash && Replaces(v, inline, tracked, recorded, r))
            && (d.Take? ==> Rewrites(w1, r.hash))
  {
  }

  lemma SecondDecision(sort: Sorting, w: World, keeps: bool, table: Table, slice: Slice, r: Ref)
    requires WellFormed(w) && UniqueRefs(slice.refs)
    requires MergePages(w, keeps, table, slice).Merged? && r in slice.refs
    ensures var m := MergePages(w, keeps, table, slice);
            var v := Repair(sort, m.world);
            var d := DecisionFor(v, keeps, m.table, slice, r);
            && r.cell in v
            && (d.Fail? <==> !Resolvable(v, keeps, m.table, slice, r))
            && (d.Take? ==> Rewrites(m.world, r.hash))
  {
    var m := MergePages(w, keeps, table, slice);
    FirstMergeFound(sort, w, keeps, table, slice, r);
    FoundDecision(m.world, Repair(sort, m.world), slice.inline, keeps && Tracked(r.cell.kind), Recorded(m.table, r.cell), r);
  }

  lemma SameVerdict(w: World, v: World, inline: seq<Page>, tracked: bool, recorded: Option<Provenance>, r: Ref)
    requires r.cell in w && CellOf(w[r.cell]) == r.cell && r.cell in v
    requires r.cell.kind == LineageKind ==> v[r.cell] == w[r.cell]
    ensures Replaces(v, inline, tracked, recorded, r) == Replaces(w, inline, tracked, recorded, r)
  {
    if r.cell.kind == LineageKind {
      assert r.cell == LineageCell(r.cell.object_);
    }
  }

  // --------------------------------------------------- when the second merge returns

  /** Every reference of the slice can be resolved again in the world its own merge left. */
  ghost predicate ResolvableAgain(sort: Sorting, keeps: bool, m: Merged, slice: Slice) {
    m.Merged? && forall r :: r in slice.refs ==> Resolvable(Repair(sort, m.world), keeps, m.table, slice, r)
  }

  /** A second merge returns exactly when every reference it has to resolve carries its page. */
  lemma MergesAgainIff(sort: Sorting, w: World, keeps: bool, table: Table, slice: Slice)
    requires WellFormed(w) && UniqueRefs(slice.refs) && MergePages(w, keeps, table, slice).Merged?
    ensures var m := MergePages(w, keeps, table, slice);
            MergePages(Repair(sort, m.world), keeps, m.table, slice).Merged? <==> ResolvableAgain(sort, keeps, m, slice)
  {
    var m := MergePages(w, keeps, table, slice);
    var v := Repair(sort, m.world);
    MergedWellFormed(w, keeps, table, slice);
    RepairWellFormed(sort, m.world);
    MergeStopsExactly(v, keeps, m.table, slice);
    forall r | r in slice.refs
      ensures DecisionFor(v, keeps, m.table, slice, r).Fail? <==> !Resolvable(v, keeps, m.table, slice, r)
      ensures Has(v, r.cell.object_)
    {
      SecondDecision(sort, w, keeps, table, slice, r);
      assert Rooted(v, r.cell);
    }
  }

  // ------------------------------------------------------ the second page merge

  lemma {:induction false} NoScaffoldNeeded(w: World, inline: seq<Page>, changed: seq<Page>, n: nat)
    requires n <= |changed| && forall p :: p in changed ==> Has(w, p.object_)
    ensures Scaffold(w, inline, changed, n) == []
  {
    if n > 0 {
      assert changed[n - 1] in changed;
      NoScaffoldNeeded(w, inline, changed, n - 1);
    }
  }

  lemma RewritingCell(sort: Sorting, w1: World, pages: seq<Page>, k: Cell)
    requires WellFormed(w1) && UniquePages(pages) && forall p :: p in pages ==> Rewrites(w1, p)
    requires Materialize(Repair(sort, w1), pages).Some?
    ensures var r := Materialize(Repair(sort, w1), pages).value;
            && (k in r <==> k in w1)
            && (k in w1 && Wrote(pages, k) ==> r[k] == Normal(w1[k]))
            && (k in w1 && !Wrote(pages, k) ==> r[k] == RepairRow(sort, w1, w1[k]))
  {
    var v := Repair(sort, w1);
    MaterializedCell(v, pages, k);
    if Wrote(pages, k) {
      var p :| p in pages && CellOf(p) == k;
      assert Rewrites(w1, p);
      NormalIdempotent(p);
    } else if k.object_ in Touched(pages) {
      var p :| p in pages && p.object_ == k.object_;
      assert Rewrites(w1, p) && Rooted(w1, CellOf(p));
    }
  }

  lemma RewritingBuilds(sort: Sorting, inline: seq<Page>, w1: World, changed: seq<Page>)
    requires WellFormed(w1) && forall p :: p in changed ==> Rewrites(w1, p)
    ensures Scaffold(Repair(sort, w1), inline, changed, |changed|) == []
    ensures Materialize(Repair(sort, w1), changed).Some?
  {
    var v := Repair(sort, w1);
    forall p | p in changed ensures Has(v, p.object_) {
      assert Rewrites(w1, p) && Rooted(w1, CellOf(p));
    }
    NoScaffoldNeeded(v, inline, changed, |changed|);
    assert !MissingLineage(v, changed);
  }

  lemma RewritingRearranges(sort: Sorting, inline: seq<Page>, keeps: bool, w1: World, table: Table, changed: seq<Page>)
    requires WellFormed(w1) && UniquePages(changed) && forall p :: p in changed ==> Rewrites(w1, p)
    ensures var m := Apply(Repair(sort, w1), inline, keeps, table, changed);
            && m.Merged? && m.world.Keys == w1.Keys
            && forall k :: k in w1 ==> m.world[k] == if Wrote(changed, k) then Normal(w1[k]) else RepairRow(sort, w1, w1[k])
  {
    if changed != [] {
      RewritingBuilds(sort, inline, w1, changed);
      assert changed + [] == changed;
      var r := Materialize(Repair(sort, w1), changed).value;
      forall k ensures (k in r <==> k in w1)
               ensures k in w1 ==> r[k] == if Wrote(changed, k) then Normal(w1[k]) else RepairRow(sort, w1, w1[k])
      {
        RewritingCell(sort, w1, changed, k);
      }
    }
  }

  /** The second merge writes the page of this cell's reference again. */
  ghost predicate TakenAgain(sort: Sorting, keeps: bool, m: Merged, slice: Slice, k: Cell) {
    m.Merged? && exists r :: r in slice.refs && r.cell == k && DecisionFor(Repair(sort, m.world), keeps, m.table, slice, r).Take?
  }

  /** The world after a second page merge, cell by cell. */
  ghost predicate SecondWorld(sort: Sorting, keeps: bool, m: Merged, slice: Slice, w2: World) {
    && m.Merged? && w2.Keys == m.world.Keys
    && forall k :: k in m.world ==>
         w2[k] == if TakenAgain(sort, keeps, m, slice, k) then Normal(m.world[k]) else RepairRow(sort, m.world, m.world[k])
  }

  lemma WroteIffTaken(sort: Sorting, keeps: bool, m: Merged, slice: Slice, done: Progress, k: Cell)
    requires m.Merged? && UniqueRefs(slice.refs)
    requires done == DecideAll(Deciding(Repair(sort, m.world), slice.inline, keeps), m.table, slice.refs) && done.Going?
    ensures Wrote(done.changed, k) <==> TakenAgain(sort, keeps, m, slice, k)
  {
    var v := Repair(sort, m.world);
    DecidingProper(v, slice.inline, keeps);
    if Wrote(done.changed, k) {
      var p :| p in done.changed && CellOf(p) == k;
      ChangedWasTaken(Deciding(v, slice.inline, keeps), m.table, slice.refs, p);
      var r :| r in slice.refs && r.hash == p && Deciding(v, slice.inline, keeps)(Recorded(m.table, r.cell), r).Take?;
      TakenFacts(v, keeps, m.table, slice, r);
    }
    if TakenAgain(sort, keeps, m, slice, k) {
      var r :| r in slice.refs && r.cell == k && DecisionFor(v, keeps, m.table, slice, r).Take?;
      TakenIsChanged(v, keeps, m.table, slice, done, r);
      TakenFacts(v, keeps, m.table, slice, r);
    }
  }

  lemma PagesMergeTwice(sort: Sorting, w: World, keeps: bool, table: Table, slice: Slice)
    requires WellFormed(w) && UniqueRefs(slice.refs) && MergePages(w, keeps, table, slice).Merged?
    ensures var m := MergePages(w, keeps, table, slice);
            var again := MergePages(Repair(sort, m.world), keeps, m.table, slice);
            again.Merged? ==> SecondWorld(sort, keeps, m, slice, again.world)
  {
    var m := MergePages(w, keeps, table, slice);
    var v := Repair(sort, m.world);
    if MergePages(v, keeps, m.table, slice).Merged? {
      MergedWellFormed(w, keeps, table, slice);
      var done := Decided(v, keeps, m.table, slice);
      forall p | p in done.changed ensures Rewrites(m.world, p) {
        ChangedWasTaken(Deciding(v, slice.inline, keeps), m.table, slice.refs, p);
        var r :| r in slice.refs && r.hash == p && Deciding(v, slice.inline, keeps)(Recorded(m.table, r.cell), r).Take?;
        SecondDecision(sort, w, keeps, table, slice, r);
      }
      RewritingRearranges(sort, slice.inline, keeps, m.world, done.table, done.changed);
      forall k ensures Wrote(done.changed, k) <==> TakenAgain(sort, keeps, m, slice, k) {
        WroteIffTaken(sort, keeps, m, slice, done, k);
      }
    }
  }

  // ----------------------------------------------------------- the repaired worlds

  /** No live row that the second merge writes again repeats a child. */
  ghost predicate RewritesTidy(sort: Sorting, keeps: bool, m: Merged, slice: Slice) {
    m.Merged? && forall k :: k in m.world ==> TidyAt(sort, keeps, m, slice, k)
  }

  ghost predicate TidyAt(sort: Sorting, keeps: bool, m: Merged, slice: Slice, k: Cell) {
    m.Merged? && k in m.world && m.world[k].Live? && TakenAgain(sort, keeps, m, slice, k) ==> NoRepeats(m.world[k].children)
  }

  lemma TidyIff(p: Page)
    ensures Tidy(p) == p <==> (p.Live? ==> NoRepeats(p.children))
  {
    if p.Live? { DedupeFacts(p.children); }
  }

  lemma SecondWorldRepaired(sort: Sorting, keeps: bool, m: Merged, slice: Slice, w2: World, k: Cell)
    requires Lists(sort) && SecondWorld(sort, keeps, m, slice, w2) && WellFormed(m.world) && k in m.world
    ensures k in Repair(sort, w2)
    ensures Repair(sort, w2)[k] ==
            if TakenAgain(sort, keeps, m, slice, k) then Tidy(Repair(sort, m.world)[k]) else Repair(sort, m.world)[k]
  {
    RearrangedRepair(sort, m.world, w2, k);
  }

  lemma SecondCellIff(sort: Sorting, keeps: bool, m: Merged, slice: Slice, w2: World, k: Cell)
    requires Lists(sort) && SecondWorld(sort, keeps, m, slice, w2) && WellFormed(m.world) && k in m.world
    ensures k in Repair(sort, w2)
    ensures Repair(sort, w2)[k] == Repair(sort, m.world)[k] <==> TidyAt(sort, keeps, m, slice, k)
  {
    SecondWorldRepaired(sort, keeps, m, slice, w2, k);
    TidyIff(Repair(sort, m.world)[k]);
    RepairTouchesContentsOnly(sort, m.world, k);
  }

  lemma SecondWorldIff(sort: Sorting, keeps: bool, m: Merged, slice: Slice, w2: World)
    requires Lists(sort) && SecondWorld(sort, keeps, m, slice, w2) && WellFormed(m.world)
    ensures Repair(sort, w2) == Repair(sort, m.world) <==> RewritesTidy(sort, keeps, m, slice)
  {
    var tidy := iset k | TidyAt(sort, keeps, m, slice, k);
    forall k | k in m.world ensures k in Repair(sort, w2) && (Repair(sort, w2)[k] == Repair(sort, m.world)[k] <==> k in tidy) {
      SecondCellIff(sort, keeps, m, slice, w2, k);
    }
    SameWorldIff(Repair(sort, m.world), Repair(sort, w2), tidy);
  }

  lemma SameWorldIff(first: World, second: World, same: iset<Cell>)
    requires first.Keys == second.Keys && forall k :: k in first ==> (second[k] == first[k] <==> k in same)
    ensures second == first <==> forall k :: k in first ==> k in same
  {
  }

  // ------------------------------------------------------------- the whole merge

  lemma {:induction false} PruneByPresence(sessions: seq<Session>, w: World, v: World)
    requires forall o :: Has(w, o) <==> Has(v, o)
    ensures PruneSessions(sessions, w) == PruneSessions(sessions, v)
  {
    if sessions != [] {
      PruneByPresence(sessions[..|sessions| - 1], w, v);
    }
  }

  lemma TombstonesMergeTwice(sort: Sorting, current: Option<seq<ObjRef>>, incoming: seq<ObjRef>)
    requires Lists(sort)
    ensures var once := MergeTombstones(sort, current, incoming); MergeTombstones(sort, once, incoming) == once
  {
    if current.Some? {
      var all := Elements(current.value) + Elements(incoming);
      assert Elements(sort(all)) + Elements(incoming) == all;
    }
  }

  lemma FinishTwice(sort: Sorting, st: Snapshot, a: Authority, w1: World, w2: World)
    requires Lists(sort) && w2.Keys == w1.Keys
    ensures var once := Finish(sort, st, a, w1);
            Finish(sort, once, a, w2) == once <==>
            Repair(sort, w2) == Repair(sort, w1) && SessionsRest(st.sessions, a.sessions, w1)
  {
    var once := Finish(sort, st, a, w1);
    SessionsMergeTwiceIff(st.sessions, a.sessions, w1);
    PruneByPresence(MergeSessions(once.sessions, a.sessions), w1, w2);
    TombstonesMergeTwice(sort, st.tombstones, a.tombstones);
  }

  /**
   * Merging a slice again right after merging it: it returns exactly when every
   * reference it has to resolve carries its page, and then changes nothing
   * exactly when no row it writes again repeats a child and every lease rests.
   */
  lemma MergeIsIdempotent(sort: Sorting, keeps: bool, st: Snapshot, table: Table, a: Authority)
    requires Lists(sort) && WellFormed(st.world) && UniqueRefs(a.cells.refs)
    requires MergeSlice(sort, keeps, st, table, a).Returned?
    ensures var m := MergePages(st.world, keeps, table, a.cells);
            var once := MergeSlice(sort, keeps, st, table, a);
            var twice := MergeSlice(sort, keeps, once.now, once.table, a);
            && (twice.Returned? <==> ResolvableAgain(sort, keeps, m, a.cells))
            && (twice.Returned? ==>
                  (twice.now == once.now <==> RewritesTidy(sort, keeps, m, a.cells) && SessionsRest(st.sessions, a.sessions, m.world)))
  {
    var m := MergePages(st.world, keeps, table, a.cells);
    var again := MergePages(Repair(sort, m.world), keeps, m.table, a.cells);
    MergesAgainIff(sort, st.world, keeps, table, a.cells);
    if again.Merged? {
      PagesMergeTwice(sort, st.world, keeps, table, a.cells);
      MergedWellFormed(st.world, keeps, table, a.cells);
      SecondWorldIff(sort, keeps, m, a.cells, again.world);
      FinishTwice(sort, st, a, m.world, again.world);
    }
  }

  /** For slices that carry their pages, rows as materialization leaves them and distinct session ids, twice is once. */
  lemma CompleteMergeIsIdempotent(sort: Sorting, keeps: bool, st: Snapshot, table: Table, a: Authority)
    requires Lists(sort) && WellFormed(st.world) && NormalWorld(st.world)
    requires UniqueRefs(a.cells.refs) && InlineComplete(a.cells) && UniqueSessions(a.sessions)
    requires MergeSlice(sort, keeps, st, table, a).Returned?
    ensures var once := MergeSlice(sort, keeps, st, table, a);
            var twice := MergeSlice(sort, keeps, once.now, once.table, a);
            twice.Returned? && twice.now == once.now
  {
    var m := MergePages(st.world, keeps, table, a.cells);
    MergeIsIdempotent(sort, keeps, st, table, a);
    MergedWellFormed(st.world, keeps, table, a.cells);
    DistinctSessionsRest(st.sessions, a.sessions, m.world);
    forall k | k in m.world && m.world[k].Live? ensures NoRepeats(m.world[k].children) {
      assert Normal(m.world[k]) == m.world[k];
      DedupeFacts(m.world[k].children);
    }
  }

  /** After any merge, contents and locations agree for every present object. */
  lemma MergedContentsAgree(sort: Sorting, keeps: bool, st: Snapshot, table: Table, a: Authority, c: ObjRef, m: ObjRef)
    requires Lists(sort) && WellFormed(st.world) && UniqueRefs(a.cells.refs)
    ensures var r := MergeSlice(sort, keeps, st, table, a);
            r.Returned? && c != "" && Has(r.now.world, c) && Has(r.now.world, m) ==>
              var w := r.now.world;
              LiveCell(c) in w && w[LiveCell(c)].Live? && (m in w[LiveCell(c)].contents <==> LocatedAt(w, m, c))
  {
    var r := MergeSlice(sort, keeps, st, table, a);
    if r.Returned? && c != "" && Has(r.now.world, c) {
      MergedWellFormed(st.world, keeps, table, a.cells);
      RepairedContents(sort, MergePages(st.world, keeps, table, a.cells).world, c, m);
    }
  }

  // ------------------------------------------------------------ merging by reference

  /** An owner's reference to an unchanged live row that repair rewrites: without its page it merges once only. */
  lemma ByReferenceMergesOnce(sort: Sorting, w: World, table: Table, r: Ref)
    requires r.cell in w && w[r.cell] == r.hash && r.cell.kind == LiveKind && r.provenance.source == Authoritative
    requires Repair(sort, w)[r.cell] != r.hash
    ensures var slice := Slice([r], []);
            var m := MergePages(w, true, table, slice);
            m.Merged? && m.world == w && MergePages(Repair(sort, w), true, m.table, slice).Threw?
  {
    OneReference(Deciding(w, [], true), table, r);
    var m := MergePages(w, true, table, Slice([r], []));
    OneReference(Deciding(Repair(sort, w), [], true), m.table, r);
  }

  lemma OneReference(decide: Decider, table: Table, r: Ref)
    ensures var d := decide(Recorded(table, r.cell), r);
            DecideAll(decide, table, [r]) ==
            if d.Fail? then Progress.Stopped(table)
            else Going(Record(table, r.cell, d.recorded), if d.Take? then [r.hash] else [])
  {
    assert [r][..0] == [];
    assert DecideAll(decide, table, []) == Going(table, []);
  }

  /** A room that still lists a bag which is not there. */
  function RoomWorld(room: ObjRef, bag: ObjRef, children: seq<ObjRef>): World {
    map[LineageCell(room) := Lineage(room, "Room", None, "", ""), LiveCell(room) := Live(room, None, children, [bag]),
        LineageCell(bag) := Lineage(bag, "Bag", None, "", ""), LiveCell(bag) := Empty(bag)]
  }

  lemma RoomIsWellFormed(room: ObjRef, bag: ObjRef, children: seq<ObjRef>)
    requires room != bag
    ensures WellFormed(RoomWorld(room, bag, children))
  {
  }

  lemma Emptied(sort: Sorting, w: World, c: ObjRef, m: ObjRef)
    requires Lists(sort) && WellFormed(w) && c != "" && Has(w, c) && Has(w, m) && !LocatedAt(w, m, c)
    requires LiveCell(c) in w && w[LiveCell(c)].Live? && m in w[LiveCell(c)].contents
    ensures Repair(sort, w)[LiveCell(c)] != w[LiveCell(c)]
  {
    RepairedContents(sort, w, c, m);
    RepairTouchesContentsOnly(sort, w, LiveCell(m));
    RepairTouchesContentsOnly(sort, w, LineageCell(m));
  }

  /** An owner's reference to the unchanged row of such a room is one that, without its page, merges once only. */
  lemma RoomMergesOnce(sort: Sorting, room: ObjRef, bag: ObjRef, children: seq<ObjRef>) returns (w: World, r: Ref)
    requires Lists(sort) && room != bag && room != ""
    ensures WellFormed(w) && r.hash == Live(room, None, children, [bag]) && CellOf(r.hash) == r.cell
    ensures r.cell in w && w[r.cell] == r.hash && r.cell.kind == LiveKind && r.provenance.source == Authoritative
    ensures Repair(sort, w)[r.cell] != r.hash
  {
    w := RoomWorld(room, bag, children);
    r := Ref(LiveCell(room), Live(room, None, children, [bag]), Provenance(Authoritative, None));
    RoomIsWellFormed(room, bag, children);
    Emptied(sort, w, room, bag);
  }

  /** With its page, but repeating a child, the second merge changes the world: the repetition goes. */
  lemma RepeatedChildIsTidied(sort: Sorting, st: Snapshot, table: Table, a: Authority, r: Ref)
    requires Lists(sort) && WellFormed(st.world) && a.cells == Slice([r], [r.hash])
    requires r.cell in st.world && st.world[r.cell] == r.hash && r.hash.Live? && CellOf(r.hash) == r.cell
    requires r.provenance.source == Authoritative && Repair(sort, st.world)[r.cell] != r.hash && !NoRepeats(r.hash.children)
    ensures var once := MergeSlice(sort, true, st, table, a);
            && once.Returned?
            && var twice := MergeSlice(sort, true, once.now, once.table, a);
               twice.Returned? && twice.now != once.now
  {
    RepeatedChildIsTaken(sort, st.world, table, r);
    MergeIsIdempotent(sort, true, st, table, a);
  }

  lemma RepeatedChildIsTaken(sort: Sorting, w: World, table: Table, r: Ref)
    requires r.cell in w && w[r.cell] == r.hash && r.hash.Live? && CellOf(r.hash) == r.cell && r.provenance.source == Authoritative
    requires Repair(sort, w)[r.cell] != r.hash && !NoRepeats(r.hash.children)
    ensures var slice := Slice([r], [r.hash]);
            var m := MergePages(w, true, table, slice);
            m.Merged? && UniqueRefs(slice.refs) && ResolvableAgain(sort, true, m, slice) && !RewritesTidy(sort, true, m, slice)
  {
    var slice := Slice([r], [r.hash]);
    OneReference(Deciding(w, slice.inline, true), table, r);
    var m := MergePages(w, true, table, slice);
    assert m.world == w && r in slice.refs && r.cell.kind == LiveKind;
    assert DecisionFor(Repair(sort, w), true, m.table, slice, r).Take?;
    assert !TidyAt(sort, true, m, slice, r.cell);
  }

  /** Two sessions with one id: a second merge gives the earlier one the later one's longer lease. */
  lemma RepeatedIdExtends(w: World, id: string, actor: ObjRef, sooner: int, later: int)
    requires Has(w, actor) && sooner < later
    ensures var short, long := Session(id, actor, Some(sooner), ""), Session(id, actor, Some(later), "");
            var once := PruneSessions(MergeSessions([], [short, long]), w);
            once == [short, long] && PruneSessions(MergeSessions(once, [short, long]), w) == [long, long]
  {
    var short, long := Session(id, actor, Some(sooner), ""), Session(id, actor, Some(later), "");
    var incoming := [short, long];
    assert MergeSessions([], incoming) == incoming;
    PruneTwo(w, short, long);
    assert incoming[..1] == [short] && FindSession(incoming, id) == Some(long);
    assert MergeSessions(incoming, incoming) == [long, long];
    PruneTwo(w, long, long);
  }

  lemma PruneTwo(w: World, x: Session, y: Session)
    requires Has(w, x.actor) && Has(w, y.actor)
    ensures PruneSessions([x, y], w) == [x, y]
  {
    assert [x, y][..1] == [x] && [x][..0] == [];
    assert PruneSessions([x], w) == [x];
  }
}
