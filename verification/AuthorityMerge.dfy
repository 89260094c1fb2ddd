/**
 * The provenance-ranked merge of an authority cell slice into a planning
 * world (src/core/authority-slice.ts, mergeAuthorityCellPages).
 */
module AuthorityMerge {
  import opened Wrappers
  import opened AuthorityCells

  datatype Source = Authoritative | Projection | Cache | Fallback | Gossip

  function Rank(s: Source): nat {
    match s
    case Authoritative => 4
    case Projection => 3
    case Cache => 2
    case Fallback => 1
    case Gossip => 0
  }

  datatype Provenance = Provenance(source: Source, host: Option<string>)

  /** A page reference: the cell it is for, the hash of a page, and where it came from. */
  datatype Ref = Ref(cell: Cell, hash: Page, provenance: Provenance)

  /** `inline` lists the page values that travel with the references. */
  datatype Slice = Slice(refs: seq<Ref>, inline: seq<Page>)

  /** Recorded provenance of the tracked cells. */
  type Table = map<Cell, Provenance>

  predicate Tracked(kind: Kind) {
    kind == LineageKind || kind == LiveKind
  }

  function Recorded(table: Table, k: Cell): Option<Provenance> {
    if k in table then Some(table[k]) else None
  }

  /** An unknown provenance protects a cell as an authoritative one does. */
  predicate MayReplaceCurrent(incoming: Source, current: Option<Provenance>) {
    || incoming == Authoritative
    || (current.Some? && current.value.source != Authoritative && Rank(incoming) >= Rank(current.value.source))
  }

  /** The stored name of an object. */
  function NameOf(w: World, o: ObjRef): Option<string> {
    if Has(w, o) && w[LineageCell(o)].Lineage? then Some(w[LineageCell(o)].name) else None
  }

  /** The page a reference resolves to among the inline pages. */
  function Resolve(inline: seq<Page>, ref: Ref): Option<Page> {
    if ref.hash in inline then Some(ref.hash) else None
  }

  predicate ResolvesNamed(inline: seq<Page>, ref: Ref) {
    Resolve(inline, ref).Some? && ref.hash.Lineage? && ref.hash.name != ref.cell.object_
  }

  predicate ResolvesStub(inline: seq<Page>, ref: Ref) {
    Resolve(inline, ref).Some? && ref.hash.Lineage? && ref.hash.name == ref.cell.object_
  }

  /** Whether a reference whose page differs from the current one may replace it. */
  predicate Replaces(w: World, inline: seq<Page>, tracked: bool, recorded: Option<Provenance>, ref: Ref) {
    var source, o := ref.provenance.source, ref.cell.object_;
    var ranked := if tracked then MayReplaceCurrent(source, recorded) else source == Authoritative;
    var repairs := tracked && ref.cell.kind == LineageKind && NameOf(w, o) == Some(o) && ResolvesNamed(inline, ref)
                   && !(recorded.Some? && recorded.value.source == Authoritative);
    var blanks := source != Authoritative && ref.cell.kind == LineageKind && ResolvesStub(inline, ref)
                  && NameOf(w, o).Some? && NameOf(w, o) != Some(o);
    (ranked || repairs) && !blanks
  }

  datatype Decision = Keep(recorded: Option<Provenance>) | Take(recorded: Option<Provenance>) | Fail

  function Stronger(recorded: Option<Provenance>, p: Provenance): Option<Provenance> {
    if recorded.Some? && Rank(p.source) < Rank(recorded.value.source) then recorded else Some(p)
  }

  /** What the merge does with one reference, given the provenance recorded for its cell. */
  function Decide(w: World, inline: seq<Page>, tracked: bool, recorded: Option<Provenance>, ref: Ref): Decision {
    var k := ref.cell;
    if k in w && w[k] == ref.hash then Keep(if tracked then Stronger(recorded, ref.provenance) else recorded)
    else if k in w && !Replaces(w, inline, tracked, recorded, ref) then Keep(recorded)
    else if Resolve(inline, ref).None? || CellOf(ref.hash) != k then Fail
    else Take(if tracked then Some(ref.provenance) else recorded)
  }

  function Record(table: Table, k: Cell, recorded: Option<Provenance>): Table {
    if recorded.Some? then table[k := recorded.value] else table
  }

  datatype Progress = Going(table: Table, changed: seq<Page>) | Stopped(table: Table)

  /** A decision procedure: from a cell's recorded provenance and a reference for it. */
  type Decider = (Option<Provenance>, Ref) -> Decision

  /** Decisions for a list of references, in order; an unresolvable page stops the merge. */
  function DecideAll(decide: Decider, table: Table, refs: seq<Ref>): Progress {
    if refs == [] then Going(table, [])
    else
      var last := refs[|refs| - 1];
      match DecideAll(decide, table, refs[..|refs| - 1])
      case Stopped(t) => Stopped(t)
      case Going(t, changed) =>
        match decide(Recorded(t, last.cell), last)
        case Fail => Stopped(t)
        case Keep(r) => Going(Record(t, last.cell, r), changed)
        case Take(r) => Going(Record(t, last.cell, r), changed + [last.hash])
  }

  /** `keepsTable` tells whether the caller supplied a provenance table. */
  function Deciding(w: World, inline: seq<Page>, keepsTable: bool): Decider {
    (recorded: Option<Provenance>, ref: Ref) => Decide(w, inline, keepsTable && Tracked(ref.cell.kind), recorded, ref)
  }

  // --------------------------------------------------------------- scaffolding

  /** The last inline lineage page of an object. */
  function InlineLineage(inline: seq<Page>, o: ObjRef): Option<Page> {
    if inline == [] then None
    else
      var last := inline[|inline| - 1];
      if last.Lineage? && last.object_ == o then Some(last) else InlineLineage(inline[..|inline| - 1], o)
  }

  predicate HasLineagePage(pages: seq<Page>, o: ObjRef) {
    exists p :: p in pages && p.Lineage? && p.object_ == o
  }

  /** Lineage pages added so that new objects can be built: at most one per object, and only where none is changed. */
  function Scaffold(w: World, inline: seq<Page>, changed: seq<Page>, n: nat): seq<Page>
    requires n <= |changed|
  {
    if n == 0 then []
    else
      var added, o := Scaffold(w, inline, changed, n - 1), changed[n - 1].object_;
      var lineage := InlineLineage(inline, o);
      if Has(w, o) || HasLineagePage(changed, o) || HasLineagePage(added, o) || lineage.None? then added else added + [lineage.value]
  }

  /** Scaffolding claims no authority: it is recorded as a fallback, and only where nothing is recorded. */
  function RecordScaffold(table: Table, added: seq<Page>): Table {
    if added == [] then table
    else
      var t, k := RecordScaffold(table, added[..|added| - 1]), CellOf(added[|added| - 1]);
      if k in t then t else t[k := Provenance(Fallback, None)]
  }

  // ------------------------------------------------------------------ the merge

  datatype Merged = Merged(world: World, table: Table) | Threw(table: Table)

  /** Write the changed pages, with their scaffolding. */
  function Apply(w: World, inline: seq<Page>, keepsTable: bool, table: Table, changed: seq<Page>): Merged {
    if changed == [] then Merged(w, table)
    else
      var added := Scaffold(w, inline, changed, |changed|);
      var t := if keepsTable then RecordScaffold(table, added) else table;
      match Materialize(w, changed + added)
      case Some(r) => Merged(r, t)
      case None => Threw(t)
  }

  function MergePages(w: World, keepsTable: bool, table: Table, slice: Slice): Merged {
    match DecideAll(Deciding(w, slice.inline, keepsTable), table, slice.refs)
    case Stopped(t) => Threw(t)
    case Going(t, changed) => Apply(w, slice.inline, keepsTable, t, changed)
  }

  /** Each cell is referred to at most once, as a combined slice guarantees. */
  ghost predicate UniqueRefs(refs: seq<Ref>) {
    forall i, j :: 0 <= i < j < |refs| ==> refs[i].cell != refs[j].cell
  }

  // ------------------------------------------------------------ one cell at a time

  ghost predicate Referred(refs: seq<Ref>, k: Cell) {
    exists r :: r in refs && r.cell == k
  }

  /** Records are never forgotten, and a page is taken only for its own cell. */
  ghost predicate Proper(decide: Decider) {
    forall recorded, ref ::
      var d := decide(recorded, ref);
      && (d.Take? ==> CellOf(ref.hash) == ref.cell)
      && (!d.Fail? && recorded.Some? ==> d.recorded.Some?)
  }

  lemma DecidingProper(w: World, inline: seq<Page>, keepsTable: bool)
    ensures Proper(Deciding(w, inline, keepsTable))
  {
    var decide := Deciding(w, inline, keepsTable);
    forall recorded, ref
      ensures var d := decide(recorded, ref);
              (d.Take? ==> CellOf(ref.hash) == ref.cell) && (!d.Fail? && recorded.Some? ==> d.recorded.Some?)
    {
      assert decide(recorded, ref) == Decide(w, inline, keepsTable && Tracked(ref.cell.kind), recorded, ref);
    }
  }

  lemma {:induction false} UnreferredCell(decide: Decider, table: Table, refs: seq<Ref>, k: Cell)
    requires Proper(decide) && DecideAll(decide, table, refs).Going? && !Referred(refs, k)
    ensures var done := DecideAll(decide, table, refs);
            Recorded(done.table, k) == Recorded(table, k) && !Wrote(done.changed, k)
  {
    if refs != [] {
      var init, last := refs[..|refs| - 1], refs[|refs| - 1];
      assert last in refs && forall r :: r in init ==> r in refs;
      UnreferredCell(decide, table, init, k);
    }
  }

  /** A cell's record and its change depend on its own reference only. */
  lemma {:induction false} ReferredCell(decide: Decider, table: Table, refs: seq<Ref>, r: Ref)
    requires UniqueRefs(refs) && Proper(decide) && DecideAll(decide, table, refs).Going? && r in refs
    ensures var done, d := DecideAll(decide, table, refs), decide(Recorded(table, r.cell), r);
            && !d.Fail? && Recorded(done.table, r.cell) == d.recorded
            && (d.Take? ==> r.hash in done.changed)
            && (d.Keep? ==> !Wrote(done.changed, r.cell))
  {
    var init, last := refs[..|refs| - 1], refs[|refs| - 1];
    assert refs == init + [last];
    if r == last {
      UnreferredCell(decide, table, init, r.cell);
    } else {
      assert r in init && last.cell != r.cell;
      ReferredCell(decide, table, init, r);
    }
  }

  lemma {:induction false} ChangedUnique(decide: Decider, table: Table, refs: seq<Ref>)
    requires UniqueRefs(refs) && Proper(decide) && DecideAll(decide, table, refs).Going?
    ensures UniquePages(DecideAll(decide, table, refs).changed)
  {
    if refs != [] {
      var init, last := refs[..|refs| - 1], refs[|refs| - 1];
      ChangedUnique(decide, table, init);
      assert !Referred(init, last.cell);
      UnreferredCell(decide, table, init, last.cell);
    }
  }

  // ------------------------------------------------------------ scaffold pages

  lemma {:induction false} InlineLineageShape(inline: seq<Page>, o: ObjRef)
    ensures var l := InlineLineage(inline, o); l.Some? ==> l.value.Lineage? && l.value.object_ == o && l.value in inline
  {
    if inline != [] {
      InlineLineageShape(inline[..|inline| - 1], o);
    }
  }

  /** What makes a page scaffolding: the only lineage offered for an object the world lacks. */
  ghost predicate Scaffolding(w: World, changed: seq<Page>, p: Page) {
    p.Lineage? && !Has(w, p.object_) && !Wrote(changed, CellOf(p)) && p.object_ in Touched(changed)
  }

  lemma {:induction false} ScaffoldFacts(w: World, inline: seq<Page>, changed: seq<Page>, n: nat)
    requires n <= |changed|
    ensures var added := Scaffold(w, inline, changed, n);
            UniquePages(added) && forall p :: p in added ==> Scaffolding(w, changed, p)
  {
    if n > 0 {
      ScaffoldFacts(w, inline, changed, n - 1);
      var added, o := Scaffold(w, inline, changed, n - 1), changed[n - 1].object_;
      InlineLineageShape(inline, o);
      if !(Has(w, o) || HasLineagePage(changed, o) || HasLineagePage(added, o) || InlineLineage(inline, o).None?) {
        assert !Wrote(changed, LineageCell(o));
        assert changed[n - 1] in changed;
      }
    }
  }

  lemma MaterialUnique(w: World, changed: seq<Page>, added: seq<Page>)
    requires UniquePages(changed) && UniquePages(added)
    requires forall p :: p in added ==> Scaffolding(w, changed, p)
    ensures UniquePages(changed + added) && Touched(changed + added) == Touched(changed)
  {
    var all := changed + added;
    forall i, j | 0 <= i < j < |all| ensures CellOf(all[i]) != CellOf(all[j]) {
      if i < |changed| <= j {
        assert all[j] in added && changed[i] in changed;
      }
    }
  }

  lemma {:induction false} ScaffoldRecord(table: Table, added: seq<Page>, k: Cell)
    ensures Recorded(RecordScaffold(table, added), k) ==
            if k in table then Recorded(table, k)
            else if Wrote(added, k) then Some(Provenance(Fallback, None))
            else None
  {
    if added != [] {
      var init, last := added[..|added| - 1], added[|added| - 1];
      ScaffoldRecord(table, init, k);
      assert added == init + [last];
      assert Wrote(added, k) <==> Wrote(init, k) || CellOf(last) == k;
    }
  }

  // ------------------------------------------------- a merge, seen from one cell

  /** Equal as stored, where materializing may have normalized the row. */
  ghost predicate Unmoved(before: Page, after: Page) {
    after == before || after == Normal(before)
  }

  lemma ScaffoldedUnique(w: World, inline: seq<Page>, changed: seq<Page>)
    requires UniquePages(changed)
    ensures var added := Scaffold(w, inline, changed, |changed|);
            && UniquePages(changed + added) && Touched(changed + added) == Touched(changed)
            && forall p :: p in added ==> Scaffolding(w, changed, p)
  {
    ScaffoldFacts(w, inline, changed, |changed|);
    MaterialUnique(w, changed, Scaffold(w, inline, changed, |changed|));
  }

  lemma AppliedPage(w: World, inline: seq<Page>, keeps: bool, table: Table, changed: seq<Page>, p: Page)
    requires UniquePages(changed) && Apply(w, inline, keeps, table, changed).Merged? && p in changed
    ensures var m := Apply(w, inline, keeps, table, changed); CellOf(p) in m.world && m.world[CellOf(p)] == Normal(p)
  {
    var added := Scaffold(w, inline, changed, |changed|);
    ScaffoldedUnique(w, inline, changed);
    MaterializedCell(w, changed + added, CellOf(p));
    assert p in changed + added;
  }

  lemma UnappliedPage(w: World, inline: seq<Page>, keeps: bool, table: Table, changed: seq<Page>, k: Cell)
    requires WellFormed(w) && UniquePages(changed) && Apply(w, inline, keeps, table, changed).Merged?
    requires k in w && !Wrote(changed, k)
    ensures var m := Apply(w, inline, keeps, table, changed); k in m.world && Unmoved(w[k], m.world[k])
  {
    if changed != [] {
      var added := Scaffold(w, inline, changed, |changed|);
      ScaffoldSpares(w, inline, changed, k);
      UnwrittenKept(w, changed + added, k);
    }
  }

  lemma UnwrittenKept(w: World, pages: seq<Page>, k: Cell)
    requires UniquePages(pages) && Materialize(w, pages).Some? && k in w && !Wrote(pages, k)
    ensures var r := Materialize(w, pages).value; k in r && Unmoved(w[k], r[k])
  {
    MaterializedCell(w, pages, k);
  }

  /** Scaffolding writes no cell the world has. */
  lemma ScaffoldSpares(w: World, inline: seq<Page>, changed: seq<Page>, k: Cell)
    requires WellFormed(w) && UniquePages(changed) && k in w
    ensures var added := Scaffold(w, inline, changed, |changed|);
            !Wrote(added, k) && UniquePages(changed + added) && (!Wrote(changed, k) ==> !Wrote(changed + added, k))
  {
    ScaffoldedUnique(w, inline, changed);
    PresentUnscaffolded(w, changed, Scaffold(w, inline, changed, |changed|), k);
  }

  lemma PresentUnscaffolded(w: World, changed: seq<Page>, added: seq<Page>, k: Cell)
    requires WellFormed(w) && k in w
    requires forall p :: p in added ==> Scaffolding(w, changed, p)
    ensures !Wrote(added, k) && (!Wrote(changed, k) ==> !Wrote(changed + added, k))
  {
    assert Rooted(w, k);
  }

  lemma AppliedRecord(w: World, inline: seq<Page>, keeps: bool, table: Table, changed: seq<Page>, k: Cell)
    requires WellFormed(w) && UniquePages(changed)
    ensures k in table || k in w ==> Recorded(Apply(w, inline, keeps, table, changed).table, k) == Recorded(table, k)
  {
    if changed != [] && keeps {
      var added := Scaffold(w, inline, changed, |changed|);
      ScaffoldRecord(table, added, k);
      if k in w { ScaffoldSpares(w, inline, changed, k); }
    }
  }

  lemma AppliedWellFormed(w: World, inline: seq<Page>, keeps: bool, table: Table, changed: seq<Page>)
    requires WellFormed(w) && UniquePages(changed) && Apply(w, inline, keeps, table, changed).Merged?
    ensures WellFormed(Apply(w, inline, keeps, table, changed).world)
    ensures NormalWorld(w) ==> NormalWorld(Apply(w, inline, keeps, table, changed).world)
  {
    if changed != [] {
      ScaffoldedUnique(w, inline, changed);
      var all := changed + Scaffold(w, inline, changed, |changed|);
      MaterializedWellFormed(w, all);
      if NormalWorld(w) { MaterializedNormal(w, all); }
    }
  }

  /** The decisions of a merge, and that they touch each cell at most once. */
  lemma Decided(w: World, keeps: bool, table: Table, slice: Slice) returns (done: Progress)
    requires UniqueRefs(slice.refs) && MergePages(w, keeps, table, slice).Merged?
    ensures done == DecideAll(Deciding(w, slice.inline, keeps), table, slice.refs) && done.Going?
    ensures Proper(Deciding(w, slice.inline, keeps)) && UniquePages(done.changed)
    ensures MergePages(w, keeps, table, slice) == Apply(w, slice.inline, keeps, done.table, done.changed)
  {
    DecidingProper(w, slice.inline, keeps);
    done := DecideAll(Deciding(w, slice.inline, keeps), table, slice.refs);
    ChangedUnique(Deciding(w, slice.inline, keeps), table, slice.refs);
  }

  function DecisionFor(w: World, keeps: bool, table: Table, slice: Slice, r: Ref): Decision {
    Decide(w, slice.inline, keeps && Tracked(r.cell.kind), Recorded(table, r.cell), r)
  }

  /** A cell and its record after decision `d` on reference `r`. */
  ghost predicate Carried(w: World, inline: seq<Page>, r: Ref, d: Decision, after: World, table: Table) {
    match d
    case Fail => false
    case Take(recorded) =>
      && CellOf(r.hash) == r.cell && r.hash in inline
      && r.cell in after && after[r.cell] == Normal(r.hash)
      && (recorded.Some? ==> Recorded(table, r.cell) == recorded)
    case Keep(recorded) =>
      && r.cell in w && r.cell in after && Unmoved(w[r.cell], after[r.cell])
      && Recorded(table, r.cell) == recorded
  }

  /** A reference's cell after a merge. */
  lemma ReferredAfter(w: World, keeps: bool, table: Table, slice: Slice, r: Ref)
    requires WellFormed(w) && UniqueRefs(slice.refs) && MergePages(w, keeps, table, slice).Merged? && r in slice.refs
    ensures var m := MergePages(w, keeps, table, slice);
            Carried(w, slice.inline, r, DecisionFor(w, keeps, table, slice, r), m.world, m.table)
  {
    var done := Decided(w, keeps, table, slice);
    ReferredCell(Deciding(w, slice.inline, keeps), table, slice.refs, r);
    AppliedRecord(w, slice.inline, keeps, done.table, done.changed, r.cell);
    if DecisionFor(w, keeps, table, slice, r).Take? {
      AppliedPage(w, slice.inline, keeps, done.table, done.changed, r.hash);
    } else {
      UnappliedPage(w, slice.inline, keeps, done.table, done.changed, r.cell);
    }
  }

  /** A cell no reference names, after a merge. */
  lemma UnreferredAfter(w: World, keeps: bool, table: Table, slice: Slice, k: Cell)
    requires WellFormed(w) && UniqueRefs(slice.refs) && MergePages(w, keeps, table, slice).Merged?
    requires !Referred(slice.refs, k) && k in w
    ensures var m := MergePages(w, keeps, table, slice);
            k in m.world && Unmoved(w[k], m.world[k]) && Recorded(m.table, k) == Recorded(table, k)
  {
    var done := Decided(w, keeps, table, slice);
    UnreferredCell(Deciding(w, slice.inline, keeps), table, slice.refs, k);
    AppliedRecord(w, slice.inline, keeps, done.table, done.changed, k);
    UnappliedPage(w, slice.inline, keeps, done.table, done.changed, k);
  }

  lemma MergedWellFormed(w: World, keeps: bool, table: Table, slice: Slice)
    requires WellFormed(w) && UniqueRefs(slice.refs) && MergePages(w, keeps, table, slice).Merged?
    ensures WellFormed(MergePages(w, keeps, table, slice).world)
    ensures NormalWorld(w) ==> NormalWorld(MergePages(w, keeps, table, slice).world)
  {
    var done := Decided(w, keeps, table, slice);
    AppliedWellFormed(w, slice.inline, keeps, done.table, done.changed);
  }
}
