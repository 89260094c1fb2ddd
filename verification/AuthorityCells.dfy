/**
 * Cells of a serialized world (src/core/shadow-state-pages.ts). An object row
 * is exactly its pages: one lineage page, one live page, and a page per
 * property and per verb; a world is therefore a map from cells to pages, and
 * materializing pages is updating that map. A page's hash identifies its
 * content, so a page reference carries the page it hashes.
 */
module AuthorityCells {
  import opened Wrappers

  type ObjRef = string

  datatype Kind = LineageKind | LiveKind | PropertyKind | VerbKind

  /** A cell's key: the object, the kind of page, and the property or verb name. */
  datatype Cell = Cell(object_: ObjRef, kind: Kind, name: string)

  datatype Page =
    | Lineage(object_: ObjRef, name: string, parent: Option<ObjRef>, owner: ObjRef, details: string)
    | Live(object_: ObjRef, location: Option<ObjRef>, children: seq<ObjRef>, contents: seq<ObjRef>)
    | Property(object_: ObjRef, name: string, def: Option<string>, value: Option<string>, version: nat)
    | Verb(object_: ObjRef, name: string, code: string)

  function CellOf(p: Page): Cell {
    match p
    case Lineage(o, _, _, _, _) => Cell(o, LineageKind, "")
    case Live(o, _, _, _) => Cell(o, LiveKind, "")
    case Property(o, n, _, _, _) => Cell(o, PropertyKind, n)
    case Verb(o, n, _) => Cell(o, VerbKind, n)
  }

  function LineageCell(o: ObjRef): Cell { Cell(o, LineageKind, "") }

  function LiveCell(o: ObjRef): Cell { Cell(o, LiveKind, "") }

  type World = map<Cell, Page>

  predicate Has(w: World, o: ObjRef) {
    LineageCell(o) in w
  }

  /** Every cell holds its own page, and an object with any cell has a lineage and a live cell. */
  ghost predicate WellFormed(w: World) {
    && (forall k :: k in w ==> CellOf(w[k]) == k)
    && (forall k {:trigger Rooted(w, k)} :: k in w ==> Rooted(w, k))
  }

  ghost predicate Rooted(w: World, k: Cell) {
    LineageCell(k.object_) in w && LiveCell(k.object_) in w
  }

  /** A list with later repetitions dropped. */
  function Dedupe(list: seq<ObjRef>): seq<ObjRef> {
    if list == [] then []
    else
      var init := Dedupe(list[..|list| - 1]);
      if list[|list| - 1] in init then init else init + [list[|list| - 1]]
  }

  ghost predicate NoRepeats(list: seq<ObjRef>) {
    forall i, j :: 0 <= i < j < |list| ==> list[i] != list[j]
  }

  lemma {:induction false} DedupeFacts(list: seq<ObjRef>)
    ensures NoRepeats(Dedupe(list))
    ensures forall x :: x in Dedupe(list) <==> x in list
    ensures NoRepeats(list) ==> Dedupe(list) == list
  {
    if list != [] {
      DedupeFacts(list[..|list| - 1]);
      assert list == list[..|list| - 1] + [list[|list| - 1]];
    }
  }

  /** A page as a materialized row stores it. */
  function Normal(p: Page): Page {
    if p.Live? then p.(children := Dedupe(p.children), contents := Dedupe(p.contents)) else p
  }

  lemma NormalIdempotent(p: Page)
    ensures Normal(Normal(p)) == Normal(p) && CellOf(Normal(p)) == CellOf(p)
  {
    if p.Live? {
      DedupeFacts(p.children);
      DedupeFacts(p.contents);
      DedupeFacts(Dedupe(p.children));
      DedupeFacts(Dedupe(p.contents));
    }
  }

  /** Rows as the materializer leaves them: no repeated children or contents. */
  ghost predicate NormalWorld(w: World) {
    forall k :: k in w ==> Normal(w[k]) == w[k]
  }

  // ------------------------------------------------------------ materialization

  function Put(w: World, pages: seq<Page>): World {
    if pages == [] then w else Put(w, pages[..|pages| - 1])[CellOf(pages[|pages| - 1]) := pages[|pages| - 1]]
  }

  function Touched(pages: seq<Page>): set<ObjRef> {
    set p | p in pages :: p.object_
  }

  function Introduced(pages: seq<Page>): set<ObjRef> {
    set p | p in pages && p.Lineage? :: p.object_
  }

  function Empty(o: ObjRef): Page {
    Live(o, None, [], [])
  }

  /** The live row of every touched object: an empty one if it is new, normalized. */
  function SettledRows(w: World, touched: set<ObjRef>): World {
    map o | o in touched :: LiveCell(o) := Normal(if LiveCell(o) in w then w[LiveCell(o)] else Empty(o))
  }

  /** Some touched object is neither present nor introduced by a lineage page. */
  predicate MissingLineage(w: World, pages: seq<Page>) {
    exists o :: o in Touched(pages) && !Has(w, o) && o !in Introduced(pages)
  }

  /** Merge pages into rows; None where an object would be created without its lineage. */
  function Materialize(w: World, pages: seq<Page>): Option<World> {
    if MissingLineage(w, pages) then None
    else Some(Put(w, pages) + SettledRows(Put(w, pages), Touched(pages)))
  }

  ghost predicate UniquePages(pages: seq<Page>) {
    forall i, j :: 0 <= i < j < |pages| ==> CellOf(pages[i]) != CellOf(pages[j])
  }

  ghost predicate Wrote(pages: seq<Page>, k: Cell) {
    exists p :: p in pages && CellOf(p) == k
  }

  lemma {:induction false} PutCell(w: World, pages: seq<Page>, k: Cell)
    requires UniquePages(pages)
    ensures k in Put(w, pages) <==> k in w || Wrote(pages, k)
    ensures k in w && !Wrote(pages, k) ==> Put(w, pages)[k] == w[k]
    ensures forall p :: p in pages && CellOf(p) == k ==> k in Put(w, pages) && Put(w, pages)[k] == p
  {
    if pages != [] {
      var init, last := pages[..|pages| - 1], pages[|pages| - 1];
      PutCell(w, init, k);
      assert pages == init + [last];
      assert Wrote(pages, k) <==> Wrote(init, k) || CellOf(last) == k;
    }
  }

  /** One cell of a materialized world: its new page, its old page, or an empty live row. */
  lemma MaterializedCell(w: World, pages: seq<Page>, k: Cell)
    requires UniquePages(pages) && Materialize(w, pages).Some?
    ensures var r := Materialize(w, pages).value;
            && (forall p :: p in pages && CellOf(p) == k ==> k in r && r[k] == Normal(p))
            && (!Wrote(pages, k) && k in w ==>
                  k in r && r[k] == if k == LiveCell(k.object_) && k.object_ in Touched(pages) then Normal(w[k]) else w[k])
            && (!Wrote(pages, k) && k !in w ==>
                  (k in r <==> k == LiveCell(k.object_) && k.object_ in Touched(pages)) && (k in r ==> r[k] == Empty(k.object_)))
  {
    PutCell(w, pages, k);
    var put := Put(w, pages);
    SettledCell(put, Touched(pages), k);
  }

  lemma SettledCell(w: World, touched: set<ObjRef>, k: Cell)
    ensures var r := w + SettledRows(w, touched);
            if k == LiveCell(k.object_) && k.object_ in touched
            then k in r && r[k] == Normal(if k in w then w[k] else Empty(k.object_))
            else (k in r <==> k in w) && (k in w ==> r[k] == w[k])
  {
  }

  /** An object a page touches was present or arrives with its lineage. */
  lemma TouchedHasLineage(w: World, pages: seq<Page>, p: Page)
    requires UniquePages(pages) && Materialize(w, pages).Some? && p in pages
    ensures Has(Materialize(w, pages).value, p.object_)
  {
    MaterializedCell(w, pages, LineageCell(p.object_));
    if !Has(w, p.object_) {
      var q :| q in pages && q.object_ == p.object_ && q.Lineage?;
    }
  }

  lemma MaterializedWellFormed(w: World, pages: seq<Page>)
    requires WellFormed(w) && UniquePages(pages) && Materialize(w, pages).Some?
    ensures WellFormed(Materialize(w, pages).value)
  {
    var r := Materialize(w, pages).value;
    forall k | k in r ensures CellOf(r[k]) == k && Rooted(r, k) {
      assert k in w ==> Rooted(w, k);
      MaterializedCell(w, pages, k);
      MaterializedCell(w, pages, LineageCell(k.object_));
      MaterializedCell(w, pages, LiveCell(k.object_));
      if k.object_ in Touched(pages) {
        var p :| p in pages && p.object_ == k.object_;
        TouchedHasLineage(w, pages, p);
      }
    }
  }

  lemma MaterializedNormal(w: World, pages: seq<Page>)
    requires NormalWorld(w) && UniquePages(pages) && Materialize(w, pages).Some?
    ensures NormalWorld(Materialize(w, pages).value)
  {
    var r := Materialize(w, pages).value;
    forall k | k in r ensures Normal(r[k]) == r[k] {
      MaterializedCell(w, pages, k);
      if Wrote(pages, k) {
        var p :| p in pages && CellOf(p) == k;
        NormalIdempotent(p);
      }
    }
  }
}
