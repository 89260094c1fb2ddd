/**
 * Read-closure envelopes (src/core/authority-slice.ts,
 * filterAuthorityToReadClosure) and the property reader whose answers they
 * have to preserve (src/core/property-read.ts).
 */
module ReadClosure {
  import opened Sets
  import opened Wrappers
  import opened AuthorityCells
  import opened AuthorityMerge
  import opened AuthorityState
  import opened AuthorityCombine
  import opened AuthorityReturns

  // ------------------------------------------------------------------ the reader

  function LineageOf(w: World, o: ObjRef): Option<Page> {
    if Has(w, o) && w[LineageCell(o)].Lineage? then Some(w[LineageCell(o)]) else None
  }

  function PropertyOf(w: World, o: ObjRef, name: string): Option<Page> {
    var k := Cell(o, PropertyKind, name);
    if k in w && w[k].Property? then Some(w[k]) else None
  }

  /** The default an object defines for a property. */
  function DefaultOf(w: World, o: ObjRef, name: string): Option<string> {
    var p := PropertyOf(w, o, name);
    if p.Some? then p.value.def else None
  }

  function Present(w: World): set<ObjRef> {
    set k | k in w && k == LineageCell(k.object_) :: k.object_
  }

  /** No parent, or one already visited. */
  predicate Exhausted(parent: Option<ObjRef>, seen: set<ObjRef>) {
    parent.None? || parent.value == "" || parent.value in seen
  }

  /** The nearest ancestor's default, from `parent` upwards. */
  function Inherited(w: World, parent: Option<ObjRef>, seen: set<ObjRef>, name: string): Option<string>
    decreases |Present(w) - seen|
  {
    if Exhausted(parent, seen) || LineageOf(w, parent.value).None? then None
    else
      var p := parent.value;
      if DefaultOf(w, p, name).Some? then DefaultOf(w, p, name)
      else
        assert LineageCell(p) in w && p in Present(w) - seen;
        assert Present(w) - (seen + {p}) < Present(w) - seen;
        SubsetSize(Present(w) - (seen + {p}), Present(w) - seen);
        Inherited(w, LineageOf(w, p).value.parent, seen + {p}, name)
  }

  /** What reading a property of a present object gives; None is "property not found". */
  function Read(w: World, o: ObjRef, name: string): Option<string>
    requires LineageOf(w, o).Some?
  {
    var lineage, own := LineageOf(w, o).value, PropertyOf(w, o, name);
    if name == "owner" then Some(lineage.owner)
    else if own.Some? && own.value.value.Some? then own.value.value
    else if name == "name" then Some(lineage.name)
    else Inherited(w, lineage.parent, {}, name)
  }

  /** The reader: a cursor climbing parents, with the set of parents seen. */
  method ReadObjectPropertyValue(w: World, o: ObjRef, name: string) returns (found: Option<string>)
    requires LineageOf(w, o).Some?
    ensures found == Read(w, o, name)
  {
    var lineage, own := LineageOf(w, o).value, PropertyOf(w, o, name);
    if name == "owner" { return Some(lineage.owner); }
    if own.Some? && own.value.value.Some? { return own.value.value; }
    if name == "name" { return Some(lineage.name); }
    var parent, seen := lineage.parent, {};
    while !Exhausted(parent, seen)
      invariant Read(w, o, name) == Inherited(w, parent, seen, name)
      decreases |Present(w) - seen|
    {
      var p := parent.value;
      var ancestor := LineageOf(w, p);
      if ancestor.None? { break; }
      if DefaultOf(w, p, name).Some? { return DefaultOf(w, p, name); }
      assert LineageCell(p) in w;
      SubsetSize(Present(w) - (seen + {p}), Present(w) - seen);
      parent, seen := ancestor.value.parent, seen + {p};
    }
    return None;
  }

  // ------------------------------------------------------ what a reading finds

  /** The k-th recorded parent of an object, while every object on the way is present. */
  function Forebear(w: World, o: ObjRef, k: nat): Option<ObjRef> {
    if k == 0 then Some(o)
    else match Forebear(w, o, k - 1)
      case Some(a) =>
        var lineage := LineageOf(w, a);
        if lineage.Some? && lineage.value.parent != Some("") then lineage.value.parent else None
      case None => None
  }

  /** A present forebear that defines no default for the name. */
  ghost predicate Silent(w: World, o: ObjRef, name: string, k: nat) {
    var a := Forebear(w, o, k);
    a.Some? && LineageOf(w, a.value).Some? && DefaultOf(w, a.value, name).None?
  }

  /** The nearest proper forebear with a default is the k-th, and its default is d. */
  ghost predicate NearestDefault(w: World, o: ObjRef, name: string, k: nat, d: string) {
    && 1 <= k && Forebear(w, o, k).Some? && LineageOf(w, Forebear(w, o, k).value).Some?
    && DefaultOf(w, Forebear(w, o, k).value, name) == Some(d)
    && forall i :: 0 < i < k ==> Silent(w, o, name, i)
  }

  /** What the reader has passed: silent forebears whose parents lead to its cursor. */
  ghost predicate Climbed(w: World, o: ObjRef, name: string, j: nat, seen: set<ObjRef>) {
    && 1 <= j
    && (forall s :: s in seen ==> LineageOf(w, s).Some? && DefaultOf(w, s, name).None?)
    && (forall i :: 0 < i < j ==> Forebear(w, o, i).Some? && Forebear(w, o, i).value in seen)
    && (forall s :: s in seen ==>
          var next := LineageOf(w, s).value.parent;
          next.None? || next.value == "" || next.value in seen || next == Forebear(w, o, j))
  }

  lemma {:induction false} ForebearsEnd(w: World, o: ObjRef, k: nat, m: nat)
    requires k <= m && Forebear(w, o, k).None?
    ensures Forebear(w, o, m).None?
  {
    if k < m { ForebearsEnd(w, o, k, m - 1); }
  }

  /** From a forebear seen before, only seen ones follow. */
  lemma {:induction false} CycleStaysSeen(w: World, o: ObjRef, name: string, j: nat, seen: set<ObjRef>, m: nat)
    requires Climbed(w, o, name, j, seen) && Forebear(w, o, j).Some? && Forebear(w, o, j).value in seen
    requires j <= m && Forebear(w, o, m).Some?
    ensures Forebear(w, o, m).value in seen
  {
    if m > j {
      CycleStaysSeen(w, o, name, j, seen, m - 1);
    }
  }

  /** Where the reader stops empty-handed there is no nearest default. */
  lemma StoppedReader(w: World, o: ObjRef, name: string, j: nat, seen: set<ObjRef>, k: nat, d: string)
    requires Climbed(w, o, name, j, seen)
    requires var cursor := Forebear(w, o, j); cursor.None? || cursor.value in seen || LineageOf(w, cursor.value).None?
    ensures !NearestDefault(w, o, name, k, d)
  {
    var cursor := Forebear(w, o, j);
    if NearestDefault(w, o, name, k, d) && j <= k {
      if cursor.None? {
        ForebearsEnd(w, o, j, k);
      } else if cursor.value in seen {
        CycleStaysSeen(w, o, name, j, seen, k);
      } else if j < k {
        ForebearsEnd(w, o, j + 1, k);
      }
    }
  }

  /** Forebears and the recorded parent, which may be an empty string, are the same to the reader. */
  predicate AsCursor(parent: Option<ObjRef>, cursor: Option<ObjRef>) {
    parent == cursor || (parent == Some("") && cursor.None?)
  }

  lemma {:induction false} InheritedIsNearest(w: World, o: ObjRef, name: string, parent: Option<ObjRef>, j: nat, seen: set<ObjRef>, d: string)
    requires Climbed(w, o, name, j, seen) && AsCursor(parent, Forebear(w, o, j)) && Forebear(w, o, j) != Some("")
    ensures Inherited(w, parent, seen, name) == Some(d) <==> exists k: nat :: NearestDefault(w, o, name, k, d)
    decreases |Present(w) - seen|
  {
    if Exhausted(parent, seen) || LineageOf(w, parent.value).None? {
      forall k: nat ensures !NearestDefault(w, o, name, k, d) {
        StoppedReader(w, o, name, j, seen, k, d);
      }
    } else {
      var p := parent.value;
      if DefaultOf(w, p, name).Some? {
        FoundHere(w, o, name, p, j, seen, d);
      } else {
        assert LineageCell(p) in w && p in Present(w) - seen;
        SubsetSize(Present(w) - (seen + {p}), Present(w) - seen);
        ClimbOn(w, o, name, p, j, seen);
        InheritedIsNearest(w, o, name, LineageOf(w, p).value.parent, j + 1, seen + {p}, d);
      }
    }
  }

  lemma FoundHere(w: World, o: ObjRef, name: string, p: ObjRef, j: nat, seen: set<ObjRef>, d: string)
    requires Climbed(w, o, name, j, seen) && Forebear(w, o, j) == Some(p) && LineageOf(w, p).Some? && DefaultOf(w, p, name).Some?
    ensures DefaultOf(w, p, name) == Some(d) <==> exists k: nat :: NearestDefault(w, o, name, k, d)
  {
    forall i | 0 < i < j ensures Silent(w, o, name, i) {
    }
    assert DefaultOf(w, p, name) == Some(d) ==> NearestDefault(w, o, name, j, d);
    forall k: nat | NearestDefault(w, o, name, k, d) ensures k == j {
      assert k > j ==> Silent(w, o, name, j);
    }
  }

  lemma ClimbOn(w: World, o: ObjRef, name: string, p: ObjRef, j: nat, seen: set<ObjRef>)
    requires Climbed(w, o, name, j, seen) && Forebear(w, o, j) == Some(p) && LineageOf(w, p).Some? && DefaultOf(w, p, name).None?
    ensures Climbed(w, o, name, j + 1, seen + {p})
    ensures AsCursor(LineageOf(w, p).value.parent, Forebear(w, o, j + 1)) && Forebear(w, o, j + 1) != Some("")
  {
  }

  /**
   * A reading finds the owner, or the object's own value, or its name, or else
   * the default of the nearest forebear that defines one, cycles or not; and
   * nothing exactly where no forebear does.
   */
  lemma ReadingIsNearest(w: World, o: ObjRef, name: string, d: string)
    requires LineageOf(w, o).Some?
    ensures var own := PropertyOf(w, o, name);
            Read(w, o, name) == Some(d) <==>
            if name == "owner" then d == LineageOf(w, o).value.owner
            else if own.Some? && own.value.value.Some? then own.value.value == Some(d)
            else if name == "name" then d == LineageOf(w, o).value.name
            else exists k: nat :: NearestDefault(w, o, name, k, d)
  {
    var parent := LineageOf(w, o).value.parent;
    assert Forebear(w, o, 0) == Some(o);
    InheritedIsNearest(w, o, name, parent, 1, {}, d);
  }

  /** The walk from `parent` looks at no more than `n` present ancestors. */
  ghost predicate EndsWithin(w: World, parent: Option<ObjRef>, seen: set<ObjRef>, n: nat)
    decreases n
  {
    || Exhausted(parent, seen)
    || LineageOf(w, parent.value).None?
    || (n > 0 && EndsWithin(w, LineageOf(w, parent.value).value.parent, seen + {parent.value}, n - 1))
  }

  // ------------------------------------------------------- the world of a slice

  function Referenced(inline: seq<Page>, hashes: set<Page>): seq<Page> {
    if inline == [] then []
    else
      var init, last := Referenced(inline[..|inline| - 1], hashes), inline[|inline| - 1];
      if last in hashes then init + [last] else init
  }

  function HashesOf(refs: seq<Ref>): set<Page> {
    set r | r in refs :: r.hash
  }

  /** The world a slice describes on its own; None where an object has no lineage to build it from. */
  function Seed(slice: Slice): Option<World> {
    var pages := Referenced(slice.inline, HashesOf(slice.refs));
    Materialize(map[], pages + Scaffold(map[], slice.inline, pages, |pages|))
  }

  // ------------------------------------------------------------------ the filter

  /** The last recorded parent of an object among the inline lineage pages. */
  function ParentOf(inline: seq<Page>, o: ObjRef): Option<ObjRef> {
    if inline == [] then None
    else
      var last := inline[|inline| - 1];
      if last.Lineage? && last.object_ == o && last.parent.Some? then last.parent else ParentOf(inline[..|inline| - 1], o)
  }

  /** Ancestors within `n` steps of an object. */
  function Climb(inline: seq<Page>, o: ObjRef, n: nat): set<ObjRef>
    decreases n
  {
    var parent := ParentOf(inline, o);
    if n == 0 || parent.None? || parent.value == "" then {} else {parent.value} + Climb(inline, parent.value, n - 1)
  }

  /** The j-th recorded parent of an object. */
  function Up(inline: seq<Page>, o: ObjRef, j: nat): Option<ObjRef>
    decreases j
  {
    if j == 0 then Some(o)
    else
      var parent := ParentOf(inline, o);
      if parent.None? || parent.value == "" then None else Up(inline, parent.value, j - 1)
  }

  lemma {:induction false} ClimbedIsUp(inline: seq<Page>, o: ObjRef, n: nat, x: ObjRef) returns (j: nat)
    requires x in Climb(inline, o, n)
    ensures 1 <= j <= n && Up(inline, o, j) == Some(x)
    decreases n
  {
    var parent := ParentOf(inline, o).value;
    if x == parent {
      j := 1;
      assert Up(inline, parent, 0) == Some(parent);
    } else {
      var i := ClimbedIsUp(inline, parent, n - 1, x);
      j := i + 1;
    }
  }

  lemma {:induction false} UpIsClimbed(inline: seq<Page>, o: ObjRef, n: nat, x: ObjRef, j: nat)
    requires 1 <= j <= n && Up(inline, o, j) == Some(x)
    ensures x in Climb(inline, o, n)
    decreases n
  {
    var parent := ParentOf(inline, o).value;
    if j == 1 {
      assert Up(inline, parent, 0) == Some(parent);
    } else {
      UpIsClimbed(inline, parent, n - 1, x, j - 1);
    }
  }

  const MAX_LINEAGE_DEPTH: nat := 32

  ghost function Expanded(inline: seq<Page>, closure: set<ObjRef>): iset<ObjRef> {
    iset x | x in closure || exists o :: o in closure && x in Climb(inline, o, MAX_LINEAGE_DEPTH)
  }

  /** The expansion holds exactly the closure and the first 32 recorded parents of its members. */
  lemma ExpandedExactly(inline: seq<Page>, closure: set<ObjRef>, x: ObjRef)
    ensures x in Expanded(inline, closure) <==>
            x in closure || exists o, j: nat :: o in closure && 1 <= j <= 32 && Up(inline, o, j) == Some(x)
  {
    if x in Expanded(inline, closure) && x !in closure {
      var o :| o in closure && x in Climb(inline, o, MAX_LINEAGE_DEPTH);
      var j := ClimbedIsUp(inline, o, MAX_LINEAGE_DEPTH, x);
    }
    if o, j: nat :| o in closure && 1 <= j <= 32 && Up(inline, o, j) == Some(x) {
      UpIsClimbed(inline, o, MAX_LINEAGE_DEPTH, x, j);
    }
  }

  /** Climb from one closure member, adding its ancestors within the depth. */
  method AddAncestors(inline: seq<Page>, id: ObjRef, ghost closure: set<ObjRef>, before: set<ObjRef>, lineageBefore: set<ObjRef>)
    returns (expanded: set<ObjRef>, lineageOnly: set<ObjRef>)
    requires closure <= before && lineageBefore == before - closure
    ensures expanded == before + Climb(inline, id, MAX_LINEAGE_DEPTH) && lineageOnly == expanded - closure
  {
    expanded, lineageOnly := before, lineageBefore;
    var current := id;
    for depth := 0 to MAX_LINEAGE_DEPTH
      invariant closure <= expanded && lineageOnly == expanded - closure
      invariant expanded + Climb(inline, current, MAX_LINEAGE_DEPTH - depth) == before + Climb(inline, id, MAX_LINEAGE_DEPTH)
    {
      var parent := ParentOf(inline, current);
      if parent.None? || parent.value == "" { return; }
      if parent.value !in expanded {
        expanded, lineageOnly := expanded + {parent.value}, lineageOnly + {parent.value};
      }
      current := parent.value;
    }
  }

  /** Expand a closure by its lineage, and tell which members are ancestors only. */
  method ExpandClosure(inline: seq<Page>, closure: set<ObjRef>) returns (expanded: set<ObjRef>, lineageOnly: set<ObjRef>)
    ensures forall x :: x in expanded <==> x in Expanded(inline, closure)
    ensures lineageOnly == expanded - closure
  {
    expanded, lineageOnly := closure, {};
    var todo := closure;
    while todo != {}
      invariant todo <= closure <= expanded && lineageOnly == expanded - closure
      invariant forall x :: x in expanded <==> x in closure || exists o :: o in closure - todo && x in Climb(inline, o, MAX_LINEAGE_DEPTH)
    {
      var id :| id in todo;
      expanded, lineageOnly := AddAncestors(inline, id, closure, expanded, lineageOnly);
      todo := todo - {id};
    }
  }

  function SelectRefs(refs: seq<Ref>, admit: Ref -> bool): seq<Ref> {
    if refs == [] then []
    else
      var init, last := SelectRefs(refs[..|refs| - 1], admit), refs[|refs| - 1];
      if admit(last) then init + [last] else init
  }

  function ObjectsOf(refs: seq<Ref>): set<ObjRef> {
    set r | r in refs :: r.cell.object_
  }

  /** The first lineage reference of each kept object that lost its own. */
  function Readded(refs: seq<Ref>, kept: seq<Ref>): seq<Ref> {
    if refs == [] then []
    else
      var init, last := Readded(refs[..|refs| - 1], kept), refs[|refs| - 1];
      if last.cell.kind == LineageKind && last.cell.object_ in ObjectsOf(kept)
         && last.cell.object_ !in Identities(kept) && last.cell.object_ !in Identities(init)
      then init + [last] else init
  }

  /** Keep the chosen references, give each kept object its lineage back, and carry just their pages. */
  function FilterPages(sort: seq<Ref> -> seq<Ref>, slice: Slice, admit: Ref -> bool): Slice {
    var kept := SelectRefs(slice.refs, admit);
    var refs := sort(kept + Readded(slice.refs, kept));
    Slice(refs, Referenced(slice.inline, HashesOf(refs)))
  }

  ghost predicate Reorders(sort: seq<Ref> -> seq<Ref>) {
    forall s, r :: r in sort(s) <==> r in s
  }

  /** The references a read closure keeps: verbs only where they were read, nothing outside the expansion. */
  ghost function InClosure(inline: seq<Page>, closure: set<ObjRef>, verbs: Option<set<(ObjRef, string)>>): Ref -> bool {
    (r: Ref) =>
      && r.cell.object_ in Expanded(inline, closure)
      && (r.cell.kind == VerbKind ==>
            r.cell.object_ in closure && (verbs.Some? ==> (r.cell.object_, r.cell.name) in verbs.value))
  }

  ghost function FilterToReadClosure(sort: seq<Ref> -> seq<Ref>, slice: Slice, closure: set<ObjRef>, verbs: Option<set<(ObjRef, string)>>): Slice {
    FilterPages(sort, slice, InClosure(slice.inline, closure, verbs))
  }

  /** The filter as it is computed: expand, then keep what the expansion admits. */
  method FilterAuthorityToReadClosure(sort: seq<Ref> -> seq<Ref>, slice: Slice, closure: set<ObjRef>, verbs: Option<set<(ObjRef, string)>>)
    returns (filtered: Slice)
    ensures filtered == FilterToReadClosure(sort, slice, closure, verbs)
    ensures Reorders(sort) ==> forall r :: r in filtered.refs <==> r in slice.refs && Needed(slice.inline, closure, verbs, r.cell)
  {
    var expanded, lineageOnly := ExpandClosure(slice.inline, closure);
    var admit := (r: Ref) =>
      && r.cell.object_ in expanded
      && (r.cell.kind == VerbKind ==>
            r.cell.object_ !in lineageOnly && (verbs.Some? ==> (r.cell.object_, r.cell.name) in verbs.value));
    SelectAgrees(slice.refs, admit, InClosure(slice.inline, closure, verbs));
    filtered := FilterPages(sort, slice, admit);
    if Reorders(sort) {
      forall r ensures r in filtered.refs <==> r in slice.refs && Needed(slice.inline, closure, verbs, r.cell) {
        FilteredRefsExactly(sort, slice, closure, verbs, r);
      }
    }
  }

  lemma {:induction false} SelectAgrees(refs: seq<Ref>, p: Ref -> bool, q: Ref -> bool)
    requires forall r :: p(r) == q(r)
    ensures SelectRefs(refs, p) == SelectRefs(refs, q)
  {
    if refs != [] { SelectAgrees(refs[..|refs| - 1], p, q); }
  }

  // ---------------------------------------------------- what filtering preserves

  lemma {:induction false} Selected(refs: seq<Ref>, admit: Ref -> bool, r: Ref)
    ensures r in SelectRefs(refs, admit) <==> r in refs && admit(r)
  {
    if refs != [] {
      Selected(refs[..|refs| - 1], admit, r);
      assert refs == refs[..|refs| - 1] + [refs[|refs| - 1]];
    }
  }

  lemma {:induction false} ReferencedPages(inline: seq<Page>, hashes: set<Page>)
    ensures forall p :: p in Referenced(inline, hashes) <==> p in inline && p in hashes
    ensures UniquePages(inline) ==> UniquePages(Referenced(inline, hashes))
  {
    if inline != [] {
      var init, last := inline[..|inline| - 1], inline[|inline| - 1];
      ReferencedPages(init, hashes);
      assert inline == init + [last];
      if UniquePages(inline) {
        assert forall p :: p in init ==> CellOf(p) != CellOf(last);
        UniqueSnoc(Referenced(init, hashes), last);
      }
    }
  }

  lemma UniqueSnoc(pages: seq<Page>, last: Page)
    requires UniquePages(pages) && forall p :: p in pages ==> CellOf(p) != CellOf(last)
    ensures UniquePages(pages + [last])
  {
  }

  lemma {:induction false} ReaddedFacts(refs: seq<Ref>, kept: seq<Ref>)
    ensures forall r :: r in Readded(refs, kept) ==> r in refs && r.cell.kind == LineageKind && r.cell.object_ in ObjectsOf(kept)
    ensures forall o :: o in Identities(refs) && o in ObjectsOf(kept) ==> o in Identities(kept) || o in Identities(Readded(refs, kept))
  {
    if refs != [] {
      var init, last := refs[..|refs| - 1], refs[|refs| - 1];
      ReaddedFacts(init, kept);
      assert refs == init + [last];
      IdentitiesSnoc(init, last);
      IdentitiesSnoc(Readded(init, kept), last);
    }
  }

  lemma IdentitiesSnoc(init: seq<Ref>, last: Ref)
    ensures Identities(init + [last]) == Identities(init) + (if last.cell.kind == LineageKind then {last.cell.object_} else {})
  {
  }

  lemma FilteredRefs(sort: seq<Ref> -> seq<Ref>, slice: Slice, admit: Ref -> bool)
    requires Reorders(sort) && InlineComplete(slice)
    ensures var f := FilterPages(sort, slice, admit);
            && InlineComplete(f)
            && (forall r :: r in f.refs ==> r in slice.refs)
            && (forall r :: r in slice.refs && admit(r) ==> r in f.refs)
  {
    var kept := SelectRefs(slice.refs, admit);
    var added := Readded(slice.refs, kept);
    var f := FilterPages(sort, slice, admit);
    ReaddedFacts(slice.refs, kept);
    ReferencedPages(slice.inline, HashesOf(f.refs));
    forall r ensures r in f.refs <==> (r in slice.refs && admit(r)) || r in added {
      Selected(slice.refs, admit, r);
      assert r in kept + added <==> r in kept || r in added;
    }
  }

  /** The slice refers to the identity of every object the filter would keep a reference of. */
  ghost predicate AdmitsIdentified(slice: Slice, admit: Ref -> bool) {
    forall r :: r in slice.refs && admit(r) ==> r.cell.object_ in Identities(slice.refs)
  }

  /** Any page filter of a usable slice is usable: pages carried, and every kept object still has its identity. */
  lemma FilterKeepsLineage(sort: seq<Ref> -> seq<Ref>, slice: Slice, admit: Ref -> bool)
    requires Reorders(sort) && InlineComplete(slice) && AdmitsIdentified(slice, admit)
    ensures var f := FilterPages(sort, slice, admit);
            && InlineComplete(f) && LineageClosed(f)
            && (forall r :: r in f.refs ==> r in slice.refs)
            && (forall r :: r in slice.refs && admit(r) ==> r in f.refs)
  {
    FilteredRefs(sort, slice, admit);
    var kept := SelectRefs(slice.refs, admit);
    var added := Readded(slice.refs, kept);
    var f := FilterPages(sort, slice, admit);
    ReaddedFacts(slice.refs, kept);
    forall r | r in f.refs ensures r.cell.object_ in Identities(f.refs) {
      assert r in kept + added;
      var q :| q in kept && q.cell.object_ == r.cell.object_;
      Selected(slice.refs, admit, q);
      IdentitySurvives(sort, kept, added, r.cell.object_);
    }
  }

  lemma IdentitySurvives(sort: seq<Ref> -> seq<Ref>, kept: seq<Ref>, added: seq<Ref>, o: ObjRef)
    requires Reorders(sort) && (o in Identities(kept) || o in Identities(added))
    ensures o in Identities(sort(kept + added))
  {
    var q :| (q in kept || q in added) && q.cell.kind == LineageKind && q.cell.object_ == o;
    assert q in kept + added;
  }

  // --------------------------------------------------------- cells of the worlds

  /** One page per cell, every reference carried, every object identified: how slices are built. */
  ghost predicate Standalone(slice: Slice) {
    UniquePages(slice.inline) && InlineComplete(slice) && LineageClosed(slice)
  }

  /** A combination of slices that carry their pages is such a slice. */
  lemma CombinedIsStandalone(order: Layout, slices: seq<Slice>)
    requires Faithful(order) && forall s :: s in slices ==> InlineComplete(s)
    ensures Standalone(Combine(order, slices))
  {
    var c := Combine(order, slices);
    CombinedIsMergeable(order, slices);
    forall r | r in c.refs ensures CellOf(r.hash) == r.cell {
      CombinePicksLastMaximal(order, slices, r);
      AllRefsOf(slices, r);
    }
    TakeFindsWinners(slices);
    var t := TakeAll(slices);
    assert Listing(c.inline, t.inline * Hashes(Closed(t.byKey))) && Listing(c.refs, Closed(t.byKey));
    OnePagePerCell(c);
  }

  lemma OnePagePerCell(c: Slice)
    requires UniqueRefs(c.refs) && InlineComplete(c)
    requires forall p :: p in c.inline ==> exists r :: r in c.refs && r.hash == p
    requires forall i, j :: 0 <= i < j < |c.inline| ==> c.inline[i] != c.inline[j]
    ensures UniquePages(c.inline)
  {
    forall i, j | 0 <= i < j < |c.inline| ensures CellOf(c.inline[i]) != CellOf(c.inline[j]) {
      var p, q := c.inline[i], c.inline[j];
      assert p in c.inline && q in c.inline;
      var r :| r in c.refs && r.hash == p;
      var u :| u in c.refs && u.hash == q;
      assert CellOf(r.hash) == r.cell && CellOf(u.hash) == u.cell;
    }
  }

  lemma {:induction false} NothingToScaffold(inline: seq<Page>, pages: seq<Page>, n: nat)
    requires n <= |pages| && forall p :: p in pages ==> HasLineagePage(pages, p.object_)
    ensures Scaffold(map[], inline, pages, n) == []
  {
    if n > 0 {
      assert pages[n - 1] in pages;
      NothingToScaffold(inline, pages, n - 1);
    }
  }

  lemma IdentifiedPages(slice: Slice, p: Page)
    requires Standalone(slice)
    requires p in Referenced(slice.inline, HashesOf(slice.refs))
    ensures HasLineagePage(Referenced(slice.inline, HashesOf(slice.refs)), p.object_)
    ensures p.object_ in Introduced(Referenced(slice.inline, HashesOf(slice.refs)))
  {
    ReferencedPages(slice.inline, HashesOf(slice.refs));
    var r :| r in slice.refs && r.hash == p;
    assert CellOf(r.hash) == r.cell;
    var q :| q in slice.refs && q.cell.kind == LineageKind && q.cell.object_ == p.object_;
    assert CellOf(q.hash) == q.cell;
    assert q.hash in Referenced(slice.inline, HashesOf(slice.refs)) && q.hash.Lineage? && q.hash.object_ == p.object_;
  }

  lemma SeedBuilds(slice: Slice)
    requires Standalone(slice)
    ensures var pages := Referenced(slice.inline, HashesOf(slice.refs));
            UniquePages(pages) && Materialize(map[], pages).Some? && Seed(slice) == Materialize(map[], pages)
  {
    var pages := Referenced(slice.inline, HashesOf(slice.refs));
    ReferencedPages(slice.inline, HashesOf(slice.refs));
    forall p | p in pages ensures HasLineagePage(pages, p.object_) && p.object_ in Introduced(pages) {
      IdentifiedPages(slice, p);
    }
    NothingToScaffold(slice.inline, pages, |pages|);
    assert pages + [] == pages;
    assert !MissingLineage(map[], pages);
  }

  /** The world of a slice holds exactly the pages referred to, live rows aside. */
  lemma SeedCell(slice: Slice, k: Cell)
    requires Standalone(slice) && k.kind != LiveKind
    ensures Seed(slice).Some?
    ensures var w := Seed(slice).value;
            (k in w <==> Referred(slice.refs, k)) && forall r :: r in slice.refs && r.cell == k ==> k in w && w[k] == r.hash
  {
    SeedBuilds(slice);
    var pages := Referenced(slice.inline, HashesOf(slice.refs));
    ReferencedPages(slice.inline, HashesOf(slice.refs));
    MaterializedCell(map[], pages, k);
    WroteIffReferred(slice, k);
    forall r | r in slice.refs && r.cell == k ensures r.hash in pages && CellOf(r.hash) == k && Normal(r.hash) == r.hash {
    }
  }

  lemma WroteIffReferred(slice: Slice, k: Cell)
    requires Standalone(slice)
    ensures Wrote(Referenced(slice.inline, HashesOf(slice.refs)), k) <==> Referred(slice.refs, k)
  {
    var pages := Referenced(slice.inline, HashesOf(slice.refs));
    ReferencedPages(slice.inline, HashesOf(slice.refs));
    if Wrote(pages, k) {
      var p :| p in pages && CellOf(p) == k;
      var r :| r in slice.refs && r.hash == p;
      assert CellOf(r.hash) == r.cell;
    }
    if Referred(slice.refs, k) {
      var r :| r in slice.refs && r.cell == k;
      assert r.hash in pages && CellOf(r.hash) == k;
    }
  }

  /** `v` is part of `w`, and has all that `w` knows of the identities and properties of `keep`. */
  ghost predicate Excerpt(w: World, v: World, keep: iset<ObjRef>) {
    && (forall k :: k in v && k.kind != LiveKind ==> k in w && v[k] == w[k])
    && (forall k :: k in w && k.object_ in keep && (k.kind == LineageKind || k.kind == PropertyKind) ==> k in v)
  }

  lemma FilteredExcerpt(sort: seq<Ref> -> seq<Ref>, slice: Slice, closure: set<ObjRef>, verbs: Option<set<(ObjRef, string)>>)
    requires Reorders(sort) && Standalone(slice)
    ensures var f := FilterToReadClosure(sort, slice, closure, verbs);
            && Standalone(f) && Seed(slice).Some? && Seed(f).Some?
            && Excerpt(Seed(slice).value, Seed(f).value, Expanded(slice.inline, closure))
  {
    var admit := InClosure(slice.inline, closure, verbs);
    var f := FilterPages(sort, slice, admit);
    FilterKeepsLineage(sort, slice, admit);
    ReferencedPages(slice.inline, HashesOf(f.refs));
    SeedBuilds(slice);
    SeedBuilds(f);
    var w, v := Seed(slice).value, Seed(f).value;
    forall k | k in v && k.kind != LiveKind ensures k in w && v[k] == w[k] {
      SeedCell(slice, k);
      SeedCell(f, k);
      var r :| r in f.refs && r.cell == k;
      assert r in slice.refs;
    }
    forall k | k in w && k.object_ in Expanded(slice.inline, closure) && (k.kind == LineageKind || k.kind == PropertyKind)
      ensures k in v
    {
      SeedCell(slice, k);
      SeedCell(f, k);
      var r :| r in slice.refs && r.cell == k;
      assert admit(r);
    }
  }

  // ------------------------------------------------- the filtered world, cell by cell

  /**
   * What a commit needs of a cell: everything of an object in the expansion,
   * but of the verbs only those of the closure itself, and only those read if
   * the reads are known.
   */
  ghost predicate Needed(inline: seq<Page>, closure: set<ObjRef>, verbs: Option<set<(ObjRef, string)>>, k: Cell) {
    && k.object_ in Expanded(inline, closure)
    && match k.kind
       case LineageKind => true
       case LiveKind => true
       case PropertyKind => true
       case VerbKind => k.object_ in closure && (verbs.None? || (k.object_, k.name) in verbs.value)
  }

  /** The filtered slice refers to exactly the needed cells. */
  lemma FilteredRefsExactly(sort: seq<Ref> -> seq<Ref>, slice: Slice, closure: set<ObjRef>, verbs: Option<set<(ObjRef, string)>>, r: Ref)
    requires Reorders(sort)
    ensures r in FilterToReadClosure(sort, slice, closure, verbs).refs <==>
            r in slice.refs && Needed(slice.inline, closure, verbs, r.cell)
  {
    var admit := InClosure(slice.inline, closure, verbs);
    var kept := SelectRefs(slice.refs, admit);
    var added := Readded(slice.refs, kept);
    ReaddedFacts(slice.refs, kept);
    Selected(slice.refs, admit, r);
    assert r in kept + added <==> r in kept || r in added;
    if r in added {
      var q :| q in kept && q.cell.object_ == r.cell.object_;
      Selected(slice.refs, admit, q);
    }
  }

  /** The live row in a slice's world: that of its reference, or an empty one for any other object referred to. */
  lemma SeedLive(slice: Slice, o: ObjRef)
    requires Standalone(slice)
    ensures Seed(slice).Some?
    ensures var w := Seed(slice).value;
            && (LiveCell(o) in w <==> exists r :: r in slice.refs && r.cell.object_ == o)
            && (forall r :: r in slice.refs && r.cell == LiveCell(o) ==> LiveCell(o) in w && w[LiveCell(o)] == Normal(r.hash))
            && (LiveCell(o) in w && !Referred(slice.refs, LiveCell(o)) ==> w[LiveCell(o)] == Empty(o))
  {
    SeedBuilds(slice);
    var pages := Referenced(slice.inline, HashesOf(slice.refs));
    ReferencedPages(slice.inline, HashesOf(slice.refs));
    MaterializedCell(map[], pages, LiveCell(o));
    WroteIffReferred(slice, LiveCell(o));
    TouchedIffReferred(slice, o);
    forall r | r in slice.refs && r.cell == LiveCell(o) ensures r.hash in pages && CellOf(r.hash) == LiveCell(o) {
    }
  }

  lemma TouchedIffReferred(slice: Slice, o: ObjRef)
    requires Standalone(slice)
    ensures o in Touched(Referenced(slice.inline, HashesOf(slice.refs))) <==> exists r :: r in slice.refs && r.cell.object_ == o
  {
    var pages := Referenced(slice.inline, HashesOf(slice.refs));
    ReferencedPages(slice.inline, HashesOf(slice.refs));
    if o in Touched(pages) {
      var p :| p in pages && p.object_ == o;
      var r :| r in slice.refs && r.hash == p;
      assert CellOf(r.hash) == r.cell;
    }
    if exists r :: r in slice.refs && r.cell.object_ == o {
      var r :| r in slice.refs && r.cell.object_ == o;
      assert r.hash in pages && CellOf(r.hash) == r.cell;
    }
  }

  lemma FilteredOther(full: Slice, f: Slice, need: Cell -> bool, k: Cell)
    requires Standalone(full) && Standalone(f) && k.kind != LiveKind
    requires forall r :: r in f.refs <==> r in full.refs && need(r.cell)
    ensures Seed(full).Some? && Seed(f).Some?
    ensures var w, v := Seed(full).value, Seed(f).value; (k in v <==> k in w && need(k)) && (k in v ==> v[k] == w[k])
  {
    SeedCell(full, k);
    SeedCell(f, k);
    if Referred(full.refs, k) {
      var r :| r in full.refs && r.cell == k;
      assert need(k) ==> r in f.refs;
    }
  }

  lemma FilteredLive(full: Slice, f: Slice, need: Cell -> bool, o: ObjRef)
    requires Standalone(full) && Standalone(f)
    requires forall r :: r in f.refs <==> r in full.refs && need(r.cell)
    requires need(LiveCell(o)) <==> need(LineageCell(o))
    requires forall k :: need(k) && k.object_ == o ==> need(LiveCell(o))
    requires forall k: Cell :: k.kind == LineageKind && k.object_ == o && need(LiveCell(o)) ==> need(k)
    ensures Seed(full).Some? && Seed(f).Some?
    ensures var w, v := Seed(full).value, Seed(f).value;
            && (LiveCell(o) in v <==> LiveCell(o) in w && need(LiveCell(o)))
            && (LiveCell(o) in v ==> v[LiveCell(o)] == w[LiveCell(o)])
  {
    SeedLive(full, o);
    SeedLive(f, o);
    if need(LiveCell(o)) && exists r :: r in full.refs && r.cell.object_ == o {
      var r :| r in full.refs && r.cell.object_ == o;
      assert o in Identities(full.refs);
      var q :| q in full.refs && q.cell.kind == LineageKind && q.cell.object_ == o;
      assert q in f.refs;
    }
    if Referred(full.refs, LiveCell(o)) {
      var r :| r in full.refs && r.cell == LiveCell(o);
      assert need(LiveCell(o)) ==> r in f.refs;
    }
  }

  /**
   * The filtered world is exactly the needed part of the full one: a cell is in
   * it if and only if the full world has it and a commit needs it, and then it
   * holds the same page, live rows with location, children and contents included.
   */
  lemma FilteredWorldExactly(sort: seq<Ref> -> seq<Ref>, slice: Slice, closure: set<ObjRef>, verbs: Option<set<(ObjRef, string)>>, k: Cell)
    requires Reorders(sort) && Standalone(slice) && (k.kind == LiveKind ==> k.name == "")
    ensures var f := FilterToReadClosure(sort, slice, closure, verbs);
            && Seed(slice).Some? && Seed(f).Some?
            && var w, v := Seed(slice).value, Seed(f).value;
               && (k in v <==> k in w && Needed(slice.inline, closure, verbs, k))
               && (k in v ==> v[k] == w[k])
  {
    var f := FilterToReadClosure(sort, slice, closure, verbs);
    var need := (c: Cell) => Needed(slice.inline, closure, verbs, c);
    FilteredExcerpt(sort, slice, closure, verbs);
    forall r ensures r in f.refs <==> r in slice.refs && need(r.cell) {
      FilteredRefsExactly(sort, slice, closure, verbs, r);
    }
    if k.kind == LiveKind {
      assert k == LiveCell(k.object_);
      FilteredLive(slice, f, need, k.object_);
    } else {
      FilteredOther(slice, f, need, k);
    }
  }

  // -------------------------------------------- when a filtered slice stands alone

  lemma {:induction false} UnidentifiedStays(inline: seq<Page>, pages: seq<Page>, n: nat, o: ObjRef)
    requires n <= |pages| && forall p :: p in inline ==> CellOf(p) != LineageCell(o)
    ensures forall p :: p in Scaffold(map[], inline, pages, n) ==> p.object_ != o
  {
    if n > 0 {
      UnidentifiedStays(inline, pages, n - 1, o);
      InlineLineageShape(inline, pages[n - 1].object_);
    }
  }

  lemma UnidentifiedFails(slice: Slice, r: Ref)
    requires InlineComplete(slice) && (forall p :: p in slice.inline ==> p in HashesOf(slice.refs))
    requires r in slice.refs && r.cell.object_ !in Identities(slice.refs)
    ensures Seed(slice).None?
  {
    var o, pages := r.cell.object_, Referenced(slice.inline, HashesOf(slice.refs));
    ReferencedPages(slice.inline, HashesOf(slice.refs));
    forall p | p in slice.inline ensures CellOf(p) != LineageCell(o) {
      var q :| q in slice.refs && q.hash == p;
      assert CellOf(q.hash) == q.cell;
    }
    UnidentifiedStays(slice.inline, pages, |pages|, o);
    var all := pages + Scaffold(map[], slice.inline, pages, |pages|);
    assert r.hash in pages && CellOf(r.hash) == r.cell;
    assert r.hash in all && o in Touched(all);
    assert o !in Introduced(all);
  }

  /**
   * A filtered slice builds a world of its own exactly when the full slice
   * refers to the identity of every object kept; carrying the lineage page
   * inline without a reference, which is enough for the full slice, is not.
   */
  lemma FilteredBuildsExactly(sort: seq<Ref> -> seq<Ref>, slice: Slice, admit: Ref -> bool)
    requires Reorders(sort) && UniquePages(slice.inline) && InlineComplete(slice)
    ensures Seed(FilterPages(sort, slice, admit)).Some? <==> AdmitsIdentified(slice, admit)
  {
    var f := FilterPages(sort, slice, admit);
    ReferencedPages(slice.inline, HashesOf(f.refs));
    if AdmitsIdentified(slice, admit) {
      FilterKeepsLineage(sort, slice, admit);
      SeedBuilds(f);
    } else {
      var r :| r in slice.refs && admit(r) && r.cell.object_ !in Identities(slice.refs);
      FilteredRefs(sort, slice, admit);
      Selected(slice.refs, admit, r);
      UnidentifiedFails(f, r);
    }
  }

  /** A live page referred to, with its object's lineage carried and not referred to. */
  function CarriedOnly(o: ObjRef): Slice {
    Slice([Ref(LiveCell(o), Empty(o), Provenance(Authoritative, None))], [Lineage(o, o, None, o, ""), Empty(o)])
  }

  lemma CarriedOnlySeeds(slice: Slice, o: ObjRef)
    requires forall p :: p in Referenced(slice.inline, HashesOf(slice.refs)) ==> p.object_ == o
    requires exists p :: p in slice.inline && p.Lineage? && p.object_ == o
    ensures Seed(slice).Some?
  {
    var pages := Referenced(slice.inline, HashesOf(slice.refs));
    ReferencedPages(slice.inline, HashesOf(slice.refs));
    BuildsIff(map[], slice.inline, pages);
    var p :| p in slice.inline && p.Lineage? && p.object_ == o;
    InlineLineageFound(slice.inline, p);
  }

  /** Such a slice can be materialized; filtered, even to everything, it cannot. */
  lemma CarriedOnlyIsLost(sort: seq<Ref> -> seq<Ref>, o: ObjRef)
    requires Reorders(sort)
    ensures Seed(CarriedOnly(o)).Some? && Seed(FilterPages(sort, CarriedOnly(o), (r: Ref) => true)).None?
  {
    var slice := CarriedOnly(o);
    ReferencedPages(slice.inline, HashesOf(slice.refs));
    assert slice.inline[0] in slice.inline && slice.refs[0] in slice.refs;
    CarriedOnlySeeds(slice, o);
    FilteredBuildsExactly(sort, slice, (r: Ref) => true);
    assert !AdmitsIdentified(slice, (r: Ref) => true);
  }

  // ---------------------------------------------------------------- equal readings

  /** Ancestors the reader meets within `n` steps. */
  ghost function Met(w: World, parent: Option<ObjRef>, n: nat): set<ObjRef>
    decreases n
  {
    if n == 0 || parent.None? || parent.value == "" || LineageOf(w, parent.value).None? then {}
    else {parent.value} + Met(w, LineageOf(w, parent.value).value.parent, n - 1)
  }

  lemma ExcerptLooksAlike(w: World, v: World, keep: iset<ObjRef>, o: ObjRef, name: string)
    requires Excerpt(w, v, keep)
    ensures LineageOf(w, o).None? ==> LineageOf(v, o).None?
    ensures o in keep ==> LineageOf(v, o) == LineageOf(w, o) && PropertyOf(v, o, name) == PropertyOf(w, o, name)
  {
  }

  lemma {:induction false} InheritedAlike(w: World, v: World, keep: iset<ObjRef>, parent: Option<ObjRef>, seen: set<ObjRef>, name: string, n: nat)
    requires Excerpt(w, v, keep) && EndsWithin(w, parent, seen, n)
    requires forall x :: x in Met(w, parent, n) ==> x in keep
    ensures Inherited(v, parent, seen, name) == Inherited(w, parent, seen, name)
    decreases n
  {
    if !Exhausted(parent, seen) {
      var p := parent.value;
      ExcerptLooksAlike(w, v, keep, p, name);
      if LineageOf(w, p).Some? {
        assert p in Met(w, parent, n);
        InheritedAlike(w, v, keep, LineageOf(w, p).value.parent, seen + {p}, name, n - 1);
      }
    }
  }

  /** The recorded parent of an identified object is its parent in the slice's world. */
  lemma {:induction false} ParentOfUnique(inline: seq<Page>, p: Page)
    requires UniquePages(inline) && p in inline && p.Lineage?
    ensures ParentOf(inline, p.object_) == p.parent
  {
    var init, last := inline[..|inline| - 1], inline[|inline| - 1];
    assert inline == init + [last];
    if p == last {
      NoParent(init, p.object_);
    } else {
      assert p in init && CellOf(p) != CellOf(last);
      ParentOfUnique(init, p);
    }
  }

  lemma {:induction false} NoParent(inline: seq<Page>, o: ObjRef)
    requires forall p :: p in inline ==> CellOf(p) != LineageCell(o)
    ensures ParentOf(inline, o).None?
  {
    if inline != [] {
      assert inline[|inline| - 1] in inline;
      NoParent(inline[..|inline| - 1], o);
    }
  }

  lemma SeedParent(slice: Slice, o: ObjRef)
    requires Standalone(slice) && Seed(slice).Some? && LineageOf(Seed(slice).value, o).Some?
    ensures ParentOf(slice.inline, o) == LineageOf(Seed(slice).value, o).value.parent
  {
    SeedCell(slice, LineageCell(o));
    var r :| r in slice.refs && r.cell == LineageCell(o);
    ParentOfUnique(slice.inline, r.hash);
  }

  lemma {:induction false} MetIsClimbed(slice: Slice, o: ObjRef, n: nat)
    requires Standalone(slice) && Seed(slice).Some? && LineageOf(Seed(slice).value, o).Some?
    ensures Met(Seed(slice).value, LineageOf(Seed(slice).value, o).value.parent, n) <= Climb(slice.inline, o, n)
    decreases n
  {
    SeedParent(slice, o);
    var w := Seed(slice).value;
    var parent := LineageOf(w, o).value.parent;
    if n > 0 && parent.Some? && parent.value != "" && LineageOf(w, parent.value).Some? {
      MetIsClimbed(slice, parent.value, n - 1);
    }
  }

  /**
   * Filtering to a read closure preserves meaning: every property of every
   * closure object whose parent chain ends within 32 steps reads the same, or is
   * missing the same, from the filtered slice as from the full one.
   */
  lemma FilterPreservesReads(sort: seq<Ref> -> seq<Ref>, slice: Slice, closure: set<ObjRef>, verbs: Option<set<(ObjRef, string)>>, o: ObjRef, name: string)
    requires Reorders(sort) && Standalone(slice) && o in closure
    ensures var w, v := Seed(slice), Seed(FilterToReadClosure(sort, slice, closure, verbs));
            && w.Some? && v.Some? && LineageOf(v.value, o) == LineageOf(w.value, o)
            && (LineageOf(w.value, o).Some? && EndsWithin(w.value, LineageOf(w.value, o).value.parent, {}, MAX_LINEAGE_DEPTH) ==>
                  Read(v.value, o, name) == Read(w.value, o, name))
  {
    FilteredExcerpt(sort, slice, closure, verbs);
    var w, v := Seed(slice).value, Seed(FilterToReadClosure(sort, slice, closure, verbs)).value;
    var keep := Expanded(slice.inline, closure);
    ExcerptLooksAlike(w, v, keep, o, name);
    if LineageOf(w, o).Some? && EndsWithin(w, LineageOf(w, o).value.parent, {}, MAX_LINEAGE_DEPTH) {
      ClosureMeetsKeep(slice, closure, o);
      ReadAlike(w, v, keep, o, name, MAX_LINEAGE_DEPTH);
    }
  }

  lemma ClosureMeetsKeep(slice: Slice, closure: set<ObjRef>, o: ObjRef)
    requires Standalone(slice) && Seed(slice).Some? && LineageOf(Seed(slice).value, o).Some? && o in closure
    ensures forall x :: x in Met(Seed(slice).value, LineageOf(Seed(slice).value, o).value.parent, MAX_LINEAGE_DEPTH) ==> x in Expanded(slice.inline, closure)
  {
    MetIsClimbed(slice, o, MAX_LINEAGE_DEPTH);
  }

  lemma ReadAlike(w: World, v: World, keep: iset<ObjRef>, o: ObjRef, name: string, n: nat)
    requires Excerpt(w, v, keep) && o in keep && LineageOf(w, o).Some?
    requires EndsWithin(w, LineageOf(w, o).value.parent, {}, n)
    requires forall x :: x in Met(w, LineageOf(w, o).value.parent, n) ==> x in keep
    ensures LineageOf(v, o) == LineageOf(w, o) && Read(v, o, name) == Read(w, o, name)
  {
    ExcerptLooksAlike(w, v, keep, o, name);
    InheritedAlike(w, v, keep, LineageOf(w, o).value.parent, {}, name, n);
  }

  // ---------------------------------------------------------- deeper than 32 steps

  /** The walk from `parent` finds its default, if there is one, without leaving `keep`. */
  ghost predicate DefaultWithin(w: World, keep: iset<ObjRef>, parent: Option<ObjRef>, seen: set<ObjRef>, name: string)
    decreases |Present(w) - seen|
  {
    if Exhausted(parent, seen) || LineageOf(w, parent.value).None? then true
    else
      var p := parent.value;
      if p !in keep then Inherited(w, parent, seen, name).None?
      else if DefaultOf(w, p, name).Some? then true
      else
        assert LineageCell(p) in w && p in Present(w) - seen;
        SubsetSize(Present(w) - (seen + {p}), Present(w) - seen);
        DefaultWithin(w, keep, LineageOf(w, p).value.parent, seen + {p}, name)
  }

  lemma {:induction false} InheritedExactly(w: World, v: World, keep: iset<ObjRef>, parent: Option<ObjRef>, seen: set<ObjRef>, name: string)
    requires Excerpt(w, v, keep) && forall x :: LineageOf(v, x).Some? ==> x in keep
    ensures Inherited(v, parent, seen, name) == Inherited(w, parent, seen, name) <==> DefaultWithin(w, keep, parent, seen, name)
    decreases |Present(w) - seen|
  {
    if !Exhausted(parent, seen) {
      var p := parent.value;
      ExcerptLooksAlike(w, v, keep, p, name);
      if LineageOf(w, p).Some? && p in keep && DefaultOf(w, p, name).None? {
        assert LineageCell(p) in w && p in Present(w) - seen;
        SubsetSize(Present(w) - (seen + {p}), Present(w) - seen);
        InheritedExactly(w, v, keep, LineageOf(w, p).value.parent, seen + {p}, name);
      }
    }
  }

  lemma FilteredStaysInside(sort: seq<Ref> -> seq<Ref>, slice: Slice, closure: set<ObjRef>, verbs: Option<set<(ObjRef, string)>>, o: ObjRef)
    requires Reorders(sort) && Standalone(slice)
    requires var f := FilterToReadClosure(sort, slice, closure, verbs);
             Standalone(f) && Seed(f).Some? && LineageOf(Seed(f).value, o).Some?
    ensures o in Expanded(slice.inline, closure)
  {
    var admit := InClosure(slice.inline, closure, verbs);
    var f := FilterPages(sort, slice, admit);
    SeedCell(f, LineageCell(o));
    var r :| r in f.refs && r.cell == LineageCell(o);
    var kept := SelectRefs(slice.refs, admit);
    ReaddedFacts(slice.refs, kept);
    assert r in kept + Readded(slice.refs, kept);
    var q :| q in kept && q.cell.object_ == o;
    Selected(slice.refs, admit, q);
  }

  /**
   * Without a bound on the chain: an inherited property of a closure object
   * reads the same exactly when its default is found inside the expansion.
   */
  lemma FilterReadsExactly(sort: seq<Ref> -> seq<Ref>, slice: Slice, closure: set<ObjRef>, verbs: Option<set<(ObjRef, string)>>, o: ObjRef, name: string)
    requires Reorders(sort) && Standalone(slice) && o in closure
    ensures var w, v := Seed(slice), Seed(FilterToReadClosure(sort, slice, closure, verbs));
            && w.Some? && v.Some? && LineageOf(v.value, o) == LineageOf(w.value, o)
            && (LineageOf(w.value, o).Some? ==>
                  (Read(v.value, o, name) == Read(w.value, o, name) <==>
                     OwnReading(w.value, o, name) || DefaultWithin(w.value, Expanded(slice.inline, closure), LineageOf(w.value, o).value.parent, {}, name)))
  {
    FilteredExcerpt(sort, slice, closure, verbs);
    var f := FilterToReadClosure(sort, slice, closure, verbs);
    var w, v, keep := Seed(slice).value, Seed(f).value, Expanded(slice.inline, closure);
    forall x | LineageOf(v, x).Some? ensures x in keep {
      FilteredStaysInside(sort, slice, closure, verbs, x);
    }
    ExcerptLooksAlike(w, v, keep, o, name);
    if LineageOf(w, o).Some? { ReadExactly(w, v, keep, o, name); }
  }

  /** The object answers by itself: a built-in name, or a value of its own. */
  predicate OwnReading(w: World, o: ObjRef, name: string) {
    var own := PropertyOf(w, o, name);
    name == "owner" || (own.Some? && own.value.value.Some?) || name == "name"
  }

  lemma ReadExactly(w: World, v: World, keep: iset<ObjRef>, o: ObjRef, name: string)
    requires Excerpt(w, v, keep) && o in keep && LineageOf(w, o).Some?
    requires forall x :: LineageOf(v, x).Some? ==> x in keep
    ensures LineageOf(v, o) == LineageOf(w, o)
    ensures Read(v, o, name) == Read(w, o, name) <==>
            OwnReading(w, o, name) || DefaultWithin(w, keep, LineageOf(w, o).value.parent, {}, name)
  {
    ExcerptLooksAlike(w, v, keep, o, name);
    InheritedExactly(w, v, keep, LineageOf(w, o).value.parent, {}, name);
  }
}
