/**
 * The ordered-children index (src/core/ordered-edge.ts) over fractional ranks:
 * each child has one edge (a parent and a rank), a parent's children are
 * listed in rank order, and a mutation reads only the two ranks around its
 * slot. The index refines a plain list per parent.
 */
module OrderedEdges {
  import opened Wrappers
  import opened FractionalRank

  datatype Row = Row(child: string, rank: string)

  /** The requested insertion slot: at the end, at a number (floored), or at a number that is not finite. */
  datatype Slot = Append | At(index: real) | NotFinite

  datatype Neighbors = Neighbors(count: nat, index: nat, before: Option<string>, after: Option<string>, childIndex: Option<nat>)

  function Without(rows: seq<Row>, child: string): seq<Row> {
    if rows == [] then []
    else (if rows[0].child == child then [] else [rows[0]]) + Without(rows[1..], child)
  }

  function FirstIndex(rows: seq<Row>, child: string): (r: Option<nat>)
    ensures r.Some? ==> r.value < |rows| && rows[r.value].child == child
    ensures r.Some? ==> forall k :: 0 <= k < r.value ==> rows[k].child != child
    ensures r.None? ==> forall k :: 0 <= k < |rows| ==> rows[k].child != child
  {
    if rows == [] then None
    else if rows[0].child == child then Some(0)
    else match FirstIndex(rows[1..], child)
      case Some(k) => Some(k + 1)
      case None => None
  }

  /** The slot clamped into [0, count]; policy on out-of-range requests is the caller's. */
  function Clamp(slot: Slot, count: nat): (i: nat)
    ensures i <= count
  {
    match slot
    case Append => count
    case NotFinite => count
    case At(r) => if r.Floor < 0 then 0 else if r.Floor > count then count else r.Floor
  }

  function OrderedNeighbors(rows: seq<Row>, slot: Slot, exclude: Option<string>, child: Option<string>): Neighbors {
    var filtered := if exclude.Some? then Without(rows, exclude.value) else rows;
    var index := Clamp(slot, |filtered|);
    Neighbors(|filtered|, index,
              if index > 0 then Some(filtered[index - 1].rank) else None,
              if index < |filtered| then Some(filtered[index].rank) else None,
              if child.Some? then FirstIndex(rows, child.value) else None)
  }

  // -------------------------------------------------------------- rank order

  /** Rows sort by rank, then by child. */
  predicate RowLess(a: Row, b: Row) {
    Less(a.rank, b.rank) || (a.rank == b.rank && Less(a.child, b.child))
  }

  /** Valid ranks, strictly ascending, one row per child. */
  ghost predicate Ordered(rows: seq<Row>) {
    && (forall i :: 0 <= i < |rows| ==> IsValidRank(rows[i].rank))
    && (forall i, j :: 0 <= i < j < |rows| ==> Less(rows[i].rank, rows[j].rank))
    && (forall i, j :: 0 <= i < j < |rows| ==> rows[i].child != rows[j].child)
  }

  /** Where sorting puts a new row. */
  function PlaceIndex(rows: seq<Row>, row: Row): (i: nat)
    ensures i <= |rows|
    ensures forall k :: 0 <= k < i ==> !RowLess(row, rows[k])
    ensures i < |rows| ==> RowLess(row, rows[i])
  {
    if rows == [] || RowLess(row, rows[0]) then 0 else PlaceIndex(rows[1..], row) + 1
  }

  function Insert<T>(s: seq<T>, i: nat, x: T): seq<T>
    requires i <= |s|
  {
    s[..i] + [x] + s[i..]
  }

  /** A rank taken between the neighbours of a slot sorts to exactly that slot. */
  lemma RankLandsInSlot(rows: seq<Row>, i: nat, row: Row)
    requires Ordered(rows) && i <= |rows|
    requires Between(if i > 0 then Some(rows[i - 1].rank) else None, if i < |rows| then Some(rows[i].rank) else None, row.rank)
    ensures PlaceIndex(rows, row) == i
    ensures forall k :: 0 <= k < i ==> Less(rows[k].rank, row.rank)
    ensures forall k :: i <= k < |rows| ==> Less(row.rank, rows[k].rank)
  {
    forall k | 0 <= k < i ensures Less(rows[k].rank, row.rank) && !RowLess(row, rows[k]) {
      if k < i - 1 { LessTransitive(rows[k].rank, rows[i - 1].rank, row.rank); }
      if RowLess(row, rows[k]) && row.rank != rows[k].rank { LessTransitive(row.rank, rows[k].rank, row.rank); }
      LessIrreflexive(row.rank);
    }
    forall k | i <= k < |rows| ensures Less(row.rank, rows[k].rank) {
      if k > i { LessTransitive(row.rank, rows[i].rank, rows[k].rank); }
    }
  }

  lemma InsertKeepsOrder(rows: seq<Row>, i: nat, row: Row)
    requires Ordered(rows) && i <= |rows| && IsValidRank(row.rank)
    requires forall k :: 0 <= k < i ==> Less(rows[k].rank, row.rank)
    requires forall k :: i <= k < |rows| ==> Less(row.rank, rows[k].rank)
    requires forall k :: 0 <= k < |rows| ==> rows[k].child != row.child
    ensures Ordered(Insert(rows, i, row))
  {
  }

  lemma {:induction false} WithoutFacts(rows: seq<Row>, child: string)
    ensures forall r :: r in Without(rows, child) <==> r in rows && r.child != child
    ensures Ordered(rows) ==> Ordered(Without(rows, child))
  {
    if rows != [] {
      WithoutFacts(rows[1..], child);
      var rest := Without(rows[1..], child);
      assert forall r :: r in rows <==> r == rows[0] || r in rows[1..];
      if Ordered(rows) {
        assert Ordered(rows[1..]);
        forall k | 0 <= k < |rest| ensures Less(rows[0].rank, rest[k].rank) && rest[k].child != rows[0].child {
          assert rest[k] in rows[1..];
        }
      }
    }
  }

  // ------------------------------------------------------------- the whole index

  /** None is the parent of the roots. */
  type Parent = Option<string>

  /** Rows of every parent, each list kept in sorted order. */
  type Index = map<Parent, seq<Row>>

  function RowsAt(ix: Index, p: Parent): seq<Row> {
    if p in ix then ix[p] else []
  }

  ghost predicate Inv(ix: Index) {
    && (forall p :: p in ix ==> Ordered(ix[p]))
    && (forall p, q, a, b :: p in ix && q in ix && a in ix[p] && b in ix[q] && a.child == b.child ==> p == q)
  }

  function Detached(ix: Index, child: string): Index {
    map p | p in ix :: Without(ix[p], child)
  }

  /** Write a child's edge: it leaves its old place and is sorted into its new parent. */
  function Upsert(ix: Index, child: string, parent: Parent, rank: string): Index {
    var cleared := Detached(ix, child);
    var rows := RowsAt(cleared, parent);
    cleared[parent := Insert(rows, PlaceIndex(rows, Row(child, rank)), Row(child, rank))]
  }

  datatype Edit = Put(child: string, parent: Parent, slot: Slot) | Detach(child: string)

  /** One edit of the index; any key between the slot's neighbours will do. */
  ghost predicate Edited(ix: Index, edit: Edit, ix': Index) {
    match edit
    case Detach(child) => ix' == Detached(ix, child)
    case Put(child, parent, slot) =>
      var n := OrderedNeighbors(RowsAt(ix, parent), slot, Some(child), None);
      exists rank :: Between(n.before, n.after, rank) && ix' == Upsert(ix, child, parent, rank)
  }

  /** The mutation as a verb performs it: read the slot's neighbours, take a key between them, write one edge. */
  method PutChild(ix: Index, child: string, parent: Parent, slot: Slot) returns (ix': Index)
    requires Inv(ix)
    ensures Edited(ix, Put(child, parent, slot), ix')
  {
    var rows := RowsAt(ix, parent);
    var n := OrderedNeighbors(rows, slot, Some(child), None);
    WithoutFacts(rows, child);
    var key := RankBetween(n.before, n.after);
    ix' := Upsert(ix, child, parent, key.rank);
  }

  // ------------------------------------------------------------- the list model

  type Lists = map<Parent, seq<string>>

  function Children(rows: seq<Row>): seq<string> {
    seq(|rows|, i requires 0 <= i < |rows| => rows[i].child)
  }

  function ListsOf(ix: Index): Lists {
    map p | p in ix :: Children(ix[p])
  }

  function Omit(list: seq<string>, child: string): seq<string> {
    if list == [] then [] else (if list[0] == child then [] else [list[0]]) + Omit(list[1..], child)
  }

  /** Remove, then insert at the clamped index: what the caller means by an edit. */
  function ListEdit(lists: Lists, edit: Edit): Lists {
    var cleared := map p | p in lists :: Omit(lists[p], edit.child);
    match edit
    case Detach(_) => cleared
    case Put(child, parent, slot) =>
      var list := if parent in cleared then cleared[parent] else [];
      cleared[parent := Insert(list, Clamp(slot, |list|), child)]
  }

  lemma {:induction false} ChildrenWithout(rows: seq<Row>, child: string)
    ensures Children(Without(rows, child)) == Omit(Children(rows), child)
  {
    if rows != [] {
      ChildrenWithout(rows[1..], child);
      assert Children(rows)[1..] == Children(rows[1..]);
      assert Children(Without(rows, child)) == (if rows[0].child == child then [] else [rows[0].child]) + Children(Without(rows[1..], child));
    } else {
      assert Children(rows) == [];
    }
  }

  lemma ChildrenInsert(rows: seq<Row>, i: nat, row: Row)
    requires i <= |rows|
    ensures Children(Insert(rows, i, row)) == Insert(Children(rows), i, row.child)
  {
  }

  lemma DetachedRow(ix: Index, child: string, p: Parent)
    requires p in ix && Ordered(ix[p])
    ensures var rows := Detached(ix, child)[p];
            Ordered(rows) && forall r :: r in rows <==> r in ix[p] && r.child != child
  {
    WithoutFacts(ix[p], child);
  }

  lemma DetachKeepsInv(ix: Index, child: string)
    requires Inv(ix)
    ensures Inv(Detached(ix, child))
    ensures forall p, r :: p in ix && r in Detached(ix, child)[p] ==> r.child != child
  {
    forall p | p in ix
      ensures Ordered(Detached(ix, child)[p])
      ensures forall r :: r in Detached(ix, child)[p] ==> r in ix[p] && r.child != child
    {
      DetachedRow(ix, child, p);
    }
  }

  lemma DetachLists(ix: Index, child: string)
    ensures ListsOf(Detached(ix, child)) == ListEdit(ListsOf(ix), Detach(child))
  {
    forall p | p in ix ensures Children(Detached(ix, child)[p]) == Omit(Children(ix[p]), child) {
      ChildrenWithout(ix[p], child);
    }
  }

  lemma InsertMembers<T>(s: seq<T>, i: nat, x: T)
    requires i <= |s|
    ensures forall y :: y in Insert(s, i, x) <==> y == x || y in s
  {
    assert s == s[..i] + s[i..];
  }

  /** Sorting a fresh row into one list is inserting it at the slot. */
  lemma PlacedInSlot(rows: seq<Row>, i: nat, row: Row)
    requires Ordered(rows) && i <= |rows| && (forall r :: r in rows ==> r.child != row.child)
    requires Between(if i > 0 then Some(rows[i - 1].rank) else None, if i < |rows| then Some(rows[i].rank) else None, row.rank)
    ensures var placed := Insert(rows, PlaceIndex(rows, row), row);
            && Ordered(placed) && Children(placed) == Insert(Children(rows), i, row.child)
            && forall r :: r in placed <==> r == row || r in rows
  {
    RankLandsInSlot(rows, i, row);
    InsertKeepsOrder(rows, i, row);
    ChildrenInsert(rows, i, row);
    InsertMembers(rows, i, row);
  }

  lemma UpsertKeepsInv(cleared: Index, parent: Parent, row: Row, placed: seq<Row>)
    requires Inv(cleared) && Ordered(placed)
    requires forall p, r :: p in cleared && r in cleared[p] ==> r.child != row.child
    requires forall r :: r in placed <==> r == row || r in RowsAt(cleared, parent)
    ensures Inv(cleared[parent := placed])
  {
  }

  /** The neighbours read for a slot are the rows around it once the child is out of the way. */
  lemma SlotNeighbors(rows: seq<Row>, child: string, slot: Slot, rank: string)
    requires var n := OrderedNeighbors(rows, slot, Some(child), None); Between(n.before, n.after, rank)
    ensures var rest := Without(rows, child);
            var i := Clamp(slot, |rest|);
            Between(if i > 0 then Some(rest[i - 1].rank) else None, if i < |rest| then Some(rest[i].rank) else None, rank)
  {
  }

  /** Sorting a fresh row into one parent of an index. */
  lemma PlacedInIndex(cleared: Index, parent: Parent, row: Row, i: nat)
    requires Inv(cleared) && (forall p, r :: p in cleared && r in cleared[p] ==> r.child != row.child)
    requires i <= |RowsAt(cleared, parent)|
    requires var rows := RowsAt(cleared, parent);
             Between(if i > 0 then Some(rows[i - 1].rank) else None, if i < |rows| then Some(rows[i].rank) else None, row.rank)
    ensures var rows := RowsAt(cleared, parent);
            var placed := cleared[parent := Insert(rows, PlaceIndex(rows, row), row)];
            Inv(placed) && ListsOf(placed) == ListsOf(cleared)[parent := Insert(Children(rows), i, row.child)]
  {
    var rows := RowsAt(cleared, parent);
    PlacedInSlot(rows, i, row);
    var placed := Insert(rows, PlaceIndex(rows, row), row);
    UpsertKeepsInv(cleared, parent, row, placed);
    ListsUpdated(cleared, parent, placed);
  }

  lemma DetachedRows(ix: Index, child: string, parent: Parent)
    ensures RowsAt(Detached(ix, child), parent) == Without(RowsAt(ix, parent), child)
  {
  }

  /** The list model's edit, in terms of the rows left when the child is out of the way. */
  lemma PutInLists(ix: Index, child: string, parent: Parent, slot: Slot)
    requires ListsOf(Detached(ix, child)) == ListEdit(ListsOf(ix), Detach(child))
    ensures var cleared := Detached(ix, child);
            var rows := RowsAt(cleared, parent);
            ListEdit(ListsOf(ix), Put(child, parent, slot)) ==
            ListsOf(cleared)[parent := Insert(Children(rows), Clamp(slot, |rows|), child)]
  {
    var cleared := Detached(ix, child);
    assert Children(RowsAt(cleared, parent)) == if parent in ListsOf(cleared) then ListsOf(cleared)[parent] else [];
  }

  lemma UpsertRefines(ix: Index, child: string, parent: Parent, slot: Slot, rank: string)
    requires Inv(ix)
    requires var n := OrderedNeighbors(RowsAt(ix, parent), slot, Some(child), None); Between(n.before, n.after, rank)
    ensures Inv(Upsert(ix, child, parent, rank))
    ensures ListsOf(Upsert(ix, child, parent, rank)) == ListEdit(ListsOf(ix), Put(child, parent, slot))
  {
    var cleared := Detached(ix, child);
    DetachKeepsInv(ix, child);
    DetachLists(ix, child);
    DetachedRows(ix, child, parent);
    SlotNeighbors(RowsAt(ix, parent), child, slot, rank);
    PlacedInIndex(cleared, parent, Row(child, rank), Clamp(slot, |RowsAt(cleared, parent)|));
    PutInLists(ix, child, parent, slot);
  }

  lemma ListsUpdated(ix: Index, parent: Parent, rows: seq<Row>)
    ensures ListsOf(ix[parent := rows]) == ListsOf(ix)[parent := Children(rows)]
  {
  }

  /** Every edit keeps ranks valid and strictly ascending and does to the order what the list model says. */
  lemma EditRefinesList(ix: Index, edit: Edit, ix': Index)
    requires Inv(ix) && Edited(ix, edit, ix')
    ensures Inv(ix') && ListsOf(ix') == ListEdit(ListsOf(ix), edit)
  {
    match edit
    case Detach(child) =>
      DetachKeepsInv(ix, child);
      DetachLists(ix, child);
    case Put(child, parent, slot) =>
      var n := OrderedNeighbors(RowsAt(ix, parent), slot, Some(child), None);
      var rank :| Between(n.before, n.after, rank) && ix' == Upsert(ix, child, parent, rank);
      UpsertRefines(ix, child, parent, slot, rank);
  }

  // ------------------------------------------------------ an edit, row by row

  /** Every row of another child is where it was, with the rank it had. */
  ghost predicate OthersKept(ix: Index, ix': Index, child: string) {
    forall p, r: Row :: r.child != child ==> (r in RowsAt(ix', p) <==> r in RowsAt(ix, p))
  }

  /** The child has the one row at index i under the parent, and no other. */
  ghost predicate SitsAt(ix: Index, child: string, parent: Parent, i: nat) {
    && i < |RowsAt(ix, parent)| && RowsAt(ix, parent)[i].child == child
    && forall p, r :: r in RowsAt(ix, p) && r.child == child ==> p == parent && r == RowsAt(ix, parent)[i]
  }

  /** A removed child has no row left, and no other row has moved. */
  lemma DetachRemoves(ix: Index, child: string)
    requires Inv(ix)
    ensures OthersKept(ix, Detached(ix, child), child)
    ensures forall p, r :: r in RowsAt(Detached(ix, child), p) ==> r.child != child
  {
    forall p ensures forall r :: r in RowsAt(Detached(ix, child), p) <==> r in RowsAt(ix, p) && r.child != child {
      DetachedRows(ix, child, p);
      WithoutFacts(RowsAt(ix, p), child);
    }
  }

  lemma InsertedAt(rows: seq<Row>, i: nat, row: Row)
    requires i <= |rows|
    ensures Insert(rows, i, row)[i] == row && |Insert(rows, i, row)| == |rows| + 1
  {
  }

  lemma OnlyInserted(cleared: Index, parent: Parent, row: Row, i: nat)
    requires i <= |RowsAt(cleared, parent)| && (forall p, r :: r in RowsAt(cleared, p) ==> r.child != row.child)
    ensures var after := cleared[parent := Insert(RowsAt(cleared, parent), i, row)];
            SitsAt(after, row.child, parent, i) && OthersKept(cleared, after, row.child)
  {
    var placed := Insert(RowsAt(cleared, parent), i, row);
    var after := cleared[parent := placed];
    InsertedAt(RowsAt(cleared, parent), i, row);
    InsertMembers(RowsAt(cleared, parent), i, row);
    forall p ensures RowsAt(after, p) == if p == parent then placed else RowsAt(cleared, p) {
    }
  }

  lemma UpsertLands(ix: Index, child: string, parent: Parent, slot: Slot, rank: string)
    requires Inv(ix)
    requires var n := OrderedNeighbors(RowsAt(ix, parent), slot, Some(child), None); Between(n.before, n.after, rank)
    ensures var after, rest := Upsert(ix, child, parent, rank), Without(RowsAt(ix, parent), child);
            && SitsAt(after, child, parent, Clamp(slot, |rest|)) && OthersKept(ix, after, child)
            && |RowsAt(after, parent)| == |rest| + 1
  {
    var cleared, rest := Detached(ix, child), Without(RowsAt(ix, parent), child);
    DetachKeepsInv(ix, child);
    DetachRemoves(ix, child);
    DetachedRows(ix, child, parent);
    SlotNeighbors(RowsAt(ix, parent), child, slot, rank);
    RankLandsInSlot(rest, Clamp(slot, |rest|), Row(child, rank));
    OnlyInserted(cleared, parent, Row(child, rank), Clamp(slot, |rest|));
    InsertedAt(rest, Clamp(slot, |rest|), Row(child, rank));
  }

  /** Index i of a list of the given length is what the slot asks for. */
  predicate IsSlot(slot: Slot, i: nat, length: nat) {
    match slot
    case Append => i + 1 == length
    case NotFinite => i + 1 == length
    case At(x) =>
      if x < 0.0 then i == 0
      else if x >= length as real then i + 1 == length
      else i as real <= x < i as real + 1.0
  }

  lemma ClampIsSlot(slot: Slot, count: nat)
    ensures IsSlot(slot, Clamp(slot, count), count + 1)
  {
  }

  /**
   * A child put under a parent has its only row there: last if it was appended
   * or the number is not finite, at the floor of the number if the list reaches
   * that far, and otherwise at the nearer end. No other row has moved.
   */
  lemma PutLands(ix: Index, child: string, parent: Parent, slot: Slot, ix': Index) returns (i: nat)
    requires Inv(ix) && Edited(ix, Put(child, parent, slot), ix')
    ensures SitsAt(ix', child, parent, i) && IsSlot(slot, i, |RowsAt(ix', parent)|)
    ensures OthersKept(ix, ix', child)
  {
    var count := |Without(RowsAt(ix, parent), child)|;
    i := Clamp(slot, count);
    ClampIsSlot(slot, count);
    PutUpserts(ix, child, parent, slot, ix', i);
  }

  lemma PutUpserts(ix: Index, child: string, parent: Parent, slot: Slot, ix': Index, i: nat)
    requires Inv(ix) && Edited(ix, Put(child, parent, slot), ix') && i == Clamp(slot, |Without(RowsAt(ix, parent), child)|)
    ensures SitsAt(ix', child, parent, i) && OthersKept(ix, ix', child)
    ensures |RowsAt(ix', parent)| == |Without(RowsAt(ix, parent), child)| + 1
  {
    var n := OrderedNeighbors(RowsAt(ix, parent), slot, Some(child), None);
    var rank :| Between(n.before, n.after, rank) && ix' == Upsert(ix, child, parent, rank);
    UpsertLands(ix, child, parent, slot, rank);
  }

  /** A run: states[k + 1] is some outcome of the k-th edit on states[k]. */
  ghost predicate IsRun(states: seq<Index>, edits: seq<Edit>) {
    && |states| == |edits| + 1
    && (edits != [] ==> Edited(states[0], edits[0], states[1]) && IsRun(states[1..], edits[1..]))
  }

  function ListRun(lists: Lists, edits: seq<Edit>): Lists
    decreases |edits|
  {
    if edits == [] then lists else ListRun(ListEdit(lists, edits[0]), edits[1..])
  }

  /** Over any run of inserts, moves and removals the index is the list model's state. */
  lemma {:induction false} RunRefinesList(states: seq<Index>, edits: seq<Edit>)
    requires IsRun(states, edits) && Inv(states[0])
    ensures Inv(states[|edits|])
    ensures ListsOf(states[|edits|]) == ListRun(ListsOf(states[0]), edits)
    decreases |edits|
  {
    if edits != [] {
      EditRefinesList(states[0], edits[0], states[1]);
      RunRefinesList(states[1..], edits[1..]);
    }
  }
}
