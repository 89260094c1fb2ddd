/**
 * The derived contents index (src/core/authority-slice.ts,
 * repairDerivedContentsProjection): a container's contents are recomputed from
 * the locations of the objects that are present, after every merge.
 */
module AuthorityRepair {
  import opened Wrappers
  import opened AuthorityCells

  /** The order in which a set of ids is written out. */
  type Sorting = set<ObjRef> -> seq<ObjRef>

  ghost predicate Lists(sort: Sorting) {
    forall s :: NoRepeats(sort(s)) && forall x :: x in sort(s) <==> x in s
  }

  predicate LocatedAt(w: World, m: ObjRef, c: ObjRef) {
    LiveCell(m) in w && w[LiveCell(m)].Live? && w[LiveCell(m)].location == Some(c)
  }

  /** Objects whose location is `c`; an empty location string is no location. */
  function Desired(w: World, c: ObjRef): set<ObjRef> {
    if c == "" then {} else set k | k in w && k == LiveCell(k.object_) && LocatedAt(w, k.object_, c) :: k.object_
  }

  /** Listed members that are absent, or really there. */
  function Kept(w: World, c: ObjRef, contents: seq<ObjRef>): set<ObjRef> {
    set m | m in contents && (Has(w, m) ==> LocatedAt(w, m, c))
  }

  function Members(w: World, c: ObjRef, contents: seq<ObjRef>): set<ObjRef> {
    Kept(w, c, contents) + Desired(w, c)
  }

  function RepairRow(sort: Sorting, w: World, p: Page): Page {
    if p.Live? then p.(contents := sort(Members(w, p.object_, p.contents))) else p
  }

  function Repair(sort: Sorting, w: World): World {
    map k | k in w :: RepairRow(sort, w, w[k])
  }

  lemma DesiredMember(w: World, c: ObjRef, m: ObjRef)
    ensures m in Desired(w, c) <==> c != "" && LocatedAt(w, m, c)
  {
    assert LiveCell(m).object_ == m;
  }

  /**
   * Repair sets each container's contents straight: a present object is listed
   * exactly where its location says, an absent one stays where it was listed.
   */
  lemma RepairedContents(sort: Sorting, w: World, c: ObjRef, m: ObjRef)
    requires Lists(sort) && WellFormed(w) && c != "" && Has(w, c)
    ensures var r := Repair(sort, w);
            && LiveCell(c) in w && LiveCell(c) in r && w[LiveCell(c)].Live? && r[LiveCell(c)].Live?
            && NoRepeats(r[LiveCell(c)].contents)
            && (m in r[LiveCell(c)].contents <==>
                  if Has(r, m) then LocatedAt(r, m, c) else m in w[LiveCell(c)].contents)
  {
    assert Rooted(w, LineageCell(c));
    var p := w[LiveCell(c)];
    assert CellOf(p) == LiveCell(c);
    DesiredMember(w, c, m);
    if LiveCell(m) in w { assert Rooted(w, LiveCell(m)); }
    assert Has(Repair(sort, w), m) <==> Has(w, m);
    assert LocatedAt(Repair(sort, w), m, c) <==> LocatedAt(w, m, c);
  }

  /** Repair writes nothing but contents. */
  lemma RepairTouchesContentsOnly(sort: Sorting, w: World, k: Cell)
    ensures k in Repair(sort, w) <==> k in w
    ensures k in w ==> var p := Repair(sort, w)[k];
                       if w[k].Live? then p.Live? && p == w[k].(contents := p.contents) else p == w[k]
  {
  }

  lemma RepairWellFormed(sort: Sorting, w: World)
    requires WellFormed(w)
    ensures WellFormed(Repair(sort, w))
  {
    var r := Repair(sort, w);
    forall k | k in r ensures CellOf(r[k]) == k && Rooted(r, k) {
      assert Rooted(w, k) && CellOf(w[k]) == k;
      RepairTouchesContentsOnly(sort, w, k);
    }
  }

  lemma RepairNormal(sort: Sorting, w: World)
    requires Lists(sort) && NormalWorld(w)
    ensures NormalWorld(Repair(sort, w))
  {
    var r := Repair(sort, w);
    forall k | k in r ensures Normal(r[k]) == r[k] {
      assert Normal(w[k]) == w[k];
      if w[k].Live? {
        DedupeFacts(r[k].contents);
      }
    }
  }

  /** A row without repeated children. */
  function Tidy(p: Page): Page {
    if p.Live? then p.(children := Dedupe(p.children)) else p
  }

  /** Two worlds that differ at most by whether some rows have been repaired or normalized. */
  ghost predicate Rearranged(sort: Sorting, w: World, v: World) {
    && v.Keys == w.Keys
    && forall k :: k in w ==> v[k] == w[k] || v[k] == RepairRow(sort, w, w[k]) || v[k] == Normal(w[k])
  }

  lemma RearrangedLocations(sort: Sorting, w: World, v: World)
    requires Rearranged(sort, w, v)
    ensures forall m, c :: LocatedAt(v, m, c) <==> LocatedAt(w, m, c)
    ensures forall m :: Has(v, m) <==> Has(w, m)
  {
    forall m, c ensures LocatedAt(v, m, c) <==> LocatedAt(w, m, c) {
      if LiveCell(m) in w {
        assert v[LiveCell(m)] == w[LiveCell(m)] || v[LiveCell(m)] == RepairRow(sort, w, w[LiveCell(m)])
               || v[LiveCell(m)] == Normal(w[LiveCell(m)]);
      }
    }
  }

  ghost predicate SamePlaces(w: World, v: World) {
    && (forall m, c :: LocatedAt(v, m, c) <==> LocatedAt(w, m, c))
    && (forall m :: Has(v, m) <==> Has(w, m))
  }

  lemma SameMembers(sort: Sorting, w: World, v: World, c: ObjRef, listed: seq<ObjRef>, shown: seq<ObjRef>)
    requires Lists(sort) && SamePlaces(w, v) && WellFormed(w)
    requires (forall m :: m in shown <==> m in listed) || shown == sort(Members(w, c, listed))
    ensures Members(v, c, shown) == Members(w, c, listed)
  {
    forall m ensures m in Members(v, c, shown) <==> m in Members(w, c, listed) {
      DesiredMember(v, c, m);
      DesiredMember(w, c, m);
    }
  }

  /** Repairing a row that has been repaired, normalized or left alone. */
  lemma RepairedAgain(sort: Sorting, w: World, v: World, p: Page, q: Page)
    requires Lists(sort) && SamePlaces(w, v) && WellFormed(w)
    ensures q == p || q == RepairRow(sort, w, p) ==> RepairRow(sort, v, q) == RepairRow(sort, w, p)
    ensures q == Normal(p) ==> RepairRow(sort, v, q) == Tidy(RepairRow(sort, w, p))
  {
    if p.Live? && (q == p || q == RepairRow(sort, w, p) || q == Normal(p)) {
      DedupeFacts(p.contents);
      SameMembers(sort, w, v, p.object_, p.contents, q.contents);
    }
  }

  /** Repairing any mix of rows ends in the same world, up to repeated children of the normalized ones. */
  lemma RearrangedRepair(sort: Sorting, w: World, v: World, k: Cell)
    requires Lists(sort) && WellFormed(w) && Rearranged(sort, w, v) && k in w
    ensures k in Repair(sort, v)
    ensures v[k] == w[k] || v[k] == RepairRow(sort, w, w[k]) ==> Repair(sort, v)[k] == Repair(sort, w)[k]
    ensures v[k] == Normal(w[k]) ==> Repair(sort, v)[k] == Tidy(Repair(sort, w)[k])
  {
    RearrangedLocations(sort, w, v);
    RepairedAgain(sort, w, v, w[k], v[k]);
  }

  /** Repairing any mix of repaired and unrepaired rows ends in the same world. */
  lemma RepairIsConfluent(sort: Sorting, w: World, v: World)
    requires Lists(sort) && WellFormed(w) && v.Keys == w.Keys
    requires forall k :: k in w ==> v[k] == w[k] || v[k] == RepairRow(sort, w, w[k])
    ensures Repair(sort, v) == Repair(sort, w)
  {
    forall k | k in w ensures k in Repair(sort, v) && Repair(sort, v)[k] == Repair(sort, w)[k] {
      RearrangedRepair(sort, w, v, k);
    }
  }

  /** Repairing a repaired world changes nothing. */
  lemma RepairIsIdempotent(sort: Sorting, w: World)
    requires Lists(sort) && WellFormed(w)
    ensures Repair(sort, Repair(sort, w)) == Repair(sort, w)
  {
    RepairIsConfluent(sort, w, Repair(sort, w));
  }
}
