/**
 * The layered client projection (src/client/framework.ts, ClientProjection):
 * an object is shown as its canonical value with the folded sequenced patch,
 * the live layers and the optimistic layers applied over it, in that order.
 */
module ClientProjections {
  import opened Wrappers

  /** Null stands for every empty value that is not an empty text or list. */
  datatype Value = Null | Text(text: string) | List(items: seq<string>)

  /** A record in which a key may be present without a value. */
  type Fields = map<string, Option<Value>>

  datatype Patch = Patch(fields: Fields, props: Fields, catalog: map<string, Fields>, clear: set<string>)

  datatype Object = Object(fields: map<string, Value>, props: map<string, Value>, catalog: map<string, map<string, Value>>)

  const EMPTY_OBJECT: Object := Object(map[], map[], map[])

  // -------------------------------------------------------------------- patches

  function Defined(m: Fields): map<string, Value> {
    map k | k in m && m[k].Some? :: m[k].value
  }

  function GroupOf(catalog: map<string, Fields>, g: string): Fields {
    if g in catalog then catalog[g] else map[]
  }

  function ApplyCatalog(c: map<string, map<string, Value>>, p: Patch): map<string, map<string, Value>> {
    map g | g in (c.Keys - p.clear) + p.catalog.Keys ::
      (if g in c && g !in p.clear then c[g] else map[]) + Defined(GroupOf(p.catalog, g))
  }

  function ApplyPatch(t: Object, p: Patch): Object {
    Object(t.fields + Defined(p.fields), t.props + Defined(p.props), ApplyCatalog(t.catalog, p))
  }

  function MergeFields(l: Fields, r: Fields): Fields {
    l + map k | k in r && r[k].Some? :: r[k]
  }

  function MergeCatalog(l: map<string, Fields>, r: map<string, Fields>): map<string, Fields> {
    map g | g in l.Keys + r.Keys :: MergeFields(GroupOf(l, g), GroupOf(r, g))
  }

  const NO_PATCH: Patch := Patch(map[], map[], map[], {})

  /** Fold a later patch into an earlier one; empty group names are dropped from clear lists. */
  function MergePatch(l: Patch, r: Patch): Patch {
    Patch(
      MergeFields(l.fields, r.fields),
      MergeFields(l.props, r.props),
      MergeCatalog(l.catalog, r.catalog),
      l.clear + r.clear - {""})
  }

  lemma MergedDefined(l: Fields, r: Fields)
    ensures Defined(MergeFields(l, r)) == Defined(l) + Defined(r)
  {
  }

  // ---------------------------------------------------- folding against applying

  /** One group of a catalog, if it is there. */
  function At<V>(c: map<string, V>, g: string): Option<V> {
    if g in c then Some(c[g]) else None
  }

  /** A catalog group, which may be absent. */
  type Group = Option<map<string, Value>>

  /** One group written over another. */
  function Over(x: Group, y: Group): Group {
    if x.Some? && y.Some? then Some(x.value + y.value) else if y.Some? then y else x
  }

  /** What clearing and then writing makes of one group. */
  function GroupAfter(had: Group, cleared: bool, written: Group): Group {
    Over(if cleared then None else had, written)
  }

  lemma OverAssociates(x: Group, y: Group, z: Group)
    ensures Over(Over(x, y), z) == Over(x, Over(y, z))
  {
    if x.Some? && y.Some? && z.Some? {
      assert x.value + y.value + z.value == x.value + (y.value + z.value);
    }
  }

  /** Writing over a group hides it exactly when there is none, or every field of it is written again. */
  predicate Hides(y: Group, x: Group) {
    x.Some? ==> y.Some? && x.value.Keys <= y.value.Keys
  }

  lemma HiddenIff(x: Group, y: Group)
    ensures Over(x, y) == y <==> Hides(y, x)
  {
    if x.Some? && y.Some? {
      assert (x.value + y.value).Keys == x.value.Keys + y.value.Keys;
      if x.value.Keys <= y.value.Keys { assert x.value + y.value == y.value; }
    }
  }

  function Written(p: Patch, g: string): Group {
    if g in p.catalog then Some(Defined(p.catalog[g])) else None
  }

  lemma CatalogAt(c: map<string, map<string, Value>>, p: Patch, g: string)
    ensures At(ApplyCatalog(c, p), g) == GroupAfter(At(c, g), g in p.clear, Written(p, g))
  {
    if g in p.catalog {
      assert map[] + Defined(p.catalog[g]) == Defined(p.catalog[g]);
    } else if g in c && g !in p.clear {
      assert c[g] + Defined(map[]) == c[g];
    }
  }

  lemma MergedWritten(a: Patch, b: Patch, g: string)
    ensures Written(MergePatch(a, b), g) == Over(Written(a, g), Written(b, g))
  {
    MergedDefined(GroupOf(a.catalog, g), GroupOf(b.catalog, g));
    if g in a.catalog && g !in b.catalog {
      assert Defined(a.catalog[g]) + Defined(map[]) == Defined(a.catalog[g]);
    } else if g in b.catalog && g !in a.catalog {
      assert Defined(map[]) + Defined(b.catalog[g]) == Defined(b.catalog[g]);
    }
  }

  lemma SameCatalog<V>(c: map<string, V>, d: map<string, V>)
    ensures c == d <==> forall g :: At(c, g) == At(d, g)
  {
    if forall g :: At(c, g) == At(d, g) {
      forall g ensures (g in c <==> g in d) && (g in c ==> c[g] == d[g]) {
        assert At(c, g) == At(d, g);
      }
    }
  }

  function Fold(patches: seq<Patch>): Patch {
    if patches == [] then NO_PATCH else MergePatch(Fold(patches[..|patches| - 1]), patches[|patches| - 1])
  }

  function ApplyAll(t: Object, patches: seq<Patch>): Object
    decreases |patches|
  {
    if patches == [] then t else ApplyPatch(ApplyAll(t, patches[..|patches| - 1]), patches[|patches| - 1])
  }

  // ------------------------------------------------------ one group through a list

  predicate Clears(patches: seq<Patch>, g: string) {
    patches != [] && (g in patches[|patches| - 1].clear || Clears(patches[..|patches| - 1], g))
  }

  /** All that is written to a group before the last patch that clears it. */
  function WrittenBefore(patches: seq<Patch>, g: string): Group {
    if patches == [] then None
    else if g in patches[|patches| - 1].clear then WrittenThrough(patches[..|patches| - 1], g)
    else WrittenBefore(patches[..|patches| - 1], g)
  }

  /** All that is written to a group, clears disregarded. */
  function WrittenThrough(patches: seq<Patch>, g: string): Group {
    if patches == [] then None else Over(WrittenThrough(patches[..|patches| - 1], g), Written(patches[|patches| - 1], g))
  }

  /** What is written to a group by the last patch that clears it and by those after it. */
  function WrittenSince(patches: seq<Patch>, g: string): Group {
    if patches == [] then None
    else if g in patches[|patches| - 1].clear then Written(patches[|patches| - 1], g)
    else Over(WrittenSince(patches[..|patches| - 1], g), Written(patches[|patches| - 1], g))
  }

  lemma {:induction false} ThroughSplits(patches: seq<Patch>, g: string)
    ensures WrittenThrough(patches, g) == Over(WrittenBefore(patches, g), WrittenSince(patches, g))
    ensures !Clears(patches, g) ==> WrittenBefore(patches, g) == None
  {
    if patches != [] {
      var init, last := patches[..|patches| - 1], patches[|patches| - 1];
      ThroughSplits(init, g);
      OverAssociates(WrittenBefore(init, g), WrittenSince(init, g), Written(last, g));
    }
  }

  lemma {:induction false} FoldedGroup(patches: seq<Patch>, g: string)
    ensures Written(Fold(patches), g) == WrittenThrough(patches, g)
    ensures g in Fold(patches).clear <==> g != "" && Clears(patches, g)
  {
    if patches != [] {
      FoldedGroup(patches[..|patches| - 1], g);
      MergedWritten(Fold(patches[..|patches| - 1]), patches[|patches| - 1], g);
    }
  }

  lemma {:induction false} SequentialGroup(t: Object, patches: seq<Patch>, g: string)
    ensures At(ApplyAll(t, patches).catalog, g) ==
            Over(if Clears(patches, g) then None else At(t.catalog, g), WrittenSince(patches, g))
    decreases |patches|
  {
    if patches != [] {
      var init, last := patches[..|patches| - 1], patches[|patches| - 1];
      SequentialGroup(t, init, g);
      CatalogAt(ApplyAll(t, init).catalog, last, g);
      OverAssociates(if Clears(init, g) then None else At(t.catalog, g), WrittenSince(init, g), Written(last, g));
    }
  }

  /** What the last clear of a group should remove and the fold leaves: earlier writes, and under the empty name the original group too. */
  function Uncleared(t: Object, patches: seq<Patch>, g: string): Group {
    if !Clears(patches, g) then None
    else Over(if g == "" then At(t.catalog, g) else None, WrittenBefore(patches, g))
  }

  /** The fold loses a clear of the group, and nothing written since hides that. */
  predicate LosesClear(t: Object, patches: seq<Patch>, g: string) {
    !Hides(WrittenSince(patches, g), Uncleared(t, patches, g))
  }

  lemma GroupIff(t: Object, patches: seq<Patch>, g: string)
    ensures At(ApplyPatch(t, Fold(patches)).catalog, g) == At(ApplyAll(t, patches).catalog, g) <==> !LosesClear(t, patches, g)
  {
    CatalogAt(t.catalog, Fold(patches), g);
    FoldedGroup(patches, g);
    ThroughSplits(patches, g);
    SequentialGroup(t, patches, g);
    var had := if g == "" || !Clears(patches, g) then At(t.catalog, g) else None;
    OverAssociates(had, WrittenBefore(patches, g), WrittenSince(patches, g));
    HiddenIff(Uncleared(t, patches, g), WrittenSince(patches, g));
  }

  lemma FieldsFold(t: map<string, Value>, a: Fields, b: Fields)
    ensures t + Defined(MergeFields(a, b)) == t + Defined(a) + Defined(b)
  {
    MergedDefined(a, b);
    assert t + (Defined(a) + Defined(b)) == t + Defined(a) + Defined(b);
  }

  lemma {:induction false} FoldedFields(t: Object, patches: seq<Patch>)
    ensures t.fields + Defined(Fold(patches).fields) == ApplyAll(t, patches).fields
    ensures t.props + Defined(Fold(patches).props) == ApplyAll(t, patches).props
    decreases |patches|
  {
    if patches == [] {
      assert t.fields + Defined(map[]) == t.fields && t.props + Defined(map[]) == t.props;
    } else {
      var init, last := patches[..|patches| - 1], patches[|patches| - 1];
      FoldedFields(t, init);
      FieldsFold(t.fields, Fold(init).fields, last.fields);
      FieldsFold(t.props, Fold(init).props, last.props);
    }
  }

  /**
   * Folding a list of patches and applying the fold is applying them in order
   * exactly when the fold loses no clear: for each group, whatever its last clear
   * should have removed is written over since.
   */
  lemma FoldIsSequentialIff(t: Object, patches: seq<Patch>)
    ensures ApplyPatch(t, Fold(patches)) == ApplyAll(t, patches) <==> forall g :: !LosesClear(t, patches, g)
  {
    FoldedFields(t, patches);
    SameCatalog(ApplyPatch(t, Fold(patches)).catalog, ApplyAll(t, patches).catalog);
    forall g ensures At(ApplyPatch(t, Fold(patches)).catalog, g) == At(ApplyAll(t, patches).catalog, g) <==> !LosesClear(t, patches, g) {
      GroupIff(t, patches, g);
    }
  }

  ghost predicate NoClearAfterWrite(patches: seq<Patch>) {
    && (forall p :: p in patches ==> "" !in p.clear)
    && (forall i, j, g :: 0 <= i < j < |patches| && g in patches[j].clear ==> g !in patches[i].catalog)
  }

  lemma {:induction false} NothingWritten(patches: seq<Patch>, g: string)
    requires forall p :: p in patches ==> g !in p.catalog
    ensures WrittenThrough(patches, g) == None
  {
    if patches != [] {
      assert patches[|patches| - 1] in patches;
      NothingWritten(patches[..|patches| - 1], g);
    }
  }

  lemma {:induction false} NothingToClear(patches: seq<Patch>, g: string)
    requires NoClearAfterWrite(patches)
    ensures WrittenBefore(patches, g) == None && !Clears(patches, "")
  {
    if patches != [] {
      var init, last := patches[..|patches| - 1], patches[|patches| - 1];
      assert last in patches && forall p :: p in init ==> p in patches;
      NothingToClear(init, g);
      if g in last.clear {
        assert forall i :: 0 <= i < |init| ==> g !in patches[i].catalog;
        NothingWritten(init, g);
      }
    }
  }

  /** So it is if no group is cleared after being written. */
  lemma FoldIsSequential(t: Object, patches: seq<Patch>)
    requires NoClearAfterWrite(patches)
    ensures ApplyPatch(t, Fold(patches)) == ApplyAll(t, patches)
  {
    FoldIsSequentialIff(t, patches);
    forall g ensures !LosesClear(t, patches, g) {
      NothingToClear(patches, g);
    }
  }

  /** A group written and then cleared: applied in order it is gone, and the fold still shows it. */
  lemma WrittenThenCleared(g: string, n: string, v: Value)
    ensures var a, b := Patch(map[], map[], map[g := map[n := Some(v)]], {}), Patch(map[], map[], map[], {g});
            var folded, ordered := ApplyPatch(EMPTY_OBJECT, Fold([a, b])), ApplyAll(EMPTY_OBJECT, [a, b]);
            && folded != ordered
            && g in folded.catalog && n in folded.catalog[g] && folded.catalog[g][n] == v && g !in ordered.catalog
  {
    var a, b := Patch(map[], map[], map[g := map[n := Some(v)]], {}), Patch(map[], map[], map[], {g});
    WriteThenClear(a, b, g);
  }

  lemma WriteThenClear(a: Patch, b: Patch, g: string)
    requires g in a.catalog && g in b.clear && g !in b.catalog
    ensures At(ApplyPatch(EMPTY_OBJECT, Fold([a, b])).catalog, g) == Written(a, g)
    ensures At(ApplyAll(EMPTY_OBJECT, [a, b]).catalog, g) == None
  {
    var patches := [a, b];
    assert patches[..1] == [a] && [a][..0] == [];
    FoldedGroup(patches, g);
    assert WrittenThrough([a], g) == Written(a, g);
    CatalogAt(EMPTY_OBJECT.catalog, Fold(patches), g);
    CatalogAt(ApplyAll(EMPTY_OBJECT, [a]).catalog, b, g);
  }

  // --------------------------------------------------------------------- layers

  datatype Layer = Layer(id: string, patches: map<string, Patch>)

  datatype Projection = Projection(canonical: map<string, Object>, sequenced: map<string, Patch>, live: seq<Layer>, optimistic: seq<Layer>)

  function ApplyLayers(t: Object, layers: seq<Layer>, s: string): Object
    decreases |layers|
  {
    if layers == [] then t
    else
      var init, last := ApplyLayers(t, layers[..|layers| - 1], s), layers[|layers| - 1];
      if s in last.patches then ApplyPatch(init, last.patches[s]) else init
  }

  function Base(p: Projection, s: string): Object {
    var t := if s in p.canonical then p.canonical[s] else EMPTY_OBJECT;
    if s in p.sequenced then ApplyPatch(t, p.sequenced[s]) else t
  }

  function Composed(p: Projection, s: string): Object {
    ApplyLayers(ApplyLayers(Base(p, s), p.live, s), p.optimistic, s)
  }

  const SUMMARY_FIELDS: set<string> := {"name", "owner", "parent", "location", "description"}
  const LIST_FIELDS: set<string> := {"ancestors", "features", "aliases"}

  predicate Counts(field: string, v: Value) {
    || (field in SUMMARY_FIELDS && v != Null && v != Text(""))
    || (field in LIST_FIELDS && ((v.Text? && v.text != "") || (v.List? && v.items != [])))
  }

  predicate HasData(t: Object) {
    (exists f :: f in t.fields && Counts(f, t.fields[f])) || t.props != map[] || t.catalog != map[]
  }

  /** What an observer sees of an object: nothing, unless there is something to show. */
  function Observe(p: Projection, s: string): Option<Object> {
    if s != "" && HasData(Composed(p, s)) then Some(Composed(p, s)) else None
  }

  function RemoveFields(m: Fields, names: set<string>): Fields {
    m - names
  }

  function RemoveCatalog(c: map<string, Fields>, applied: map<string, Fields>): map<string, Fields> {
    map g | g in c && c[g] - GroupOf(applied, g).Keys != map[] :: c[g] - GroupOf(applied, g).Keys
  }

  /** What is left of a layer's patch once another patch has been confirmed. */
  function RemovePatchFields(current: Patch, applied: Patch): Patch {
    Patch(
      RemoveFields(current.fields, applied.fields.Keys),
      RemoveFields(current.props, applied.props.Keys),
      RemoveCatalog(current.catalog, applied.catalog),
      current.clear - applied.catalog.Keys - applied.clear)
  }

  function ClearLayer(layer: Layer, s: string, applied: Patch): Layer {
    if s !in layer.patches then layer
    else
      var next := RemovePatchFields(layer.patches[s], applied);
      layer.(patches := if next == NO_PATCH then layer.patches - {s} else layer.patches[s := next])
  }

  /** Clear the confirmed fields from every layer; a layer emptied by that goes away. */
  function ClearLayers(layers: seq<Layer>, s: string, applied: Patch): seq<Layer> {
    if layers == [] then []
    else
      var init, last := ClearLayers(layers[..|layers| - 1], s, applied), layers[|layers| - 1];
      var next := ClearLayer(last, s, applied);
      if s in last.patches && next.patches == map[] then init else init + [next]
  }

  function SequencedOf(p: Projection, s: string): Patch {
    if s in p.sequenced then p.sequenced[s] else NO_PATCH
  }

  datatype Update = Update(subject: string, patch: Patch)

  function ApplyOne(p: Projection, u: Update): Projection {
    if u.subject == "" then p
    else p.(sequenced := p.sequenced[u.subject := MergePatch(SequencedOf(p, u.subject), u.patch)],
            live := ClearLayers(p.live, u.subject, u.patch),
            optimistic := ClearLayers(p.optimistic, u.subject, u.patch))
  }

  function ApplySequenced(p: Projection, updates: seq<Update>): Projection
    decreases |updates|
  {
    if updates == [] then p else ApplyOne(ApplySequenced(p, updates[..|updates| - 1]), updates[|updates| - 1])
  }

  // ------------------------------------------------ confirmed values show through

  /** A place a patch can write: a summary field, a property, or a field of a catalog group. */
  datatype Slot = Field(name: string) | Prop(name: string) | State(group: string, name: string)

  function Writes(p: Patch, slot: Slot): Option<Value> {
    match slot
    case Field(n) => if n in p.fields then p.fields[n] else None
    case Prop(n) => if n in p.props then p.props[n] else None
    case State(g, n) => if n in GroupOf(p.catalog, g) then p.catalog[g][n] else None
  }

  function Shown(t: Object, slot: Slot): Option<Value> {
    match slot
    case Field(n) => if n in t.fields then Some(t.fields[n]) else None
    case Prop(n) => if n in t.props then Some(t.props[n]) else None
    case State(g, n) => if g in t.catalog && n in t.catalog[g] then Some(t.catalog[g][n]) else None
  }

  /** A patch that neither writes the slot nor clears its group. */
  predicate Leaves(p: Patch, slot: Slot) {
    Writes(p, slot).None? && (slot.State? ==> slot.group !in p.clear)
  }

  lemma ApplyShows(t: Object, p: Patch, slot: Slot)
    ensures Writes(p, slot).Some? ==> Shown(ApplyPatch(t, p), slot) == Writes(p, slot)
    ensures Leaves(p, slot) ==> Shown(ApplyPatch(t, p), slot) == Shown(t, slot)
  {
  }

  lemma MergeWrites(l: Patch, r: Patch, slot: Slot)
    ensures Writes(MergePatch(l, r), slot) == if Writes(r, slot).Some? then Writes(r, slot) else Writes(l, slot)
  {
  }

  lemma RemovedLeaves(current: Patch, applied: Patch, slot: Slot)
    ensures Writes(applied, slot).Some? ==> Leaves(RemovePatchFields(current, applied), slot)
    ensures Leaves(current, slot) ==> Leaves(RemovePatchFields(current, applied), slot)
  {
  }

  ghost predicate LayersLeave(layers: seq<Layer>, s: string, slot: Slot) {
    forall l :: l in layers ==> s in l.patches ==> Leaves(l.patches[s], slot)
  }

  lemma ClearedLayerLeaves(layer: Layer, s: string, u: Update, slot: Slot)
    requires (u.subject == s && Writes(u.patch, slot).Some?) || (s in layer.patches ==> Leaves(layer.patches[s], slot))
    ensures var next := ClearLayer(layer, u.subject, u.patch); s in next.patches ==> Leaves(next.patches[s], slot)
  {
    if s in layer.patches && u.subject == s {
      RemovedLeaves(layer.patches[s], u.patch, slot);
    }
  }

  lemma {:induction false} ClearedLayersLeave(layers: seq<Layer>, s: string, u: Update, slot: Slot)
    requires (u.subject == s && Writes(u.patch, slot).Some?) || LayersLeave(layers, s, slot)
    ensures LayersLeave(ClearLayers(layers, u.subject, u.patch), s, slot)
    decreases |layers|
  {
    if layers != [] {
      var init, last := layers[..|layers| - 1], layers[|layers| - 1];
      assert last in layers && forall l :: l in init ==> l in layers;
      ClearedLayersLeave(init, s, u, slot);
      ClearedLayerLeaves(last, s, u, slot);
    }
  }

  lemma {:induction false} LeavingLayersShow(t: Object, layers: seq<Layer>, s: string, slot: Slot)
    requires LayersLeave(layers, s, slot)
    ensures Shown(ApplyLayers(t, layers, s), slot) == Shown(t, slot)
    decreases |layers|
  {
    if layers != [] {
      var init, last := layers[..|layers| - 1], layers[|layers| - 1];
      assert last in layers;
      LeavingLayersShow(t, init, s, slot);
      if s in last.patches { ApplyShows(ApplyLayers(t, init, s), last.patches[s], slot); }
    }
  }

  /** The value the last update for a subject that defines a slot gives it. */
  function LastWrite(updates: seq<Update>, s: string, slot: Slot): Option<Value> {
    if updates == [] then None
    else
      var last := updates[|updates| - 1];
      if last.subject == s && Writes(last.patch, slot).Some? then Writes(last.patch, slot)
      else LastWrite(updates[..|updates| - 1], s, slot)
  }

  lemma {:induction false} ConfirmedStands(p: Projection, updates: seq<Update>, s: string, slot: Slot)
    requires s != "" && LastWrite(updates, s, slot).Some?
    ensures var q := ApplySequenced(p, updates);
            && s in q.sequenced && Writes(q.sequenced[s], slot) == LastWrite(updates, s, slot)
            && LayersLeave(q.live, s, slot) && LayersLeave(q.optimistic, s, slot)
    decreases |updates|
  {
    var init, last := updates[..|updates| - 1], updates[|updates| - 1];
    var before := ApplySequenced(p, init);
    if !(last.subject == s && Writes(last.patch, slot).Some?) {
      ConfirmedStands(p, init, s, slot);
    }
    if last.subject != "" {
      MergeWrites(SequencedOf(before, last.subject), last.patch, slot);
      ClearedLayersLeave(before.live, s, last, slot);
      ClearedLayersLeave(before.optimistic, s, last, slot);
    }
  }

  /**
   * After sequenced updates, an object shows for every field, property and
   * catalog field the value of the last update that defines it, whatever the
   * live and optimistic layers held; a property or catalog field also makes the
   * object visible.
   */
  lemma SequencedShowsThrough(p: Projection, updates: seq<Update>, s: string, slot: Slot)
    requires s != "" && LastWrite(updates, s, slot).Some?
    ensures var q := ApplySequenced(p, updates);
            && Shown(Composed(q, s), slot) == LastWrite(updates, s, slot)
            && (!slot.Field? || Counts(slot.name, LastWrite(updates, s, slot).value) ==> Observe(q, s) == Some(Composed(q, s)))
  {
    var q := ApplySequenced(p, updates);
    ConfirmedStands(p, updates, s, slot);
    var t := if s in q.canonical then q.canonical[s] else EMPTY_OBJECT;
    ApplyShows(t, q.sequenced[s], slot);
    LeavingLayersShow(Base(q, s), q.live, s, slot);
    LeavingLayersShow(ApplyLayers(Base(q, s), q.live, s), q.optimistic, s, slot);
  }

  // ------------------------------------------------------------------- visibility

  /** The patches that layers hold for an object, in the order they are applied. */
  function PatchesFor(layers: seq<Layer>, s: string): seq<Patch> {
    if layers == [] then []
    else
      var init, last := PatchesFor(layers[..|layers| - 1], s), layers[|layers| - 1];
      if s in last.patches then init + [last.patches[s]] else init
  }

  /** What a confirmed patch leaves of a list of layered ones. */
  function PruneList(list: seq<Patch>, applied: Patch): seq<Patch> {
    if list == [] then []
    else
      var init, next := PruneList(list[..|list| - 1], applied), RemovePatchFields(list[|list| - 1], applied);
      if next == NO_PATCH then init else init + [next]
  }

  /** What sequenced updates leave of the patches layered over an object. */
  function Surviving(list: seq<Patch>, updates: seq<Update>, s: string): seq<Patch>
    decreases |updates|
  {
    if updates == [] then list
    else
      var before, last := Surviving(list, updates[..|updates| - 1], s), updates[|updates| - 1];
      if last.subject == s then PruneList(before, last.patch) else before
  }

  /** What sequenced updates make of the patch confirmed before. */
  function Folded(confirmed: Patch, updates: seq<Update>, s: string): Patch
    decreases |updates|
  {
    if updates == [] then confirmed
    else
      var before, last := Folded(confirmed, updates[..|updates| - 1], s), updates[|updates| - 1];
      if last.subject == s then MergePatch(before, last.patch) else before
  }

  function CanonicalOf(p: Projection, s: string): Object {
    if s in p.canonical then p.canonical[s] else EMPTY_OBJECT
  }

  /** All that stands over an object's canonical value after the updates: the confirmed patch, then what is left of the layers. */
  function Standing(p: Projection, updates: seq<Update>, s: string): seq<Patch> {
    [Folded(SequencedOf(p, s), updates, s)]
    + Surviving(PatchesFor(p.live, s), updates, s)
    + Surviving(PatchesFor(p.optimistic, s), updates, s)
  }

  lemma {:induction false} LayersAreList(t: Object, layers: seq<Layer>, s: string)
    ensures ApplyLayers(t, layers, s) == ApplyAll(t, PatchesFor(layers, s))
    decreases |layers|
  {
    if layers != [] {
      var init, last := PatchesFor(layers[..|layers| - 1], s), layers[|layers| - 1];
      LayersAreList(t, layers[..|layers| - 1], s);
      if s in last.patches { assert (init + [last.patches[s]])[..|init|] == init; }
    }
  }

  lemma {:induction false} ClearedList(layers: seq<Layer>, subject: string, applied: Patch, s: string)
    ensures PatchesFor(ClearLayers(layers, subject, applied), s) ==
            if subject == s then PruneList(PatchesFor(layers, s), applied) else PatchesFor(layers, s)
    decreases |layers|
  {
    if layers != [] {
      var init, last := layers[..|layers| - 1], layers[|layers| - 1];
      ClearedList(init, subject, applied, s);
      ClearedLayer(last, subject, applied, s);
      var cleared, next := ClearLayers(init, subject, applied), ClearLayer(last, subject, applied);
      assert (cleared + [next])[..|cleared|] == cleared;
      if s in last.patches { PruneSnoc(PatchesFor(init, s), last.patches[s], applied); }
    }
  }

  lemma PruneSnoc(init: seq<Patch>, last: Patch, applied: Patch)
    ensures var next := RemovePatchFields(last, applied);
            PruneList(init + [last], applied) == if next == NO_PATCH then PruneList(init, applied) else PruneList(init, applied) + [next]
  {
    assert (init + [last])[..|init|] == init;
  }

  /** What clearing makes of one layer's patch for an object. */
  lemma ClearedLayer(layer: Layer, subject: string, applied: Patch, s: string)
    ensures var next := ClearLayer(layer, subject, applied);
            if s !in layer.patches then s !in next.patches
            else
              var left := if subject == s then RemovePatchFields(layer.patches[s], applied) else layer.patches[s];
              if subject == s && left == NO_PATCH then s !in next.patches else s in next.patches && next.patches[s] == left
  {
  }

  lemma {:induction false} SequencedLeaves(p: Projection, updates: seq<Update>, s: string)
    requires s != ""
    ensures var q := ApplySequenced(p, updates);
            && q.canonical == p.canonical
            && SequencedOf(q, s) == Folded(SequencedOf(p, s), updates, s)
            && PatchesFor(q.live, s) == Surviving(PatchesFor(p.live, s), updates, s)
            && PatchesFor(q.optimistic, s) == Surviving(PatchesFor(p.optimistic, s), updates, s)
    decreases |updates|
  {
    if updates != [] {
      var last := updates[|updates| - 1];
      SequencedLeaves(p, updates[..|updates| - 1], s);
      var before := ApplySequenced(p, updates[..|updates| - 1]);
      ClearedList(before.live, last.subject, last.patch, s);
      ClearedList(before.optimistic, last.subject, last.patch, s);
    }
  }

  lemma {:induction false} ApplyAllJoins(t: Object, a: seq<Patch>, b: seq<Patch>)
    ensures ApplyAll(t, a + b) == ApplyAll(ApplyAll(t, a), b)
    decreases |b|
  {
    if b == [] {
      assert a + b == a;
    } else {
      assert (a + b)[..|a + b| - 1] == a + b[..|b| - 1];
      ApplyAllJoins(t, a, b[..|b| - 1]);
    }
  }

  lemma NoPatchIsIdentity(t: Object)
    ensures ApplyPatch(t, NO_PATCH) == t
  {
    assert t.fields + Defined(map[]) == t.fields && t.props + Defined(map[]) == t.props;
    forall g ensures At(ApplyCatalog(t.catalog, NO_PATCH), g) == At(t.catalog, g) {
      CatalogAt(t.catalog, NO_PATCH, g);
    }
    SameCatalog(ApplyCatalog(t.catalog, NO_PATCH), t.catalog);
  }

  lemma ComposedIsList(q: Projection, s: string)
    ensures Composed(q, s) == ApplyAll(CanonicalOf(q, s), [SequencedOf(q, s)] + PatchesFor(q.live, s) + PatchesFor(q.optimistic, s))
  {
    var c, first := CanonicalOf(q, s), SequencedOf(q, s);
    NoPatchIsIdentity(c);
    assert [first][..0] == [] && ApplyAll(c, [first]) == ApplyPatch(c, first);
    LayersAreList(Base(q, s), q.live, s);
    LayersAreList(ApplyLayers(Base(q, s), q.live, s), q.optimistic, s);
    ApplyAllJoins(c, [first], PatchesFor(q.live, s));
    ApplyAllJoins(c, [first] + PatchesFor(q.live, s), PatchesFor(q.optimistic, s));
  }

  /** The last value that a list of patches gives a slot. */
  function LastIn(list: seq<Patch>, slot: Slot): Option<Value> {
    if list == [] then None
    else if Writes(list[|list| - 1], slot).Some? then Writes(list[|list| - 1], slot)
    else LastIn(list[..|list| - 1], slot)
  }

  /** A field or property in the end: its last value, or the one underneath. */
  function Final(c: Object, list: seq<Patch>, slot: Slot): Option<Value> {
    if LastIn(list, slot).Some? then LastIn(list, slot) else Shown(c, slot)
  }

  /** A group in the end: written, or there and not cleared since. */
  predicate GroupStays(c: Object, list: seq<Patch>, g: string) {
    if list == [] then g in c.catalog
    else g in list[|list| - 1].catalog || (g !in list[|list| - 1].clear && GroupStays(c, list[..|list| - 1], g))
  }

  /** Something to show: a field that counts, a property, or a group. */
  ghost predicate Visible(c: Object, list: seq<Patch>) {
    || (exists n :: Final(c, list, Field(n)).Some? && Counts(n, Final(c, list, Field(n)).value))
    || (exists n :: Final(c, list, Prop(n)).Some?)
    || (exists g :: GroupStays(c, list, g))
  }

  lemma {:induction false} FinalIsShown(c: Object, list: seq<Patch>, slot: Slot)
    requires !slot.State?
    ensures Shown(ApplyAll(c, list), slot) == Final(c, list, slot)
  {
    if list != [] {
      FinalIsShown(c, list[..|list| - 1], slot);
      ApplyShows(ApplyAll(c, list[..|list| - 1]), list[|list| - 1], slot);
    }
  }

  lemma {:induction false} GroupStaysIff(c: Object, list: seq<Patch>, g: string)
    ensures g in ApplyAll(c, list).catalog <==> GroupStays(c, list, g)
  {
    if list != [] { GroupStaysIff(c, list[..|list| - 1], g); }
  }

  lemma HasDataIff(t: Object)
    ensures HasData(t) <==>
            || (exists n :: Shown(t, Field(n)).Some? && Counts(n, Shown(t, Field(n)).value))
            || (exists n :: Shown(t, Prop(n)).Some?)
            || (exists g :: g in t.catalog)
  {
    if n :| Shown(t, Field(n)).Some? && Counts(n, Shown(t, Field(n)).value) { assert n in t.fields; }
    if f :| f in t.fields && Counts(f, t.fields[f]) { assert Shown(t, Field(f)).Some?; }
    if n :| Shown(t, Prop(n)).Some? { assert n in t.props; }
    if t.props != map[] { var n :| n in t.props; assert Shown(t, Prop(n)).Some?; }
    if t.catalog != map[] { var g :| g in t.catalog; }
  }

  lemma VisibleIff(c: Object, list: seq<Patch>)
    ensures HasData(ApplyAll(c, list)) <==> Visible(c, list)
  {
    var t := ApplyAll(c, list);
    HasDataIff(t);
    forall slot: Slot | !slot.State? ensures Shown(t, slot) == Final(c, list, slot) { FinalIsShown(c, list, slot); }
    forall g ensures g in t.catalog <==> GroupStays(c, list, g) { GroupStaysIff(c, list, g); }
  }

  /**
   * After sequenced updates an object is shown exactly if its canonical value, the
   * confirmed patch and what is left of the layers come to some property, some
   * catalog group or a field that counts: one whose fields all end up empty is not.
   */
  lemma VisibleExactly(p: Projection, updates: seq<Update>, s: string)
    requires s != ""
    ensures Observe(ApplySequenced(p, updates), s).Some? <==> Visible(CanonicalOf(p, s), Standing(p, updates, s))
  {
    SequencedLeaves(p, updates, s);
    ComposedIsList(ApplySequenced(p, updates), s);
    VisibleIff(CanonicalOf(p, s), Standing(p, updates, s));
  }

  // ---------------------------------------------------------- objects without layers

  /** No live or optimistic layer says anything of the object. */
  ghost predicate Unlayered(p: Projection, s: string) {
    PatchesFor(p.live, s) == [] && PatchesFor(p.optimistic, s) == []
  }

  /** What the updates leave confirmed in a slot: the last write, or what was confirmed before. */
  function Confirmed(p: Projection, updates: seq<Update>, s: string, slot: Slot): Option<Value> {
    var last := LastWrite(updates, s, slot);
    if last.Some? then last else Writes(SequencedOf(p, s), slot)
  }

  lemma {:induction false} FoldedWrites(p: Projection, updates: seq<Update>, s: string, slot: Slot)
    ensures Writes(Folded(SequencedOf(p, s), updates, s), slot) == Confirmed(p, updates, s, slot)
    decreases |updates|
  {
    if updates != [] {
      FoldedWrites(p, updates[..|updates| - 1], s, slot);
      MergeWrites(Folded(SequencedOf(p, s), updates[..|updates| - 1], s), updates[|updates| - 1].patch, slot);
    }
  }

  lemma {:induction false} NothingSurvives(updates: seq<Update>, s: string)
    ensures Surviving([], updates, s) == []
  {
    if updates != [] { NothingSurvives(updates[..|updates| - 1], s); }
  }

  /** Without layers the end value is the confirmed one, or the canonical one where nothing is confirmed. */
  lemma UnlayeredFinal(p: Projection, updates: seq<Update>, s: string, slot: Slot)
    requires Unlayered(p, s)
    ensures var confirmed := Confirmed(p, updates, s, slot);
            Final(CanonicalOf(p, s), Standing(p, updates, s), slot) == if confirmed.Some? then confirmed else Shown(CanonicalOf(p, s), slot)
  {
    NothingSurvives(updates, s);
    FoldedWrites(p, updates, s, slot);
    var first := Folded(SequencedOf(p, s), updates, s);
    assert Standing(p, updates, s) == [first] && [first][..0] == [];
    assert LastIn([first], slot) == Writes(first, slot);
  }

  lemma UnlayeredGroup(p: Projection, updates: seq<Update>, s: string, g: string)
    requires Unlayered(p, s)
    ensures var confirmed := Folded(SequencedOf(p, s), updates, s);
            GroupStays(CanonicalOf(p, s), Standing(p, updates, s), g) <==>
            g in confirmed.catalog || (g in CanonicalOf(p, s).catalog && g !in confirmed.clear)
  {
    NothingSurvives(updates, s);
    var first := Folded(SequencedOf(p, s), updates, s);
    assert Standing(p, updates, s) == [first] && [first][..0] == [];
  }

  /** Confirming an empty name for an object of which at most the name is known hides it, shown or not before. */
  lemma EmptyNameIsHidden(p: Projection, s: string)
    requires s != "" && Unlayered(p, s) && s !in p.sequenced
    requires var c := CanonicalOf(p, s); c.fields.Keys <= {"name"} && c.props == map[] && c.catalog == map[]
    ensures var named := Patch(map["name" := Some(Text(""))], map[], map[], {});
            Observe(ApplySequenced(p, [Update(s, named)]), s).None?
  {
    var named := Patch(map["name" := Some(Text(""))], map[], map[], {});
    var updates, c := [Update(s, named)], CanonicalOf(p, s);
    VisibleExactly(p, updates, s);
    OneUpdate(p, s, named);
    forall n ensures var v := Final(c, Standing(p, updates, s), Field(n)); v.Some? ==> v == Some(Text("")) {
      UnlayeredFinal(p, updates, s, Field(n));
    }
    forall n ensures Final(c, Standing(p, updates, s), Prop(n)).None? {
      UnlayeredFinal(p, updates, s, Prop(n));
    }
    forall g ensures !GroupStays(c, Standing(p, updates, s), g) {
      UnlayeredGroup(p, updates, s, g);
    }
  }

  lemma OneUpdate(p: Projection, s: string, patch: Patch)
    requires s !in p.sequenced
    ensures Folded(SequencedOf(p, s), [Update(s, patch)], s) == MergePatch(NO_PATCH, patch)
    ensures forall slot :: Confirmed(p, [Update(s, patch)], s, slot) == Writes(patch, slot)
  {
    var updates := [Update(s, patch)];
    assert updates[..0] == [];
    forall slot ensures Confirmed(p, updates, s, slot) == Writes(patch, slot) {
      assert LastWrite([], s, slot) == None;
    }
  }

  /** An object known by its name is shown; confirming an empty name hides it. */
  lemma EmptyNameHidesKnown(p: Projection, s: string, name: string)
    requires s != "" && name != "" && Unlayered(p, s) && s !in p.sequenced
    requires s in p.canonical && p.canonical[s] == Object(map["name" := Text(name)], map[], map[])
    ensures Observe(p, s).Some?
    ensures Observe(ApplySequenced(p, [Update(s, Patch(map["name" := Some(Text(""))], map[], map[], {}))]), s).None?
  {
    EmptyNameIsHidden(p, s);
    VisibleExactly(p, [], s);
    UnlayeredFinal(p, [], s, Field("name"));
    assert Counts("name", Text(name));
  }

  // ------------------------------------------------------------ the live projection

  /** Go through the layers, taking the confirmed fields out of each. */
  method ClearPatchFieldsFromLayers(layers: seq<Layer>, s: string, applied: Patch) returns (left: seq<Layer>)
    ensures left == ClearLayers(layers, s, applied)
  {
    left := [];
    for i := 0 to |layers|
      invariant left == ClearLayers(layers[..i], s, applied)
    {
      assert layers[..i + 1][..i] == layers[..i];
      var layer := layers[i];
      if s !in layer.patches {
        left := left + [layer];
      } else {
        var next := RemovePatchFields(layer.patches[s], applied);
        var patches := if next == NO_PATCH then layer.patches - {s} else layer.patches[s := next];
        if patches != map[] { left := left + [layer.(patches := patches)]; }
      }
    }
    assert layers[..|layers|] == layers;
  }

  /** Apply the patches that layers hold for an object, one after another. */
  method ComposeLayers(base: Object, layers: seq<Layer>, s: string) returns (merged: Object)
    ensures merged == ApplyLayers(base, layers, s)
  {
    merged := base;
    for i := 0 to |layers|
      invariant merged == ApplyLayers(base, layers[..i], s)
    {
      assert layers[..i + 1][..i] == layers[..i];
      if s in layers[i].patches { merged := ApplyPatch(merged, layers[i].patches[s]); }
    }
    assert layers[..|layers|] == layers;
  }

  class ClientProjection {
    var canonical: map<string, Object>
    var sequenced: map<string, Patch>
    var live: seq<Layer>
    var optimistic: seq<Layer>

    ghost function View(): Projection
      reads this
    {
      Projection(canonical, sequenced, live, optimistic)
    }

    constructor ()
      ensures View() == Projection(map[], map[], [], [])
    {
      canonical, sequenced, live, optimistic := map[], map[], [], [];
    }

    method ConfirmSequenced(updates: seq<Update>)
      modifies this
      ensures View() == ApplySequenced(old(View()), updates)
    {
      for i := 0 to |updates|
        invariant View() == ApplySequenced(old(View()), updates[..i])
      {
        assert updates[..i + 1][..i] == updates[..i];
        var s, patch := updates[i].subject, updates[i].patch;
        if s != "" {
          sequenced := sequenced[s := MergePatch(if s in sequenced then sequenced[s] else NO_PATCH, patch)];
          live := ClearPatchFieldsFromLayers(live, s, patch);
          optimistic := ClearPatchFieldsFromLayers(optimistic, s, patch);
        }
      }
      assert updates[..|updates|] == updates;
    }

    method ObserveObject(s: string) returns (seen: Option<Object>)
      ensures seen == Observe(View(), s)
    {
      if s == "" { return None; }
      var merged := if s in canonical then canonical[s] else EMPTY_OBJECT;
      if s in sequenced { merged := ApplyPatch(merged, sequenced[s]); }
      merged := ComposeLayers(merged, live, s);
      merged := ComposeLayers(merged, optimistic, s);
      seen := if HasData(merged) then Some(merged) else None;
    }
  }
}
