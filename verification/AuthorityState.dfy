/**
 * A whole authority merge (src/core/authority-slice.ts,
 * mergeSerializedAuthoritySlice): sessions, cell pages, counters and
 * tombstones, then the contents repair and the pruning of orphan sessions.
 */
module AuthorityState {
  import opened Wrappers
  import opened AuthorityCells
  import opened AuthorityMerge
  import opened AuthorityRepair

  datatype Session = Session(id: string, actor: ObjRef, expiresAt: Option<int>, details: string)

  /** Counters and tombstones are optional parts of a serialized world. */
  datatype Snapshot = Snapshot(
    world: World,
    sessions: seq<Session>,
    objectCounter: Option<int>,
    sessionCounter: Option<int>,
    tombstones: Option<seq<ObjRef>>)

  datatype Authority = Authority(
    sessions: seq<Session>,
    cells: Slice,
    objectCounter: int,
    sessionCounter: int,
    tombstones: seq<ObjRef>)

  // ------------------------------------------------------------------- sessions

  function Expiry(s: Session): int {
    if s.expiresAt.Some? then s.expiresAt.value else 0
  }

  /** The last session with an id. */
  function FindSession(sessions: seq<Session>, id: string): Option<Session> {
    if sessions == [] then None
    else if sessions[|sessions| - 1].id == id then Some(sessions[|sessions| - 1])
    else FindSession(sessions[..|sessions| - 1], id)
  }

  /** A lease never shrinks while the session keeps its actor. */
  function Leased(existing: Option<Session>, s: Session): Session {
    if existing.Some? && existing.value.actor == s.actor && Expiry(existing.value) > Expiry(s)
    then s.(expiresAt := Some(Expiry(existing.value)))
    else s
  }

  function MergeSessions(current: seq<Session>, incoming: seq<Session>): seq<Session> {
    seq(|incoming|, i requires 0 <= i < |incoming| => Leased(FindSession(current, incoming[i].id), incoming[i]))
  }

  function PruneSessions(sessions: seq<Session>, w: World): seq<Session> {
    if sessions == [] then []
    else
      var init, last := PruneSessions(sessions[..|sessions| - 1], w), sessions[|sessions| - 1];
      if Has(w, last.actor) then init + [last] else init
  }

  ghost predicate UniqueSessions(sessions: seq<Session>) {
    forall i, j :: 0 <= i < j < |sessions| ==> sessions[i].id != sessions[j].id
  }

  // ------------------------------------------------------------------- metadata

  function Larger(current: Option<int>, incoming: int): Option<int> {
    if current.Some? then Some(if current.value < incoming then incoming else current.value) else None
  }

  function Elements(list: seq<ObjRef>): set<ObjRef> {
    set x | x in list
  }

  function MergeTombstones(sort: Sorting, current: Option<seq<ObjRef>>, incoming: seq<ObjRef>): Option<seq<ObjRef>> {
    if current.Some? then Some(sort(Elements(current.value) + Elements(incoming))) else None
  }

  // ------------------------------------------------------------- the whole merge

  /** The merge returns, or stops on a page it cannot resolve or build. */
  datatype Outcome = Returned(now: Snapshot, table: Table) | Aborted(table: Table)

  /** What follows the page merge. */
  function Finish(sort: Sorting, st: Snapshot, a: Authority, merged: World): Snapshot {
    Snapshot(
      Repair(sort, merged),
      PruneSessions(MergeSessions(st.sessions, a.sessions), merged),
      Larger(st.objectCounter, a.objectCounter),
      Larger(st.sessionCounter, a.sessionCounter),
      MergeTombstones(sort, st.tombstones, a.tombstones))
  }

  function MergeSlice(sort: Sorting, keepsTable: bool, st: Snapshot, table: Table, a: Authority): Outcome {
    match MergePages(st.world, keepsTable, table, a.cells)
    case Merged(w, t) => Returned(Finish(sort, st, a, w), t)
    case Threw(t) => Aborted(t)
  }

  /** What a cache holds: a serialized world and the provenance recorded for its cells. */
  datatype Held = Held(now: Snapshot, table: Table)

  /** A cache after a merge. One that stops keeps the world, and the sessions and records written by then. */
  function MergeInto(sort: Sorting, c: Held, a: Authority): Held {
    match MergeSlice(sort, true, c.now, c.table, a)
    case Returned(now, t) => Held(now, t)
    case Aborted(t) => Held(c.now.(sessions := MergeSessions(c.now.sessions, a.sessions)), t)
  }

  /** Every reference carries the page it names. */
  ghost predicate InlineComplete(slice: Slice) {
    forall r :: r in slice.refs ==> r.hash in slice.inline && CellOf(r.hash) == r.cell
  }

  // --------------------------------------------------------- merging sessions twice

  lemma {:induction false} FoundPruned(sessions: seq<Session>, w: World, id: string)
    requires UniqueSessions(sessions)
    ensures var f := FindSession(sessions, id);
            FindSession(PruneSessions(sessions, w), id) == if f.Some? && Has(w, f.value.actor) then f else None
  {
    if sessions != [] {
      var init, last := sessions[..|sessions| - 1], sessions[|sessions| - 1];
      FoundPruned(init, w, id);
      if last.id == id { NotFound(init, id); }
      var pruned := PruneSessions(init, w);
      assert (pruned + [last])[..|pruned|] == pruned;
    }
  }

  lemma {:induction false} NotFound(sessions: seq<Session>, id: string)
    requires forall s :: s in sessions ==> s.id != id
    ensures FindSession(sessions, id).None?
  {
    if sessions != [] {
      NotFound(sessions[..|sessions| - 1], id);
    }
  }

  lemma {:induction false} FoundAt(sessions: seq<Session>, i: nat)
    requires UniqueSessions(sessions) && i < |sessions|
    ensures FindSession(sessions, sessions[i].id) == Some(sessions[i])
  {
    if i < |sessions| - 1 {
      FoundAt(sessions[..|sessions| - 1], i);
    }
  }

  /** Lists of sessions with the same actors prune alike exactly when the surviving sessions are the same. */
  lemma {:induction false} PruneAgrees(s: seq<Session>, t: seq<Session>, w: World)
    requires |s| == |t| && forall i :: 0 <= i < |s| ==> s[i].actor == t[i].actor
    ensures |PruneSessions(s, w)| == |PruneSessions(t, w)|
    ensures PruneSessions(s, w) == PruneSessions(t, w) <==> forall i :: 0 <= i < |s| && Has(w, s[i].actor) ==> s[i] == t[i]
  {
    if s != [] {
      var u, v := s[..|s| - 1], t[..|t| - 1];
      PruneAgrees(u, v, w);
      if Has(w, s[|s| - 1].actor) {
        SnocAgrees(PruneSessions(u, w), PruneSessions(v, w), s[|s| - 1], t[|t| - 1]);
      }
    }
  }

  lemma SnocAgrees(p: seq<Session>, q: seq<Session>, x: Session, y: Session)
    requires |p| == |q|
    ensures p + [x] == q + [y] <==> p == q && x == y
  {
    assert (p + [x])[..|p|] == p && (q + [y])[..|q|] == q;
    assert (p + [x])[|p|] == x && (q + [y])[|q|] == y;
  }

  lemma {:induction false} FoundIsListed(sessions: seq<Session>, id: string)
    ensures var f := FindSession(sessions, id); f.Some? ==> f.value in sessions && f.value.id == id
    ensures FindSession(sessions, id).None? ==> forall s :: s in sessions ==> s.id != id
  {
    if sessions != [] {
      FoundIsListed(sessions[..|sessions| - 1], id);
      assert sessions == sessions[..|sessions| - 1] + [sessions[|sessions| - 1]];
    }
  }

  lemma {:induction false} PrunedAreListed(sessions: seq<Session>, w: World)
    ensures forall s :: s in PruneSessions(sessions, w) <==> s in sessions && Has(w, s.actor)
  {
    if sessions != [] {
      PrunedAreListed(sessions[..|sessions| - 1], w);
      assert sessions == sessions[..|sessions| - 1] + [sessions[|sessions| - 1]];
    }
  }

  /**
   * The last surviving session with an id leaves this one alone: of the same
   * actor it has no longer a lease, of another the lease was not extended.
   */
  ghost predicate LeaseRests(kept: seq<Session>, incoming: Session, leased: Session) {
    var last := FindSession(kept, incoming.id);
    last.Some? && if last.value.actor == incoming.actor then Expiry(last.value) <= Expiry(leased) else leased == incoming
  }

  ghost predicate SessionsRest(current: seq<Session>, incoming: seq<Session>, w: World) {
    var next := MergeSessions(current, incoming);
    forall i :: 0 <= i < |incoming| && Has(w, incoming[i].actor) ==> LeaseRests(PruneSessions(next, w), incoming[i], next[i])
  }

  /** Two sessions leased from the same one; leasing the first from the second. */
  lemma LeasedFromPeer(existing: Option<Session>, s: Session, t: Session)
    ensures var leased, last := Leased(existing, s), Leased(existing, t);
            Leased(Some(last), s) == leased <==>
            if last.actor == s.actor then Expiry(last) <= Expiry(leased) else leased == s
  {
  }

  lemma LeasedAgainIff(current: seq<Session>, incoming: seq<Session>, w: World, i: nat)
    requires i < |incoming| && Has(w, incoming[i].actor)
    ensures var next := MergeSessions(current, incoming);
            var kept := PruneSessions(next, w);
            Leased(FindSession(kept, incoming[i].id), incoming[i]) == next[i] <==> LeaseRests(kept, incoming[i], next[i])
  {
    var next := MergeSessions(current, incoming);
    var kept := PruneSessions(next, w);
    PrunedAreListed(next, w);
    FoundIsListed(kept, incoming[i].id);
    assert next[i] in kept;
    var last := FindSession(kept, incoming[i].id).value;
    var j :| 0 <= j < |next| && next[j] == last;
    LeasedFromPeer(FindSession(current, incoming[i].id), incoming[i], incoming[j]);
  }

  /** Merging and pruning the same sessions again changes nothing exactly when every lease rests. */
  lemma SessionsMergeTwiceIff(current: seq<Session>, incoming: seq<Session>, w: World)
    ensures var once := PruneSessions(MergeSessions(current, incoming), w);
            PruneSessions(MergeSessions(once, incoming), w) == once <==> SessionsRest(current, incoming, w)
  {
    var next := MergeSessions(current, incoming);
    var again := MergeSessions(PruneSessions(next, w), incoming);
    PruneAgrees(next, again, w);
    forall i | 0 <= i < |next| && Has(w, next[i].actor)
      ensures next[i] == again[i] <==> LeaseRests(PruneSessions(next, w), incoming[i], next[i])
    {
      LeasedAgainIff(current, incoming, w, i);
    }
  }

  /** With distinct session ids every lease rests. */
  lemma DistinctSessionsRest(current: seq<Session>, incoming: seq<Session>, w: World)
    requires UniqueSessions(incoming)
    ensures SessionsRest(current, incoming, w)
  {
    var next := MergeSessions(current, incoming);
    forall i | 0 <= i < |incoming| && Has(w, incoming[i].actor)
      ensures LeaseRests(PruneSessions(next, w), incoming[i], next[i])
    {
      FoundPruned(next, w, incoming[i].id);
      FoundAt(next, i);
    }
  }

  /** The lease of a session that keeps its actor never ends earlier than before. */
  lemma LeaseIsMonotone(current: seq<Session>, incoming: seq<Session>, i: nat)
    requires UniqueSessions(current) && i < |incoming|
    ensures var s := MergeSessions(current, incoming)[i];
            && s == incoming[i].(expiresAt := s.expiresAt)
            && Expiry(s) >= Expiry(incoming[i])
            && forall e :: e in current && e.id == s.id && e.actor == s.actor ==> Expiry(s) >= Expiry(e)
  {
    forall e | e in current && e.id == incoming[i].id
      ensures FindSession(current, e.id) == Some(e)
    {
      var j :| 0 <= j < |current| && current[j] == e;
      FoundAt(current, j);
    }
  }

  /** A session is leased for longer only by an earlier session of the same id and actor, and then exactly as long. */
  lemma LeaseIsTheLonger(current: seq<Session>, incoming: seq<Session>, i: nat, e: Session)
    requires UniqueSessions(current) && i < |incoming|
    ensures var s := MergeSessions(current, incoming)[i];
            && (e in current && e.id == incoming[i].id && e.actor == incoming[i].actor && Expiry(e) > Expiry(incoming[i]) ==>
                  s == incoming[i].(expiresAt := Some(Expiry(e))))
            && ((forall o :: o in current && o.id == incoming[i].id && o.actor == incoming[i].actor ==>
                   Expiry(o) <= Expiry(incoming[i])) ==> s == incoming[i])
  {
    FoundIsListed(current, incoming[i].id);
    if e in current {
      var j :| 0 <= j < |current| && current[j] == e;
      FoundAt(current, j);
    }
  }

  /**
   * A merge that returns keeps of the sessions exactly the incoming ones whose
   * actor the merged world has, under their leases.
   */
  lemma MergedSessions(sort: Sorting, keeps: bool, st: Snapshot, table: Table, a: Authority, s: Session)
    requires MergeSlice(sort, keeps, st, table, a).Returned?
    ensures var m := MergeSlice(sort, keeps, st, table, a);
            s in m.now.sessions <==> s in MergeSessions(st.sessions, a.sessions) && Has(m.now.world, s.actor)
  {
    PrunedAreListed(MergeSessions(st.sessions, a.sessions), MergePages(st.world, keeps, table, a.cells).world);
  }

  /** Counters never fall, below the old value or the incoming one, and tombstones are the union of both. */
  lemma MetadataOnlyGrows(sort: Sorting, keeps: bool, st: Snapshot, table: Table, a: Authority)
    requires MergeSlice(sort, keeps, st, table, a).Returned?
    ensures var now := MergeSlice(sort, keeps, st, table, a).now;
            && Raised(st.objectCounter, a.objectCounter, now.objectCounter)
            && Raised(st.sessionCounter, a.sessionCounter, now.sessionCounter)
            && (now.tombstones.Some? <==> st.tombstones.Some?)
            && (Lists(sort) && st.tombstones.Some? ==>
                  && NoRepeats(now.tombstones.value)
                  && forall o :: o in now.tombstones.value <==> o in st.tombstones.value || o in a.tombstones)
  {
  }

  /** An optional counter that is present ends as one of the two values, and below neither. */
  predicate Raised(before: Option<int>, incoming: int, after: Option<int>) {
    && (after.Some? <==> before.Some?)
    && (before.Some? ==> before.value <= after.value && incoming <= after.value && after.value in {before.value, incoming})
  }

  // -------------------------------------------------------------- the live cache

  /** A planning cache: a serialized world and the provenance recorded for its cells, updated in place. */
  class PlanningCache {
    var now: Snapshot
    var table: Table

    constructor (st: Snapshot, seeded: Table)
      ensures now == st && table == seeded
    {
      now, table := st, seeded;
    }

    /** Merge the cell pages; on a failure the records made so far stay behind. */
    method MergeCellPages(slice: Slice) returns (threw: bool)
      modifies this
      ensures var m := MergePages(old(now).world, true, old(table), slice);
              && table == m.table && threw == m.Threw?
              && now == if threw then old(now) else old(now).(world := m.world)
    {
      var w := now.world;
      var stopped, changed := DecideRefs(w, slice);
      if stopped { return true; }
      if changed == [] { return false; }
      var added := AddScaffolding(w, slice.inline, changed);
      var merged := Materialize(w, changed + added);
      if merged.None? { return true; }
      now := now.(world := merged.value);
      return false;
    }

    /** Go through the references, recording provenance and collecting the pages that land. */
    method DecideRefs(w: World, slice: Slice) returns (stopped: bool, changed: seq<Page>)
      modifies this`table
      ensures DecideAll(Deciding(w, slice.inline, true), old(table), slice.refs) ==
              if stopped then Progress.Stopped(table) else Going(table, changed)
    {
      ghost var decide := Deciding(w, slice.inline, true);
      changed := [];
      var i := 0;
      while i < |slice.refs|
        invariant 0 <= i <= |slice.refs|
        invariant DecideAll(decide, old(table), slice.refs[..i]) == Going(table, changed)
      {
        var r := slice.refs[i];
        var decision := Decide(w, slice.inline, Tracked(r.cell.kind), Recorded(table, r.cell), r);
        assert decision == decide(Recorded(table, r.cell), r);
        DecideNext(decide, old(table), slice.refs, i);
        if decision.Fail? {
          StoppedStays(decide, old(table), slice.refs, i + 1);
          return true, changed;
        }
        if decision.Take? { changed := changed + [r.hash]; }
        table := Record(table, r.cell, decision.recorded);
        i := i + 1;
      }
      assert slice.refs[..i] == slice.refs;
      return false, changed;
    }

    /** Offer the inline lineage of each object the changed pages would create without one. */
    method AddScaffolding(w: World, inline: seq<Page>, changed: seq<Page>) returns (added: seq<Page>)
      modifies this`table
      ensures added == Scaffold(w, inline, changed, |changed|)
      ensures table == RecordScaffold(old(table), added)
    {
      added := [];
      for i := 0 to |changed|
        invariant added == Scaffold(w, inline, changed, i)
        invariant table == RecordScaffold(old(table), added)
      {
        var o := changed[i].object_;
        var lineage := InlineLineage(inline, o);
        if !Has(w, o) && !HasLineagePage(changed, o) && !HasLineagePage(added, o) && lineage.Some? {
          assert (added + [lineage.value])[..|added|] == added;
          added := added + [lineage.value];
          if CellOf(lineage.value) !in table {
            table := table[CellOf(lineage.value) := Provenance(Fallback, None)];
          }
        }
      }
    }

    /** Recompute every container's contents, row by row. */
    method RepairContents(sort: Sorting)
      modifies this`now
      ensures now == old(now).(world := Repair(sort, old(now).world))
    {
      var w := now.world;
      var todo := w.Keys;
      while todo != {}
        invariant todo <= w.Keys && now == old(now).(world := now.world) && now.world.Keys == w.Keys
        invariant forall k :: k in w ==> now.world[k] == if k in todo then w[k] else RepairRow(sort, w, w[k])
      {
        var k :| k in todo;
        var row := now.world[k];
        if row.Live? {
          var contents := sort(Members(w, row.object_, row.contents));
          if contents != row.contents {
            now := now.(world := now.world[k := row.(contents := contents)]);
          }
        }
        todo := todo - {k};
      }
      assert now.world == Repair(sort, w);
    }

    /** The merge as callers use it. */
    method Merge(sort: Sorting, a: Authority) returns (threw: bool)
      modifies this
      ensures threw == MergeSlice(sort, true, old(now), old(table), a).Aborted?
      ensures Held(now, table) == MergeInto(sort, Held(old(now), old(table)), a)
    {
      now := now.(sessions := MergeSessions(now.sessions, a.sessions));
      threw := MergeCellPages(a.cells);
      if threw { return; }
      now := now.(
        objectCounter := Larger(now.objectCounter, a.objectCounter),
        sessionCounter := Larger(now.sessionCounter, a.sessionCounter),
        tombstones := MergeTombstones(sort, now.tombstones, a.tombstones));
      ghost var merged := now.world;
      RepairContents(sort);
      SamePruned(sort, merged, now.sessions);
      now := now.(sessions := PruneSessions(now.sessions, now.world));
    }
  }

  lemma DecideNext(decide: Decider, table: Table, refs: seq<Ref>, i: nat)
    requires i < |refs| && DecideAll(decide, table, refs[..i]).Going?
    ensures var done := DecideAll(decide, table, refs[..i]);
            var d := decide(Recorded(done.table, refs[i].cell), refs[i]);
            DecideAll(decide, table, refs[..i + 1]) ==
            if d.Fail? then Progress.Stopped(done.table)
            else Going(Record(done.table, refs[i].cell, d.recorded), if d.Take? then done.changed + [refs[i].hash] else done.changed)
  {
    assert refs[..i + 1][..i] == refs[..i];
  }

  lemma {:induction false} StoppedStays(decide: Decider, table: Table, refs: seq<Ref>, n: nat)
    requires n <= |refs| && DecideAll(decide, table, refs[..n]).Stopped?
    ensures DecideAll(decide, table, refs) == DecideAll(decide, table, refs[..n])
    decreases |refs| - n
  {
    if n < |refs| {
      assert refs[..n + 1][..n] == refs[..n];
      StoppedStays(decide, table, refs, n + 1);
    } else {
      assert refs[..n] == refs;
    }
  }

  lemma {:induction false} SamePruned(sort: Sorting, w: World, sessions: seq<Session>)
    ensures PruneSessions(sessions, Repair(sort, w)) == PruneSessions(sessions, w)
  {
    if sessions != [] {
      SamePruned(sort, w, sessions[..|sessions| - 1]);
    }
  }
}
