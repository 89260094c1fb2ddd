/**
 * One entry of the semantic view cache (src/client/framework.ts,
 * WooViewStore), as a machine over the events that reach it. A read answers
 * asynchronously, in two steps: its result lands, and later the read is over;
 * anything may happen before, between and after. Listeners do not call back
 * into the store.
 */
module ViewStore {
  import opened Wrappers

  type Data = string

  datatype Completeness = Unknown | Partial | Complete
  datatype Freshness = Current | Stale
  datatype FetchStatus = Idle | Loading | Refreshing | Failed

  datatype Snapshot = Snapshot(
    data: Option<Data>,
    completeness: Completeness,
    freshness: Freshness,
    fetch: FetchStatus,
    error: Option<string>,
    revision: nat)

  datatype Answer = Value(data: Data) | Failure(error: string)

  /** A read that has been started: the revision it was asked at, and its answer once it has landed. */
  datatype Reading = Reading(asked: nat, answer: Option<Answer>)

  /**
   * `started` holds every read ever begun; `open` those not yet over;
   * `inFlight` is the one the entry waits for.
   */
  datatype Entry = Entry(
    snapshot: Snapshot,
    listeners: set<nat>,
    requested: nat,
    started: seq<Reading>,
    open: set<nat>,
    inFlight: Option<nat>)

  datatype Event =
    | Subscribe(listener: nat)
    | Unsubscribe(listener: nat)
    | Refresh
    | Affected
    | Land(read: nat, answer: Answer)
    | Over(read: nat)

  /** A new entry, with a partial value if the projection could seed one. */
  function Created(seed: Option<Data>): Entry {
    Entry(Snapshot(seed, if seed.Some? then Partial else Unknown, Current, Idle, None, 0), {}, 0, [], {}, None)
  }

  predicate Wanted(e: Entry) {
    e.snapshot.completeness != Complete || e.snapshot.freshness == Stale
  }

  /** Publishing counts a revision exactly when something visible changes. */
  function Publish(e: Entry, next: Snapshot): Entry {
    if next.(revision := e.snapshot.revision) == e.snapshot then e
    else e.(snapshot := next.(revision := e.snapshot.revision + 1))
  }

  function StartRead(e: Entry): Entry {
    if e.inFlight.Some? then e
    else
      var shown := Publish(e, e.snapshot.(fetch := if e.snapshot.completeness == Complete then Refreshing else Loading, error := None));
      shown.(started := e.started + [Reading(e.requested, None)], open := e.open + {|e.started|}, inFlight := Some(|e.started|))
  }

  function Invalidate(e: Entry): Entry {
    var asked := e.(requested := e.requested + 1);
    var shown := Publish(asked, e.snapshot.(freshness := if e.snapshot.completeness == Complete then Stale else e.snapshot.freshness, error := None));
    if e.listeners != {} then StartRead(shown) else shown
  }

  function Landed(e: Entry, read: nat, answer: Answer): Entry
    requires read < |e.started|
  {
    var marked := e.(started := e.started[read := e.started[read].(answer := Some(answer))]);
    if e.started[read].asked != e.requested then marked
    else
      match answer
      case Value(data) => Publish(marked, Snapshot(Some(data), Complete, Current, Idle, None, e.snapshot.revision))
      case Failure(error) => Publish(marked, e.snapshot.(fetch := Failed, error := Some(error)))
  }

  function Finished(e: Entry, read: nat): Entry
    requires read < |e.started|
  {
    var closed := e.(open := e.open - {read});
    if e.inFlight != Some(read) then closed
    else
      var idle := closed.(inFlight := None);
      if e.listeners != {} && e.started[read].asked != e.requested then StartRead(idle) else idle
  }

  /** Only an open read can land, once, and only a landed one can be over. */
  predicate Enabled(e: Entry, ev: Event) {
    match ev
    case Land(read, _) => read in e.open && read < |e.started| && e.started[read].answer.None?
    case Over(read) => read in e.open && read < |e.started| && e.started[read].answer.Some?
    case _ => true
  }

  function Step(e: Entry, ev: Event): Entry
    requires Enabled(e, ev)
  {
    match ev
    case Subscribe(listener) =>
      var joined := e.(listeners := e.listeners + {listener});
      if joined.listeners == {listener} && Wanted(e) then StartRead(joined) else joined
    case Unsubscribe(listener) => e.(listeners := e.listeners - {listener})
    case Refresh => Invalidate(e)
    case Affected => if e.listeners == {} then e else Invalidate(e)
    case Land(read, answer) => Landed(e, read, answer)
    case Over(read) => Finished(e, read)
  }

  /** Runs of an entry; events that cannot happen are left out. */
  function Run(seed: Option<Data>, events: seq<Event>): Entry
    decreases |events|
  {
    if events == [] then Created(seed)
    else
      var before, last := Run(seed, events[..|events| - 1]), events[|events| - 1];
      if Enabled(before, last) then Step(before, last) else before
  }

  // ------------------------------------------------------------------- invariants

  /** Only the awaited read is open, and it asked for a revision reached by then. */
  ghost predicate SingleFlight(e: Entry) {
    && e.open == (if e.inFlight.Some? then {e.inFlight.value} else {})
    && (e.inFlight.Some? ==> e.inFlight.value < |e.started|)
    && (forall i :: 0 <= i < |e.started| ==> e.started[i].asked <= e.requested)
  }

  ghost predicate Settled(e: Entry) {
    e.snapshot.completeness == Complete && e.snapshot.freshness == Current
  }

  ghost predicate ShowsError(e: Entry) {
    e.snapshot.fetch == Failed && e.snapshot.error.Some?
  }

  /** A watched entry is settled, being read, or shows why not. */
  ghost predicate Attended(e: Entry) {
    e.listeners != {} ==> Settled(e) || e.inFlight.Some? || ShowsError(e)
  }

  /** Once the awaited read has landed for the present revision, its answer shows. */
  ghost predicate AnswerShows(e: Entry) {
    e.inFlight.Some? && e.inFlight.value < |e.started| ==>
      var read := e.started[e.inFlight.value];
      read.answer.Some? && read.asked == e.requested ==> Settled(e) || ShowsError(e)
  }

  /** `data` is what some read asked at revision `asked` answered. */
  ghost predicate Answered(e: Entry, asked: nat, data: Option<Data>) {
    data.Some? && exists i :: 0 <= i < |e.started| && e.started[i] == Reading(asked, Some(Value(data.value)))
  }

  /** A settled value answers a read that was started at the present revision. */
  ghost predicate UpToDate(e: Entry) {
    Settled(e) ==> Answered(e, e.requested, e.snapshot.data)
  }

  ghost predicate Good(e: Entry) {
    SingleFlight(e) && Attended(e) && AnswerShows(e)
  }

  /** Answers are never forgotten. */
  lemma AnsweredStays(e: Entry, f: Entry, asked: nat, data: Option<Data>)
    requires Answered(e, asked, data) && |e.started| <= |f.started|
    requires forall i :: 0 <= i < |e.started| && e.started[i].answer.Some? ==> f.started[i] == e.started[i]
    ensures Answered(f, asked, data)
  {
    var i :| 0 <= i < |e.started| && e.started[i] == Reading(asked, Some(Value(data.value)));
    assert f.started[i] == e.started[i];
  }

  lemma InvalidateGood(e: Entry)
    requires Good(e)
    ensures Good(Invalidate(e))
  {
  }

  lemma LandedGood(e: Entry, read: nat, answer: Answer)
    requires Good(e) && Enabled(e, Land(read, answer))
    ensures Good(Landed(e, read, answer))
  {
  }

  lemma FinishedGood(e: Entry, read: nat)
    requires Good(e) && read in e.open && read < |e.started| && e.started[read].answer.Some?
    ensures Good(Finished(e, read))
  {
  }

  lemma StepGood(e: Entry, ev: Event)
    requires Good(e) && Enabled(e, ev)
    ensures Good(Step(e, ev))
  {
    match ev
    case Refresh => InvalidateGood(e);
    case Affected => InvalidateGood(e);
    case Land(read, answer) => LandedGood(e, read, answer);
    case Over(read) => FinishedGood(e, read);
    case Subscribe(listener) =>
    case Unsubscribe(listener) =>
  }

  lemma StepKeepsAnswers(e: Entry, ev: Event)
    requires Enabled(e, ev)
    ensures var f := Step(e, ev);
            |e.started| <= |f.started| && forall i :: 0 <= i < |e.started| && e.started[i].answer.Some? ==> f.started[i] == e.started[i]
  {
  }

  /** A step leaves a settled entry settled at the same revision and value, or installs an answer to the present one. */
  lemma SettledFrom(e: Entry, ev: Event)
    requires Enabled(e, ev) && Settled(Step(e, ev))
    ensures var f := Step(e, ev);
            || (Settled(e) && f.requested == e.requested && f.snapshot.data == e.snapshot.data)
            || (ev.Land? && ev.answer.Value? && e.started[ev.read].asked == e.requested
                && f.requested == e.requested && f.snapshot.data == Some(ev.answer.data)
                && |f.started| == |e.started| && f.started[ev.read] == Reading(e.requested, Some(ev.answer)))
  {
  }

  lemma StepUpToDate(e: Entry, ev: Event)
    requires UpToDate(e) && Enabled(e, ev)
    ensures UpToDate(Step(e, ev))
  {
    var f := Step(e, ev);
    StepKeepsAnswers(e, ev);
    if Settled(f) {
      SettledFrom(e, ev);
      if Settled(e) && f.requested == e.requested && f.snapshot.data == e.snapshot.data {
        AnsweredStays(e, f, e.requested, e.snapshot.data);
      }
    }
  }

  /**
   * After any events: at most one read is open, and a watched entry that is not
   * settled has a read in flight or shows an error; a settled entry shows what a
   * read started at the present requested revision answered.
   */
  lemma {:induction false} AlwaysGood(seed: Option<Data>, events: seq<Event>)
    ensures var e := Run(seed, events); Good(e) && |e.open| <= 1 && UpToDate(e)
    decreases |events|
  {
    if events != [] {
      var init, last := events[..|events| - 1], events[|events| - 1];
      AlwaysGood(seed, init);
      if Enabled(Run(seed, init), last) {
        StepGood(Run(seed, init), last);
        StepUpToDate(Run(seed, init), last);
      }
    }
  }

  /** Once everything has come to rest, a watched entry shows an error or the answer to the present revision. */
  lemma RestingEntryIsRight(seed: Option<Data>, events: seq<Event>)
    requires var e := Run(seed, events); e.open == {} && e.listeners != {} && !ShowsError(e)
    ensures var e := Run(seed, events); Settled(e) && Answered(e, e.requested, e.snapshot.data)
  {
    AlwaysGood(seed, events);
  }

  /** The revision number tells snapshots apart: it grows with every visible change, and only then. */
  lemma RevisionTellsChanges(e: Entry, ev: Event)
    requires Enabled(e, ev)
    ensures var s, t := e.snapshot, Step(e, ev).snapshot;
            s.revision <= t.revision && (s.revision == t.revision <==> s == t)
  {
  }

  // ------------------------------------------------- observations that are missed

  /** The read whose value was shown last. */
  function Source(seed: Option<Data>, events: seq<Event>): Option<nat>
    decreases |events|
  {
    if events == [] then None
    else
      var before, last := Run(seed, events[..|events| - 1]), events[|events| - 1];
      if last.Land? && last.answer.Value? && Enabled(before, last) && before.started[last.read].asked == before.requested
      then Some(last.read)
      else Source(seed, events[..|events| - 1])
  }

  /** The event at which a read began. */
  function Began(seed: Option<Data>, events: seq<Event>, read: nat): (n: nat)
    requires read < |Run(seed, events).started|
    ensures n < |events|
    decreases |events|
  {
    if read < |Run(seed, events[..|events| - 1]).started| then Began(seed, events[..|events| - 1], read) else |events| - 1
  }

  lemma {:induction false} SettledHasSource(seed: Option<Data>, events: seq<Event>)
    requires Settled(Run(seed, events))
    ensures var e, j := Run(seed, events), Source(seed, events);
            && j.Some? && j.value < |e.started| && e.snapshot.data.Some?
            && e.started[j.value] == Reading(e.requested, Some(Value(e.snapshot.data.value)))
    decreases |events|
  {
    var init, last := events[..|events| - 1], events[|events| - 1];
    var before := Run(seed, init);
    if Enabled(before, last) {
      SettledFrom(before, last);
      StepKeepsAnswers(before, last);
    }
    if Source(seed, events) == Source(seed, init) && Settled(before) {
      SettledHasSource(seed, init);
    }
  }

  /**
   * The value shown is always the one installed last, and the seed before any:
   * neither a refresh, nor a failure, nor an outdated answer takes it away. It is
   * complete exactly when it was installed by a read.
   */
  lemma {:induction false} ShownValueExactly(seed: Option<Data>, events: seq<Event>)
    ensures var e, j := Run(seed, events), Source(seed, events);
            && (j.None? ==> e.snapshot.data == seed && e.snapshot.completeness == if seed.Some? then Partial else Unknown)
            && (j.Some? ==>
                  && j.value < |e.started| && e.snapshot.data.Some? && e.snapshot.completeness == Complete
                  && e.started[j.value].answer == Some(Value(e.snapshot.data.value)))
    decreases |events|
  {
    if events != [] {
      var init, last := events[..|events| - 1], events[|events| - 1];
      ShownValueExactly(seed, init);
      var before := Run(seed, init);
      if Enabled(before, last) {
        StepKeepsAnswers(before, last);
        ValueAfter(before, last);
      }
    }
  }

  /** Only an answer to the present revision changes the value. */
  lemma ValueAfter(e: Entry, ev: Event)
    requires Enabled(e, ev)
    ensures var f := Step(e, ev);
            if ev.Land? && ev.answer.Value? && e.started[ev.read].asked == e.requested
            then
              && f.snapshot.data == Some(ev.answer.data) && f.snapshot.completeness == Complete
              && ev.read < |f.started| && f.started[ev.read].answer == Some(ev.answer)
            else f.snapshot.data == e.snapshot.data && f.snapshot.completeness == e.snapshot.completeness
  {
  }

  /** A first load, or a refresh of a complete value; a watched entry that says either has a read in flight. */
  ghost predicate BusyOk(e: Entry) {
    && (e.snapshot.fetch == Loading ==> e.snapshot.completeness != Complete)
    && (e.snapshot.fetch == Refreshing ==> e.snapshot.completeness == Complete && e.snapshot.freshness == Stale)
    && (e.listeners != {} && (e.snapshot.fetch == Loading || e.snapshot.fetch == Refreshing) ==> e.inFlight.Some?)
    && (e.inFlight.Some? && e.inFlight.value < |e.started| && e.started[e.inFlight.value].asked != e.requested ==> Wanted(e))
    && (e.inFlight.Some? && e.inFlight.value < |e.started| && e.started[e.inFlight.value].answer.None? ==> Wanted(e))
  }

  lemma StepBusy(e: Entry, ev: Event)
    requires BusyOk(e) && Good(e) && Enabled(e, ev)
    ensures BusyOk(Step(e, ev))
  {
  }

  lemma {:induction false} BusyIsReading(seed: Option<Data>, events: seq<Event>)
    ensures BusyOk(Run(seed, events))
    decreases |events|
  {
    if events != [] {
      var init, last := events[..|events| - 1], events[|events| - 1];
      BusyIsReading(seed, init);
      AlwaysGood(seed, init);
      if Enabled(Run(seed, init), last) { StepBusy(Run(seed, init), last); }
    }
  }

  /** No read is begun for nobody, nor beside another, nor for a value that is complete and current. */
  lemma ReadsAreWanted(seed: Option<Data>, events: seq<Event>)
    requires events != [] && |Run(seed, events).started| > |Run(seed, events[..|events| - 1]).started|
    ensures var before, e := Run(seed, events[..|events| - 1]), Run(seed, events);
            && e.listeners != {} && !Settled(e) && e.inFlight == Some(|before.started|)
            && (before.inFlight.None? || events[|events| - 1] == Over(before.inFlight.value))
  {
    var init, last := events[..|events| - 1], events[|events| - 1];
    AlwaysGood(seed, init);
    BusyIsReading(seed, init);
    BusyIsReading(seed, events);
    if Enabled(Run(seed, init), last) { BegunBy(Run(seed, init), last); }
  }

  lemma BegunBy(e: Entry, ev: Event)
    requires BusyOk(e) && SingleFlight(e) && Enabled(e, ev) && |Step(e, ev).started| > |e.started|
    ensures var f := Step(e, ev);
            && f.listeners != {} && Wanted(f) && f.inFlight == Some(|e.started|)
            && (e.inFlight.None? || ev == Over(e.inFlight.value))
  {
  }

  /** A step starts at most one read, and it asks for the revision requested by then. */
  lemma StepStarts(e: Entry, ev: Event)
    requires Enabled(e, ev)
    ensures Follows(e, Step(e, ev))
  {
  }

  /** How one entry may follow another: reads are only added, and ask for the revision requested by then. */
  ghost predicate Follows(e: Entry, f: Entry) {
    && |e.started| <= |f.started| <= |e.started| + 1
    && (forall i :: 0 <= i < |e.started| ==> f.started[i].asked == e.started[i].asked)
    && (|f.started| > |e.started| ==> f.started[|e.started|].asked == f.requested)
    && e.requested <= f.requested
  }

  lemma RunFollows(seed: Option<Data>, events: seq<Event>)
    requires events != []
    ensures Follows(Run(seed, events[..|events| - 1]), Run(seed, events))
  {
    var before, last := Run(seed, events[..|events| - 1]), events[|events| - 1];
    if Enabled(before, last) { StepStarts(before, last); }
  }

  /** What a read asked for, in terms of the entries before and after the last event. */
  lemma AskedAfter(seed: Option<Data>, events: seq<Event>, read: nat)
    requires events != [] && read < |Run(seed, events).started|
    ensures var before := Run(seed, events[..|events| - 1]);
            Run(seed, events).started[read].asked == if read < |before.started| then before.started[read].asked else Run(seed, events).requested
  {
    RunFollows(seed, events);
  }

  lemma {:induction false} AskedWhenBegun(seed: Option<Data>, events: seq<Event>, read: nat)
    requires read < |Run(seed, events).started|
    ensures Run(seed, events).started[read].asked == Run(seed, events[..Began(seed, events, read) + 1]).requested
    decreases |events|
  {
    var init := events[..|events| - 1];
    AskedAfter(seed, events, read);
    var n := Began(seed, events, read);
    if read < |Run(seed, init).started| {
      AskedWhenBegun(seed, init, read);
      assert events[..n + 1] == init[..n + 1];
    } else {
      assert events[..n + 1] == events;
    }
  }

  lemma {:induction false} RequestsGrow(seed: Option<Data>, events: seq<Event>, n: nat)
    requires n <= |events|
    ensures Run(seed, events[..n]).requested <= Run(seed, events).requested
    decreases |events|
  {
    if n == |events| {
      assert events[..n] == events;
    } else {
      var init := events[..|events| - 1];
      assert events[..n] == init[..n];
      RequestsGrow(seed, init, n);
      RunFollows(seed, events);
    }
  }

  /** The event makes the entry ask for a new revision: a refresh, or an observation while somebody watches. */
  ghost predicate Outdates(seed: Option<Data>, events: seq<Event>, n: nat)
    requires n < |events|
  {
    events[n].Refresh? || (events[n].Affected? && Run(seed, events[..n]).listeners != {})
  }

  lemma OutdatingCounts(seed: Option<Data>, events: seq<Event>, n: nat)
    requires n < |events| && Outdates(seed, events, n)
    ensures Run(seed, events[..n + 1]).requested > Run(seed, events[..n]).requested
  {
    assert events[..n + 1][..n] == events[..n];
  }

  lemma OutdatedSince(seed: Option<Data>, events: seq<Event>, b: nat, n: nat)
    requires b < n < |events| && Outdates(seed, events, n)
    ensures Run(seed, events[..b + 1]).requested < Run(seed, events).requested
  {
    OutdatingCounts(seed, events, n);
    RequestsGrow(seed, events, n + 1);
    assert events[..n][..b + 1] == events[..b + 1];
    RequestsGrow(seed, events[..n], b + 1);
  }

  /** Since the read it answers began, nothing has outdated a settled entry. */
  lemma SettledIsNotOutdated(seed: Option<Data>, events: seq<Event>, n: nat)
    requires Settled(Run(seed, events)) && n < |events|
    ensures var j := Source(seed, events);
            && j.Some? && j.value < |Run(seed, events).started|
            && (Began(seed, events, j.value) < n ==> !Outdates(seed, events, n))
  {
    SettledHasSource(seed, events);
    var j := Source(seed, events).value;
    var b := Began(seed, events, j);
    if b < n && Outdates(seed, events, n) {
      AskedWhenBegun(seed, events, j);
      OutdatedSince(seed, events, b, n);
    }
  }

  /** An observation after event `b`. */
  ghost predicate ObservedSince(events: seq<Event>, b: nat) {
    exists n :: b < n < |events| && events[n].Affected?
  }

  /** An observation after event `b` that nobody was there to see. */
  ghost predicate MissedSince(seed: Option<Data>, events: seq<Event>, b: nat) {
    exists n :: b < n < |events| && events[n].Affected? && Run(seed, events[..n]).listeners == {}
  }

  /**
   * What is shown as complete and current answers a read that began after every
   * observation exactly when no observation since then reached the entry
   * unwatched: those are not remembered, and a later subscriber starts no read.
   */
  lemma CurrentUnlessMissed(seed: Option<Data>, events: seq<Event>)
    requires Settled(Run(seed, events))
    ensures var j := Source(seed, events);
            && j.Some? && j.value < |Run(seed, events).started|
            && (ObservedSince(events, Began(seed, events, j.value)) <==> MissedSince(seed, events, Began(seed, events, j.value)))
  {
    SettledHasSource(seed, events);
    var b := Began(seed, events, Source(seed, events).value);
    if ObservedSince(events, b) {
      var n :| b < n < |events| && events[n].Affected?;
      SettledIsNotOutdated(seed, events, n);
    }
  }

  /** A settled entry nobody watches: subscribed to, read, and left. */
  lemma ReadAndLeft(listener: nat, data: Data)
    ensures var events := [Subscribe(listener), Land(0, Value(data)), Over(0), Unsubscribe(listener)];
            Settled(Run(None, events)) && Run(None, events).listeners == {}
  {
    var a := [Subscribe(listener)];
    var b := a + [Land(0, Value(data))];
    var c := b + [Over(0)];
    var d := c + [Unsubscribe(listener)];
    assert a[..0] == [] && b[..1] == a && c[..2] == b && d[..3] == c;
    assert Run(None, []) == Created(None);
    assert Run(None, a) == StartRead(Created(None).(listeners := {listener}));
    assert Run(None, b).snapshot.data == Some(data) && Settled(Run(None, b)) && Run(None, b).listeners == {listener};
    assert Settled(Run(None, c)) && Run(None, c).listeners == {listener};
    assert d == [Subscribe(listener), Land(0, Value(data)), Over(0), Unsubscribe(listener)];
  }

  /** Such an entry, from any settled one: nobody watches, an observation comes, somebody subscribes. */
  lemma StaleShownAsCurrent(seed: Option<Data>, events: seq<Event>, listener: nat)
    requires Settled(Run(seed, events)) && Run(seed, events).listeners == {}
    ensures var more := events + [Affected, Subscribe(listener)];
            && Settled(Run(seed, more)) && Run(seed, more).snapshot == Run(seed, events).snapshot
            && Run(seed, more).inFlight == Run(seed, events).inFlight
            && Source(seed, more) == Source(seed, events)
            && Source(seed, more).Some? && Source(seed, more).value < |Run(seed, more).started|
            && MissedSince(seed, more, Began(seed, more, Source(seed, more).value))
  {
    var more := events + [Affected, Subscribe(listener)];
    var mid := events + [Affected];
    assert more[..|more| - 1] == mid && mid[..|mid| - 1] == events;
    SettledHasSource(seed, events);
    var j := Source(seed, events).value;
    assert Began(seed, more, j) == Began(seed, mid, j) == Began(seed, events, j);
    assert more[..|events|] == events && more[|events|] == Affected;
  }

  // ------------------------------------------------------------------ the live entry

  /** The entry's fields, updated in place. */
  class ViewEntry {
    var snapshot: Snapshot
    var listeners: set<nat>
    var requestedRevision: nat
    var started: seq<Reading>
    var open: set<nat>
    var inFlight: Option<nat>

    ghost function View(): Entry
      reads this
    {
      Entry(snapshot, listeners, requestedRevision, started, open, inFlight)
    }

    constructor (seed: Option<Data>)
      ensures View() == Created(seed)
    {
      snapshot := Snapshot(seed, if seed.Some? then Partial else Unknown, Current, Idle, None, 0);
      listeners, requestedRevision, started, open, inFlight := {}, 0, [], {}, None;
    }

    method Show(next: Snapshot)
      modifies this`snapshot
      ensures View() == Publish(old(View()), next)
    {
      if next.(revision := snapshot.revision) != snapshot {
        snapshot := next.(revision := snapshot.revision + 1);
      }
    }

    method BeginRead()
      modifies this
      ensures View() == StartRead(old(View()))
    {
      if inFlight.Some? { return; }
      Show(snapshot.(fetch := if snapshot.completeness == Complete then Refreshing else Loading, error := None));
      inFlight, open := Some(|started|), open + {|started|};
      started := started + [Reading(requestedRevision, None)];
    }

    method InvalidateEntry()
      modifies this
      ensures View() == Invalidate(old(View()))
    {
      requestedRevision := requestedRevision + 1;
      var complete := snapshot.completeness == Complete;
      Show(snapshot.(freshness := if complete then Stale else snapshot.freshness, error := None));
      if listeners != {} && inFlight.None? { BeginRead(); }
    }

    method AddListener(listener: nat)
      modifies this
      ensures View() == Step(old(View()), Subscribe(listener))
    {
      listeners := listeners + {listener};
      if listeners == {listener} && (snapshot.completeness != Complete || snapshot.freshness == Stale) { BeginRead(); }
    }

    method RemoveListener(listener: nat)
      modifies this
      ensures View() == Step(old(View()), Unsubscribe(listener))
    {
      listeners := listeners - {listener};
    }

    method HandleObservation()
      modifies this
      ensures View() == Step(old(View()), Affected)
    {
      if listeners != {} { InvalidateEntry(); }
    }

    /** The then/catch continuations of a read. */
    method ReadLanded(read: nat, answer: Answer)
      requires Enabled(View(), Land(read, answer))
      modifies this
      ensures View() == Step(old(View()), Land(read, answer))
    {
      started := started[read := started[read].(answer := Some(answer))];
      if started[read].asked != requestedRevision { return; }
      match answer
      case Value(data) => Show(Snapshot(Some(data), Complete, Current, Idle, None, snapshot.revision));
      case Failure(error) => Show(snapshot.(fetch := Failed, error := Some(error)));
    }

    /** The finally continuation of a read. */
    method ReadOver(read: nat)
      requires Enabled(View(), Over(read))
      modifies this
      ensures View() == Step(old(View()), Over(read))
    {
      open := open - {read};
      if inFlight != Some(read) { return; }
      inFlight := None;
      if listeners != {} && requestedRevision != started[read].asked { BeginRead(); }
    }
  }
}
