/**
 * Delivery in the client feed (src/client/net-feed.ts): own turns are answered
 * by a reply, committed observations arrive as frames, and the feed must not
 * show an own turn twice. A turn is named by its public echo id, which is an
 * injective image of its private id; transports appear only as the events they
 * deliver.
 */
module NetFeeds {
  import opened Wrappers

  const SETTLED_CAP: nat := 256

  type Observation = string

  /** A frame's content once it has passed the high-water gate. */
  datatype Fragment = Fragment(scope: string, seq_: int, observations: seq<Observation>)

  datatype Event =
    | Submit(turn: string)
    | Reply(turn: string, accepted: bool, scope: string, at: Option<int>, observations: seq<Observation>)
    | Lost(turn: string)
    | Frame(scope: string, at: Option<int>, echo: Option<string>, observations: seq<Observation>)
    | LiveFrame(scope: string, echo: Option<string>, observations: seq<Observation>)

  /** What subscribers see: own observations from a reply or from frames, and peer traffic. */
  datatype Emission =
    | OwnReply(turn: string, scope: string, at: Option<int>, observations: seq<Observation>)
    | OwnFrame(turn: string, fragment: Fragment)
    | PeerFrame(echo: Option<string>, fragment: Fragment)
    | PeerLive(echo: Option<string>, scope: string, observations: seq<Observation>)

  datatype Feed = Feed(
    pending: set<string>,
    buffers: map<string, seq<Fragment>>,
    seen: map<string, int>,
    selfSettled: seq<(string, int)>,
    settled: seq<string>)

  function Init(): Feed {
    Feed({}, map[], map[], [], [])
  }

  // --------------------------------------------------------- bounded recency sets

  function Without<T(==)>(list: seq<T>, x: T): seq<T> {
    if list == [] then []
    else
      var init, last := Without(list[..|list| - 1], x), list[|list| - 1];
      if last == x then init else init + [last]
  }

  function Newest<T>(list: seq<T>, n: nat): seq<T> {
    if |list| <= n then list else list[|list| - n..]
  }

  /** Move `x` to the newest place and forget the oldest beyond the cap. */
  function Remember<T(==)>(list: seq<T>, x: T): seq<T> {
    Newest(Without(list, x) + [x], SETTLED_CAP)
  }

  // ---------------------------------------------------------------------- steps

  function EchoOf(echo: Option<string>): Option<string> {
    if echo == Some("") then None else echo
  }

  function HighWater(f: Feed, scope: string): int {
    if scope in f.seen then f.seen[scope] else 0
  }

  function BufferOf(f: Feed, turn: string): seq<Fragment> {
    if turn in f.buffers then f.buffers[turn] else []
  }

  function OwnFrames(turn: string, fragments: seq<Fragment>): seq<Emission> {
    seq(|fragments|, i requires 0 <= i < |fragments| => OwnFrame(turn, fragments[i]))
  }

  /** The turn is over: its buffer is taken and its echo no longer pending. */
  function Close(f: Feed, turn: string): Feed {
    f.(pending := f.pending - {turn}, buffers := f.buffers - {turn})
  }

  /** The turn a step puts on the settled list. */
  function Settles(f: Feed, e: Event): Option<string> {
    if (e.Reply? || e.Lost?) && e.turn in f.pending && ((e.Reply? && e.accepted) || BufferOf(f, e.turn) != [])
    then Some(e.turn) else None
  }

  /** A frame above its scope's high-water. */
  predicate Advances(f: Feed, e: Event) {
    e.Frame? && e.scope != "" && e.at.Some? && e.at.value > HighWater(f, e.scope)
  }

  predicate Settled(f: Feed, echo: Option<string>) {
    EchoOf(echo).Some? && EchoOf(echo).value in f.settled
  }

  predicate Pending(f: Feed, echo: Option<string>) {
    EchoOf(echo).Some? && EchoOf(echo).value in f.pending
  }

  function FragmentOf(e: Event): Fragment
    requires e.Frame? && e.at.Some?
  {
    Fragment(e.scope, e.at.value, e.observations)
  }

  function Next(f: Feed, e: Event): Feed {
    match e
    case Submit(turn) => f.(pending := f.pending + {turn})
    case Lost(turn) =>
      if turn !in f.pending then f
      else if BufferOf(f, turn) != [] then Close(f, turn).(settled := Remember(f.settled, turn))
      else Close(f, turn)
    case Reply(turn, accepted, scope, at, observations) =>
      if turn !in f.pending then f
      else
        var closed := Close(f, turn);
        if accepted then
          closed.(settled := Remember(f.settled, turn),
                  selfSettled := if scope != "" && at.Some? then Remember(f.selfSettled, (scope, at.value)) else f.selfSettled)
        else if BufferOf(f, turn) != [] then closed.(settled := Remember(f.settled, turn))
        else closed
    case Frame(scope, at, echo, observations) =>
      if !Advances(f, e) then f
      else
        var g := f.(seen := f.seen[scope := at.value]);
        if Settled(f, echo) || !Pending(f, echo) then g
        else
          var turn := EchoOf(echo).value;
          g.(selfSettled := Remember(f.selfSettled, (scope, at.value)),
             buffers := f.buffers[turn := BufferOf(f, turn) + [FragmentOf(e)]])
    case LiveFrame(scope, echo, observations) => f
  }

  function Emits(f: Feed, e: Event): seq<Emission> {
    match e
    case Submit(turn) => []
    case Lost(turn) => if turn in f.pending then OwnFrames(turn, BufferOf(f, turn)) else []
    case Reply(turn, accepted, scope, at, observations) =>
      if turn !in f.pending then []
      else if accepted && observations != [] then [OwnReply(turn, scope, at, observations)]
      else OwnFrames(turn, BufferOf(f, turn))
    case Frame(scope, at, echo, observations) =>
      if !Advances(f, e) || Settled(f, echo) || Pending(f, echo) || (scope, at.value) in f.selfSettled then []
      else [PeerFrame(EchoOf(echo), FragmentOf(e))]
    case LiveFrame(scope, echo, observations) =>
      if scope == "" || Settled(f, echo) || Pending(f, echo) then [] else [PeerLive(EchoOf(echo), scope, observations)]
  }

  // ------------------------------------------------------------------- whole runs

  /** An emission, with the number of turns settled when it was made. */
  datatype Entry = Entry(emission: Emission, settledSoFar: nat)

  /** Everything a run leaves behind: the feed, what it showed, and the turns it settled, in order. */
  datatype Trace = Trace(feed: Feed, log: seq<Entry>, record: seq<string>)

  function Stamp(emissions: seq<Emission>, n: nat): seq<Entry> {
    seq(|emissions|, i requires 0 <= i < |emissions| => Entry(emissions[i], n))
  }

  function Advance(t: Trace, e: Event): Trace {
    var settles := Settles(t.feed, e);
    Trace(
      Next(t.feed, e),
      t.log + Stamp(Emits(t.feed, e), |t.record|),
      if settles.Some? then t.record + [settles.value] else t.record)
  }

  function Run(events: seq<Event>): Trace {
    if events == [] then Trace(Init(), [], []) else Advance(Run(events[..|events| - 1]), events[|events| - 1])
  }

  predicate Mentions(e: Event, turn: string) {
    match e
    case Submit(t) => t == turn
    case Reply(t, _, _, _, _) => t == turn
    case Lost(t) => t == turn
    case Frame(_, _, echo, _) => echo == Some(turn)
    case LiveFrame(_, echo, _) => echo == Some(turn)
  }

  /** Turn ids are freshly drawn: nothing mentions one before it is submitted. */
  ghost predicate FreshTurns(events: seq<Event>) {
    events == [] || (
      var init, last := events[..|events| - 1], events[|events| - 1];
      FreshTurns(init) && (last.Submit? ==> last.turn != "" && forall e :: e in init ==> !Mentions(e, last.turn)))
  }

  // ------------------------------------------------------- recency sets, as history

  ghost predicate Distinct<T(!new)>(list: seq<T>) {
    forall i, j :: 0 <= i < j < |list| ==> list[i] != list[j]
  }

  lemma {:induction false} WithoutAbsent<T>(list: seq<T>, x: T)
    requires x !in list
    ensures Without(list, x) == list
  {
    if list != [] {
      WithoutAbsent(list[..|list| - 1], x);
      assert list == list[..|list| - 1] + [list[|list| - 1]];
    }
  }

  /** Remembering a new item keeps the newest of the whole history. */
  lemma RememberIsNewest<T>(history: seq<T>, x: T)
    requires x !in history
    ensures Remember(Newest(history, SETTLED_CAP), x) == Newest(history + [x], SETTLED_CAP)
  {
    WithoutAbsent(Newest(history, SETTLED_CAP), x);
  }

  // ------------------------------------------------------------------- invariants

  /** Each settled turn was settled once, is over, and the feed remembers the newest of them. */
  ghost predicate SettledOk(t: Trace) {
    && Distinct(t.record)
    && t.feed.settled == Newest(t.record, SETTLED_CAP)
    && (forall x :: x in t.record ==> x !in t.feed.pending)
  }

  ghost predicate BuffersOk(f: Feed) {
    forall turn :: turn in f.buffers ==> turn in f.pending && f.buffers[turn] != []
  }

  ghost predicate OwnOf(m: Emission, turn: string) {
    (m.OwnReply? || m.OwnFrame?) && m.turn == turn
  }

  ghost predicate PeerOf(m: Emission, turn: string) {
    (m.PeerFrame? || m.PeerLive?) && m.echo == Some(turn)
  }

  /** The turns known so far: nothing else was ever settled or shown as our own. */
  ghost predicate Known(events: seq<Event>, turn: string) {
    exists e :: e in events && Mentions(e, turn)
  }

  lemma KnownGrows(init: seq<Event>, last: Event, turn: string)
    ensures Known(init + [last], turn) <==> Known(init, turn) || Mentions(last, turn)
  {
    if Known(init, turn) {
      var e :| e in init && Mentions(e, turn);
      assert e in init + [last];
    }
    if Mentions(last, turn) {
      assert last in init + [last];
    }
  }

  ghost predicate OnlyKnown(events: seq<Event>, t: Trace) {
    && (forall x :: x in t.feed.pending ==> x != "" && Known(events, x))
    && (forall x :: x in t.record ==> Known(events, x))
  }

  lemma {:induction false} RunInvariant(events: seq<Event>)
    requires FreshTurns(events)
    ensures SettledOk(Run(events)) && BuffersOk(Run(events).feed) && OnlyKnown(events, Run(events))
  {
    if events != [] {
      var init, last := events[..|events| - 1], events[|events| - 1];
      RunInvariant(init);
      assert events == init + [last];
      var t := Run(init);
      if last.Submit? {
        assert !Known(init, last.turn);
      }
      SettlingKeeps(t, last);
      BufferingKeeps(t.feed, last);
      KnowingKeeps(init, t, last);
    }
  }

  lemma SettlingKeeps(t: Trace, e: Event)
    requires SettledOk(t) && (e.Submit? ==> e.turn !in t.record)
    ensures SettledOk(Advance(t, e))
  {
    if Settles(t.feed, e).Some? {
      RememberIsNewest(t.record, e.turn);
    }
  }

  lemma BufferingKeeps(f: Feed, e: Event)
    requires BuffersOk(f)
    ensures BuffersOk(Next(f, e))
  {
  }

  lemma KnowingKeeps(init: seq<Event>, t: Trace, e: Event)
    requires OnlyKnown(init, t) && (e.Submit? ==> e.turn != "")
    ensures OnlyKnown(init + [e], Advance(t, e))
  {
    var u := Advance(t, e);
    forall x | x in u.feed.pending ensures x != "" && Known(init + [e], x) { KnownGrows(init, e, x); }
    forall x | x in u.record ensures Known(init + [e], x) { KnownGrows(init, e, x); }
  }

  // ----------------------------------------------------------- peer frames in order

  ghost predicate BelowHighWater(t: Trace) {
    forall i :: 0 <= i < |t.log| && t.log[i].emission.PeerFrame? ==>
      var m := t.log[i].emission.fragment; m.seq_ <= HighWater(t.feed, m.scope)
  }

  ghost predicate InOrder(a: Emission, b: Emission) {
    a.PeerFrame? && b.PeerFrame? && a.fragment.scope == b.fragment.scope ==> a.fragment.seq_ < b.fragment.seq_
  }

  ghost predicate PeersAscend(log: seq<Entry>) {
    forall i, j :: 0 <= i < j < |log| ==> InOrder(log[i].emission, log[j].emission)
  }

  /** Whatever happens, the peer frames shown for a scope have strictly increasing sequence numbers. */
  lemma {:induction false} PeerFramesAscend(events: seq<Event>)
    ensures PeersAscend(Run(events).log) && BelowHighWater(Run(events))
  {
    if events != [] {
      var init, last := events[..|events| - 1], events[|events| - 1];
      PeerFramesAscend(init);
      var t := Run(init);
      HighWaterRises(t.feed, last);
      if Emits(t.feed, last) != [] && Emits(t.feed, last)[0].PeerFrame? {
        PeerFrameIsNew(t, last);
      } else {
        assert forall m :: m in Emits(t.feed, last) ==> !m.PeerFrame?;
      }
    }
  }

  lemma HighWaterRises(f: Feed, e: Event)
    ensures forall scope :: HighWater(f, scope) <= HighWater(Next(f, e), scope)
  {
  }

  lemma PeerFrameIsNew(t: Trace, e: Event)
    requires BelowHighWater(t) && PeersAscend(t.log) && e.Frame? && Emits(t.feed, e) != []
    ensures PeersAscend(Advance(t, e).log) && BelowHighWater(Advance(t, e))
  {
    HighWaterRises(t.feed, e);
    var log := Advance(t, e).log;
    assert log == t.log + [Entry(PeerFrame(EchoOf(e.echo), FragmentOf(e)), |t.record|)];
  }

  // ------------------------------------------------------------ own turns, shown once

  /** An own entry was made in the very step that settled its turn. */
  ghost predicate OwnEntryOk(t: Trace, n: Entry) {
    (n.emission.OwnReply? || n.emission.OwnFrame?) ==>
      n.settledSoFar < |t.record| && t.record[n.settledSoFar] == n.emission.turn
  }

  /** A peer entry's turn was neither pending nor among the newest settled. */
  ghost predicate PeerEntryOk(events: seq<Event>, t: Trace, n: Entry) {
    (n.emission.PeerFrame? || n.emission.PeerLive?) && n.emission.echo.Some? ==>
      && n.settledSoFar <= |t.record|
      && n.emission.echo.value !in Newest(t.record[..n.settledSoFar], SETTLED_CAP)
      && n.emission.echo.value !in t.feed.pending
      && Known(events, n.emission.echo.value)
  }

  ghost predicate EntriesOk(events: seq<Event>, t: Trace) {
    forall n :: n in t.log ==> OwnEntryOk(t, n) && PeerEntryOk(events, t, n)
  }

  lemma EmittedOk(events: seq<Event>, t: Trace, e: Event, n: Entry)
    requires SettledOk(t) && n in Stamp(Emits(t.feed, e), |t.record|)
    requires forall x :: x in t.feed.pending ==> x != ""
    ensures OwnEntryOk(Advance(t, e), n) && PeerEntryOk(events + [e], Advance(t, e), n)
  {
    if (n.emission.PeerFrame? || n.emission.PeerLive?) && n.emission.echo.Some? {
      KnownGrows(events, e, n.emission.echo.value);
      assert t.record[..|t.record|] == t.record;
    }
  }

  lemma OlderOk(events: seq<Event>, t: Trace, e: Event, n: Entry)
    requires OwnEntryOk(t, n) && PeerEntryOk(events, t, n)
    requires e.Submit? ==> !Known(events, e.turn)
    ensures OwnEntryOk(Advance(t, e), n) && PeerEntryOk(events + [e], Advance(t, e), n)
  {
    if (n.emission.PeerFrame? || n.emission.PeerLive?) && n.emission.echo.Some? {
      KnownGrows(events, e, n.emission.echo.value);
      assert Advance(t, e).record[..n.settledSoFar] == t.record[..n.settledSoFar];
    }
  }

  lemma {:induction false} RunEntriesOk(events: seq<Event>)
    requires FreshTurns(events)
    ensures EntriesOk(events, Run(events))
  {
    if events != [] {
      var init, last := events[..|events| - 1], events[|events| - 1];
      RunEntriesOk(init);
      RunInvariant(init);
      assert events == init + [last];
      var t := Run(init);
      assert last.Submit? ==> !Known(init, last.turn);
      forall n | n in Run(events).log ensures OwnEntryOk(Run(events), n) && PeerEntryOk(events, Run(events), n) {
        if n in t.log { OlderOk(init, t, last, n); } else { EmittedOk(init, t, last, n); }
      }
    }
  }

  /** Entries of one turn: a reply alone or frames only, and peers strictly after. */
  ghost predicate PairOk(log: seq<Entry>, i: int, j: int)
    requires 0 <= i < j < |log|
  {
    var a, b := log[i].emission, log[j].emission;
    && ((a.OwnReply? || a.OwnFrame?) && OwnOf(b, a.turn) ==> a.OwnFrame? && b.OwnFrame?)
    && ((b.OwnReply? || b.OwnFrame?) ==> !PeerOf(a, b.turn))
  }

  /** A pair of which the later entry is new. */
  lemma NewPairOk(init: seq<Event>, t: Trace, e: Event, i: nat, j: nat)
    requires SettledOk(t) && OnlyKnown(init, t) && EntriesOk(init, t)
    requires i < j < |Advance(t, e).log| && |t.log| <= j
    ensures PairOk(Advance(t, e).log, i, j)
  {
    var log, old_ := Advance(t, e).log, |t.log|;
    EmissionFrom(t.feed, e, j - old_);
    if i < old_ {
      assert log[i] == t.log[i] && t.log[i] in t.log;
    } else {
      EmissionFrom(t.feed, e, i - old_);
    }
  }

  lemma {:induction false} RunPairsOk(events: seq<Event>)
    requires FreshTurns(events)
    ensures forall i, j :: 0 <= i < j < |Run(events).log| ==> PairOk(Run(events).log, i, j)
  {
    if events != [] {
      var init, last := events[..|events| - 1], events[|events| - 1];
      RunPairsOk(init);
      RunInvariant(init);
      RunEntriesOk(init);
      var t := Run(init);
      forall i, j | 0 <= i < j < |Run(events).log| ensures PairOk(Run(events).log, i, j) {
        if j < |t.log| {
          assert PairOk(t.log, i, j);
        } else {
          NewPairOk(init, t, last, i, j);
        }
      }
    }
  }

  /** An own emission is for a turn that was pending, and a batch of several is frames. */
  lemma EmissionFrom(f: Feed, e: Event, i: nat)
    requires i < |Emits(f, e)|
    ensures var m := Emits(f, e)[i];
            && (m.OwnReply? || m.OwnFrame? ==> m.turn in f.pending && (e.Reply? || e.Lost?) && m.turn == e.turn)
            && (|Emits(f, e)| > 1 ==> m.OwnFrame?)
  {
  }

  /**
   * An own turn is shown from its reply or from its frames, never both; and one
   * of its frames comes through as peer traffic afterwards only once the turn is
   * no longer among the 256 most recently settled.
   */
  lemma OwnTurnShownOnce(events: seq<Event>, i: nat, j: nat)
    requires FreshTurns(events) && i < |Run(events).log| && j < |Run(events).log| && i != j
    requires var m := Run(events).log[i].emission; m.OwnReply? || m.OwnFrame?
    ensures var t := Run(events);
            var turn, other := t.log[i].emission.turn, t.log[j];
            && (OwnOf(other.emission, turn) ==> t.log[i].emission.OwnFrame? && other.emission.OwnFrame?)
            && (PeerOf(other.emission, turn) ==>
                  && i < j && other.settledSoFar <= |t.record|
                  && turn !in Newest(t.record[..other.settledSoFar], SETTLED_CAP))
  {
    RunPairsOk(events);
    RunEntriesOk(events);
    var log := Run(events).log;
    assert log[i] in log && log[j] in log;
    if i < j { assert PairOk(log, i, j); } else { assert PairOk(log, j, i); }
  }

  // -------------------------------------------------- buffered frames, from history

  /** The greatest sequence number a scope has shown, read off the events alone. */
  function Peak(events: seq<Event>, scope: string): int {
    if events == [] then 0
    else
      var before, last := Peak(events[..|events| - 1], scope), events[|events| - 1];
      if last.Frame? && last.scope == scope && scope != "" && last.at.Some? && last.at.value > before then last.at.value else before
  }

  /** The new frames that arrived for a turn. */
  function Arrived(events: seq<Event>, turn: string): seq<Fragment> {
    if events == [] then []
    else
      var init, last := events[..|events| - 1], events[|events| - 1];
      if last.Frame? && last.scope != "" && last.at.Some? && last.at.value > Peak(init, last.scope) && EchoOf(last.echo) == Some(turn)
      then Arrived(init, turn) + [FragmentOf(last)]
      else Arrived(init, turn)
  }

  lemma HighWaterStep(f: Feed, e: Event, scope: string)
    ensures HighWater(Next(f, e), scope) == if e.Frame? && e.scope == scope && Advances(f, e) then e.at.value else HighWater(f, scope)
  {
  }

  lemma {:induction false} HighWaterIsPeak(events: seq<Event>, scope: string)
    ensures HighWater(Run(events).feed, scope) == Peak(events, scope)
  {
    if events != [] {
      HighWaterIsPeak(events[..|events| - 1], scope);
      HighWaterStep(Run(events[..|events| - 1]).feed, events[|events| - 1], scope);
    }
  }

  lemma {:induction false} NothingArrived(events: seq<Event>, turn: string)
    requires !Known(events, turn)
    ensures Arrived(events, turn) == []
  {
    if events != [] {
      var init, last := events[..|events| - 1], events[|events| - 1];
      assert events == init + [last];
      KnownGrows(init, last, turn);
      NothingArrived(init, turn);
    }
  }

  /** A pending turn's buffer is exactly what has arrived for it. */
  lemma {:induction false} BufferIsArrived(events: seq<Event>, turn: string)
    requires FreshTurns(events) && turn in Run(events).feed.pending
    ensures BufferOf(Run(events).feed, turn) == Arrived(events, turn)
  {
    var init, last := events[..|events| - 1], events[|events| - 1];
    var t := Run(init);
    RunInvariant(init);
    if last.Submit? && last.turn == turn {
      assert !Known(init, turn);
      NothingArrived(init, turn);
    } else {
      BufferIsArrived(init, turn);
      if last.Frame? { HighWaterIsPeak(init, last.scope); }
      assert turn !in t.record;
    }
  }

  /**
   * What settlement shows: a reply with observations alone; any other end of the
   * turn, exactly the new frames that arrived for it while it was pending, in
   * order. Buffers exist for pending turns only.
   */
  lemma SettlementShows(events: seq<Event>, e: Event)
    requires FreshTurns(events) && (e.Reply? || e.Lost?) && e.turn in Run(events).feed.pending
    ensures Emits(Run(events).feed, e) ==
            if e.Reply? && e.accepted && e.observations != [] then [OwnReply(e.turn, e.scope, e.at, e.observations)]
            else OwnFrames(e.turn, Arrived(events, e.turn))
    ensures e.turn !in Next(Run(events).feed, e).buffers
    ensures BuffersOk(Run(events).feed)
  {
    BufferIsArrived(events, e.turn);
    RunInvariant(events);
  }

  // ------------------------------------------------------ the fate of every new frame

  /** What becomes of a frame: it is never shown, waits for its turn to end, or has been shown. */
  datatype Fate = Dropped | Held(turn: string) | Shown

  predicate FragmentAt(m: Emission, scope: string, at: int) {
    (m.OwnFrame? || m.PeerFrame?) && m.fragment.scope == scope && m.fragment.seq_ == at
  }

  ghost predicate Shows(log: seq<Entry>, scope: string, at: int) {
    exists n :: n in log && FragmentAt(n.emission, scope, at)
  }

  ghost predicate Carries(fragments: seq<Fragment>, scope: string, at: int) {
    exists x :: x in fragments && x.scope == scope && x.seq_ == at
  }

  ghost predicate HasFate(t: Trace, scope: string, at: int, fate: Fate) {
    match fate
    case Shown => Shows(t.log, scope, at)
    case Dropped => !Shows(t.log, scope, at) && forall turn :: !Carries(BufferOf(t.feed, turn), scope, at)
    case Held(holder) =>
      && !Shows(t.log, scope, at) && holder in t.feed.pending
      && forall turn :: Carries(BufferOf(t.feed, turn), scope, at) <==> turn == holder
  }

  function FirstFate(f: Feed, e: Event): Fate
    requires e.Frame? && e.at.Some?
  {
    if Settled(f, e.echo) then Dropped
    else if Pending(f, e.echo) then Held(EchoOf(e.echo).value)
    else if (e.scope, e.at.value) in f.selfSettled then Dropped
    else Shown
  }

  predicate Ends(e: Event, turn: string) {
    (e.Reply? || e.Lost?) && e.turn == turn
  }

  /** An accepted reply with observations of its own makes the buffered frames superfluous. */
  predicate Supersedes(e: Event) {
    e.Reply? && e.accepted && e.observations != []
  }

  function NextFate(fate: Fate, e: Event): Fate {
    if fate.Held? && Ends(e, fate.turn) then (if Supersedes(e) then Dropped else Shown) else fate
  }

  lemma LogGrows(log: seq<Entry>, emissions: seq<Emission>, n: nat, scope: string, at: int)
    ensures Shows(log + Stamp(emissions, n), scope, at) <==>
            Shows(log, scope, at) || exists m :: m in emissions && FragmentAt(m, scope, at)
  {
    var more := Stamp(emissions, n);
    if m :| m in emissions && FragmentAt(m, scope, at) {
      var i :| 0 <= i < |emissions| && emissions[i] == m;
      assert more[i] in log + more;
    }
    if x :| x in log && FragmentAt(x.emission, scope, at) { assert x in log + more; }
  }

  lemma OwnFramesShow(turn: string, fragments: seq<Fragment>, scope: string, at: int)
    ensures (exists m :: m in OwnFrames(turn, fragments) && FragmentAt(m, scope, at)) <==> Carries(fragments, scope, at)
  {
    if x :| x in fragments && x.scope == scope && x.seq_ == at {
      var i :| 0 <= i < |fragments| && fragments[i] == x;
      assert OwnFrames(turn, fragments)[i] in OwnFrames(turn, fragments);
    }
  }

  lemma CarriesSnoc(fragments: seq<Fragment>, x: Fragment, scope: string, at: int)
    ensures Carries(fragments + [x], scope, at) <==> Carries(fragments, scope, at) || (x.scope == scope && x.seq_ == at)
  {
    if y :| y in fragments && y.scope == scope && y.seq_ == at { assert y in fragments + [x]; }
    assert x in fragments + [x];
  }

  lemma NothingCarried(scope: string, at: int)
    ensures !Carries([], scope, at)
  {
  }

  /** What an event makes of a buffer, for frames seen before. */
  lemma BufferStep(f: Feed, e: Event, turn: string, scope: string, at: int)
    requires at <= HighWater(f, scope)
    ensures Carries(BufferOf(Next(f, e), turn), scope, at) <==>
            Carries(BufferOf(f, turn), scope, at) && !(Ends(e, turn) && turn in f.pending)
  {
    NothingCarried(scope, at);
    if e.Frame? && Advances(f, e) && Pending(f, e.echo) && EchoOf(e.echo).value == turn {
      CarriesSnoc(BufferOf(f, turn), FragmentOf(e), scope, at);
    }
  }

  /** What an event shows, of frames seen before. */
  lemma EmissionStep(f: Feed, e: Event, scope: string, at: int)
    requires at <= HighWater(f, scope)
    ensures (exists m :: m in Emits(f, e) && FragmentAt(m, scope, at)) <==>
            (e.Reply? || e.Lost?) && e.turn in f.pending && !Supersedes(e) && Carries(BufferOf(f, e.turn), scope, at)
  {
    if e.Reply? || e.Lost? { OwnFramesShow(e.turn, BufferOf(f, e.turn), scope, at); }
  }

  lemma FateStep(t: Trace, e: Event, scope: string, at: int, fate: Fate)
    requires HasFate(t, scope, at, fate) && at <= HighWater(t.feed, scope)
    ensures HasFate(Advance(t, e), scope, at, NextFate(fate, e))
  {
    LogGrows(t.log, Emits(t.feed, e), |t.record|, scope, at);
    EmissionStep(t.feed, e, scope, at);
    forall turn
      ensures Carries(BufferOf(Next(t.feed, e), turn), scope, at) <==>
              Carries(BufferOf(t.feed, turn), scope, at) && !(Ends(e, turn) && turn in t.feed.pending)
    {
      BufferStep(t.feed, e, turn, scope, at);
    }
    if fate.Held? && !Ends(e, fate.turn) { StaysPending(t.feed, e, fate.turn); }
  }

  lemma StaysPending(f: Feed, e: Event, turn: string)
    requires turn in f.pending && !Ends(e, turn)
    ensures turn in Next(f, e).pending
  {
  }

  /** Nothing above a scope's high-water has been shown or buffered. */
  ghost predicate AllSeen(t: Trace) {
    forall scope, at :: at > HighWater(t.feed, scope) ==> HasFate(t, scope, at, Dropped)
  }

  lemma {:induction false} RunSeen(events: seq<Event>)
    ensures AllSeen(Run(events))
  {
    if events != [] {
      var t, last := Run(events[..|events| - 1]), events[|events| - 1];
      RunSeen(events[..|events| - 1]);
      HighWaterRises(t.feed, last);
      forall scope, at | at > HighWater(Run(events).feed, scope)
        ensures HasFate(Run(events), scope, at, Dropped)
      {
        AboveStaysUnseen(t, last, scope, at);
      }
    } else {
      forall scope, at ensures HasFate(Run(events), scope, at, Dropped) { NothingCarried(scope, at); }
    }
  }

  lemma AboveStaysUnseen(t: Trace, e: Event, scope: string, at: int)
    requires HasFate(t, scope, at, Dropped) && at > HighWater(Next(t.feed, e), scope)
    ensures HasFate(Advance(t, e), scope, at, Dropped)
  {
    LogGrows(t.log, Emits(t.feed, e), |t.record|, scope, at);
    UnseenEmission(t.feed, e, scope, at);
    forall turn ensures !Carries(BufferOf(Next(t.feed, e), turn), scope, at) {
      UnseenBuffer(t.feed, e, turn, scope, at);
    }
  }

  lemma UnseenBuffer(f: Feed, e: Event, turn: string, scope: string, at: int)
    requires !Carries(BufferOf(f, turn), scope, at) && at > HighWater(Next(f, e), scope)
    ensures !Carries(BufferOf(Next(f, e), turn), scope, at)
  {
    NothingCarried(scope, at);
    if e.Frame? && Advances(f, e) && Pending(f, e.echo) && EchoOf(e.echo).value == turn {
      CarriesSnoc(BufferOf(f, turn), FragmentOf(e), scope, at);
    }
  }

  lemma UnseenEmission(f: Feed, e: Event, scope: string, at: int)
    requires (forall turn :: !Carries(BufferOf(f, turn), scope, at)) && at > HighWater(Next(f, e), scope)
    ensures forall m :: m in Emits(f, e) ==> !FragmentAt(m, scope, at)
  {
    if e.Reply? || e.Lost? { OwnFramesShow(e.turn, BufferOf(f, e.turn), scope, at); }
  }

  /** A new frame is shown at once exactly if that is its first fate. */
  lemma FirstShown(f: Feed, e: Event)
    requires Advances(f, e)
    ensures (exists m :: m in Emits(f, e) && FragmentAt(m, e.scope, e.at.value)) <==> FirstFate(f, e).Shown?
  {
    if FirstFate(f, e).Shown? {
      var m := PeerFrame(EchoOf(e.echo), FragmentOf(e));
      assert m in Emits(f, e) && FragmentAt(m, e.scope, e.at.value);
    }
  }

  lemma FateStarts(t: Trace, e: Event)
    requires Advances(t.feed, e) && HasFate(t, e.scope, e.at.value, Dropped)
    ensures HasFate(Advance(t, e), e.scope, e.at.value, FirstFate(t.feed, e))
  {
    var scope, at := e.scope, e.at.value;
    LogGrows(t.log, Emits(t.feed, e), |t.record|, scope, at);
    FirstShown(t.feed, e);
    forall turn
      ensures Carries(BufferOf(Next(t.feed, e), turn), scope, at) <==> FirstFate(t.feed, e) == Held(turn)
    {
      CarriesSnoc(BufferOf(t.feed, turn), FragmentOf(e), scope, at);
    }
  }

  /** The first event after index `n` that ends a turn. */
  function EndAfter(events: seq<Event>, n: nat, turn: string): Option<Event> {
    if |events| <= n + 1 then None
    else
      var before := EndAfter(events[..|events| - 1], n, turn);
      if before.None? && Ends(events[|events| - 1], turn) then Some(events[|events| - 1]) else before
  }

  /** The fate of the frame at index `n`, as the events so far have it. */
  function FateOf(f: Feed, events: seq<Event>, n: nat): Fate
    requires n < |events| && events[n].Frame? && events[n].at.Some?
  {
    var first := FirstFate(f, events[n]);
    if !first.Held? then first
    else
      var end := EndAfter(events, n, first.turn);
      if end.None? then first else if Supersedes(end.value) then Dropped else Shown
  }

  lemma {:induction false} RunHasFate(events: seq<Event>, n: nat)
    requires n < |events| && Advances(Run(events[..n]).feed, events[n])
    ensures events[n].at.value <= HighWater(Run(events).feed, events[n].scope)
    ensures HasFate(Run(events), events[n].scope, events[n].at.value, FateOf(Run(events[..n]).feed, events, n))
    decreases |events|
  {
    var init, last := events[..|events| - 1], events[|events| - 1];
    if n == |events| - 1 {
      assert events[..n] == init;
      RunSeen(init);
      FateStarts(Run(init), last);
    } else {
      assert events[..n] == init[..n] && init[n] == events[n];
      RunHasFate(init, n);
      HighWaterRises(Run(init).feed, last);
      FateStep(Run(init), last, events[n].scope, events[n].at.value, FateOf(Run(events[..n]).feed, init, n));
    }
  }

  /** The frame at index `n` arrives for a turn among the newest settled. */
  ghost predicate LateFor(events: seq<Event>, n: nat)
    requires n < |events| && events[n].Frame?
  {
    EchoOf(events[n].echo).Some? && EchoOf(events[n].echo).value in Newest(Run(events[..n]).record, SETTLED_CAP)
  }

  lemma {:induction false} FreshPrefix(events: seq<Event>, n: nat)
    requires FreshTurns(events) && n <= |events|
    ensures FreshTurns(events[..n])
    decreases |events|
  {
    if n == |events| {
      assert events[..n] == events;
    } else {
      assert events[..n] == events[..|events| - 1][..n];
      FreshPrefix(events[..|events| - 1], n);
    }
  }

  /**
   * Which new frames are not shown: those that arrive for a turn among the 256
   * newest settled; those buffered for a turn that is still pending or ended in
   * an accepted reply with observations; and those of no such turn whose place is
   * among the settled ones. Every other new frame is shown.
   */
  lemma NotShownExactly(events: seq<Event>, n: nat)
    requires FreshTurns(events) && n < |events| && Advances(Run(events[..n]).feed, events[n])
    ensures var f, e := Run(events[..n]).feed, events[n];
            !Shows(Run(events).log, e.scope, e.at.value) <==>
            || LateFor(events, n)
            || (Pending(f, e.echo) && var end := EndAfter(events, n, EchoOf(e.echo).value); end.None? || Supersedes(end.value))
            || (!LateFor(events, n) && !Pending(f, e.echo) && (e.scope, e.at.value) in f.selfSettled)
  {
    FreshPrefix(events, n);
    RunInvariant(events[..n]);
    RunHasFate(events, n);
    NewestAreSettled(Run(events[..n]).record);
  }

  lemma NewestAreSettled(record: seq<string>)
    ensures forall x :: x in Newest(record, SETTLED_CAP) ==> x in record
  {
  }

  /** An accepted reply without observations, and then a frame of the turn: nothing is ever shown of it. */
  lemma LateFrameIsLost(turn: string, scope: string, observations: seq<Observation>)
    requires turn != "" && scope != ""
    ensures var events := [Submit(turn), Reply(turn, true, "", None, []), Frame(scope, Some(1), Some(turn), observations)];
            FreshTurns(events) && Run(events).log == []
  {
    var a := [Submit(turn)];
    var b := a + [Reply(turn, true, "", None, [])];
    var c := b + [Frame(scope, Some(1), Some(turn), observations)];
    assert a[..0] == [] && b[..1] == a && c[..2] == b;
    assert Run([]) == Trace(Init(), [], []) && FreshTurns([]);
    assert Run(a).feed.pending == {turn} && Run(a).log == [] && FreshTurns(a);
    assert Without([], turn) == [] && [] + [turn] == [turn];
    assert Run(b).feed.settled == [turn] && Run(b).log == [] && FreshTurns(b);
    assert c == [Submit(turn), Reply(turn, true, "", None, []), Frame(scope, Some(1), Some(turn), observations)];
  }

  // ------------------------------------------------------------- live frames, shown or not

  /** Submitted, and neither answered nor lost since. */
  ghost predicate Awaited(events: seq<Event>, turn: string) {
    exists i :: 0 <= i < |events| && AwaitedFrom(events, turn, i)
  }

  ghost predicate AwaitedFrom(events: seq<Event>, turn: string, i: int)
    requires 0 <= i < |events|
  {
    events[i] == Submit(turn) && forall j :: i < j < |events| ==> !((events[j].Reply? || events[j].Lost?) && events[j].turn == turn)
  }

  lemma AwaitedSnoc(init: seq<Event>, last: Event, turn: string)
    ensures Awaited(init + [last], turn) <==>
            last == Submit(turn) || (Awaited(init, turn) && !((last.Reply? || last.Lost?) && last.turn == turn))
  {
    var events := init + [last];
    assert events[|init|] == last && forall j :: 0 <= j < |init| ==> events[j] == init[j];
    if last == Submit(turn) {
      assert AwaitedFrom(events, turn, |init|);
    } else if Awaited(init, turn) && !((last.Reply? || last.Lost?) && last.turn == turn) {
      var i :| 0 <= i < |init| && AwaitedFrom(init, turn, i);
      assert AwaitedFrom(events, turn, i);
    }
    if Awaited(events, turn) && last != Submit(turn) {
      var i :| 0 <= i < |events| && AwaitedFrom(events, turn, i);
      assert AwaitedFrom(init, turn, i);
    }
  }

  lemma {:induction false} PendingIsAwaited(events: seq<Event>, turn: string)
    ensures turn in Run(events).feed.pending <==> Awaited(events, turn)
  {
    if events != [] {
      var init, last := events[..|events| - 1], events[|events| - 1];
      assert events == init + [last];
      PendingIsAwaited(init, turn);
      AwaitedSnoc(init, last, turn);
    }
  }

  lemma {:induction false} SettledWereSubmitted(events: seq<Event>, turn: string)
    ensures turn in Run(events).record ==> Submit(turn) in events
  {
    if events != [] {
      var init, last := events[..|events| - 1], events[|events| - 1];
      assert events == init + [last];
      SettledWereSubmitted(init, turn);
      PendingIsAwaited(init, turn);
      if Awaited(init, turn) {
        var i :| 0 <= i < |init| && AwaitedFrom(init, turn, i);
        assert init[i] in events;
      }
    }
  }

  /** The turn is awaited or among the 256 newest settled. */
  ghost predicate Ours(events: seq<Event>, turn: string) {
    Awaited(events, turn) || turn in Newest(Run(events).record, SETTLED_CAP)
  }

  lemma OursExactly(events: seq<Event>, turn: string)
    requires FreshTurns(events)
    ensures Ours(events, turn) <==> turn in Run(events).feed.pending || turn in Run(events).feed.settled
    ensures Ours(events, turn) ==> turn != ""
  {
    RunInvariant(events);
    PendingIsAwaited(events, turn);
    if turn == "" {
      NoEmptyTurn(events);
      NewestAreSettled(Run(events).record);
    }
  }

  lemma LiveAdvances(t: Trace, scope: string, echo: Option<string>, observations: seq<Observation>, ours: bool)
    requires ours <==> echo.Some? && (echo.value in t.feed.pending || echo.value in t.feed.settled)
    requires ours ==> echo != Some("")
    ensures Advance(t, LiveFrame(scope, echo, observations)).log ==
            if scope == "" || ours then t.log
            else t.log + [Entry(PeerLive(EchoOf(echo), scope, observations), |t.record|)]
  {
    assert Stamp([], |t.record|) == [];
  }

  /**
   * A live frame is shown as peer traffic, at once, exactly if it has a scope
   * and does not name a turn that is awaited or among the 256 newest settled.
   */
  lemma LiveShownExactly(events: seq<Event>, scope: string, echo: Option<string>, observations: seq<Observation>)
    requires FreshTurns(events)
    ensures var t := Run(events);
            Run(events + [LiveFrame(scope, echo, observations)]).log ==
            if scope == "" || (echo.Some? && Ours(events, echo.value)) then t.log
            else t.log + [Entry(PeerLive(EchoOf(echo), scope, observations), |t.record|)]
  {
    var e := LiveFrame(scope, echo, observations);
    if echo.Some? { OursExactly(events, echo.value); }
    assert (events + [e])[..|events|] == events;
    LiveAdvances(Run(events), scope, echo, observations, echo.Some? && Ours(events, echo.value));
  }

  lemma NoEmptyTurn(events: seq<Event>)
    requires FreshTurns(events)
    ensures !Awaited(events, "") && "" !in Run(events).record
  {
    SettledWereSubmitted(events, "");
    NoEmptySubmit(events);
  }

  lemma {:induction false} NoEmptySubmit(events: seq<Event>)
    requires FreshTurns(events)
    ensures Submit("") !in events
  {
    if events != [] {
      NoEmptySubmit(events[..|events| - 1]);
      assert events == events[..|events| - 1] + [events[|events| - 1]];
    }
  }

  /** Another's live frame is always shown: nothing hides one that names no turn of ours. */
  lemma ForeignLiveIsShown(events: seq<Event>, scope: string, echo: Option<string>, observations: seq<Observation>)
    requires FreshTurns(events) && scope != "" && (echo.Some? ==> Submit(echo.value) !in events)
    ensures Run(events + [LiveFrame(scope, echo, observations)]).log ==
            Run(events).log + [Entry(PeerLive(EchoOf(echo), scope, observations), |Run(events).record|)]
  {
    LiveShownExactly(events, scope, echo, observations);
    NewestAreSettled(Run(events).record);
    if echo.Some? {
      SettledWereSubmitted(events, echo.value);
    }
  }

  // ------------------------------------------- frames of replies, without an echo id

  /** `x` is among the `n` newest of a list. */
  ghost predicate AmongNewest<T(!new)>(list: seq<T>, x: T, n: nat) {
    exists i :: 0 <= i < |list| && |list| - n <= i && list[i] == x
  }

  lemma {:induction false} WithoutKeepsPlace(list: seq<(string, int)>, x: (string, int), y: (string, int), n: nat)
    requires AmongNewest(list, x, n) && x != y
    ensures AmongNewest(Without(list, y), x, n)
  {
    var init, last := list[..|list| - 1], list[|list| - 1];
    var i :| 0 <= i < |list| && |list| - n <= i && list[i] == x;
    var rest := Without(init, y);
    if last == x {
      assert (rest + [last])[|rest|] == x;
    } else {
      assert init[i] == x && AmongNewest(init, x, n - 1);
      WithoutKeepsPlace(init, x, y, n - 1);
      var j :| 0 <= j < |rest| && |rest| - (n - 1) <= j && rest[j] == x;
      assert (rest + [last])[j] == x && rest[j] == x;
    }
  }

  /** Remembering something else ages an entry by at most one place. */
  lemma RememberAges(list: seq<(string, int)>, x: (string, int), y: (string, int), n: nat)
    requires AmongNewest(list, x, n) && n < SETTLED_CAP
    ensures AmongNewest(Remember(list, y), x, n + 1)
  {
    var all := Without(list, y) + [y];
    if x == y {
      assert all[|all| - 1] == x;
      assert Newest(all, SETTLED_CAP)[|Newest(all, SETTLED_CAP)| - 1] == x;
    } else {
      WithoutKeepsPlace(list, x, y, n);
      var kept := Without(list, y);
      var i :| 0 <= i < |kept| && |kept| - n <= i && kept[i] == x;
      var newest := Newest(all, SETTLED_CAP);
      assert newest[i - (|all| - |newest|)] == x;
    }
  }

  lemma {:induction false} PairStays(f: Feed, more: seq<Event>, x: (string, int))
    requires AmongNewest(f.selfSettled, x, 1) && |more| < SETTLED_CAP
    ensures AmongNewest(After(f, more).selfSettled, x, |more| + 1)
  {
    if more != [] {
      var init, last := more[..|more| - 1], more[|more| - 1];
      PairStays(f, init, x);
      var before := After(f, init).selfSettled;
      var i :| 0 <= i < |before| && |before| - (|init| + 1) <= i && before[i] == x;
      assert AmongNewest(before, x, |more| + 1);
      if After(f, more).selfSettled != before {
        var y :| After(f, more).selfSettled == Remember(before, y);
        RememberAges(before, x, y, |init| + 1);
      }
    }
  }

  /** The feed after further events. */
  function After(f: Feed, events: seq<Event>): Feed
    decreases |events|
  {
    if events == [] then f else Next(After(f, events[..|events| - 1]), events[|events| - 1])
  }

  /**
   * Gateways that send no echo ids are covered by position: for the next 255
   * events, a frame at the scope and number of an accepted reply is not shown.
   */
  lemma ReplyGuardsItsFrame(f: Feed, reply: Event, more: seq<Event>, frame: Event)
    requires reply.Reply? && reply.accepted && reply.turn in f.pending && reply.scope != "" && reply.at.Some?
    requires |more| < SETTLED_CAP && frame.Frame? && frame.scope == reply.scope && frame.at == reply.at
    ensures Emits(After(Next(f, reply), more), frame) == []
  {
    var x := (reply.scope, reply.at.value);
    var list := Next(f, reply).selfSettled;
    assert list[|list| - 1] == x;
    PairStays(Next(f, reply), more, x);
  }

  // ------------------------------------------------------------------ the live feed

  /** Put an item last in a bounded recency set, dropping the oldest while it is too big. */
  method RememberNewest<T(==)>(list: seq<T>, x: T) returns (newest: seq<T>)
    ensures newest == Remember(list, x)
  {
    newest := Without(list, x) + [x];
    ghost var all := newest;
    ghost var dropped := 0;
    while |newest| > SETTLED_CAP
      invariant 0 <= dropped <= |all| && newest == all[dropped..]
      invariant |all| > SETTLED_CAP ==> |newest| >= SETTLED_CAP
      invariant |all| <= SETTLED_CAP ==> dropped == 0
    {
      newest := newest[1..];
      dropped := dropped + 1;
    }
  }

  /** The feed's fields, updated in place by the events it receives. */
  class NetFeed {
    var pending: set<string>
    var pendingSelfFrames: map<string, seq<Fragment>>
    var frameSeen: map<string, int>
    var selfSettled: seq<(string, int)>
    var settledEchoIds: seq<string>

    ghost function View(): Feed
      reads this
    {
      Feed(pending, pendingSelfFrames, frameSeen, selfSettled, settledEchoIds)
    }

    constructor ()
      ensures View() == Init()
    {
      pending, pendingSelfFrames, frameSeen, selfSettled, settledEchoIds := {}, map[], map[], [], [];
    }

    method SubmitTurn(turn: string)
      modifies this
      ensures View() == Next(old(View()), Submit(turn))
    {
      pending := pending + {turn};
    }

    method TakeBuffered(turn: string) returns (buffered: seq<Fragment>)
      modifies this`pendingSelfFrames
      ensures buffered == BufferOf(old(View()), turn)
      ensures pendingSelfFrames == old(pendingSelfFrames) - {turn}
    {
      buffered := if turn in pendingSelfFrames then pendingSelfFrames[turn] else [];
      pendingSelfFrames := pendingSelfFrames - {turn};
    }

    /** A reply settles a pending turn, accepted or rejected. */
    method SettleTurn(turn: string, accepted: bool, scope: string, at: Option<int>, observations: seq<Observation>)
      returns (emitted: seq<Emission>)
      modifies this
      ensures var e := Reply(turn, accepted, scope, at, observations);
              View() == Next(old(View()), e) && emitted == Emits(old(View()), e)
    {
      emitted := [];
      if turn !in pending { return; }
      var buffered := TakeBuffered(turn);
      if accepted {
        settledEchoIds := RememberNewest(settledEchoIds, turn);
        if scope != "" && at.Some? {
          selfSettled := RememberNewest(selfSettled, (scope, at.value));
        }
        if observations != [] {
          emitted := [OwnReply(turn, scope, at, observations)];
        } else {
          emitted := OwnFrames(turn, buffered);
        }
      } else if buffered != [] {
        settledEchoIds := RememberNewest(settledEchoIds, turn);
        emitted := OwnFrames(turn, buffered);
      }
      pending := pending - {turn};
    }

    /** The turn failed: what its frames brought is all there will be. */
    method FailTurn(turn: string) returns (emitted: seq<Emission>)
      modifies this
      ensures View() == Next(old(View()), Lost(turn)) && emitted == Emits(old(View()), Lost(turn))
    {
      emitted := [];
      if turn !in pending { return; }
      var buffered := TakeBuffered(turn);
      if buffered != [] {
        settledEchoIds := RememberNewest(settledEchoIds, turn);
        emitted := OwnFrames(turn, buffered);
      }
      pending := pending - {turn};
    }

    method HandleObservationsFrame(scope: string, at: Option<int>, echo: Option<string>, observations: seq<Observation>)
      returns (emitted: seq<Emission>)
      modifies this
      ensures var e := Frame(scope, at, echo, observations);
              View() == Next(old(View()), e) && emitted == Emits(old(View()), e)
    {
      emitted := [];
      if scope == "" || at.None? { return; }
      var seen := if scope in frameSeen then frameSeen[scope] else 0;
      if at.value <= seen { return; }
      frameSeen := frameSeen[scope := at.value];
      var echoId := EchoOf(echo);
      if echoId.Some? && echoId.value in settledEchoIds { return; }
      var fragment := Fragment(scope, at.value, observations);
      if echoId.Some? && echoId.value in pending {
        selfSettled := RememberNewest(selfSettled, (scope, at.value));
        var buffered := if echoId.value in pendingSelfFrames then pendingSelfFrames[echoId.value] else [];
        pendingSelfFrames := pendingSelfFrames[echoId.value := buffered + [fragment]];
        return;
      }
      if (scope, at.value) in selfSettled { return; }
      emitted := [PeerFrame(echoId, fragment)];
    }

    method HandleLiveObservationsFrame(scope: string, echo: Option<string>, observations: seq<Observation>)
      returns (emitted: seq<Emission>)
      ensures emitted == Emits(View(), LiveFrame(scope, echo, observations))
    {
      emitted := [];
      if scope == "" { return; }
      var echoId := EchoOf(echo);
      if echoId.Some? && (echoId.value in settledEchoIds || echoId.value in pending) { return; }
      emitted := [PeerLive(echoId, scope, observations)];
    }
  }
}
