/**
 * The worklist pass of the stack verifier (src/core/authoring.ts, verifyStackGraph),
 * over any control-flow graph whose edges carry operand-stack heights.
 */
module StackFlow {
  import opened Sets
  import opened Wrappers

  datatype Reason =
    | HeaderOutOfRange | UnknownOpcode | WrongArity | BadOperand | NotInstallable
    | StackUnderflow | MaxStackTooSmall | HandlerTooDeep | LeavesBounds | InconsistentJoin

  /** A program counter and the operand-stack height control arrives there with. */
  datatype Config = Config(pc: int, height: int)

  /** `fault` is the failure of processing a row at a height, `edges` where control goes if there is none. */
  datatype Graph = Graph(size: nat, limit: nat, fault: Config -> Option<Reason>, edges: Config -> seq<Config>)

  /** Edges never leave the height range. */
  ghost predicate Bounded(g: Graph) {
    forall c, e :: InCode(g, c) && g.fault(c).None? && e in g.edges(c) ==> 0 <= e.height <= g.limit
  }

  predicate InCode(g: Graph, c: Config) {
    0 <= c.pc < g.size
  }

  ghost predicate FlowEdge(g: Graph, c: Config, e: Config) {
    InCode(g, c) && g.fault(c).None? && e in g.edges(c)
  }

  /** A control-flow path from the program's entry. */
  ghost predicate Flow(g: Graph, path: seq<Config>) {
    && |path| > 0
    && if |path| == 1 then path[0] == Config(0, 0)
       else Flow(g, path[..|path| - 1]) && FlowEdge(g, path[|path| - 2], path[|path| - 1])
  }

  ghost predicate Reachable(g: Graph, c: Config) {
    exists path :: Flow(g, path) && path[|path| - 1] == c
  }

  ghost function Reached(g: Graph): iset<Config> {
    iset c | Reachable(g, c)
  }

  ghost predicate FaultAt(g: Graph, c: Config, reason: Reason) {
    if InCode(g, c) then g.fault(c) == Some(reason)
    else c.pc != g.size && reason == LeavesBounds
  }

  /** Two ways of reaching one row at different heights. */
  ghost predicate Conflict(g: Graph, reach: iset<Config>, pc: int) {
    exists c, d :: c in reach && d in reach && InCode(g, c) && c.pc == pc == d.pc && c.height != d.height
  }

  /** A rejection is explained by control flow that really exhibits it. */
  ghost predicate Explains(g: Graph, reach: iset<Config>, pc: int, reason: Reason) {
    || (reason == InconsistentJoin && Conflict(g, reach, pc))
    || exists c :: c in reach && c.pc == pc && FaultAt(g, c, reason)
  }

  ghost predicate StackSafe(g: Graph) {
    forall pc, reason :: !Explains(g, Reached(g), pc, reason)
  }

  /** A set of configurations closed under control flow from the entry. */
  ghost predicate FlowClosed(g: Graph, reach: iset<Config>) {
    Config(0, 0) in reach && forall c, e :: c in reach && FlowEdge(g, c, e) ==> e in reach
  }

  /** A height table closed under control flow: the certificate the pass produces. */
  ghost predicate Certifies(g: Graph, heights: map<int, int>) {
    && (g.size > 0 ==> 0 in heights && heights[0] == 0)
    && forall pc :: pc in heights ==>
         && 0 <= pc < g.size
         && 0 <= heights[pc] <= g.limit
         && Settled(g, heights, Config(pc, heights[pc]))
  }

  /** Every edge out of c is already in the table at the right height. */
  ghost predicate Settled(g: Graph, heights: map<int, int>, c: Config) {
    && InCode(g, c)
    && g.fault(c).None?
    && forall e :: e in g.edges(c) ==> Tabled(g, heights, e)
  }

  predicate Tabled(g: Graph, heights: map<int, int>, c: Config) {
    c.pc == g.size || (c.pc in heights && heights[c.pc] == c.height)
  }

  datatype Verdict = Accepted(heights: map<int, int>) | Rejected(pc: int, reason: Reason)

  // -------------------------------------------------------------- the stack pass

  /** The pass's state: the height table and the queue of rows still to process. */
  datatype Pass = Pass(heights: map<int, int>, work: seq<Config>)

  datatype Enqueued = Queued(pass: Pass) | Refused(reason: Reason)

  function Enqueue(g: Graph, pass: Pass, c: Config): Enqueued {
    if c.pc == g.size then Queued(pass)
    else if c.pc < 0 || c.pc > g.size then Refused(LeavesBounds)
    else if c.pc in pass.heights then
      if pass.heights[c.pc] != c.height then Refused(InconsistentJoin) else Queued(pass)
    else Queued(Pass(pass.heights[c.pc := c.height], pass.work + [c]))
  }

  /** Configurations in discovery order: one per row, all reachable, together the height table. */
  ghost predicate Discovered(g: Graph, reach: iset<Config>, heights: map<int, int>, order: seq<Config>) {
    && (forall c :: c in order ==>
          && InCode(g, c) && 0 <= c.height <= g.limit && c in reach
          && c.pc in heights && heights[c.pc] == c.height)
    && (forall pc :: pc in heights ==> Config(pc, heights[pc]) in order)
    && (forall i, j :: 0 <= i < j < |order| ==> order[i].pc != order[j].pc)
  }

  /** The first `done` discoveries have all their edges tabled; the queue is the rest. */
  ghost predicate PassInv(g: Graph, reach: iset<Config>, pass: Pass, order: seq<Config>, done: nat) {
    && done <= |order|
    && pass.work == order[done..]
    && Discovered(g, reach, pass.heights, order)
    && (forall i :: 0 <= i < done ==> Settled(g, pass.heights, order[i]))
  }

  lemma ReachedIsClosed(g: Graph)
    ensures FlowClosed(g, Reached(g))
  {
    assert Flow(g, [Config(0, 0)]);
    forall c, e | c in Reached(g) && FlowEdge(g, c, e) ensures e in Reached(g) {
      var path :| Flow(g, path) && path[|path| - 1] == c;
      assert (path + [e])[..|path|] == path;
      assert Flow(g, path + [e]);
    }
  }

  lemma {:induction false} FlowHeights(g: Graph, path: seq<Config>)
    requires Bounded(g) && Flow(g, path)
    ensures 0 <= path[|path| - 1].height <= g.limit
  {
    if |path| > 1 {
      assert FlowEdge(g, path[|path| - 2], path[|path| - 1]);
    }
  }

  lemma ReachedHeights(g: Graph, c: Config)
    requires Bounded(g) && c in Reached(g)
    ensures 0 <= c.height <= g.limit
  {
    var path :| Flow(g, path) && path[|path| - 1] == c;
    FlowHeights(g, path);
  }

  /** Queueing one reachable configuration keeps the table right, or explains the refusal. */
  lemma EnqueueStep(g: Graph, reach: iset<Config>, pass: Pass, order: seq<Config>, c: Config) returns (grown: seq<Config>)
    requires Discovered(g, reach, pass.heights, order)
    requires c in reach && 0 <= c.height <= g.limit
    ensures match Enqueue(g, pass, c)
            case Queued(next) =>
              && order <= grown && next.work == pass.work + grown[|order|..]
              && Discovered(g, reach, next.heights, grown)
              && Tabled(g, next.heights, c)
            case Refused(reason) => Explains(g, reach, c.pc, reason)
  {
    grown := order;
    match Enqueue(g, pass, c)
    case Refused(reason) =>
      if c.pc in pass.heights {
        assert Config(c.pc, pass.heights[c.pc]) in order;
        assert Conflict(g, reach, c.pc);
      } else {
        assert FaultAt(g, c, reason);
      }
    case Queued(next) =>
      if next != pass {
        grown := order + [c];
        assert forall pc :: pc in pass.heights ==> Config(pc, pass.heights[pc]) in grown;
      }
  }

  /** Rows never leave the table, so settled rows stay settled. */
  lemma SettledGrows(g: Graph, reach: iset<Config>, heights: map<int, int>, order: seq<Config>, grown: seq<Config>, heights': map<int, int>)
    requires Discovered(g, reach, heights, order) && Discovered(g, reach, heights', grown) && order <= grown
    ensures forall d :: Tabled(g, heights, d) ==> Tabled(g, heights', d)
    ensures forall d :: Settled(g, heights, d) ==> Settled(g, heights', d)
  {
    forall d | Tabled(g, heights, d) && d.pc != g.size ensures Tabled(g, heights', d) {
      assert Config(d.pc, heights[d.pc]) in order;
    }
  }

  /** There are at most as many discoveries as rows. */
  lemma DiscoveryBound(g: Graph, reach: iset<Config>, heights: map<int, int>, order: seq<Config>)
    requires Discovered(g, reach, heights, order)
    ensures |order| <= g.size
  {
    var visited := seq(|order|, i requires 0 <= i < |order| => order[i].pc);
    var range := seq(g.size, i => i);
    DistinctSize(visited);
    DistinctSize(range);
    assert forall v :: v in visited ==> range[v] == v;
    SubsetSize(set v | v in visited, set v | v in range);
  }

  lemma {:induction false} DistinctSize(s: seq<int>)
    requires forall i, j :: 0 <= i < j < |s| ==> s[i] != s[j]
    ensures |set v | v in s| == |s|
  {
    if s != [] {
      var init := s[..|s| - 1];
      DistinctSize(init);
      assert (set v | v in s) == (set v | v in init) + {s[|s| - 1]};
    }
  }

  /** Along every path a certificate knows the height. */
  lemma {:induction false} CertifiedFlow(g: Graph, heights: map<int, int>, path: seq<Config>)
    requires Certifies(g, heights) && Flow(g, path)
    ensures Tabled(g, heights, path[|path| - 1])
  {
    if |path| > 1 {
      var init := path[..|path| - 1];
      CertifiedFlow(g, heights, init);
      var c := init[|init| - 1];
      assert c == path[|path| - 2];
      assert Settled(g, heights, Config(c.pc, heights[c.pc]));
    }
  }

  /** A program with a certificate has no reachable fault and no conflicting join. */
  lemma CertifiedIsSafe(g: Graph, heights: map<int, int>)
    requires Certifies(g, heights)
    ensures StackSafe(g)
    ensures forall c :: Reachable(g, c) ==> Tabled(g, heights, c)
  {
    forall c | Reachable(g, c) ensures Tabled(g, heights, c) {
      var path :| Flow(g, path) && path[|path| - 1] == c;
      CertifiedFlow(g, heights, path);
    }
    forall c, reason | c in Reached(g) ensures !FaultAt(g, c, reason) {
      if c.pc != g.size {
        assert Settled(g, heights, Config(c.pc, heights[c.pc]));
      }
    }
  }

  /** Queue every edge of the row being processed; `order` grows by the rows found on the way. */
  method EnqueueEdges(g: Graph, ghost reach: iset<Config>, from: Config, start: Pass, ghost order: seq<Config>)
    returns (queued: Enqueued, pc: int, ghost grown: seq<Config>)
    requires Bounded(g) && FlowClosed(g, reach) && Discovered(g, reach, start.heights, order)
    requires from in reach && InCode(g, from) && g.fault(from).None?
    ensures queued.Refused? ==> Explains(g, reach, pc, queued.reason)
    ensures queued.Queued? ==>
              && order <= grown && queued.pass.work == start.work + grown[|order|..]
              && Discovered(g, reach, queued.pass.heights, grown)
              && Settled(g, queued.pass.heights, from)
  {
    var pass := start;
    var edges := g.edges(from);
    grown, pc := order, 0;
    for i := 0 to |edges|
      invariant order <= grown && pass.work == start.work + grown[|order|..]
      invariant Discovered(g, reach, pass.heights, grown)
      invariant forall k :: 0 <= k < i ==> Tabled(g, pass.heights, edges[k])
    {
      assert FlowEdge(g, from, edges[i]);
      ghost var next := EnqueueStep(g, reach, pass, grown, edges[i]);
      queued, pc := Enqueue(g, pass, edges[i]), edges[i].pc;
      if queued.Refused? {
        return;
      }
      SettledGrows(g, reach, pass.heights, grown, next, queued.pass.heights);
      assert next[|order|..] == grown[|order|..] + next[|grown|..];
      pass, grown := queued.pass, next;
    }
    queued := Queued(pass);
  }

  /** When the queue is empty the table certifies the program. */
  lemma EmptyQueueCertifies(g: Graph, reach: iset<Config>, pass: Pass, order: seq<Config>)
    requires PassInv(g, reach, pass, order, |order|) && Tabled(g, pass.heights, Config(0, 0))
    ensures Certifies(g, pass.heights)
    ensures forall c :: InCode(g, c) && c.pc in pass.heights && pass.heights[c.pc] == c.height ==> c in reach
  {
    forall pc | pc in pass.heights ensures Settled(g, pass.heights, Config(pc, pass.heights[pc])) {
      assert Config(pc, pass.heights[pc]) in order;
    }
  }

  /** Taking the head of the queue, with its edges queued, settles one more row. */
  lemma RowSettled(g: Graph, reach: iset<Config>, pass: Pass, order: seq<Config>, done: nat, next: Pass, grown: seq<Config>)
    requires PassInv(g, reach, pass, order, done) && done < |order|
    requires order <= grown && next.work == pass.work[1..] + grown[|order|..]
    requires Discovered(g, reach, next.heights, grown) && Settled(g, next.heights, order[done])
    ensures PassInv(g, reach, next, grown, done + 1) && |grown| <= g.size
    ensures forall d :: Tabled(g, pass.heights, d) ==> Tabled(g, next.heights, d)
  {
    SettledGrows(g, reach, pass.heights, order, grown, next.heights);
    DiscoveryBound(g, reach, next.heights, grown);
  }

  /** Queueing the entry starts the pass. */
  lemma PassStart(g: Graph, reach: iset<Config>) returns (order: seq<Config>)
    requires FlowClosed(g, reach)
    ensures var first := Enqueue(g, Pass(map[], []), Config(0, 0));
            first.Queued? && PassInv(g, reach, first.pass, order, 0) && |order| <= g.size
            && Tabled(g, first.pass.heights, Config(0, 0))
  {
    order := EnqueueStep(g, reach, Pass(map[], []), [], Config(0, 0));
    var first := Enqueue(g, Pass(map[], []), Config(0, 0));
    DiscoveryBound(g, reach, first.pass.heights, order);
  }

  /** The head of the queue is a reachable row; its fault explains a rejection. */
  lemma HeadRow(g: Graph, reach: iset<Config>, pass: Pass, order: seq<Config>, done: nat)
    requires PassInv(g, reach, pass, order, done) && |pass.work| > 0
    ensures done < |order| && pass.work[0] == order[done] && order[done] in reach && InCode(g, order[done])
    ensures g.fault(order[done]).Some? ==> Explains(g, reach, order[done].pc, g.fault(order[done]).value)
  {
    assert order[done] in order;
    if g.fault(order[done]).Some? {
      assert FaultAt(g, order[done], g.fault(order[done]).value);
    }
  }

  /** Process the head of the queue: check the row, then queue its edges. */
  method ProcessHead(g: Graph, ghost reach: iset<Config>, pass: Pass, ghost order: seq<Config>, ghost done: nat)
    returns (queued: Enqueued, pc: int, ghost grown: seq<Config>)
    requires Bounded(g) && FlowClosed(g, reach)
    requires PassInv(g, reach, pass, order, done) && |pass.work| > 0
    ensures queued.Refused? ==> Explains(g, reach, pc, queued.reason)
    ensures queued.Queued? ==>
              && PassInv(g, reach, queued.pass, grown, done + 1) && order <= grown && |grown| <= g.size
              && (Tabled(g, pass.heights, Config(0, 0)) ==> Tabled(g, queued.pass.heights, Config(0, 0)))
  {
    var c := pass.work[0];
    HeadRow(g, reach, pass, order, done);
    if g.fault(c).Some? {
      return Refused(g.fault(c).value), c.pc, order;
    }
    queued, pc, grown := EnqueueEdges(g, reach, c, Pass(pass.heights, pass.work[1..]), order);
    if queued.Queued? {
      RowSettled(g, reach, pass, order, done, queued.pass, grown);
    }
  }

  /** The queue loop: a certificate, or a rejection that control flow explains. */
  method RunPass(g: Graph, ghost reach: iset<Config>) returns (verdict: Verdict, ghost visited: seq<Config>)
    requires Bounded(g) && FlowClosed(g, reach)
    ensures verdict.Accepted? ==>
              && Certifies(g, verdict.heights)
              && forall c :: InCode(g, c) && c.pc in verdict.heights && verdict.heights[c.pc] == c.height ==> c in reach
    ensures verdict.Rejected? ==> Explains(g, reach, verdict.pc, verdict.reason)
    ensures (forall i, j :: 0 <= i < j < |visited| ==> visited[i].pc != visited[j].pc) && |visited| <= g.size
  {
    ghost var order := PassStart(g, reach);
    ghost var done := 0;
    var pass := Enqueue(g, Pass(map[], []), Config(0, 0)).pass;
    while |pass.work| > 0
      invariant PassInv(g, reach, pass, order, done) && |order| <= g.size
      invariant Tabled(g, pass.heights, Config(0, 0))
      decreases g.size - done
    {
      var queued, pc;
      ghost var grown;
      queued, pc, grown := ProcessHead(g, reach, pass, order, done);
      done := done + 1;
      if queued.Refused? {
        return Rejected(pc, queued.reason), order[..done];
      }
      pass, order := queued.pass, grown;
    }
    EmptyQueueCertifies(g, reach, pass, order);
    return Accepted(pass.heights), order[..done];
  }

  /**
   * The worklist pass. It accepts exactly the stack-safe programs, its table
   * holds exactly the reachable rows with their one height, a rejection names
   * a fault that control flow exhibits, and no row is processed twice.
   */
  method AssignHeights(g: Graph) returns (verdict: Verdict, ghost visited: seq<Config>)
    requires Bounded(g)
    ensures verdict.Accepted? <==> StackSafe(g)
    ensures verdict.Accepted? ==> Certifies(g, verdict.heights)
    ensures verdict.Accepted? ==>
              forall c :: InCode(g, c) ==>
                (Reachable(g, c) <==> c.pc in verdict.heights && verdict.heights[c.pc] == c.height)
    ensures verdict.Rejected? ==> Explains(g, Reached(g), verdict.pc, verdict.reason)
    ensures (forall i, j :: 0 <= i < j < |visited| ==> visited[i].pc != visited[j].pc) && |visited| <= g.size
  {
    ReachedIsClosed(g);
    verdict, visited := RunPass(g, Reached(g));
    if verdict.Accepted? {
      CertifiedIsSafe(g, verdict.heights);
    }
  }
}
