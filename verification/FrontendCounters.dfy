/** The connection counters of a frontend (HTTPFrontend.Serve, pkg/lb/httpfrontend.go) as a step system.

    Each connection has one goroutine in Serve and starts a goroutine that peeks for the first byte before every request;
    a peek may be left behind.  A step is one access to a counter or a channel. */
module FrontendCounters {
  import opened Tally

  datatype Opts = Opts(maxConn: int, maxIdleConn: int, maxKeepAliveReqs: int)

  /** A peek goroutine: it reads, counts itself out, and reports whether there was an error. */
  datatype Stage = Reading | Back(failed: bool) | Counted(failed: bool) | Sent(failed: bool)

  datatype Peek = Peek(idx: nat, stage: Stage)

  datatype Pc =
    | Start | Refused                    // the MaxConn check
    | Enter                              // passed, not yet counted
    | Top | Spawn | Select               // one turn of the request loop
    | Activate | Serving | Deactivate(done: bool) | Limits(done: bool)
    | Again(done: bool) | Leave | Gone

  /** One connection.  `served` counts the requests, `ended` says that some context has ended in a select. */
  datatype Conn = Conn(pc: Pc, idx: nat, peeks: seq<Peek>, served: nat, ended: bool)

  const NEW_CONN := Conn(Start, 0, [], 0, false)

  /** The counters, and as history the largest number of connections ever between check and count. */
  datatype State = State(total: int, waiting: int, idle: int, active: int, conns: seq<Conn>, peak: nat)

  const INIT_STATE := State(0, 0, 0, 0, [], 0)

  /** What a step adds to each counter. */
  datatype Delta = Delta(total: int, waiting: int, idle: int, active: int)

  const NO_CHANGE := Delta(0, 0, 0, 0)

  /** The counter that the peek for request idx is counted in. */
  function ForPeek(idx: nat, d: int): Delta {
    if idx > 0 then Delta(0, 0, d, 0) else Delta(0, d, 0, 0)
  }

  /** A step of Serve. */
  ghost predicate ServeMoves(o: Opts, total: int, idle: int, c: Conn, d: Delta, c': Conn) {
    match c.pc
    case Start =>
      d == NO_CHANGE && c' == c.(pc := if o.maxConn > 0 && total >= o.maxConn then Refused else Enter)
    case Enter => d == Delta(1, 0, 0, 0) && c' == c.(pc := Top)
    case Top => d == ForPeek(c.idx, 1) && c' == c.(pc := Spawn)
    case Spawn => d == NO_CHANGE && c' == c.(pc := Select, peeks := c.peeks + [Peek(c.idx, Reading)])
    case Select =>
      && d == NO_CHANGE
      && (|| c' == c.(pc := Again(true), ended := true)
          || (c.peeks != [] && c.peeks[|c.peeks| - 1].stage.Sent? &&
              c' == c.(pc := if c.peeks[|c.peeks| - 1].stage.failed then Again(true) else Activate)))
    case Activate => d == Delta(0, 0, 0, 1) && c' == c.(pc := Serving)
    case Serving =>
      d == NO_CHANGE && (c' == c.(pc := Deactivate(true), served := c.served + 1) ||
                    c' == c.(pc := Deactivate(false), served := c.served + 1))
    case Deactivate(done) => d == Delta(0, 0, 0, -1) && c' == c.(pc := Limits(done))
    case Limits(done) =>
      d == NO_CHANGE && c' == c.(pc := Again(|| done || (o.maxIdleConn > 0 && idle >= o.maxIdleConn)
                                        || (o.maxKeepAliveReqs >= 0 && c.idx >= o.maxKeepAliveReqs)))
    case Again(done) => d == NO_CHANGE && c' == c.(pc := if done then Leave else Top, idx := c.idx + 1)
    case Leave => d == Delta(-1, 0, 0, 0) && c' == c.(pc := Gone)
    case _ => false
  }

  /** A step of peek goroutine number k of the connection. */
  ghost predicate PeekMoves(c: Conn, k: nat, d: Delta, c': Conn) {
    k < |c.peeks| &&
    match c.peeks[k].stage
    case Reading => d == NO_CHANGE && exists failed :: c' == WithStage(c, k, Back(failed))
    case Back(failed) => d == ForPeek(c.peeks[k].idx, -1) && c' == WithStage(c, k, Counted(failed))
    case Counted(failed) => d == NO_CHANGE && c' == WithStage(c, k, Sent(failed))
    case Sent(_) => false
  }

  function WithStage(c: Conn, k: nat, stage: Stage): Conn
    requires k < |c.peeks|
  {
    c.(peeks := c.peeks[k := c.peeks[k].(stage := stage)])
  }

  ghost predicate Moves(o: Opts, total: int, idle: int, c: Conn, d: Delta, c': Conn) {
    ServeMoves(o, total, idle, c, d, c') || exists k: nat :: PeekMoves(c, k, d, c')
  }

  function Entering(c: Conn): int {
    if c.pc == Enter then 1 else 0
  }

  ghost function Max(a: nat, b: int): nat {
    if b > a then b else a
  }

  ghost predicate Steps(o: Opts, s: State, i: nat, d: Delta, c: Conn, s': State) {
    && i < |s.conns| && Moves(o, s.total, s.idle, s.conns[i], d, c)
    && s'.conns == s.conns[i := c]
    && s'.total == s.total + d.total && s'.waiting == s.waiting + d.waiting
    && s'.idle == s.idle + d.idle && s'.active == s.active + d.active
    && s'.peak == Max(s.peak, Sum(s'.conns, Entering))
  }

  /** A step of some goroutine, or a new connection. */
  ghost predicate Next(o: Opts, s: State, s': State) {
    s' == s.(conns := s.conns + [NEW_CONN]) || exists i: nat, d, c :: Steps(o, s, i, d, c, s')
  }

  ghost predicate Execution(o: Opts, states: seq<State>) {
    states != [] && states[0] == INIT_STATE && forall k :: 1 <= k < |states| ==> Next(o, states[k - 1], states[k])
  }

  // ---- what each connection weighs ---------------------------------------------------------------------------------

  /** Inside the counted region. */
  function InTotal(c: Conn): int {
    match c.pc
    case Start => 0
    case Refused => 0
    case Enter => 0
    case Gone => 0
    case _ => 1
  }

  predicate Outstanding(p: Peek) {
    p.stage.Reading? || p.stage.Back?
  }

  function CountOut(peeks: seq<Peek>, first: bool): int {
    if peeks == [] then 0
    else
      var p := peeks[|peeks| - 1];
      CountOut(peeks[..|peeks| - 1], first) + if Outstanding(p) && (p.idx == 0) == first then 1 else 0
  }

  /** The peeks of a connection that are still out, for its first request or for a later one. */
  function Out(c: Conn, first: bool): int {
    CountOut(c.peeks, first) + if c.pc == Spawn && (c.idx == 0) == first then 1 else 0
  }

  function InWaiting(c: Conn): int { Out(c, true) }

  function InIdle(c: Conn): int { Out(c, false) }

  function InActive(c: Conn): int {
    match c.pc
    case Serving => 1
    case Deactivate(_) => 1
    case _ => 0
  }

  // ---- what holds of each connection -------------------------------------------------------------------------------

  /** No peek is at work. */
  ghost predicate AllSent(c: Conn) {
    forall k :: 0 <= k < |c.peeks| ==> c.peeks[k].stage.Sent?
  }

  ghost predicate PeeksOk(c: Conn) {
    forall k :: 0 <= k < |c.peeks| ==> c.peeks[k].idx == k && (k < |c.peeks| - 1 ==> c.peeks[k].stage.Sent?)
  }

  /** At most one peek at work, and none but in the select or after a context end; at most one request served each turn. */
  ghost predicate Fits(o: Opts, c: Conn) {
    && PeeksOk(c)
    && match c.pc
       case Start => c == NEW_CONN
       case Refused => c == NEW_CONN.(pc := Refused)
       case Enter => c == NEW_CONN.(pc := Enter)
       case Top => AllSent(c) && |c.peeks| == c.idx == c.served && Within(o, c.idx)
       case Spawn => AllSent(c) && |c.peeks| == c.idx == c.served && Within(o, c.idx)
       case Select => |c.peeks| == c.idx + 1 && c.idx == c.served && Within(o, c.idx)
       case Activate => AllSent(c) && |c.peeks| == c.idx + 1 && c.idx == c.served && Within(o, c.idx)
       case Serving => AllSent(c) && |c.peeks| == c.idx + 1 && c.idx == c.served && Within(o, c.idx)
       case Deactivate(_) => AllSent(c) && |c.peeks| == c.idx + 1 == c.served && Within(o, c.idx)
       case Limits(_) => AllSent(c) && |c.peeks| == c.idx + 1 == c.served && Within(o, c.idx)
       case Again(done) =>
         && (!c.ended ==> AllSent(c)) && |c.peeks| == c.idx + 1 && Within(o, c.idx)
         && (if done then c.served <= c.idx + 1 else AllSent(c) && c.served == c.idx + 1 && Within(o, c.idx + 1))
       case Leave => (!c.ended ==> AllSent(c)) && c.served <= c.idx && Within(o, c.idx - 1)
       case Gone => (!c.ended ==> AllSent(c)) && c.served <= c.idx && Within(o, c.idx - 1)
  }

  predicate Within(o: Opts, idx: int) {
    o.maxKeepAliveReqs >= 0 ==> idx <= o.maxKeepAliveReqs
  }

  lemma {:induction false} CountOutUpdate(peeks: seq<Peek>, k: nat, p: Peek, first: bool)
    requires k < |peeks|
    ensures CountOut(peeks[k := p], first) == CountOut(peeks, first)
              - (if Outstanding(peeks[k]) && (peeks[k].idx == 0) == first then 1 else 0)
              + (if Outstanding(p) && (p.idx == 0) == first then 1 else 0)
  {
    var last := |peeks| - 1;
    if k == last {
      assert peeks[k := p][..last] == peeks[..last];
    } else {
      CountOutUpdate(peeks[..last], k, p, first);
      assert peeks[k := p][..last] == peeks[..last][k := p];
    }
  }

  ghost predicate Weighs(c: Conn, d: Delta, c': Conn) {
    && InTotal(c') == InTotal(c) + d.total && InWaiting(c') == InWaiting(c) + d.waiting
    && InIdle(c') == InIdle(c) + d.idle && InActive(c') == InActive(c) + d.active
  }

  lemma MoveWeighs(o: Opts, total: int, idle: int, c: Conn, d: Delta, c': Conn)
    requires Moves(o, total, idle, c, d, c')
    ensures Weighs(c, d, c')
  {
    if ServeMoves(o, total, idle, c, d, c') {
      ServeWeighs(o, total, idle, c, d, c');
    } else {
      var k: nat :| PeekMoves(c, k, d, c');
      PeekWeighs(c, k, d, c');
    }
  }

  lemma ServeWeighs(o: Opts, total: int, idle: int, c: Conn, d: Delta, c': Conn)
    requires ServeMoves(o, total, idle, c, d, c')
    ensures Weighs(c, d, c')
  {
    hide CountOut;
    if c.pc.Spawn? {
      CountOutAppend(c.peeks, Peek(c.idx, Reading), true);
      CountOutAppend(c.peeks, Peek(c.idx, Reading), false);
    }
  }

  lemma PeekWeighs(c: Conn, k: nat, d: Delta, c': Conn)
    requires PeekMoves(c, k, d, c')
    ensures Weighs(c, d, c')
  {
    hide CountOut;
    CountOutUpdate(c.peeks, k, c'.peeks[k], true);
    CountOutUpdate(c.peeks, k, c'.peeks[k], false);
  }

  lemma CountOutAppend(peeks: seq<Peek>, p: Peek, first: bool)
    ensures CountOut(peeks + [p], first) ==
            CountOut(peeks, first) + (if Outstanding(p) && (p.idx == 0) == first then 1 else 0)
  {
    assert (peeks + [p])[..|peeks|] == peeks;
  }

  lemma MoveFits(o: Opts, total: int, idle: int, c: Conn, d: Delta, c': Conn)
    requires Fits(o, c) && Moves(o, total, idle, c, d, c')
    ensures Fits(o, c')
  {
    if ServeMoves(o, total, idle, c, d, c') {
      ServeFits(o, total, idle, c, d, c');
    } else {
      var k: nat :| PeekMoves(c, k, d, c');
    }
  }

  lemma SpawnFits(o: Opts, total: int, idle: int, c: Conn, d: Delta, c': Conn)
    requires Fits(o, c) && ServeMoves(o, total, idle, c, d, c') && c.pc.Spawn?
    ensures Fits(o, c')
  {
    hide Within;
  }

  lemma SelectFits(o: Opts, total: int, idle: int, c: Conn, d: Delta, c': Conn)
    requires Fits(o, c) && ServeMoves(o, total, idle, c, d, c') && c.pc.Select?
    ensures Fits(o, c')
  {
  }

  lemma ServeFits(o: Opts, total: int, idle: int, c: Conn, d: Delta, c': Conn)
    requires Fits(o, c) && ServeMoves(o, total, idle, c, d, c')
    ensures Fits(o, c')
  {
    hide Fits, ServeMoves;
    if c.pc.Spawn? {
      SpawnFits(o, total, idle, c, d, c');
    } else if c.pc.Select? {
      SelectFits(o, total, idle, c, d, c');
    } else {
      SamePeeksFits(o, total, idle, c, d, c');
    }
  }

  lemma SamePeeksFits(o: Opts, total: int, idle: int, c: Conn, d: Delta, c': Conn)
    requires Fits(o, c) && ServeMoves(o, total, idle, c, d, c') && !c.pc.Spawn? && !c.pc.Select?
    ensures Fits(o, c')
  {
    if c.pc.Enter? {
      assert AllSent(c');
    }
  }

  // ---- every execution ---------------------------------------------------------------------------------------------

  ghost predicate Exact(s: State) {
    && s.total == Sum(s.conns, InTotal) && s.waiting == Sum(s.conns, InWaiting)
    && s.idle == Sum(s.conns, InIdle) && s.active == Sum(s.conns, InActive)
  }

  ghost predicate Invariant(o: Opts, s: State) {
    && Exact(s)
    && (forall i :: 0 <= i < |s.conns| ==> Fits(o, s.conns[i]))
    && Sum(s.conns, Entering) <= s.peak
    && (o.maxConn > 0 ==> s.total + Sum(s.conns, Entering) <= o.maxConn + s.peak - (if s.peak > 0 then 1 else 0))
  }

  lemma StepExact(o: Opts, s: State, i: nat, d: Delta, c: Conn, s': State)
    requires Exact(s) && Steps(o, s, i, d, c, s')
    ensures Exact(s')
  {
    MoveWeighs(o, s.total, s.idle, s.conns[i], d, c);
    SumUpdate(s.conns, i, c, InTotal);
    SumUpdate(s.conns, i, c, InWaiting);
    SumUpdate(s.conns, i, c, InIdle);
    SumUpdate(s.conns, i, c, InActive);
  }

  lemma StepKeeps(o: Opts, s: State, s': State)
    requires Invariant(o, s) && Next(o, s, s')
    ensures Invariant(o, s')
  {
    hide Moves, Fits, Within;
    if s' == s.(conns := s.conns + [NEW_CONN]) {
      SumAppend(s.conns, NEW_CONN, InTotal);
      SumAppend(s.conns, NEW_CONN, InWaiting);
      SumAppend(s.conns, NEW_CONN, InIdle);
      SumAppend(s.conns, NEW_CONN, InActive);
      SumAppend(s.conns, NEW_CONN, Entering);
      NewConnFits(o);
    } else {
      var i: nat, d, c :| Steps(o, s, i, d, c, s');
      StepExact(o, s, i, d, c, s');
      MoveFits(o, s.total, s.idle, s.conns[i], d, c);
      SumUpdate(s.conns, i, c, Entering);
      MoveEnters(o, s.total, s.idle, s.conns[i], d, c);
    }
  }

  lemma NewConnFits(o: Opts)
    ensures Fits(o, NEW_CONN)
  {
  }

  lemma MoveEnters(o: Opts, total: int, idle: int, c: Conn, d: Delta, c': Conn)
    requires Moves(o, total, idle, c, d, c')
    ensures d.total + Entering(c') - Entering(c) <= 0
         || (d.total == 0 && Entering(c') == 1 && Entering(c) == 0 && (o.maxConn > 0 ==> total < o.maxConn))
  {
  }

  lemma {:induction false} ExecutionKeeps(o: Opts, states: seq<State>, k: nat)
    requires Execution(o, states) && k < |states|
    ensures Invariant(o, states[k])
  {
    if k > 0 {
      hide Next;
      ExecutionKeeps(o, states, k - 1);
      assert Next(o, states[k - 1], states[k]);
      StepKeeps(o, states[k - 1], states[k]);
    }
  }

  // ---- what follows ------------------------------------------------------------------------------------------------

  /** A peek is to start or has not counted itself out: the one for the first request, or one for a later request. */
  ghost predicate FirstIsOut(c: Conn) {
    (c.pc == Spawn && c.idx == 0) || (|c.peeks| > 0 && (c.peeks[0].stage.Reading? || c.peeks[0].stage.Back?))
  }

  ghost predicate LaterIsOut(c: Conn) {
    (c.pc == Spawn && c.idx > 0) || exists k :: 0 < k < |c.peeks| && (c.peeks[k].stage.Reading? || c.peeks[k].stage.Back?)
  }

  lemma {:induction false} OutstandingCount(peeks: seq<Peek>, first: bool)
    requires forall k :: 0 <= k < |peeks| ==> peeks[k].idx == k && (k < |peeks| - 1 ==> peeks[k].stage.Sent?)
    ensures CountOut(peeks, first) ==
            if peeks != [] && Outstanding(peeks[|peeks| - 1]) && (|peeks| == 1) == first then 1 else 0
  {
    if peeks != [] {
      NoneOut(peeks[..|peeks| - 1], first);
    }
  }

  lemma OutOfFitting(o: Opts, c: Conn)
    requires Fits(o, c)
    ensures InWaiting(c) == if FirstIsOut(c) then 1 else 0
    ensures InIdle(c) == if LaterIsOut(c) then 1 else 0
  {
    OutstandingCount(c.peeks, true);
    OutstandingCount(c.peeks, false);
    hide CountOut;
  }

  lemma RegionCounts(conns: seq<Conn>)
    ensures Sum(conns, InTotal) == |set i | 0 <= i < |conns| && !(conns[i].pc in {Start, Refused, Enter, Gone})|
    ensures Sum(conns, InActive) == |set i | 0 <= i < |conns| && (conns[i].pc == Serving || conns[i].pc.Deactivate?)|
  {
    SumCounts(conns, InTotal, set i | 0 <= i < |conns| && !(conns[i].pc in {Start, Refused, Enter, Gone}));
    SumCounts(conns, InActive, set i | 0 <= i < |conns| && (conns[i].pc == Serving || conns[i].pc.Deactivate?));
  }

  lemma PeekCounts(conns: seq<Conn>)
    requires forall i :: 0 <= i < |conns| ==> InWaiting(conns[i]) == if FirstIsOut(conns[i]) then 1 else 0
    requires forall i :: 0 <= i < |conns| ==> InIdle(conns[i]) == if LaterIsOut(conns[i]) then 1 else 0
    ensures Sum(conns, InWaiting) == |set i | 0 <= i < |conns| && FirstIsOut(conns[i])|
    ensures Sum(conns, InIdle) == |set i | 0 <= i < |conns| && LaterIsOut(conns[i])|
  {
    hide InWaiting, InIdle, FirstIsOut, LaterIsOut;
    SumCounts(conns, InWaiting, set i | 0 <= i < |conns| && FirstIsOut(conns[i]));
    SumCounts(conns, InIdle, set i | 0 <= i < |conns| && LaterIsOut(conns[i]));
  }

  /** Under every interleaving: the total is the number of Serve calls inside the counted region, waiting and idle are the
      connections with an outstanding first or later peek, active those with a request in service. */
  lemma CountersExact(o: Opts, states: seq<State>, k: nat)
    requires Execution(o, states) && k < |states|
    ensures var s := states[k];
            && s.total == |set i | 0 <= i < |s.conns| && !(s.conns[i].pc in {Start, Refused, Enter, Gone})|
            && s.waiting == |set i | 0 <= i < |s.conns| && FirstIsOut(s.conns[i])|
            && s.idle == |set i | 0 <= i < |s.conns| && LaterIsOut(s.conns[i])|
            && s.active == |set i | 0 <= i < |s.conns| && (s.conns[i].pc == Serving || s.conns[i].pc.Deactivate?)|
  {
    ExecutionKeeps(o, states, k);
    hide Execution, InWaiting, InIdle, FirstIsOut, LaterIsOut, Fits, InTotal, InActive;
    var s := states[k];
    forall i | 0 <= i < |s.conns|
      ensures InWaiting(s.conns[i]) == if FirstIsOut(s.conns[i]) then 1 else 0
      ensures InIdle(s.conns[i]) == if LaterIsOut(s.conns[i]) then 1 else 0
    {
      OutOfFitting(o, s.conns[i]);
    }
    RegionCounts(s.conns);
    PeekCounts(s.conns);
  }

  /** A connection has at most one peek that has not reported, and once Serve has returned it has one only if a context
      ended. */
  lemma OnePeekAtMost(o: Opts, states: seq<State>, k: nat, i: nat)
    requires Execution(o, states) && k < |states| && i < |states[k].conns|
    ensures var c := states[k].conns[i];
            && (forall p :: 0 <= p < |c.peeks| - 1 ==> c.peeks[p].stage.Sent?)
            && (c.pc == Gone && !c.ended ==> forall p :: 0 <= p < |c.peeks| ==> c.peeks[p].stage.Sent?)
  {
    ExecutionKeeps(o, states, k);
    assert Fits(o, states[k].conns[i]);
  }

  /** With a limit of M requests after the first, a connection serves at most M + 1. */
  lemma KeepAliveLimit(o: Opts, states: seq<State>, k: nat, i: nat)
    requires Execution(o, states) && k < |states| && i < |states[k].conns| && o.maxKeepAliveReqs >= 0
    ensures states[k].conns[i].served <= o.maxKeepAliveReqs + 1
  {
    ExecutionKeeps(o, states, k);
    assert Fits(o, states[k].conns[i]);
  }

  /** After a request the connection goes on exactly if that ended well, fewer connections are idle than MaxIdleConn allows
      and no more than MaxKeepAliveReqs requests have been served; a limit below zero, or MaxIdleConn zero, is none. */
  lemma GoesOnExactly(o: Opts, states: seq<State>, k: nat, i: nat)
    requires Execution(o, states) && k + 1 < |states| && i < |states[k].conns|
    requires states[k].conns[i].pc.Limits? && states[k + 1].conns[i].pc != states[k].conns[i].pc
    ensures var s, c := states[k], states[k].conns[i];
            var goesOn := && !c.pc.done
                          && (o.maxIdleConn <= 0 || |set j | 0 <= j < |s.conns| && LaterIsOut(s.conns[j])| < o.maxIdleConn)
                          && (o.maxKeepAliveReqs < 0 || c.served <= o.maxKeepAliveReqs);
            states[k + 1].conns[i].pc == Again(!goesOn)
  {
    ExecutionKeeps(o, states, k);
    CountersExact(o, states, k);
    var s, s' := states[k], states[k + 1];
    assert Fits(o, s.conns[i]) && Next(o, s, s');
    var j: nat, d, c :| Steps(o, s, j, d, c, s');
    hide Execution, LaterIsOut, Fits, Exact;
    assert j == i && ServeMoves(o, s.total, s.idle, s.conns[i], d, c);
  }

  /** What is known of the first byte of each request that has been served or is about to be: its peek found it. */
  ghost predicate Asked(c: Conn) {
    && c.served <= |c.peeks| && (forall k :: 0 <= k < c.served ==> c.peeks[k].stage == Sent(false))
    && (c.pc == Activate || c.pc == Serving ==> c.served < |c.peeks| && c.peeks[c.served].stage == Sent(false))
  }

  lemma MoveAsks(o: Opts, total: int, idle: int, c: Conn, d: Delta, c': Conn)
    requires Fits(o, c) && Asked(c) && Moves(o, total, idle, c, d, c')
    ensures Asked(c')
  {
    hide PeeksOk, AllSent, CountOut, Within;
    if ServeMoves(o, total, idle, c, d, c') {
      ServeAsks(o, total, idle, c, d, c');
    } else {
      var k: nat :| PeekMoves(c, k, d, c');
    }
  }

  lemma ServeAsks(o: Opts, total: int, idle: int, c: Conn, d: Delta, c': Conn)
    requires Fits(o, c) && Asked(c) && ServeMoves(o, total, idle, c, d, c')
    ensures Asked(c')
  {
    hide PeeksOk, AllSent, Within;
  }

  /** A request is served only after its own peek has found a byte. */
  lemma {:induction false} EveryRequestAsked(o: Opts, states: seq<State>, k: nat, i: nat)
    requires Execution(o, states) && k < |states| && i < |states[k].conns|
    ensures Asked(states[k].conns[i])
  {
    if k > 0 {
      ExecutionKeeps(o, states, k - 1);
      var s, s' := states[k - 1], states[k];
      assert Next(o, s, s');
      if i < |s.conns| {
        EveryRequestAsked(o, states, k - 1, i);
      }
      hide Execution, Asked, Moves, Fits;
      NewConnAsks();
      if s' != s.(conns := s.conns + [NEW_CONN]) {
        var j: nat, d, c :| Steps(o, s, j, d, c, s');
        if i == j {
          MoveAsks(o, s.total, s.idle, s.conns[i], d, c);
        }
      }
    }
  }

  lemma NewConnAsks()
    ensures Asked(NEW_CONN)
  {
  }

  lemma {:induction false} NoneOut(peeks: seq<Peek>, first: bool)
    requires forall k :: 0 <= k < |peeks| ==> peeks[k].stage.Sent?
    ensures CountOut(peeks, first) == 0
  {
    if peeks != [] {
      NoneOut(peeks[..|peeks| - 1], first);
    }
  }

  /** When every Serve has returned and every peek has reported, all counters are zero again. */
  lemma AllReturnToZero(o: Opts, states: seq<State>, k: nat)
    requires Execution(o, states) && k < |states|
    requires forall i :: 0 <= i < |states[k].conns| ==>
               (states[k].conns[i].pc == Gone || states[k].conns[i].pc == Refused) && AllSent(states[k].conns[i])
    ensures var s := states[k]; s.total == 0 && s.waiting == 0 && s.idle == 0 && s.active == 0
  {
    ExecutionKeeps(o, states, k);
    var s := states[k];
    forall i | 0 <= i < |s.conns| ensures InWaiting(s.conns[i]) == 0 && InIdle(s.conns[i]) == 0 {
      assert AllSent(s.conns[i]);
      NoneOut(s.conns[i].peeks, true);
      NoneOut(s.conns[i].peeks, false);
    }
    SumZero(s.conns, InTotal);
    SumZero(s.conns, InWaiting);
    SumZero(s.conns, InIdle);
    SumZero(s.conns, InActive);
  }

  // ---- the connection limit ----------------------------------------------------------------------------------------

  /** MaxConn is looked at before the connection is counted, so it can be overshot, by one less than the largest number of
      connections that were ever between the two at once.  If no two ever were, it holds. */
  lemma LimitOvershoot(o: Opts, states: seq<State>, k: nat)
    requires Execution(o, states) && k < |states| && o.maxConn > 0
    ensures states[k].total <= o.maxConn + if states[k].peak == 0 then 0 else states[k].peak - 1
  {
    ExecutionKeeps(o, states, k);
    SumBounds(states[k].conns, Entering, 0);
  }

  ghost predicate Reachable(o: Opts, s: State) {
    exists states :: Execution(o, states) && states[|states| - 1] == s
  }

  lemma ReachableNext(o: Opts, s: State, s': State)
    requires Reachable(o, s) && Next(o, s, s')
    ensures Reachable(o, s')
  {
    var states :| Execution(o, states) && states[|states| - 1] == s;
    var longer := states + [s'];
    assert forall k :: 0 <= k < |states| ==> longer[k] == states[k];
    assert Execution(o, longer);
    assert longer[|longer| - 1] == s';
  }

  /** Connection i goes on to c, in one step that changes the counters by d. */
  lemma OneStep(o: Opts, t: State, i: nat, d: Delta, c: Conn) returns (s: State)
    requires Reachable(o, t) && i < |t.conns| && Moves(o, t.total, t.idle, t.conns[i], d, c)
    ensures Reachable(o, s) && s.conns == t.conns[i := c]
    ensures s.total == t.total + d.total && s.waiting == t.waiting + d.waiting
    ensures s.idle == t.idle + d.idle && s.active == t.active + d.active
    ensures Sum(s.conns, Entering) == Sum(t.conns, Entering) - Entering(t.conns[i]) + Entering(c)
    ensures s.peak == Max(t.peak, Sum(s.conns, Entering))
  {
    hide Moves;
    s := State(t.total + d.total, t.waiting + d.waiting, t.idle + d.idle, t.active + d.active, t.conns[i := c], t.peak);
    s := s.(peak := Max(t.peak, Sum(s.conns, Entering)));
    SumUpdate(t.conns, i, c, Entering);
    assert Steps(o, t, i, d, c, s);
    ReachableNext(o, t, s);
  }

  lemma Arrival(o: Opts, t: State) returns (s: State)
    requires Reachable(o, t)
    ensures Reachable(o, s) && s == t.(conns := t.conns + [NEW_CONN])
    ensures Sum(s.conns, Entering) == Sum(t.conns, Entering)
  {
    s := t.(conns := t.conns + [NEW_CONN]);
    SumAppend(t.conns, NEW_CONN, Entering);
    ReachableNext(o, t, s);
  }

  /** m connections that came one after the other, all counted; without a limit there can be any number. */
  lemma {:induction false} OneByOne(o: Opts, m: nat) returns (s: State)
    requires o.maxConn <= 0 || m <= o.maxConn
    ensures Reachable(o, s) && s.total == |s.conns| == m && s.peak <= 1 && Sum(s.conns, Entering) == 0
  {
    hide Reachable, PeekMoves;
    if m == 0 {
      Beginning(o);
      s := INIT_STATE;
    } else {
      var t := OneByOne(o, m - 1);
      var u := Arrival(o, t);
      assert u.conns[m - 1] == NEW_CONN;
      var v := OneStep(o, u, m - 1, NO_CHANGE, NEW_CONN.(pc := Enter));
      s := OneStep(o, v, m - 1, Delta(1, 0, 0, 0), NEW_CONN.(pc := Top));
    }
  }

  lemma Beginning(o: Opts)
    ensures Reachable(o, INIT_STATE) && Sum(INIT_STATE.conns, Entering) == 0
  {
    assert Execution(o, [INIT_STATE]) && [INIT_STATE][0] == INIT_STATE;
  }

  /** Then n more that pass the check together, before any of them is counted. */
  lemma {:induction false} Crowd(o: Opts, m: nat, n: nat) returns (s: State)
    requires m < o.maxConn
    ensures Reachable(o, s) && s.total == m && |s.conns| == m + n && Sum(s.conns, Entering) == n
    ensures forall i :: m <= i < m + n ==> s.conns[i] == NEW_CONN.(pc := Enter)
    ensures n <= s.peak <= n + if n == 0 then 1 else 0
  {
    if n == 0 {
      s := OneByOne(o, m);
    } else {
      s := Crowd(o, m, n - 1);
      s := Arrival(o, s);
      s := OneStep(o, s, m + n - 1, NO_CHANGE, NEW_CONN.(pc := Enter));
    }
  }

  /** And then a of these are counted. */
  lemma {:induction false} CrowdCounted(o: Opts, m: nat, n: nat, a: nat) returns (s: State)
    requires m < o.maxConn && 1 <= n && a <= n
    ensures Reachable(o, s) && s.total == m + a && |s.conns| == m + n && Sum(s.conns, Entering) == n - a && s.peak == n
    ensures forall i :: m + a <= i < m + n ==> s.conns[i] == NEW_CONN.(pc := Enter)
  {
    if a == 0 {
      s := Crowd(o, m, n);
    } else {
      s := CrowdCounted(o, m, n, a - 1);
      s := OneStep(o, s, m + a - 1, Delta(1, 0, 0, 0), NEW_CONN.(pc := Top));
    }
  }

  /** The bound is reached, whatever the limit: with n connections between check and count at once, and never more, the
      total can be the limit and n - 1 on top. */
  lemma LimitBroken(o: Opts, n: nat) returns (s: State)
    requires 1 <= o.maxConn && 1 <= n
    ensures Reachable(o, s) && s.peak == n && s.total == o.maxConn + n - 1
  {
    s := CrowdCounted(o, o.maxConn - 1, n, n);
  }

  /** So the limit holds in all executions that never have more than `most` connections between check and count exactly if
      that is at most one. */
  lemma LimitHoldsExactly(o: Opts, most: nat)
    requires 1 <= o.maxConn
    ensures most <= 1 <==> forall s :: Reachable(o, s) && s.peak <= most ==> s.total <= o.maxConn
  {
    forall s | Reachable(o, s) && s.peak <= 1 ensures s.total <= o.maxConn {
      var states :| Execution(o, states) && states[|states| - 1] == s;
      LimitOvershoot(o, states, |states| - 1);
    }
    if most > 1 {
      var s := LimitBroken(o, most);
    }
  }

  // ---- requests on one connection ----------------------------------------------------------------------------------

  /** The peek of a connection alone comes back with a byte, and its request is served. */
  lemma OneRequest(o: Opts, t: State) returns (s: State)
    requires Reachable(o, t) && |t.conns| == 1 && t.conns[0].pc == Top && t.idle == 0
    ensures Reachable(o, s) && |s.conns| == 1 && s.idle == 0
    ensures s.conns[0].pc == Limits(false) && s.conns[0].served == t.conns[0].served + 1 && s.conns[0].idx == t.conns[0].idx
  {
    hide Reachable;
    var c := t.conns[0];
    s := OneStep(o, t, 0, ForPeek(c.idx, 1), c.(pc := Spawn));
    s := OneStep(o, s, 0, NO_CHANGE, c.(pc := Select, peeks := c.peeks + [Peek(c.idx, Reading)]));
    s := PeekReturns(o, s);
    s := OneServed(o, s);
  }

  lemma PeekReturns(o: Opts, t: State) returns (s: State)
    requires Reachable(o, t) && |t.conns| == 1 && t.conns[0].pc == Select && t.conns[0].peeks != []
    requires var p := t.conns[0].peeks[|t.conns[0].peeks| - 1]; p == Peek(t.conns[0].idx, Reading)
    ensures Reachable(o, s) && |s.conns| == 1 && s.idle == t.idle - if t.conns[0].idx > 0 then 1 else 0
    ensures s.conns[0] == t.conns[0].(pc := Activate, peeks := s.conns[0].peeks)
  {
    hide Reachable;
    var c := t.conns[0];
    var k: nat := |c.peeks| - 1;
    var c1, c2, c3 := WithStage(c, k, Back(false)), WithStage(c, k, Counted(false)), WithStage(c, k, Sent(false));
    assert PeekMoves(c, k, NO_CHANGE, c1);
    s := OneStep(o, t, 0, NO_CHANGE, c1);
    assert PeekMoves(c1, k, ForPeek(c.idx, -1), c2);
    s := OneStep(o, s, 0, ForPeek(c.idx, -1), c2);
    assert PeekMoves(c2, k, NO_CHANGE, c3);
    s := OneStep(o, s, 0, NO_CHANGE, c3);
    s := OneStep(o, s, 0, NO_CHANGE, c3.(pc := Activate));
  }

  lemma OneServed(o: Opts, t: State) returns (s: State)
    requires Reachable(o, t) && |t.conns| == 1 && t.conns[0].pc == Activate
    ensures Reachable(o, s) && s.idle == t.idle
    ensures s.conns == [t.conns[0].(pc := Limits(false), served := t.conns[0].served + 1)]
  {
    hide Reachable;
    var c := t.conns[0];
    s := OneStep(o, t, 0, Delta(0, 0, 0, 1), c.(pc := Serving));
    s := OneStep(o, s, 0, NO_CHANGE, c.(pc := Deactivate(false), served := c.served + 1));
    s := OneStep(o, s, 0, Delta(0, 0, 0, -1), c.(pc := Limits(false), served := c.served + 1));
  }

  /** The bound is reached: whatever the other limits, a connection may serve any number of requests up to M + 1, and without
      a limit any number at all. */
  lemma {:induction false} KeepAliveReached(o: Opts, n: nat) returns (s: State)
    requires o.maxKeepAliveReqs < 0 || n <= o.maxKeepAliveReqs + 1
    ensures Reachable(o, s) && |s.conns| == 1 && s.conns[0].served == n && s.idle == 0
    ensures n > 0 ==> s.conns[0].pc == Limits(false) && s.conns[0].idx == n - 1
  {
    hide Reachable;
    if n == 0 {
      Beginning(o);
      s := Arrival(o, INIT_STATE);
    } else {
      s := KeepAliveReached(o, n - 1);
      var c := s.conns[0];
      if n == 1 {
        s := FirstInLoop(o);
      } else {
        s := OneStep(o, s, 0, NO_CHANGE, c.(pc := Again(false)));
        s := OneStep(o, s, 0, NO_CHANGE, c.(pc := Top, idx := c.idx + 1));
      }
      s := OneRequest(o, s);
    }
  }

  /** The first connection is in its request loop. */
  lemma FirstInLoop(o: Opts) returns (s: State)
    ensures Reachable(o, s) && s.conns == [NEW_CONN.(pc := Top)] && s.idle == 0
  {
    hide Reachable, CountOut, PeekMoves, Sum;
    Beginning(o);
    var t := Arrival(o, INIT_STATE);
    assert t.conns == [NEW_CONN] && t.total == 0;
    assert ServeMoves(o, t.total, t.idle, NEW_CONN, NO_CHANGE, NEW_CONN.(pc := Enter));
    var u := OneStep(o, t, 0, NO_CHANGE, NEW_CONN.(pc := Enter));
    s := OneStep(o, u, 0, Delta(1, 0, 0, 0), NEW_CONN.(pc := Top));
  }
}
