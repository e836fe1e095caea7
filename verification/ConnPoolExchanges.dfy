/** What the connections in the pool have been through: the exchanges that serveAsync judged (pkg/lb/httpbackend.go,
    pkg/lb/backendserver.go), over every execution of the connection pool. */
module ConnPoolExchanges {
  import opened Options
  import opened Exchanges
  import opened ConnPool
  import opened ConnPoolProofs

  /** The last exchange on the connection was clean and in time. */
  ghost predicate LastGood(b: Conn) {
    b.last.Some? && b.last.value.Good()
  }

  /** What is known of the last exchange on the connection that a goroutine at this point owns. */
  ghost predicate Settled(pc: Pc, b: Conn) {
    match pc
    case DropIdle(_, k) => k == Acquire ==> LastGood(b)
    case DropTotal(_, k) => k == Acquire ==> LastGood(b)
    case AcqCheck(_) => LastGood(b)
    case AcqStatsR(_) => LastGood(b)
    case AcqStatsW(_, _) => LastGood(b)
    case AcqUnlock(_) => LastGood(b)
    case AcqActive(_) => LastGood(b)
    case AcqTotal(_) => LastGood(b)
    case Held(_, reused, x) => if x.Some? then b.last == x else reused ==> LastGood(b)
    case RelActive(_) => b.closed || LastGood(b)
    case RelTotal(_) => b.closed || LastGood(b)
    case RelLock(_) => b.closed || LastGood(b)
    case RelCtx(_) => b.closed || LastGood(b)
    case RelCheck(_) => b.closed || LastGood(b)
    case RelStatsR(_) => LastGood(b)
    case RelStatsW(_, _) => LastGood(b)
    case RelPark(_) => LastGood(b)
    case _ => true
  }

  ghost predicate PointSettled(pc: Pc, conns: seq<Conn>) {
    Owned(pc).Some? && Owned(pc).value < |conns| ==> Settled(pc, conns[Owned(pc).value])
  }

  ghost predicate PoolSettled(sh: Shared) {
    forall c :: c in sh.bcs && c < |sh.conns| ==> LastGood(sh.conns[c])
  }

  ghost predicate AllSettled(s: State) {
    PoolSettled(s.sh) && forall i :: 0 <= i < |s.ts| ==> PointSettled(s.ts[i], s.sh.conns)
  }

  // ---- one step ----------------------------------------------------------------------------------------------------

  /** The goroutine that moves, at the point it comes to. */
  ghost predicate ArrivesSettled(sh: Shared, e: Effect, pc': Pc) {
    match e
    case Take(c) => c < |sh.conns| ==> Settled(pc', sh.conns[c])
    case Touch(c, b) => Owned(pc').Some? ==> Settled(pc', b)
    case Dial => Settled(pc', FRESH_CONN)
    case _ => PointSettled(pc', sh.conns)
  }

  lemma AcquireSettles(pc: Pc, sh: Shared, e: Effect, pc': Pc)
    requires AcquireMoves(pc, sh, e, pc') && PointSettled(pc, sh.conns) && PoolSettled(sh)
    ensures ArrivesSettled(sh, e, pc')
  {
  }

  lemma LeaseSettles(pc: Pc, sh: Shared, e: Effect, pc': Pc)
    requires LeaseMoves(pc, sh, e, pc') && PointSettled(pc, sh.conns)
    requires Owned(pc).Some? && Owned(pc).value < |sh.conns| ==>
               (sh.conns[Owned(pc).value].closed ==> sh.conns[Owned(pc).value].failed)
    ensures ArrivesSettled(sh, e, pc')
  {
  }

  lemma ReleaseSettles(pc: Pc, sh: Shared, e: Effect, pc': Pc)
    requires ReleaseMoves(pc, sh, e, pc') && PointSettled(pc, sh.conns)
    requires Owned(pc).Some? && Owned(pc).value < |sh.conns| ==>
               (sh.conns[Owned(pc).value].closed ==> sh.conns[Owned(pc).value].failed)
    ensures ArrivesSettled(sh, e, pc')
  {
  }

  lemma ServerSettles(pc: Pc, sh: Shared, e: Effect, pc': Pc)
    requires ServerMoves(pc, sh, e, pc') && PointSettled(pc, sh.conns) && PoolSettled(sh)
    ensures ArrivesSettled(sh, e, pc')
  {
  }

  lemma RemovalSettles(pc: Pc, sh: Shared, e: Effect, pc': Pc)
    requires RemovalMoves(pc, sh, e, pc') && PointSettled(pc, sh.conns) && PoolSettled(sh)
    ensures ArrivesSettled(sh, e, pc')
  {
  }

  lemma MoveSettles(pc: Pc, sh: Shared, e: Effect, pc': Pc)
    requires Moves(pc, sh, e, pc') && PointSettled(pc, sh.conns) && PoolSettled(sh) && SharedOk(sh)
    ensures ArrivesSettled(sh, e, pc')
  {
    hide AcquireMoves, LeaseMoves, ReleaseMoves, ServerMoves, RemovalMoves, ArrivesSettled, PointSettled;
    if AcquireMoves(pc, sh, e, pc') {
      AcquireSettles(pc, sh, e, pc');
    } else if LeaseMoves(pc, sh, e, pc') {
      LeaseSettles(pc, sh, e, pc');
    } else if ReleaseMoves(pc, sh, e, pc') {
      ReleaseSettles(pc, sh, e, pc');
    } else if ServerMoves(pc, sh, e, pc') {
      ServerSettles(pc, sh, e, pc');
    } else {
      RemovalSettles(pc, sh, e, pc');
    }
  }

  lemma MoverStaysSettled(id: ThreadId, pc: Pc, sh: Shared, e: Effect, pc': Pc)
    requires Transfers(pc, sh, e, pc') && ArrivesSettled(sh, e, pc')
    ensures PointSettled(pc', Apply(id, e, sh).conns)
  {
    hide Settled;
  }

  lemma PoolStaysSettled(id: ThreadId, pc: Pc, sh: Shared, e: Effect, pc': Pc)
    requires Transfers(pc, sh, e, pc') && Locks(pc, sh, e, pc') && LocalOk(id, pc, sh)
    requires PoolSettled(sh) && PointSettled(pc, sh.conns) && SharedOk(sh)
    ensures PoolSettled(Apply(id, e, sh))
  {
    hide PointOk, LastGood, ConnOk, Critical;
  }

  lemma OtherStaysSettled(id: ThreadId, pc: Pc, sh: Shared, e: Effect, pc': Pc, other: Pc)
    requires Transfers(pc, sh, e, pc') && Disjoint(other, pc) && StatsOk(other, sh.conns)
    requires PointSettled(other, sh.conns)
    ensures PointSettled(other, Apply(id, e, sh).conns)
  {
    hide Settled, ConnOk;
  }

  lemma RunSettles(s: State, i: ThreadId, e: Effect, pc': Pc, s': State)
    requires LocalInv(s) && AllSettled(s) && Next(s, Run(i, e, pc'), s')
    ensures AllSettled(s')
  {
    hide Moves, SharedOk, StatsOk, PointOk, Critical, Transfers, Locks, Disjoint, PointSettled, PoolSettled, ArrivesSettled, Apply;
    var pc := s.ts[i];
    assert LocalOk(i, pc, s.sh) && PointSettled(pc, s.sh.conns);
    RunTransfers(s, i, e, pc', s');
    MovesLock(pc, s.sh, e, pc');
    MoveSettles(pc, s.sh, e, pc');
    MoverStaysSettled(i, pc, s.sh, e, pc');
    PoolStaysSettled(i, pc, s.sh, e, pc');
    forall j | 0 <= j < |s.ts| && j != i ensures PointSettled(s.ts[j], s'.sh.conns) {
      assert LocalOk(j, s.ts[j], s.sh) && Disjoint(s.ts[j], pc);
      OtherStaysSettled(i, pc, s.sh, e, pc', s.ts[j]);
    }
  }

  lemma EventSettles(pc: Pc, b: Conn, v: Event)
    requires Settled(pc, b)
    ensures Settled(pc, AfterEvent(b, v)) && (LastGood(b) ==> LastGood(AfterEvent(b, v)))
  {
  }

  lemma NetworkSettles(s: State, c: ConnId, v: Event, s': State)
    requires AllSettled(s) && Next(s, Network(c, v), s')
    ensures AllSettled(s')
  {
    hide Settled, LastGood, AfterEvent;
    forall i | 0 <= i < |s'.ts| ensures PointSettled(s'.ts[i], s'.sh.conns) {
      assert PointSettled(s.ts[i], s.sh.conns);
      if Owned(s.ts[i]) == Some(c) {
        EventSettles(s.ts[i], s.sh.conns[c], v);
      }
    }
    ReadySettled(s.sh.conns[c]);
    EventSettles(Ready, s.sh.conns[c], v);
  }

  lemma ReadySettled(b: Conn)
    ensures Settled(Ready, b)
  {
  }

  lemma CallersSettle(s: State, a: Action, s': State)
    requires AllSettled(s) && (a == Spawn || a == Borrow) && Next(s, a, s')
    ensures AllSettled(s')
  {
    hide Settled;
    forall i | 0 <= i < |s'.ts| ensures PointSettled(s'.ts[i], s'.sh.conns) {
      if i < |s.ts| {
        assert PointSettled(s.ts[i], s.sh.conns);
      }
    }
  }

  // ---- every execution ---------------------------------------------------------------------------------------------

  lemma {:induction false} ExecutionSettles(states: seq<State>, actions: seq<Action>, k: nat)
    requires Execution(states, actions) && k < |states|
    ensures AllSettled(states[k])
  {
    if k > 0 {
      ExecutionSettles(states, actions, k - 1);
      ExecutionKeeps(states, actions, k - 1);
      var s, a, s' := states[k - 1], actions[k - 1], states[k];
      assert Next(s, a, s');
      hide Next, AllSettled, LocalInv, NoLeak, Balanced, Execution;
      match a
      case Run(i, e, pc') => RunSettles(s, i, e, pc', s');
      case Network(c, v) => NetworkSettles(s, c, v, s');
      case _ => CallersSettle(s, a, s');
    }
  }

  lemma PoolAndReusedAreGood(states: seq<State>, actions: seq<Action>, k: nat)
    requires Execution(states, actions) && k < |states|
    ensures var s := states[k];
            && (forall c :: c in s.sh.bcs ==> c < |s.sh.conns| && LastGood(s.sh.conns[c]))
            && (forall i :: 0 <= i < |s.ts| && s.ts[i].Held? && s.ts[i].reused && s.ts[i].x == None ==>
                  s.ts[i].c < |s.sh.conns| && LastGood(s.sh.conns[s.ts[i].c]))
  {
    ExecutionSettles(states, actions, k);
    ExecutionKeeps(states, actions, k);
    var s := states[k];
    hide Execution, NoLeak, Balanced, LastGood, Marked, ConnOk, PointOk, Critical;
    forall i | 0 <= i < |s.ts| && s.ts[i].Held? && s.ts[i].reused && s.ts[i].x == None
      ensures s.ts[i].c < |s.sh.conns| && LastGood(s.sh.conns[s.ts[i].c])
    {
      assert LocalOk(i, s.ts[i], s.sh) && PointSettled(s.ts[i], s.sh.conns);
    }
  }

  lemma GoodIs(b: Conn)
    ensures LastGood(b) <==> b.last == Some(Outcome(Exchange(None, None, 0, "keep-alive", "HTTP/1.1"), false))
  {
  }

  /** In every state of every execution the last exchange of each connection in the pool ended in time with both directions
      done, nothing in the reader's buffer and the server keeping an HTTP/1.1 connection alive, and so did that of every
      connection that is handed out again. */
  lemma OnlyCleanExchangesPool(states: seq<State>, actions: seq<Action>, k: nat)
    requires Execution(states, actions) && k < |states|
    ensures var s, clean := states[k], Some(Outcome(Exchange(None, None, 0, "keep-alive", "HTTP/1.1"), false));
            && (forall c :: c in s.sh.bcs ==> c < |s.sh.conns| && s.sh.conns[c].last == clean)
            && (forall i :: 0 <= i < |s.ts| && s.ts[i].Held? && s.ts[i].reused && s.ts[i].x == None ==>
                  s.ts[i].c < |s.sh.conns| && s.sh.conns[s.ts[i].c].last == clean)
  {
    hide Execution, LastGood;
    PoolAndReusedAreGood(states, actions, k);
    forall b ensures LastGood(b) <==> b.last == Some(Outcome(Exchange(None, None, 0, "keep-alive", "HTTP/1.1"), false)) {
      GoodIs(b);
    }
  }
}
