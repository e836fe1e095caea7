/** What a reused connection may still hold unread: the bytes that pipeRead has counted and this side has not read
    (pkg/lb/bufconn.go, pkg/lb/httpbackend.go), over every execution of the connection pool. */
module ConnPoolReads {
  import opened Options
  import opened ConnPool
  import opened ConnPoolProofs

  /** What is known of the counting of bytes read, at each point of the goroutine that owns the connection. */
  ghost predicate Counts(pc: Pc, b: Conn) {
    match pc
    case DropIdle(_, k) => k == Acquire ==> b.parkedRd == b.seenRd
    case DropTotal(_, k) => k == Acquire ==> b.parkedRd == b.seenRd
    case AcqCheck(_) => b.parkedRd == b.seenRd
    case AcqStatsR(_) => b.parkedRd == b.seenRd
    case AcqStatsW(_, _) => b.parkedRd == b.seenRd && b.nr == b.rd - b.takenRd
    case AcqUnlock(_) => b.takenRd == b.seenRd && b.nr == b.rd - b.seenRd
    case AcqActive(_) => b.takenRd == b.seenRd && b.nr == b.rd - b.seenRd
    case AcqTotal(_) => b.takenRd == b.seenRd && b.nr == b.rd - b.seenRd
    case Held(_, _, _) => b.nr == b.rd - b.seenRd
    case RelActive(_) => b.nr == b.rd - b.seenRd
    case RelTotal(_) => b.nr == b.rd - b.seenRd
    case RelLock(_) => b.nr == b.rd - b.seenRd
    case RelCtx(_) => b.nr == b.rd - b.seenRd
    case RelCheck(_) => b.nr == b.rd - b.seenRd
    case RelStatsR(_) => b.nr == b.rd - b.seenRd
    case RelStatsW(_, r) => r == 0 ==> b.parkedRd == b.seenRd
    case RelPark(_) => b.parkedRd == b.seenRd
    case _ => true
  }

  ghost predicate PointCounts(pc: Pc, conns: seq<Conn>) {
    Owned(pc).Some? && Owned(pc).value < |conns| ==> Counts(pc, conns[Owned(pc).value])
  }

  /** Of a pooled connection, and of any. */
  ghost predicate PoolCounts(sh: Shared) {
    && (forall c :: c in sh.bcs && c < |sh.conns| ==> sh.conns[c].parkedRd == sh.conns[c].seenRd)
    && (forall c :: 0 <= c < |sh.conns| ==> sh.conns[c].used <= sh.conns[c].rd)
  }

  ghost predicate AllCounts(s: State) {
    PoolCounts(s.sh) && forall i :: 0 <= i < |s.ts| ==> PointCounts(s.ts[i], s.sh.conns)
  }

  // ---- one step ----------------------------------------------------------------------------------------------------

  ghost predicate ArrivesCounting(sh: Shared, e: Effect, pc': Pc) {
    match e
    case Take(c) => c < |sh.conns| ==> Counts(pc', sh.conns[c])
    case Touch(c, b) =>
      && (Owned(pc').Some? ==> Counts(pc', b))
      && (c < |sh.conns| && sh.conns[c].used <= sh.conns[c].rd ==> b.used <= b.rd)
    case Dial => Counts(pc', FRESH_CONN)
    case _ => PointCounts(pc', sh.conns)
  }

  lemma AcquireCounts(pc: Pc, sh: Shared, e: Effect, pc': Pc)
    requires AcquireMoves(pc, sh, e, pc') && PointCounts(pc, sh.conns) && PoolCounts(sh) && StatsOk(pc, sh.conns)
    ensures ArrivesCounting(sh, e, pc')
  {
  }

  lemma LeaseCounts(pc: Pc, sh: Shared, e: Effect, pc': Pc)
    requires LeaseMoves(pc, sh, e, pc') && PointCounts(pc, sh.conns)
    ensures ArrivesCounting(sh, e, pc')
  {
  }

  lemma ReleaseCounts(pc: Pc, sh: Shared, e: Effect, pc': Pc)
    requires ReleaseMoves(pc, sh, e, pc') && PointCounts(pc, sh.conns)
    ensures ArrivesCounting(sh, e, pc')
  {
  }

  lemma ServerCounts(pc: Pc, sh: Shared, e: Effect, pc': Pc)
    requires ServerMoves(pc, sh, e, pc') && PointCounts(pc, sh.conns) && PoolCounts(sh)
    ensures ArrivesCounting(sh, e, pc')
  {
  }

  lemma RemovalCounts(pc: Pc, sh: Shared, e: Effect, pc': Pc)
    requires RemovalMoves(pc, sh, e, pc') && PointCounts(pc, sh.conns) && PoolCounts(sh)
    ensures ArrivesCounting(sh, e, pc')
  {
  }

  lemma MoveCounts(pc: Pc, sh: Shared, e: Effect, pc': Pc)
    requires Moves(pc, sh, e, pc') && PointCounts(pc, sh.conns) && PoolCounts(sh) && StatsOk(pc, sh.conns)
    ensures ArrivesCounting(sh, e, pc')
  {
    hide AcquireMoves, LeaseMoves, ReleaseMoves, ServerMoves, RemovalMoves, ArrivesCounting, PointCounts, PoolCounts, StatsOk;
    if AcquireMoves(pc, sh, e, pc') {
      AcquireCounts(pc, sh, e, pc');
    } else if LeaseMoves(pc, sh, e, pc') {
      LeaseCounts(pc, sh, e, pc');
    } else if ReleaseMoves(pc, sh, e, pc') {
      ReleaseCounts(pc, sh, e, pc');
    } else if ServerMoves(pc, sh, e, pc') {
      ServerCounts(pc, sh, e, pc');
    } else {
      RemovalCounts(pc, sh, e, pc');
    }
  }

  lemma MoverStays(id: ThreadId, pc: Pc, sh: Shared, e: Effect, pc': Pc)
    requires Transfers(pc, sh, e, pc') && ArrivesCounting(sh, e, pc')
    ensures PointCounts(pc', Apply(id, e, sh).conns)
  {
    hide Counts;
  }

  lemma PoolStays(id: ThreadId, pc: Pc, sh: Shared, e: Effect, pc': Pc)
    requires Transfers(pc, sh, e, pc') && Locks(pc, sh, e, pc') && ArrivesCounting(sh, e, pc')
    requires Owned(pc).Some? ==> Owned(pc).value !in sh.bcs
    requires PoolCounts(sh) && PointCounts(pc, sh.conns)
    ensures PoolCounts(Apply(id, e, sh))
  {
    hide PointOk, ConnOk, Critical;
    if e.Put? {
      assert pc.RelPark?;
    } else {
      hide Counts;
    }
  }

  lemma OtherStays(id: ThreadId, pc: Pc, sh: Shared, e: Effect, pc': Pc, other: Pc)
    requires Transfers(pc, sh, e, pc') && Disjoint(other, pc) && StatsOk(other, sh.conns)
    requires PointCounts(other, sh.conns)
    ensures PointCounts(other, Apply(id, e, sh).conns)
  {
    hide Counts, ConnOk;
  }

  lemma OwnFacts(i: ThreadId, pc: Pc, sh: Shared)
    requires LocalOk(i, pc, sh)
    ensures StatsOk(pc, sh.conns) && (Owned(pc).Some? ==> Owned(pc).value !in sh.bcs)
  {
  }

  lemma RunCounts(s: State, i: ThreadId, e: Effect, pc': Pc, s': State)
    requires LocalInv(s) && AllCounts(s) && Next(s, Run(i, e, pc'), s')
    ensures AllCounts(s')
  {
    hide Moves, SharedOk, StatsOk, LocalOk, Transfers, Locks, Disjoint, PointCounts, PoolCounts, ArrivesCounting, Apply, Owned;
    var pc := s.ts[i];
    assert LocalOk(i, pc, s.sh) && PointCounts(pc, s.sh.conns);
    OwnFacts(i, pc, s.sh);
    RunTransfers(s, i, e, pc', s');
    MovesLock(pc, s.sh, e, pc');
    MoveCounts(pc, s.sh, e, pc');
    MoverStays(i, pc, s.sh, e, pc');
    PoolStays(i, pc, s.sh, e, pc');
    forall j | 0 <= j < |s.ts| && j != i ensures PointCounts(s.ts[j], s'.sh.conns) {
      assert LocalOk(j, s.ts[j], s.sh) && Disjoint(s.ts[j], pc);
      OwnFacts(j, s.ts[j], s.sh);
      OtherStays(i, pc, s.sh, e, pc', s.ts[j]);
    }
  }

  lemma EventCounts(pc: Pc, b: Conn, v: Event)
    requires Counts(pc, b)
    ensures Counts(pc, AfterEvent(b, v))
    ensures AfterEvent(b, v).parkedRd == b.parkedRd && AfterEvent(b, v).seenRd == b.seenRd
    ensures b.used <= b.rd ==> AfterEvent(b, v).used <= AfterEvent(b, v).rd
  {
  }

  lemma NetworkCounts(s: State, c: ConnId, v: Event, s': State)
    requires AllCounts(s) && Next(s, Network(c, v), s')
    ensures AllCounts(s')
  {
    hide Counts, AfterEvent;
    forall i | 0 <= i < |s'.ts| ensures PointCounts(s'.ts[i], s'.sh.conns) {
      assert PointCounts(s.ts[i], s.sh.conns);
      if Owned(s.ts[i]) == Some(c) {
        EventCounts(s.ts[i], s.sh.conns[c], v);
      }
    }
    ReadyCounts(s.sh.conns[c]);
    EventCounts(Ready, s.sh.conns[c], v);
  }

  lemma ReadyCounts(b: Conn)
    ensures Counts(Ready, b)
  {
  }

  lemma CallersCount(s: State, a: Action, s': State)
    requires AllCounts(s) && (a == Spawn || a == Borrow) && Next(s, a, s')
    ensures AllCounts(s')
  {
    hide Counts;
    forall i | 0 <= i < |s'.ts| ensures PointCounts(s'.ts[i], s'.sh.conns) {
      if i < |s.ts| {
        assert PointCounts(s.ts[i], s.sh.conns);
      }
    }
  }

  // ---- every execution ---------------------------------------------------------------------------------------------

  lemma {:induction false} ExecutionCounts(states: seq<State>, actions: seq<Action>, k: nat)
    requires Execution(states, actions) && k < |states|
    ensures AllCounts(states[k])
  {
    hide AllCounts, LocalInv, NoLeak, Balanced;
    if k > 0 {
      ExecutionCounts(states, actions, k - 1);
      ExecutionKeeps(states, actions, k - 1);
      var s, a, s' := states[k - 1], actions[k - 1], states[k];
      assert Next(s, a, s');
      hide Next, Execution;
      match a
      case Run(i, e, pc') => RunCounts(s, i, e, pc', s');
      case Network(c, v) => NetworkCounts(s, c, v, s');
      case _ => CallersCount(s, a, s');
    } else {
      Nobody();
    }
  }

  lemma Nobody()
    ensures AllCounts(INIT_STATE)
  {
  }

  /** When a connection is handed out again, nothing of what had come till it was taken is unread, exactly if its last
      holder has read everything that had come till it last reset the statistics.  That the reader's buffer was empty then
      is not enough. */
  lemma NothingUnreadExactly(states: seq<State>, actions: seq<Action>, k: nat, i: ThreadId)
    requires Execution(states, actions) && k < |states| && i < |states[k].ts|
    requires states[k].ts[i].AcqTotal? && states[k].ts[i].bc.Some?
    ensures var c := states[k].ts[i].bc.value;
            && c < |states[k].sh.conns|
            && var b := states[k].sh.conns[c];
            && b.used <= b.rd && b.takenRd == b.seenRd
            && (b.used == b.takenRd <==> b.used == b.seenRd)
  {
    ExecutionCounts(states, actions, k);
    ExecutionKeeps(states, actions, k);
    hide Execution, NoLeak, Balanced, ConnOk, PointOk, Critical, SharedOk;
    assert LocalOk(i, states[k].ts[i], states[k].sh) && PointCounts(states[k].ts[i], states[k].sh.conns);
  }
}
