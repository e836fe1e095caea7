/** The connection pool of one backend server (pkg/lb/backendserver.go) as a step system.

    Any number of goroutines run ConnAcquire, ConnRelease and Close; one more runs the janitor.  A step of a
    goroutine is one access to shared memory: one counter update, one map update, one lock operation, one read of a
    connection's state.  Between any two steps the other goroutines and the peers of the connections may move. */
module ConnPool {
  import opened Options
  import opened Exchanges

  type ConnId = nat
  type ThreadId = nat

  /** A dialled connection.  `failed` is the guarded error field being set, `closed` says that this side has closed
      it, `nr` and `nw` are the counters that Stats swaps to zero.  The rest is history: bytes ever counted, the totals
      when the connection was last parked and last taken out of the pool, the outcome of its last exchange, the bytes its
      holders have ever read, and the total read by this side when a holder last swapped `nr`. */
  datatype Conn = Conn(failed: bool, closed: bool, nr: nat, nw: nat,
                       rd: nat, wr: nat, parkedRd: nat, parkedWr: nat, takenRd: nat, takenWr: nat, takenAlive: bool,
                       last: Option<Outcome>, used: nat, seenRd: nat)

  const FRESH_CONN := Conn(false, false, 0, 0, 0, 0, 0, 0, 0, 0, false, None, 0, 0)

  /** What the goroutines share.  `conns` holds every connection ever dialled; `drained` is history: some Close has
      found the map empty under the lock. */
  datatype Shared = Shared(bcs: set<ConnId>, conns: seq<Conn>, idle: int, active: int, total: int,
                           lock: Option<ThreadId>, shared: bool, cancelled: bool, workerDone: bool, drained: bool)

  /** Which loop removed a connection from the map, and where to go on. */
  datatype Loop = Acquire | Sweep(todo: set<ConnId>) | Drain | Release

  datatype Pc =
    | Ready                                        // no call in progress, no lease
    // ConnAcquire
    | AcqLock | AcqNext
    | AcqCheck(c: ConnId) | AcqStatsR(c: ConnId) | AcqStatsW(c: ConnId, r: nat)
    | AcqUnlock(bc: Option<ConnId>) | AcqActive(bc: Option<ConnId>) | AcqTotal(bc: Option<ConnId>)
    | AcqDial | AcqUndoActive | AcqUndoTotal
    // the caller owns the lease, before and after its exchange
    | Held(c: ConnId, reused: bool, x: Option<Outcome>)
    // ConnRelease
    | RelActive(c: ConnId) | RelTotal(c: ConnId) | RelLock(c: ConnId) | RelCtx(c: ConnId) | RelCheck(c: ConnId)
    | RelStatsR(c: ConnId) | RelStatsW(c: ConnId, r: nat) | RelPark(c: ConnId)
    | RelIdle(c: ConnId) | RelAddTotal(c: ConnId) | RelUnlock
    // worker
    | JanWait | JanNext(todo: set<ConnId>) | JanCheck(c: ConnId, todo: set<ConnId>) | JanExit
    // Close
    | ClsCancel | ClsWait | ClsLock | ClsNext | ClsUnlock
    // removal from the map, in any of the loops: the two counters, then the close
    | DropIdle(c: ConnId, k: Loop) | DropTotal(c: ConnId, k: Loop) | Shut(c: ConnId, k: Loop)

  datatype State = State(sh: Shared, ts: seq<Pc>)

  // ---- steps -----------------------------------------------------------------------------------------------------

  /** One access to shared memory. */
  datatype Effect =
    | Look                                     // a read, or a choice of the caller
    | Take(c: ConnId) | Put(c: ConnId)         // the map
    | AddIdle(d: int) | AddActive(d: int) | AddTotal(d: int)
    | Grab | Leave                             // the lock of the map
    | Touch(c: ConnId, b: Conn)                // one connection
    | Dial
    | Cancel | WorkerExit | MarkDrained | Unshare

  function Apply(id: ThreadId, e: Effect, sh: Shared): Shared {
    match e
    case Look => sh
    case Take(c) => sh.(bcs := sh.bcs - {c})
    case Put(c) => sh.(bcs := sh.bcs + {c})
    case AddIdle(d) => sh.(idle := sh.idle + d)
    case AddActive(d) => sh.(active := sh.active + d)
    case AddTotal(d) => sh.(total := sh.total + d)
    case Grab => sh.(lock := Some(id))
    case Leave => sh.(lock := None)
    case Touch(c, b) => if c < |sh.conns| then sh.(conns := sh.conns[c := b]) else sh
    case Dial => sh.(conns := sh.conns + [FRESH_CONN])
    case Cancel => sh.(cancelled := true)
    case WorkerExit => sh.(workerDone := true)
    case MarkDrained => sh.(drained := true)
    case Unshare => sh.(shared := false)
  }

  predicate Dialled(c: ConnId, sh: Shared) {
    c < |sh.conns|
  }

  /** bufConn.Close: the error field is set and the socket is closed. */
  function Closed(b: Conn): Conn {
    b.(failed := true, closed := true)
  }

  /** The two halves of Stats, when a connection is about to be parked and when it has been taken.  The marks record
      the totals at that moment. */
  function ParkRead(b: Conn): Conn { b.(nr := 0, parkedRd := b.rd) }
  function ParkWrite(b: Conn): Conn { b.(nw := 0, parkedWr := b.wr) }
  function TakeRead(b: Conn): Conn { b.(nr := 0, takenRd := b.rd) }
  function TakeWrite(b: Conn): Conn { b.(nw := 0, takenWr := b.wr) }

  /** Where a loop goes on after a connection has left the map and has been closed. */
  function AfterShut(k: Loop): Pc {
    match k
    case Acquire => AcqNext
    case Sweep(todo) => JanNext(todo)
    case Drain => ClsNext
    case Release => RelUnlock
  }

  /** A goroutine at `pc` that sees `sh` may perform `e` and go on at `pc'`. */
  ghost predicate Moves(pc: Pc, sh: Shared, e: Effect, pc': Pc) {
    || AcquireMoves(pc, sh, e, pc') || LeaseMoves(pc, sh, e, pc')
    || ReleaseMoves(pc, sh, e, pc') || ServerMoves(pc, sh, e, pc') || RemovalMoves(pc, sh, e, pc')
  }

  ghost predicate AcquireMoves(pc: Pc, sh: Shared, e: Effect, pc': Pc) {
    match pc
    case Ready => e == Look && pc' == AcqLock
    case AcqLock => sh.lock == None && e == Grab && pc' == AcqNext
    case AcqNext =>
      if sh.bcs == {} then e == Look && pc' == AcqUnlock(None)
      else e.Take? && e.c in sh.bcs && pc' == DropIdle(e.c, Acquire)
    case AcqCheck(c) =>
      Dialled(c, sh) &&
      if sh.conns[c].failed then e == Look && pc' == Shut(c, Acquire)
      else e == Touch(c, sh.conns[c].(takenAlive := !sh.conns[c].failed)) && pc' == AcqStatsR(c)
    case AcqStatsR(c) => Dialled(c, sh) && e == Touch(c, TakeRead(sh.conns[c])) && pc' == AcqStatsW(c, sh.conns[c].nr)
    case AcqStatsW(c, r) =>
      Dialled(c, sh) && e == Touch(c, TakeWrite(sh.conns[c])) &&
      pc' == if r != 0 || sh.conns[c].nw != 0 then Shut(c, Acquire) else AcqUnlock(Some(c))
    case _ => false
  }

  /** A lease: it is counted, with a connection from the map or a dialled one, or it comes to nothing.  Then the caller has
      one exchange.  It reads what has come, reads and resets the statistics or closes its connection, any number of times,
      and releases it after the exchange, having closed it unless the exchange was good. */
  ghost predicate LeaseMoves(pc: Pc, sh: Shared, e: Effect, pc': Pc) {
    match pc
    case AcqUnlock(bc) => e == Leave && pc' == AcqActive(bc)
    case AcqActive(bc) => e == AddActive(1) && pc' == AcqTotal(bc)
    case AcqTotal(bc) => e == AddTotal(1) && pc' == if bc.Some? then Held(bc.value, true, None) else AcqDial
    case AcqDial => (e == Dial && pc' == Held(|sh.conns|, false, None)) || (e == Look && pc' == AcqUndoActive)
    case AcqUndoActive => e == AddActive(-1) && pc' == AcqUndoTotal
    case AcqUndoTotal => e == AddTotal(-1) && pc' == Ready
    case Held(c, reused, x) =>
      && Dialled(c, sh)
      && (|| (e == Touch(c, sh.conns[c].(nr := 0, seenRd := sh.conns[c].rd)) && pc' == pc)
          || (e == Touch(c, sh.conns[c].(nw := 0)) && pc' == pc)
          || (e == Touch(c, Closed(sh.conns[c])) && pc' == pc)
          || (e.Touch? && e == Touch(c, sh.conns[c].(used := e.b.used))
              && sh.conns[c].used <= e.b.used <= sh.conns[c].rd && pc' == pc)
          || (x == None && pc'.Held? && pc'.x.Some? && pc' == Held(c, reused, pc'.x)
              && e == Touch(c, sh.conns[c].(last := pc'.x)))
          || (x.Some? && (x.value.Good() || sh.conns[c].closed) && e == Look && pc' == RelActive(c)))
    case _ => false
  }

  ghost predicate ReleaseMoves(pc: Pc, sh: Shared, e: Effect, pc': Pc) {
    match pc
    case RelActive(c) => e == AddActive(-1) && pc' == RelTotal(c)
    case RelTotal(c) => e == AddTotal(-1) && pc' == RelLock(c)
    case RelLock(c) => sh.lock == None && e == Grab && pc' == RelCtx(c)
    case RelCtx(c) => e == Look && pc' == if sh.cancelled then Shut(c, Release) else RelCheck(c)
    case RelCheck(c) =>
      Dialled(c, sh) && e == Look && pc' == if sh.conns[c].failed then Shut(c, Release) else RelStatsR(c)
    case RelStatsR(c) => Dialled(c, sh) && e == Touch(c, ParkRead(sh.conns[c])) && pc' == RelStatsW(c, sh.conns[c].nr)
    case RelStatsW(c, r) =>
      Dialled(c, sh) && e == Touch(c, ParkWrite(sh.conns[c])) &&
      pc' == if r != 0 || sh.conns[c].nw != 0 then Shut(c, Release) else RelPark(c)
    case RelPark(c) => if c in sh.bcs then e == Look && pc' == RelUnlock else e == Put(c) && pc' == RelIdle(c)
    case RelIdle(c) => e == AddIdle(1) && pc' == RelAddTotal(c)
    case RelAddTotal(c) => e == AddTotal(1) && pc' == RelUnlock
    case RelUnlock => e == Leave && pc' == Ready
    case _ => false
  }

  /** The worker and Close. */
  ghost predicate ServerMoves(pc: Pc, sh: Shared, e: Effect, pc': Pc) {
    match pc
    // worker
    case JanWait =>
      || (sh.lock == None && e == Grab && pc' == JanNext(sh.bcs))
      || (sh.cancelled && e == WorkerExit && pc' == JanExit)
    case JanNext(todo) =>
      if todo == {} then e == Leave && pc' == JanWait
      else e == Look && pc'.JanCheck? && pc'.c in todo && pc'.todo == todo - {pc'.c}
    case JanCheck(c, todo) =>
      Dialled(c, sh) &&
      if sh.conns[c].failed then e == Take(c) && pc' == DropIdle(c, Sweep(todo)) else e == Look && pc' == JanNext(todo)
    // Close
    case Ready => if sh.shared then e == Unshare && pc' == Ready else e == Look && pc' == ClsCancel
    case ClsCancel => e == Cancel && pc' == ClsWait
    case ClsWait => sh.workerDone && e == Look && pc' == ClsLock
    case ClsLock => sh.lock == None && e == Grab && pc' == ClsNext
    case ClsNext =>
      if sh.bcs == {} then e == MarkDrained && pc' == ClsUnlock
      else e.Take? && e.c in sh.bcs && pc' == DropIdle(e.c, Drain)
    case ClsUnlock => e == Leave && pc' == Ready
    case _ => false
  }

  /** The removal that all loops share: the two counters, then the close. */
  ghost predicate RemovalMoves(pc: Pc, sh: Shared, e: Effect, pc': Pc) {
    match pc
    case DropIdle(c, k) => e == AddIdle(-1) && pc' == DropTotal(c, k)
    case DropTotal(c, k) => e == AddTotal(-1) && pc' == if k == Acquire then AcqCheck(c) else Shut(c, k)
    case Shut(c, k) => Dialled(c, sh) && e == Touch(c, Closed(sh.conns[c])) && pc' == AfterShut(k)
    case _ => false
  }

  /** What the network may do to a connection: the peer goes away, or bytes are counted in either direction. */
  datatype Event = PeerGone | BytesRead(n: nat) | BytesWritten(n: nat)

  function AfterEvent(b: Conn, v: Event): Conn {
    match v
    case PeerGone => b.(failed := true)
    case BytesRead(n) => b.(nr := b.nr + n, rd := b.rd + n)
    case BytesWritten(n) => b.(nw := b.nw + n, wr := b.wr + n)
  }

  /** A step of a goroutine, of the network, a new caller, or HTTPBackend.Fork borrowing the server. */
  datatype Action = Run(id: ThreadId, e: Effect, pc: Pc) | Network(c: ConnId, v: Event) | Spawn | Borrow

  ghost predicate Next(s: State, a: Action, s': State) {
    match a
    case Run(i, e, pc') =>
      i < |s.ts| && Moves(s.ts[i], s.sh, e, pc') && s' == State(Apply(i, e, s.sh), s.ts[i := pc'])
    case Network(c, v) =>
      Dialled(c, s.sh) && s' == s.(sh := s.sh.(conns := s.sh.conns[c := AfterEvent(s.sh.conns[c], v)]))
    case Spawn => s' == s.(ts := s.ts + [Ready])
    case Borrow => s' == s.(sh := s.sh.(shared := true))
  }

  /** newBackendServer: an empty pool and a running worker. */
  const INIT_STATE := State(Shared({}, [], 0, 0, 0, None, false, false, false, false), [JanWait])

  ghost predicate Execution(states: seq<State>, actions: seq<Action>) {
    |states| == |actions| + 1 && states[0] == INIT_STATE &&
    forall k :: 0 <= k < |actions| ==> Next(states[k], actions[k], states[k + 1])
  }
}
