/** What every execution of the connection pool keeps. */
module ConnPoolProofs {
  import opened Options
  import opened Tally
  import opened ConnPool

  // ---- what one goroutine owes and owns --------------------------------------------------------------------------

  /** Idle count still to be corrected by a goroutine at this point. */
  ghost function WIdle(pc: Pc): int {
    if pc.DropIdle? then 1 else if pc.RelIdle? then -1 else 0
  }

  /** One for a goroutine whose increment of the active count stands. */
  ghost function WActive(pc: Pc): int {
    match pc
    case AcqTotal(_) => 1
    case AcqDial => 1
    case AcqUndoActive => 1
    case Held(_, _, _) => 1
    case RelActive(_) => 1
    case _ => 0
  }

  /** Total count still to be corrected, or standing for a lease. */
  ghost function WTotal(pc: Pc): int {
    match pc
    case DropIdle(_, _) => 1
    case DropTotal(_, _) => 1
    case AcqDial => 1
    case AcqUndoActive => 1
    case AcqUndoTotal => 1
    case Held(_, _, _) => 1
    case RelActive(_) => 1
    case RelTotal(_) => 1
    case RelIdle(_) => -1
    case RelAddTotal(_) => -1
    case _ => 0
  }

  /** The difference between total and active plus idle that a goroutine accounts for. */
  ghost function WDrift(pc: Pc): int {
    WTotal(pc) - WActive(pc) - WIdle(pc)
  }

  /** The connection a goroutine alone may touch. */
  ghost function Owned(pc: Pc): Option<ConnId> {
    match pc
    case AcqCheck(c) => Some(c)
    case AcqStatsR(c) => Some(c)
    case AcqStatsW(c, _) => Some(c)
    case AcqUnlock(bc) => bc
    case AcqActive(bc) => bc
    case AcqTotal(bc) => bc
    case Held(c, _, _) => Some(c)
    case RelActive(c) => Some(c)
    case RelTotal(c) => Some(c)
    case RelLock(c) => Some(c)
    case RelCtx(c) => Some(c)
    case RelCheck(c) => Some(c)
    case RelStatsR(c) => Some(c)
    case RelStatsW(c, _) => Some(c)
    case RelPark(c) => Some(c)
    case DropIdle(c, _) => Some(c)
    case DropTotal(c, _) => Some(c)
    case Shut(c, _) => Some(c)
    case _ => None
  }

  ghost predicate Disjoint(pc: Pc, other: Pc) {
    Owned(pc) == None || Owned(pc) != Owned(other)
  }

  /** Between taking and leaving the lock of the map. */
  ghost predicate Critical(pc: Pc) {
    match pc
    case AcqNext => true
    case AcqCheck(_) => true
    case AcqStatsR(_) => true
    case AcqStatsW(_, _) => true
    case AcqUnlock(_) => true
    case RelCtx(_) => true
    case RelCheck(_) => true
    case RelStatsR(_) => true
    case RelStatsW(_, _) => true
    case RelPark(_) => true
    case RelIdle(_) => true
    case RelAddTotal(_) => true
    case RelUnlock => true
    case JanNext(_) => true
    case JanCheck(_, _) => true
    case ClsNext => true
    case ClsUnlock => true
    case DropIdle(_, _) => true
    case DropTotal(_, _) => true
    case Shut(_, _) => true
    case _ => false
  }

  /** The counters of Stats are the bytes counted since the connection was parked. */
  ghost predicate Marked(b: Conn) {
    b.nr == b.rd - b.parkedRd && b.nw == b.wr - b.parkedWr
  }

  /** Nothing was counted between parking and taking, and the connection was alive when taken. */
  ghost predicate CleanTake(b: Conn) {
    b.takenAlive && b.takenRd == b.parkedRd && b.takenWr == b.parkedWr
  }

  /** The promise about an owned connection, point by point. */
  ghost predicate ConnOk(pc: Pc, b: Conn) {
    match pc
    case DropIdle(_, k) => k == Acquire ==> Marked(b)
    case DropTotal(_, k) => k == Acquire ==> Marked(b)
    case AcqCheck(_) => Marked(b)
    case AcqStatsR(_) => Marked(b) && b.takenAlive
    case AcqStatsW(_, r) => b.takenAlive && b.nw == b.wr - b.parkedWr && (r == 0 ==> b.takenRd == b.parkedRd)
    case AcqUnlock(_) => CleanTake(b)
    case AcqActive(_) => CleanTake(b)
    case AcqTotal(_) => CleanTake(b)
    case Held(_, reused, _) => reused ==> CleanTake(b)
    case RelStatsR(_) => !b.closed
    case RelStatsW(_, _) => !b.closed && b.nr == b.rd - b.parkedRd
    case RelPark(_) => !b.closed && Marked(b)
    case _ => true
  }

  ghost predicate StatsOk(pc: Pc, conns: seq<Conn>) {
    Owned(pc).Some? ==> Owned(pc).value < |conns| && ConnOk(pc, conns[Owned(pc).value])
  }

  ghost predicate LoopOk(k: Loop, sh: Shared) {
    match k
    case Sweep(todo) => todo <= sh.bcs
    case Drain => sh.cancelled
    case _ => true
  }

  /** What holds at each point of each loop. */
  ghost predicate PointOk(pc: Pc, sh: Shared) {
    match pc
    case RelCheck(_) => !sh.drained
    case RelStatsR(_) => !sh.drained
    case RelStatsW(_, _) => !sh.drained
    case RelPark(_) => !sh.drained
    case RelIdle(c) => !sh.drained && c in sh.bcs
    case RelAddTotal(c) => !sh.drained && c in sh.bcs
    case JanNext(todo) => todo <= sh.bcs
    case JanCheck(c, todo) => c in sh.bcs && c !in todo && todo <= sh.bcs
    case ClsWait => sh.cancelled
    case ClsLock => sh.cancelled
    case ClsNext => sh.cancelled
    case ClsUnlock => sh.cancelled && sh.drained
    case DropIdle(_, k) => k != Release && LoopOk(k, sh)
    case DropTotal(_, k) => k != Release && LoopOk(k, sh)
    case Shut(_, k) => LoopOk(k, sh)
    case _ => true
  }

  ghost predicate LocalOk(id: ThreadId, pc: Pc, sh: Shared) {
    && (Critical(pc) <==> sh.lock == Some(id))
    && (Owned(pc).Some? ==> Owned(pc).value !in sh.bcs)
    && PointOk(pc, sh)
    && StatsOk(pc, sh.conns)
  }

  ghost predicate SharedOk(sh: Shared) {
    && (forall c :: c in sh.bcs ==> Dialled(c, sh) && !sh.conns[c].closed && Marked(sh.conns[c]))
    && (forall c :: 0 <= c < |sh.conns| ==> (sh.conns[c].closed ==> sh.conns[c].failed))
    && (sh.drained ==> sh.cancelled && sh.bcs == {})
  }

  // ---- one step, seen from the goroutine that takes it -----------------------------------------------------------

  /** How an effect moves a connection between the map and the hands of its goroutine.  A connection that leaves both
      has just been closed. */
  ghost predicate Transfers(pc: Pc, sh: Shared, e: Effect, pc': Pc) {
    match e
    case Take(c) => c in sh.bcs && Owned(pc) == None && Owned(pc') == Some(c)
    case Put(c) => c !in sh.bcs && Owned(pc) == Some(c) && Owned(pc') == None
    case Dial => Owned(pc) == None && Owned(pc') == Some(|sh.conns|)
    case Touch(c, b) =>
      && Dialled(c, sh) && Owned(pc) == Some(c) && (Owned(pc') == Some(c) || (Owned(pc') == None && b.closed))
      && (sh.conns[c].closed ==> b.closed)
      && (sh.conns[c].failed ==> b.failed) && (b.closed ==> b.failed || sh.conns[c].closed)
    case _ => Owned(pc') == Owned(pc)
  }

  /** How far an effect makes each counter deviate from the map. */
  ghost function Slip(e: Effect): (d: (int, int, int)) {
    match e
    case Take(_) => (1, 0, 1)
    case Put(_) => (-1, 0, -1)
    case AddIdle(d) => (d, 0, 0)
    case AddActive(d) => (0, d, 0)
    case AddTotal(d) => (0, 0, d)
    case _ => (0, 0, 0)
  }

  /** The debts of the goroutine change by exactly that much. */
  ghost predicate Owes(pc: Pc, e: Effect, pc': Pc) {
    (WIdle(pc') - WIdle(pc), WActive(pc') - WActive(pc), WTotal(pc') - WTotal(pc)) == Slip(e)
  }

  /** Which effects need the lock, and how it is taken and left. */
  ghost predicate Locks(pc: Pc, sh: Shared, e: Effect, pc': Pc) {
    match e
    case Grab => sh.lock == None && !Critical(pc) && Critical(pc')
    case Leave => Critical(pc) && !Critical(pc')
    case Take(_) => Critical(pc) && Critical(pc')
    case Put(_) => pc.RelPark? && Critical(pc')
    case MarkDrained => Critical(pc) && pc'.ClsUnlock? && sh.bcs == {}
    case _ => Critical(pc') == Critical(pc)
  }

  /** The connection is as the next point expects it. */
  ghost predicate HandsOver(sh: Shared, e: Effect, pc': Pc) {
    match e
    case Take(c) => c < |sh.conns| ==> ConnOk(pc', sh.conns[c])
    case Touch(c, b) => Owned(pc').Some? ==> ConnOk(pc', b)
    case Dial => ConnOk(pc', FRESH_CONN)
    case _ => StatsOk(pc', sh.conns)
  }

  ghost predicate Allowed(id: ThreadId, pc: Pc, sh: Shared) {
    SharedOk(sh) && LocalOk(id, pc, sh)
  }

  lemma AcquireMovesTransfer(pc: Pc, sh: Shared, e: Effect, pc': Pc)
    requires AcquireMoves(pc, sh, e, pc')
    requires PointOk(pc, sh) && (Owned(pc).Some? ==> Owned(pc).value !in sh.bcs)
    ensures Transfers(pc, sh, e, pc')
  {
  }

  lemma LeaseMovesTransfer(pc: Pc, sh: Shared, e: Effect, pc': Pc)
    requires LeaseMoves(pc, sh, e, pc')
    requires PointOk(pc, sh) && (Owned(pc).Some? ==> Owned(pc).value !in sh.bcs)
    ensures Transfers(pc, sh, e, pc')
  {
  }

  lemma ReleaseMovesTransfer(pc: Pc, sh: Shared, e: Effect, pc': Pc)
    requires ReleaseMoves(pc, sh, e, pc')
    requires PointOk(pc, sh) && (Owned(pc).Some? ==> Owned(pc).value !in sh.bcs)
    ensures Transfers(pc, sh, e, pc')
  {
  }

  lemma ServerMovesTransfer(pc: Pc, sh: Shared, e: Effect, pc': Pc)
    requires ServerMoves(pc, sh, e, pc')
    requires PointOk(pc, sh) && (Owned(pc).Some? ==> Owned(pc).value !in sh.bcs)
    ensures Transfers(pc, sh, e, pc')
  {
  }

  lemma RemovalMovesTransfer(pc: Pc, sh: Shared, e: Effect, pc': Pc)
    requires RemovalMoves(pc, sh, e, pc')
    requires PointOk(pc, sh) && (Owned(pc).Some? ==> Owned(pc).value !in sh.bcs)
    ensures Transfers(pc, sh, e, pc')
  {
  }

  lemma MovesTransfer(pc: Pc, sh: Shared, e: Effect, pc': Pc)
    requires Moves(pc, sh, e, pc')
    requires PointOk(pc, sh) && (Owned(pc).Some? ==> Owned(pc).value !in sh.bcs)
    ensures Transfers(pc, sh, e, pc')
  {
    hide AcquireMoves, LeaseMoves, ReleaseMoves, ServerMoves, RemovalMoves, Transfers;
    if AcquireMoves(pc, sh, e, pc') {
      AcquireMovesTransfer(pc, sh, e, pc');
    } else if LeaseMoves(pc, sh, e, pc') {
      LeaseMovesTransfer(pc, sh, e, pc');
    } else if ReleaseMoves(pc, sh, e, pc') {
      ReleaseMovesTransfer(pc, sh, e, pc');
    } else if ServerMoves(pc, sh, e, pc') {
      ServerMovesTransfer(pc, sh, e, pc');
    } else {
      RemovalMovesTransfer(pc, sh, e, pc');
    }
  }

  lemma AcquireMovesOwe(pc: Pc, sh: Shared, e: Effect, pc': Pc)
    requires AcquireMoves(pc, sh, e, pc')
    ensures Owes(pc, e, pc')
  {
  }

  lemma LeaseMovesOwe(pc: Pc, sh: Shared, e: Effect, pc': Pc)
    requires LeaseMoves(pc, sh, e, pc')
    ensures Owes(pc, e, pc')
  {
  }

  lemma ReleaseMovesOwe(pc: Pc, sh: Shared, e: Effect, pc': Pc)
    requires ReleaseMoves(pc, sh, e, pc')
    ensures Owes(pc, e, pc')
  {
  }

  lemma ServerMovesOwe(pc: Pc, sh: Shared, e: Effect, pc': Pc)
    requires ServerMoves(pc, sh, e, pc')
    ensures Owes(pc, e, pc')
  {
  }

  lemma RemovalMovesOwe(pc: Pc, sh: Shared, e: Effect, pc': Pc)
    requires RemovalMoves(pc, sh, e, pc')
    ensures Owes(pc, e, pc')
  {
  }

  lemma MovesOwe(pc: Pc, sh: Shared, e: Effect, pc': Pc)
    requires Moves(pc, sh, e, pc')
    ensures Owes(pc, e, pc')
  {
    hide AcquireMoves, LeaseMoves, ReleaseMoves, ServerMoves, RemovalMoves, Owes;
    if AcquireMoves(pc, sh, e, pc') {
      AcquireMovesOwe(pc, sh, e, pc');
    } else if LeaseMoves(pc, sh, e, pc') {
      LeaseMovesOwe(pc, sh, e, pc');
    } else if ReleaseMoves(pc, sh, e, pc') {
      ReleaseMovesOwe(pc, sh, e, pc');
    } else if ServerMoves(pc, sh, e, pc') {
      ServerMovesOwe(pc, sh, e, pc');
    } else {
      RemovalMovesOwe(pc, sh, e, pc');
    }
  }

  lemma AcquireMovesLock(pc: Pc, sh: Shared, e: Effect, pc': Pc)
    requires AcquireMoves(pc, sh, e, pc')
    ensures Locks(pc, sh, e, pc')
  {
  }

  lemma LeaseMovesLock(pc: Pc, sh: Shared, e: Effect, pc': Pc)
    requires LeaseMoves(pc, sh, e, pc')
    ensures Locks(pc, sh, e, pc')
  {
  }

  lemma ReleaseMovesLock(pc: Pc, sh: Shared, e: Effect, pc': Pc)
    requires ReleaseMoves(pc, sh, e, pc')
    ensures Locks(pc, sh, e, pc')
  {
  }

  lemma ServerMovesLock(pc: Pc, sh: Shared, e: Effect, pc': Pc)
    requires ServerMoves(pc, sh, e, pc')
    ensures Locks(pc, sh, e, pc')
  {
  }

  lemma RemovalMovesLock(pc: Pc, sh: Shared, e: Effect, pc': Pc)
    requires RemovalMoves(pc, sh, e, pc')
    ensures Locks(pc, sh, e, pc')
  {
  }

  lemma MovesLock(pc: Pc, sh: Shared, e: Effect, pc': Pc)
    requires Moves(pc, sh, e, pc')
    ensures Locks(pc, sh, e, pc')
  {
    hide AcquireMoves, LeaseMoves, ReleaseMoves, ServerMoves, RemovalMoves, Locks;
    if AcquireMoves(pc, sh, e, pc') {
      AcquireMovesLock(pc, sh, e, pc');
    } else if LeaseMoves(pc, sh, e, pc') {
      LeaseMovesLock(pc, sh, e, pc');
    } else if ReleaseMoves(pc, sh, e, pc') {
      ReleaseMovesLock(pc, sh, e, pc');
    } else if ServerMoves(pc, sh, e, pc') {
      ServerMovesLock(pc, sh, e, pc');
    } else {
      RemovalMovesLock(pc, sh, e, pc');
    }
  }

  lemma AcquireMovesKeepPoint(id: ThreadId, pc: Pc, sh: Shared, e: Effect, pc': Pc)
    requires AcquireMoves(pc, sh, e, pc')
    requires PointOk(pc, sh) && (sh.drained ==> sh.cancelled)
    ensures PointOk(pc', Apply(id, e, sh))
  {
  }

  lemma LeaseMovesKeepPoint(id: ThreadId, pc: Pc, sh: Shared, e: Effect, pc': Pc)
    requires LeaseMoves(pc, sh, e, pc')
    requires PointOk(pc, sh) && (sh.drained ==> sh.cancelled)
    ensures PointOk(pc', Apply(id, e, sh))
  {
  }

  lemma ReleaseMovesKeepPoint(id: ThreadId, pc: Pc, sh: Shared, e: Effect, pc': Pc)
    requires ReleaseMoves(pc, sh, e, pc')
    requires PointOk(pc, sh) && (sh.drained ==> sh.cancelled)
    ensures PointOk(pc', Apply(id, e, sh))
  {
  }

  lemma ServerMovesKeepPoint(id: ThreadId, pc: Pc, sh: Shared, e: Effect, pc': Pc)
    requires ServerMoves(pc, sh, e, pc')
    requires PointOk(pc, sh) && (sh.drained ==> sh.cancelled)
    ensures PointOk(pc', Apply(id, e, sh))
  {
  }

  lemma RemovalMovesKeepPoint(id: ThreadId, pc: Pc, sh: Shared, e: Effect, pc': Pc)
    requires RemovalMoves(pc, sh, e, pc')
    requires PointOk(pc, sh) && (sh.drained ==> sh.cancelled)
    ensures PointOk(pc', Apply(id, e, sh))
  {
  }

  lemma MovesKeepPoint(id: ThreadId, pc: Pc, sh: Shared, e: Effect, pc': Pc)
    requires Moves(pc, sh, e, pc') && Allowed(id, pc, sh)
    ensures PointOk(pc', Apply(id, e, sh))
  {
    hide AcquireMoves, LeaseMoves, ReleaseMoves, ServerMoves, RemovalMoves, PointOk;
    if AcquireMoves(pc, sh, e, pc') {
      AcquireMovesKeepPoint(id, pc, sh, e, pc');
    } else if LeaseMoves(pc, sh, e, pc') {
      LeaseMovesKeepPoint(id, pc, sh, e, pc');
    } else if ReleaseMoves(pc, sh, e, pc') {
      ReleaseMovesKeepPoint(id, pc, sh, e, pc');
    } else if ServerMoves(pc, sh, e, pc') {
      ServerMovesKeepPoint(id, pc, sh, e, pc');
    } else {
      RemovalMovesKeepPoint(id, pc, sh, e, pc');
    }
  }

  lemma AcquireMovesKeepStats(pc: Pc, sh: Shared, e: Effect, pc': Pc)
    requires AcquireMoves(pc, sh, e, pc')
    requires StatsOk(pc, sh.conns)
    requires forall c :: c in sh.bcs ==> c < |sh.conns| && Marked(sh.conns[c])
    ensures HandsOver(sh, e, pc')
  {
  }

  lemma LeaseMovesKeepStats(pc: Pc, sh: Shared, e: Effect, pc': Pc)
    requires LeaseMoves(pc, sh, e, pc')
    requires StatsOk(pc, sh.conns)
    requires Owned(pc).Some? ==> (sh.conns[Owned(pc).value].closed ==> sh.conns[Owned(pc).value].failed)
    ensures HandsOver(sh, e, pc')
  {
  }

  lemma ReleaseMovesKeepStats(pc: Pc, sh: Shared, e: Effect, pc': Pc)
    requires ReleaseMoves(pc, sh, e, pc')
    requires StatsOk(pc, sh.conns)
    requires Owned(pc).Some? ==> (sh.conns[Owned(pc).value].closed ==> sh.conns[Owned(pc).value].failed)
    ensures HandsOver(sh, e, pc')
  {
  }

  lemma ServerMovesKeepStats(pc: Pc, sh: Shared, e: Effect, pc': Pc)
    requires ServerMoves(pc, sh, e, pc')
    requires StatsOk(pc, sh.conns)
    ensures HandsOver(sh, e, pc')
  {
  }

  lemma RemovalMovesKeepStats(pc: Pc, sh: Shared, e: Effect, pc': Pc)
    requires RemovalMoves(pc, sh, e, pc')
    requires StatsOk(pc, sh.conns)
    ensures HandsOver(sh, e, pc')
  {
  }

  lemma MovesKeepStats(pc: Pc, sh: Shared, e: Effect, pc': Pc)
    requires Moves(pc, sh, e, pc') && SharedOk(sh) && StatsOk(pc, sh.conns)
    ensures HandsOver(sh, e, pc')
  {
    hide AcquireMoves, LeaseMoves, ReleaseMoves, ServerMoves, RemovalMoves, HandsOver;
    if AcquireMoves(pc, sh, e, pc') {
      AcquireMovesKeepStats(pc, sh, e, pc');
    } else if LeaseMoves(pc, sh, e, pc') {
      LeaseMovesKeepStats(pc, sh, e, pc');
    } else if ReleaseMoves(pc, sh, e, pc') {
      ReleaseMovesKeepStats(pc, sh, e, pc');
    } else if ServerMoves(pc, sh, e, pc') {
      ServerMovesKeepStats(pc, sh, e, pc');
    } else {
      RemovalMovesKeepStats(pc, sh, e, pc');
    }
  }

  // ---- one step, seen from everybody else ------------------------------------------------------------------------

  lemma ParkKeepsShared(id: ThreadId, sh: Shared, c: ConnId)
    requires SharedOk(sh) && StatsOk(RelPark(c), sh.conns) && PointOk(RelPark(c), sh)
    ensures SharedOk(Apply(id, Put(c), sh))
  {
    hide Marked;
  }

  lemma OthersKeepShared(id: ThreadId, pc: Pc, sh: Shared, e: Effect, pc': Pc)
    requires SharedOk(sh) && Transfers(pc, sh, e, pc') && !e.Put?
    requires e.MarkDrained? ==> sh.cancelled && sh.bcs == {}
    requires Owned(pc).Some? ==> Owned(pc).value !in sh.bcs
    ensures SharedOk(Apply(id, e, sh))
  {
    hide Marked, Owned;
  }

  lemma KeepsShared(id: ThreadId, pc: Pc, sh: Shared, e: Effect, pc': Pc)
    requires SharedOk(sh) && StatsOk(pc, sh.conns) && PointOk(pc, sh)
    requires Transfers(pc, sh, e, pc') && Locks(pc, sh, e, pc')
    requires e.MarkDrained? ==> sh.cancelled
    requires Owned(pc).Some? ==> Owned(pc).value !in sh.bcs
    ensures SharedOk(Apply(id, e, sh))
  {
    hide SharedOk, PointOk, StatsOk, Apply, Critical;
    if e.Put? {
      ParkKeepsShared(id, sh, e.c);
    } else {
      OthersKeepShared(id, pc, sh, e, pc');
    }
  }

  lemma SelfLock(id: ThreadId, pc: Pc, sh: Shared, e: Effect, pc': Pc)
    requires Locks(pc, sh, e, pc') && (Critical(pc) <==> sh.lock == Some(id))
    ensures Critical(pc') <==> Apply(id, e, sh).lock == Some(id)
  {
    hide Critical;
    SomeAreCritical(pc);
    SomeAreCritical(pc');
  }

  lemma SomeAreCritical(pc: Pc)
    ensures pc.ClsUnlock? || pc.RelPark? ==> Critical(pc)
  {
  }

  lemma SelfOwns(id: ThreadId, pc: Pc, sh: Shared, e: Effect, pc': Pc)
    requires SharedOk(sh) && Transfers(pc, sh, e, pc') && (Owned(pc).Some? ==> Owned(pc).value !in sh.bcs)
    ensures Owned(pc').Some? ==> Owned(pc').value !in Apply(id, e, sh).bcs
  {
    hide Owned, Marked;
  }

  lemma SelfStats(id: ThreadId, pc: Pc, sh: Shared, e: Effect, pc': Pc)
    requires SharedOk(sh) && Transfers(pc, sh, e, pc') && HandsOver(sh, e, pc')
    ensures StatsOk(pc', Apply(id, e, sh).conns)
  {
    hide Owned, Marked, ConnOk;
  }

  lemma KeepsSelf(id: ThreadId, pc: Pc, sh: Shared, e: Effect, pc': Pc)
    requires SharedOk(sh) && LocalOk(id, pc, sh)
    requires Transfers(pc, sh, e, pc') && Locks(pc, sh, e, pc') && HandsOver(sh, e, pc')
    requires PointOk(pc', Apply(id, e, sh))
    ensures LocalOk(id, pc', Apply(id, e, sh))
  {
    hide PointOk, StatsOk, SharedOk, Transfers, Locks, HandsOver, Apply, Critical, Owned;
    SelfLock(id, pc, sh, e, pc');
    SelfOwns(id, pc, sh, e, pc');
    SelfStats(id, pc, sh, e, pc');
  }

  lemma PointStable(pc: Pc, sh: Shared, sh': Shared)
    requires PointOk(pc, sh)
    requires sh.cancelled ==> sh'.cancelled
    requires Critical(pc) ==> sh'.bcs == sh.bcs && sh'.drained == sh.drained
    ensures PointOk(pc, sh')
  {
  }

  lemma KeepsOther(id: ThreadId, pc: Pc, sh: Shared, e: Effect, pc': Pc, j: ThreadId, other: Pc)
    requires Transfers(pc, sh, e, pc') && Locks(pc, sh, e, pc') && LocalOk(id, pc, sh)
    requires j != id && LocalOk(j, other, sh) && Disjoint(other, pc)
    ensures LocalOk(j, other, Apply(id, e, sh)) && Disjoint(other, pc') && Disjoint(pc', other)
  {
    PointStable(other, sh, Apply(id, e, sh));
  }

  // ---- the whole system ------------------------------------------------------------------------------------------

  ghost predicate OwnedByNone(s: State, c: ConnId) {
    forall i :: 0 <= i < |s.ts| ==> Owned(s.ts[i]) != Some(c)
  }

  ghost predicate LocalInv(s: State) {
    && SharedOk(s.sh)
    && (forall i :: 0 <= i < |s.ts| ==> LocalOk(i, s.ts[i], s.sh))
    && (forall i, j :: 0 <= i < |s.ts| && 0 <= j < |s.ts| && i != j ==> Disjoint(s.ts[i], s.ts[j]))
    && (s.sh.lock.Some? ==> s.sh.lock.value < |s.ts|)
  }

  ghost predicate NoLeak(s: State) {
    forall c :: 0 <= c < |s.sh.conns| && c !in s.sh.bcs && OwnedByNone(s, c) ==> s.sh.conns[c].closed
  }

  ghost predicate Balanced(s: State) {
    && s.sh.idle == |s.sh.bcs| + Sum(s.ts, WIdle)
    && s.sh.active == Sum(s.ts, WActive)
    && s.sh.total == |s.sh.bcs| + Sum(s.ts, WTotal)
  }

  ghost predicate Inv(s: State) {
    LocalInv(s) && NoLeak(s) && Balanced(s)
  }

  lemma OnlyCloseMarks(id: ThreadId, pc: Pc, sh: Shared, e: Effect, pc': Pc)
    requires Locks(pc, sh, e, pc') && PointOk(pc', Apply(id, e, sh))
    ensures e.MarkDrained? ==> sh.cancelled
  {
  }

  lemma StepKeeps(id: ThreadId, pc: Pc, sh: Shared, e: Effect, pc': Pc)
    requires Moves(pc, sh, e, pc') && SharedOk(sh) && LocalOk(id, pc, sh)
    ensures Transfers(pc, sh, e, pc') && Locks(pc, sh, e, pc')
    ensures SharedOk(Apply(id, e, sh)) && LocalOk(id, pc', Apply(id, e, sh))
  {
    hide Moves, Transfers, Locks, HandsOver, SharedOk, PointOk, StatsOk, Apply, Owned, Critical;
    MovesTransfer(pc, sh, e, pc');
    MovesLock(pc, sh, e, pc');
    MovesKeepPoint(id, pc, sh, e, pc');
    MovesKeepStats(pc, sh, e, pc');
    OnlyCloseMarks(id, pc, sh, e, pc');
    KeepsShared(id, pc, sh, e, pc');
    KeepsSelf(id, pc, sh, e, pc');
  }

  lemma RunKeepsLocal(s: State, i: ThreadId, e: Effect, pc': Pc, s': State)
    requires LocalInv(s) && Next(s, Run(i, e, pc'), s')
    ensures LocalInv(s')
  {
    hide Moves, LocalOk, SharedOk, Transfers, Disjoint;
    StepKeeps(i, s.ts[i], s.sh, e, pc');
    forall j | 0 <= j < |s.ts| && j != i
      ensures LocalOk(j, s.ts[j], s'.sh) && Disjoint(s.ts[j], pc') && Disjoint(pc', s.ts[j])
    {
      KeepsOther(i, s.ts[i], s.sh, e, pc', j, s.ts[j]);
    }
  }

  /** The map changes size only by the connection an effect names. */
  lemma Resizes(id: ThreadId, pc: Pc, sh: Shared, e: Effect, pc': Pc)
    requires Transfers(pc, sh, e, pc')
    ensures var sh' := Apply(id, e, sh);
      && sh'.idle - |sh'.bcs| == sh.idle - |sh.bcs| + Slip(e).0
      && sh'.active == sh.active + Slip(e).1
      && sh'.total - |sh'.bcs| == sh.total - |sh.bcs| + Slip(e).2
  {
    hide Owned;
  }

  lemma RunTransfers(s: State, i: ThreadId, e: Effect, pc': Pc, s': State)
    requires LocalInv(s) && Next(s, Run(i, e, pc'), s')
    ensures Transfers(s.ts[i], s.sh, e, pc') && Owes(s.ts[i], e, pc')
  {
    hide Moves, SharedOk, StatsOk, Transfers, Owes;
    var pc := s.ts[i];
    assert LocalOk(i, pc, s.sh);
    MovesTransfer(pc, s.sh, e, pc');
    MovesOwe(pc, s.sh, e, pc');
  }

  lemma RunKeepsBalance(s: State, i: ThreadId, e: Effect, pc': Pc, s': State)
    requires LocalInv(s) && Balanced(s) && Next(s, Run(i, e, pc'), s')
    ensures Balanced(s')
  {
    hide Moves, LocalInv, Transfers, Slip, Apply, WIdle, WActive, WTotal;
    RunTransfers(s, i, e, pc', s');
    Resizes(i, s.ts[i], s.sh, e, pc');
    SumUpdate(s.ts, i, pc', WIdle);
    SumUpdate(s.ts, i, pc', WActive);
    SumUpdate(s.ts, i, pc', WTotal);
  }

  lemma Accounted(id: ThreadId, pc: Pc, sh: Shared, e: Effect, pc': Pc, c: ConnId)
    requires Transfers(pc, sh, e, pc')
    requires c < |Apply(id, e, sh).conns| && c !in Apply(id, e, sh).bcs && Owned(pc') != Some(c)
    ensures c < |sh.conns|
    ensures Apply(id, e, sh).conns[c].closed || (c !in sh.bcs && Owned(pc) != Some(c))
    ensures sh.conns[c].closed ==> Apply(id, e, sh).conns[c].closed
  {
    hide Owned;
  }

  lemma RunKeepsNoLeak(s: State, i: ThreadId, e: Effect, pc': Pc, s': State)
    requires LocalInv(s) && NoLeak(s) && Next(s, Run(i, e, pc'), s')
    ensures NoLeak(s')
  {
    hide Moves, SharedOk, StatsOk;
    var pc := s.ts[i];
    assert LocalOk(i, pc, s.sh);
    MovesTransfer(pc, s.sh, e, pc');
    hide LocalOk, Transfers, Apply, Owned;
    forall c | 0 <= c < |s'.sh.conns| && c !in s'.sh.bcs && OwnedByNone(s', c)
      ensures s'.sh.conns[c].closed
    {
      assert Owned(s'.ts[i]) != Some(c);
      Accounted(i, pc, s.sh, e, pc', c);
      if c !in s.sh.bcs && Owned(pc) != Some(c) {
        assert OwnedByNone(s, c) by {
          forall j | 0 <= j < |s.ts|
            ensures Owned(s.ts[j]) != Some(c)
          {
            assert s'.ts[j] == if j == i then pc' else s.ts[j];
          }
        }
      }
    }
  }

  // ---- the network, new callers, a borrowing reload --------------------------------------------------------------

  lemma EventKeepsConn(pc: Pc, b: Conn, v: Event)
    requires ConnOk(pc, b)
    ensures ConnOk(pc, AfterEvent(b, v))
  {
  }

  lemma NetworkKeeps(s: State, c: ConnId, v: Event, s': State)
    requires Inv(s) && Next(s, Network(c, v), s')
    ensures Inv(s')
  {
    hide Owned, Critical, PointOk, ConnOk, WIdle, WActive, WTotal;
    forall i | 0 <= i < |s.ts|
      ensures LocalOk(i, s.ts[i], s'.sh)
    {
      assert LocalOk(i, s.ts[i], s.sh);
      PointStable(s.ts[i], s.sh, s'.sh);
      if Owned(s.ts[i]) == Some(c) {
        EventKeepsConn(s.ts[i], s.sh.conns[c], v);
      }
    }
    forall d | 0 <= d < |s'.sh.conns| && d !in s'.sh.bcs && OwnedByNone(s', d)
      ensures s'.sh.conns[d].closed
    {
      assert OwnedByNone(s, d);
    }
  }

  lemma CallersBalance(s: State, a: Action, s': State)
    requires Balanced(s) && (a == Spawn || a == Borrow) && Next(s, a, s')
    ensures Balanced(s')
  {
    hide Moves;
    if a == Spawn {
      SumAppend(s.ts, Ready, WIdle);
      SumAppend(s.ts, Ready, WActive);
      SumAppend(s.ts, Ready, WTotal);
    }
  }

  lemma NewcomerOk(id: ThreadId, sh: Shared)
    requires sh.lock.Some? ==> sh.lock.value < id
    ensures LocalOk(id, Ready, sh) && Owned(Ready) == None
  {
  }

  lemma BorrowedOk(id: ThreadId, pc: Pc, sh: Shared, sh': Shared)
    requires LocalOk(id, pc, sh) && (sh' == sh || sh' == sh.(shared := true))
    ensures LocalOk(id, pc, sh')
  {
    hide PointOk, StatsOk, Critical;
    PointStable(pc, sh, sh');
  }

  lemma CallersKeepLocal(s: State, a: Action, s': State)
    requires LocalInv(s) && (a == Spawn || a == Borrow) && Next(s, a, s')
    ensures LocalInv(s')
  {
    hide Moves, LocalOk, Owned, Marked;
    NewcomerOk(|s.ts|, s.sh);
    forall i | 0 <= i < |s'.ts|
      ensures LocalOk(i, s'.ts[i], s'.sh)
    {
      if i < |s.ts| {
        assert LocalOk(i, s.ts[i], s.sh);
        BorrowedOk(i, s.ts[i], s.sh, s'.sh);
      }
    }
  }

  lemma CallersLeakNothing(s: State, a: Action, s': State)
    requires NoLeak(s) && (a == Spawn || a == Borrow) && Next(s, a, s')
    ensures NoLeak(s')
  {
    hide Moves, Owned;
    forall d | 0 <= d < |s'.sh.conns| && d !in s'.sh.bcs && OwnedByNone(s', d)
      ensures s'.sh.conns[d].closed
    {
      assert forall j :: 0 <= j < |s.ts| ==> s'.ts[j] == s.ts[j];
      assert OwnedByNone(s, d);
    }
  }

  lemma CallersKeep(s: State, a: Action, s': State)
    requires Inv(s) && (a == Spawn || a == Borrow) && Next(s, a, s')
    ensures Inv(s')
  {
    hide LocalInv, NoLeak, Balanced, Next;
    CallersBalance(s, a, s');
    CallersKeepLocal(s, a, s');
    CallersLeakNothing(s, a, s');
  }

  lemma NextKeeps(s: State, a: Action, s': State)
    requires Inv(s) && Next(s, a, s')
    ensures Inv(s')
  {
    hide Next, LocalInv, NoLeak, Balanced;
    match a
    case Run(i, e, pc') =>
      RunKeepsLocal(s, i, e, pc', s');
      RunKeepsBalance(s, i, e, pc', s');
      RunKeepsNoLeak(s, i, e, pc', s');
    case Network(c, v) => NetworkKeeps(s, c, v, s');
    case _ => CallersKeep(s, a, s');
  }

  // ---- every execution -------------------------------------------------------------------------------------------

  lemma {:induction false} ExecutionKeeps(states: seq<State>, actions: seq<Action>, k: nat)
    requires Execution(states, actions) && k < |states|
    ensures Inv(states[k])
  {
    if k > 0 {
      ExecutionKeeps(states, actions, k - 1);
      hide Inv, Next;
      NextKeeps(states[k - 1], actions[k - 1], states[k]);
    } else {
      assert Sum([JanWait], WIdle) == Sum([JanWait], WActive) == Sum([JanWait], WTotal) == 0;
    }
  }

  ghost predicate Quiet(s: State) {
    forall i :: 0 <= i < |s.ts| ==> s.ts[i].Ready? || s.ts[i].Held? || s.ts[i].JanWait? || s.ts[i].JanExit?
  }

  ghost function Leases(ts: seq<Pc>): set<ThreadId> {
    set i | 0 <= i < |ts| && ts[i].Held?
  }

  lemma LeasesOfMore(ts: seq<Pc>, pc: Pc)
    ensures Leases(ts + [pc]) == if pc.Held? then Leases(ts) + {|ts|} else Leases(ts)
    ensures |ts| !in Leases(ts)
  {
  }

  lemma {:induction false} ActiveCountsLeases(ts: seq<Pc>)
    requires forall i :: 0 <= i < |ts| ==> ts[i].Ready? || ts[i].Held? || ts[i].JanWait? || ts[i].JanExit?
    ensures Sum(ts, WActive) == |Leases(ts)|
  {
    if |ts| > 0 {
      hide Leases;
      var last := |ts| - 1;
      var init := ts[..last];
      assert ts == init + [ts[last]];
      ActiveCountsLeases(init);
      LeasesOfMore(init, ts[last]);
    }
  }

  /** Whoever still owes an increment holds the lock and has its connection in the map. */
  lemma Debtor(id: ThreadId, pc: Pc, sh: Shared)
    requires LocalOk(id, pc, sh)
    ensures WIdle(pc) >= -1 && WTotal(pc) >= -1 && WActive(pc) >= 0
    ensures WIdle(pc) < 0 || WTotal(pc) < 0 ==> sh.lock == Some(id) && |sh.bcs| >= 1
  {
    hide StatsOk, LoopOk;
    if pc.RelIdle? || pc.RelAddTotal? {
      assert pc.c in sh.bcs;
    }
  }

  lemma CountersNonNegative(s: State)
    requires LocalInv(s) && Balanced(s)
    ensures s.sh.idle >= 0 && s.sh.active >= 0 && s.sh.total >= 0
  {
    hide SharedOk, LocalOk, WIdle, WActive, WTotal;
    forall i | 0 <= i < |s.ts|
      ensures WIdle(s.ts[i]) >= -1 && WTotal(s.ts[i]) >= -1 && WActive(s.ts[i]) >= 0
      ensures WIdle(s.ts[i]) < 0 || WTotal(s.ts[i]) < 0 ==> s.sh.lock == Some(i) && |s.sh.bcs| >= 1
    {
      Debtor(i, s.ts[i], s.sh);
    }
    var lo := if |s.sh.bcs| == 0 then 0 else -1;
    SumBounds(s.ts, WIdle, lo);
    SumBounds(s.ts, WTotal, lo);
    SumBounds(s.ts, WActive, 0);
  }

  lemma DriftAgrees(s: State)
    requires Balanced(s)
    ensures s.sh.total == s.sh.active + s.sh.idle + Sum(s.ts, WDrift)
  {
    hide WTotal, WActive, WIdle;
    var w := (pc: Pc) => WActive(pc) + WIdle(pc);
    SumLinear(s.ts, WTotal, w, WDrift);
    SumLinear(s.ts, w, WActive, WIdle);
  }

  /** Only the holder of the lock can have an idle count to correct. */
  lemma IdleAgrees(s: State)
    requires LocalInv(s) && Balanced(s) && s.sh.lock == None
    ensures s.sh.idle == |s.sh.bcs|
  {
    hide PointOk, StatsOk, SharedOk;
    forall i | 0 <= i < |s.ts| ensures WIdle(s.ts[i]) == 0 {
      assert LocalOk(i, s.ts[i], s.sh);
    }
    SumZero(s.ts, WIdle);
  }

  lemma QuietAgrees(s: State)
    requires Balanced(s) && Quiet(s)
    ensures s.sh.idle == |s.sh.bcs| && s.sh.active == |Leases(s.ts)| && s.sh.total == s.sh.active + s.sh.idle
  {
    SumZero(s.ts, WIdle);
    SumZero(s.ts, WDrift);
    DriftAgrees(s);
    ActiveCountsLeases(s.ts);
  }

  /** In every state of every execution each counter is what the map and the leases say, up to the increments that
      goroutines in mid-operation still owe.  With the lock free the idle count is exact; when nobody is in mid-operation
      all are, and the active count is the number of goroutines that hold a lease. */
  lemma CountersAgree(states: seq<State>, actions: seq<Action>, k: nat)
    requires Execution(states, actions) && k < |states|
    ensures var s := states[k];
      && s.sh.idle == |s.sh.bcs| + Sum(s.ts, WIdle)
      && s.sh.total == s.sh.active + s.sh.idle + Sum(s.ts, WDrift)
      && s.sh.idle >= 0 && s.sh.active >= 0 && s.sh.total >= 0
      && (s.sh.lock == None ==> s.sh.idle == |s.sh.bcs|)
      && ((forall i :: 0 <= i < |s.ts| ==> s.ts[i].Ready? || s.ts[i].Held? || s.ts[i].JanWait? || s.ts[i].JanExit?) ==>
            && s.sh.idle == |s.sh.bcs| && s.sh.active == |set i | 0 <= i < |s.ts| && s.ts[i].Held?|
            && s.sh.total == s.sh.active + s.sh.idle)
  {
    var s := states[k];
    ExecutionKeeps(states, actions, k);
    hide Execution, LocalInv, NoLeak, WDrift;
    if s.sh.lock == None {
      IdleAgrees(s);
    }
    CountersNonNegative(s);
    DriftAgrees(s);
    if Quiet(s) {
      QuietAgrees(s);
    }
  }

  /** Every connection ever dialled is idle in the map, or in the hands of exactly one goroutine, or closed: never two
      of the first two, and never none of the three. */
  lemma ExclusiveOwnership(states: seq<State>, actions: seq<Action>, k: nat, c: ConnId)
    requires Execution(states, actions) && k < |states| && c < |states[k].sh.conns|
    ensures var s := states[k];
      && (c in s.sh.bcs ==> OwnedByNone(s, c) && !s.sh.conns[c].closed)
      && (c !in s.sh.bcs && OwnedByNone(s, c) ==> s.sh.conns[c].closed)
      && (forall i, j :: 0 <= i < |s.ts| && 0 <= j < |s.ts| && Owned(s.ts[i]) == Some(c) && Owned(s.ts[j]) == Some(c)
            ==> i == j)
  {
    ExecutionKeeps(states, actions, k);
    hide Execution, Balanced, PointOk, StatsOk, Critical;
    assert forall i :: 0 <= i < |states[k].ts| ==> LocalOk(i, states[k].ts[i], states[k].sh);
  }

  /** A connection handed out again was alive when it was taken, and not one byte was counted on it in either
      direction between its being parked and its being taken.  A connection is never parked after its holder has
      closed it, which is what a failed exchange does. */
  lemma OnlyCleanReuse(states: seq<State>, actions: seq<Action>, k: nat, i: ThreadId)
    requires Execution(states, actions) && k < |states| && i < |states[k].ts|
    ensures var pc := states[k].ts[i];
      && (pc.Held? && pc.reused ==>
            && pc.c < |states[k].sh.conns|
            && var b := states[k].sh.conns[pc.c];
               b.takenAlive && b.takenRd == b.parkedRd && b.takenWr == b.parkedWr)
      && (pc.RelPark? ==> pc.c < |states[k].sh.conns| && !states[k].sh.conns[pc.c].closed)
  {
    ExecutionKeeps(states, actions, k);
    hide Execution, Balanced, NoLeak, PointOk, SharedOk, Critical;
    assert LocalOk(i, states[k].ts[i], states[k].sh);
  }

  lemma DrainedStays(s: State, a: Action, s': State)
    requires Next(s, a, s') && s.sh.drained
    ensures s'.sh.drained
  {
    hide Moves;
  }

  lemma {:induction false} StaysDrained(states: seq<State>, actions: seq<Action>, k: nat, m: nat)
    requires Execution(states, actions) && k <= m < |states| && states[k].sh.drained
    ensures states[m].sh.drained
    decreases m
  {
    hide Next;
    if k < m {
      StaysDrained(states, actions, k, m - 1);
      assert Next(states[m - 1], actions[m - 1], states[m]);
      DrainedStays(states[m - 1], actions[m - 1], states[m]);
    }
  }

  /** A pool that some Close has found empty is empty ever after. */
  lemma DrainedForGood(states: seq<State>, actions: seq<Action>, k: nat, m: nat)
    requires Execution(states, actions) && k <= m < |states| && states[k].sh.drained
    ensures states[m].sh.drained && states[m].sh.bcs == {}
  {
    hide Execution, LocalOk, Disjoint, Balanced, NoLeak;
    StaysDrained(states, actions, k, m);
    ExecutionKeeps(states, actions, m);
  }

  /** Once a Close has been through the map, the pool is empty in every later state, whatever is released later; and
      whenever all leases are back, every connection ever dialled is closed. */
  lemma ClosedPoolLeaksNothing(states: seq<State>, actions: seq<Action>, k: nat, m: nat)
    requires Execution(states, actions) && k <= m < |states|
    requires exists i :: 0 <= i < |states[k].ts| && states[k].ts[i].ClsUnlock?
    ensures states[m].sh.bcs == {}
    ensures (forall c :: 0 <= c < |states[m].sh.conns| ==> OwnedByNone(states[m], c)) ==>
              forall c :: 0 <= c < |states[m].sh.conns| ==> states[m].sh.conns[c].closed
  {
    ExecutionKeeps(states, actions, k);
    ExecutionKeeps(states, actions, m);
    var i :| 0 <= i < |states[k].ts| && states[k].ts[i].ClsUnlock?;
    assert LocalOk(i, states[k].ts[i], states[k].sh);
    DrainedForGood(states, actions, k, m);
    hide Execution, LocalOk, SharedOk, Balanced;
  }
}
