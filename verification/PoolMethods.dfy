/** The methods of a backend server's connection pool as code (pkg/lb/backendserver.go).  Each call runs alone here; every
    shared access it makes is logged as a step of the step system, so what holds of all executions holds of the object. */
module PoolMethods {
  import opened Options
  import opened Exchanges
  import opened ConnPool
  import opened ConnPoolProofs
  import opened ConnPoolExchanges

  ghost predicate Reachable(s: State) {
    exists states, actions :: Execution(states, actions) && states[|actions|] == s
  }

  lemma ReachableNext(s: State, a: Action, s': State)
    requires Reachable(s) && Next(s, a, s')
    ensures Reachable(s')
  {
    var states, actions :| Execution(states, actions) && states[|actions|] == s;
    var states', actions' := states + [s'], actions + [a];
    hide Next;
    forall k | 0 <= k < |actions'| ensures Next(states'[k], actions'[k], states'[k + 1]) {
      if k < |actions| {
        assert Next(states[k], actions[k], states[k + 1]);
      }
    }
    assert Execution(states', actions') && states'[|actions'|] == s';
  }

  lemma ReachableFacts(s: State)
    requires Reachable(s)
    ensures forall c :: c in s.sh.bcs ==> c < |s.sh.conns| && !s.sh.conns[c].closed
    ensures forall i :: 0 <= i < |s.ts| && Owned(s.ts[i]).Some? ==>
              Owned(s.ts[i]).value < |s.sh.conns| && Owned(s.ts[i]).value !in s.sh.bcs
    ensures forall i :: 0 <= i < |s.ts| ==> (Critical(s.ts[i]) <==> s.sh.lock == Some(i))
  {
    var states, actions :| Execution(states, actions) && states[|actions|] == s;
    ExecutionKeeps(states, actions, |actions|);
    hide Execution, NoLeak, Balanced, PointOk, ConnOk;
    assert forall i :: 0 <= i < |s.ts| ==> LocalOk(i, s.ts[i], s.sh);
  }

  /** Nothing has happened on the connection since it was parked. */
  predicate Reusable(b: Conn) {
    !b.failed && b.nr == 0 && b.nw == 0
  }

  /** The counting of bytes and the last exchange are as they were on every connection that was there. */
  ghost predicate SameBytes(before: seq<Conn>, after: seq<Conn>) {
    && |before| <= |after|
    && forall c :: 0 <= c < |before| ==>
         && after[c].rd == before[c].rd && after[c].used == before[c].used && after[c].seenRd == before[c].seenRd
         && after[c].last == before[c].last
  }

  /** A walk over the map that ended with bc: what left the map was closed, as it could not be used, but for bc; no other
      connection was touched. */
  ghost predicate Sifted(was: set<ConnId>, before: seq<Conn>, now: set<ConnId>, after: seq<Conn>, bc: Option<ConnId>) {
    && now <= was && SameBytes(before, after)
    && forall c :: 0 <= c < |before| ==>
         if c in was && c !in now && Some(c) != bc then after[c].closed && !Reusable(before[c])
         else Some(c) != bc ==> after[c] == before[c]
  }

  lemma SiftedBegins(bcs: set<ConnId>, conns: seq<Conn>)
    ensures Sifted(bcs, conns, bcs, conns, None)
  {
  }

  /** One connection more has left the map and has been looked at. */
  lemma SiftedOn(was: set<ConnId>, before: seq<Conn>, now: set<ConnId>, mid: seq<Conn>, c: ConnId, after: seq<Conn>, ok: bool)
    requires Sifted(was, before, now, mid, None) && c in now && c < |mid| == |before| == |after|
    requires (forall d :: 0 <= d < |mid| && d != c ==> after[d] == mid[d]) && SameBytes(mid, after)
    requires ok == Reusable(mid[c]) && (!ok ==> after[c].closed)
    ensures Sifted(was, before, now - {c}, after, if ok then Some(c) else None)
    ensures ok ==> c in was && Reusable(before[c])
  {
    assert mid[c] == before[c];
  }

  lemma ReusableIs()
    ensures forall b: Conn :: Reusable(b) <==> !b.failed && b.nr == 0 && b.nw == 0
  {
  }

  lemma SiftedIs(was: set<ConnId>, before: seq<Conn>, now: set<ConnId>, after: seq<Conn>, bc: Option<ConnId>)
    requires Sifted(was, before, now, after, bc)
    ensures now <= was && SameBytes(before, after)
    ensures forall c :: 0 <= c < |before| && Some(c) != bc ==>
              if c in was && c !in now then after[c].closed && (before[c].failed || before[c].nr != 0 || before[c].nw != 0)
              else after[c] == before[c]
  {
  }

  // ---- the steps of the methods, one method at a time --------------------------------------------------------------

  function AfterDrop(c: ConnId, k: Loop): Pc {
    if k == Acquire then AcqCheck(c) else Shut(c, k)
  }

  function AfterCount(bc: Option<ConnId>): Pc {
    if bc.Some? then Held(bc.value, true, None) else AcqDial
  }

  lemma AfterCountIs(bc: Option<ConnId>)
    ensures AfterCount(bc) == if bc.Some? then Held(bc.value, true, None) else AcqDial
  {
  }

  /** The map is empty and nothing in it was of use. */
  lemma SiftedOut(was: set<ConnId>, before: seq<Conn>, now: set<ConnId>, after: seq<Conn>)
    requires Sifted(was, before, now, after, None) && now == {}
    ensures forall c :: c in was && c < |before| ==> !Reusable(before[c])
  {
  }

  lemma SwapMoves(c: ConnId)
    ensures forall sh: Shared :: c < |sh.conns| ==>
              Moves(AcqStatsR(c), sh, Touch(c, TakeRead(sh.conns[c])), AcqStatsW(c, sh.conns[c].nr))
    ensures forall sh: Shared, r: nat :: c < |sh.conns| && (r != 0 || sh.conns[c].nw != 0) ==>
              Moves(AcqStatsW(c, r), sh, Touch(c, TakeWrite(sh.conns[c])), Shut(c, Acquire))
    ensures forall sh: Shared, r: nat :: c < |sh.conns| && r == 0 && sh.conns[c].nw == 0 ==>
              Moves(AcqStatsW(c, r), sh, Touch(c, TakeWrite(sh.conns[c])), AcqUnlock(Some(c)))
  {
    hide LeaseMoves, ReleaseMoves, ServerMoves, RemovalMoves;
  }

  lemma DropMoves(c: ConnId, k: Loop)
    ensures forall sh: Shared :: Moves(DropIdle(c, k), sh, AddIdle(-1), DropTotal(c, k))
    ensures forall sh: Shared :: Moves(DropTotal(c, k), sh, AddTotal(-1), AfterDrop(c, k))
  {
    hide AcquireMoves, LeaseMoves, ReleaseMoves, ServerMoves;
  }

  lemma TakeMoves(c: ConnId, k: Loop, pc: Pc, sh: Shared)
    requires c in sh.bcs
    requires match k
             case Acquire => pc == AcqNext
             case Drain => pc == ClsNext
             case Sweep(todo) => pc == JanCheck(c, todo) && c < |sh.conns| && sh.conns[c].failed
             case Release => false
    ensures Moves(pc, sh, Take(c), DropIdle(c, k))
  {
    hide LeaseMoves, ReleaseMoves, RemovalMoves;
  }

  lemma CountMoves(bc: Option<ConnId>)
    ensures forall sh: Shared :: Moves(AcqUnlock(bc), sh, Leave, AcqActive(bc))
    ensures forall sh: Shared :: Moves(AcqActive(bc), sh, AddActive(1), AcqTotal(bc))
    ensures forall sh: Shared :: Moves(AcqTotal(bc), sh, AddTotal(1), AfterCount(bc))
    ensures forall sh: Shared :: Moves(AcqDial, sh, Look, AcqUndoActive)
    ensures forall sh: Shared :: Moves(AcqUndoActive, sh, AddActive(-1), AcqUndoTotal)
    ensures forall sh: Shared :: Moves(AcqUndoTotal, sh, AddTotal(-1), Ready)
    ensures forall sh: Shared :: Moves(AcqDial, sh, Dial, Held(|sh.conns|, false, None))
    ensures forall sh: Shared :: Moves(Ready, sh, Look, AcqLock)
    ensures forall sh: Shared :: sh.lock == None ==> Moves(AcqLock, sh, Grab, AcqNext)
  {
    hide ReleaseMoves, ServerMoves, RemovalMoves;
  }

  lemma ReleaseStarts(c: ConnId, reused: bool, o: Outcome)
    ensures forall sh: Shared :: c < |sh.conns| && (o.Good() || sh.conns[c].closed) ==>
              Moves(Held(c, reused, Some(o)), sh, Look, RelActive(c))
    ensures forall sh: Shared :: Moves(RelActive(c), sh, AddActive(-1), RelTotal(c))
    ensures forall sh: Shared :: Moves(RelTotal(c), sh, AddTotal(-1), RelLock(c))
    ensures forall sh: Shared :: sh.lock == None ==> Moves(RelLock(c), sh, Grab, RelCtx(c))
  {
    hide AcquireMoves, ServerMoves, RemovalMoves;
  }

  lemma ReleaseEnds(c: ConnId)
    ensures forall sh: Shared :: c !in sh.bcs ==> Moves(RelPark(c), sh, Put(c), RelIdle(c))
    ensures forall sh: Shared :: Moves(RelIdle(c), sh, AddIdle(1), RelAddTotal(c))
    ensures forall sh: Shared :: Moves(RelAddTotal(c), sh, AddTotal(1), RelUnlock)
    ensures forall sh: Shared :: Moves(RelUnlock, sh, Leave, Ready)
  {
    hide AcquireMoves, LeaseMoves, ServerMoves, RemovalMoves;
  }

  lemma CloseMoves()
    ensures forall sh: Shared :: sh.shared ==> Moves(Ready, sh, Unshare, Ready)
    ensures forall sh: Shared :: !sh.shared ==> Moves(Ready, sh, Look, ClsCancel)
    ensures forall sh: Shared :: Moves(ClsCancel, sh, Cancel, ClsWait)
    ensures forall sh: Shared :: sh.cancelled ==> Moves(JanWait, sh, WorkerExit, JanExit)
    ensures forall sh: Shared :: sh.workerDone ==> Moves(ClsWait, sh, Look, ClsLock)
    ensures forall sh: Shared :: sh.lock == None ==> Moves(ClsLock, sh, Grab, ClsNext)
    ensures forall sh: Shared :: sh.bcs == {} ==> Moves(ClsNext, sh, MarkDrained, ClsUnlock)
    ensures forall sh: Shared :: Moves(ClsUnlock, sh, Leave, Ready)
  {
    hide AcquireMoves, LeaseMoves, ReleaseMoves, RemovalMoves;
  }

  lemma SweepMoves()
    ensures forall sh: Shared :: sh.lock == None ==> Moves(JanWait, sh, Grab, JanNext(sh.bcs))
    ensures forall sh: Shared, todo: set<ConnId>, c: ConnId :: c in todo ==> Moves(JanNext(todo), sh, Look, JanCheck(c, todo - {c}))
    ensures forall sh: Shared, todo: set<ConnId>, c: ConnId :: c < |sh.conns| && !sh.conns[c].failed ==>
              Moves(JanCheck(c, todo), sh, Look, JanNext(todo))
    ensures forall sh: Shared :: Moves(JanNext({}), sh, Leave, JanWait)
  {
    hide AcquireMoves, LeaseMoves, ReleaseMoves, RemovalMoves;
  }

  class Pool {
    var bcs: set<ConnId>
    var conns: seq<Conn>
    var idleConnCount: int
    var activeConnCount: int
    var totalConnCount: int
    var lock: Option<ThreadId>
    var shared: bool
    var cancelled: bool
    var workerDone: bool
    ghost var drained: bool

    /** The state of the step system that the object is in. */
    ghost var st: State

    ghost function Sh(): Shared
      reads this
    {
      Shared(bcs, conns, idleConnCount, activeConnCount, totalConnCount, lock, shared, cancelled, workerDone, drained)
    }

    ghost predicate Valid()
      reads this
    {
      Reachable(st) && st.sh == Sh()
    }

    /** Goroutine id is at pc, and the others are where they are in ts. */
    ghost predicate At(ts: seq<Pc>, id: ThreadId, pc: Pc)
      reads this`st
    {
      id < |ts| && st.ts == ts[id := pc]
    }

    constructor ()
      ensures Valid() && st == INIT_STATE
      ensures bcs == {} && conns == [] && lock == None && !cancelled && !shared
    {
      bcs, conns, idleConnCount, activeConnCount, totalConnCount := {}, [], 0, 0, 0;
      lock, shared, cancelled, workerDone, drained := None, false, false, false, false;
      st := INIT_STATE;
      new;
      var none: seq<Action> := [];
      assert Execution([INIT_STATE], none) && [INIT_STATE][|none|] == INIT_STATE;
    }

    /** The access just made was a step of goroutine id, from pc to pc'. */
    ghost method Log(ts: seq<Pc>, id: ThreadId, pc: Pc, e: Effect, pc': Pc)
      requires Reachable(st) && At(ts, id, pc) && Moves(pc, st.sh, e, pc') && Sh() == Apply(id, e, st.sh)
      modifies this`st
      ensures Valid() && At(ts, id, pc')
    {
      var s := State(Sh(), ts[id := pc']);
      hide Moves, Apply;
      assert s.ts == st.ts[id := pc'];
      ReachableNext(st, Run(id, e, pc'), s);
      st := s;
    }

    lemma InMap(c: ConnId)
      requires Valid() && c in bcs
      ensures c < |conns| && !conns[c].closed
    {
      hide Reachable;
      ReachableFacts(st);
    }

    /** What every loop does with a connection it takes out of the map: the two counters. */
    method Remove(bcr: ConnId, ghost ts: seq<Pc>, ghost id: ThreadId, ghost pc: Pc, ghost k: Loop)
      requires Valid() && bcr in bcs && At(ts, id, pc)
      requires match k
               case Acquire => pc == AcqNext
               case Drain => pc == ClsNext
               case Sweep(todo) => pc == JanCheck(bcr, todo) && bcr < |conns| && conns[bcr].failed
               case Release => false
      modifies this`bcs, this`idleConnCount, this`totalConnCount, this`st
      ensures Valid() && At(ts, id, AfterDrop(bcr, k))
      ensures bcs == old(bcs) - {bcr}
      ensures idleConnCount == old(idleConnCount) - 1 && totalConnCount == old(totalConnCount) - 1
    {
      hide Reachable, At, Moves;
      TakeMoves(bcr, k, pc, Sh());
      DropMoves(bcr, k);
      bcs := bcs - {bcr};
      Log(ts, id, pc, Take(bcr), DropIdle(bcr, k));
      idleConnCount := idleConnCount - 1;
      Log(ts, id, DropIdle(bcr, k), AddIdle(-1), DropTotal(bcr, k));
      totalConnCount := totalConnCount - 1;
      Log(ts, id, DropTotal(bcr, k), AddTotal(-1), AfterDrop(bcr, k));
    }

    method CloseConn(bcr: ConnId, ghost ts: seq<Pc>, ghost id: ThreadId, ghost k: Loop)
      requires Valid() && At(ts, id, Shut(bcr, k)) && bcr < |conns|
      modifies this`conns, this`st
      ensures Valid() && At(ts, id, AfterShut(k))
      ensures conns == old(conns)[bcr := Closed(old(conns[bcr]))]
    {
      hide Reachable, At, AcquireMoves, LeaseMoves, ReleaseMoves, ServerMoves;
      conns := conns[bcr := Closed(conns[bcr])];
      Log(ts, id, Shut(bcr, k), Touch(bcr, conns[bcr]), AfterShut(k));
    }

    /** Check and Stats of a connection just taken: closed, or found fit for use. */
    method Probe(bcr: ConnId, ghost ts: seq<Pc>, ghost id: ThreadId) returns (ok: bool)
      requires Valid() && At(ts, id, AcqCheck(bcr)) && bcr < |conns|
      modifies this`conns, this`st
      ensures Valid() && At(ts, id, if ok then AcqUnlock(Some(bcr)) else AcqNext)
      ensures ok <==> !old(conns[bcr].failed) && old(conns[bcr].nr) == 0 && old(conns[bcr].nw) == 0
      ensures SameBytes(old(conns), conns)
      ensures |conns| == |old(conns)| && forall c :: 0 <= c < |conns| && c != bcr ==> conns[c] == old(conns)[c]
      ensures conns[bcr].closed == (old(conns[bcr].closed) || !ok) && (ok ==> Reusable(conns[bcr]))
    {
      hide Reachable, At, LeaseMoves, ReleaseMoves, ServerMoves, RemovalMoves;
      if conns[bcr].failed {
        Log(ts, id, AcqCheck(bcr), Look, Shut(bcr, Acquire));
        CloseConn(bcr, ts, id, Acquire);
        return false;
      }
      conns := conns[bcr := conns[bcr].(takenAlive := !conns[bcr].failed)];
      Log(ts, id, AcqCheck(bcr), Touch(bcr, conns[bcr]), AcqStatsR(bcr));
      ok := Quiescent(bcr, ts, id);
      if !ok {
        CloseConn(bcr, ts, id, Acquire);
      }
    }

    /** Stats of a connection just taken. */
    method Quiescent(bcr: ConnId, ghost ts: seq<Pc>, ghost id: ThreadId) returns (ok: bool)
      requires Valid() && At(ts, id, AcqStatsR(bcr)) && bcr < |conns|
      modifies this`conns, this`st
      ensures Valid() && At(ts, id, if ok then AcqUnlock(Some(bcr)) else Shut(bcr, Acquire))
      ensures ok == (old(conns[bcr].nr) == 0 && old(conns[bcr].nw) == 0) && SameBytes(old(conns), conns)
      ensures |conns| == |old(conns)| && forall c :: 0 <= c < |conns| && c != bcr ==> conns[c] == old(conns)[c]
      ensures conns[bcr].closed == old(conns[bcr].closed) && conns[bcr].failed == old(conns[bcr].failed)
      ensures conns[bcr].nr == 0 && conns[bcr].nw == 0
    {
      hide Reachable, At, Moves;
      SwapMoves(bcr);
      var r := conns[bcr].nr;
      conns := conns[bcr := TakeRead(conns[bcr])];
      Log(ts, id, AcqStatsR(bcr), Touch(bcr, conns[bcr]), AcqStatsW(bcr, r));
      var w := conns[bcr].nw;
      conns := conns[bcr := TakeWrite(conns[bcr])];
      ok := r == 0 && w == 0;
      Log(ts, id, AcqStatsW(bcr, r), Touch(bcr, conns[bcr]), if ok then AcqUnlock(Some(bcr)) else Shut(bcr, Acquire));
    }

    /** The loop of ConnAcquire over the map: the first reusable connection it meets, and all it meets before are closed;
        none only if the map has none. */
    method Reuse(ghost ts: seq<Pc>, ghost id: ThreadId) returns (bc: Option<ConnId>)
      requires Valid() && At(ts, id, AcqNext)
      modifies this`bcs, this`conns, this`idleConnCount, this`totalConnCount, this`st
      ensures Valid() && At(ts, id, AcqUnlock(bc))
      ensures Sifted(old(bcs), old(conns), bcs, conns, bc) && |conns| == |old(conns)|
      ensures bc.Some? ==> bc.value in old(bcs) && bc.value !in bcs && bc.value < |conns| &&
                           Reusable(old(conns)[bc.value]) && !conns[bc.value].closed && Reusable(conns[bc.value])
      ensures bc == None ==> bcs == {}
      ensures idleConnCount - |bcs| == old(idleConnCount - |bcs|) && totalConnCount - |bcs| == old(totalConnCount - |bcs|)
    {
      hide Reachable, At, LeaseMoves, ReleaseMoves, ServerMoves, Sifted, Reusable, SameBytes, RemovalMoves;
      bc := None;
      SiftedBegins(bcs, conns);
      while true
        invariant Valid() && At(ts, id, AcqNext) && |conns| == |old(conns)|
        invariant Sifted(old(bcs), old(conns), bcs, conns, None)
        invariant idleConnCount - |bcs| == old(idleConnCount - |bcs|) && totalConnCount - |bcs| == old(totalConnCount - |bcs|)
        decreases |bcs|
      {
        if bcs == {} {
          Log(ts, id, AcqNext, Look, AcqUnlock(None));
          return;
        }
        var bcr :| bcr in bcs;
        InMap(bcr);
        ghost var now, mid := bcs, conns;
        ReusableIs();
        Remove(bcr, ts, id, AcqNext, Acquire);
        var ok := Probe(bcr, ts, id);
        SiftedOn(old(bcs), old(conns), now, mid, bcr, conns, ok);
        if ok {
          bc := Some(bcr);
          return;
        }
      }
    }

    /** Between the loop and the dialling: the lock is left and the lease counted. */
    method CountIn(bc: Option<ConnId>, ghost ts: seq<Pc>, ghost id: ThreadId)
      requires Valid() && At(ts, id, AcqUnlock(bc))
      modifies this`lock, this`activeConnCount, this`totalConnCount, this`st
      ensures Valid() && At(ts, id, AfterCount(bc)) && lock == None
      ensures activeConnCount == old(activeConnCount) + 1 && totalConnCount == old(totalConnCount) + 1
    {
      hide Reachable, At, Moves;
      CountMoves(bc);
      lock := None;
      Log(ts, id, AcqUnlock(bc), Leave, AcqActive(bc));
      activeConnCount := activeConnCount + 1;
      Log(ts, id, AcqActive(bc), AddActive(1), AcqTotal(bc));
      totalConnCount := totalConnCount + 1;
      Log(ts, id, AcqTotal(bc), AddTotal(1), AfterCount(bc));
    }

    method CountOut(ghost ts: seq<Pc>, ghost id: ThreadId)
      requires Valid() && At(ts, id, AcqDial)
      modifies this`activeConnCount, this`totalConnCount, this`st
      ensures Valid() && At(ts, id, Ready)
      ensures activeConnCount == old(activeConnCount) - 1 && totalConnCount == old(totalConnCount) - 1
    {
      hide Reachable, At, Moves;
      CountMoves(None);
      Log(ts, id, AcqDial, Look, AcqUndoActive);
      activeConnCount := activeConnCount - 1;
      Log(ts, id, AcqUndoActive, AddActive(-1), AcqUndoTotal);
      totalConnCount := totalConnCount - 1;
      Log(ts, id, AcqUndoTotal, AddTotal(-1), Ready);
    }

    /** ConnAcquire, where `dials` says whether dialling succeeds.  The caller gets a connection nothing has happened on
        since it was parked, or a new one if there is none; every connection passed over is closed and no other touched.
        Without either, the counters are as before but for the connections closed. */
    method ConnAcquire(id: ThreadId, dials: bool, ghost ts: seq<Pc>) returns (bc: Option<ConnId>)
      requires Valid() && At(ts, id, Ready) && lock == None
      modifies this`bcs, this`conns, this`idleConnCount, this`activeConnCount, this`totalConnCount, this`lock, this`st
      ensures Valid() && lock == None
      ensures At(ts, id, if bc == None then Ready else Held(bc.value, bc.value < |old(conns)|, None))
      ensures bcs <= old(bcs) && SameBytes(old(conns), conns)
      ensures forall c :: 0 <= c < |old(conns)| && Some(c) != bc ==>
                if c in old(bcs) && c !in bcs then
                  conns[c].closed && (old(conns)[c].failed || old(conns)[c].nr != 0 || old(conns)[c].nw != 0)
                else conns[c] == old(conns)[c]
      ensures bc == None ==> !dials
      ensures bc.Some? ==>
                bc.value < |conns| && !conns[bc.value].failed && !conns[bc.value].closed
                && conns[bc.value].nr == 0 && conns[bc.value].nw == 0
      ensures bc.Some? && bc.value < |old(conns)| ==>
                && bc.value in old(bcs) && bc.value !in bcs && |conns| == |old(conns)|
                && !old(conns)[bc.value].failed && old(conns)[bc.value].nr == 0 && old(conns)[bc.value].nw == 0
      ensures bc.Some? && bc.value >= |old(conns)| ==>
                bc.value == |old(conns)| == |conns| - 1 && conns[bc.value] == FRESH_CONN && FRESH_CONN.last == None
      ensures bc == None || bc.value >= |old(conns)| ==>
                && bcs == {}
                && forall c :: c in old(bcs) && c < |old(conns)| ==>
                     old(conns)[c].failed || old(conns)[c].nr != 0 || old(conns)[c].nw != 0
      ensures var lease := if bc.Some? then 1 else 0;
              && activeConnCount == old(activeConnCount) + lease
              && idleConnCount - |bcs| == old(idleConnCount - |bcs|)
              && totalConnCount - |bcs| == old(totalConnCount - |bcs|) + lease
    {
      hide Reachable, At, Moves, Reusable, Sifted, Valid, AfterCount;
      Enter(id, ts);
      bc := Reuse(ts, id);
      CountIn(bc, ts, id);
      AfterCountIs(bc);
      ReusableIs();
      SiftedIs(old(bcs), old(conns), bcs, conns, bc);
      if bc == None {
        SiftedOut(old(bcs), old(conns), bcs, conns);
        if !dials {
          CountOut(ts, id);
          return;
        }
        bc := Some(|conns|);
        NewConn(id, ts);
      }
    }

    method Enter(id: ThreadId, ghost ts: seq<Pc>)
      requires Valid() && At(ts, id, Ready) && lock == None
      modifies this`lock, this`st
      ensures Valid() && At(ts, id, AcqNext) && lock == Some(id)
    {
      hide Reachable, At, Moves;
      CountMoves(None);
      Log(ts, id, Ready, Look, AcqLock);
      lock := Some(id);
      Log(ts, id, AcqLock, Grab, AcqNext);
    }

    method NewConn(ghost id: ThreadId, ghost ts: seq<Pc>)
      requires Valid() && At(ts, id, AcqDial)
      modifies this`conns, this`st
      ensures Valid() && conns == old(conns) + [FRESH_CONN] && At(ts, id, Held(|old(conns)|, false, None))
    {
      hide Reachable, At, Moves;
      CountMoves(None);
      conns := conns + [FRESH_CONN];
      Log(ts, id, AcqDial, Dial, Held(|conns| - 1, false, None));
    }

    lemma InHand(ts: seq<Pc>, id: ThreadId, pc: Pc, c: ConnId)
      requires Valid() && At(ts, id, pc) && Owned(pc) == Some(c)
      ensures c < |conns| && c !in bcs
    {
      hide Reachable;
      ReachableFacts(st);
      assert st.ts[id] == pc;
    }

    /** The start of ConnRelease: the lease is no longer counted, and the lock is taken. */
    method Uncount(bc: ConnId, id: ThreadId, ghost ts: seq<Pc>, ghost reused: bool, ghost o: Outcome)
      requires Valid() && At(ts, id, Held(bc, reused, Some(o))) && lock == None
      requires bc < |conns| && (o.Good() || conns[bc].closed)
      modifies this`activeConnCount, this`totalConnCount, this`lock, this`st
      ensures Valid() && At(ts, id, RelCtx(bc)) && lock == Some(id)
      ensures activeConnCount == old(activeConnCount) - 1 && totalConnCount == old(totalConnCount) - 1
    {
      hide Reachable, At, Moves;
      ReleaseStarts(bc, reused, o);
      Log(ts, id, Held(bc, reused, Some(o)), Look, RelActive(bc));
      activeConnCount := activeConnCount - 1;
      Log(ts, id, RelActive(bc), AddActive(-1), RelTotal(bc));
      totalConnCount := totalConnCount - 1;
      Log(ts, id, RelTotal(bc), AddTotal(-1), RelLock(bc));
      lock := Some(id);
      Log(ts, id, RelLock(bc), Grab, RelCtx(bc));
    }

    /** Check and Stats of a connection given back: to be parked, or already closed. */
    method Judge(bc: ConnId, ghost ts: seq<Pc>, ghost id: ThreadId) returns (ok: bool)
      requires Valid() && At(ts, id, RelCtx(bc)) && bc < |conns|
      modifies this`conns, this`st
      ensures Valid() && At(ts, id, if ok then RelPark(bc) else RelUnlock)
      ensures ok == (!cancelled && Reusable(old(conns[bc]))) && SameBytes(old(conns), conns) && (ok ==> Reusable(conns[bc]))
      ensures conns[bc].last == old(conns[bc].last)
      ensures |conns| == |old(conns)| && forall c :: 0 <= c < |conns| && c != bc ==> conns[c] == old(conns)[c]
      ensures conns[bc].closed == (old(conns[bc].closed) || !ok) && (ok ==> !conns[bc].failed)
    {
      hide Reachable, At, AcquireMoves, LeaseMoves, ServerMoves, RemovalMoves;
      ok := false;
      if cancelled {
        Log(ts, id, RelCtx(bc), Look, Shut(bc, Release));
      } else {
        Log(ts, id, RelCtx(bc), Look, RelCheck(bc));
        ok := Weigh(bc, ts, id);
      }
      if !ok {
        CloseConn(bc, ts, id, Release);
      }
    }

    method Weigh(bc: ConnId, ghost ts: seq<Pc>, ghost id: ThreadId) returns (ok: bool)
      requires Valid() && At(ts, id, RelCheck(bc)) && bc < |conns|
      modifies this`conns, this`st
      ensures Valid() && At(ts, id, if ok then RelPark(bc) else Shut(bc, Release))
      ensures ok == Reusable(old(conns[bc])) && SameBytes(old(conns), conns) && (ok ==> Reusable(conns[bc]))
      ensures |conns| == |old(conns)| && forall c :: 0 <= c < |conns| && c != bc ==> conns[c] == old(conns)[c]
      ensures conns[bc].closed == old(conns[bc].closed) && conns[bc].failed == old(conns[bc].failed)
    {
      hide Reachable, At, AcquireMoves, LeaseMoves, ServerMoves, RemovalMoves;
      if conns[bc].failed {
        Log(ts, id, RelCheck(bc), Look, Shut(bc, Release));
        return false;
      }
      Log(ts, id, RelCheck(bc), Look, RelStatsR(bc));
      var r := conns[bc].nr;
      conns := conns[bc := ParkRead(conns[bc])];
      Log(ts, id, RelStatsR(bc), Touch(bc, conns[bc]), RelStatsW(bc, r));
      var w := conns[bc].nw;
      conns := conns[bc := ParkWrite(conns[bc])];
      ok := r == 0 && w == 0;
      Log(ts, id, RelStatsW(bc, r), Touch(bc, conns[bc]), if ok then RelPark(bc) else Shut(bc, Release));
    }

    method Park(bc: ConnId, ghost ts: seq<Pc>, ghost id: ThreadId)
      requires Valid() && At(ts, id, RelPark(bc)) && bc !in bcs
      modifies this`bcs, this`idleConnCount, this`totalConnCount, this`st
      ensures Valid() && At(ts, id, RelUnlock) && bcs == old(bcs) + {bc} && bc < |conns| && !conns[bc].closed
      ensures idleConnCount == old(idleConnCount) + 1 && totalConnCount == old(totalConnCount) + 1
    {
      hide Reachable, At, Moves;
      ReleaseEnds(bc);
      bcs := bcs + {bc};
      Log(ts, id, RelPark(bc), Put(bc), RelIdle(bc));
      InMap(bc);
      idleConnCount := idleConnCount + 1;
      Log(ts, id, RelIdle(bc), AddIdle(1), RelAddTotal(bc));
      totalConnCount := totalConnCount + 1;
      Log(ts, id, RelAddTotal(bc), AddTotal(1), RelUnlock);
    }

    /** ConnRelease of a connection the caller holds.  It is parked exactly if the server is not closing, the connection is
        alive and nothing was counted on it since its holder last read the statistics; otherwise it is closed. */
    method ConnRelease(bc: ConnId, id: ThreadId, ghost ts: seq<Pc>, ghost reused: bool, ghost o: Outcome)
      requires Valid() && At(ts, id, Held(bc, reused, Some(o))) && lock == None && bc < |conns|
      requires o.Good() || conns[bc].closed
      modifies this`bcs, this`conns, this`idleConnCount, this`activeConnCount, this`totalConnCount, this`lock, this`st
      ensures Valid() && At(ts, id, Ready) && lock == None
      ensures |conns| == |old(conns)| && forall c :: 0 <= c < |conns| && c != bc ==> conns[c] == old(conns)[c]
      ensures SameBytes(old(conns), conns)
      ensures var parked := !cancelled && !old(conns[bc].failed) && old(conns[bc].nr) == 0 && old(conns[bc].nw) == 0;
              && bcs == (if parked then old(bcs) + {bc} else old(bcs)) && bc !in old(bcs)
              && conns[bc].closed == !parked && conns[bc].last == old(conns[bc].last)
              && (parked ==> !conns[bc].failed && conns[bc].nr == 0 && conns[bc].nw == 0)
              && activeConnCount == old(activeConnCount) - 1
              && idleConnCount == old(idleConnCount) + (if parked then 1 else 0)
              && totalConnCount == old(totalConnCount) - (if parked then 0 else 1)
    {
      hide Reachable, At, Moves, Reusable, SameBytes;
      InHand(ts, id, Held(bc, reused, Some(o)), bc);
      Uncount(bc, id, ts, reused, o);
      var ok := Judge(bc, ts, id);
      if ok {
        Park(bc, ts, id);
      }
      ReleaseEnds(bc);
      ReusableIs();
      lock := None;
      Log(ts, id, RelUnlock, Leave, Ready);
    }

    /** The holder closes its connection, as it does after a failed exchange; it will not be parked. */
    method CloseHeld(bc: ConnId, ghost reused: bool, ghost x: Option<Outcome>, ghost id: ThreadId, ghost ts: seq<Pc>)
      requires Valid() && At(ts, id, Held(bc, reused, x)) && bc < |conns|
      modifies this`conns, this`st
      ensures Valid() && At(ts, id, Held(bc, reused, x))
      ensures conns == old(conns)[bc := old(conns[bc]).(failed := true, closed := true)]
    {
      hide Reachable, At, AcquireMoves, ReleaseMoves, ServerMoves, RemovalMoves;
      conns := conns[bc := Closed(conns[bc])];
      Log(ts, id, Held(bc, reused, x), Touch(bc, conns[bc]), Held(bc, reused, x));
    }

    /** The holder reads the statistics of its connection, which sets them to zero. */
    method ReadStats(bc: ConnId, ghost reused: bool, ghost x: Option<Outcome>, ghost id: ThreadId, ghost ts: seq<Pc>)
      returns (nr: nat, nw: nat)
      requires Valid() && At(ts, id, Held(bc, reused, x)) && bc < |conns|
      modifies this`conns, this`st
      ensures Valid() && At(ts, id, Held(bc, reused, x))
      ensures nr == old(conns[bc].nr) && nw == old(conns[bc].nw)
      ensures conns == old(conns)[bc := old(conns[bc]).(nr := 0, nw := 0, seenRd := old(conns[bc].rd))]
    {
      hide Reachable, At, AcquireMoves, ReleaseMoves, ServerMoves, RemovalMoves;
      nr := conns[bc].nr;
      conns := conns[bc := conns[bc].(nr := 0, seenRd := conns[bc].rd)];
      Log(ts, id, Held(bc, reused, x), Touch(bc, conns[bc]), Held(bc, reused, x));
      nw := conns[bc].nw;
      conns := conns[bc := conns[bc].(nw := 0)];
      Log(ts, id, Held(bc, reused, x), Touch(bc, conns[bc]), Held(bc, reused, x));
    }

    /** The holder reads n of the bytes that have come. */
    method Consume(bc: ConnId, n: nat, ghost reused: bool, ghost x: Option<Outcome>, ghost id: ThreadId, ghost ts: seq<Pc>)
      requires Valid() && At(ts, id, Held(bc, reused, x)) && bc < |conns| && conns[bc].used + n <= conns[bc].rd
      modifies this`conns, this`st
      ensures Valid() && At(ts, id, Held(bc, reused, x))
      ensures conns == old(conns)[bc := old(conns[bc]).(used := old(conns[bc].used) + n)]
    {
      hide Reachable, At, AcquireMoves, ReleaseMoves, ServerMoves, RemovalMoves;
      conns := conns[bc := conns[bc].(used := conns[bc].used + n)];
      Log(ts, id, Held(bc, reused, x), Touch(bc, conns[bc]), Held(bc, reused, x));
    }

    /** A new caller. */
    ghost method Arrive()
      requires Valid()
      modifies this`st
      ensures Valid() && st.ts == old(st.ts) + [Ready]
    {
      hide Reachable;
      var s := st.(ts := st.ts + [Ready]);
      ReachableNext(st, Spawn, s);
      st := s;
    }

    method Happens(bc: ConnId, v: Event)
      requires Valid() && bc < |conns|
      modifies this`conns, this`st
      ensures Valid() && st.ts == old(st.ts) && conns == old(conns)[bc := AfterEvent(old(conns[bc]), v)]
    {
      hide Reachable;
      conns := conns[bc := AfterEvent(conns[bc], v)];
      ReachableNext(st, Network(bc, v), State(Sh(), st.ts));
      st := State(Sh(), st.ts);
    }

    /** What the network does to a connection during an exchange. */
    method Traffic(bc: ConnId, events: seq<Event>)
      requires Valid() && bc < |conns|
      modifies this`conns, this`st
      ensures Valid() && st.ts == old(st.ts)
      ensures |conns| == |old(conns)| && forall c :: 0 <= c < |conns| && c != bc ==> conns[c] == old(conns)[c]
      ensures conns[bc].failed == (old(conns[bc].failed) || PeerGone in events)
    {
      hide Reachable;
      for i := 0 to |events|
        invariant Valid() && st.ts == old(st.ts) && |conns| == |old(conns)|
        invariant forall c :: 0 <= c < |conns| && c != bc ==> conns[c] == old(conns)[c]
        invariant conns[bc].failed == (old(conns[bc].failed) || PeerGone in events[..i])
      {
        assert events[..i + 1] == events[..i] + [events[i]];
        Happens(bc, events[i]);
      }
      assert events[..|events|] == events;
    }

    /** The exchange is over, and serveAsync or the context has the word on it. */
    method Conclude(bc: ConnId, ghost reused: bool, o: Outcome, ghost id: ThreadId, ghost ts: seq<Pc>) returns (err: Option<Error>)
      requires Valid() && At(ts, id, Held(bc, reused, None)) && bc < |conns|
      modifies this`conns, this`st
      ensures Valid() && At(ts, id, Held(bc, reused, Some(o)))
      ensures conns == old(conns)[bc := old(conns[bc]).(last := Some(o))]
      ensures err == None <==> o == Outcome(Exchange(None, None, 0, "keep-alive", "HTTP/1.1"), false)
      ensures o.timeout ==> err == Some(HTTPError(BackendTimeout))
    {
      hide Reachable, At, AcquireMoves, ReleaseMoves, ServerMoves, RemovalMoves;
      conns := conns[bc := conns[bc].(last := Some(o))];
      Log(ts, id, Held(bc, reused, None), Touch(bc, conns[bc]), Held(bc, reused, Some(o)));
      if o.timeout {
        return Some(HTTPError(BackendTimeout));
      }
      err := ServeAsync(o.exchange);
    }

    /** What HTTPBackend.serve does with a connection: unless serveAsync returns without an error and in time it is closed,
        its statistics are read, it is closed if there are enough idle ones, and it is released.  It ends up in the pool
        exactly if both directions of the exchange were done with the reader's buffer empty and the server keeping the
        connection open, the context had not ended, the peer did not go away, there was room for an idle connection and the
        server is not closing; in all other cases it is closed. */
    method ServeOnce(id: ThreadId, dials: bool, events: seq<Event>, o: Outcome, serverMaxIdleConn: int, ghost ts: seq<Pc>)
      returns (bc: Option<ConnId>, err: Option<Error>)
      requires Valid() && At(ts, id, Ready) && lock == None
      modifies this`bcs, this`conns, this`idleConnCount, this`activeConnCount, this`totalConnCount, this`lock, this`st
      ensures Valid() && At(ts, id, Ready) && lock == None && activeConnCount == old(activeConnCount)
      ensures bc == None ==> !dials && bcs == {} && err == Some(HTTPError(BackendConnect))
      ensures var clean := Outcome(Exchange(None, None, 0, "keep-alive", "HTTP/1.1"), false);
              && (bc.Some? ==>
                    var room := serverMaxIdleConn > 0 ==> idleConnCount - (if bc.value in bcs then 1 else 0) < serverMaxIdleConn;
                    && bc.value < |conns| && conns[bc.value].last == Some(o)
                    && (err == None <==> o == clean) && (o.timeout ==> err == Some(HTTPError(BackendTimeout)))
                    && (bc.value in bcs <==> o == clean && PeerGone !in events && room && !cancelled)
                    && conns[bc.value].closed == (bc.value !in bcs))
              && (bc.Some? && bc.value < |old(conns)| ==>
                    && bc.value in old(bcs) && old(conns)[bc.value].last == Some(clean)
                    && !old(conns)[bc.value].failed && old(conns)[bc.value].nr == 0 && old(conns)[bc.value].nw == 0)
    {
      hide Reachable, Moves, Clean, Sifted, Valid;
      PoolIsSettled();
      bc := ConnAcquire(id, dials, ts);
      if bc == None {
        return None, Some(HTTPError(BackendConnect));
      }
      ghost var reused := bc.value < |old(conns)|;
      var c := bc.value;
      InHand(ts, id, Held(c, reused, None), c);
      Traffic(c, events);
      err := Finish(c, o, serverMaxIdleConn, id, ts, reused);
    }

    /** From the end of the exchange on. */
    method Finish(c: ConnId, o: Outcome, serverMaxIdleConn: int, id: ThreadId, ghost ts: seq<Pc>, ghost reused: bool)
      returns (err: Option<Error>)
      requires Valid() && At(ts, id, Held(c, reused, None)) && lock == None && c < |conns| && c !in bcs
      modifies this`bcs, this`conns, this`idleConnCount, this`activeConnCount, this`totalConnCount, this`lock, this`st
      ensures Valid() && At(ts, id, Ready) && lock == None && |conns| == |old(conns)|
      ensures activeConnCount == old(activeConnCount) - 1
      ensures err == None <==> o == Outcome(Exchange(None, None, 0, "keep-alive", "HTTP/1.1"), false)
      ensures o.timeout ==> err == Some(HTTPError(BackendTimeout))
      ensures var room := serverMaxIdleConn > 0 ==> old(idleConnCount) < serverMaxIdleConn;
              && idleConnCount == old(idleConnCount) + (if c in bcs then 1 else 0) && conns[c].last == Some(o)
              && (c in bcs <==> err == None && !old(conns[c].failed) && room && !cancelled)
              && conns[c].closed == (c !in bcs)
    {
      hide Reachable, At, Moves, SameBytes;
      err := Conclude(c, reused, o, id, ts);
      if err != None {
        CloseHeld(c, reused, Some(o), id, ts);
      }
      var _, _ := ReadStats(c, reused, Some(o), id, ts);
      if serverMaxIdleConn > 0 && idleConnCount >= serverMaxIdleConn {
        CloseHeld(c, reused, Some(o), id, ts);
      }
      ConnRelease(c, id, ts, reused, o);
    }

    lemma PoolIsSettled()
      requires Valid()
      ensures forall c :: c in bcs ==>
                && c < |conns|
                && conns[c].last == Some(Outcome(Exchange(None, None, 0, "keep-alive", "HTTP/1.1"), false))
    {
      var states, actions :| Execution(states, actions) && states[|actions|] == st;
      OnlyCleanExchangesPool(states, actions, |actions|);
    }

    /** A connection that a loop throws away. */
    method Discard(bcr: ConnId, ghost ts: seq<Pc>, ghost id: ThreadId, ghost pc: Pc, ghost k: Loop)
      requires Valid() && bcr in bcs && At(ts, id, pc) && bcr < |conns|
      requires match k
               case Drain => pc == ClsNext
               case Sweep(todo) => pc == JanCheck(bcr, todo) && conns[bcr].failed
               case _ => false
      modifies this`bcs, this`conns, this`idleConnCount, this`totalConnCount, this`st
      ensures Valid() && At(ts, id, AfterShut(k)) && bcs == old(bcs) - {bcr} && |conns| == |old(conns)|
      ensures conns[bcr].closed && forall c :: 0 <= c < |conns| && c != bcr ==> conns[c] == old(conns)[c]
      ensures idleConnCount == old(idleConnCount) - 1 && totalConnCount == old(totalConnCount) - 1
    {
      hide Reachable, At, Moves;
      Remove(bcr, ts, id, pc, k);
      CloseConn(bcr, ts, id, k);
    }

    /** The loop of Close: every pooled connection is closed. */
    method DrainPool(ghost id: ThreadId, ghost ts: seq<Pc>)
      requires Valid() && At(ts, id, ClsNext)
      modifies this`bcs, this`conns, this`idleConnCount, this`totalConnCount, this`drained, this`st
      ensures Valid() && At(ts, id, ClsUnlock) && drained && bcs == {} && |conns| == |old(conns)|
      ensures forall c :: 0 <= c < |conns| ==> if c in old(bcs) then conns[c].closed else conns[c] == old(conns)[c]
      ensures idleConnCount == old(idleConnCount - |bcs|) && totalConnCount == old(totalConnCount - |bcs|)
    {
      hide Reachable, At, Moves;
      CloseMoves();
      DiscardAll(id, ts);
      drained := true;
      Log(ts, id, ClsNext, MarkDrained, ClsUnlock);
    }

    method DiscardAll(ghost id: ThreadId, ghost ts: seq<Pc>)
      requires Valid() && At(ts, id, ClsNext)
      modifies this`bcs, this`conns, this`idleConnCount, this`totalConnCount, this`st
      ensures Valid() && At(ts, id, ClsNext) && bcs == {} && |conns| == |old(conns)|
      ensures forall c :: 0 <= c < |conns| ==> if c in old(bcs) then conns[c].closed else conns[c] == old(conns)[c]
      ensures idleConnCount == old(idleConnCount - |bcs|) && totalConnCount == old(totalConnCount - |bcs|)
    {
      hide Reachable, At, Moves;
      while bcs != {}
        invariant Valid() && At(ts, id, ClsNext) && bcs <= old(bcs) && |conns| == |old(conns)|
        invariant forall c :: 0 <= c < |conns| ==> if c in old(bcs) - bcs then conns[c].closed else conns[c] == old(conns)[c]
        invariant idleConnCount - |bcs| == old(idleConnCount - |bcs|) && totalConnCount - |bcs| == old(totalConnCount - |bcs|)
        decreases |bcs|
      {
        var bcr :| bcr in bcs;
        InMap(bcr);
        Discard(bcr, ts, id, ClsNext, Drain);
      }
    }

    /** The worker sees the end of the context and is waited for. */
    method StopWorker(ghost id: ThreadId, ghost worker: ThreadId, ghost ts: seq<Pc>)
      requires Valid() && At(ts, id, ClsWait) && cancelled
      requires !workerDone ==> worker < |ts| && worker != id && ts[worker] == JanWait
      modifies this`workerDone, this`st
      ensures Valid() && At(if old(workerDone) then ts else ts[worker := JanExit], id, ClsLock) && workerDone
    {
      hide Reachable, Moves;
      CloseMoves();
      ghost var ts' := ts;
      if !workerDone {
        workerDone := true;
        assert At(ts[id := ClsWait], worker, JanWait);
        Log(ts[id := ClsWait], worker, JanWait, WorkerExit, JanExit);
        ts' := ts[worker := JanExit];
        assert st.ts == ts'[id := ClsWait];
      }
      Log(ts', id, ClsWait, Look, ClsLock);
    }

    method BeginClose(ghost id: ThreadId, ghost ts: seq<Pc>)
      requires Valid() && At(ts, id, Ready) && !shared
      modifies this`cancelled, this`st
      ensures Valid() && At(ts, id, ClsWait) && cancelled
    {
      hide Reachable, At, Moves;
      CloseMoves();
      Log(ts, id, Ready, Look, ClsCancel);
      cancelled := true;
      Log(ts, id, ClsCancel, Cancel, ClsWait);
    }

    method DrainLocked(id: ThreadId, ghost ts: seq<Pc>)
      requires Valid() && At(ts, id, ClsLock) && lock == None
      modifies this`bcs, this`conns, this`idleConnCount, this`totalConnCount, this`lock, this`drained, this`st
      ensures Valid() && At(ts, id, Ready) && lock == None && drained && bcs == {} && |conns| == |old(conns)|
      ensures forall c :: 0 <= c < |conns| ==> if c in old(bcs) then conns[c].closed else conns[c] == old(conns)[c]
      ensures idleConnCount == old(idleConnCount - |bcs|) && totalConnCount == old(totalConnCount - |bcs|)
    {
      hide Reachable, At, Moves;
      CloseMoves();
      lock := Some(id);
      Log(ts, id, ClsLock, Grab, ClsNext);
      DrainPool(id, ts);
      lock := None;
      Log(ts, id, ClsUnlock, Leave, Ready);
    }

    /** Close.  A shared server only stops being shared; any other is cancelled for good, its worker is gone, its pool is
        empty and what was in it is closed. */
    method Close(id: ThreadId, ghost worker: ThreadId, ghost ts: seq<Pc>)
      requires Valid() && At(ts, id, Ready) && lock == None
      requires !workerDone ==> worker < |ts| && worker != id && ts[worker] == JanWait
      modifies this
      ensures Valid() && lock == None && !shared && activeConnCount == old(activeConnCount) && |conns| == |old(conns)|
      ensures At(if old(shared || workerDone) then ts else ts[worker := JanExit], id, Ready)
      ensures if old(shared) then
                bcs == old(bcs) && conns == old(conns) && idleConnCount == old(idleConnCount)
                && totalConnCount == old(totalConnCount) && cancelled == old(cancelled) && drained == old(drained)
              else
                && bcs == {} && drained && cancelled && workerDone
                && idleConnCount == old(idleConnCount - |bcs|) && totalConnCount == old(totalConnCount - |bcs|)
                && forall c :: 0 <= c < |conns| ==> if c in old(bcs) then conns[c].closed else conns[c] == old(conns)[c]
    {
      hide Reachable, At, Moves;
      CloseMoves();
      if shared {
        shared := false;
        Log(ts, id, Ready, Unshare, Ready);
        return;
      }
      BeginClose(id, ts);
      ghost var ts' := if workerDone then ts else ts[worker := JanExit];
      StopWorker(id, worker, ts);
      DrainLocked(id, ts');
    }

    /** The worker looks at one connection. */
    method Inspect(bcr: ConnId, ghost todo: set<ConnId>, ghost worker: ThreadId, ghost ts: seq<Pc>)
      requires Valid() && At(ts, worker, JanNext(todo)) && bcr in todo && bcr in bcs && bcr < |conns|
      modifies this`bcs, this`conns, this`idleConnCount, this`totalConnCount, this`st
      ensures Valid() && At(ts, worker, JanNext(todo - {bcr})) && |conns| == |old(conns)|
      ensures bcs == if old(conns[bcr].failed) then old(bcs) - {bcr} else old(bcs)
      ensures old(conns[bcr].failed) ==> conns[bcr].closed
      ensures forall c :: 0 <= c < |conns| && (c == bcr ==> !old(conns[bcr].failed)) ==> conns[c] == old(conns)[c]
      ensures idleConnCount - |bcs| == old(idleConnCount - |bcs|) && totalConnCount - |bcs| == old(totalConnCount - |bcs|)
    {
      hide Reachable, At, Moves;
      SweepMoves();
      ghost var left := todo - {bcr};
      Log(ts, worker, JanNext(todo), Look, JanCheck(bcr, left));
      if conns[bcr].failed {
        Discard(bcr, ts, worker, JanCheck(bcr, left), Loop.Sweep(left));
        return;
      }
      Log(ts, worker, JanCheck(bcr, left), Look, JanNext(left));
    }

    /** One tick of the worker: exactly the failed connections leave the map, and are closed. */
    method Sweep(worker: ThreadId, ghost ts: seq<Pc>)
      requires Valid() && At(ts, worker, JanWait) && lock == None
      modifies this`bcs, this`conns, this`idleConnCount, this`totalConnCount, this`lock, this`st
      ensures Valid() && At(ts, worker, JanWait) && lock == None && |conns| == |old(conns)|
      ensures forall c :: c in old(bcs) ==> c < |conns| && (c in bcs <==> !old(conns)[c].failed)
      ensures bcs <= old(bcs)
      ensures forall c :: 0 <= c < |conns| ==> if c in old(bcs) - bcs then conns[c].closed else conns[c] == old(conns)[c]
      ensures idleConnCount - |bcs| == old(idleConnCount - |bcs|) && totalConnCount - |bcs| == old(totalConnCount - |bcs|)
    {
      hide Reachable, At, Moves;
      SweepMoves();
      lock := Some(worker);
      Log(ts, worker, JanWait, Grab, JanNext(bcs));
      InspectAll(worker, ts);
      lock := None;
      Log(ts, worker, JanNext({}), Leave, JanWait);
    }

    /** The loop of the worker over the map. */
    method InspectAll(ghost worker: ThreadId, ghost ts: seq<Pc>)
      requires Valid() && At(ts, worker, JanNext(bcs))
      modifies this`bcs, this`conns, this`idleConnCount, this`totalConnCount, this`st
      ensures Valid() && At(ts, worker, JanNext({})) && |conns| == |old(conns)|
      ensures forall c :: c in old(bcs) ==> c < |conns| && (c in bcs <==> !old(conns)[c].failed)
      ensures bcs <= old(bcs)
      ensures forall c :: 0 <= c < |conns| ==> if c in old(bcs) - bcs then conns[c].closed else conns[c] == old(conns)[c]
      ensures idleConnCount - |bcs| == old(idleConnCount - |bcs|) && totalConnCount - |bcs| == old(totalConnCount - |bcs|)
    {
      hide Reachable, At, Moves;
      var todo: set<ConnId> := bcs;
      while todo != {}
        invariant Valid() && At(ts, worker, JanNext(todo)) && todo <= bcs <= old(bcs) && |conns| == |old(conns)|
        invariant forall c :: c in old(bcs) && c !in todo ==> c < |conns| && (c in bcs <==> !old(conns)[c].failed)
        invariant forall c :: 0 <= c < |conns| ==> if c in old(bcs) - bcs then conns[c].closed else conns[c] == old(conns)[c]
        invariant idleConnCount - |bcs| == old(idleConnCount - |bcs|) && totalConnCount - |bcs| == old(totalConnCount - |bcs|)
        decreases |todo|
      {
        var bcr :| bcr in todo;
        InMap(bcr);
        Inspect(bcr, todo, worker, ts);
        todo := todo - {bcr};
      }
    }
  }

  // ---- what the object inherits from the step system ---------------------------------------------------------------

  /** Whatever calls have been made: when none is in progress the counters agree with the map and the leases. */
  lemma ObjectCountersAgree(p: Pool)
    requires p.Valid() && Quiet(p.st)
    ensures p.idleConnCount == |p.bcs| && p.activeConnCount == |set i | 0 <= i < |p.st.ts| && p.st.ts[i].Held?|
    ensures p.totalConnCount == p.activeConnCount + p.idleConnCount
  {
    var states, actions :| Execution(states, actions) && states[|actions|] == p.st;
    CountersAgree(states, actions, |actions|);
  }

  /** And every connection ever dialled is idle, leased, or closed. */
  lemma ObjectLeaksNothing(p: Pool, c: ConnId)
    requires p.Valid() && Quiet(p.st) && c < |p.conns|
    ensures c in p.bcs || p.conns[c].closed || exists i :: 0 <= i < |p.st.ts| && p.st.ts[i].Held? && p.st.ts[i].c == c
    ensures c in p.bcs ==> !p.conns[c].closed
  {
    var states, actions :| Execution(states, actions) && states[|actions|] == p.st;
    ExclusiveOwnership(states, actions, |actions|, c);
    if !OwnedByNone(p.st, c) {
      var i :| 0 <= i < |p.st.ts| && Owned(p.st.ts[i]) == Some(c);
      assert p.st.ts[i].Held?;
    }
  }

  const CLEAN_EXCHANGE := Exchange(None, None, 0, "keep-alive", "HTTP/1.1")

  /** A connection on which two bytes have come and one has been read, the other still waiting in the pipe: the exchange is
      clean, as the reader's buffer is empty, and the statistics are reset, so the connection is parked. */
  method UnreadIsParked() returns (p: Pool)
    ensures p.Valid() && p.lock == None && p.bcs == {0} && |p.conns| == 1
    ensures !p.conns[0].failed && p.conns[0].nr == 0 && p.conns[0].nw == 0
    ensures p.At([JanWait, Ready], 1, Ready)
    ensures p.conns[0].rd == 2 && p.conns[0].used == 1 && fresh(p)
  {
    hide Reachable, Moves, Pool.Valid;
    var o := Outcome(CLEAN_EXCHANGE, false);
    p := new Pool();
    p.Arrive();
    ghost var ts := [JanWait, Ready];
    assert p.st.ts == ts[1 := Ready];
    var bc := p.ConnAcquire(1, true, ts);
    p.Happens(0, BytesRead(2));
    p.Consume(0, 1, false, None, 1, ts);
    var _ := p.Conclude(0, false, o, 1, ts);
    var _, _ := p.ReadStats(0, false, Some(o), 1, ts);
    p.ConnRelease(0, 1, ts, false, o);
  }

  /** And it is handed out again with the byte unread. */
  method UnreadIsReused() returns (p: Pool, c: ConnId)
    ensures p.Valid() && c < |p.conns| && p.At([JanWait, Ready], 1, Held(c, true, None))
    ensures p.conns[c].rd == 2 && p.conns[c].used == 1
  {
    hide Reachable, Moves, Pool.At, Pool.Valid;
    p := UnreadIsParked();
    ghost var before := p.conns;
    var bc := p.ConnAcquire(1, true, [JanWait, Ready]);
    assert 0 in {0} && bc == Some(0);
    c := 0;
  }
}
