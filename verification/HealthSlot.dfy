/** The health check of one backend server (SetHealthCheck and Close, pkg/lb/backendserver.go) as a step system: any
    number of goroutines hand in checks or close the server, one shared access at a time. */
module HealthSlot {
  import opened Options

  type CheckId = nat
  type ThreadId = nat

  datatype Pc =
    | Idle
    // SetHealthCheck(h)
    | SetLock(h: Option<CheckId>) | SetCtx(h: Option<CheckId>) | SetShutNew(h: Option<CheckId>)
    | SetOld(h: Option<CheckId>) | SetInstall(h: Option<CheckId>) | SetUnlock
    // Close, once SetShared has let it through
    | ClsCancel | ClsLock | ClsOld | ClsClear | ClsUnlock

  /** `closes` counts how often each check ever handed in has been closed.  The rest is history: some Close has emptied the
      slot, the generation of the configuration that each check belongs to, and what the last SetHealthCheck to take the
      lock carried. */
  datatype Shared = Shared(slot: Option<CheckId>, closes: seq<nat>, lock: Option<ThreadId>, cancelled: bool, cleared: bool,
                           gens: seq<nat>, turn: Option<CheckId>)

  datatype State = State(sh: Shared, ts: seq<Pc>)

  const INIT_STATE := State(Shared(None, [], None, false, false, [], None), [])

  function Shut(closes: seq<nat>, c: Option<CheckId>): seq<nat> {
    if c.Some? && c.value < |closes| then closes[c.value := closes[c.value] + 1] else closes
  }

  /** Goroutine i at pc, seeing sh, may make it sh' and go on at pc'. */
  ghost predicate Moves(i: ThreadId, pc: Pc, sh: Shared, pc': Pc, sh': Shared) {
    match pc
    case Idle =>
      || (|sh'.gens| == |sh.gens| + 1 && sh' == sh.(closes := sh.closes + [0], gens := sh.gens + [sh'.gens[|sh.gens|]])
          && pc' == SetLock(Some(|sh.closes|)))
      || (sh' == sh && (pc' == SetLock(None) || pc' == ClsCancel))
    case SetLock(h) => sh.lock == None && sh' == sh.(lock := Some(i), turn := h) && pc' == SetCtx(h)
    case SetCtx(h) => sh' == sh && pc' == if sh.cancelled && h.Some? then SetShutNew(h) else SetOld(h)
    case SetShutNew(h) => sh' == sh.(closes := Shut(sh.closes, h)) && pc' == SetOld(None)
    case SetOld(h) => sh' == sh.(closes := Shut(sh.closes, sh.slot)) && pc' == SetInstall(h)
    case SetInstall(h) => sh' == sh.(slot := h) && pc' == SetUnlock
    case SetUnlock => sh' == sh.(lock := None) && pc' == Idle
    case ClsCancel => sh' == sh.(cancelled := true) && pc' == ClsLock
    case ClsLock => sh.lock == None && sh' == sh.(lock := Some(i)) && pc' == ClsOld
    case ClsOld => sh' == sh.(closes := Shut(sh.closes, sh.slot)) && pc' == ClsClear
    case ClsClear => sh' == sh.(slot := None, cleared := true) && pc' == ClsUnlock
    case ClsUnlock => sh' == sh.(lock := None) && pc' == Idle
  }

  ghost predicate Steps(s: State, i: ThreadId, s': State) {
    i < |s.ts| && |s'.ts| == |s.ts| && s'.ts == s.ts[i := s'.ts[i]] && Moves(i, s.ts[i], s.sh, s'.ts[i], s'.sh)
  }

  ghost predicate Next(s: State, s': State) {
    s' == s.(ts := s.ts + [Idle]) || exists i: ThreadId :: Steps(s, i, s')
  }

  ghost predicate Execution(states: seq<State>) {
    states != [] && states[0] == INIT_STATE && forall k :: 1 <= k < |states| ==> Next(states[k - 1], states[k])
  }

  // ---- the invariant -----------------------------------------------------------------------------------------------

  predicate InSection(pc: Pc) {
    match pc
    case Idle => false
    case SetLock(_) => false
    case ClsCancel => false
    case ClsLock => false
    case _ => true
  }

  /** The check that a running call still has to install or close. */
  function InHand(pc: Pc): Option<CheckId> {
    match pc
    case SetLock(h) => h
    case SetCtx(h) => h
    case SetShutNew(h) => h
    case SetOld(h) => h
    case SetInstall(h) => h
    case _ => None
  }

  /** The one in the slot has been closed and is about to be replaced. */
  predicate Replacing(pc: Pc) {
    pc.SetInstall? || pc.ClsClear?
  }

  /** What holds of each goroutine alone. */
  ghost predicate Fits(i: ThreadId, pc: Pc, sh: Shared) {
    && (InSection(pc) <==> sh.lock == Some(i))
    && Open(InHand(pc), sh)
    && (InSection(pc) && sh.slot.Some? ==>
          sh.slot.value < |sh.closes| && (sh.closes[sh.slot.value] == if Replacing(pc) then 1 else 0))
    && match pc
       case SetCtx(h) => sh.turn == h
       case SetShutNew(_) => sh.cancelled
       case SetOld(h) => (sh.cleared ==> h == None) && (!sh.cancelled ==> sh.turn == h)
       case SetInstall(h) => (sh.cleared ==> h == None) && (!sh.cancelled ==> sh.turn == h)
       case SetUnlock => !sh.cancelled ==> sh.slot == sh.turn
       case ClsClear => sh.cancelled
       case ClsUnlock => sh.cancelled
       case ClsLock => sh.cancelled
       case ClsOld => sh.cancelled
       case _ => true
  }

  /** A check that is still to be installed or closed. */
  predicate Open(c: Option<CheckId>, sh: Shared) {
    c.Some? ==> c.value < |sh.closes| && sh.closes[c.value] == 0 && sh.slot != c
  }

  /** What holds of the shared part alone. */
  ghost predicate SharedOk(sh: Shared) {
    && (sh.cleared ==> sh.cancelled && sh.slot == None)
    && |sh.gens| == |sh.closes| && (sh.lock == None && !sh.cancelled ==> sh.slot == sh.turn)
    && (sh.slot.Some? ==> sh.slot.value < |sh.closes| && (sh.lock == None ==> sh.closes[sh.slot.value] == 0))
  }

  ghost predicate InSomeHand(s: State, c: CheckId) {
    exists i :: 0 <= i < |s.ts| && InHand(s.ts[i]) == Some(c)
  }

  ghost predicate Placed(s: State, c: CheckId)
    requires c < |s.sh.closes|
  {
    s.sh.closes[c] <= 1 && (s.sh.closes[c] == 1 || s.sh.slot == Some(c) || InSomeHand(s, c))
  }

  ghost predicate Invariant(s: State) {
    && SharedOk(s.sh)
    && (s.sh.lock.Some? ==> s.sh.lock.value < |s.ts|)
    && (forall i :: 0 <= i < |s.ts| ==> Fits(i, s.ts[i], s.sh))
    && (forall i, j :: 0 <= i < j < |s.ts| ==> Apart(s.ts[i], s.ts[j]))
    && (forall c :: 0 <= c < |s.sh.closes| ==> Placed(s, c))
  }

  predicate Apart(p: Pc, q: Pc) {
    InHand(p).Some? ==> InHand(p) != InHand(q)
  }

  lemma MoverFits(i: ThreadId, pc: Pc, sh: Shared, pc': Pc, sh': Shared)
    requires SharedOk(sh) && Fits(i, pc, sh) && Moves(i, pc, sh, pc', sh')
    ensures SharedOk(sh') && Fits(i, pc', sh')
    ensures sh.cleared ==> sh'.cleared
    ensures sh'.lock == sh.lock || sh'.lock == Some(i) || sh'.lock == None
  {
  }

  lemma OtherFits(i: ThreadId, pc: Pc, sh: Shared, pc': Pc, sh': Shared, j: ThreadId, q: Pc)
    requires SharedOk(sh) && Fits(i, pc, sh) && Moves(i, pc, sh, pc', sh')
    requires j != i && Fits(j, q, sh) && Apart(pc, q)
    ensures Fits(j, q, sh') && Apart(pc', q) && Apart(q, pc')
  {
  }

  /** One check: it is closed once at most, and when it leaves the hand or the slot it is closed or in the slot. */
  lemma MoverPlaces(i: ThreadId, pc: Pc, sh: Shared, pc': Pc, sh': Shared, c: CheckId)
    requires SharedOk(sh) && Fits(i, pc, sh) && Moves(i, pc, sh, pc', sh') && c < |sh'.closes|
    ensures c < |sh.closes| && sh.closes[c] <= 1 ==> sh.closes[c] <= sh'.closes[c] <= 1
    ensures c < |sh.closes| && (sh.closes[c] == 1 || sh.slot == Some(c) || InHand(pc) == Some(c)) ==>
              sh'.closes[c] == 1 || sh'.slot == Some(c) || InHand(pc') == Some(c)
    ensures c >= |sh.closes| ==> sh'.closes[c] == 0 && InHand(pc') == Some(c)
  {
  }

  lemma StepKeeps(s: State, s': State)
    requires Invariant(s) && Next(s, s')
    ensures Invariant(s')
    ensures s.sh.cleared ==> s'.sh.cleared
  {
    hide Moves, Fits, SharedOk;
    if s' == s.(ts := s.ts + [Idle]) {
      NewcomerFits(s);
      forall c | 0 <= c < |s.sh.closes| ensures Placed(s', c) {
        assert Placed(s, c);
        if InSomeHand(s, c) {
          var j :| 0 <= j < |s.ts| && InHand(s.ts[j]) == Some(c);
          assert InHand(s'.ts[j]) == Some(c);
        }
      }
    } else {
      var i: ThreadId :| Steps(s, i, s');
      MoverFits(i, s.ts[i], s.sh, s'.ts[i], s'.sh);
      forall j | 0 <= j < |s.ts| && j != i
        ensures Fits(j, s'.ts[j], s'.sh) && Apart(s'.ts[i], s'.ts[j]) && Apart(s'.ts[j], s'.ts[i])
      {
        assert s'.ts[j] == s.ts[j];
        assert Apart(s.ts[i], s.ts[j]) by {
          assert if i < j then Apart(s.ts[i], s.ts[j]) else Apart(s.ts[j], s.ts[i]);
        }
        OtherFits(i, s.ts[i], s.sh, s'.ts[i], s'.sh, j, s.ts[j]);
      }
      forall c | 0 <= c < |s'.sh.closes| ensures Placed(s', c) {
        StepPlaces(s, i, s', c);
      }
    }
  }

  lemma NewcomerFits(s: State)
    requires Invariant(s)
    ensures Fits(|s.ts|, Idle, s.sh)
  {
  }

  lemma StepPlaces(s: State, i: ThreadId, s': State, c: CheckId)
    requires Invariant(s) && Steps(s, i, s') && c < |s'.sh.closes|
    ensures Placed(s', c)
  {
    hide Moves, Fits, SharedOk;
    MoverPlaces(i, s.ts[i], s.sh, s'.ts[i], s'.sh, c);
    if c < |s.sh.closes| {
      assert Placed(s, c);
      if s.sh.closes[c] != 1 && s.sh.slot != Some(c) && InHand(s.ts[i]) != Some(c) {
        var j :| 0 <= j < |s.ts| && InHand(s.ts[j]) == Some(c);
        assert InHand(s'.ts[j]) == Some(c);
      }
    }
    if InHand(s'.ts[i]) == Some(c) {
      assert InSomeHand(s', c);
    }
  }

  lemma {:induction false} ExecutionKeeps(states: seq<State>, k: nat)
    requires Execution(states) && k < |states|
    ensures Invariant(states[k])
  {
    if k > 0 {
      ExecutionKeeps(states, k - 1);
      StepKeeps(states[k - 1], states[k]);
    }
  }

  // ---- what follows ------------------------------------------------------------------------------------------------

  /** Every check ever handed in is closed (once), installed, or in the hand of exactly one running call; so at most one
      check that no call is busy with is open. */
  lemma EveryCheckAccountedFor(states: seq<State>, k: nat, c: CheckId)
    requires Execution(states) && k < |states| && c < |states[k].sh.closes|
    ensures var s := states[k];
            && s.sh.closes[c] <= 1
            && (s.sh.closes[c] == 1 || s.sh.slot == Some(c) || exists i :: 0 <= i < |s.ts| && InHand(s.ts[i]) == Some(c))
    ensures forall i, j :: 0 <= i < j < |states[k].ts| && InHand(states[k].ts[i]).Some? ==>
              InHand(states[k].ts[i]) != InHand(states[k].ts[j])
    ensures InSomeHand(states[k], c) ==> states[k].sh.closes[c] == 0 && states[k].sh.slot != Some(c)
  {
    ExecutionKeeps(states, k);
    assert Placed(states[k], c);
    assert forall i, j :: 0 <= i < j < |states[k].ts| ==> Apart(states[k].ts[i], states[k].ts[j]);
  }

  lemma AtMostOneOpen(states: seq<State>, k: nat, c: CheckId, d: CheckId)
    requires Execution(states) && k < |states| && c < |states[k].sh.closes| && d < |states[k].sh.closes|
    requires states[k].sh.closes[c] == 0 && !InSomeHand(states[k], c)
    requires states[k].sh.closes[d] == 0 && !InSomeHand(states[k], d)
    ensures c == d
  {
    EveryCheckAccountedFor(states, k, c);
    EveryCheckAccountedFor(states, k, d);
  }

  lemma LockHolder(s: State)
    requires Invariant(s) && s.sh.lock.Some?
    ensures InSection(s.ts[s.sh.lock.value])
  {
  }

  /** With no call running, the open checks are exactly the installed one. */
  lemma QuietMeansOne(states: seq<State>, k: nat, c: CheckId)
    requires Execution(states) && k < |states| && c < |states[k].sh.closes|
    requires forall i :: 0 <= i < |states[k].ts| ==> states[k].ts[i] == Idle
    ensures states[k].sh.closes[c] == if states[k].sh.slot == Some(c) then 0 else 1
  {
    ExecutionKeeps(states, k);
    EveryCheckAccountedFor(states, k, c);
    var s := states[k];
    if s.sh.lock.Some? {
      LockHolder(s);
    }
  }

  lemma {:induction false} StaysCleared(states: seq<State>, k: nat, l: nat)
    requires Execution(states) && k <= l < |states| && states[k].sh.cleared
    ensures states[l].sh.cleared
  {
    hide Next, Invariant;
    if k < l {
      StaysCleared(states, k, l - 1);
      ExecutionKeeps(states, l - 1);
      StepKeeps(states[l - 1], states[l]);
    }
  }

  /** Once some Close has emptied the slot nothing is ever installed again, and what is handed in later is closed. */
  lemma ClearedForGood(states: seq<State>, k: nat, l: nat)
    requires Execution(states) && k <= l < |states| && states[k].sh.cleared
    ensures states[l].sh.slot == None
    ensures forall c :: 0 <= c < |states[l].sh.closes| && !InSomeHand(states[l], c) ==> states[l].sh.closes[c] == 1
  {
    hide Next, Fits;
    StaysCleared(states, k, l);
    ExecutionKeeps(states, l);
    forall c | 0 <= c < |states[l].sh.closes| && !InSomeHand(states[l], c) ensures states[l].sh.closes[c] == 1 {
      assert Placed(states[l], c);
    }
  }

  // ---- which of several generations is installed -------------------------------------------------------------------

  /** Check c is of the latest generation among those that no call is busy with. */
  ghost predicate Latest(s: State, c: CheckId) {
    c < |s.sh.gens| && forall d :: 0 <= d < |s.sh.gens| && !InSomeHand(s, d) ==> s.sh.gens[d] <= s.sh.gens[c]
  }

  /** With the lock free and the server open, the installed check is the one that the last call to take the lock carried;
      so it is of the latest generation exactly if that one is. */
  lemma LastTurnIsInstalled(states: seq<State>, k: nat)
    requires Execution(states) && k < |states| && states[k].sh.lock == None && !states[k].sh.cancelled
    ensures var s := states[k];
            s.sh.slot == s.sh.turn &&
            (s.sh.slot.Some? && Latest(s, s.sh.slot.value) <==> s.sh.turn.Some? && Latest(s, s.sh.turn.value))
  {
    ExecutionKeeps(states, k);
  }

  ghost predicate Reachable(s: State) {
    exists states :: Execution(states) && states[|states| - 1] == s
  }

  lemma ReachableNext(s: State, s': State)
    requires Reachable(s) && Next(s, s')
    ensures Reachable(s')
  {
    hide Next;
    var states :| Execution(states) && states[|states| - 1] == s;
    var longer := states + [s'];
    assert forall k :: 0 <= k < |states| ==> longer[k] == states[k];
    assert Execution(longer);
    assert longer[|longer| - 1] == s';
  }

  lemma OneStep(s: State, pc': Pc, sh': Shared) returns (s': State)
    requires Reachable(s) && |s.ts| == 1 && Moves(0, s.ts[0], s.sh, pc', sh')
    ensures Reachable(s') && s' == State(sh', [pc'])
  {
    s' := State(sh', [pc']);
    assert Steps(s, 0, s');
    ReachableNext(s, s');
  }

  /** One goroutine hands in a check of generation g, undisturbed. */
  lemma HandsIn(s: State, g: nat) returns (s': State)
    requires Reachable(s) && s.ts == [Idle] && s.sh.lock == None && !s.sh.cancelled
    ensures Reachable(s') && s'.ts == [Idle] && s'.sh.lock == None && !s'.sh.cancelled
    ensures s'.sh.gens == s.sh.gens + [g] && s'.sh.slot == Some(|s.sh.closes|)
    ensures s'.sh.closes == Shut(s.sh.closes + [0], s.sh.slot)
  {
    var c := Some(|s.sh.closes|);
    s' := OneStep(s, SetLock(c), s.sh.(closes := s.sh.closes + [0], gens := s.sh.gens + [g]));
    s' := OneStep(s', SetCtx(c), s'.sh.(lock := Some(0), turn := c));
    s' := OneStep(s', SetOld(c), s'.sh);
    s' := OneStep(s', SetInstall(c), s'.sh.(closes := Shut(s'.sh.closes, s'.sh.slot)));
    s' := OneStep(s', SetUnlock, s'.sh.(slot := c));
    s' := OneStep(s', Idle, s'.sh.(lock := None));
  }

  /** The check of generation 2 notified first, that of generation 1 later: the old one replaces the new one, which is
      closed. */
  lemma OldReplacesNew() returns (s: State)
    ensures Reachable(s) && s.ts == [Idle] && s.sh.gens == [2, 1] && s.sh.slot == Some(1) && s.sh.closes == [1, 0]
    ensures !Latest(s, 1)
  {
    assert Execution([INIT_STATE]) && [INIT_STATE][0] == INIT_STATE;
    var t := INIT_STATE.(ts := [Idle]);
    ReachableNext(INIT_STATE, t);
    var u := HandsIn(t, 2);
    s := HandsIn(u, 1);
    assert !InSomeHand(s, 0);
    assert s.sh.gens[0] == 2 && s.sh.gens[1] == 1;
  }
}
