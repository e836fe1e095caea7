/** A limit that is looked at in one step and counted in another, as MaxConn of a backend, ServerMaxConn and
    ServerMaxIdleConn are (serve, pkg/lb/httpbackend.go): how far it can be overshot, and when it holds. */
module LimitRace {
  import opened Tally

  /** A user of the limit: outside, past the look, counted. */
  datatype Stage = Out | Passed | In

  /** `peak` is history: the largest number of users ever past the look and not yet counted. */
  datatype State = State(count: int, users: seq<Stage>, peak: nat)

  const INIT_STATE := State(0, [], 0)

  /** What one user does: it looks, and passes if there is room; it is counted, or gives up before; it leaves. */
  predicate Moves(max: int, count: int, u: Stage, d: int, u': Stage) {
    match u
    case Out => d == 0 && u' == Passed && (max > 0 ==> count < max)
    case Passed => (d == 1 && u' == In) || (d == 0 && u' == Out)
    case In => d == -1 && u' == Out
  }

  function Counted(u: Stage): int {
    if u.In? then 1 else 0
  }

  function Entering(u: Stage): int {
    if u.Passed? then 1 else 0
  }

  ghost function Max(a: nat, b: int): nat {
    if b > a then b else a
  }

  ghost predicate Steps(max: int, s: State, i: nat, d: int, u: Stage, s': State) {
    && i < |s.users| && Moves(max, s.count, s.users[i], d, u)
    && s' == State(s.count + d, s.users[i := u], Max(s.peak, Sum(s.users[i := u], Entering)))
  }

  /** A step of a user, or a new one. */
  ghost predicate Next(max: int, s: State, s': State) {
    s' == s.(users := s.users + [Out]) || exists i: nat, d, u :: Steps(max, s, i, d, u, s')
  }

  ghost predicate Execution(max: int, states: seq<State>) {
    states != [] && states[0] == INIT_STATE && forall k :: 1 <= k < |states| ==> Next(max, states[k - 1], states[k])
  }

  ghost predicate Reachable(max: int, s: State) {
    exists states :: Execution(max, states) && states[|states| - 1] == s
  }

  // ---- how far it goes ---------------------------------------------------------------------------------------------

  ghost predicate Invariant(max: int, s: State) {
    && s.count == Sum(s.users, Counted)
    && 0 <= Sum(s.users, Entering) <= s.peak
    && (max > 0 ==> s.count + Sum(s.users, Entering) <= max + if s.peak == 0 then 0 else s.peak - 1)
  }

  lemma StepKeeps(max: int, s: State, s': State)
    requires Invariant(max, s) && Next(max, s, s')
    ensures Invariant(max, s')
  {
    if s' == s.(users := s.users + [Out]) {
      SumAppend(s.users, Out, Counted);
      SumAppend(s.users, Out, Entering);
    } else {
      var i: nat, d, u :| Steps(max, s, i, d, u, s');
      SumUpdate(s.users, i, u, Counted);
      SumUpdate(s.users, i, u, Entering);
      SumBounds(s'.users, Entering, 0);
    }
  }

  lemma {:induction false} ExecutionKeeps(max: int, states: seq<State>, k: nat)
    requires Execution(max, states) && k < |states|
    ensures Invariant(max, states[k])
  {
    if k > 0 {
      ExecutionKeeps(max, states, k - 1);
      StepKeeps(max, states[k - 1], states[k]);
    }
  }

  /** The count is the number of users that are in. */
  lemma CountIs(max: int, s: State)
    requires Reachable(max, s)
    ensures s.count == |set i | 0 <= i < |s.users| && s.users[i] == In|
  {
    var states :| Execution(max, states) && states[|states| - 1] == s;
    ExecutionKeeps(max, states, |states| - 1);
    SumCounts(s.users, Counted, set i | 0 <= i < |s.users| && s.users[i] == In);
  }

  /** The count exceeds the limit by at most one less than the largest number of users ever between look and count. */
  lemma Overshoot(max: int, s: State)
    requires Reachable(max, s) && max > 0
    ensures s.count <= max + if s.peak == 0 then 0 else s.peak - 1
  {
    var states :| Execution(max, states) && states[|states| - 1] == s;
    ExecutionKeeps(max, states, |states| - 1);
  }

  // ---- the bound is reached ----------------------------------------------------------------------------------------

  lemma ReachableNext(max: int, s: State, s': State)
    requires Reachable(max, s) && Next(max, s, s')
    ensures Reachable(max, s')
  {
    hide Next;
    var states :| Execution(max, states) && states[|states| - 1] == s;
    var longer := states + [s'];
    assert forall k :: 0 <= k < |states| ==> longer[k] == states[k];
    assert Execution(max, longer);
    assert longer[|longer| - 1] == s';
  }

  lemma OneStep(max: int, t: State, i: nat, d: int, u: Stage) returns (s: State)
    requires Reachable(max, t) && i < |t.users| && Moves(max, t.count, t.users[i], d, u)
    ensures Reachable(max, s) && s.count == t.count + d && s.users == t.users[i := u]
    ensures Sum(s.users, Entering) == Sum(t.users, Entering) - Entering(t.users[i]) + Entering(u)
    ensures s.peak == Max(t.peak, Sum(s.users, Entering))
  {
    s := State(t.count + d, t.users[i := u], Max(t.peak, Sum(t.users[i := u], Entering)));
    SumUpdate(t.users, i, u, Entering);
    assert Steps(max, t, i, d, u, s);
    ReachableNext(max, t, s);
  }

  lemma Arrival(max: int, t: State) returns (s: State)
    requires Reachable(max, t)
    ensures Reachable(max, s) && s == t.(users := t.users + [Out])
    ensures Sum(s.users, Entering) == Sum(t.users, Entering)
  {
    s := t.(users := t.users + [Out]);
    SumAppend(t.users, Out, Entering);
    ReachableNext(max, t, s);
  }

  /** m users that came one after the other, all counted; without a limit there can be any number. */
  lemma {:induction false} OneByOne(max: int, m: nat) returns (s: State)
    requires max <= 0 || m <= max
    ensures Reachable(max, s) && s.count == |s.users| == m && s.peak <= 1 && Sum(s.users, Entering) == 0
  {
    hide Reachable;
    if m == 0 {
      s := INIT_STATE;
      Beginning(max);
    } else {
      var t := OneByOne(max, m - 1);
      var u := Arrival(max, t);
      var v := OneStep(max, u, m - 1, 0, Passed);
      s := OneStep(max, v, m - 1, 1, In);
    }
  }

  lemma Beginning(max: int)
    ensures Reachable(max, INIT_STATE) && Sum(INIT_STATE.users, Entering) == 0
  {
    assert Execution(max, [INIT_STATE]) && [INIT_STATE][0] == INIT_STATE;
  }

  /** Then n more that look together, before any of them is counted. */
  lemma {:induction false} Crowd(max: int, m: nat, n: nat) returns (s: State)
    requires m < max
    ensures Reachable(max, s) && s.count == m && |s.users| == m + n && Sum(s.users, Entering) == n
    ensures forall i :: m <= i < m + n ==> s.users[i] == Passed
    ensures n <= s.peak <= n + if n == 0 then 1 else 0
  {
    hide Reachable;
    if n == 0 {
      s := OneByOne(max, m);
    } else {
      var t := Crowd(max, m, n - 1);
      var u := Arrival(max, t);
      s := OneStep(max, u, m + n - 1, 0, Passed);
    }
  }

  lemma {:induction false} CrowdCounted(max: int, m: nat, n: nat, a: nat) returns (s: State)
    requires m < max && 1 <= n && a <= n
    ensures Reachable(max, s) && s.count == m + a && |s.users| == m + n && Sum(s.users, Entering) == n - a && s.peak == n
    ensures forall i :: m + a <= i < m + n ==> s.users[i] == Passed
  {
    hide Reachable;
    if a == 0 {
      s := Crowd(max, m, n);
    } else {
      var t := CrowdCounted(max, m, n, a - 1);
      s := OneStep(max, t, m + a - 1, 1, In);
    }
  }

  /** Whatever the limit, n users between look and count at once can exceed it by n - 1. */
  lemma Reached(max: int, n: nat) returns (s: State)
    requires 1 <= max && 1 <= n
    ensures Reachable(max, s) && s.peak == n && s.count == max + n - 1
  {
    s := CrowdCounted(max, max - 1, n, n);
  }

  /** The limit holds in all executions that never have more than `most` users between look and count exactly if that is at
      most one. */
  lemma HoldsExactly(max: int, most: nat)
    requires 1 <= max
    ensures most <= 1 <==> forall s :: Reachable(max, s) && s.peak <= most ==> s.count <= max
  {
    forall s | Reachable(max, s) && s.peak <= 1 ensures s.count <= max {
      Overshoot(max, s);
    }
    if most > 1 {
      var s := Reached(max, most);
    }
  }
}
