/** The rise and fall hysteresis of HTTPCheck (pkg/hc/httpcheck.go).  A check's outcome is a bool; the history of a
    worker is the sequence of outcomes it has seen. */
module HealthCheck {

  datatype Thresholds = Thresholds(fall: int, rise: int) {
    /** HTTPCheckOptions.CopyFrom. */
    function CopyFrom(): (r: Thresholds)
      ensures r.Ok() && (0 < fall ==> r.fall == fall) && (0 < rise ==> r.rise == rise)
      ensures (fall <= 0 ==> r.fall == 3) && (rise <= 0 ==> r.rise == 2)
    {
      Thresholds(if fall <= 0 then 3 else fall, if rise <= 0 then 2 else rise)
    }

    predicate Ok() {
      0 < fall && 0 < rise
    }
  }

  // ---- reading a history -------------------------------------------------------------------------------------------

  /** How many of the latest checks in a row had outcome v. */
  function Run(h: seq<bool>, v: bool): nat {
    if h == [] || h[|h| - 1] != v then 0 else 1 + Run(h[..|h| - 1], v)
  }

  /** Check number i ended a run of successes, or of failures, that is long enough to decide. */
  predicate Up(h: seq<bool>, i: nat, t: Thresholds)
    requires i <= |h|
  {
    Run(h[..i], true) >= t.rise
  }

  predicate Down(h: seq<bool>, i: nat, t: Thresholds)
    requires i <= |h|
  {
    Run(h[..i], false) >= t.fall
  }

  /** The latest deciding check ended a run of successes. */
  ghost predicate Healthy(h: seq<bool>, t: Thresholds) {
    exists i :: 1 <= i <= |h| && Up(h, i, t) && forall j :: i < j <= |h| ==> !Down(h, j, t)
  }

  /** A run is at least n checks long if the latest n all had that outcome. */
  lemma {:induction false} RunIs(h: seq<bool>, v: bool, n: nat)
    ensures Run(h, v) >= n <==> n <= |h| && forall j :: |h| - n <= j < |h| ==> h[j] == v
  {
    if h != [] && n > 0 {
      var before := h[..|h| - 1];
      RunIs(before, v, n - 1);
      assert forall j :: 0 <= j < |before| ==> before[j] == h[j];
    }
  }

  /** The n checks up to number i all had outcome v. */
  predicate Streak(h: seq<bool>, i: nat, n: nat, v: bool) {
    n <= i <= |h| && forall j :: i - n <= j < i ==> h[j] == v
  }

  /** In terms of the checks alone: a server is healthy if some Rise checks in a row succeeded and no Fall checks in a row,
      the last of them later, failed. */
  lemma HealthyMeans(h: seq<bool>, t: Thresholds)
    requires t.Ok()
    ensures Healthy(h, t) <==>
            exists i: nat :: Streak(h, i, t.rise, true) && forall k: nat :: i < k ==> !Streak(h, k, t.fall, false)
  {
    forall i | 0 <= i <= |h|
      ensures Up(h, i, t) <==> Streak(h, i, t.rise, true)
      ensures Down(h, i, t) <==> Streak(h, i, t.fall, false)
    {
      RunIs(h[..i], true, t.rise);
      RunIs(h[..i], false, t.fall);
      assert forall j :: 0 <= j < i ==> h[..i][j] == h[j];
    }
  }

  lemma Prefixes(h: seq<bool>, ok: bool)
    ensures (h + [ok])[..|h| + 1] == h + [ok] && (h + [ok])[..|h|] == h
    ensures forall i :: 0 <= i <= |h| ==> (h + [ok])[..i] == h[..i]
  {
  }

  lemma RunGrows(h: seq<bool>, ok: bool)
    ensures Run(h + [ok], ok) == Run(h, ok) + 1 && Run(h + [ok], !ok) == 0
  {
    Prefixes(h, ok);
  }

  /** One more check: a healthy server stays so unless a run of failures is complete, another becomes healthy when a run
      of successes is. */
  lemma OneMoreCheck(h: seq<bool>, ok: bool, t: Thresholds)
    requires t.Ok()
    ensures Healthy(h + [ok], t) <==>
            if Healthy(h, t) then Run(h + [ok], false) < t.fall else Run(h + [ok], true) >= t.rise
  {
    var g := h + [ok];
    Prefixes(h, ok);
    RunGrows(h, ok);
    assert forall i :: 0 <= i <= |h| ==> (Up(g, i, t) <==> Up(h, i, t)) && (Down(g, i, t) <==> Down(h, i, t));
    assert Down(g, |g|, t) <==> Run(g, false) >= t.fall;
    assert Up(g, |g|, t) <==> Run(g, true) >= t.rise;
    if Healthy(h, t) && Run(g, false) < t.fall {
      var i :| 1 <= i <= |h| && Up(h, i, t) && forall j :: i < j <= |h| ==> !Down(h, j, t);
      assert Up(g, i, t);
      assert forall j :: i < j <= |g| ==> !Down(g, j, t);
    }
    if Healthy(g, t) {
      var i :| 1 <= i <= |g| && Up(g, i, t) && forall j :: i < j <= |g| ==> !Down(g, j, t);
      if i <= |h| {
        assert Up(h, i, t) && forall j :: i < j <= |h| ==> !Down(h, j, t);
      }
    }
  }

  lemma NoCheckYet(t: Thresholds)
    ensures !Healthy([], t)
  {
  }

  // ---- what a change costs -----------------------------------------------------------------------------------------

  /** How often the status has become v. */
  ghost function Changes(h: seq<bool>, v: bool, t: Thresholds): nat {
    if h == [] then 0
    else
      var before := h[..|h| - 1];
      Changes(before, v, t) + if Healthy(before, t) != v && Healthy(h, t) == v then 1 else 0
  }

  /** m rises and n falls take at least m * Rise + n * Fall checks, and the run towards the next change comes on top. */
  lemma {:induction false} ChangesNeedChecks(h: seq<bool>, t: Thresholds)
    requires t.Ok()
    ensures |h| >= Changes(h, true, t) * t.rise + Changes(h, false, t) * t.fall + Run(h, !Healthy(h, t))
    ensures Changes(h, true, t) == Changes(h, false, t) + if Healthy(h, t) then 1 else 0
  {
    if h == [] {
      NoCheckYet(t);
    } else {
      var before, ok := h[..|h| - 1], h[|h| - 1];
      assert h == before + [ok];
      ChangesNeedChecks(before, t);
      OneMoreCheck(before, ok, t);
      RunGrows(before, ok);
      assert (Changes(before, true, t) + 1) * t.rise == Changes(before, true, t) * t.rise + t.rise;
      assert (Changes(before, false, t) + 1) * t.fall == Changes(before, false, t) * t.fall + t.fall;
    }
  }

  // ---- notifications -----------------------------------------------------------------------------------------------

  ghost predicate EverHealthy(h: seq<bool>, t: Thresholds) {
    exists i :: 0 <= i <= |h| && Healthy(h[..i], t)
  }

  /** The latest check calls for a notification: the status changed, or enough checks have passed without any rise. */
  ghost predicate Calls(h: seq<bool>, t: Thresholds)
    requires h != []
  {
    Healthy(h, t) != Healthy(h[..|h| - 1], t) || (|h| == t.fall && !EverHealthy(h, t))
  }

  /** The notifications a history calls for. */
  ghost function Offers(h: seq<bool>, t: Thresholds): seq<bool> {
    if h == [] then []
    else Offers(h[..|h| - 1], t) + if Calls(h, t) then [Healthy(h, t)] else []
  }

  lemma EverHealthyGrows(h: seq<bool>, ok: bool, t: Thresholds)
    ensures EverHealthy(h + [ok], t) <==> EverHealthy(h, t) || Healthy(h + [ok], t)
  {
    var g := h + [ok];
    Prefixes(h, ok);
    if EverHealthy(g, t) {
      var i :| 0 <= i <= |g| && Healthy(g[..i], t);
      if i <= |h| {
        assert Healthy(h[..i], t);
      }
    }
    if EverHealthy(h, t) {
      var i :| 0 <= i <= |h| && Healthy(h[..i], t);
      assert Healthy(g[..i], t);
    }
    if Healthy(g, t) {
      assert Healthy(g[..|g|], t);
    }
  }

  /** Notifications alternate, the latest one is the current status, and there is none exactly before both the first rise
      and check number Fall. */
  lemma {:induction false} OffersAlternate(h: seq<bool>, t: Thresholds)
    requires t.Ok()
    ensures forall k :: 1 <= k < |Offers(h, t)| ==> Offers(h, t)[k] != Offers(h, t)[k - 1]
    ensures Offers(h, t) != [] ==> Offers(h, t)[|Offers(h, t)| - 1] == Healthy(h, t)
    ensures Offers(h, t) == [] <==> |h| < t.fall && !EverHealthy(h, t)
    ensures Healthy(h, t) ==> EverHealthy(h, t)
  {
    if h == [] {
      NoCheckYet(t);
    } else {
      var before, ok := h[..|h| - 1], h[|h| - 1];
      assert h == before + [ok];
      OffersAlternate(before, t);
      EverHealthyGrows(before, ok, t);
    }
  }

  lemma NextOffer(h: seq<bool>, ok: bool, t: Thresholds)
    requires t.Ok()
    ensures Calls(h + [ok], t) <==>
            if Healthy(h + [ok], t) == Healthy(h, t) then |h| + 1 == t.fall && Offers(h, t) == [] && !Healthy(h, t) else true
    ensures !Calls(h + [ok], t) ==> Offers(h + [ok], t) == Offers(h, t)
    ensures Calls(h + [ok], t) ==> Offers(h + [ok], t) == Offers(h, t) + [Healthy(h + [ok], t)]
    ensures Offers(h, t) == [] ==> |h| < t.fall && !Healthy(h, t)
  {
    assert (h + [ok])[..|h|] == h;
    OffersAlternate(h, t);
    EverHealthyGrows(h, ok, t);
  }

  // ---- the worker --------------------------------------------------------------------------------------------------

  predicate Subsequence<T(==)>(a: seq<T>, b: seq<T>) {
    a == [] || (b != [] && (Subsequence(a, b[..|b| - 1])
                            || (a[|a| - 1] == b[|b| - 1] && Subsequence(a[..|a| - 1], b[..|b| - 1]))))
  }

  lemma SubsequenceGrows<T>(a: seq<T>, b: seq<T>, v: T)
    requires Subsequence(a, b)
    ensures Subsequence(a, b + [v]) && Subsequence(a + [v], b + [v])
  {
    assert (b + [v])[..|b|] == b && (a + [v])[..|a|] == a;
  }

  /** A check comes back, or the reader looks at the channel. */
  datatype Happening = Checked(ok: bool) | Read

  function Results(hs: seq<Happening>): seq<bool> {
    if hs == [] then []
    else Results(hs[..|hs| - 1]) + match hs[|hs| - 1] case Checked(ok) => [ok] case Read => []
  }

  /** What the reader has received and what waits in the channel after some happenings: a status that is called for goes
      into the channel if that is empty and is dropped otherwise. */
  ghost function Delivered(hs: seq<Happening>, t: Thresholds): (seq<bool>, seq<bool>) {
    if hs == [] then ([], [])
    else
      var before := hs[..|hs| - 1];
      var (taken, c) := Delivered(before, t);
      match hs[|hs| - 1]
      case Read => (taken + c, [])
      case Checked(ok) =>
        var h := Results(before) + [ok];
        (taken, if c == [] && Calls(h, t) then [Healthy(h, t)] else c)
  }

  /** One happening more: a check adds its outcome to the history and puts a status that is called for into the channel if
      that is empty; a read takes what is there. */
  lemma OneMoreHappening(hs: seq<Happening>, v: Happening, t: Thresholds)
    ensures v.Checked? ==>
              var h := Results(hs) + [v.ok];
              && Results(hs + [v]) == h && Delivered(hs + [v], t).0 == Delivered(hs, t).0
              && Delivered(hs + [v], t).1 ==
                 if Delivered(hs, t).1 == [] && Offers(h, t) != Offers(Results(hs), t) then [Healthy(h, t)] else Delivered(hs, t).1
    ensures v.Read? ==>
              && Results(hs + [v]) == Results(hs)
              && Delivered(hs + [v], t) == (Delivered(hs, t).0 + Delivered(hs, t).1, [])
    ensures Results([]) == [] && Delivered([], t) == ([], [])
  {
    hide Healthy, Calls;
    assert (hs + [v])[..|hs|] == hs;
    if v.Checked? {
      var h := Results(hs) + [v.ok];
      assert h[..|h| - 1] == Results(hs);
      assert Offers(h, t) == Offers(Results(hs), t) + if Calls(h, t) then [Healthy(h, t)] else [];
    }
  }

  class HTTPCheck {
    const t: Thresholds
    var healthy: bool
    var lastCheck: bool
    var falls: int
    var rises: int
    /** The channel, of capacity one. */
    var c: seq<bool>
    var closed: bool

    /** Every status the worker has tried to send, whether or not the channel had room; everything received so far; and
        the status when the reader last looked. */
    ghost var offered: seq<bool>
    ghost var taken: seq<bool>
    ghost var seen: bool

    constructor (opts: Thresholds)
      ensures t == opts.CopyFrom() && Reflects([]) && !closed && offered == [] && taken == [] && c == []
    {
      t := opts.CopyFrom();
      healthy, lastCheck, falls, rises, c, closed := false, false, 0, 0, [], false;
      offered, taken, seen := [], [], false;
      new;
      NoCheckYet(t);
    }

    /** The counters and the status are what the history says; the worker has offered exactly what the history calls for;
        what the reader has got and may still get is part of that, with the first notification never lost; and when
        nothing waits for it, the reader's picture is right. */
    ghost predicate Reflects(h: seq<bool>)
      reads this
    {
      && t.Ok()
      && falls == Run(h, false) && rises == Run(h, true)
      && lastCheck == (h != [] && h[|h| - 1])
      && healthy == Healthy(h, t)
      && |c| <= 1
      && offered == Offers(h, t)
      && Delivers()
      && (c == [] ==> seen == healthy)
    }

    ghost predicate Delivers()
      reads this
    {
      && Subsequence(taken + c, offered)
      && (offered != [] ==> taken + c != [] && (taken + c)[0] == offered[0])
    }

    ghost predicate EarlyCounts(early: int, h: seq<bool>)
      reads this
    {
      if Offers(h, t) == [] then early == |h| else early == -1
    }

    /** The non-blocking send of the status. */
    method Offer()
      requires |c| <= 1 && Delivers()
      modifies this`c, this`offered
      ensures c == (if old(c) == [] then [healthy] else old(c))
      ensures offered == old(offered) + [healthy] && Delivers()
    {
      SubsequenceGrows(taken + c, offered, healthy);
      if c == [] {
        assert taken + c == taken;
        c := [healthy];
      }
      offered := offered + [healthy];
    }

    /** One turn of the worker's loop. */
    method Turn(ok: bool, early: int, ghost h: seq<bool>) returns (e: int)
      requires Reflects(h) && EarlyCounts(early, h)
      modifies this`healthy, this`lastCheck, this`falls, this`rises, this`c, this`offered
      ensures Reflects(h + [ok]) && EarlyCounts(e, h + [ok])
      ensures c == if old(c) == [] && Calls(h + [ok], t) then [healthy] else old(c)
    {
      hide Healthy, Subsequence, Run, Offers, Calls;
      ghost var g := h + [ok];
      assert g[..|g| - 1] == h;
      OneMoreCheck(h, ok, t);
      RunGrows(h, ok);
      NeverStarted(h, t);
      NextOffer(h, ok, t);
      e := early;
      if ok != lastCheck {
        falls, rises := 0, 0;
      }
      if !ok {
        falls := falls + 1;
      } else {
        rises := rises + 1;
      }
      if healthy {
        if t.fall > 0 && falls >= t.fall {
          healthy := false;
          Offer();
          e := -1;
        }
      } else {
        if rises >= t.rise {
          healthy := true;
          Offer();
          e := -1;
        } else if e >= 0 {
          e := e + 1;
          if t.fall <= 0 || e >= t.fall {
            Offer();
            e := -1;
          }
        }
      }
      lastCheck := ok;
    }

    /** The reader's side: take what waits in the channel, if anything, and look at the status. */
    method Receive(ghost h: seq<bool>) returns (got: seq<bool>, status: bool)
      requires Reflects(h)
      modifies this`c, this`taken, this`seen
      ensures Reflects(h) && got == old(c) && taken == old(taken) + got && c == []
      ensures status == Healthy(h, t) == seen
    {
      got, status := c, healthy;
      taken, seen := taken + c, healthy;
      c := [];
      assert taken + c == taken;
    }

    /** The worker, with reads at any points between checks, until its context is done.  The statuses it offers alternate,
        the last is the current one, there is none exactly before both the first rise and check number Fall, and what the
        reader gets of them is determined by when it reads. */
    method Worker(hs: seq<Happening>)
      requires Reflects([]) && taken == [] && c == []
      modifies this
      ensures closed && Reflects(Results(hs)) && healthy == Healthy(Results(hs), t) && (taken, c) == Delivered(hs, t)
      ensures forall k :: 1 <= k < |offered| ==> offered[k] != offered[k - 1]
      ensures offered != [] ==> offered[|offered| - 1] == healthy
      ensures offered == [] <==> |Results(hs)| < t.fall && !EverHealthy(Results(hs), t)
    {
      hide Calls, Healthy, EverHealthy;
      var early := 0;
      for i := 0 to |hs|
        invariant Reflects(Results(hs[..i])) && EarlyCounts(early, Results(hs[..i]))
        invariant (taken, c) == Delivered(hs[..i], t)
      {
        assert hs[..i + 1][..i] == hs[..i];
        match hs[i] {
          case Checked(ok) =>
            early := Turn(ok, early, Results(hs[..i]));
          case Read =>
            assert Results(hs[..i + 1]) == Results(hs[..i]);
            var _, _ := Receive(Results(hs[..i]));
        }
      }
      assert hs[..|hs|] == hs;
      closed := true;
      OffersAlternate(Results(hs), t);
    }
  }

  /** Without success or failure there has been no check, and a run is of one kind. */
  lemma NeverStarted(h: seq<bool>, t: Thresholds)
    ensures h == [] ==> Run(h, true) == 0 && Run(h, false) == 0
    ensures h != [] ==> Run(h, !h[|h| - 1]) == 0
  {
  }
}
