/** Waiting for the send queue of a data channel to drain. The waiter reads the buffered amount,
    sets the low-water threshold, reads again, and parks on a channel of capacity one that the
    low-water callback fills without blocking. Other goroutines run between any two of its steps. */
module Backpressure {
  import opened Base

  /** `low` is the capacity-one channel; `pending` counts callbacks that were triggered and
      have not run yet. */
  datatype Flow = Flow(amount: nat, threshold: nat, low: bool, pending: nat)

  datatype Pc =
    | Idle
    | Setting(limit: nat)
    | Reading(limit: nat)
    | Parked(limit: nat)
    | Rechecking(limit: nat)

  datatype Sys = Sys(flow: Flow, pc: Pc)

  /** What the rest of the program and the network do. */
  datatype Env = Enqueue(n: nat) | Release(n: nat) | Callback

  datatype Action = Other(env: Env) | Call(limit: nat) | SetThreshold | ReadAgain | Take | Recheck | GiveUp

  /** None: not possible in this state. Releasing bytes triggers a callback exactly when the
      amount falls from above the threshold to at or below it. */
  function Move(f: Flow, e: Env): Option<Flow> {
    match e
    case Enqueue(n) => Some(f.(amount := f.amount + n))
    case Release(n) =>
      if n > f.amount then None else
      var crosses := f.amount > f.threshold && f.amount - n <= f.threshold;
      Some(f.(amount := f.amount - n, pending := if crosses then f.pending + 1 else f.pending))
    case Callback => if f.pending == 0 then None else Some(f.(pending := f.pending - 1, low := true))
  }

  function Next(s: Sys, a: Action): Option<Sys> {
    match (a, s.pc)
    case (Other(e), _) => (var f := Move(s.flow, e); if f.None? then None else Some(s.(flow := f.value)))
    case (Call(limit), Idle) => Some(if s.flow.amount <= limit then s else s.(pc := Setting(limit)))
    case (SetThreshold, Setting(limit)) => Some(Sys(s.flow.(threshold := limit), Reading(limit)))
    case (ReadAgain, Reading(limit)) => Some(s.(pc := if s.flow.amount <= limit then Idle else Parked(limit)))
    case (Take, Parked(limit)) => if s.flow.low then Some(Sys(s.flow.(low := false), Rechecking(limit))) else None
    case (Recheck, Rechecking(limit)) => Some(s.(pc := if s.flow.amount <= limit then Idle else Parked(limit)))
    case (GiveUp, Parked(_)) => Some(s.(pc := Idle))
    case _ => None
  }

  function Run(s: Sys, actions: seq<Action>): Option<Sys>
    decreases |actions|
  {
    if actions == [] then Some(s)
    else
      var s1 := Next(s, actions[0]);
      if s1.None? then None else Run(s1.value, actions[1..])
  }

  lemma {:induction false} RunSnoc(s: Sys, actions: seq<Action>, a: Action)
    requires Run(s, actions).Some?
    ensures Run(s, actions + [a]) == Next(Run(s, actions).value, a)
    decreases |actions|
  {
    if actions == [] {
      assert [] + [a] == [a] && [a][1..] == [];
    } else {
      assert (actions + [a])[0] == actions[0] && (actions + [a])[1..] == actions[1..] + [a];
      RunSnoc(Next(s, actions[0]).value, actions[1..], a);
    }
  }

  // ----------------------------------------------------------- no lost wakeup

  /** Whoever waits below its limit has a wakeup coming. */
  predicate WakeupComing(s: Sys) {
    s.pc.Parked? && s.flow.amount <= s.pc.limit ==> s.flow.low || s.flow.pending > 0
  }

  predicate ThresholdSet(s: Sys) {
    s.pc.Reading? || s.pc.Parked? || s.pc.Rechecking? ==> s.flow.threshold == s.pc.limit
  }

  /** No wakeup is lost in any run, whatever callbacks and tokens earlier waits left behind and
      whatever other threads enqueue. */
  lemma {:induction false} NoLostWakeup(f: Flow, actions: seq<Action>)
    requires Run(Sys(f, Idle), actions).Some?
    ensures WakeupComing(Run(Sys(f, Idle), actions).value) && ThresholdSet(Run(Sys(f, Idle), actions).value)
    decreases |actions|
  {
    if actions != [] {
      var n := |actions| - 1;
      assert actions == actions[..n] + [actions[n]];
      RunPrefix(Sys(f, Idle), actions[..n], actions[n..]);
      NoLostWakeup(f, actions[..n]);
      RunSnoc(Sys(f, Idle), actions[..n], actions[n]);
    }
  }

  lemma {:induction false} RunPrefix(s: Sys, a: seq<Action>, b: seq<Action>)
    requires Run(s, a + b).Some?
    ensures Run(s, a).Some?
    decreases |a|
  {
    if a != [] {
      assert (a + b)[0] == a[0] && (a + b)[1..] == a[1..] + b;
      RunPrefix(Next(s, a[0]).value, a[1..], b);
    }
  }

  /** Only the waiter and callbacks already triggered run: nobody enqueues, nothing is
      released, the timer does not fire. */
  predicate QuietAction(a: Action) {
    a == Other(Callback) || a == Take || a == Recheck
  }

  predicate Quiet(actions: seq<Action>) {
    forall i | 0 <= i < |actions| :: QuietAction(actions[i])
  }

  function StepsToReturn(s: Sys): nat {
    3 * s.flow.pending + (if s.flow.low then 2 else 0) + if s.pc.Rechecking? then 1 else 0
  }

  /** From a reachable state in which the queue is at or below the waiter's limit, every
      schedule of the waiter and the outstanding callbacks lets the waiter return without
      any further release: it does so within a fixed number of steps, and until it has, one
      of those steps is possible. */
  lemma {:induction false} WaiterReturns(s: Sys, actions: seq<Action>)
    requires WakeupComing(s) && (s.pc.Parked? || s.pc.Rechecking?) && s.flow.amount <= s.pc.limit
    requires Quiet(actions) && Run(s, actions).Some?
    ensures var t := Run(s, actions).value;
            t.pc != Idle ==> |actions| + StepsToReturn(t) <= StepsToReturn(s)
                             && exists a :: QuietAction(a) && Next(t, a).Some?
    decreases |actions|
  {
    if actions == [] {
      var a := if s.pc.Rechecking? then Recheck else if s.flow.low then Take else Other(Callback);
      assert QuietAction(a) && Next(s, a).Some?;
    } else {
      assert QuietAction(actions[0]);
      var s1 := Next(s, actions[0]).value;
      if s1.pc == Idle {
        StaysIdle(s1, actions[1..]);
      } else {
        WaiterReturns(s1, actions[1..]);
      }
    }
  }

  lemma {:induction false} StaysIdle(s: Sys, actions: seq<Action>)
    requires s.pc == Idle && Quiet(actions) && Run(s, actions).Some?
    ensures Run(s, actions).value.pc == Idle
    decreases |actions|
  {
    if actions != [] {
      assert QuietAction(actions[0]);
      StaysIdle(Next(s, actions[0]).value, actions[1..]);
    }
  }

  // -------------------------------------------------------------- more waiters

  /** Any number of waiters on one data channel. */
  datatype Crowd = Crowd(flow: Flow, pcs: seq<Pc>)

  function NextOf(c: Crowd, who: nat, a: Action): Option<Crowd> {
    if who >= |c.pcs| then None else
    var n := Next(Sys(c.flow, c.pcs[who]), a);
    if n.None? then None else Some(Crowd(n.value.flow, c.pcs[who := n.value.pc]))
  }

  function RunOf(c: Crowd, actions: seq<(nat, Action)>): Option<Crowd>
    decreases |actions|
  {
    if actions == [] then Some(c)
    else
      var n := NextOf(c, actions[0].0, actions[0].1);
      if n.None? then None else RunOf(n.value, actions[1..])
  }

  /** Whoever is parked at or below its limit has a wakeup coming. */
  predicate NobodyForgotten(c: Crowd) {
    forall i | 0 <= i < |c.pcs| :: WakeupComing(Sys(c.flow, c.pcs[i]))
  }

  predicate AllIdle(c: Crowd) {
    forall i | 0 <= i < |c.pcs| :: c.pcs[i] == Idle
  }

  /** With `n` waiters no run from idle forgets one. */
  ghost predicate NeverForgets(n: nat) {
    forall c: Crowd, actions | |c.pcs| == n && AllIdle(c) && RunOf(c, actions).Some? ::
          NobodyForgotten(RunOf(c, actions).value)
  }

  function Alone(actions: seq<(nat, Action)>): (r: seq<Action>)
    ensures |r| == |actions| && forall i | 0 <= i < |r| :: r[i] == actions[i].1
  {
    if actions == [] then [] else [actions[0].1] + Alone(actions[1..])
  }

  lemma {:induction false} CrowdOfOne(c: Crowd, actions: seq<(nat, Action)>)
    requires |c.pcs| == 1 && RunOf(c, actions).Some?
    ensures Run(Sys(c.flow, c.pcs[0]), Alone(actions)).Some?
    ensures var t := RunOf(c, actions).value;
            |t.pcs| == 1 && Sys(t.flow, t.pcs[0]) == Run(Sys(c.flow, c.pcs[0]), Alone(actions)).value
    decreases |actions|
  {
    if actions != [] {
      CrowdOfOne(NextOf(c, actions[0].0, actions[0].1).value, actions[1..]);
      assert Alone(actions)[1..] == Alone(actions[1..]);
    }
  }

  function Parking(who: nat, limit: nat): seq<(nat, Action)> {
    [(who, Call(limit)), (who, SetThreshold), (who, ReadAgain)]
  }

  function Waking(limit: nat): seq<(nat, Action)> {
    [(0, Other(Release(limit + 1))), (0, Other(Callback)), (0, Take), (0, Recheck)]
  }

  /** Two waiters park one after the other, all is released at once, and the one token that the
      one callback leaves wakes the first. */
  function Overslept(limit: nat): seq<(nat, Action)> {
    [(0, Other(Enqueue(limit + 1)))] + (Parking(0, limit) + (Parking(1, limit) + Waking(limit)))
  }

  lemma {:induction false} RunOfMore(c: Crowd, a: seq<(nat, Action)>, b: seq<(nat, Action)>)
    requires RunOf(c, a).Some?
    ensures RunOf(c, a + b) == RunOf(RunOf(c, a).value, b)
    decreases |a|
  {
    if a == [] {
      assert a + b == b;
    } else {
      assert (a + b)[0] == a[0] && (a + b)[1..] == a[1..] + b;
      RunOfMore(NextOf(c, a[0].0, a[0].1).value, a[1..], b);
    }
  }

  lemma {:induction false} Oversleeps(pcs: seq<Pc>, limit: nat)
    requires |pcs| >= 2 && pcs[0] == Idle && pcs[1] == Idle
    ensures RunOf(Crowd(Flow(0, 0, false, 0), pcs), Overslept(limit)) ==
              Some(Crowd(Flow(0, limit, false, 0), pcs[1 := Parked(limit)]))
  {
    var c := Crowd(Flow(0, 0, false, 0), pcs);
    var c1 := Crowd(Flow(limit + 1, 0, false, 0), pcs);
    var c2 := Crowd(Flow(limit + 1, limit, false, 0), pcs[0 := Parked(limit)]);
    var c3 := Crowd(Flow(limit + 1, limit, false, 0), pcs[0 := Parked(limit)][1 := Parked(limit)]);
    var first := [(0, Other(Enqueue(limit + 1)))];
    assert RunOf(c, first) == Some(c1) by { assert pcs[0 := pcs[0]] == pcs && first[1..] == []; }
    RunOfMore(c, first, Parking(0, limit) + (Parking(1, limit) + Waking(limit)));
    Parks(c1, 0, limit);
    RunOfMore(c1, Parking(0, limit), Parking(1, limit) + Waking(limit));
    Parks(c2, 1, limit);
    RunOfMore(c2, Parking(1, limit), Waking(limit));
    Wakes(c3, limit);
    assert c3.pcs[0 := Idle] == pcs[1 := Parked(limit)];
  }

  lemma {:induction false} Parks(c: Crowd, who: nat, limit: nat)
    requires who < |c.pcs| && c.pcs[who] == Idle && c.flow.amount > limit
    ensures RunOf(c, Parking(who, limit)) ==
              Some(Crowd(c.flow.(threshold := limit), c.pcs[who := Parked(limit)]))
  {
    var p, q := c.pcs[who := Setting(limit)], c.pcs[who := Reading(limit)];
    assert p[who := Reading(limit)] == q && q[who := Parked(limit)] == c.pcs[who := Parked(limit)];
    var f := c.flow.(threshold := limit);
    assert RunOf(Crowd(f, q), [(who, ReadAgain)]) == Some(Crowd(f, c.pcs[who := Parked(limit)]));
    assert RunOf(Crowd(c.flow, p), [(who, SetThreshold), (who, ReadAgain)]) ==
        Some(Crowd(f, c.pcs[who := Parked(limit)]));
  }

  lemma {:induction false} Wakes(c: Crowd, limit: nat)
    requires |c.pcs| >= 1 && c.pcs[0] == Parked(limit) && c.flow == Flow(limit + 1, limit, false, 0)
    ensures RunOf(c, Waking(limit)) ==
              Some(Crowd(Flow(0, limit, false, 0), c.pcs[0 := Idle]))
  {
    var p := c.pcs[0 := Rechecking(limit)];
    assert c.pcs[0 := c.pcs[0]] == c.pcs && p[0 := Idle] == c.pcs[0 := Idle];
    assert RunOf(Crowd(Flow(0, limit, false, 0), p), [(0, Recheck)]) ==
        Some(Crowd(Flow(0, limit, false, 0), c.pcs[0 := Idle]));
    assert RunOf(Crowd(Flow(0, limit, true, 0), c.pcs), [(0, Take), (0, Recheck)]) ==
           Some(Crowd(Flow(0, limit, false, 0), c.pcs[0 := Idle]));
    assert RunOf(Crowd(Flow(0, limit, false, 1), c.pcs), [(0, Other(Callback)), (0, Take), (0, Recheck)]) ==
           Some(Crowd(Flow(0, limit, false, 0), c.pcs[0 := Idle]));
  }

  /** The guarantee is for a single waiter, which is what the program has: with two or more, and
      for every limit, there is a run from idle at whose end one is parked below its limit with
      nothing to wake it. */
  lemma {:induction false} SecondWaiterSleeps(c: Crowd, limit: nat) returns (end: Crowd)
    requires |c.pcs| >= 2 && AllIdle(c) && c.flow == Flow(0, 0, false, 0)
    ensures RunOf(c, Overslept(limit)) == Some(end) && |end.pcs| == |c.pcs|
    ensures end.pcs[1] == Parked(limit) && !WakeupComing(Sys(end.flow, end.pcs[1]))
  {
    Oversleeps(c.pcs, limit);
    end := RunOf(c, Overslept(limit)).value;
  }

  /** No wakeup is ever lost if and only if there is at most one waiter. */
  lemma {:induction false} OneWaiterIff(n: nat)
    ensures NeverForgets(n) <==> n <= 1
  {
    if n >= 2 {
      var c := Crowd(Flow(0, 0, false, 0), seq(n, i => Idle));
      var end := SecondWaiterSleeps(c, 0);
      assert !NobodyForgotten(end);
    } else {
      forall c: Crowd, actions | |c.pcs| == n && AllIdle(c) && RunOf(c, actions).Some?
        ensures NobodyForgotten(RunOf(c, actions).value)
      {
        SmallCrowd(c, actions);
      }
    }
  }

  lemma {:induction false} SmallCrowd(c: Crowd, actions: seq<(nat, Action)>)
    requires |c.pcs| <= 1 && AllIdle(c) && RunOf(c, actions).Some?
    ensures NobodyForgotten(RunOf(c, actions).value)
  {
    if |c.pcs| == 1 {
      CrowdOfOne(c, actions);
      NoLostWakeup(c.flow, Alone(actions));
    }
  }

  // ------------------------------------------------------------- the wait loop

  /** What happens around one pass of the select loop: what others do before and after a
      token is taken, and whether the timer fires or the peer closes first. */
  datatype Pass = Pass(before: seq<Env>, after: seq<Env>, expired: bool)

  class DataChannel {
    var amount: nat
    var threshold: nat
    var low: bool
    var pending: nat

    function State(): Flow
      reads this
    {
      Flow(amount, threshold, low, pending)
    }

    /** Others run: each of `moves` that is possible happens. */
    method Others(moves: seq<Env>, pc: Pc, ghost start: Sys, sofar: seq<Action>) returns (trace: seq<Action>)
      requires Run(start, sofar) == Some(Sys(State(), pc))
      modifies this
      ensures Run(start, trace) == Some(Sys(State(), pc))
      ensures threshold == old(threshold)
    {
      trace := sofar;
      for i := 0 to |moves|
        invariant Run(start, trace) == Some(Sys(State(), pc)) && threshold == old(threshold)
      {
        var possible := Move(State(), moves[i]).Some?;
        if possible {
          RunSnoc(start, trace, Other(moves[i]));
          match moves[i] {
            case Enqueue(n) => amount := amount + n;
            case Release(n) =>
              if amount > threshold && amount - n <= threshold {
                pending := pending + 1;
              }
              amount := amount - n;
            case Callback =>
              pending := pending - 1;
              low := true;
          }
          trace := trace + [Other(moves[i])];
        }
      }
    }

    /** The select loop, entered parked. */
    method Park(limit: nat, passes: seq<Pass>, ghost start: Sys, sofar: seq<Action>)
      returns (err: bool, trace: seq<Action>, used: nat)
      requires Run(start, sofar) == Some(Sys(State(), Parked(limit)))
      modifies this
      ensures Run(start, trace) == Some(Sys(State(), Idle))
      ensures !err ==> amount <= limit
      ensures trace != [] && (err <==> trace[|trace| - 1] == GiveUp)
      ensures used <= |passes| && (err ==> used == |passes| || passes[used].expired)
      ensures forall i | 0 <= i < used :: !passes[i].expired
    {
      trace := sofar;
      for i := 0 to |passes|
        invariant Run(start, trace) == Some(Sys(State(), Parked(limit)))
        invariant forall k | 0 <= k < i :: !passes[k].expired
      {
        trace := Others(passes[i].before, Parked(limit), start, trace);
        if passes[i].expired {
          RunSnoc(start, trace, GiveUp);
          return true, trace + [GiveUp], i;
        }
        if low {
          RunSnoc(start, trace, Take);
          low := false;
          trace := trace + [Take];
          trace := Others(passes[i].after, Rechecking(limit), start, trace);
          RunSnoc(start, trace, Recheck);
          trace := trace + [Recheck];
          if amount <= limit {
            return false, trace, i;
          }
        }
      }
      RunSnoc(start, trace, GiveUp);
      return true, trace + [GiveUp], |passes|;
    }

    /** WaitBufferBelowWithTimeout. Whatever the others do, the call performs a run of the
        machine above from idle to idle; nil means the queue is at or below the limit, and it
        gives up only when, after `used` passes, the timer fires or the peer closes. */
    method WaitBufferBelow(limit: nat, first: seq<Env>, second: seq<Env>, passes: seq<Pass>)
      returns (err: bool, trace: seq<Action>, used: nat)
      modifies this
      ensures Run(Sys(old(State()), Idle), trace) == Some(Sys(State(), Idle))
      ensures !err ==> amount <= limit
      ensures err <==> trace != [] && trace[|trace| - 1] == GiveUp
      ensures used <= |passes| && (err ==> used == |passes| || passes[used].expired)
      ensures forall i | 0 <= i < used :: !passes[i].expired
    {
      ghost var start := Sys(State(), Idle);
      RunSnoc(start, [], Call(limit));
      trace := [] + [Call(limit)];
      if amount <= limit {
        return false, trace, 0;
      }
      trace := Others(first, Setting(limit), start, trace);
      RunSnoc(start, trace, SetThreshold);
      threshold := limit;
      trace := trace + [SetThreshold];
      trace := Others(second, Reading(limit), start, trace);
      RunSnoc(start, trace, ReadAgain);
      trace := trace + [ReadAgain];
      if amount <= limit {
        return false, trace, 0;
      }
      err, trace, used := Park(limit, passes, start, trace);
    }
  }
}
