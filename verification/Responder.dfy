/** Responding to announcements: bounded by a semaphore, coalesced by a set of keys in flight.
    Each step of a call or of a response is one mutex section or one semaphore operation; other
    calls and responses run in between. */
module Responder {
  import opened Base

  const MAX_CONCURRENT_RESPONSES: nat := 8

  /** Where a call, and the response it may start, stand. */
  datatype Thread =
    | Arriving(key: string)
    | Marked(key: string)
    | Dropping(key: string)
    | Responding(key: string)
    | Releasing(key: string)
    | Unmarking(key: string)
    | Gone

  /** `slots` is the number of tokens in the semaphore; `owner` only records which thread put
      each key into the set. */
  datatype Sys = Sys(slots: nat, inFlight: set<string>, threads: map<nat, Thread>, owner: map<string, nat>)

  datatype Action = Announce(tid: nat, key: string) | Advance(tid: nat)

  function Go(y: Sys, tid: nat, t: Thread): Sys {
    y.(threads := y.threads[tid := t])
  }

  function AdvanceThread(y: Sys, tid: nat): Option<Sys>
    requires tid in y.threads
  {
    match y.threads[tid]
    case Arriving(key) =>
      if key in y.inFlight then Some(Go(y, tid, Gone))
      else Some(Go(y, tid, Marked(key)).(inFlight := y.inFlight + {key}, owner := y.owner[key := tid]))
    case Marked(key) =>
      if y.slots < MAX_CONCURRENT_RESPONSES then Some(Go(y, tid, Responding(key)).(slots := y.slots + 1))
      else Some(Go(y, tid, Dropping(key)))
    case Responding(key) => Some(Go(y, tid, Releasing(key)))
    case Releasing(key) => if y.slots == 0 then None else Some(Go(y, tid, Unmarking(key)).(slots := y.slots - 1))
    case Dropping(key) => Some(Go(y, tid, Gone).(inFlight := y.inFlight - {key}, owner := y.owner - {key}))
    case Unmarking(key) => Some(Go(y, tid, Gone).(inFlight := y.inFlight - {key}, owner := y.owner - {key}))
    case Gone => None
  }

  function Next(y: Sys, a: Action): Option<Sys> {
    match a
    case Announce(tid, key) => if tid in y.threads then None else Some(Go(y, tid, Arriving(key)))
    case Advance(tid) => if tid !in y.threads then None else AdvanceThread(y, tid)
  }

  function Run(y: Sys, actions: seq<Action>): Option<Sys>
    decreases |actions|
  {
    if actions == [] then Some(y)
    else
      var y1 := Next(y, actions[0]);
      if y1.None? then None else Run(y1.value, actions[1..])
  }

  const START := Sys(0, {}, map[], map[])

  // ---------------------------------------------------------------- invariants

  /** The response is running: it has a slot of the semaphore. */
  predicate Running(t: Thread) {
    t.Responding? || t.Releasing?
  }

  /** The thread has put its key into the set and not taken it out yet. */
  predicate Marks(t: Thread) {
    t.Marked? || t.Dropping? || Running(t) || t.Unmarking?
  }

  function RunningIn(threads: map<nat, Thread>): set<nat> {
    set t | t in threads && Running(threads[t])
  }

  ghost predicate SlotsOk(y: Sys) {
    y.slots == |RunningIn(y.threads)| && y.slots <= MAX_CONCURRENT_RESPONSES
  }

  ghost predicate KeysOk(y: Sys) {
    && y.owner.Keys == y.inFlight
    && (forall t | t in y.threads && Marks(y.threads[t]) ::
          y.threads[t].key in y.owner && y.owner[y.threads[t].key] == t)
    && (forall k | k in y.owner ::
          y.owner[k] in y.threads && Marks(y.threads[y.owner[k]]) && y.threads[y.owner[k]].key == k)
  }

  lemma {:induction false} RunningAfter(threads: map<nat, Thread>, tid: nat, t: Thread)
    ensures var was := tid in threads && Running(threads[tid]);
            |RunningIn(threads[tid := t])| ==
                |RunningIn(threads)| + (if Running(t) then 1 else 0) - (if was then 1 else 0)
  {
    var before, after := RunningIn(threads), RunningIn(threads[tid := t]);
    var others := before - {tid};
    forall u ensures u in after <==> u in others || (u == tid && Running(t)) {}
    if Running(t) {
      assert after == others + {tid};
    } else {
      assert after == others;
    }
    if tid in before {
      assert before == others + {tid};
    } else {
      assert before == others;
    }
  }

  lemma {:induction false} StepKeepsSlots(y: Sys, a: Action)
    requires SlotsOk(y) && Next(y, a).Some?
    ensures SlotsOk(Next(y, a).value)
  {
    RunningAfter(y.threads, a.tid, Next(y, a).value.threads[a.tid]);
  }

  lemma {:induction false} StepKeepsKeys(y: Sys, a: Action)
    requires KeysOk(y) && Next(y, a).Some?
    ensures KeysOk(Next(y, a).value)
  {}

  lemma {:induction false} RunKeeps(y: Sys, actions: seq<Action>)
    requires SlotsOk(y) && KeysOk(y) && Run(y, actions).Some?
    ensures SlotsOk(Run(y, actions).value) && KeysOk(Run(y, actions).value)
    decreases |actions|
  {
    if actions != [] {
      StepKeepsSlots(y, actions[0]);
      StepKeepsKeys(y, actions[0]);
      RunKeeps(Next(y, actions[0]).value, actions[1..]);
    }
  }

  /** In every interleaving of announcements and responses: at most eight responses run at once,
      and the semaphore holds exactly one slot for each; no two run for the same key; and the
      set holds exactly the keys of the calls and responses under way, so that once all are gone
      both are empty. */
  lemma {:induction false} BoundedAndCoalesced(actions: seq<Action>)
    requires Run(START, actions).Some?
    ensures var y := Run(START, actions).value;
            && y.slots == |RunningIn(y.threads)| <= 8
            && (forall t, u | t in y.threads && u in y.threads && Running(y.threads[t]) && Running(y.threads[u])
                              && y.threads[t].key == y.threads[u].key :: t == u)
            && (forall k :: k in y.inFlight <==>
                  exists t :: t in y.threads && Marks(y.threads[t]) && y.threads[t].key == k)
            && ((forall t | t in y.threads :: y.threads[t] == Gone) ==> y.slots == 0 && y.inFlight == {})
  {
    assert RunningIn(map[]) == {};
    RunKeeps(START, actions);
    var y := Run(START, actions).value;
    if forall t | t in y.threads :: y.threads[t] == Gone {
      assert RunningIn(y.threads) == {};
      forall k ensures k !in y.inFlight {
        assert k in y.inFlight ==> k in y.owner;
      }
    }
  }

  function StepsLeft(t: Thread): nat {
    match t
    case Arriving(_) => 5
    case Marked(_) => 4
    case Responding(_) => 3
    case Releasing(_) => 2
    case Dropping(_) => 1
    case Unmarking(_) => 1
    case Gone => 0
  }

  /** How many steps a call and its response take in a run. */
  function Turns(actions: seq<Action>, tid: nat): nat {
    if actions == [] then 0 else (if actions[0] == Advance(tid) then 1 else 0) + Turns(actions[1..], tid)
  }

  function StepsLeftIn(threads: map<nat, Thread>, tid: nat): nat {
    if tid in threads then StepsLeft(threads[tid]) else 5
  }

  lemma {:induction false} TurnsAreBounded(y: Sys, actions: seq<Action>, tid: nat)
    requires Run(y, actions).Some?
    ensures Turns(actions, tid) + StepsLeftIn(Run(y, actions).value.threads, tid) <= StepsLeftIn(y.threads, tid)
    decreases |actions|
  {
    if actions != [] {
      TurnsAreBounded(Next(y, actions[0]).value, actions[1..], tid);
    }
  }

  /** Nothing waits: in any run a call with its response takes at most five steps, and until it is
      gone it can take its next one. */
  lemma {:induction false} NothingWaits(actions: seq<Action>, tid: nat)
    requires Run(START, actions).Some?
    ensures Turns(actions, tid) <= 5
    ensures var y := Run(START, actions).value;
            tid in y.threads && y.threads[tid] != Gone ==> Turns(actions, tid) < 5 && Next(y, Advance(tid)).Some?
  {
    TurnsAreBounded(START, actions, tid);
    assert RunningIn(map[]) == {};
    RunKeeps(START, actions);
    var y := Run(START, actions).value;
    assert tid in y.threads && y.threads[tid].Releasing? ==> tid in RunningIn(y.threads);
  }

  // --------------------------------------------------------------- the sections

  /** The fields that calls and responses share, and the sections that update them. */
  class Discoverer {
    var responseSem: nat
    var responsesInFlight: set<string>

    constructor ()
      ensures responseSem == 0 && responsesInFlight == {}
    {
      responseSem := 0;
      responsesInFlight := {};
    }

    /** True if the key was not there yet. */
    method Mark(key: string) returns (first: bool)
      modifies this`responsesInFlight
      ensures first == (key !in old(responsesInFlight)) && responsesInFlight == old(responsesInFlight) + {key}
    {
      if key in responsesInFlight {
        return false;
      }
      responsesInFlight := responsesInFlight + {key};
      return true;
    }

    method Unmark(key: string)
      modifies this`responsesInFlight
      ensures responsesInFlight == old(responsesInFlight) - {key}
    {
      responsesInFlight := responsesInFlight - {key};
    }

    method TryAcquire() returns (acquired: bool)
      modifies this`responseSem
      ensures acquired == (old(responseSem) < MAX_CONCURRENT_RESPONSES)
      ensures responseSem == if acquired then old(responseSem) + 1 else old(responseSem)
    {
      if responseSem >= MAX_CONCURRENT_RESPONSES {
        return false;
      }
      responseSem := responseSem + 1;
      return true;
    }

    method Release()
      requires responseSem > 0
      modifies this`responseSem
      ensures responseSem == old(responseSem) - 1
    {
      responseSem := responseSem - 1;
    }

    /** A call that nothing interrupts, with its response: it performs a run of the machine, ends
        where it began, and responds unless the key is in flight or the semaphore is full. */
    method RespondToAnnouncement(key: string, ghost y: Sys, tid: nat) returns (responded: bool, actions: seq<Action>)
      requires tid !in y.threads
      requires y.slots == responseSem && y.inFlight == responsesInFlight
      modifies this
      ensures responseSem == old(responseSem) && responsesInFlight == old(responsesInFlight)
      ensures responded <==> key !in responsesInFlight && responseSem < MAX_CONCURRENT_RESPONSES
      ensures Run(y, actions).Some? && Run(y, actions).value.threads == y.threads[tid := Gone]
      ensures Run(y, actions).value.slots == responseSem && Run(y, actions).value.inFlight == responsesInFlight
    {
      ghost var before := responsesInFlight;
      RunSnoc(y, [], Announce(tid, key));
      actions := [] + [Announce(tid, key)];
      RunSnoc(y, actions, Advance(tid));
      actions := actions + [Advance(tid)];
      var first := Mark(key);
      if !first {
        return false, actions;
      }
      RunSnoc(y, actions, Advance(tid));
      actions := actions + [Advance(tid)];
      responded := TryAcquire();
      if responded {
        RunSnoc(y, actions, Advance(tid));
        RunSnoc(y, actions + [Advance(tid)], Advance(tid));
        actions := actions + [Advance(tid)] + [Advance(tid)];
        Release();
      }
      RunSnoc(y, actions, Advance(tid));
      actions := actions + [Advance(tid)];
      Unmark(key);
      assert before + {key} - {key} == before;
    }
  }

  lemma {:induction false} RunSnoc(y: Sys, actions: seq<Action>, a: Action)
    requires Run(y, actions).Some?
    ensures Run(y, actions + [a]) == Next(Run(y, actions).value, a)
    decreases |actions|
  {
    if actions == [] {
      assert [] + [a] == [a] && [a][1..] == [];
    } else {
      assert (actions + [a])[0] == actions[0] && (actions + [a])[1..] == actions[1..] + [a];
      RunSnoc(Next(y, actions[0]).value, actions[1..], a);
    }
  }
}
