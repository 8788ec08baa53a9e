/** The pool of relayer slots shared by concurrent workers, as a step system over all interleavings
    (`relayer_session.rs` and the worker count of `lazer_publisher.rs`). Times are in milliseconds. */
module Relayer {
  import opened Outcomes
  import opened Sets

  const INITIAL_BACKOFF := 100
  const STABLE_CONNECTION := 30_000

  /** A relayer: permits available (a semaphore of one) and the earliest instant it may be tried again. */
  datatype Slot = Slot(available: nat, readyAt: nat)

  /** Where a worker is in its loop. */
  datatype Phase =
    | Idle
    | Scanning(next: nat, best: Option<(nat, nat)>)
    | Reading(slot: nat, best: Option<(nat, nat)>)
    | Acquiring(slot: nat)
    | Sleeping(until: nat)
    | Holding(slot: nat)
    | Waiting(slot: nat, until: nat)
    | Connected(slot: nat)
    | Releasing(slot: nat)
  {
    /** The worker holds the permit of slot `k`. */
    predicate Holds(k: nat) {
      (Holding? || Waiting? || Connected? || Releasing?) && slot == k
    }

    predicate HoldsAny() {
      Holding? || Waiting? || Connected? || Releasing?
    }
  }

  datatype ConnectionOutcome = ConnectFailed | Disconnected(uptime: nat)

  /** What happened to a slot: a connection attempt, or how one ended with the backoff then drawn. */
  datatype Event =
    | Attempt(slot: nat, at: nat)
    | Outcome(slot: nat, outcome: ConnectionOutcome, backoff: nat, at: nat)

  datatype Pool = Pool(slots: seq<Slot>, workers: seq<Phase>, now: nat, log: seq<Event>)

  /** Time passes, or a worker takes its next atomic step. `outcome` and `backoff` are what its connection and the
      backoff policy report when the step needs them. */
  datatype Action = Tick(elapsed: nat) | Step(worker: nat, outcome: ConnectionOutcome, backoff: nat)

  /** `record_outcome`: the next deadline of a slot. */
  function Deadline(now: nat, outcome: ConnectionOutcome, backoff: nat): nat {
    if outcome.Disconnected? && outcome.uptime >= STABLE_CONNECTION then now else now + backoff
  }

  /** The better of the best slot so far and slot `i`: strictly earlier deadlines win. */
  function Better(best: Option<(nat, nat)>, i: nat, readyAt: nat): Option<(nat, nat)> {
    if best.None? || readyAt < best.value.1 then Some((i, readyAt)) else best
  }

  function At(p: Pool, w: nat, phase: Phase): Pool
    requires w < |p.workers|
  {
    p.(workers := p.workers[w := phase])
  }

  function Start(p: Pool, w: nat, k: nat): Pool
    requires w < |p.workers|
  {
    At(p, w, Connected(k)).(log := p.log + [Attempt(k, p.now)])
  }

  /** One atomic step of worker `w`: the loop of `run` and of `reserve_slot`, cut at every shared access. */
  function StepOf(p: Pool, w: nat, outcome: ConnectionOutcome, backoff: nat): Pool
    requires w < |p.workers|
  {
    match p.workers[w]
    case Idle => At(p, w, Scanning(0, None))
    case Scanning(i, best) =>
      if i >= |p.slots| then
        At(p, w, if best.None? then Sleeping(p.now + INITIAL_BACKOFF) else Acquiring(best.value.0))
      else if p.slots[i].available == 0 then At(p, w, Scanning(i + 1, best))
      else At(p, w, Reading(i, best))
    case Reading(i, best) =>
      if i >= |p.slots| then p else At(p, w, Scanning(i + 1, Better(best, i, p.slots[i].readyAt)))
    case Acquiring(k) =>
      if k >= |p.slots| then p
      else if p.slots[k].available == 0 then At(p, w, Scanning(0, None))
      else At(p, w, Holding(k)).(slots := p.slots[k := p.slots[k].(available := p.slots[k].available - 1)])
    case Sleeping(until) => if p.now < until then p else At(p, w, Idle)
    case Holding(k) =>
      if k >= |p.slots| then p
      else if p.slots[k].readyAt <= p.now then Start(p, w, k)
      else At(p, w, Waiting(k, p.slots[k].readyAt))
    case Waiting(k, until) => if p.now < until then p else Start(p, w, k)
    case Connected(k) =>
      if k >= |p.slots| then p
      else
        var d := Deadline(p.now, outcome, backoff);
        At(p, w, Releasing(k)).(slots := p.slots[k := p.slots[k].(readyAt := d)],
                                log := p.log + [Outcome(k, outcome, backoff, p.now)])
    case Releasing(k) =>
      if k >= |p.slots| then p
      else At(p, w, Idle).(slots := p.slots[k := p.slots[k].(available := p.slots[k].available + 1)])
  }

  function Next(p: Pool, a: Action): Pool {
    match a
    case Tick(elapsed) => p.(now := p.now + elapsed)
    case Step(w, outcome, backoff) => if w < |p.workers| then StepOf(p, w, outcome, backoff) else p
  }

  function Run(p: Pool, actions: seq<Action>): Pool {
    if actions == [] then p else Next(Run(p, actions[..|actions| - 1]), actions[|actions| - 1])
  }

  /** A fresh pool: every permit free, every worker at the top of its loop, nothing attempted yet. */
  ghost predicate Fresh(p: Pool) {
    && (forall k :: 0 <= k < |p.slots| ==> p.slots[k].available == 1)
    && (forall w :: 0 <= w < |p.workers| ==> p.workers[w] == Idle)
    && p.log == []
  }

  // ----- Invariant -----

  ghost predicate Held(workers: seq<Phase>, k: nat) {
    exists w :: 0 <= w < |workers| && workers[w].Holds(k)
  }

  /** When a slot may be tried again after an outcome: at once if the connection had been up for thirty seconds, after
      the backoff if it had not or was never made. */
  ghost function Due(e: Event): nat
    requires e.Outcome?
  {
    match e.outcome
    case ConnectFailed => e.at + e.backoff
    case Disconnected(uptime) => if uptime < 30_000 then e.at + e.backoff else e.at
  }

  /** When the last finished attempt on a slot allows the next. */
  ghost function LastDeadline(log: seq<Event>, k: nat): Option<nat> {
    if log == [] then None
    else
      var e := log[|log| - 1];
      if e.Outcome? && e.slot == k then Some(Due(e)) else LastDeadline(log[..|log| - 1], k)
  }

  /** No attempt in the log started before the deadline its predecessor on the slot had recorded. */
  ghost predicate Respectful(log: seq<Event>) {
    forall i :: 0 <= i < |log| && log[i].Attempt? ==>
      var d := LastDeadline(log[..i], log[i].slot); d.Some? ==> d.value <= log[i].at
  }

  ghost predicate PhaseInv(p: Pool, w: nat)
    requires w < |p.workers|
  {
    match p.workers[w]
    case Idle => true
    case Sleeping(_) => true
    case Scanning(i, best) => i <= |p.slots| && (best.Some? ==> best.value.0 < |p.slots|)
    case Reading(i, best) => i < |p.slots| && (best.Some? ==> best.value.0 < |p.slots|)
    case Waiting(k, until) => k < |p.slots| && until == p.slots[k].readyAt
    case phase => phase.slot < |p.slots|
  }

  ghost predicate Phases(p: Pool) {
    forall w: nat :: w < |p.workers| ==> PhaseInv(p, w)
  }

  /** No slot is held twice. */
  ghost predicate Exclusive(p: Pool) {
    forall v: nat, w: nat, k: nat :: v < w < |p.workers| ==> !(p.workers[v].Holds(k) && p.workers[w].Holds(k))
  }

  /** A permit is out exactly while some worker holds the slot. */
  ghost predicate Permits(p: Pool) {
    forall k: nat :: k < |p.slots| ==> p.slots[k].available == if Held(p.workers, k) then 0 else 1
  }

  /** Each slot's deadline is the one its last finished attempt recorded. */
  ghost predicate Deadlines(p: Pool) {
    forall k: nat :: k < |p.slots| ==> LastDeadline(p.log, k) in {None, Some(p.slots[k].readyAt)}
  }

  ghost predicate PoolInv(p: Pool) {
    Phases(p) && Exclusive(p) && Permits(p) && Deadlines(p) && Respectful(p.log)
  }

  lemma FreshInv(p: Pool)
    requires Fresh(p)
    ensures PoolInv(p)
  {
  }

  lemma {:induction false} LogGrows(log: seq<Event>, e: Event, k: nat)
    ensures LastDeadline(log + [e], k) == if e.Outcome? && e.slot == k then Some(Due(e)) else LastDeadline(log, k)
  {
    assert (log + [e])[..|log|] == log;
  }

  lemma {:induction false} RespectfulGrows(log: seq<Event>, e: Event)
    requires Respectful(log)
    requires e.Attempt? ==> var d := LastDeadline(log, e.slot); d.Some? ==> d.value <= e.at
    ensures Respectful(log + [e])
  {
    var more := log + [e];
    forall i | 0 <= i < |more| && more[i].Attempt?
      ensures var d := LastDeadline(more[..i], more[i].slot); d.Some? ==> d.value <= more[i].at
    {
      assert more[..i] == if i < |log| then log[..i] else log;
    }
  }

  /** Moving one worker changes who holds a slot only as that worker's phase says. */
  lemma HeldAfter(workers: seq<Phase>, w: nat, phase: Phase, k: nat)
    requires w < |workers|
    requires forall v: nat :: v < |workers| && v != w ==> !(workers[v].Holds(k) && workers[w].Holds(k))
    ensures phase.Holds(k) == workers[w].Holds(k) ==> Held(workers[w := phase], k) == Held(workers, k)
    ensures phase.Holds(k) ==> Held(workers[w := phase], k)
    ensures workers[w].Holds(k) ==> Held(workers[w := phase], k) == phase.Holds(k)
  {
    var after := workers[w := phase];
    if phase.Holds(k) {
      assert after[w].Holds(k);
    }
    if v :| 0 <= v < |workers| && v != w && workers[v].Holds(k) {
      assert after[v].Holds(k);
    }
  }

  /** The phase a worker steps into is well-formed. */
  lemma StepOwnPhase(p: Pool, w: nat, outcome: ConnectionOutcome, backoff: nat)
    requires w < |p.workers| && PhaseInv(p, w)
    ensures var q := StepOf(p, w, outcome, backoff);
            |q.workers| == |p.workers| && |q.slots| == |p.slots| && PhaseInv(q, w)
  {
  }

  /** So is the phase of a worker that does not move: only the holder of its slot could change the deadline it waits
      for. */
  lemma StepOtherPhase(p: Pool, w: nat, v: nat, outcome: ConnectionOutcome, backoff: nat)
    requires w < |p.workers| && v < |p.workers| && v != w && PhaseInv(p, v) && Exclusive(p)
    ensures var q := StepOf(p, w, outcome, backoff);
            |q.workers| == |p.workers| && q.workers[v] == p.workers[v] && PhaseInv(q, v)
  {
    if p.workers[w].Connected? {
      var k := p.workers[w].slot;
      assert p.workers[w].Holds(k) && !p.workers[v].Holds(k);
    }
  }

  lemma StepKeepsPhases(p: Pool, a: Action)
    requires PoolInv(p)
    ensures Phases(Next(p, a))
  {
    var q := Next(p, a);
    forall v: nat | v < |q.workers|
      ensures PhaseInv(q, v)
    {
      if a.Step? && a.worker < |p.workers| {
        assert PhaseInv(p, a.worker);
        StepOwnPhase(p, a.worker, a.outcome, a.backoff);
        if v != a.worker {
          assert PhaseInv(p, v);
          StepOtherPhase(p, a.worker, v, a.outcome, a.backoff);
        }
      } else {
        assert PhaseInv(p, v);
      }
    }
  }

  lemma StepKeepsExclusive(p: Pool, a: Action)
    requires PoolInv(p)
    ensures Exclusive(Next(p, a))
  {
    if a.Step? && a.worker < |p.workers| && p.workers[a.worker].Acquiring? {
      var k := p.workers[a.worker].slot;
      assert PhaseInv(p, a.worker);
      if p.slots[k].available > 0 {
        assert !Held(p.workers, k);
      }
    }
  }

  lemma StepKeepsPermits(p: Pool, a: Action)
    requires PoolInv(p)
    ensures Permits(Next(p, a))
  {
    var q := Next(p, a);
    if a.Step? && a.worker < |p.workers| {
      var w := a.worker;
      assert PhaseInv(p, w);
      assert q.workers == p.workers[w := q.workers[w]];
      forall k: nat | k < |q.slots|
        ensures q.slots[k].available == if Held(q.workers, k) then 0 else 1
      {
        HeldAfter(p.workers, w, q.workers[w], k);
      }
    }
  }

  lemma StepKeepsDeadlines(p: Pool, a: Action)
    requires PoolInv(p)
    ensures Deadlines(Next(p, a)) && Respectful(Next(p, a).log)
  {
    var q := Next(p, a);
    if q.log != p.log {
      assert PhaseInv(p, a.worker);
      var e := q.log[|p.log|];
      assert q.log == p.log + [e];
      forall k: nat | k < |q.slots|
        ensures LastDeadline(q.log, k) in {None, Some(q.slots[k].readyAt)}
      {
        LogGrows(p.log, e, k);
      }
      RespectfulGrows(p.log, e);
    }
  }

  /** Every step of every worker keeps the invariant. */
  lemma StepKeepsPool(p: Pool, a: Action)
    requires PoolInv(p)
    ensures PoolInv(Next(p, a))
  {
    StepKeepsPhases(p, a);
    StepKeepsExclusive(p, a);
    StepKeepsPermits(p, a);
    StepKeepsDeadlines(p, a);
  }

  /** The pool over all interleavings: from a fresh pool, whatever the workers, connections and clock do, no slot has
      two holders, its permit is out exactly while it is held, and no attempt on it starts before the deadline the
      attempt before it recorded. */
  lemma {:induction false} RunKeepsPool(p: Pool, actions: seq<Action>)
    requires Fresh(p)
    ensures PoolInv(Run(p, actions))
  {
    if actions == [] {
      FreshInv(p);
    } else {
      var n := |actions| - 1;
      RunKeepsPool(p, actions[..n]);
      StepKeepsPool(Run(p, actions[..n]), actions[n]);
    }
  }

  lemma {:induction false} LastDeadlineIs(log: seq<Event>, k: nat, i: nat)
    requires i < |log| && log[i].Outcome? && log[i].slot == k
    requires forall m :: i < m < |log| ==> !(log[m].Outcome? && log[m].slot == k)
    ensures LastDeadline(log, k) == Some(Due(log[i]))
  {
    if i < |log| - 1 {
      LastDeadlineIs(log[..|log| - 1], k, i);
    }
  }

  /** Backoff over all interleavings: whenever an attempt on a slot ended at event `i` of a run's log and the next one
      began at event `j`, it began no earlier; and later by at least the backoff if the connection was never made or was
      up for less than thirty seconds. */
  lemma {:induction false} BackoffIsKept(p: Pool, actions: seq<Action>, i: nat, j: nat)
    requires Fresh(p) && i < j < |Run(p, actions).log|
    requires var log := Run(p, actions).log;
             && log[i].Outcome? && log[j].Attempt? && log[i].slot == log[j].slot
             && forall m :: i < m < j ==> !(log[m].Outcome? && log[m].slot == log[i].slot)
    ensures var ended, next := Run(p, actions).log[i], Run(p, actions).log[j];
            && ended.at <= next.at
            && (ended.outcome.ConnectFailed? || ended.outcome.uptime < 30_000 ==> ended.at + ended.backoff <= next.at)
  {
    RunKeepsPool(p, actions);
    var log := Run(p, actions).log;
    LastDeadlineIs(log[..j], log[i].slot, i);
  }

  /** The deadline a slot carries is the one its last outcome calls for: the instant itself after a connection of thirty
      seconds or more, the backoff later after any other. */
  lemma {:induction false} DeadlineIsRecorded(p: Pool, actions: seq<Action>, k: nat, i: nat)
    requires Fresh(p) && k < |Run(p, actions).slots| && i < |Run(p, actions).log|
    requires var log := Run(p, actions).log;
             && log[i].Outcome? && log[i].slot == k
             && forall m :: i < m < |log| ==> !(log[m].Outcome? && log[m].slot == k)
    ensures var ended, readyAt := Run(p, actions).log[i], Run(p, actions).slots[k].readyAt;
            && (ended.outcome.Disconnected? && ended.outcome.uptime >= 30_000 ==> readyAt == ended.at)
            && (ended.outcome.ConnectFailed? || ended.outcome.uptime < 30_000 ==> readyAt == ended.at + ended.backoff)
  {
    RunKeepsPool(p, actions);
    LastDeadlineIs(Run(p, actions).log, k, i);
  }

  /** In every reachable state, a worker that holds a slot but has no connection yet starts its attempt at its next step
      if and only if the slot's deadline has come; before that it keeps the slot and waits. */
  lemma {:induction false} StartsWhenDue(p: Pool, actions: seq<Action>, w: nat, outcome: ConnectionOutcome,
                                         backoff: nat)
    requires Fresh(p) && w < |Run(p, actions).workers|
    requires Run(p, actions).workers[w].Holding? || Run(p, actions).workers[w].Waiting?
    ensures var q := Run(p, actions);
            var k, r := q.workers[w].slot, Next(q, Step(w, outcome, backoff));
            && k < |q.slots| && |r.workers| == |q.workers|
            && (q.slots[k].readyAt <= q.now ==> r.workers[w] == Connected(k) && r.log == q.log + [Attempt(k, q.now)])
            && (q.now < q.slots[k].readyAt ==> r.workers[w] == Waiting(k, q.slots[k].readyAt) && r.log == q.log)
  {
    RunKeepsPool(p, actions);
    assert PhaseInv(Run(p, actions), w);
  }

  /** A scan that found every slot taken is not repeated for a tenth of a second. */
  lemma EmptyScanWaits(p: Pool, w: nat, elapsed: nat, outcome: ConnectionOutcome, backoff: nat)
    requires w < |p.workers| && p.workers[w] == Scanning(|p.slots|, None)
    ensures var asleep := Next(Next(p, Step(w, outcome, backoff)), Tick(elapsed));
            var q := Next(asleep, Step(w, outcome, backoff));
            |q.workers| == |p.workers| && q.workers[w] == if elapsed < 100 then asleep.workers[w] else Idle
  {
  }

  /** The log is complete: a step adds an attempt exactly when its worker becomes connected, an outcome exactly when it
      stops being connected, and nothing otherwise. */
  lemma LogIsComplete(p: Pool, w: nat, outcome: ConnectionOutcome, backoff: nat)
    requires w < |p.workers|
    ensures var q := Next(p, Step(w, outcome, backoff));
            && |q.workers| == |p.workers|
            && q.log == p.log +
               if !p.workers[w].Connected? && q.workers[w].Connected? then [Attempt(q.workers[w].slot, p.now)]
               else if p.workers[w].Connected? && !q.workers[w].Connected?
               then [Outcome(p.workers[w].slot, outcome, backoff, p.now)]
               else []
  {
    assert p.log + [] == p.log;
  }

  /** A worker that is connected takes one step when its connection ends: the outcome is logged as it was, its slot gets
      its deadline, and no other slot or worker changes. */
  lemma ConnectionEnds(p: Pool, w: nat, outcome: ConnectionOutcome, backoff: nat)
    requires w < |p.workers| && p.workers[w].Connected? && p.workers[w].slot < |p.slots|
    ensures var k, q := p.workers[w].slot, Next(p, Step(w, outcome, backoff));
            && q.log == p.log + [Outcome(k, outcome, backoff, p.now)]
            && q.workers == p.workers[w := Releasing(k)]
            && q.slots == p.slots[k := Slot(p.slots[k].available, Due(Outcome(k, outcome, backoff, p.now)))]
            && q.now == p.now
  {
  }

  /** Only the worker that holds a slot changes its deadline, when its connection ends, to what is due then. */
  lemma OnlyHolderSetsDeadline(p: Pool, a: Action, k: nat)
    requires k < |p.slots|
    ensures |Next(p, a).slots| == |p.slots|
    ensures Next(p, a).slots[k].readyAt != p.slots[k].readyAt ==>
            && a.Step? && a.worker < |p.workers| && p.workers[a.worker].Holds(k)
            && p.workers[a.worker] == Connected(k)
            && Next(p, a).slots[k].readyAt == Due(Outcome(k, a.outcome, a.backoff, p.now))
  {
  }

  // ----- Choosing a slot -----

  /** The best slot among those from `i` on, given the best so far, if nothing changes meanwhile. */
  function BestFrom(slots: seq<Slot>, i: nat, best: Option<(nat, nat)>): Option<(nat, nat)>
    requires i <= |slots|
    decreases |slots| - i
  {
    if i == |slots| then best
    else BestFrom(slots, i + 1, if slots[i].available == 0 then best else Better(best, i, slots[i].readyAt))
  }

  /** `best` is a free slot with the earliest deadline among the first `n`, and the first such; or none is free. */
  ghost predicate Earliest(slots: seq<Slot>, n: nat, best: Option<(nat, nat)>)
    requires n <= |slots|
  {
    match best
    case None => forall k :: 0 <= k < n ==> slots[k].available == 0
    case Some((i, t)) =>
      && i < n && slots[i].available > 0 && slots[i].readyAt == t
      && (forall k :: 0 <= k < n && slots[k].available > 0 ==> t <= slots[k].readyAt)
      && (forall k :: 0 <= k < i && slots[k].available > 0 ==> t < slots[k].readyAt)
  }

  /** The scan of `reserve_slot`, taken as one instant. */
  method Scan(slots: seq<Slot>) returns (best: Option<(nat, nat)>)
    ensures Earliest(slots, |slots|, best)
    ensures best == BestFrom(slots, 0, None)
  {
    best := None;
    var i := 0;
    while i < |slots|
      invariant 0 <= i <= |slots|
      invariant Earliest(slots, i, best)
      invariant BestFrom(slots, 0, None) == BestFrom(slots, i, best)
    {
      if slots[i].available != 0 {
        var readyAt := slots[i].readyAt;
        if best.None? || readyAt < best.value.1 {
          best := Some((i, readyAt));
        }
      }
      i := i + 1;
    }
  }

  lemma {:induction false} BestIsEarliest(slots: seq<Slot>, i: nat, best: Option<(nat, nat)>)
    requires i <= |slots| && Earliest(slots, i, best)
    ensures Earliest(slots, |slots|, BestFrom(slots, i, best))
    decreases |slots| - i
  {
    if i < |slots| {
      BestIsEarliest(slots, i + 1, if slots[i].available == 0 then best else Better(best, i, slots[i].readyAt));
    }
  }

  /** Worker `w` takes `n` steps with nobody else moving. */
  function Alone(p: Pool, w: nat, n: nat): Pool
    requires w < |p.workers|
    ensures |Alone(p, w, n).workers| == |p.workers|
    decreases n
  {
    if n == 0 then p else Alone(StepOf(p, w, ConnectFailed, 0), w, n - 1)
  }

  lemma {:induction false} AloneAgain(p: Pool, w: nat, m: nat, n: nat)
    requires w < |p.workers|
    ensures Alone(p, w, m + n) == Alone(Alone(p, w, m), w, n)
    decreases m
  {
    if m > 0 {
      AloneAgain(StepOf(p, w, ConnectFailed, 0), w, m - 1, n);
    }
  }

  /** A scanning worker passes over a held slot in one step and takes note of a free one in two. */
  lemma ScanOver(p: Pool, w: nat, i: nat, best: Option<(nat, nat)>) returns (n: nat)
    requires w < |p.workers| && i < |p.slots| && p.workers[w] == Scanning(i, best)
    ensures Alone(p, w, n) ==
            At(p, w, Scanning(i + 1, if p.slots[i].available == 0 then best else Better(best, i, p.slots[i].readyAt)))
  {
    var q := StepOf(p, w, ConnectFailed, 0);
    if p.slots[i].available == 0 {
      n := 1;
      assert Alone(p, w, 1) == Alone(q, w, 0);
    } else {
      n := 2;
      assert Alone(p, w, 2) == Alone(q, w, 1) == Alone(StepOf(q, w, ConnectFailed, 0), w, 0);
    }
  }

  /** A scan that nobody interrupts ends about to acquire exactly the slot the instantaneous scan points to. */
  lemma {:induction false} UninterruptedScan(p: Pool, w: nat, i: nat, best: Option<(nat, nat)>) returns (n: nat)
    requires w < |p.workers| && i <= |p.slots| && p.workers[w] == Scanning(i, best)
    ensures var b := BestFrom(p.slots, i, best);
            Alone(p, w, n) == At(p, w, if b.None? then Sleeping(p.now + INITIAL_BACKOFF) else Acquiring(b.value.0))
    decreases |p.slots| - i
  {
    if i == |p.slots| {
      n := 1;
      assert Alone(p, w, 1) == Alone(StepOf(p, w, ConnectFailed, 0), w, 0);
    } else {
      var m := ScanOver(p, w, i, best);
      var q := Alone(p, w, m);
      var l := UninterruptedScan(q, w, i + 1, q.workers[w].best);
      n := m + l;
      AloneAgain(p, w, m, l);
    }
  }

  // ----- A free slot for every worker -----

  /** The slots held by some worker. */
  ghost function HeldSlots(workers: seq<Phase>): set<nat> {
    if workers == [] then {}
    else
      var init, last := workers[..|workers| - 1], workers[|workers| - 1];
      HeldSlots(init) + (if last.HoldsAny() then {last.slot} else {})
  }

  lemma {:induction false} HeldSlotsCount(workers: seq<Phase>, w: nat)
    requires w < |workers| && !workers[w].HoldsAny()
    ensures |HeldSlots(workers)| < |workers|
  {
    var n := |workers| - 1;
    if w < n {
      HeldSlotsCount(workers[..n], w);
    } else {
      HeldSlotsBound(workers[..n]);
    }
  }

  lemma {:induction false} HeldSlotsBound(workers: seq<Phase>)
    ensures |HeldSlots(workers)| <= |workers|
  {
    if workers != [] {
      HeldSlotsBound(workers[..|workers| - 1]);
    }
  }

  lemma {:induction false} HeldIsInHeldSlots(workers: seq<Phase>, k: nat)
    requires Held(workers, k)
    ensures k in HeldSlots(workers)
  {
    var n := |workers| - 1;
    if !workers[n].Holds(k) {
      var w :| 0 <= w < |workers| && workers[w].Holds(k);
      assert workers[..n][w].Holds(k);
      HeldIsInHeldSlots(workers[..n], k);
    }
  }

  lemma NextKeepsShape(p: Pool, a: Action)
    ensures |Next(p, a).workers| == |p.workers| && |Next(p, a).slots| == |p.slots|
  {
  }

  lemma {:induction false} RunKeepsShape(p: Pool, actions: seq<Action>)
    ensures |Run(p, actions).workers| == |p.workers| && |Run(p, actions).slots| == |p.slots|
  {
    if actions != [] {
      var n := |actions| - 1;
      RunKeepsShape(p, actions[..n]);
      NextKeepsShape(Run(p, actions[..n]), actions[n]);
    }
  }

  lemma FreeSlotExists(p: Pool, w: nat)
    requires PoolInv(p) && |p.workers| <= |p.slots| && w < |p.workers| && !p.workers[w].HoldsAny()
    ensures exists k :: 0 <= k < |p.slots| && p.slots[k].available > 0
  {
    HeldSlotsCount(p.workers, w);
    if forall k :: 0 <= k < |p.slots| ==> p.slots[k].available == 0 {
      forall k | k in Below(|p.slots|)
        ensures k in HeldSlots(p.workers)
      {
        assert p.slots[k].available == 0;
        HeldIsInHeldSlots(p.workers, k);
      }
      SubsetSize(Below(|p.slots|), HeldSlots(p.workers));
      assert false;
    }
  }

  /** With the clamped worker count, at every moment of every run an uninterrupted scan by a worker that holds nothing
      finds a free slot, and one with the earliest deadline. */
  lemma {:induction false} ScanFindsFreeSlot(p: Pool, requested: Option<nat>, actions: seq<Action>, w: nat)
    requires Fresh(p) && |p.workers| == NumConnections(requested, |p.slots|) && w < |p.workers|
    ensures var q := Run(p, actions);
            && |q.workers| == |p.workers|
            && (!q.workers[w].HoldsAny() ==>
                  var best := BestFrom(q.slots, 0, None);
                  best.Some? && Earliest(q.slots, |q.slots|, best))
  {
    RunKeepsPool(p, actions);
    RunKeepsShape(p, actions);
    var q := Run(p, actions);
    BestIsEarliest(q.slots, 0, None);
    if !q.workers[w].HoldsAny() {
      WorkersFitPool(requested, |p.slots|);
      FreeSlotExists(q, w);
    }
  }

  /** Worker `w` is about to scan from the start: at the top of its loop, done sleeping, or beaten to the slot it
      chose. */
  ghost predicate AboutToScan(p: Pool, w: nat)
    requires w < |p.workers|
  {
    match p.workers[w]
    case Idle => true
    case Sleeping(until) => until <= p.now
    case Scanning(i, best) => i == 0 && best == None
    case Acquiring(k) => k < |p.slots| && p.slots[k].available == 0
    case _ => false
  }

  /** The pool with the permit of slot `k` taken by worker `w`. */
  ghost function Taken(p: Pool, w: nat, k: nat): Pool
    requires w < |p.workers| && k < |p.slots| && p.slots[k].available > 0
  {
    At(p, w, Holding(k)).(slots := p.slots[k := p.slots[k].(available := p.slots[k].available - 1)])
  }

  lemma ScanAndTake(p: Pool, w: nat, best: (nat, nat)) returns (n: nat)
    requires w < |p.workers| && p.workers[w] == Scanning(0, None)
    requires BestFrom(p.slots, 0, None) == Some(best) && best.0 < |p.slots| && p.slots[best.0].available > 0
    ensures Alone(p, w, n) == Taken(p, w, best.0)
  {
    var m := UninterruptedScan(p, w, 0, None);
    var q := Alone(p, w, m);
    assert q.workers[w] == Acquiring(best.0) && q.slots == p.slots;
    n := m + 1;
    AloneAgain(p, w, m, 1);
    assert Alone(q, w, 1) == Alone(StepOf(q, w, ConnectFailed, 0), w, 0);
    assert StepOf(q, w, ConnectFailed, 0) == Taken(p, w, best.0);
  }

  lemma ReachScan(p: Pool, w: nat) returns (n: nat)
    requires w < |p.workers| && AboutToScan(p, w)
    ensures Alone(p, w, n) == At(p, w, Scanning(0, None))
  {
    var q := StepOf(p, w, ConnectFailed, 0);
    if p.workers[w].Scanning? {
      n := 0;
      assert At(p, w, Scanning(0, None)) == p;
    } else if p.workers[w].Sleeping? {
      n := 2;
      assert Alone(p, w, 2) == Alone(q, w, 1) == Alone(StepOf(q, w, ConnectFailed, 0), w, 0);
    } else {
      n := 1;
      assert Alone(p, w, 1) == Alone(q, w, 0);
    }
  }

  /** A worker left alone is served: with the clamped worker count, at every moment of every run, a worker about to
      scan that is then left alone comes to hold the free slot with the earliest deadline, and nothing else changes. */
  lemma {:induction false} LoneWorkerTakesEarliest(p: Pool, requested: Option<nat>, actions: seq<Action>, w: nat)
    returns (n: nat, k: nat)
    requires Fresh(p) && |p.workers| == NumConnections(requested, |p.slots|) && w < |p.workers|
    requires |Run(p, actions).workers| == |p.workers| && AboutToScan(Run(p, actions), w)
    ensures var q := Run(p, actions);
            && k < |q.slots| && Earliest(q.slots, |q.slots|, Some((k, q.slots[k].readyAt)))
            && Alone(q, w, n) == Taken(q, w, k)
  {
    var q := Run(p, actions);
    ScanFindsFreeSlot(p, requested, actions, w);
    var best := BestFrom(q.slots, 0, None).value;
    k := best.0;
    var m := ReachScan(q, w);
    var r := At(q, w, Scanning(0, None));
    var l := ScanAndTake(r, w, best);
    n := m + l;
    AloneAgain(q, w, m, l);
    assert Taken(r, w, k) == Taken(q, w, k);
  }

  // ----- How many workers -----

  /** `resolve_num_connections` */
  function NumConnections(requested: Option<nat>, relayers: nat): nat {
    match requested
    case None => relayers
    case Some(n) =>
      var atMost := if n < relayers then n else relayers;
      var least := if relayers > 0 then 1 else 0;
      if atMost > least then atMost else least
  }

  /** Never more workers than relayers, at least one if there is a relayer, the requested number if it is in range, and
      all relayers if none or more was requested. */
  lemma WorkersFitPool(requested: Option<nat>, relayers: nat)
    ensures NumConnections(requested, relayers) <= relayers
    ensures NumConnections(requested, relayers) == 0 <==> relayers == 0
    ensures requested.Some? && 1 <= requested.value <= relayers ==>
              NumConnections(requested, relayers) == requested.value
    ensures requested == None || requested.value > relayers ==> NumConnections(requested, relayers) == relayers
    ensures requested == Some(0) && relayers > 0 ==> NumConnections(requested, relayers) == 1
  {
  }
}
