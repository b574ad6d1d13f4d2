/**
  Hand-off semaphores (kern/sync/sem.c over kern/sync/wait.c).

  `up` never raises the counter while somebody is queued: it unlinks the first waiter and
  makes it runnable, so the permit travels with the wakeup.  `down` therefore has three
  observable moments: it takes a permit at once, it enqueues the caller and sleeps, or -- later,
  once the caller has been woken -- it returns.  Each of them is one atomic step here, and the
  steps of different processes interleave freely.  The world also contains the other things that
  can wake a process: do_kill and the expiry of a timer.
*/
module Semaphores {
  import opened Lists
  import opened Options

  type ProcId = nat

  /** The names of the semaphores of one monitor; the semaphore-only philosophers use `Mutex` and `Cv(i)`. */
  datatype SemId = Mutex | Next | Cv(i: nat)

  /** proc->wait_state.  All states but WT_KSEM carry the WT_INTERRUPTED bit. */
  datatype WaitState = NotWaiting | WtChild | WtTimer | WtKbd | WtKsem {
    predicate Interruptible() { WtChild? || WtTimer? || WtKbd? }
  }

  /** wait->wakeup_flags: WT_INTERRUPTED as set by wait_init, WT_KSEM as set by `__up`. */
  datatype WakeFlags = FlagInterrupted | FlagKsem

  /** `blockedOn` is the semaphore inside whose `__down` the process is between enqueueing itself and returning. */
  datatype Task = Task(runnable: bool, wait: WaitState, flags: WakeFlags, exiting: bool, blockedOn: Option<SemId>)

  datatype Sem = Sem(value: int, queue: seq<ProcId>)

  datatype World = World(sems: map<SemId, Sem>, tasks: seq<Task>)

  // ---------------------------------------------------------------- operations

  /** wakeup_proc: a process that is already runnable is left alone (the kernel only warns). */
  function WakeupProc(tasks: seq<Task>, p: ProcId): seq<Task>
    requires p < |tasks|
  {
    if tasks[p].runnable then tasks
    else tasks[p := tasks[p].(runnable := true, wait := NotWaiting)]
  }

  /** `__up` with its two branches.  (A queue only ever holds existing processes; see `SemOk`.) */
  function Up(w: World, s: SemId): World
    requires s in w.sems
  {
    var sem := w.sems[s];
    if sem.queue == [] then
      w.(sems := w.sems[s := sem.(value := sem.value + 1)])
    else
      var p := sem.queue[0];
      World(w.sems[s := sem.(queue := sem.queue[1..])],
            if p < |w.tasks| then WakeupProc(w.tasks[p := w.tasks[p].(flags := FlagKsem)], p) else w.tasks)
  }

  predicate TakesPermit(w: World, s: SemId)
    requires s in w.sems
  {
    w.sems[s].value > 0
  }

  /** `__down` up to its first return or its call of schedule(). */
  function DownBegin(w: World, p: ProcId, s: SemId): World
    requires s in w.sems && p < |w.tasks|
  {
    var sem := w.sems[s];
    if TakesPermit(w, s) then
      w.(sems := w.sems[s := sem.(value := sem.value - 1)])
    else
      World(w.sems[s := sem.(queue := sem.queue + [p])],
            w.tasks[p := w.tasks[p].(runnable := false, wait := WtKsem, flags := FlagInterrupted,
              blockedOn := Some(s))])
  }

  function Without(q: seq<ProcId>, p: ProcId): (r: seq<ProcId>)
    ensures p !in r
    ensures p !in q ==> r == q
  {
    if q == [] then [] else if q[0] == p then Without(q[1..], p) else [q[0]] + Without(q[1..], p)
  }

  /** `__down` after schedule() has returned: wait_current_del, then return. */
  function DownEnd(w: World, p: ProcId): World
    requires p < |w.tasks| && w.tasks[p].blockedOn.Some? && w.tasks[p].blockedOn.value in w.sems
  {
    var s := w.tasks[p].blockedOn.value;
    var sem := w.sems[s];
    World(w.sems[s := sem.(queue := Without(sem.queue, p))], w.tasks[p := w.tasks[p].(blockedOn := None)])
  }

  /** do_kill on a process that is not yet marked: set PF_EXITING, wake it if its wait can be interrupted. */
  function Kill(w: World, p: ProcId): World
    requires p < |w.tasks|
  {
    var marked := w.tasks[p := w.tasks[p].(exiting := true)];
    w.(tasks := if w.tasks[p].wait.Interruptible() then WakeupProc(marked, p) else marked)
  }

  /** The sleeping half of do_sleep. */
  function Sleep(w: World, p: ProcId): World
    requires p < |w.tasks|
  {
    w.(tasks := w.tasks[p := w.tasks[p].(runnable := false, wait := WtTimer)])
  }

  /** The wakeup done by run_timer_list for a process sleeping on a timer. */
  function TimerFires(w: World, p: ProcId): World
    requires p < |w.tasks|
  {
    w.(tasks := WakeupProc(w.tasks, p))
  }

  // ---------------------------------------------------------------- the machine

  datatype Event =
    | EvUp(s: SemId)
    | EvDown(p: ProcId, s: SemId)
    | EvResume(p: ProcId)
    | EvKill(p: ProcId)
    | EvSleep(p: ProcId)
    | EvTimer(p: ProcId)

  /** The process can run, or is asleep of its own accord in do_sleep. */
  ghost predicate NotStuck(w: World, p: ProcId) {
    p < |w.tasks| && (w.tasks[p].runnable || w.tasks[p].wait.Interruptible())
  }

  /** When an event can happen: only runnable processes execute, and a process inside `down` can only return from it. */
  ghost predicate Enabled(w: World, e: Event)
  {
    match e
    case EvUp(s) => s in w.sems
    case EvDown(p, s) => s in w.sems && p < |w.tasks| && w.tasks[p].runnable && w.tasks[p].blockedOn.None?
    case EvResume(p) =>
      p < |w.tasks| && w.tasks[p].runnable && w.tasks[p].blockedOn.Some? && w.tasks[p].blockedOn.value in w.sems
    case EvKill(p) => p < |w.tasks|
    case EvSleep(p) => p < |w.tasks| && w.tasks[p].runnable && w.tasks[p].blockedOn.None?
    case EvTimer(p) => p < |w.tasks| && w.tasks[p].wait == WtTimer
  }

  ghost function Apply(w: World, e: Event): World
    requires Enabled(w, e)
  {
    match e
    case EvUp(s) => Up(w, s)
    case EvDown(p, s) => DownBegin(w, p, s)
    case EvResume(p) => DownEnd(w, p)
    case EvKill(p) => Kill(w, p)
    case EvSleep(p) => Sleep(w, p)
    case EvTimer(p) => TimerFires(w, p)
  }

  ghost predicate IsRun(w: World, es: seq<Event>)
    decreases |es|
  {
    es == [] || (Enabled(w, es[0]) && IsRun(Apply(w, es[0]), es[1..]))
  }

  ghost function Run(w: World, es: seq<Event>): World
    requires IsRun(w, es)
    decreases |es|
  {
    if es == [] then w else Run(Apply(w, es[0]), es[1..])
  }

  // ---------------------------------------------------------------- invariant

  /** No permit lies unused while somebody queues, and the queue holds exactly sleepers of this semaphore. */
  ghost predicate SemOk(w: World, s: SemId)
    requires s in w.sems
  {
    var sem := w.sems[s];
    && sem.value >= 0
    && (sem.value > 0 ==> sem.queue == [])
    && Distinct(sem.queue)
    && forall p :: p in sem.queue ==>
      p < |w.tasks| && w.tasks[p].blockedOn == Some(s) && !w.tasks[p].runnable
  }

  /** A process inside `down` is either queued, uninterruptible and asleep, or has been handed a permit by `up`. */
  ghost predicate TaskOk(w: World, p: ProcId)
    requires p < |w.tasks|
  {
    var t := w.tasks[p];
    && (t.runnable <==> t.wait == NotWaiting)
    && (t.blockedOn.None? && !t.runnable ==> t.wait.Interruptible())
    && (t.blockedOn.Some? ==>
      t.blockedOn.value in w.sems &&
      if t.runnable then t.flags == FlagKsem
      else t.wait == WtKsem && p in w.sems[t.blockedOn.value].queue)
  }

  ghost predicate Valid(w: World) {
    && (forall s {:trigger SemOk(w, s)} :: s in w.sems ==> SemOk(w, s))
    && (forall p {:trigger TaskOk(w, p)} :: 0 <= p < |w.tasks| ==> TaskOk(w, p))
  }

  /** Processes to which `up` has handed a permit of `s` and which have not returned from `down` yet. */
  ghost function HandedOff(w: World, s: SemId): set<ProcId> {
    set p | 0 <= p < |w.tasks| && w.tasks[p].runnable && w.tasks[p].blockedOn == Some(s)
  }

  ghost function Permits(w: World, s: SemId): int
    requires s in w.sems
  {
    w.sems[s].value + |HandedOff(w, s)|
  }

  // ---------------------------------------------------------------- every step keeps the invariant

  lemma UpKeeps(w: World, s: SemId)
    requires Valid(w) && s in w.sems
    ensures Valid(Up(w, s)) && Up(w, s).sems.Keys == w.sems.Keys && |Up(w, s).tasks| == |w.tasks|
    ensures w.sems[s].queue == [] ==> HandedOff(Up(w, s), s) == HandedOff(w, s)
    ensures w.sems[s].queue != [] ==>
      HandedOff(Up(w, s), s) == HandedOff(w, s) + {w.sems[s].queue[0]} && w.sems[s].queue[0] !in HandedOff(w, s)
    ensures forall r :: r in w.sems && r != s ==> HandedOff(Up(w, s), r) == HandedOff(w, r)
  {
    assert SemOk(w, s);
    var q := w.sems[s].queue;
    if q != [] {
      assert q[0] in q;
      assert TaskOk(w, q[0]);
    }
    UpKeepsValid(w, s);
  }

  lemma UpKeepsValid(w: World, s: SemId)
    requires Valid(w) && s in w.sems
    ensures Valid(Up(w, s))
  {
    assert SemOk(w, s);
    var w' := Up(w, s);
    var q := w.sems[s].queue;
    if q != [] {
      assert q[0] in q;
      assert TaskOk(w, q[0]);
      assert forall p :: p in q[1..] ==> p in q && p != q[0];
    }
    forall r | r in w'.sems ensures SemOk(w', r) {
      assert SemOk(w, r);
    }
    forall p | 0 <= p < |w'.tasks| ensures TaskOk(w', p) {
      assert TaskOk(w, p);
      assert p in q ==> p == q[0] || p in q[1..];
    }
  }

  lemma DownBeginKeeps(w: World, p: ProcId, s: SemId)
    requires Valid(w) && Enabled(w, EvDown(p, s))
    ensures Valid(DownBegin(w, p, s)) && DownBegin(w, p, s).sems.Keys == w.sems.Keys
    ensures |DownBegin(w, p, s).tasks| == |w.tasks|
    ensures forall r :: r in w.sems ==> HandedOff(DownBegin(w, p, s), r) == HandedOff(w, r)
    ensures var w' := DownBegin(w, p, s);
      if TakesPermit(w, s) then w'.tasks == w.tasks && w'.sems[s].value == w.sems[s].value - 1
      else !w'.tasks[p].runnable && w'.sems[s].queue == w.sems[s].queue + [p]
  {
    var w' := DownBegin(w, p, s);
    assert SemOk(w, s) && TaskOk(w, p);
    assert forall r :: r in w.sems ==> SemOk(w, r);
    assert p !in w.sems[s].queue;
    forall r | r in w'.sems ensures SemOk(w', r) {
      assert SemOk(w, r);
    }
    forall x | 0 <= x < |w'.tasks| ensures TaskOk(w', x) {
      assert TaskOk(w, x);
    }
  }

  lemma DownEndKeeps(w: World, p: ProcId)
    requires Valid(w) && Enabled(w, EvResume(p))
    ensures w.tasks[p].flags == FlagKsem
    ensures Valid(DownEnd(w, p))
    ensures DownEnd(w, p) == w.(tasks := w.tasks[p := w.tasks[p].(blockedOn := None)])
    ensures var s := w.tasks[p].blockedOn.value;
      p in HandedOff(w, s) && HandedOff(DownEnd(w, p), s) == HandedOff(w, s) - {p} &&
      forall r :: r in w.sems && r != s ==> HandedOff(DownEnd(w, p), r) == HandedOff(w, r)
  {
    var s := w.tasks[p].blockedOn.value;
    var w' := DownEnd(w, p);
    assert SemOk(w, s) && TaskOk(w, p);
    assert w'.sems == w.sems;
    forall r | r in w'.sems ensures SemOk(w', r) {
      assert SemOk(w, r);
    }
    forall x | 0 <= x < |w'.tasks| ensures TaskOk(w', x) {
      assert TaskOk(w, x);
    }
  }

  /**
    Kills, sleeps and timers never touch a process inside `down`, nor any semaphore, nor any process but their own.
    A kill marks it and ends a wait that can be interrupted, a sleep stops it, and a timer lets it run again.
  */
  lemma EnvironmentKeeps(w: World, e: Event)
    requires Valid(w) && Enabled(w, e) && (e.EvKill? || e.EvSleep? || e.EvTimer?)
    ensures Valid(Apply(w, e)) && Apply(w, e).sems == w.sems && |Apply(w, e).tasks| == |w.tasks|
    ensures forall p :: 0 <= p < |w.tasks| ==> Apply(w, e).tasks[p].blockedOn == w.tasks[p].blockedOn
    ensures forall p :: 0 <= p < |w.tasks| && p != e.p ==> Apply(w, e).tasks[p] == w.tasks[p]
    ensures var t, t' := w.tasks[e.p], Apply(w, e).tasks[e.p];
      && (t'.exiting <==> t.exiting || e.EvKill?)
      && (t'.runnable <==> if e.EvKill? then t.runnable || t.wait != WtKsem else e.EvTimer?)
    ensures forall r :: r in w.sems ==> HandedOff(Apply(w, e), r) == HandedOff(w, r)
  {
    var w' := Apply(w, e);
    assert TaskOk(w, e.p);
    forall r | r in w'.sems ensures SemOk(w', r) {
      assert SemOk(w, r);
    }
    forall x | 0 <= x < |w'.tasks| ensures TaskOk(w', x) {
      assert TaskOk(w, x);
    }
  }

  /** Every wait that can be interrupted is for a timer, as in a world whose processes only use do_sleep and `down`. */
  ghost predicate Timed(w: World) {
    forall p :: 0 <= p < |w.tasks| ==> w.tasks[p].wait != WtChild && w.tasks[p].wait != WtKbd
  }

  lemma UpKeepsTimed(w: World, s: SemId)
    requires Timed(w) && s in w.sems
    ensures Timed(Up(w, s))
  {
  }

  lemma EnvironmentTimed(w: World, e: Event)
    requires Enabled(w, e) && Timed(w) && (e.EvKill? || e.EvSleep? || e.EvTimer?)
    ensures Timed(Apply(w, e))
  {
  }

  lemma DownKeepsTimed(w: World, p: ProcId, s: SemId)
    requires Timed(w) && s in w.sems && p < |w.tasks|
    ensures Timed(DownBegin(w, p, s))
    ensures w.tasks[p].blockedOn == Some(s) ==> Timed(DownEnd(w, p))
  {
  }

  lemma StepKeepsValid(w: World, e: Event)
    requires Valid(w) && Enabled(w, e)
    ensures Valid(Apply(w, e)) && Apply(w, e).sems.Keys == w.sems.Keys
  {
    match e
    case EvUp(s) => UpKeeps(w, s);
    case EvDown(p, s) => DownBeginKeeps(w, p, s);
    case EvResume(p) => DownEndKeeps(w, p);
    case _ => EnvironmentKeeps(w, e);
  }

  // ---------------------------------------------------------------- theorems over all runs

  ghost predicate Initial(w: World) {
    && (forall s :: s in w.sems ==> w.sems[s].value >= 0 && w.sems[s].queue == [])
    && (forall p :: 0 <= p < |w.tasks| ==>
      w.tasks[p].runnable && w.tasks[p].wait == NotWaiting && w.tasks[p].blockedOn == None)
  }

  /** How many permits of `s` an event returns or takes. */
  ghost function Gain(w: World, e: Event, s: SemId): int
    requires Enabled(w, e)
  {
    match e
    case EvUp(r) => if r == s then 1 else 0
    case EvDown(_, r) => if r == s && TakesPermit(w, s) then -1 else 0
    case EvResume(p) => if w.tasks[p].blockedOn.value == s then -1 else 0
    case _ => 0
  }

  /** Calls of up(s) minus completed calls of down(s) along a run. */
  ghost function NetUps(w: World, es: seq<Event>, s: SemId): int
    requires IsRun(w, es)
    decreases |es|
  {
    if es == [] then 0 else Gain(w, es[0], s) + NetUps(Apply(w, es[0]), es[1..], s)
  }

  lemma StepConserves(w: World, e: Event, s: SemId)
    requires Valid(w) && Enabled(w, e) && s in w.sems
    ensures s in Apply(w, e).sems && Permits(Apply(w, e), s) == Permits(w, s) + Gain(w, e, s)
  {
    match e
    case EvUp(r) => UpKeeps(w, r);
    case EvDown(p, r) => DownBeginKeeps(w, p, r);
    case EvResume(p) => DownEndKeeps(w, p);
    case _ => EnvironmentKeeps(w, e);
  }

  /**
    Over every run, with any number of processes, kills and timers: the invariant holds, and the
    permits of each semaphore (its value plus the permits handed off and not yet consumed) are its
    initial value plus the net number of ups.  So no permit is lost or invented.
  */
  lemma {:induction false} PermitsConserved(w: World, es: seq<Event>, s: SemId)
    requires Valid(w) && IsRun(w, es) && s in w.sems
    ensures Valid(Run(w, es)) && s in Run(w, es).sems
    ensures Permits(Run(w, es), s) == Permits(w, s) + NetUps(w, es, s)
    decreases |es|
  {
    if es != [] {
      StepKeepsValid(w, es[0]);
      StepConserves(w, es[0], s);
      PermitsConserved(Apply(w, es[0]), es[1..], s);
    }
  }

  // ---------------------------------------------------------------- first come, first served

  /** Processes asleep inside `down(s)`. */
  ghost function Sleepers(w: World, s: SemId): set<ProcId> {
    set p | 0 <= p < |w.tasks| && !w.tasks[p].runnable && w.tasks[p].blockedOn == Some(s)
  }

  /** The members of `x`, which has at most one. */
  ghost function Only(x: set<ProcId>): seq<ProcId> {
    if x == {} then [] else var p :| p in x; [p]
  }

  /** Whom an event puts to sleep on `s`. */
  ghost function Joining(w: World, e: Event, s: SemId): set<ProcId>
    requires Enabled(w, e)
  {
    Sleepers(Apply(w, e), s) - Sleepers(w, s)
  }

  /** Whom an event hands a permit of `s`. */
  ghost function Receiving(w: World, e: Event, s: SemId): set<ProcId>
    requires Enabled(w, e)
  {
    HandedOff(Apply(w, e), s) - HandedOff(w, s)
  }

  /** The processes that went to sleep on `s` along a run, in the order in which they did. */
  ghost function Arrivals(w: World, es: seq<Event>, s: SemId): seq<ProcId>
    requires IsRun(w, es)
    decreases |es|
  {
    if es == [] then [] else Only(Joining(w, es[0], s)) + Arrivals(Apply(w, es[0]), es[1..], s)
  }

  /** The sleepers that were handed a permit of `s` along a run, in the order in which they were. */
  ghost function Served(w: World, es: seq<Event>, s: SemId): seq<ProcId>
    requires IsRun(w, es)
    decreases |es|
  {
    if es == [] then [] else Only(Receiving(w, es[0], s)) + Served(Apply(w, es[0]), es[1..], s)
  }

  /** How often up(s) was called. */
  ghost function Ups(es: seq<Event>, s: SemId): nat
    decreases |es|
  {
    if es == [] then 0 else (if es[0] == EvUp(s) then 1 else 0) + Ups(es[1..], s)
  }

  /** The queue of a semaphore holds its sleepers, each once. */
  lemma QueueIsSleepers(w: World, s: SemId)
    requires Valid(w) && s in w.sems
    ensures Distinct(w.sems[s].queue) && forall p :: p in w.sems[s].queue <==> p in Sleepers(w, s)
  {
    assert SemOk(w, s);
    forall p | p in Sleepers(w, s) ensures p in w.sems[s].queue {
      assert TaskOk(w, p);
    }
  }

  /**
    One event: at most one process joins the sleepers, namely a caller of `down` that finds no permit, and at most
    one receives a permit, namely on an `up` that finds sleepers.
  */
  lemma OneAtATime(w: World, e: Event, s: SemId)
    requires Valid(w) && Enabled(w, e) && s in w.sems
    ensures Joining(w, e, s) == if e.EvDown? && e.s == s && !TakesPermit(w, s) then {e.p} else {}
    ensures |Receiving(w, e, s)| == if e == EvUp(s) && Sleepers(w, s) != {} then 1 else 0
  {
    hide Sleepers, HandedOff, Valid;
    QueueIsSleepers(w, s);
    if w.sems[s].queue != [] { assert w.sems[s].queue[0] in w.sems[s].queue; }
    match e
    case EvUp(r) => UpReceives(w, r, s);
    case EvDown(p, r) => DownJoins(w, p, r, s);
    case EvResume(p) => DownEndKeeps(w, p); NobodyJoins(w, e, s);
    case _ => EnvironmentKeeps(w, e); NobodyJoins(w, e, s);
  }

  lemma QueueMoves(w: World, e: Event, s: SemId)
    requires Valid(w) && Enabled(w, e) && s in w.sems
    ensures s in Apply(w, e).sems
    ensures w.sems[s].queue + Only(Joining(w, e, s)) == Only(Receiving(w, e, s)) + Apply(w, e).sems[s].queue
  {
    hide Sleepers, HandedOff, Valid, Joining, Receiving;
    assert forall p :: Only({p}) == [p];
    match e
    case EvUp(r) => UpReceives(w, r, s);
    case EvDown(p, r) => DownJoins(w, p, r, s);
    case EvResume(p) => DownEndKeeps(w, p); NobodyJoins(w, e, s);
    case _ => EnvironmentKeeps(w, e); NobodyJoins(w, e, s);
  }

  lemma UpReceives(w: World, r: SemId, s: SemId)
    requires Valid(w) && r in w.sems && s in w.sems
    ensures Joining(w, EvUp(r), s) == {}
    ensures Receiving(w, EvUp(r), s) == if r == s && w.sems[s].queue != [] then {w.sems[s].queue[0]} else {}
  {
    UpKeeps(w, r);
    assert SemOk(w, r);
  }

  lemma DownJoins(w: World, p: ProcId, r: SemId, s: SemId)
    requires Valid(w) && Enabled(w, EvDown(p, r)) && s in w.sems
    ensures Joining(w, EvDown(p, r), s) == if r == s && !TakesPermit(w, s) then {p} else {}
    ensures Receiving(w, EvDown(p, r), s) == {}
  {
    DownBeginKeeps(w, p, r);
  }

  lemma NobodyJoins(w: World, e: Event, s: SemId)
    requires Valid(w) && Enabled(w, e) && s in w.sems && !e.EvUp? && !e.EvDown?
    ensures Joining(w, e, s) == {} == Receiving(w, e, s)
  {
    if e.EvResume? {
      DownEndKeeps(w, e.p);
    } else {
      EnvironmentKeeps(w, e);
      assert TaskOk(w, e.p);
    }
  }

  /**
    First come, first served, over every run: whoever was asleep on `s` at its start, followed by those who joined,
    in the order in which they joined, are those who were handed a permit, in the order in which they were, followed
    by those asleep at its end.  So nobody is handed a permit before one who went to sleep earlier.
  */
  lemma {:induction false} FirstComeFirstServed(w: World, es: seq<Event>, s: SemId)
    requires Valid(w) && IsRun(w, es) && s in w.sems
    ensures s in Run(w, es).sems
    ensures w.sems[s].queue + Arrivals(w, es, s) == Served(w, es, s) + Run(w, es).sems[s].queue
    decreases |es|
  {
    hide Valid, Joining, Receiving, Only, Apply;
    if es != [] {
      var w' := Apply(w, es[0]);
      StepKeepsValid(w, es[0]);
      QueueMoves(w, es[0], s);
      FirstComeFirstServed(w', es[1..], s);
      Rejoined(w.sems[s].queue, Only(Joining(w, es[0], s)), Arrivals(w', es[1..], s),
               Only(Receiving(w, es[0], s)), w'.sems[s].queue, Served(w', es[1..], s), Run(w, es).sems[s].queue);
    }
  }

  lemma Rejoined(q: seq<ProcId>, j: seq<ProcId>, a: seq<ProcId>,
                 r: seq<ProcId>, q': seq<ProcId>, b: seq<ProcId>, c: seq<ProcId>)
    requires q + j == r + q' && q' + a == b + c
    ensures q + (j + a) == (r + b) + c
  {
    calc {
      q + (j + a);
      (q + j) + a;
      r + (q' + a);
      (r + b) + c;
    }
  }

  /** Every `up` serves somebody as long as one of those asleep at the start is left. */
  lemma {:induction false} UpsServe(w: World, es: seq<Event>, s: SemId)
    requires Valid(w) && IsRun(w, es) && s in w.sems
    ensures Ups(es, s) <= |w.sems[s].queue| ==> |Served(w, es, s)| == Ups(es, s)
    ensures Ups(es, s) >= |w.sems[s].queue| ==> |Served(w, es, s)| >= |w.sems[s].queue|
    decreases |es|
  {
    if es != [] {
      var w', q := Apply(w, es[0]), w.sems[s].queue;
      StepKeepsValid(w, es[0]);
      OneAtATime(w, es[0], s);
      QueueMoves(w, es[0], s);
      QueueIsSleepers(w, s);
      if q != [] { assert q[0] in q; }
      UpsServe(w', es[1..], s);
    }
  }

  /**
    If `p` goes to sleep in `down(s)`, then the later calls of `up(s)` hand permits first to those who went to sleep
    before it and are still asleep, in the order in which they did, and the next one to `p`.
  */
  lemma WokenInTurn(w: World, before: seq<Event>, p: ProcId, s: SemId, after: seq<Event>)
    requires Initial(w) && s in w.sems && IsRun(w, before)
    requires var v := Run(w, before); Enabled(v, EvDown(p, s)) && p in Joining(v, EvDown(p, s), s)
    requires IsRun(Apply(Run(w, before), EvDown(p, s)), after)
    ensures |Served(w, before, s)| <= |Arrivals(w, before, s)|
    ensures var v := Run(w, before);
      var earlier := Arrivals(w, before, s)[|Served(w, before, s)|..];
      var served := Served(Apply(v, EvDown(p, s)), after, s);
      && (forall q :: q in earlier <==> q in Sleepers(v, s))
      && if Ups(after, s) <= |earlier| then served == earlier[..Ups(after, s)] else earlier + [p] <= served
  {
    hide Sleepers, HandedOff, Valid;
    InitialIsValid(w);
    RunKeepsValid(w, before);
    FirstComeFirstServed(w, before, s);
    var v, e := Run(w, before), EvDown(p, s);
    var v' := Apply(v, e);
    var q := v.sems[s].queue;
    QueueIsSleepers(v, s);
    assert w.sems[s].queue == [];
    assert Arrivals(w, before, s) == [] + Arrivals(w, before, s) == Served(w, before, s) + q;
    assert Arrivals(w, before, s)[|Served(w, before, s)|..] == q;
    StepKeepsValid(v, e);
    DownJoins(v, p, s, s);
    QueueMoves(v, e, s);
    assert Only({p}) == [p];
    assert v'.sems[s].queue == q + [p];
    FirstComeFirstServed(v', after, s);
    UpsServe(v', after, s);
    TakeBoth(q, p, Arrivals(v', after, s), Served(v', after, s), Run(v', after).sems[s].queue);
  }

  /** What two ways of cutting the same sequence say about its beginning. */
  lemma TakeBoth(q: seq<ProcId>, p: ProcId, a: seq<ProcId>, b: seq<ProcId>, c: seq<ProcId>)
    requires q + [p] + a == b + c
    ensures |b| <= |q| ==> b == q[..|b|]
    ensures |b| > |q| ==> q + [p] <= b
  {
    var x := q + [p] + a;
    assert b == x[..|b|];
    if |b| > |q| { assert q + [p] == x[..|q| + 1] == b[..|q| + 1]; }
  }

  lemma InitialIsValid(w: World)
    requires Initial(w)
    ensures Valid(w)
    ensures forall s :: s in w.sems ==> HandedOff(w, s) == {} && Permits(w, s) == w.sems[s].value
  {
  }

  /**
    The assertions of sem.c hold at every moment of every run: a process that is about to return
    from `down` was woken by `up` (its flags are WT_KSEM and it is no longer queued), the process
    `up` would wake is asleep in WT_KSEM, and no semaphore has a positive value and a waiter.
  */
  lemma {:induction false} AssertionsNeverFail(w: World, es: seq<Event>)
    requires Initial(w) && IsRun(w, es)
    ensures var z := Run(w, es);
      && (forall p :: 0 <= p < |z.tasks| && Enabled(z, EvResume(p)) ==>
            z.tasks[p].flags == FlagKsem && p !in z.sems[z.tasks[p].blockedOn.value].queue)
      && (forall s :: s in z.sems && z.sems[s].queue != [] ==>
            z.sems[s].value == 0 && z.sems[s].queue[0] < |z.tasks| && z.tasks[z.sems[s].queue[0]].wait == WtKsem)
  {
    InitialIsValid(w);
    RunKeepsValid(w, es);
    var z := Run(w, es);
    forall p | 0 <= p < |z.tasks| && Enabled(z, EvResume(p))
      ensures z.tasks[p].flags == FlagKsem && p !in z.sems[z.tasks[p].blockedOn.value].queue
    {
      assert TaskOk(z, p) && SemOk(z, z.tasks[p].blockedOn.value);
    }
    forall s | s in z.sems && z.sems[s].queue != []
      ensures z.sems[s].value == 0 && z.sems[s].queue[0] < |z.tasks| && z.tasks[z.sems[s].queue[0]].wait == WtKsem
    {
      assert SemOk(z, s) && z.sems[s].queue[0] in z.sems[s].queue;
      assert TaskOk(z, z.sems[s].queue[0]);
    }
  }

  lemma {:induction false} RunKeepsValid(w: World, es: seq<Event>)
    requires Valid(w) && IsRun(w, es)
    ensures Valid(Run(w, es))
    decreases |es|
  {
    if es != [] {
      StepKeepsValid(w, es[0]);
      RunKeepsValid(Apply(w, es[0]), es[1..]);
    }
  }
}
