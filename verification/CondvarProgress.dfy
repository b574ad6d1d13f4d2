/**
  Progress of the philosophers on the monitor (kern/sync/check_sync.c): whoever can run moves on, take_forks and
  put_forks do what they are for, and from every reachable state every philosopher can still get to its meal.
*/
module CondvarProgress {
  import opened Dining
  import opened PhilosophersCondvar
  import M = Monitor
  import S = Semaphores

  type ProcId = S.ProcId

  const FREE: M.Token := M.Stored(S.Mutex)

  // ---------------------------------------------------------------- ways to go on

  /** The moves `ms` can be made from `s` and lead to `z`. */
  ghost predicate Leads(s: Table, ms: seq<M.Move>, z: Table)
    decreases |ms|
  {
    if ms == [] then s == z else exists y :: Next(s, y, ms[0].p, ms[0].l) && Leads(y, ms[1..], z)
  }

  lemma Before(s: Table, y: Table, m: M.Move, ms: seq<M.Move>, z: Table)
    requires Next(s, y, m.p, m.l) && Leads(y, ms, z)
    ensures Leads(s, [m] + ms, z)
  {
    hide Next;
    var xs := [m] + ms;
    assert xs[0] == m && xs[1..] == ms;
  }

  lemma {:induction false} Then(s: Table, xs: seq<M.Move>, y: Table, ys: seq<M.Move>, z: Table)
    requires Leads(s, xs, y) && Leads(y, ys, z)
    ensures Leads(s, xs + ys, z)
    decreases |xs|
  {
    hide Next;
    if xs == [] {
      assert xs + ys == ys;
    } else {
      var x :| Next(s, x, xs[0].p, xs[0].l) && Leads(x, xs[1..], y);
      Then(x, xs[1..], y, ys, z);
      Before(s, x, xs[0], xs[1..] + ys, z);
      assert [xs[0]] + (xs[1..] + ys) == xs + ys;
    }
  }

  lemma One(s: Table, y: Table, i: ProcId, l: M.Label) returns (ms: seq<M.Move>)
    requires Next(s, y, i, l)
    ensures Leads(s, ms, y)
  {
    ms := [M.Move(i, l)];
    Before(s, y, ms[0], [], y);
    assert [ms[0]] + [] == ms;
  }

  /** Going on from the end of a run gives a run. */
  lemma {:induction false} RunGoesOn(ss: seq<Table>, ms: seq<M.Move>, more: seq<M.Move>, z: Table)
    returns (zs: seq<Table>)
    requires IsRun(ss, ms) && Leads(ss[|ms|], more, z)
    ensures IsRun(zs, ms + more) && zs[|ms + more|] == z
    decreases |more|
  {
    hide Next;
    if more == [] {
      zs := ss;
      assert ms + more == ms;
    } else {
      var y :| Next(ss[|ms|], y, more[0].p, more[0].l) && Leads(y, more[1..], z);
      zs := RunGoesOn(ss + [y], ms + [more[0]], more[1..], z);
      assert ms + [more[0]] + more[1..] == ms + more;
    }
  }

  // ---------------------------------------------------------------- a philosopher that can run moves on

  /** What philosopher `i` does next outside the critical parts: one of the three downs, or the return from one. */
  function DownLabel(x: M.Pc): M.Label {
    match x
    case Outside => M.Enter
    case AtNext => M.SignalPark
    case AtCv(_) => M.WaitPark
    case _ => M.Resume
  }

  lemma DownMoves(s: Table, t: M.Token, i: ProcId) returns (s': Table)
    requires Inv(s, t) && i < |s.phil| && s.m.w.tasks[i].runnable && s.m.pc[i] != M.Active
    ensures Next(s, s', i, DownLabel(s.m.pc[i])) && s'.phil == s.phil
    ensures s'.at == if s.at[i] == Think then s.at[i := TakeIn] else if s.at[i] == Eat then s.at[i := PutIn] else s.at
  {
    hide M.OnlyPermit, M.CountersExact, M.HasTaker, S.Valid, NoNeighboursEat, HeldBack;
    assert Fits(s, t, i) && M.PcOk(s.m, i);
    var at := if s.at[i] == Think then s.at[i := TakeIn] else if s.at[i] == Eat then s.at[i := PutIn] else s.at;
    s' := Table(M.Step(s.m, i, DownLabel(s.m.pc[i])), s.phil, at);
  }

  /** phi_test on a neighbour or on oneself: the seats after it and whom it concerns. */
  ghost function Testing(s: Table, i: ProcId): seq<Phil>
    requires WellFormed(s) && i < |s.phil|
  {
    if s.at[i] == TakeIn then s.phil[i := Hungry] else if s.at[i] == PutIn then s.phil[i := Thinking] else s.phil
  }

  ghost function Testee(s: Table, i: ProcId): nat
    requires WellFormed(s) && i < |s.phil|
  {
    if s.at[i] == TakeIn then i else if s.at[i] == PutIn then Left(i, |s.phil|) else Right(i, |s.phil|)
  }

  /** A test that succeeds on a neighbour reaches it: it is waiting on its condition variable. */
  lemma TestMoves(s: Table, i: ProcId) returns (s': Table, l: M.Label)
    requires Inv(s, M.Held(i)) && i < |s.phil| && (s.at[i] == TakeIn || s.at[i] == PutIn || s.at[i] == PutRight)
    ensures Next(s, s', i, l)
    ensures s'.phil == Tested(Testing(s, i), Testee(s, i))
    ensures s'.at == s.at[i := if s.at[i] == TakeIn then TakeCheck else if s.at[i] == PutIn then PutRight else PutLeave]
    ensures var k := Testee(s, i); if k != i && CanEat(Testing(s, i), k) then l == M.SignalUp(k) && s.at[k] == TakeDone
      else l == M.Stutter || l == M.SignalNobody(k)
  {
    hide M.OnlyPermit, M.CountersExact, M.HasTaker, S.Valid, NoNeighboursEat, HeldBack, M.PcsOk;
    var t := M.Held(i);
    M.HolderCanLeave(s.m, i);
    var k := Testee(s, i);
    Neighbours(i, |s.phil|);
    OwnCondvar(s, t, k);
    assert Fits(s, t, i) && Fits(s, t, k);
    l := if !CanEat(Testing(s, i), k) then M.Stutter else if k == i then M.SignalNobody(k) else M.SignalUp(k);
    s' := Table(M.Step(s.m, i, l), Tested(Testing(s, i), k),
                s.at[i := if s.at[i] == TakeIn then TakeCheck else if s.at[i] == PutIn then PutRight else PutLeave]);
  }

  /** The other things an active philosopher does: it leaves the monitor, or waits. */
  lemma LeaveMoves(s: Table, i: ProcId) returns (s': Table, l: M.Label)
    requires Inv(s, M.Held(i)) && i < |s.phil| && (s.at[i] == TakeCheck || s.at[i] == TakeDone || s.at[i] == PutLeave)
    ensures Next(s, s', i, l) && s'.phil == s.phil
    ensures l == if s.at[i] == TakeCheck && s.phil[i] != Eating then M.WaitRelease(i) else M.Leave
    ensures s'.at == s.at[i := if l.WaitRelease? then TakeDone else if s.at[i] == PutLeave then Think else Eat]
  {
    hide M.OnlyPermit, M.CountersExact, M.HasTaker, S.Valid, NoNeighboursEat, HeldBack, M.PcsOk;
    M.HolderCanLeave(s.m, i);
    l := if s.at[i] == TakeCheck && s.phil[i] != Eating then M.WaitRelease(i) else M.Leave;
    s' := Table(M.Step(s.m, i, l), s.phil,
                s.at[i := if l.WaitRelease? then TakeDone else if s.at[i] == PutLeave then Think else Eat]);
  }

  /** In every reachable state each philosopher that can run can take a step that brings it to another place. */
  lemma RunnableMoves(ss: seq<Table>, ms: seq<M.Move>, i: ProcId) returns (s': Table, l: M.Label)
    requires IsRun(ss, ms) && i < |ss[|ms|].m.w.tasks| && ss[|ms|].m.w.tasks[i].runnable
    ensures Next(ss[|ms|], s', i, l) && i < |s'.at| == |s'.m.pc|
    ensures s'.at[i] != ss[|ms|].at[i] || s'.m.pc[i] != ss[|ms|].m.pc[i]
  {
    hide M.OnlyPermit, M.CountersExact, M.HasTaker, S.Valid, NoNeighboursEat, HeldBack, M.PcsOk;
    var z := ss[|ms|];
    var t := RunKeeps(ss, ms);
    assert Fits(z, t, i);
    if z.m.pc[i] != M.Active {
      s' := DownMoves(z, t, i);
      l := DownLabel(z.m.pc[i]);
    } else if z.at[i] == TakeIn || z.at[i] == PutIn || z.at[i] == PutRight {
      s', l := TestMoves(z, i);
    } else {
      s', l := LeaveMoves(z, i);
    }
    M.StepMovesOnlyOne(z.m, i, l);
  }

  // ---------------------------------------------------------------- the two routines with nobody else in the way

  predicate Settled(x: Place) {
    x == Think || x == Eat || x == TakeDone
  }

  /** Nobody but `i` is in the monitor, except asleep on its own condition variable. */
  ghost predicate Quiet(s: Table, i: ProcId) {
    forall q :: 0 <= q < |s.at| && q != i ==> Settled(s.at[q])
  }

  lemma FreeMeansSettled(s: Table, q: ProcId)
    requires Inv(s, FREE) && q < |s.at|
    ensures Settled(s.at[q]) && s.m.pc[q] != M.Active
    ensures s.phil[q] == match s.at[q] case Think => Thinking case Eat => Eating case _ => Hungry
  {
    hide NoNeighboursEat, HeldBack;
    assert Fits(s, FREE, q) && M.PcOk(s.m, q) && S.TaskOk(s.m.w, q) && S.SemOk(s.m.w, S.Mutex);
    assert S.HandedOff(s.m.w, S.Mutex) == {};
    assert q !in S.HandedOff(s.m.w, S.Mutex);
    if M.StandsAt(s.m.pc[q], S.Next) {
      M.StandingCounts(s.m.pc, q, S.Next);
    }
  }

  /** Whoever leaves a quiet monitor leaves the door open. */
  lemma ThroughMutex(s: Table, i: ProcId)
    requires Inv(s, M.Held(i)) && Quiet(s, i)
    ensures M.ReleaseTarget(s.m) == S.Mutex
  {
    hide M.OnlyPermit, S.Valid, NoNeighboursEat, HeldBack, M.PcsOk;
    forall q | 0 <= q < |s.m.pc| ensures !M.StandsAt(s.m.pc[q], S.Next) {
      assert Fits(s, M.Held(i), q);
    }
    M.NobodyStands(s.m.pc, S.Next);
  }

  /** A permit on its way through semaphore `r` was handed to somebody asleep on it, if to anybody. */
  lemma HandedToSleeper(m: M.State, t: M.Token)
    requires M.Inv(m, t) && t.Given?
    ensures m.pc[t.p] == M.In(t.s) && m.w.tasks[t.p].runnable
  {
    assert t.p in S.HandedOff(m.w, t.s);
    assert M.PcOk(m, t.p);
  }

  lemma DoorOpen(s: Table, t: M.Token, i: ProcId)
    requires Inv(s, t) && !t.Held? && t.s == S.Mutex && Quiet(s, i) && i < |s.at| && Settled(s.at[i])
    ensures t == FREE
  {
    hide M.OnlyPermit, M.CountersExact, M.HasTaker, S.Valid, NoNeighboursEat, HeldBack, M.PcsOk;
    assert t.Given? ==> Fits(s, t, t.p);
    if t.Given? { HandedToSleeper(s.m, t); }
  }

  /** down(mutex) at the top of a routine. */
  lemma Entered(s: Table, i: ProcId) returns (ms: seq<M.Move>, z: Table)
    requires Inv(s, FREE) && i < |s.phil| && s.m.w.tasks[i].runnable && (s.at[i] == Think || s.at[i] == Eat)
    ensures Leads(s, ms, z) && Inv(z, M.Held(i)) && Quiet(z, i)
    ensures z.phil == s.phil && z.at == s.at[i := if s.at[i] == Think then TakeIn else PutIn]
  {
    hide Leads, M.OnlyPermit, M.CountersExact, M.HasTaker, S.Valid, NoNeighboursEat, HeldBack, M.PcsOk;
    assert Fits(s, FREE, i);
    z := DownMoves(s, FREE, i);
    var t := StepKeeps(s, z, FREE, i, M.Enter);
    ms := One(s, z, i, M.Enter);
    forall q | 0 <= q < |s.at| && q != i ensures Settled(z.at[q]) {
      FreeMeansSettled(s, q);
    }
  }

  /** The end of a routine, with the monitor quiet. */
  lemma Departed(s: Table, i: ProcId) returns (ms: seq<M.Move>, z: Table)
    requires Inv(s, M.Held(i)) && i < |s.phil| && Quiet(s, i) && (s.at[i] == TakeCheck || s.at[i] == PutLeave)
    ensures Leads(s, ms, z) && Inv(z, FREE) && z.phil == s.phil
    ensures z.at == s.at[i := if s.at[i] == PutLeave then Think else if s.phil[i] == Eating then Eat else TakeDone]
  {
    hide Leads, M.OnlyPermit, M.CountersExact, M.HasTaker, S.Valid, NoNeighboursEat, HeldBack, M.PcsOk;
    ThroughMutex(s, i);
    var l;
    z, l := LeaveMoves(s, i);
    var t := StepKeeps(s, z, M.Held(i), i, l);
    DoorOpen(z, t, i);
    ms := One(s, z, i, l);
  }

  /** Only philosopher `k` ever stands at its condition variable, and it takes the permit sent there. */
  lemma Reached(s: Table, t: M.Token, k: ProcId) returns (ms: seq<M.Move>, z: Table)
    requires Inv(s, t) && !t.Held? && t.s == S.Cv(k) && k < |s.phil|
    ensures Leads(s, ms, z) && Inv(z, M.Held(k)) && s.at[k] == TakeDone && z.phil == s.phil && z.at == s.at
    ensures forall q :: 0 <= q < |s.phil| && q != k ==> z.m.pc[q] == s.m.pc[q]
  {
    hide Leads, M.OnlyPermit, M.CountersExact, M.HasTaker, S.Valid, NoNeighboursEat, HeldBack, M.PcsOk;
    var p;
    if t.Given? {
      HandedToSleeper(s.m, t);
      p := t.p;
    } else {
      p := M.StoredHasTaker(s.m, S.Cv(k));
    }
    assert Fits(s, t, p);
    z := DownMoves(s, t, k);
    var l := DownLabel(s.m.pc[k]);
    var t' := StepKeeps(s, z, t, k, l);
    M.StepMovesOnlyOne(s.m, k, l);
    ms := One(s, z, k, l);
  }

  /** A signaller about to park takes the monitor back from whoever it woke, once that one leaves. */
  lemma TakenBack(s: Table, i: ProcId, k: ProcId) returns (ms: seq<M.Move>, z: Table)
    requires Inv(s, M.Held(k)) && k < |s.phil| && s.at[k] == TakeDone
    requires i < |s.phil| && i != k && Quiet(s, i) && s.m.pc[i] == M.AtNext
    ensures Leads(s, ms, z) && Inv(z, M.Held(i)) && Quiet(z, i) && z.phil == s.phil && z.at == s.at[k := Eat]
  {
    hide Leads, M.OnlyPermit, M.CountersExact, M.HasTaker, S.Valid, NoNeighboursEat, HeldBack, M.PcsOk;
    assert M.ReleaseTarget(s.m) == S.Next by { SignallerParked(s.m, M.Held(k), i); }
    var y, l := LeaveMoves(s, k);
    var t := StepKeeps(s, y, M.Held(k), k, l);
    M.StepMovesOnlyOne(s.m, k, l);
    ms := One(s, y, k, l);
    assert Fits(s, M.Held(k), i) && Fits(y, t, i);
    ParkedAlone(y, t, i);
    z := DownMoves(y, t, i);
    var t' := StepKeeps(y, z, t, i, M.SignalPark);
    var more := One(y, z, i, M.SignalPark);
    Then(s, ms, y, more, z);
    ms := ms + more;
  }

  lemma SignallerParked(m: M.State, t: M.Token, i: ProcId)
    requires M.Inv(m, t) && i < |m.pc| && m.pc[i] == M.AtNext
    ensures M.ReleaseTarget(m) == S.Next
  {
    M.StandingCounts(m.pc, i, S.Next);
  }

  /** A permit sent to the signallers while `i` is the only one, and not asleep yet, is there for it to take. */
  lemma ParkedAlone(s: Table, t: M.Token, i: ProcId)
    requires Inv(s, t) && !t.Held? && t.s == S.Next && Quiet(s, i) && i < |s.phil| && s.m.pc[i] == M.AtNext
    ensures t == M.Stored(S.Next) && s.m.w.tasks[i].runnable
  {
    hide M.OnlyPermit, M.CountersExact, M.HasTaker, S.Valid, NoNeighboursEat, HeldBack;
    assert M.PcOk(s.m, i);
    assert t.Given? ==> Fits(s, t, t.p);
    if t.Given? { HandedToSleeper(s.m, t); }
  }

  /** A test in a quiet monitor, and the way out of it of whoever is granted its forks, up to the tester's next move. */
  lemma Asked(s: Table, i: ProcId) returns (ms: seq<M.Move>, z: Table)
    requires Inv(s, M.Held(i)) && i < |s.phil| && Quiet(s, i)
    requires s.at[i] == TakeIn || s.at[i] == PutIn || s.at[i] == PutRight
    ensures Leads(s, ms, z) && Inv(z, M.Held(i)) && Quiet(z, i) && |z.at| == |s.at|
    ensures z.phil == Tested(Testing(s, i), Testee(s, i))
    ensures z.at[i] == if s.at[i] == TakeIn then TakeCheck else if s.at[i] == PutIn then PutRight else PutLeave
    ensures forall q :: 0 <= q < |s.at| && q != i ==>
      z.at[q] == if q == Testee(s, i) && CanEat(Testing(s, i), q) then Eat else s.at[q]
  {
    hide Leads, M.OnlyPermit, M.CountersExact, M.HasTaker, S.Valid, NoNeighboursEat, HeldBack, M.PcsOk, Tested, CanEat;
    var y, l := TestMoves(s, i);
    var t := StepKeeps(s, y, M.Held(i), i, l);
    M.StepMovesOnlyOne(s.m, i, l);
    ms := One(s, y, i, l);
    z := y;
    if l.SignalUp? {
      var more, x := Reached(y, t, l.c);
      Then(s, ms, y, more, x);
      ms := ms + more;
      more, z := TakenBack(x, i, l.c);
      Then(s, ms, x, more, z);
      ms := ms + more;
    }
  }

  /** What take_forks leads to if nobody else is in the monitor. */
  lemma Take(s: Table, i: ProcId) returns (ms: seq<M.Move>, z: Table)
    requires Inv(s, FREE) && i < |s.phil| && s.at[i] == Think && s.m.w.tasks[i].runnable
    ensures Leads(s, ms, z) && Inv(z, FREE) && z.phil == Tested(s.phil[i := Hungry], i)
    ensures z.at == s.at[i := if CanEat(s.phil[i := Hungry], i) then Eat else TakeDone]
  {
    hide Leads, M.Inv, AllFit, NoNeighboursEat, HeldBack;
    var x, y, more;
    ms, y := Entered(s, i);
    more, x := Asked(y, i);
    Then(s, ms, y, more, x);
    ms := ms + more;
    more, z := Departed(x, i);
    Then(s, ms, x, more, z);
    ms := ms + more;
  }

  /** Who was hungry and may eat has left the monitor for its meal, nobody else has moved but `i`. */
  ghost predicate MovedOn(s: Table, z: Table, i: ProcId) {
    && |z.at| == |s.at| == |s.phil| == |z.phil|
    && forall q :: 0 <= q < |s.at| && q != i ==>
         z.at[q] == if s.phil[q] == Hungry && z.phil[q] == Eating then Eat else s.at[q]
  }

  /** What put_forks leads to if nobody else is in the monitor: `i` passes it to those it signals, and leaves. */
  lemma Put(s: Table, i: ProcId) returns (ms: seq<M.Move>, z: Table)
    requires Inv(s, FREE) && i < |s.phil| && s.at[i] == Eat && s.m.w.tasks[i].runnable
    ensures Leads(s, ms, z) && Inv(z, FREE) && MovedOn(s, z, i) && z.at[i] == Think
    ensures TurnPassed(s.phil, z.phil, i)
  {
    hide Leads, M.Inv, AllFit, HeldBack, NoNeighboursEat, TurnPassed;
    Neighbours(i, |s.phil|);
    var w, x, y, more;
    ms, y := Entered(s, i);
    more, x := Asked(y, i);
    Then(s, ms, y, more, x);
    ms := ms + more;
    more, w := Asked(x, i);
    Then(s, ms, x, more, w);
    ms := ms + more;
    more, z := Departed(w, i);
    Then(s, ms, w, more, z);
    ms := ms + more;
    FreeMeansSettled(s, i);
    PutPasses(s.phil, i);
  }

  /**
    take_forks from a reachable state in which the monitor is free: without an eating neighbour it leads to the meal,
    otherwise the philosopher is left hungry in cond_wait.  Nobody else is affected.
  */
  lemma TakeForksLeadsToMeal(ss: seq<Table>, ms: seq<M.Move>, i: ProcId) returns (take: seq<M.Move>, y: Table)
    requires IsRun(ss, ms) && WellFormed(ss[|ms|]) && i < |ss[|ms|].phil|
    requires var z := ss[|ms|]; z.at[i] == Think && z.m.w.tasks[i].runnable && z.m.w.sems[S.Mutex].value > 0
    ensures Leads(ss[|ms|], take, y) && WellFormed(y) && y.m.w.sems[S.Mutex].value > 0
    ensures var z := ss[|ms|];
      && y.at == z.at[i := if NeighbourEats(z.phil, i) then TakeDone else Eat]
      && y.phil == z.phil[i := if NeighbourEats(z.phil, i) then Hungry else Eating]
  {
    hide Next, Leads, NoNeighboursEat, HeldBack, AllFit, M.CountersExact, S.Valid, M.PcsOk;
    var t := RunKeeps(ss, ms);
    take, y := Take(ss[|ms|], i);
    Neighbours(i, |y.phil|);
  }

  /**
    put_forks from a reachable state in which the monitor is free: it leads back to thinking, and each hungry
    neighbour that was kept from eating gets the turn and has left the monitor for its meal by then.
  */
  lemma PutForksPassesTurn(ss: seq<Table>, ms: seq<M.Move>, i: ProcId) returns (put: seq<M.Move>, y: Table)
    requires IsRun(ss, ms) && WellFormed(ss[|ms|]) && i < |ss[|ms|].phil|
    requires var z := ss[|ms|]; z.at[i] == Eat && z.m.w.tasks[i].runnable && z.m.w.sems[S.Mutex].value > 0
    ensures Leads(ss[|ms|], put, y) && WellFormed(y) && y.m.w.sems[S.Mutex].value > 0
    ensures MovedOn(ss[|ms|], y, i) && y.at[i] == Think && TurnPassed(ss[|ms|].phil, y.phil, i)
  {
    hide TurnPassed, Leads;
    var t := RunKeeps(ss, ms);
    put, y := Put(ss[|ms|], i);
  }

  // ---------------------------------------------------------------- from everywhere to a meal

  /** How many steps a philosopher is away from having left the monitor. */
  function Rank(x: Place, active: bool): nat {
    match x
    case TakeIn => if active then 4 else 5
    case TakeCheck => 3
    case TakeDone => if active then 1 else 2
    case PutIn => if active then 5 else 6
    case PutRight => if active then 3 else 4
    case PutLeave => if active then 1 else 2
    case _ => 0
  }

  ghost function Work(at: seq<Place>, pc: seq<M.Pc>): nat
    requires |at| == |pc|
  {
    if at == [] then 0
    else Work(at[..|at| - 1], pc[..|pc| - 1]) + Rank(at[|at| - 1], pc[|pc| - 1] == M.Active)
  }

  lemma {:induction false} WorkFalls(at: seq<Place>, pc: seq<M.Pc>, at': seq<Place>, pc': seq<M.Pc>, i: nat)
    requires |at| == |pc| == |at'| == |pc'| && i < |at|
    requires forall q :: 0 <= q < |at| && q != i ==> at'[q] == at[q] && pc'[q] == pc[q]
    requires Rank(at'[i], pc'[i] == M.Active) < Rank(at[i], pc[i] == M.Active)
    ensures Work(at', pc') < Work(at, pc)
  {
    var n := |at| - 1;
    if i == n {
      assert at'[..n] == at[..n] && pc'[..n] == pc[..n];
    } else {
      WorkFalls(at[..n], pc[..n], at'[..n], pc'[..n], i);
    }
  }

  /** Whoever has the monitor, or has been handed it, gets nearer to leaving it with its step. */
  lemma HolderMoves(s: Table, t: M.Token) returns (p: ProcId, l: M.Label, z: Table)
    requires Inv(s, t) && t != FREE
    ensures Next(s, z, p, l) && |z.at| == |s.at| == |z.m.pc| == |z.phil| && p < |s.at|
    ensures forall q :: 0 <= q < |s.at| && q != p ==> z.at[q] == s.at[q] && z.m.pc[q] == s.m.pc[q]
    ensures Rank(z.at[p], z.m.pc[p] == M.Active) < Rank(s.at[p], s.m.pc[p] == M.Active)
  {
    hide Fits, Next, M.OnlyPermit, M.CountersExact, M.HasTaker, S.Valid, NoNeighboursEat, HeldBack, M.PcsOk, CanEat;
    if t.Held? {
      p := t.p;
      z, l := ActiveMoves(s, p);
    } else {
      p, l, z := TakerMoves(s, t);
    }
  }

  lemma ActiveMoves(s: Table, p: ProcId) returns (z: Table, l: M.Label)
    requires Inv(s, M.Held(p)) && p < |s.phil|
    ensures Next(s, z, p, l) && |z.at| == |s.at| == |z.m.pc| == |z.phil|
    ensures forall q :: 0 <= q < |s.at| && q != p ==> z.at[q] == s.at[q] && z.m.pc[q] == s.m.pc[q]
    ensures Rank(z.at[p], z.m.pc[p] == M.Active) < Rank(s.at[p], s.m.pc[p] == M.Active)
  {
    hide M.OnlyPermit, M.CountersExact, M.HasTaker, M.PcsOk, M.Step, M.CanStep, S.Valid, NoNeighboursEat, HeldBack;
    assert Fits(s, M.Held(p), p);
    if s.at[p] == TakeIn || s.at[p] == PutIn || s.at[p] == PutRight {
      z, l := TestMoves(s, p);
    } else {
      z, l := LeaveMoves(s, p);
    }
    M.StepMovesOnlyOne(s.m, p, l);
  }

  lemma TakerMoves(s: Table, t: M.Token) returns (p: ProcId, l: M.Label, z: Table)
    requires Inv(s, t) && !t.Held? && t != FREE
    ensures Next(s, z, p, l) && |z.at| == |s.at| == |z.m.pc| == |z.phil| && p < |s.at|
    ensures forall q :: 0 <= q < |s.at| && q != p ==> z.at[q] == s.at[q] && z.m.pc[q] == s.m.pc[q]
    ensures Rank(z.at[p], z.m.pc[p] == M.Active) < Rank(s.at[p], s.m.pc[p] == M.Active)
  {
    hide M.OnlyPermit, M.CountersExact, M.HasTaker, S.Valid, NoNeighboursEat, HeldBack, M.PcsOk;
    if t.Given? {
      HandedToSleeper(s.m, t);
      p := t.p;
    } else {
      p := M.StoredHasTaker(s.m, t.s);
    }
    assert Fits(s, t, p);
    z := DownMoves(s, t, p);
    l := DownLabel(s.m.pc[p]);
    var t' := M.StepMovesToken(s.m, t, p, l);
    M.StepMovesOnlyOne(s.m, p, l);
  }

  /** The monitor empties out if only those in it, and those queued for it, take steps. */
  lemma {:induction false} Drain(s: Table, t: M.Token) returns (ms: seq<M.Move>, z: Table)
    requires Inv(s, t)
    ensures Leads(s, ms, z) && Inv(z, FREE) && |z.phil| == |s.phil|
    decreases Work(s.at, s.m.pc)
  {
    hide M.Inv, AllFit, NoNeighboursEat, HeldBack, Next, Work, Rank;
    if t == FREE {
      ms, z := [], s;
    } else {
      var p, l, y := HolderMoves(s, t);
      WorkFalls(s.at, s.m.pc, y.at, y.m.pc, p);
      var t' := StepKeeps(s, y, t, p, l);
      ms, z := Drain(y, t');
      Before(s, y, M.Move(p, l), ms, z);
      ms := [M.Move(p, l)] + ms;
    }
  }

  lemma StepTimed(s: Table, z: Table, i: ProcId, l: M.Label)
    requires Next(s, z, i, l) && S.Timed(s.m.w)
    ensures S.Timed(z.m.w)
  {
    hide S.Up, S.DownBegin, S.DownEnd, S.Timed, Routine;
    match l
    case Environment(e) => S.EnvironmentTimed(s.m.w, e);
    case Resume => S.DownKeepsTimed(s.m.w, i, s.m.pc[i].s);
    case Enter => S.DownKeepsTimed(s.m.w, i, S.Mutex);
    case SignalPark => S.DownKeepsTimed(s.m.w, i, S.Next);
    case WaitPark => S.DownKeepsTimed(s.m.w, i, S.Cv(s.m.pc[i].c));
    case SignalUp(c) => S.UpKeepsTimed(s.m.w, S.Cv(c));
    case WaitRelease(_) => S.UpKeepsTimed(s.m.w, M.ReleaseTarget(s.m));
    case Leave => S.UpKeepsTimed(s.m.w, M.ReleaseTarget(s.m));
    case _ =>
  }

  lemma {:induction false} StaysTimed(s: Table, ms: seq<M.Move>, z: Table)
    requires Leads(s, ms, z) && S.Timed(s.m.w)
    ensures S.Timed(z.m.w)
    decreases |ms|
  {
    hide Next, S.Timed;
    if ms != [] {
      var y :| Next(s, y, ms[0].p, ms[0].l) && Leads(y, ms[1..], z);
      StepTimed(s, y, ms[0].p, ms[0].l);
      StaysTimed(y, ms[1..], z);
    }
  }

  lemma {:induction false} RunTimed(ss: seq<Table>, ms: seq<M.Move>)
    requires IsRun(ss, ms)
    ensures S.Timed(ss[|ms|].m.w)
    decreases |ms|
  {
    hide Next;
    if ms != [] {
      var n := |ms| - 1;
      RunTimed(ss[..n + 1], ms[..n]);
      StepTimed(ss[n], ss[n + 1], ms[n].p, ms[n].l);
    }
  }

  /** A philosopher that dozes in do_sleep is woken by its timer. */
  lemma Wake(s: Table, i: ProcId) returns (ms: seq<M.Move>, z: Table)
    requires Inv(s, FREE) && S.Timed(s.m.w) && i < |s.phil| && (s.at[i] == Think || s.at[i] == Eat)
    ensures Leads(s, ms, z) && Inv(z, FREE) && z.phil == s.phil && z.at == s.at && z.m.w.tasks[i].runnable
  {
    hide NoNeighboursEat, HeldBack, Untested, M.OnlyPermit, M.CountersExact, M.HasTaker;
    assert Fits(s, FREE, i) && S.TaskOk(s.m.w, i) && M.PcOk(s.m, i);
    ms, z := [], s;
    if !s.m.w.tasks[i].runnable {
      var l := M.Environment(S.EvTimer(i));
      z := s.(m := M.Step(s.m, i, l));
      S.EnvironmentKeeps(s.m.w, l.e);
      var t := StepKeeps(s, z, FREE, i, l);
      ms := One(s, z, i, l);
    }
  }

  /** Who eats gets through its meal and through put_forks. */
  lemma Finish(s: Table, i: ProcId) returns (ms: seq<M.Move>, z: Table)
    requires Inv(s, FREE) && S.Timed(s.m.w) && i < |s.phil| && s.phil[i] == Eating
    ensures Leads(s, ms, z) && Inv(z, FREE) && S.Timed(z.m.w) && |z.phil| == |s.phil|
    ensures TurnPassed(s.phil, z.phil, i) && z.at[i] == Think
  {
    hide Leads, M.Inv, AllFit, HeldBack, NoNeighboursEat, TurnPassed, S.Timed;
    FreeMeansSettled(s, i);
    var y, more;
    ms, y := Wake(s, i);
    more, z := Put(y, i);
    Then(s, ms, y, more, z);
    ms := ms + more;
    StaysTimed(s, ms, z);
  }

  /** A hungry philosopher gets to its meal once its eating neighbours have put down their forks, the left one first. */
  lemma Grant(s: Table, i: ProcId) returns (ms: seq<M.Move>, z: Table)
    requires Inv(s, FREE) && S.Timed(s.m.w) && i < |s.phil| && s.phil[i] == Hungry
    ensures Leads(s, ms, z) && Inv(z, FREE) && S.Timed(z.m.w) && |z.phil| == |s.phil| && z.phil[i] == Eating
  {
    hide M.Inv, AllFit, NoNeighboursEat, S.Timed;
    var n := |s.phil|;
    var l, r := Left(i, n), Right(i, n);
    Neighbours(i, n);
    ms, z := [], s;
    if s.phil[l] == Eating {
      ms, z := Finish(s, l);
    }
    if z.phil[i] != Eating {
      FreeMeansTested(z);
      var more, y := Finish(z, r);
      Then(s, ms, z, more, y);
      ms, z := ms + more, y;
    }
  }

  lemma Feed(s: Table, i: ProcId) returns (ms: seq<M.Move>, z: Table)
    requires Inv(s, FREE) && S.Timed(s.m.w) && i < |s.phil|
    ensures Leads(s, ms, z) && Inv(z, FREE) && S.Timed(z.m.w) && |z.phil| == |s.phil| && z.phil[i] == Eating
  {
    hide M.Inv, AllFit, HeldBack, NoNeighboursEat, S.Timed;
    ms, z := [], s;
    var y, more;
    if s.phil[i] == Thinking {
      FreeMeansSettled(s, i);
      ms, y := Wake(s, i);
      more, z := Take(y, i);
      Then(s, ms, y, more, z);
      ms := ms + more;
      StaysTimed(s, ms, z);
    }
    if z.phil[i] == Hungry {
      more, y := Grant(z, i);
      Then(s, ms, z, more, y);
      ms, z := ms + more, y;
    }
  }

  /**
    From every reachable state, for every philosopher: there is a way to go on that brings it to its meal, and from
    there a way back to thinking.  So no state is reached in which somebody is shut out for good.
  */
  lemma EverybodyCanEat(ss: seq<Table>, ms: seq<M.Move>, i: ProcId)
    returns (toMeal: seq<M.Move>, y: Table, back: seq<M.Move>, x: Table)
    requires IsRun(ss, ms) && i < |ss[|ms|].phil|
    ensures Leads(ss[|ms|], toMeal, y) && i < |y.at| == |y.phil| && y.at[i] == Eat && y.phil[i] == Eating
    ensures Leads(y, back, x) && i < |x.at| == |x.phil| && x.at[i] == Think && x.phil[i] == Thinking
  {
    hide M.Inv, AllFit, HeldBack, NoNeighboursEat, S.Timed, Leads;
    var z := ss[|ms|];
    var t := RunKeeps(ss, ms);
    RunTimed(ss, ms);
    toMeal, x := Drain(z, t);
    StaysTimed(z, toMeal, x);
    var more;
    more, y := Feed(x, i);
    Then(z, toMeal, x, more, y);
    toMeal := toMeal + more;
    FreeMeansSettled(y, i);
    back, x := Finish(y, i);
  }
}
