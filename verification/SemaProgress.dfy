/**
  Progress of the philosophers on plain semaphores (kern/sync/check_sync.c): whoever can run moves on, take_forks and
  put_forks do what they are for, and from every reachable state every philosopher can still get to its meal.
*/
module SemaProgress {
  import opened Dining
  import opened PhilosophersSema
  import S = Semaphores

  type ProcId = S.ProcId

  // ---------------------------------------------------------------- runs, put together

  lemma {:induction false} Append(s: Table, xs: seq<Action>, ys: seq<Action>)
    requires IsRun(s, xs) && IsRun(Run(s, xs), ys)
    ensures IsRun(s, xs + ys) && Run(s, xs + ys) == Run(Run(s, xs), ys)
    decreases |xs|
  {
    hide Step, CanAct;
    if xs == [] {
      assert xs + ys == ys;
    } else {
      assert (xs + ys)[1..] == xs[1..] + ys;
      Append(Step(s, xs[0]), xs[1..], ys);
    }
  }

  function Times(i: ProcId, k: nat): seq<Action> {
    if k == 0 then [] else [Act(i)] + Times(i, k - 1)
  }

  /** One step of philosopher `i`, then `k` more of them. */
  lemma Prepend(s: Table, i: ProcId, k: nat)
    requires CanAct(s, Act(i)) && IsRun(Step(s, Act(i)), Times(i, k))
    ensures IsRun(s, Times(i, k + 1)) && Run(s, Times(i, k + 1)) == Run(Step(s, Act(i)), Times(i, k))
  {
    assert Times(i, k + 1)[1..] == Times(i, k);
  }

  // ---------------------------------------------------------------- a philosopher that can run moves on

  lemma CanMove(s: Table, t: Token, i: ProcId)
    requires Inv(s, t) && i < |s.phil| && s.w.tasks[i].runnable
    ensures CanAct(s, Act(i)) && |Step(s, Act(i)).at| == |s.at| && Step(s, Act(i)).at[i] != s.at[i]
  {
    assert Fits(s, i);
  }

  /** In every reachable state each philosopher that can run takes a step that brings it to another place. */
  lemma RunnableMoves(s: Table, acts: seq<Action>, i: ProcId)
    requires Initial(s) && IsRun(s, acts)
    requires i < |Run(s, acts).w.tasks| && Run(s, acts).w.tasks[i].runnable
    ensures var z := Run(s, acts);
      CanAct(z, Act(i)) && i < |z.at| == |Step(z, Act(i)).at| && Step(z, Act(i)).at[i] != z.at[i]
  {
    InitialHolds(s);
    var t := RunKeeps(s, Free, acts);
    CanMove(Run(s, acts), t, i);
  }

  // ---------------------------------------------------------------- the two routines with nobody else in the way

  /** While the mutex is free nobody queues for it, and with it free again nobody is in the critical section. */
  lemma MutexFree(s: Table, t: Token)
    requires Inv(s, t) && s.w.sems[S.Mutex].value > 0
    ensures t == Free && s.w.sems[S.Mutex] == S.Sem(1, [])
  {
    assert S.SemOk(s.w, S.Mutex);
  }

  lemma AwakeInside(s: Table, t: Token, i: ProcId)
    requires Inv(s, t) && i < |s.phil| && s.at[i] != Think && s.at[i] != Eat && AsleepOn(s.at[i], i).None?
    ensures s.w.tasks[i].runnable
  {
    assert Fits(s, i);
  }

  lemma EnterStep(s: Table, i: ProcId)
    requires Inv(s, Free) && CanAct(s, Act(i)) && (s.at[i] == Think || s.at[i] == Eat)
    ensures var s' := Step(s, Act(i));
      && s'.at == s.at[i := if s.at[i] == Think then TakeIn else PutIn]
      && s'.phil == s.phil
      && s'.w.sems[S.Mutex] == S.Sem(0, [])
  {
    MutexFree(s, Free);
  }

  lemma TestStep(s: Table, i: ProcId)
    requires CanAct(s, Act(i)) && (s.at[i] == TakeIn || s.at[i] == PutIn || s.at[i] == PutRight)
    ensures var s', n := Step(s, Act(i)), |s.phil|;
      && s'.w.sems[S.Mutex] == s.w.sems[S.Mutex]
      && if s.at[i] == TakeIn then s'.phil == Tested(s.phil[i := Hungry], i) && s'.at == s.at[i := TakeUp]
         else if s.at[i] == PutIn then
           s'.phil == Tested(s.phil[i := Thinking], Left(i, n)) && s'.at == s.at[i := PutRight]
         else s'.phil == Tested(s.phil, Right(i, n)) && s'.at == s.at[i := PutUp]
  {
  }

  lemma ReleaseStep(s: Table, i: ProcId)
    requires CanAct(s, Act(i)) && (s.at[i] == TakeUp || s.at[i] == PutUp) && s.w.sems[S.Mutex] == S.Sem(0, [])
    ensures var s' := Step(s, Act(i));
      && s'.at == s.at[i := if s.at[i] == TakeUp then AtOwn else Think]
      && s'.phil == s.phil
      && s'.w.sems[S.Mutex] == S.Sem(1, [])
  {
  }

  lemma OwnStep(s: Table, t: Token, i: ProcId)
    requires Inv(s, t) && CanAct(s, Act(i)) && (s.at[i] == AtOwn || s.at[i] == InOwn)
    ensures var s' := Step(s, Act(i));
      && s'.at == s.at[i := if s.phil[i] == Eating then Eat else InOwn]
      && s'.phil == s.phil
      && s'.w.sems[S.Mutex] == s.w.sems[S.Mutex]
  {
    assert Fits(s, i) && OwnOk(s, i);
    if s.at[i] == InOwn { assert i in S.HandedOff(s.w, S.Cv(i)); }
  }

  /** Four steps of a philosopher that can take each of them. */
  lemma Four(s: Table, i: ProcId)
    requires CanAct(s, Act(i)) && CanAct(Step(s, Act(i)), Act(i)) && CanAct(Step(Step(s, Act(i)), Act(i)), Act(i))
    requires CanAct(Step(Step(Step(s, Act(i)), Act(i)), Act(i)), Act(i))
    ensures IsRun(s, Times(i, 4))
    ensures Run(s, Times(i, 4)) == Step(Step(Step(Step(s, Act(i)), Act(i)), Act(i)), Act(i))
  {
    hide Step, CanAct;
    var s1 := Step(s, Act(i));
    var s2 := Step(s1, Act(i));
    var s3 := Step(s2, Act(i));
    Prepend(s3, i, 0);
    Prepend(s2, i, 1);
    Prepend(s1, i, 2);
    Prepend(s, i, 3);
  }

  /** What take_forks leads to if nobody else is in the critical section. */
  lemma Take(s: Table, i: ProcId)
    requires Inv(s, Free) && i < |s.phil| && s.at[i] == Think && s.w.tasks[i].runnable
    ensures IsRun(s, Times(i, 4)) && Inv(Run(s, Times(i, 4)), Free)
    ensures Run(s, Times(i, 4)).phil == Tested(s.phil[i := Hungry], i)
    ensures Run(s, Times(i, 4)).at == s.at[i := if CanEat(s.phil[i := Hungry], i) then Eat else InOwn]
  {
    hide Step, CanAct, S.Valid, AllOk, MutexOk, NoNeighboursEat, HeldBack, Left, Right;
    CanMove(s, Free, i);
    EnterStep(s, i);
    var t1 := StepKeeps(s, Free, Act(i));
    var s1 := Step(s, Act(i));
    AwakeInside(s1, t1, i);
    CanMove(s1, t1, i);
    TestStep(s1, i);
    var t2 := StepKeeps(s1, t1, Act(i));
    var s2 := Step(s1, Act(i));
    AwakeInside(s2, t2, i);
    CanMove(s2, t2, i);
    ReleaseStep(s2, i);
    var t3 := StepKeeps(s2, t2, Act(i));
    var s3 := Step(s2, Act(i));
    AwakeInside(s3, t3, i);
    CanMove(s3, t3, i);
    OwnStep(s3, t3, i);
    var t4 := StepKeeps(s3, t3, Act(i));
    MutexFree(Step(s3, Act(i)), t4);
    Four(s, i);
  }

  /** What put_forks leads to if nobody else is in the critical section. */
  lemma Put(s: Table, i: ProcId)
    requires Inv(s, Free) && i < |s.phil| && s.at[i] == Eat && s.w.tasks[i].runnable
    ensures IsRun(s, Times(i, 4)) && Inv(Run(s, Times(i, 4)), Free)
    ensures var n := |s.phil|;
      Run(s, Times(i, 4)).phil == Tested(Tested(s.phil[i := Thinking], Left(i, n)), Right(i, n))
    ensures Run(s, Times(i, 4)).at == s.at[i := Think]
  {
    hide Step, CanAct, S.Valid, AllOk, MutexOk, NoNeighboursEat, HeldBack;
    CanMove(s, Free, i);
    EnterStep(s, i);
    var t1 := StepKeeps(s, Free, Act(i));
    var s1 := Step(s, Act(i));
    AwakeInside(s1, t1, i);
    CanMove(s1, t1, i);
    TestStep(s1, i);
    var t2 := StepKeeps(s1, t1, Act(i));
    var s2 := Step(s1, Act(i));
    AwakeInside(s2, t2, i);
    CanMove(s2, t2, i);
    TestStep(s2, i);
    var t3 := StepKeeps(s2, t2, Act(i));
    var s3 := Step(s2, Act(i));
    AwakeInside(s3, t3, i);
    CanMove(s3, t3, i);
    ReleaseStep(s3, i);
    var t4 := StepKeeps(s3, t3, Act(i));
    MutexFree(Step(s3, Act(i)), t4);
    Four(s, i);
  }

  lemma EatersEat(s: Table, i: ProcId)
    requires Inv(s, Free) && i < |s.phil| && s.at[i] == Eat
    ensures s.phil[i] == Eating
  {
    assert Fits(s, i);
  }

  /**
    take_forks from a reachable state in which the mutex is free: without an eating neighbour the philosopher's own
    steps lead to its meal, otherwise it is left hungry and asleep on its own semaphore.  Nobody else is affected.
  */
  lemma TakeForksLeadsToMeal(s: Table, acts: seq<Action>, i: ProcId)
    requires Initial(s) && IsRun(s, acts) && WellFormed(Run(s, acts)) && i < |Run(s, acts).phil|
    requires var z := Run(s, acts); z.at[i] == Think && z.w.tasks[i].runnable && z.w.sems[S.Mutex].value > 0
    ensures IsRun(Run(s, acts), Times(i, 4)) && WellFormed(Run(Run(s, acts), Times(i, 4)))
    ensures var z := Run(s, acts); var y := Run(z, Times(i, 4));
      && y.w.sems[S.Mutex].value > 0
      && y.at == z.at[i := if NeighbourEats(z.phil, i) then InOwn else Eat]
      && y.phil == z.phil[i := if NeighbourEats(z.phil, i) then Hungry else Eating]
  {
    hide Run, IsRun, S.Valid, AllOk, NoNeighboursEat, HeldBack;
    InitialHolds(s);
    var z := Run(s, acts);
    var t := RunKeeps(s, Free, acts);
    MutexFree(z, t);
    Take(z, i);
    Neighbours(i, |z.phil|);
  }

  /**
    put_forks from a reachable state in which the mutex is free: the philosopher's own steps lead back to thinking,
    and the turn goes to each hungry neighbour that it kept from eating, with the permit that goes with it.
  */
  lemma PutForksPassesTurn(s: Table, acts: seq<Action>, i: ProcId)
    requires Initial(s) && IsRun(s, acts) && WellFormed(Run(s, acts)) && i < |Run(s, acts).phil|
    requires var z := Run(s, acts); z.at[i] == Eat && z.w.tasks[i].runnable && z.w.sems[S.Mutex].value > 0
    ensures IsRun(Run(s, acts), Times(i, 4)) && WellFormed(Run(Run(s, acts), Times(i, 4)))
    ensures var z := Run(s, acts); var y := Run(z, Times(i, 4));
      && y.w.sems[S.Mutex].value > 0
      && y.at == z.at[i := Think]
      && TurnPassed(z.phil, y.phil, i)
      && forall k :: 0 <= k < |z.phil| && z.phil[k] == Hungry && y.phil[k] == Eating ==> S.Permits(y.w, S.Cv(k)) == 1
  {
    hide Run, IsRun, Tested, S.Valid, AllOk, NoNeighboursEat, HeldBack, TurnPassed, Left, Right, S.Permits;
    InitialHolds(s);
    var z := Run(s, acts);
    var t := RunKeeps(s, Free, acts);
    MutexFree(z, t);
    Put(z, i);
    var y := Run(z, Times(i, 4));
    EatersEat(z, i);
    PutPasses(z.phil, i);
    forall k | 0 <= k < |z.phil| && z.phil[k] == Hungry && y.phil[k] == Eating ensures S.Permits(y.w, S.Cv(k)) == 1 {
      PermitFollows(z, y, i, k);
    }
  }

  lemma PermitFollows(z: Table, y: Table, i: ProcId, k: ProcId)
    requires Inv(z, Free) && Inv(y, Free) && k < |z.phil| == |y.phil| && z.phil[k] == Hungry && y.phil[k] == Eating
    requires i < |z.at| && z.at[i] == Eat && y.at == z.at[i := Think]
    ensures S.Permits(y.w, S.Cv(k)) == 1
  {
    hide NoNeighboursEat, HeldBack, S.Valid;
    assert Fits(z, i) && Fits(z, k) && Fits(y, k) && OwnOk(y, k);
  }

  // ---------------------------------------------------------------- from everywhere to a meal

  /** How many steps a philosopher is away from having left the critical section, if it is in it or in its queue. */
  function Rank(x: Place): nat {
    match x
    case TakeWait => 3
    case TakeIn => 2
    case TakeUp => 1
    case PutWait => 4
    case PutIn => 3
    case PutRight => 2
    case PutUp => 1
    case _ => 0
  }

  ghost function Work(at: seq<Place>): nat {
    if at == [] then 0 else Work(at[..|at| - 1]) + Rank(at[|at| - 1])
  }

  lemma {:induction false} WorkUpdate(at: seq<Place>, i: nat, x: Place)
    requires i < |at|
    ensures Work(at[i := x]) == Work(at) - Rank(at[i]) + Rank(x)
  {
    var n := |at| - 1;
    if i == n {
      assert at[i := x][..n] == at[..n];
    } else {
      assert at[i := x][..n] == at[..n][i := x];
      WorkUpdate(at[..n], i, x);
    }
  }

  /** Whoever holds the mutex, or has been handed it, can run and is one step nearer to releasing it after its step. */
  lemma HolderMoves(s: Table, t: Token)
    requires Inv(s, t) && t != Free
    ensures t.p < |s.phil| && s.w.tasks[t.p].runnable && CanAct(s, Act(t.p))
    ensures exists x :: Rank(x) + 1 == Rank(s.at[t.p]) && Step(s, Act(t.p)).at == s.at[t.p := x]
  {
    if t.Given? { assert t.p in S.HandedOff(s.w, S.Mutex); }
    assert Fits(s, t.p);
    CanMove(s, t, t.p);
    var x := Step(s, Act(t.p)).at[t.p];
    assert Rank(x) + 1 == Rank(s.at[t.p]) && Step(s, Act(t.p)).at == s.at[t.p := x];
  }

  /** The critical section and its queue empty out if only those in them take steps. */
  lemma {:induction false} Drain(s: Table, t: Token) returns (acts: seq<Action>)
    requires Inv(s, t)
    ensures IsRun(s, acts) && Inv(Run(s, acts), Free)
    decreases Work(s.at)
  {
    hide Step, CanAct, Work, Rank, S.Valid, AllOk, MutexOk, NoNeighboursEat, HeldBack;
    if t == Free {
      acts := [];
    } else {
      HolderMoves(s, t);
      var x :| Rank(x) + 1 == Rank(s.at[t.p]) && Step(s, Act(t.p)).at == s.at[t.p := x];
      WorkUpdate(s.at, t.p, x);
      var t' := StepKeeps(s, t, Act(t.p));
      acts := Drain(Step(s, Act(t.p)), t');
      acts := After(s, Act(t.p), acts);
    }
  }

  lemma After(s: Table, a: Action, acts: seq<Action>) returns (r: seq<Action>)
    requires CanAct(s, a) && IsRun(Step(s, a), acts)
    ensures IsRun(s, r) && Run(s, r) == Run(Step(s, a), acts)
  {
    r := [a] + acts;
    assert r[1..] == acts;
  }

  lemma StepTimed(s: Table, a: Action)
    requires CanAct(s, a) && S.Timed(s.w)
    ensures S.Timed(Step(s, a).w)
  {
    hide S.Up, S.DownBegin, S.DownEnd, S.Timed, Tested;
    if a.Act? {
      var r := if AsleepOn(s.at[a.i], a.i).Some? then s.w.tasks[a.i].blockedOn.value else S.Mutex;
      forall r | r in s.w.sems ensures S.Timed(S.Up(s.w, r)) && S.Timed(S.DownBegin(s.w, a.i, r)) {
        S.UpKeepsTimed(s.w, r);
        S.DownKeepsTimed(s.w, a.i, r);
      }
      S.DownKeepsTimed(s.w, a.i, r);
    } else {
      S.EnvironmentTimed(s.w, a.e);
    }
  }

  lemma {:induction false} RunTimed(s: Table, acts: seq<Action>)
    requires IsRun(s, acts) && S.Timed(s.w)
    ensures S.Timed(Run(s, acts).w)
    decreases |acts|
  {
    if acts != [] {
      StepTimed(s, acts[0]);
      RunTimed(Step(s, acts[0]), acts[1..]);
    }
  }

  /** A philosopher that dozes in do_sleep is woken by its timer. */
  lemma Wake(s: Table, i: ProcId) returns (acts: seq<Action>)
    requires Inv(s, Free) && S.Timed(s.w) && i < |s.phil| && (s.at[i] == Think || s.at[i] == Eat)
    ensures IsRun(s, acts) && Inv(Run(s, acts), Free) && Run(s, acts).phil == s.phil && Run(s, acts).at == s.at
    ensures Run(s, acts).w.tasks[i].runnable
  {
    hide NoNeighboursEat, HeldBack, MutexOk, Untested;
    assert Fits(s, i) && S.TaskOk(s.w, i);
    acts := [];
    if !s.w.tasks[i].runnable {
      var a := Env(S.EvTimer(i));
      EnvironmentStep(s, Free, a.e);
      S.EnvironmentKeeps(s.w, a.e);
      acts := After(s, a, []);
    }
  }

  /** A run that ends with nobody in or before the critical section, and from which more can follow. */
  ghost predicate Leads(s: Table, acts: seq<Action>, z: Table) {
    IsRun(s, acts) && Run(s, acts) == z && Inv(z, Free) && S.Timed(z.w)
  }

  lemma Then(s: Table, xs: seq<Action>, y: Table, ys: seq<Action>, z: Table)
    requires Leads(s, xs, y) && Leads(y, ys, z)
    ensures Leads(s, xs + ys, z)
  {
    Append(s, xs, ys);
  }

  /** With the mutex free nobody is in the critical section or queues for it. */
  lemma NobodyInside(s: Table, i: ProcId)
    requires Inv(s, Free) && i < |s.phil|
    ensures !Critical(s.at[i]) && s.at[i] != TakeWait && s.at[i] != PutWait
  {
    assert Fits(s, i) && S.TaskOk(s.w, i) && S.SemOk(s.w, S.Mutex);
    assert i !in S.HandedOff(s.w, S.Mutex);
  }

  /** Who has been granted its forks gets to its meal. */
  lemma Start(s: Table, i: ProcId) returns (acts: seq<Action>, z: Table)
    requires Inv(s, Free) && S.Timed(s.w) && i < |s.phil| && s.phil[i] == Eating
    ensures Leads(s, acts, z) && z.phil == s.phil && z.at == s.at[i := Eat]
  {
    hide NoNeighboursEat, HeldBack, Untested;
    acts, z := [], s;
    if s.at[i] != Eat {
      NobodyInside(s, i);
      assert Fits(s, i) && OwnOk(s, i);
      if s.at[i] == InOwn { assert i in S.HandedOff(s.w, S.Cv(i)); }
      CanMove(s, Free, i);
      OwnStep(s, Free, i);
      z := Step(s, Act(i));
      var t := StepKeeps(s, Free, Act(i));
      MutexFree(z, t);
      acts := After(s, Act(i), []);
      RunTimed(s, acts);
    }
  }

  /** Who eats gets through its meal and through put_forks. */
  lemma Finish(s: Table, i: ProcId) returns (acts: seq<Action>, z: Table)
    requires Inv(s, Free) && S.Timed(s.w) && i < |s.phil| && s.phil[i] == Eating
    ensures Leads(s, acts, z) && |z.phil| == |s.phil| && TurnPassed(s.phil, z.phil, i) && z.at == s.at[i := Think]
  {
    hide Run, IsRun, Tested, S.Valid, AllOk, MutexOk, HeldBack, NoNeighboursEat, TurnPassed;
    var y: Table;
    acts, y := Start(s, i);
    var more := Wake(y, i);
    RunTimed(y, more);
    Then(s, acts, y, more, Run(y, more));
    acts, y := acts + more, Run(y, more);
    Put(y, i);
    RunTimed(y, Times(i, 4));
    z := Run(y, Times(i, 4));
    Then(s, acts, y, Times(i, 4), z);
    acts := acts + Times(i, 4);
    PutPasses(s.phil, i);
  }

  /** A hungry philosopher is granted its forks once its eating neighbours have put down theirs, the left one first. */
  lemma Grant(s: Table, i: ProcId) returns (acts: seq<Action>, z: Table)
    requires Inv(s, Free) && S.Timed(s.w) && i < |s.phil| && s.phil[i] == Hungry
    ensures Leads(s, acts, z) && |z.phil| == |s.phil| && z.phil[i] == Eating
  {
    hide Run, IsRun, Tested, S.Valid, AllOk, NoNeighboursEat;
    var n := |s.phil|;
    var l, r := Left(i, n), Right(i, n);
    Neighbours(i, n);
    acts, z := [], s;
    assert Leads(s, acts, z) by { Nothing(s); }
    if s.phil[l] == Eating {
      acts, z := Finish(s, l);
    }
    if z.phil[i] != Eating {
      NobodyInside(z, l);
      var more, y := Finish(z, r);
      Then(s, acts, z, more, y);
      acts, z := acts + more, y;
    }
  }

  lemma Nothing(s: Table)
    ensures IsRun(s, []) && Run(s, []) == s
  {
  }

  lemma Feed(s: Table, i: ProcId) returns (acts: seq<Action>, z: Table)
    requires Inv(s, Free) && S.Timed(s.w) && i < |s.phil|
    ensures Leads(s, acts, z) && |z.at| == |s.at| && z.at[i] == Eat
  {
    hide Run, IsRun, S.Valid, AllOk, MutexOk, NoNeighboursEat, HeldBack;
    acts, z := [], s;
    assert Leads(s, acts, z) by { Nothing(s); }
    var more, y;
    if s.phil[i] == Thinking {
      NobodyInside(s, i);
      assert s.at[i] == Think by { ThinkersThink(s, i); }
      acts := Wake(s, i);
      z := Run(s, acts);
      RunTimed(s, acts);
      Take(z, i);
      RunTimed(z, Times(i, 4));
      y := Run(z, Times(i, 4));
      Then(s, acts, z, Times(i, 4), y);
      acts, z := acts + Times(i, 4), y;
    }
    if z.phil[i] == Hungry {
      more, y := Grant(z, i);
      Then(s, acts, z, more, y);
      acts, z := acts + more, y;
    }
    more, y := Start(z, i);
    Then(s, acts, z, more, y);
    acts, z := acts + more, y;
  }

  lemma ThinkersThink(s: Table, i: ProcId)
    requires Inv(s, Free) && i < |s.phil| && s.phil[i] == Thinking
    ensures s.at[i] == Think
  {
    NobodyInside(s, i);
    assert Fits(s, i);
  }

  /**
    From every reachable state, for every philosopher: there is a way to go on that brings it to its meal, and from
    there a way back to thinking.  So no state is reached in which somebody is shut out for good.
  */
  lemma EverybodyCanEat(s: Table, acts: seq<Action>, i: ProcId) returns (toMeal: seq<Action>, back: seq<Action>)
    requires Initial(s) && IsRun(s, acts) && i < |Run(s, acts).phil|
    ensures IsRun(Run(s, acts), toMeal)
    ensures var y := Run(Run(s, acts), toMeal); i < |y.at| == |y.phil| && y.at[i] == Eat && y.phil[i] == Eating
    ensures IsRun(Run(Run(s, acts), toMeal), back)
    ensures var x := Run(Run(Run(s, acts), toMeal), back);
      i < |x.at| == |x.phil| && x.at[i] == Think && x.phil[i] == Thinking
  {
    hide Run, IsRun, S.Valid, AllOk, MutexOk, NoNeighboursEat, HeldBack, Tested;
    InitialHolds(s);
    var z := Run(s, acts);
    var t := RunKeeps(s, Free, acts);
    RunTimed(s, acts);
    var x, y;
    toMeal := Drain(z, t);
    y := Run(z, toMeal);
    RunTimed(z, toMeal);
    SameSeats(z, toMeal);
    var more;
    more, x := Feed(y, i);
    Then(z, toMeal, y, more, x);
    toMeal := toMeal + more;
    EatersEat(x, i);
    back, y := Finish(x, i);
  }

  lemma {:induction false} SameSeats(s: Table, acts: seq<Action>)
    requires IsRun(s, acts)
    ensures |Run(s, acts).phil| == |s.phil|
    decreases |acts|
  {
    if acts != [] {
      SameSeats(Step(s, acts[0]), acts[1..]);
    }
  }
}
