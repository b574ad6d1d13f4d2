/**
  Dining philosophers on the Hoare monitor (phi_test_condvar, phi_take_forks_condvar,
  phi_put_forks_condvar in kern/sync/check_sync.c), for any number n >= 2 of philosophers.

  A step of the protocol is a step of the `Monitor` machine plus what the routine does to the seat
  states around it, so everything proved of the monitor holds here by construction.
*/
module PhilosophersCondvar {
  import opened Semaphores
  import opened Dining
  import M = Monitor

  /** Where a philosopher is in its program; the comment says what it does next while active. */
  datatype Place =
    | Think       // call take_forks
    | TakeIn      // state = HUNGRY, phi_test(i)
    | TakeCheck   // if state != EATING then cond_wait, else leave
    | TakeDone    // back from cond_wait: leave
    | Eat         // call put_forks
    | PutIn       // state = THINKING, phi_test(LEFT)
    | PutRight    // phi_test(RIGHT)
    | PutLeave    // leave

  datatype Table = Table(m: M.State, phil: seq<Phil>, at: seq<Place>)

  ghost predicate WellFormed(s: Table) {
    && |s.phil| >= 2
    && |s.at| == |s.phil| == |s.m.pc| == |s.m.count|
    && M.WellFormed(s.m)
  }

  /** phi_test_condvar(k): the state change, and the cond_signal on cv[k] that comes with it. */
  ghost predicate TestLabel(phil: seq<Phil>, k: nat, l: M.Label)
    requires k < |phil|
  {
    if CanEat(phil, k) then l == M.SignalUp(k) || l == M.SignalNobody(k) else l == M.Stutter
  }

  /** What an active philosopher `i` may do. */
  ghost predicate Active(s: Table, s': Table, i: ProcId, l: M.Label)
    requires WellFormed(s) && i < |s.phil|
  {
    var n := |s.phil|;
    match s.at[i]
    case TakeIn =>
      var hungry := s.phil[i := Hungry];
      TestLabel(hungry, i, l) && s'.phil == Tested(hungry, i) && s'.at == s.at[i := TakeCheck]
    case TakeCheck =>
      && s'.phil == s.phil
      && if s.phil[i] != Eating then l == M.WaitRelease(i) && s'.at == s.at[i := TakeDone]
         else l == M.Leave && s'.at == s.at[i := Eat]
    case TakeDone => l == M.Leave && s'.phil == s.phil && s'.at == s.at[i := Eat]
    case PutIn =>
      var down := s.phil[i := Thinking];
      TestLabel(down, Left(i, n), l) && s'.phil == Tested(down, Left(i, n)) && s'.at == s.at[i := PutRight]
    case PutRight =>
      TestLabel(s.phil, Right(i, n), l) && s'.phil == Tested(s.phil, Right(i, n)) && s'.at == s.at[i := PutLeave]
    case PutLeave => l == M.Leave && s'.phil == s.phil && s'.at == s.at[i := Think]
    case _ => false
  }

  /** What a step with monitor label `l` does outside the monitor's own variables. */
  ghost predicate Routine(s: Table, s': Table, i: ProcId, l: M.Label)
    requires WellFormed(s) && i < |s.phil|
  {
    if l.Enter? then
      (s.at[i] == Think || s.at[i] == Eat) && s'.phil == s.phil
      && s'.at == s.at[i := if s.at[i] == Think then TakeIn else PutIn]
    else if l.Environment? || l.Resume? || l.SignalPark? || l.WaitPark? then
      s'.phil == s.phil && s'.at == s.at
    else
      s.m.pc[i] == M.Active && Active(s, s', i, l)
  }

  /** One step of philosopher `i`, or an event of its environment. */
  ghost predicate Next(s: Table, s': Table, i: ProcId, l: M.Label) {
    && WellFormed(s)
    && M.CanStep(s.m, i, l)
    && s'.m == M.Step(s.m, i, l)
    && Routine(s, s', i, l)
  }

  ghost predicate Initial(s: Table) {
    && WellFormed(s)
    && M.Initial(s.m)
    && (forall i :: 0 <= i < |s.phil| ==> s.phil[i] == Thinking && s.at[i] == Think)
  }

  // ---------------------------------------------------------------- invariant

  /** The token is on its way to philosopher `i`, asleep on its own condition variable, or has arrived. */
  ghost predicate Awarded(t: M.Token, i: nat) {
    t == M.Held(i) || (!t.Held? && t.s == Cv(i))
  }

  /** How a philosopher's place, its position in the monitor and its seat state fit together. */
  ghost predicate Fits(s: Table, t: M.Token, i: nat)
    requires WellFormed(s) && i < |s.phil|
  {
    var pc, phil := s.m.pc[i], s.phil[i];
    match s.at[i]
    case Think => pc == M.Outside && phil == Thinking
    case TakeIn => (pc == M.In(Mutex) || pc == M.Active) && phil == Thinking
    case TakeCheck => pc == M.Active && phil != Thinking
    case TakeDone =>
      && (pc == M.AtCv(i) || pc == M.In(Cv(i)) || pc == M.Active)
      && phil == if Awarded(t, i) then Eating else Hungry
    case Eat => pc == M.Outside && phil == Eating
    case PutIn => (pc == M.In(Mutex) || pc == M.Active) && phil == Eating
    case PutRight => (pc == M.AtNext || pc == M.In(Semaphores.Next) || pc == M.Active) && phil == Thinking
    case PutLeave => (pc == M.AtNext || pc == M.In(Semaphores.Next) || pc == M.Active) && phil == Thinking
  }

  ghost function Untested(s: Table): seq<bool> {
    seq(|s.at|, i requires 0 <= i < |s.at| => s.at[i] == PutRight)
  }

  ghost predicate AllFit(s: Table, t: M.Token)
    requires WellFormed(s)
  {
    forall i {:trigger Fits(s, t, i)} :: 0 <= i < |s.phil| ==> Fits(s, t, i)
  }

  ghost predicate Inv(s: Table, t: M.Token) {
    && WellFormed(s)
    && M.Inv(s.m, t)
    && AllFit(s, t)
    && NoNeighboursEat(s.phil)
    && HeldBack(s.phil, Untested(s))
  }

  // ---------------------------------------------------------------- seat states

  lemma SeatsKept(s: Table, s': Table, t: M.Token, i: ProcId, l: M.Label)
    requires WellFormed(s) && i < |s.phil| && Fits(s, t, i) && Routine(s, s', i, l)
    requires NoNeighboursEat(s.phil) && HeldBack(s.phil, Untested(s))
    ensures NoNeighboursEat(s'.phil) && HeldBack(s'.phil, Untested(s')) && |s'.phil| == |s.phil|
  {
    var u, u' := Untested(s), Untested(s');
    if l.Enter? || l.Environment? || l.Resume? || l.SignalPark? || l.WaitPark? {
      assert u' == u;
    } else {
      match s.at[i]
      case TakeIn =>
        TakeTest(s.phil, u, i);
        assert u' == u;
      case PutIn =>
        PutTestLeft(s.phil, u, i);
        assert u' == u[i := true];
      case PutRight =>
        PutTestRight(s.phil, u, i);
        assert u' == u[i := false];
      case TakeCheck => assert u' == u;
      case TakeDone => assert u' == u;
      case PutLeave => assert u' == u;
    }
  }

  // ---------------------------------------------------------------- places

  /** Nobody but philosopher `i` ever stands at condition variable `i`. */
  lemma OwnCondvar(s: Table, t: M.Token, i: nat)
    requires WellFormed(s) && M.Inv(s.m, t) && AllFit(s, t) && i < |s.phil|
    ensures s.m.count[i] > 0 <==> s.at[i] == TakeDone && s.m.pc[i] != M.Active
  {
    assert Fits(s, t, i);
    if s.at[i] == TakeDone && s.m.pc[i] != M.Active {
      M.StandingCounts(s.m.pc, i, Cv(i));
    } else {
      forall q | 0 <= q < |s.m.pc| ensures !M.StandsAt(s.m.pc[q], Cv(i)) {
        assert Fits(s, t, q);
      }
      M.NobodyStands(s.m.pc, Cv(i));
    }
  }

  /** The signal that comes with a test reaches a sleeper exactly when the tested philosopher is not the tester. */
  lemma SignalReaches(s: Table, t: M.Token, i: nat, phil: seq<Phil>, k: nat, l: M.Label)
    requires WellFormed(s) && M.Inv(s.m, t) && AllFit(s, t) && t == M.Held(i) && i < |s.phil|
    requires |phil| == |s.phil| && k < |phil| && (k != i ==> phil[k] == s.phil[k])
    requires k == i ==> s.at[i] == TakeIn
    requires TestLabel(phil, k, l) && M.CanStep(s.m, i, l)
    ensures l == if !CanEat(phil, k) then M.Stutter else if k == i then M.SignalNobody(k) else M.SignalUp(k)
    ensures CanEat(phil, k) && k != i ==> s.at[k] == TakeDone
  {
    OwnCondvar(s, t, k);
    assert Fits(s, t, k);
  }

  /** The seats move for philosophers other than `i` only when one of them is awarded the token. */
  lemma OthersFit(s: Table, s': Table, t: M.Token, t': M.Token, i: nat)
    requires WellFormed(s) && WellFormed(s') && AllFit(s, t) && |s'.phil| == |s.phil| && i < |s.phil|
    requires forall q :: 0 <= q < |s.phil| && q != i ==> s'.m.pc[q] == s.m.pc[q] && s'.at[q] == s.at[q]
    requires forall q :: 0 <= q < |s.phil| && q != i && s.at[q] != TakeDone ==> s'.phil[q] == s.phil[q]
    requires forall q :: 0 <= q < |s.phil| && q != i && s.at[q] == TakeDone ==>
               s'.phil[q] == if Awarded(t', q) then Eating else Hungry
    requires Fits(s', t', i)
    ensures AllFit(s', t')
  {
    forall q | 0 <= q < |s.phil| ensures Fits(s', t', q) {
      assert Fits(s, t, q);
    }
  }

  /** The token never passes over a philosopher's head unless it holds it. */
  lemma AwardUnchanged(s: Table, t: M.Token, q: nat)
    requires WellFormed(s) && AllFit(s, t) && q < |s.phil| && s.at[q] == TakeDone
    ensures s.phil[q] == if Awarded(t, q) then Eating else Hungry
  {
    assert Fits(s, t, q);
  }

  /** Philosopher `i` begins or ends a down(r): it falls asleep, or the token moves from `r` to it. */
  lemma DownFits(s: Table, s': Table, t: M.Token, t': M.Token, i: ProcId, l: M.Label, r: SemId)
    requires WellFormed(s) && WellFormed(s') && AllFit(s, t) && i < |s.phil| && Routine(s, s', i, l)
    requires l.Enter? || l.Resume? || l.SignalPark? || l.WaitPark?
    requires s.m.pc[i] == (match l
      case Enter => M.Outside case SignalPark => M.AtNext case WaitPark => M.AtCv(i) case _ => M.In(r))
    requires r == (match l
      case Enter => Mutex case SignalPark => Semaphores.Next case WaitPark => Cv(i) case _ => r)
    requires || (t' == t && s'.m.pc == s.m.pc[i := M.In(r)])
             || (!t.Held? && t.s == r && t' == M.Held(i) && s'.m.pc == s.m.pc[i := M.Active])
    ensures AllFit(s', t')
  {
    assert Fits(s, t, i);
    forall q | 0 <= q < |s.phil| && q != i && s.at[q] == TakeDone
      ensures s'.phil[q] == if Awarded(t', q) then Eating else Hungry
    {
      AwardUnchanged(s, t, q);
    }
    OthersFit(s, s', t, t', i);
  }

  lemma DownStep(s: Table, s': Table, t: M.Token, i: ProcId, l: M.Label) returns (t': M.Token)
    requires Inv(s, t) && Next(s, s', i, l)
    requires l.Enter? || l.Resume? || l.SignalPark? || l.WaitPark?
    ensures WellFormed(s') && M.Inv(s'.m, t') && AllFit(s', t') && M.Moved(s.m, i, l, t, t')
  {
    hide M.PcsOk, M.OnlyPermit, M.CountersExact, M.HasTaker, Semaphores.Valid, NoNeighboursEat, HeldBack;
    assert Fits(s, t, i);
    var r := if l.Enter? then Mutex
      else if l.SignalPark? then Semaphores.Next else if l.WaitPark? then Cv(i) else s.m.pc[i].s;
    t' := M.StepMovesToken(s.m, t, i, l);
    M.StepMovesOnlyOne(s.m, i, l);
    DownFits(s, s', t, t', i, l, r);
  }

  lemma EnvironmentStep(s: Table, s': Table, t: M.Token, i: ProcId, l: M.Label)
    requires Inv(s, t) && Next(s, s', i, l) && l.Environment?
    ensures WellFormed(s') && M.Inv(s'.m, t) && AllFit(s', t)
  {
    M.EnvironmentKeepsToken(s.m, t, i, l.e);
    forall q | 0 <= q < |s.phil| ensures Fits(s', t, q) {
      assert Fits(s, t, q);
    }
  }

  /** Philosopher `i`, active, has executed label `l` and is now at `x` in the monitor. */
  ghost predicate ActiveMove(s: Table, s': Table, t: M.Token, i: ProcId, l: M.Label, x: M.Pc) {
    && WellFormed(s) && WellFormed(s') && |s'.phil| == |s.phil| && i < |s.phil|
    && AllFit(s, t) && t == M.Held(i) && s.m.pc[i] == M.Active
    && Active(s, s', i, l)
    && s'.m.pc == s.m.pc[i := x]
  }

  lemma TestFits(s: Table, s': Table, t: M.Token, t': M.Token, i: ProcId, k: nat, l: M.Label)
    requires ActiveMove(s, s', t, i, l, if l.SignalUp? then M.AtNext else M.Active)
    requires k < |s.phil| && (l.SignalUp? || l.SignalNobody? || l.Stutter?)
    requires l.SignalUp? ==> l == M.SignalUp(k) && k != i && s.at[k] == TakeDone && !t'.Held? && t'.s == Cv(k)
    requires !l.SignalUp? ==> t' == t
    requires forall q :: 0 <= q < |s.phil| && q != i ==>
               s'.phil[q] == if l.SignalUp? && q == k then Eating else s.phil[q]
    requires s.at[i] != TakeCheck && s.at[i] != TakeDone
    requires s.at[i] == TakeIn ==> !l.SignalUp? && s'.phil[i] != Thinking
    requires s.at[i] != TakeIn ==> s'.phil[i] == Thinking
    ensures AllFit(s', t')
  {
    forall q | 0 <= q < |s.phil| && q != i && s.at[q] == TakeDone
      ensures s'.phil[q] == if Awarded(t', q) then Eating else Hungry
    {
      AwardUnchanged(s, t, q);
    }
    OthersFit(s, s', t, t', i);
  }

  lemma TestStep(s: Table, s': Table, t: M.Token, i: ProcId, l: M.Label) returns (t': M.Token)
    requires Inv(s, t) && Next(s, s', i, l)
    requires s.m.pc[i] == M.Active && (l.SignalUp? || l.SignalNobody? || l.Stutter?)
    ensures WellFormed(s') && M.Inv(s'.m, t') && AllFit(s', t') && M.Moved(s.m, i, l, t, t')
  {
    hide M.PcsOk, M.OnlyPermit, M.CountersExact, M.HasTaker, Semaphores.Valid, NoNeighboursEat, HeldBack;
    t' := M.StepMovesToken(s.m, t, i, l);
    M.StepMovesOnlyOne(s.m, i, l);
    assert Fits(s, t, i) && t == M.Held(i);
    var n := |s.phil|;
    Neighbours(i, n);
    var k := if s.at[i] == TakeIn then i else if s.at[i] == PutIn then Left(i, n) else Right(i, n);
    var phil := if s.at[i] == TakeIn then s.phil[i := Hungry]
      else if s.at[i] == PutIn then s.phil[i := Thinking] else s.phil;
    SignalReaches(s, t, i, phil, k, l);
    TestFits(s, s', t, t', i, k, l);
  }

  lemma ReleaseFits(s: Table, s': Table, t: M.Token, t': M.Token, i: ProcId, l: M.Label)
    requires ActiveMove(s, s', t, i, l, if l.Leave? then M.Outside else M.AtCv(i))
    requires l == M.WaitRelease(i) || l.Leave?
    requires !t'.Held? && !t'.s.Cv?
    ensures AllFit(s', t')
  {
    assert Fits(s, t, i);
    forall q | 0 <= q < |s.phil| && q != i && s.at[q] == TakeDone
      ensures s'.phil[q] == if Awarded(t', q) then Eating else Hungry
    {
      AwardUnchanged(s, t, q);
    }
    OthersFit(s, s', t, t', i);
  }

  lemma ReleaseStep(s: Table, s': Table, t: M.Token, i: ProcId, l: M.Label) returns (t': M.Token)
    requires Inv(s, t) && Next(s, s', i, l)
    requires l.WaitRelease? || l.Leave?
    ensures WellFormed(s') && M.Inv(s'.m, t') && AllFit(s', t') && M.Moved(s.m, i, l, t, t')
  {
    hide M.PcsOk, M.OnlyPermit, M.CountersExact, M.HasTaker, Semaphores.Valid, NoNeighboursEat, HeldBack;
    t' := M.StepMovesToken(s.m, t, i, l);
    M.StepMovesOnlyOne(s.m, i, l);
    ReleaseFits(s, s', t, t', i, l);
  }

  lemma StepKeeps(s: Table, s': Table, t: M.Token, i: ProcId, l: M.Label) returns (t': M.Token)
    requires Inv(s, t) && Next(s, s', i, l)
    ensures Inv(s', t') && M.Moved(s.m, i, l, t, t')
  {
    assert Fits(s, t, i);
    SeatsKept(s, s', t, i, l);
    if l.Environment? {
      EnvironmentStep(s, s', t, i, l);
      t' := t;
    } else if l.Enter? || l.Resume? || l.SignalPark? || l.WaitPark? {
      t' := DownStep(s, s', t, i, l);
    } else if l.WaitRelease? || l.Leave? {
      t' := ReleaseStep(s, s', t, i, l);
    } else {
      t' := TestStep(s, s', t, i, l);
    }
  }

  // ---------------------------------------------------------------- theorems over all runs

  /** A run is the sequence of tables it goes through, with the step taken at each. */
  ghost predicate IsRun(ss: seq<Table>, ms: seq<M.Move>) {
    && |ss| == |ms| + 1
    && Initial(ss[0])
    && forall k :: 0 <= k < |ms| ==> Next(ss[k], ss[k + 1], ms[k].p, ms[k].l)
  }

  lemma InitialHolds(s: Table)
    requires Initial(s)
    ensures Inv(s, M.Stored(Mutex))
  {
    M.InitialHasToken(s.m);
  }

  lemma {:induction false} RunKeeps(ss: seq<Table>, ms: seq<M.Move>) returns (t: M.Token)
    requires IsRun(ss, ms)
    ensures Inv(ss[|ms|], t)
    decreases |ms|
  {
    if ms == [] {
      InitialHolds(ss[0]);
      t := M.Stored(Mutex);
    } else {
      var n := |ms| - 1;
      t := RunKeeps(ss[..n + 1], ms[..n]);
      t := StepKeeps(ss[n], ss[n + 1], t, ms[n].p, ms[n].l);
    }
  }

  /** In every reachable state no two neighbours eat. */
  lemma NeighboursNeverEatTogether(ss: seq<Table>, ms: seq<M.Move>)
    requires IsRun(ss, ms)
    ensures NoNeighboursEat(ss[|ms|].phil)
  {
    var t := RunKeeps(ss, ms);
  }

  /** A philosopher that has returned from take_forks and not yet called put_forks has state EATING. */
  lemma TakeForksReturnsEating(ss: seq<Table>, ms: seq<M.Move>, i: nat)
    requires IsRun(ss, ms) && i < |ss[|ms|].phil| == |ss[|ms|].at| && ss[|ms|].at[i] == Eat
    ensures ss[|ms|].phil[i] == Eating
  {
    var t := RunKeeps(ss, ms);
    assert Fits(ss[|ms|], t, i);
  }

  /** Whenever the monitor is free, every hungry philosopher has an eating neighbour: no turn was missed. */
  lemma NoMissedTurn(ss: seq<Table>, ms: seq<M.Move>, h: nat)
    requires IsRun(ss, ms) && h < |ss[|ms|].phil|
    requires Mutex in ss[|ms|].m.w.sems && ss[|ms|].m.w.sems[Mutex].value > 0
    requires ss[|ms|].phil[h] == Hungry
    ensures NeighbourEats(ss[|ms|].phil, h)
  {
    var z := ss[|ms|];
    var t := RunKeeps(ss, ms);
    var i := Left(h, |z.phil|);
    if z.at[i] == PutRight {
      assert Fits(z, t, i);
      M.StandingCounts(z.m.pc, i, Semaphores.Next);
    }
  }

  /**
    No wakeup is lost: a philosopher asleep in cond_wait is HUNGRY until the monitor is on its way to
    it, and from then on EATING; and each condition variable has at most its own philosopher waiting.
  */
  lemma NoLostWakeup(ss: seq<Table>, ms: seq<M.Move>, i: nat)
    requires IsRun(ss, ms) && i < |ss[|ms|].phil| == |ss[|ms|].at| == |ss[|ms|].m.pc|
    requires ss[|ms|].at[i] == TakeDone && ss[|ms|].m.pc[i] != M.Active
    ensures var z := ss[|ms|];
      Cv(i) in z.m.w.sems && (z.phil[i] == Eating <==> Permits(z.m.w, Cv(i)) == 1)
      && (z.phil[i] == Hungry <==> Permits(z.m.w, Cv(i)) == 0)
  {
    var t := RunKeeps(ss, ms);
    assert Fits(ss[|ms|], t, i);
    M.PermitsOfToken(ss[|ms|].m, t, Cv(i));
  }

  /** While the monitor is free nobody still has a neighbour to test. */
  lemma FreeMeansTested(s: Table)
    requires Inv(s, M.Stored(Mutex))
    ensures forall i :: 0 <= i < |s.at| ==> !Untested(s)[i]
  {
    forall i | 0 <= i < |s.at| ensures !Untested(s)[i] {
      assert Fits(s, M.Stored(Mutex), i);
      if s.at[i] == PutRight {
        M.StandingCounts(s.m.pc, i, Semaphores.Next);
      }
    }
  }

  lemma StuckIsHungry(s: Table, i: nat)
    requires Inv(s, M.Stored(Mutex)) && i < |s.phil| && !NotStuck(s.m.w, i)
    ensures s.phil[i] == Hungry
  {
    assert Fits(s, M.Stored(Mutex), i) && M.PcOk(s.m, i) && TaskOk(s.m.w, i) && SemOk(s.m.w, Mutex);
    if s.at[i] == PutRight || s.at[i] == PutLeave {
      M.StandingCounts(s.m.pc, i, Semaphores.Next);
    }
  }

  /** Deadlock freedom: in every reachable state some philosopher is not blocked on a semaphore. */
  lemma NeverDeadlocked(ss: seq<Table>, ms: seq<M.Move>)
    requires IsRun(ss, ms)
    ensures exists i :: NotStuck(ss[|ms|].m.w, i)
  {
    var z := ss[|ms|];
    var t := RunKeeps(ss, ms);
    if t.Held? {
      M.HolderCanLeave(z.m, t.p);
      assert NotStuck(z.m.w, t.p);
    } else if t.Given? {
      M.GivenCanResume(z.m, t.p, t.s);
      assert NotStuck(z.m.w, t.p);
    } else if t.s != Mutex {
      var p := M.StoredHasTaker(z.m, t.s);
      assert NotStuck(z.m.w, p);
    } else {
      FreeMeansTested(z);
      var i := SomebodyNotHungry(z.phil, Untested(z));
      if !NotStuck(z.m.w, i) {
        StuckIsHungry(z, i);
      }
      assert NotStuck(z.m.w, i);
    }
  }
}
