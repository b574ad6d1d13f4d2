/**
  Dining philosophers on plain semaphores (phi_test_sema, phi_take_forks_sema, phi_put_forks_sema in
  kern/sync/check_sync.c), for any number n >= 2 of philosophers.  `Mutex` is `mutex`, `Cv(i)` is `s[i]`.
*/
module PhilosophersSema {
  import opened Options
  import opened Semaphores
  import opened Dining

  /** Where a philosopher is; the comment says what it does next. */
  datatype Place =
    | Think       // take_forks: down(mutex)
    | TakeWait    // asleep in that down
    | TakeIn      // state = HUNGRY, phi_test(i)
    | TakeUp      // up(mutex)
    | AtOwn       // down(s[i])
    | InOwn       // asleep in that down
    | Eat         // put_forks: down(mutex)
    | PutWait     // asleep in that down
    | PutIn       // state = THINKING, phi_test(LEFT)
    | PutRight    // phi_test(RIGHT)
    | PutUp       // up(mutex)

  datatype Table = Table(w: World, phil: seq<Phil>, at: seq<Place>)

  datatype Action = Act(i: ProcId) | Env(e: Event)

  ghost predicate WellFormed(s: Table) {
    && |s.phil| >= 2
    && |s.at| == |s.phil| == |s.w.tasks|
    && (forall r :: r in s.w.sems <==> r == Mutex || (r.Cv? && r.i < |s.phil|))
  }

  /** The semaphore a philosopher is asleep on, if any. */
  function AsleepOn(x: Place, i: nat): Option<SemId> {
    match x
    case TakeWait => Some(Mutex)
    case PutWait => Some(Mutex)
    case InOwn => Some(Cv(i))
    case _ => None
  }

  /** phi_test_sema(k) */
  ghost function Test(s: Table, k: nat): Table
    requires WellFormed(s) && k < |s.phil|
  {
    s.(phil := Tested(s.phil, k), w := if CanEat(s.phil, k) then Up(s.w, Cv(k)) else s.w)
  }

  ghost function Down(s: Table, i: ProcId, r: SemId, got: Place, asleep: Place): Table
    requires WellFormed(s) && i < |s.phil| && r in s.w.sems
  {
    s.(w := DownBegin(s.w, i, r), at := s.at[i := if TakesPermit(s.w, r) then got else asleep])
  }

  ghost predicate CanAct(s: Table, a: Action) {
    && WellFormed(s)
    && match a
       case Act(i) =>
         && i < |s.phil| && s.w.tasks[i].runnable
         && (AsleepOn(s.at[i], i).Some? ==> Enabled(s.w, EvResume(i)))
       case Env(e) =>
         (e.EvKill? || e.EvTimer? || (e.EvSleep? && e.p < |s.at| && (s.at[e.p] == Think || s.at[e.p] == Eat)))
           && Enabled(s.w, e)
  }

  ghost function Step(s: Table, a: Action): Table
    requires CanAct(s, a)
  {
    match a
    case Env(e) => s.(w := Apply(s.w, e))
    case Act(i) =>
      var n := |s.phil|;
      match s.at[i]
      case Think => Down(s, i, Mutex, TakeIn, TakeWait)
      case TakeWait => s.(w := DownEnd(s.w, i), at := s.at[i := TakeIn])
      case TakeIn => Test(s.(phil := s.phil[i := Hungry]), i).(at := s.at[i := TakeUp])
      case TakeUp => s.(w := Up(s.w, Mutex), at := s.at[i := AtOwn])
      case AtOwn => Down(s, i, Cv(i), Eat, InOwn)
      case InOwn => s.(w := DownEnd(s.w, i), at := s.at[i := Eat])
      case Eat => Down(s, i, Mutex, PutIn, PutWait)
      case PutWait => s.(w := DownEnd(s.w, i), at := s.at[i := PutIn])
      case PutIn => Test(s.(phil := s.phil[i := Thinking]), Left(i, n)).(at := s.at[i := PutRight])
      case PutRight => Test(s, Right(i, n)).(at := s.at[i := PutUp])
      case PutUp => s.(w := Up(s.w, Mutex), at := s.at[i := Think])
  }

  /** check_sync: sem_init(&mutex, 1), sem_init(&s[i], 0), everybody thinking. */
  ghost predicate Initial(s: Table) {
    && WellFormed(s)
    && Semaphores.Initial(s.w)
    && (forall r :: r in s.w.sems ==> s.w.sems[r].value == if r == Mutex then 1 else 0)
    && (forall i :: 0 <= i < |s.phil| ==> s.phil[i] == Thinking && s.at[i] == Think)
  }

  // ---------------------------------------------------------------- invariant

  /** Where the right to be in the critical section is. */
  datatype Token = Free | Given(p: ProcId) | Held(p: ProcId)

  predicate Critical(x: Place) {
    x == TakeIn || x == TakeUp || x == PutIn || x == PutRight || x == PutUp
  }

  ghost predicate MutexOk(s: Table, t: Token)
    requires WellFormed(s)
  {
    && s.w.sems[Mutex].value == (if t == Free then 1 else 0)
    && HandedOff(s.w, Mutex) == (if t.Given? then {t.p} else {})
    && (forall i :: 0 <= i < |s.at| ==> (Critical(s.at[i]) <==> t == Held(i)))
    && (t.Held? ==> t.p < |s.at|)
  }

  /** Philosopher `i` has been granted its forks and has not consumed the permit for them. */
  ghost predicate Granted(s: Table, i: nat)
    requires WellFormed(s) && i < |s.phil|
  {
    s.phil[i] == Eating && (s.at[i] == TakeUp || s.at[i] == AtOwn || s.at[i] == InOwn)
  }

  ghost predicate OwnOk(s: Table, i: nat)
    requires WellFormed(s) && i < |s.phil|
  {
    && s.w.sems[Cv(i)].value == (if Granted(s, i) && s.at[i] != InOwn then 1 else 0)
    && HandedOff(s.w, Cv(i)) == (if Granted(s, i) && s.at[i] == InOwn then {i} else {})
  }

  ghost predicate Fits(s: Table, i: nat)
    requires WellFormed(s) && i < |s.phil|
  {
    && s.w.tasks[i].blockedOn == AsleepOn(s.at[i], i)
    && (s.at[i] != Think && s.at[i] != Eat && AsleepOn(s.at[i], i).None? ==> s.w.tasks[i].runnable)
    && match s.at[i]
       case Think => s.phil[i] == Thinking
       case TakeWait => s.phil[i] == Thinking
       case TakeIn => s.phil[i] == Thinking
       case TakeUp => s.phil[i] != Thinking
       case AtOwn => s.phil[i] != Thinking
       case InOwn => s.phil[i] != Thinking
       case Eat => s.phil[i] == Eating
       case PutWait => s.phil[i] == Eating
       case PutIn => s.phil[i] == Eating
       case PutRight => s.phil[i] == Thinking
       case PutUp => s.phil[i] == Thinking
  }

  ghost function Untested(s: Table): seq<bool> {
    seq(|s.at|, i requires 0 <= i < |s.at| => s.at[i] == PutRight)
  }

  ghost predicate AllOk(s: Table)
    requires WellFormed(s)
  {
    forall i {:trigger Fits(s, i)} {:trigger OwnOk(s, i)} :: 0 <= i < |s.phil| ==> Fits(s, i) && OwnOk(s, i)
  }

  ghost predicate Inv(s: Table, t: Token) {
    && WellFormed(s)
    && Semaphores.Valid(s.w)
    && AllOk(s)
    && MutexOk(s, t)
    && NoNeighboursEat(s.phil)
    && HeldBack(s.phil, Untested(s))
  }

  // ---------------------------------------------------------------- every step

  lemma SeatsKept(s: Table, i: ProcId)
    requires CanAct(s, Act(i)) && Fits(s, i) && NoNeighboursEat(s.phil) && HeldBack(s.phil, Untested(s))
    ensures var s' := Step(s, Act(i)); NoNeighboursEat(s'.phil) && HeldBack(s'.phil, Untested(s'))
  {
    var s' := Step(s, Act(i));
    var u, u' := Untested(s), Untested(s');
    match s.at[i]
    case TakeIn =>
      TakeTest(s.phil, u, i);
      assert u' == u;
    case PutIn =>
      PutTestLeft(s.phil, u, i);
      assert u' == u[i := true];
    case PutRight =>
      PutTestRight(s.phil, u, i);
      assert u' == u[i := false];
    case _ => assert u' == u;
  }

  /** take_forks or put_forks calls down(mutex). */
  lemma DownMutexKeeps(s: Table, t: Token, i: ProcId) returns (t': Token)
    requires Inv(s, t) && CanAct(s, Act(i)) && (s.at[i] == Think || s.at[i] == Eat)
    ensures var s' := Step(s, Act(i)); WellFormed(s') && Semaphores.Valid(s'.w) && AllOk(s') && MutexOk(s', t')
  {
    hide NoNeighboursEat, HeldBack, HandedOff, Semaphores.Valid;
    assert Fits(s, i) && OwnOk(s, i);
    DownBeginKeeps(s.w, i, Mutex);
    var s' := Step(s, Act(i));
    t' := if t == Free then Held(i) else t;
    assert WellFormed(s');
    forall j | 0 <= j < |s.phil| ensures Fits(s', j) && OwnOk(s', j) {
      DownMutexOne(s, t, i, j);
    }
  }

  lemma DownMutexOne(s: Table, t: Token, i: ProcId, j: nat)
    requires Inv(s, t) && CanAct(s, Act(i)) && (s.at[i] == Think || s.at[i] == Eat) && j < |s.phil|
    requires WellFormed(Step(s, Act(i)))
    ensures Fits(Step(s, Act(i)), j) && OwnOk(Step(s, Act(i)), j)
  {
    hide NoNeighboursEat, HeldBack, HandedOff, Semaphores.Valid;
    assert Fits(s, i) && OwnOk(s, i) && Fits(s, j) && OwnOk(s, j);
    DownBeginKeeps(s.w, i, Mutex);
  }

  /** take_forks calls down(s[i]). */
  lemma DownOwnKeeps(s: Table, t: Token, i: ProcId)
    requires Inv(s, t) && CanAct(s, Act(i)) && s.at[i] == AtOwn
    ensures var s' := Step(s, Act(i)); WellFormed(s') && Semaphores.Valid(s'.w) && AllOk(s') && MutexOk(s', t)
  {
    hide NoNeighboursEat, HeldBack, HandedOff, Semaphores.Valid;
    assert Fits(s, i) && OwnOk(s, i);
    DownBeginKeeps(s.w, i, Cv(i));
    var s' := Step(s, Act(i));
    assert WellFormed(s');
    forall j | 0 <= j < |s.phil| ensures Fits(s', j) && OwnOk(s', j) {
      DownOwnOne(s, t, i, j);
    }
  }

  lemma DownOwnOne(s: Table, t: Token, i: ProcId, j: nat)
    requires Inv(s, t) && CanAct(s, Act(i)) && s.at[i] == AtOwn && j < |s.phil| && WellFormed(Step(s, Act(i)))
    ensures Fits(Step(s, Act(i)), j) && OwnOk(Step(s, Act(i)), j)
  {
    hide NoNeighboursEat, HeldBack, HandedOff, Semaphores.Valid;
    assert Fits(s, i) && OwnOk(s, i) && Fits(s, j) && OwnOk(s, j);
    DownBeginKeeps(s.w, i, Cv(i));
  }

  /** A philosopher returns from a down that had put it to sleep. */
  lemma ResumeKeeps(s: Table, t: Token, i: ProcId) returns (t': Token)
    requires Inv(s, t) && CanAct(s, Act(i)) && AsleepOn(s.at[i], i).Some?
    ensures var s' := Step(s, Act(i)); WellFormed(s') && Semaphores.Valid(s'.w) && AllOk(s') && MutexOk(s', t')
  {
    hide NoNeighboursEat, HeldBack, HandedOff, Semaphores.Valid;
    assert Fits(s, i) && OwnOk(s, i);
    DownEndKeeps(s.w, i);
    var s' := Step(s, Act(i));
    t' := if s.at[i] == InOwn then t else Held(i);
    assert WellFormed(s');
    forall j | 0 <= j < |s.phil| ensures Fits(s', j) && OwnOk(s', j) {
      ResumeOne(s, t, i, j);
    }
  }

  lemma ResumeOne(s: Table, t: Token, i: ProcId, j: nat)
    requires Inv(s, t) && CanAct(s, Act(i)) && AsleepOn(s.at[i], i).Some? && j < |s.phil| && WellFormed(Step(s, Act(i)))
    ensures Fits(Step(s, Act(i)), j) && OwnOk(Step(s, Act(i)), j)
  {
    hide NoNeighboursEat, HeldBack, HandedOff, Semaphores.Valid;
    assert Fits(s, i) && OwnOk(s, i) && Fits(s, j) && OwnOk(s, j);
    DownEndKeeps(s.w, i);
  }

  /** A philosopher leaves the critical section. */
  lemma ReleaseKeeps(s: Table, t: Token, i: ProcId) returns (t': Token)
    requires Inv(s, t) && CanAct(s, Act(i)) && (s.at[i] == TakeUp || s.at[i] == PutUp)
    ensures var s' := Step(s, Act(i)); WellFormed(s') && Semaphores.Valid(s'.w) && AllOk(s') && MutexOk(s', t')
  {
    hide NoNeighboursEat, HeldBack, HandedOff;
    assert Fits(s, i) && OwnOk(s, i);
    UpKeeps(s.w, Mutex);
    var s' := Step(s, Act(i));
    assert SemOk(s.w, Mutex);
    var q := s.w.sems[Mutex].queue;
    t' := if q == [] then Free else Given(q[0]);
    assert q != [] ==> q[0] in q;
    assert WellFormed(s');
    forall j | 0 <= j < |s.phil| ensures Fits(s', j) && OwnOk(s', j) {
      ReleaseOne(s, t, i, j);
    }
  }

  lemma ReleaseOne(s: Table, t: Token, i: ProcId, j: nat)
    requires Inv(s, t) && CanAct(s, Act(i)) && (s.at[i] == TakeUp || s.at[i] == PutUp) && j < |s.phil|
    requires WellFormed(Step(s, Act(i)))
    ensures Fits(Step(s, Act(i)), j) && OwnOk(Step(s, Act(i)), j)
  {
    hide NoNeighboursEat, HeldBack, HandedOff;
    assert Fits(s, i) && OwnOk(s, i) && Fits(s, j) && OwnOk(s, j);
    UpKeeps(s.w, Mutex);
    assert SemOk(s.w, Mutex);
    var q := s.w.sems[Mutex].queue;
    assert q != [] ==> q[0] in q;
  }

  /** The world after up(s[k]) for a philosopher that holds no permit yet. */
  ghost predicate Raised(s: Table, w': World, k: nat)
    requires WellFormed(s) && k < |s.phil|
  {
    && Semaphores.Valid(w')
    && (forall r :: r in w'.sems <==> r in s.w.sems)
    && |w'.tasks| == |s.w.tasks|
    && (forall j :: 0 <= j < |s.phil| ==>
          w'.tasks[j].blockedOn == s.w.tasks[j].blockedOn && (s.w.tasks[j].runnable ==> w'.tasks[j].runnable))
    && (forall r :: r in s.w.sems && r != Cv(k) ==> w'.sems[r] == s.w.sems[r] && HandedOff(w', r) == HandedOff(s.w, r))
    && w'.sems[Cv(k)].value == (if s.at[k] == InOwn then 0 else 1)
    && HandedOff(w', Cv(k)) == (if s.at[k] == InOwn then {k} else {})
  }

  lemma RaiseOwn(s: Table, k: nat)
    requires WellFormed(s) && Semaphores.Valid(s.w) && AllOk(s) && k < |s.phil| && !Granted(s, k)
    ensures Raised(s, Up(s.w, Cv(k)), k)
  {
    UpKeeps(s.w, Cv(k));
    assert Fits(s, k) && OwnOk(s, k);
    assert SemOk(s.w, Cv(k)) && TaskOk(s.w, k);
    var q := s.w.sems[Cv(k)].queue;
    if q != [] {
      assert q[0] in q;
      assert Fits(s, q[0]);
    } else {
      assert s.at[k] == InOwn ==> k in HandedOff(s.w, Cv(k));
    }
  }

  /** The tested philosopher, if it may eat, has no permit; it is in the critical section only if it tests itself. */
  lemma Testee(s: Table, t: Token, i: ProcId, phil: seq<Phil>, k: nat)
    requires Inv(s, t) && t == Held(i) && i < |s.phil| && k < |s.phil| == |phil|
    requires (k == i && s.at[i] == TakeIn) || (k != i && phil[k] == s.phil[k])
    requires CanEat(phil, k)
    ensures !Granted(s, k) && (k != i ==> s.at[k] == AtOwn || s.at[k] == InOwn)
  {
    assert Fits(s, k);
  }

  /** The seat states after a test, and how the tester moves on. */
  ghost predicate AfterTest(s: Table, s': Table, i: ProcId, phil: seq<Phil>, k: nat)
    requires WellFormed(s) && WellFormed(s') && |s'.phil| == |s.phil| == |phil| && i < |s.phil| && k < |s.phil|
  {
    && s'.phil == Tested(phil, k)
    && (forall j :: 0 <= j < |s.phil| && j != i ==> phil[j] == s.phil[j] && s'.at[j] == s.at[j])
    && s'.w == (if CanEat(phil, k) then Up(s.w, Cv(k)) else s.w)
    && match s.at[i]
       case TakeIn => k == i && phil[i] == Hungry && s'.at[i] == TakeUp
       case PutIn => k != i && phil[i] == Thinking && s'.at[i] == PutRight
       case PutRight => k != i && phil[i] == Thinking && s'.at[i] == PutUp
       case _ => false
  }

  lemma TestFits(s: Table, s': Table, t: Token, i: ProcId, phil: seq<Phil>, k: nat)
    requires WellFormed(s) && WellFormed(s') && AllOk(s) && MutexOk(s, t) && t == Held(i)
    requires |s'.phil| == |s.phil| == |phil| && i < |s.phil| && k < |s.phil| && AfterTest(s, s', i, phil, k)
    requires CanEat(phil, k) ==>
      Raised(s, s'.w, k) && !Granted(s, k) && (k != i ==> s.at[k] == AtOwn || s.at[k] == InOwn)
    ensures AllOk(s') && MutexOk(s', t)
  {
    forall j | 0 <= j < |s.phil| ensures Fits(s', j) && OwnOk(s', j) {
      assert Fits(s, j) && OwnOk(s, j);
    }
  }

  /** phi_test on a philosopher that is waiting for its forks, or on oneself in take_forks. */
  lemma TestKeeps(s: Table, t: Token, i: ProcId)
    requires Inv(s, t) && CanAct(s, Act(i)) && (s.at[i] == TakeIn || s.at[i] == PutIn || s.at[i] == PutRight)
    ensures var s' := Step(s, Act(i)); WellFormed(s') && Semaphores.Valid(s'.w) && AllOk(s') && MutexOk(s', t)
  {
    assert Fits(s, i);
    var n := |s.phil|;
    Neighbours(i, n);
    var k := if s.at[i] == TakeIn then i else if s.at[i] == PutIn then Left(i, n) else Right(i, n);
    var phil := if s.at[i] == TakeIn then s.phil[i := Hungry]
      else if s.at[i] == PutIn then s.phil[i := Thinking] else s.phil;
    var s' := Step(s, Act(i));
    if CanEat(phil, k) {
      Testee(s, t, i, phil, k);
      RaiseOwn(s, k);
    }
    assert WellFormed(s') && AfterTest(s, s', i, phil, k);
    TestFits(s, s', t, i, phil, k);
  }

  lemma EnvironmentStep(s: Table, t: Token, e: Event)
    requires Inv(s, t) && CanAct(s, Env(e))
    ensures Inv(Step(s, Env(e)), t)
  {
    EnvironmentKeeps(s.w, e);
    var s' := Step(s, Env(e));
    assert WellFormed(s') && Untested(s') == Untested(s);
    forall j | 0 <= j < |s.phil| ensures Fits(s', j) && OwnOk(s', j) {
      assert Fits(s, j) && OwnOk(s, j);
    }
  }

  lemma StepKeeps(s: Table, t: Token, a: Action) returns (t': Token)
    requires Inv(s, t) && CanAct(s, a)
    ensures Inv(Step(s, a), t')
  {
    match a
    case Env(e) =>
      EnvironmentStep(s, t, e);
      t' := t;
    case Act(i) =>
      assert Fits(s, i);
      SeatsKept(s, i);
      match s.at[i] {
        case Think => t' := DownMutexKeeps(s, t, i);
        case Eat => t' := DownMutexKeeps(s, t, i);
        case AtOwn => DownOwnKeeps(s, t, i); t' := t;
        case TakeWait => t' := ResumeKeeps(s, t, i);
        case PutWait => t' := ResumeKeeps(s, t, i);
        case InOwn => t' := ResumeKeeps(s, t, i);
        case TakeUp => t' := ReleaseKeeps(s, t, i);
        case PutUp => t' := ReleaseKeeps(s, t, i);
        case _ => TestKeeps(s, t, i); t' := t;
      }
  }

  // ---------------------------------------------------------------- theorems over all runs

  ghost predicate IsRun(s: Table, acts: seq<Action>)
    decreases |acts|
  {
    acts == [] || (CanAct(s, acts[0]) && IsRun(Step(s, acts[0]), acts[1..]))
  }

  ghost function Run(s: Table, acts: seq<Action>): Table
    requires IsRun(s, acts)
    decreases |acts|
  {
    if acts == [] then s else Run(Step(s, acts[0]), acts[1..])
  }

  lemma InitialHolds(s: Table)
    requires Initial(s)
    ensures Inv(s, Free)
  {
    InitialIsValid(s.w);
  }

  lemma {:induction false} RunKeeps(s: Table, t: Token, acts: seq<Action>) returns (t': Token)
    requires Inv(s, t) && IsRun(s, acts)
    ensures Inv(Run(s, acts), t')
    decreases |acts|
  {
    if acts == [] {
      t' := t;
    } else {
      t' := StepKeeps(s, t, acts[0]);
      t' := RunKeeps(Step(s, acts[0]), t', acts[1..]);
    }
  }

  /** In every reachable state no two neighbours eat. */
  lemma NeighboursNeverEatTogether(s: Table, acts: seq<Action>)
    requires Initial(s) && IsRun(s, acts)
    ensures NoNeighboursEat(Run(s, acts).phil)
  {
    InitialHolds(s);
    var t := RunKeeps(s, Free, acts);
  }

  /** A philosopher that has returned from take_forks and not yet called put_forks has state EATING. */
  lemma TakeForksReturnsEating(s: Table, acts: seq<Action>, i: nat)
    requires Initial(s) && IsRun(s, acts)
    requires i < |Run(s, acts).phil| == |Run(s, acts).at| && Run(s, acts).at[i] == Eat
    ensures Run(s, acts).phil[i] == Eating
  {
    InitialHolds(s);
    var t := RunKeeps(s, Free, acts);
    assert Fits(Run(s, acts), i);
  }

  /** Whenever the mutex is free, every hungry philosopher has an eating neighbour: no turn was missed. */
  lemma NoMissedTurn(s: Table, acts: seq<Action>, h: nat)
    requires Initial(s) && IsRun(s, acts)
    requires var z := Run(s, acts);
      Mutex in z.w.sems && z.w.sems[Mutex].value > 0 && h < |z.phil| && z.phil[h] == Hungry
    ensures NeighbourEats(Run(s, acts).phil, h)
  {
    InitialHolds(s);
    var t := RunKeeps(s, Free, acts);
  }

  /**
    Exactly the philosophers that were granted their forks have a permit waiting: none is lost, none is
    given twice, and no philosopher can pass down(s[i]) on a permit left over from an earlier meal.
  */
  lemma PermitIffGranted(s: Table, acts: seq<Action>, i: nat)
    requires Initial(s) && IsRun(s, acts)
    requires var z := Run(s, acts); WellFormed(z) && i < |z.phil|
    ensures var z := Run(s, acts); Permits(z.w, Cv(i)) == if Granted(z, i) then 1 else 0
  {
    InitialHolds(s);
    var t := RunKeeps(s, Free, acts);
    assert OwnOk(Run(s, acts), i);
  }

  lemma StuckIsHungry(s: Table, i: nat)
    requires Inv(s, Free) && i < |s.phil| && !NotStuck(s.w, i)
    ensures s.phil[i] == Hungry
  {
    assert Fits(s, i) && OwnOk(s, i) && TaskOk(s.w, i) && SemOk(s.w, Mutex);
    assert s.w.sems[Mutex].queue == [];
    assert s.at[i] == InOwn;
    assert i !in HandedOff(s.w, Cv(i));
  }

  /** Deadlock freedom: in every reachable state some philosopher is not blocked on a semaphore. */
  lemma NeverDeadlocked(s: Table, acts: seq<Action>)
    requires Initial(s) && IsRun(s, acts)
    ensures exists i :: NotStuck(Run(s, acts).w, i)
  {
    InitialHolds(s);
    var z := Run(s, acts);
    var t := RunKeeps(s, Free, acts);
    if t.Held? || t.Given? {
      assert t.Given? ==> t.p in HandedOff(z.w, Mutex);
      assert Fits(z, t.p);
      assert NotStuck(z.w, t.p);
    } else {
      var i := SomebodyNotHungry(z.phil, Untested(z));
      if !NotStuck(z.w, i) {
        StuckIsHungry(z, i);
      }
      assert NotStuck(z.w, i);
    }
  }
}
