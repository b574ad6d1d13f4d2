/**
  The Hoare monitor of kern/sync/monitor.c, built from hand-off semaphores: any number of processes,
  any number of condition variables, and clients that enter, signal, wait and leave in any order.

  A step of the machine is one semaphore operation of one process together with the code around it,
  or an event of the environment.  The kernel itself only switches at schedule(), which allows fewer
  interleavings than this.
*/
module Monitor {
  import opened Options
  import opened Semaphores

  /** Where a process is in the monitor code.  `In(s)` is "inside down(s), asleep or just woken". */
  datatype Pc =
    | Outside
    | Active
    | AtNext             // signalled, about to call down(next)
    | AtCv(c: nat)       // released the monitor in cond_wait, about to call down(cv[c].sem)
    | In(s: SemId)

  datatype State = State(w: World, nextCount: int, count: seq<int>, pc: seq<Pc>)

  /** One monitor operation; `p` is the process that executes it. */
  datatype Label =
    | Enter              // down(mutex) at the top of a monitor routine
    | SignalNobody(c: nat)
    | SignalUp(c: nat)   // next_count++, up(cv.sem)
    | SignalPark         // down(next)
    | WaitRelease(c: nat) // count++, up(next) or up(mutex)
    | WaitPark           // down(cv.sem)
    | Resume             // return from a down that had to sleep
    | Leave              // up(next) or up(mutex) at the bottom of a routine
    | Stutter            // code that touches no monitor variable
    | Environment(e: Event)

  ghost predicate WellFormed(m: State) {
    && |m.pc| == |m.w.tasks|
    && forall s :: s in m.w.sems <==> (s.Cv? ==> s.i < |m.count|)
  }

  /** The semaphore that a departing process raises: a parked signaller goes before newcomers. */
  function ReleaseTarget(m: State): SemId {
    if m.nextCount > 0 then Next else Mutex
  }

  /** What happens to the counters when a down(s) completes. */
  function Acquired(m: State, s: SemId): State
    requires s.Cv? ==> s.i < |m.count|
  {
    match s
    case Mutex => m
    case Next => m.(nextCount := m.nextCount - 1)
    case Cv(c) => m.(count := m.count[c := m.count[c] - 1])
  }

  function DownStep(m: State, p: ProcId, s: SemId): State
    requires s in m.w.sems && p < |m.w.tasks| && p < |m.pc| && (s.Cv? ==> s.i < |m.count|)
  {
    var w' := DownBegin(m.w, p, s);
    if TakesPermit(m.w, s) then Acquired(m.(w := w', pc := m.pc[p := Active]), s)
    else m.(w := w', pc := m.pc[p := In(s)])
  }

  ghost predicate CanStep(m: State, p: ProcId, l: Label) {
    && WellFormed(m)
    && p < |m.pc|
    && (!l.Environment? ==> m.w.tasks[p].runnable)
    && match l
       case Enter => m.pc[p] == Outside
       case SignalNobody(c) => m.pc[p] == Active && c < |m.count| && m.count[c] <= 0
       case SignalUp(c) => m.pc[p] == Active && c < |m.count| && m.count[c] > 0
       case SignalPark => m.pc[p] == AtNext
       case WaitRelease(c) => m.pc[p] == Active && c < |m.count|
       case WaitPark => m.pc[p].AtCv? && m.pc[p].c < |m.count|
       case Resume => m.pc[p].In? && m.w.tasks[p].blockedOn == Some(m.pc[p].s) && m.pc[p].s in m.w.sems
       case Leave => m.pc[p] == Active
       case Stutter => true
       case Environment(e) =>
         (e.EvKill? || e.EvTimer? || (e.EvSleep? && e.p < |m.pc| && m.pc[e.p] == Outside)) && Enabled(m.w, e)
  }

  ghost function Step(m: State, p: ProcId, l: Label): State
    requires CanStep(m, p, l)
  {
    match l
    case Enter => DownStep(m, p, Mutex)
    case SignalNobody(_) => m
    case SignalUp(c) => m.(nextCount := m.nextCount + 1, w := Up(m.w, Cv(c)), pc := m.pc[p := AtNext])
    case SignalPark => DownStep(m, p, Next)
    case WaitRelease(c) =>
      m.(count := m.count[c := m.count[c] + 1], w := Up(m.w, ReleaseTarget(m)), pc := m.pc[p := AtCv(c)])
    case WaitPark => DownStep(m, p, Cv(m.pc[p].c))
    case Resume => Acquired(m.(w := DownEnd(m.w, p), pc := m.pc[p := Active]), m.pc[p].s)
    case Leave => m.(w := Up(m.w, ReleaseTarget(m)), pc := m.pc[p := Outside])
    case Stutter => m
    case Environment(e) => m.(w := Apply(m.w, e))
  }

  /** monitor_init, with `n` processes outside. */
  ghost predicate Initial(m: State) {
    && WellFormed(m)
    && m.nextCount == 0
    && (forall c :: 0 <= c < |m.count| ==> m.count[c] == 0)
    && (forall p :: 0 <= p < |m.pc| ==> m.pc[p] == Outside)
    && Semaphores.Initial(m.w)
    && (forall s :: s in m.w.sems ==> m.w.sems[s].value == if s == Mutex then 1 else 0)
  }

  // ---------------------------------------------------------------- the token

  /** Where the right to be active is: stored in a semaphore, handed to a sleeper, or held. */
  datatype Token = Stored(s: SemId) | Given(p: ProcId, s: SemId) | Held(p: ProcId)

  predicate StandsAt(x: Pc, s: SemId) {
    x == In(s) || (s == Next && x == AtNext) || (s.Cv? && x == AtCv(s.i))
  }

  /** How many processes are about to call down(s) or inside it. */
  ghost function Standing(pcs: seq<Pc>, s: SemId): nat {
    if pcs == [] then 0
    else Standing(pcs[..|pcs| - 1], s) + if StandsAt(pcs[|pcs| - 1], s) then 1 else 0
  }

  lemma {:induction false} StandingUpdate(pcs: seq<Pc>, p: ProcId, x: Pc, s: SemId)
    requires p < |pcs|
    ensures Standing(pcs[p := x], s) == Standing(pcs, s)
      + (if StandsAt(x, s) then 1 else 0) - (if StandsAt(pcs[p], s) then 1 else 0)
  {
    var n := |pcs| - 1;
    if p == n {
      assert pcs[p := x][..n] == pcs[..n];
    } else {
      assert pcs[p := x][..n] == pcs[..n][p := x];
      StandingUpdate(pcs[..n], p, x, s);
    }
  }

  lemma {:induction false} SomebodyStands(pcs: seq<Pc>, s: SemId) returns (p: ProcId)
    requires Standing(pcs, s) > 0
    ensures p < |pcs| && StandsAt(pcs[p], s)
  {
    var n := |pcs| - 1;
    if StandsAt(pcs[n], s) {
      p := n;
    } else {
      p := SomebodyStands(pcs[..n], s);
    }
  }

  lemma {:induction false} NobodyStands(pcs: seq<Pc>, s: SemId)
    requires forall p :: 0 <= p < |pcs| ==> !StandsAt(pcs[p], s)
    ensures Standing(pcs, s) == 0
  {
    if pcs != [] {
      NobodyStands(pcs[..|pcs| - 1], s);
    }
  }

  ghost predicate PcOk(m: State, p: ProcId)
    requires |m.pc| == |m.w.tasks| && p < |m.pc|
  {
    && (m.w.tasks[p].blockedOn == if m.pc[p].In? then Some(m.pc[p].s) else None)
    && (m.pc[p].In? ==> m.pc[p].s in m.w.sems)
    && (m.pc[p].AtCv? ==> m.pc[p].c < |m.count|)
    && (m.pc[p] != Outside && !m.pc[p].In? ==> m.w.tasks[p].runnable)
  }

  ghost predicate PcsOk(m: State)
    requires |m.pc| == |m.w.tasks|
  {
    forall p :: 0 <= p < |m.pc| ==> PcOk(m, p)
  }

  /** The only permits in the world are the one `t` speaks of. */
  ghost predicate OnlyPermit(w: World, t: Token) {
    && (forall s :: s in w.sems ==> w.sems[s].value == if t == Stored(s) then 1 else 0)
    && (forall s :: s in w.sems ==> HandedOff(w, s) == if t.Given? && t.s == s then {t.p} else {})
  }

  ghost predicate OnlyHolderActive(pcs: seq<Pc>, t: Token) {
    forall p :: 0 <= p < |pcs| ==> (pcs[p] == Active <==> t == Held(p))
  }

  ghost predicate InRange(m: State, t: Token) {
    && (t.Stored? || t.Given? ==> t.s in m.w.sems)
    && (t.Given? || t.Held? ==> t.p < |m.pc|)
  }

  /** The counters count. */
  ghost predicate CountersExact(m: State) {
    && m.nextCount == Standing(m.pc, Next)
    && (forall c :: 0 <= c < |m.count| ==> m.count[c] == Standing(m.pc, Cv(c)))
  }

  /** A token on its way through `next` or a condition variable has a taker, one in `mutex` means nobody is parked. */
  ghost predicate HasTaker(m: State, t: Token) {
    t.Stored? || t.Given? ==>
      match t.s
      case Mutex => m.nextCount == 0
      case Next => m.nextCount > 0
      case Cv(c) => m.nextCount > 0 && c < |m.count| && m.count[c] > 0
  }

  /** Exactly one token exists, it is where `t` says, and the bookkeeping around it is right. */
  ghost predicate Inv(m: State, t: Token) {
    && WellFormed(m)
    && Semaphores.Valid(m.w)
    && PcsOk(m)
    && OnlyPermit(m.w, t)
    && OnlyHolderActive(m.pc, t)
    && InRange(m, t)
    && CountersExact(m)
    && HasTaker(m, t)
  }

  // ---------------------------------------------------------------- every step moves the token, and keeps the rest

  /** Entry point of the three downs of the monitor. */
  ghost predicate AboutToDown(m: State, p: ProcId, s: SemId)
    requires p < |m.pc|
  {
    match s
    case Mutex => m.pc[p] == Outside
    case Next => m.pc[p] == AtNext
    case Cv(c) => m.pc[p] == AtCv(c)
  }

  /** `m'` differs from `m` in that process `p` has moved to `x`. */
  ghost predicate MovesTo(m: State, m': State, p: ProcId, x: Pc) {
    && p < |m.pc| == |m.w.tasks| == |m'.w.tasks|
    && m'.pc == m.pc[p := x]
    && |m'.count| == |m.count|
    && (forall s :: s in m'.w.sems <==> s in m.w.sems)
    && (forall q :: 0 <= q < |m.pc| && q != p ==>
          m'.w.tasks[q].blockedOn == m.w.tasks[q].blockedOn && (m.w.tasks[q].runnable ==> m'.w.tasks[q].runnable))
  }

  lemma PcsFollow(m: State, m': State, p: ProcId, x: Pc)
    requires MovesTo(m, m', p, x) && PcsOk(m) && PcOk(m', p)
    ensures PcsOk(m')
  {
    forall q | 0 <= q < |m'.pc| ensures PcOk(m', q) {
      assert PcOk(m, q);
    }
  }

  function Delta(x: Pc, y: Pc, s: SemId): int {
    (if StandsAt(y, s) then 1 else 0) - (if StandsAt(x, s) then 1 else 0)
  }

  lemma CountersFollow(m: State, m': State, p: ProcId, x: Pc)
    requires MovesTo(m, m', p, x) && CountersExact(m)
    requires m'.nextCount == m.nextCount + Delta(m.pc[p], x, Next)
    requires forall c :: 0 <= c < |m.count| ==> m'.count[c] == m.count[c] + Delta(m.pc[p], x, Cv(c))
    ensures CountersExact(m')
  {
    StandingUpdate(m.pc, p, x, Next);
    forall c | 0 <= c < |m.count| ensures m'.count[c] == Standing(m'.pc, Cv(c)) {
      StandingUpdate(m.pc, p, x, Cv(c));
    }
  }

  ghost predicate CanDown(m: State, t: Token, p: ProcId, s: SemId) {
    Inv(m, t) && p < |m.pc| && m.w.tasks[p].runnable && AboutToDown(m, p, s) && s in m.w.sems && (s.Cv? ==>
      s.i < |m.count|)
  }

  lemma DownTakes(m: State, t: Token, p: ProcId, s: SemId)
    requires CanDown(m, t, p, s) && t == Stored(s)
    ensures Inv(DownStep(m, p, s), Held(p))
  {
    hide CountersExact, Standing, Semaphores.Valid, HandedOff;
    var m' := DownStep(m, p, s);
    assert PcOk(m, p);
    DownBeginKeeps(m.w, p, s);
    PcsFollow(m, m', p, Active);
    CountersFollow(m, m', p, Active);
  }

  lemma EnqueueKeepsPermit(w: World, t: Token, p: ProcId, s: SemId)
    requires Semaphores.Valid(w) && Enabled(w, EvDown(p, s)) && !TakesPermit(w, s) && OnlyPermit(w, t)
    ensures OnlyPermit(DownBegin(w, p, s), t) && Semaphores.Valid(DownBegin(w, p, s))
  {
    DownBeginKeeps(w, p, s);
  }

  lemma DownSleeps(m: State, t: Token, p: ProcId, s: SemId)
    requires CanDown(m, t, p, s) && t != Stored(s)
    ensures Inv(DownStep(m, p, s), t)
  {
    hide CountersExact, PcsOk, OnlyPermit;
    var m' := DownStep(m, p, s);
    SleepShape(m, t, p, s);
    PcsFollow(m, m', p, In(s));
    CountersFollow(m, m', p, In(s));
  }

  lemma SleepShape(m: State, t: Token, p: ProcId, s: SemId)
    requires CanDown(m, t, p, s) && t != Stored(s)
    ensures var m' := DownStep(m, p, s);
      m' == m.(w := DownBegin(m.w, p, s), pc := m.pc[p := In(s)]) && WellFormed(m') && MovesTo(m, m', p, In(s))
        && PcOk(m', p)
      && Semaphores.Valid(m'.w) && OnlyPermit(m'.w, t)
  {
    assert PcOk(m, p);
    EnqueueKeepsPermit(m.w, t, p, s);
  }

  lemma DownKeeps(m: State, t: Token, p: ProcId, s: SemId) returns (t': Token)
    requires CanDown(m, t, p, s)
    ensures Inv(DownStep(m, p, s), t')
    ensures t' == if t == Stored(s) then Held(p) else t
  {
    if t == Stored(s) {
      DownTakes(m, t, p, s);
      t' := Held(p);
    } else {
      DownSleeps(m, t, p, s);
      t' := t;
    }
  }

  /** What an up(s) by the holder of the token does to the world. */
  ghost predicate HandedOver(m: State, w': World, s: SemId, t': Token)
    requires s in m.w.sems && |m.pc| == |m.w.tasks|
  {
    && t' == (if m.w.sems[s].queue == [] then Stored(s) else Given(m.w.sems[s].queue[0], s))
    && Semaphores.Valid(w')
    && (forall r :: r in w'.sems <==> r in m.w.sems)
    && |w'.tasks| == |m.w.tasks|
    && OnlyPermit(w', t')
    && (t'.Given? ==> t'.p < |m.pc| && m.pc[t'.p] == In(s))
    && (forall q :: 0 <= q < |m.pc| ==>
          w'.tasks[q].blockedOn == m.w.tasks[q].blockedOn && (m.w.tasks[q].runnable ==> w'.tasks[q].runnable))
  }

  /** The holder gives the token away through semaphore `s`. */
  lemma HandOver(m: State, t: Token, p: ProcId, s: SemId) returns (t': Token)
    requires Inv(m, t) && t == Held(p) && s in m.w.sems
    ensures HandedOver(m, Up(m.w, s), s, t')
  {
    hide CountersExact, Standing, HasTaker, HandedOff;
    UpKeeps(m.w, s);
    assert SemOk(m.w, s);
    if m.w.sems[s].queue == [] {
      t' := Stored(s);
    } else {
      var q := m.w.sems[s].queue[0];
      assert q in m.w.sems[s].queue;
      assert PcOk(m, q) && TaskOk(m.w, q);
      t' := Given(q, s);
    }
  }

  /** The common end of signal, wait and leave: the holder moves to `x` and the token goes through `s`. */
  lemma HandOverKeeps(m: State, m': State, t: Token, p: ProcId, x: Pc, s: SemId) returns (t': Token)
    requires Inv(m, t) && t == Held(p) && s in m.w.sems && m.w.tasks[p].runnable
    requires m'.w == Up(m.w, s) && m'.pc == m.pc[p := x] && |m'.count| == |m.count|
    requires x == Outside || x == AtNext || (x.AtCv? && x.c < |m.count|)
    requires m'.nextCount == m.nextCount + Delta(Active, x, Next)
    requires forall c :: 0 <= c < |m.count| ==> m'.count[c] == m.count[c] + Delta(Active, x, Cv(c))
    requires HasTaker(m', Stored(s))
    ensures Inv(m', t')
    ensures HandedOver(m, m'.w, s, t')
  {
    t' := HandOver(m, t, p, s);
    assert PcOk(m, p);
    assert WellFormed(m');
    PcsFollow(m, m', p, x);
    CountersFollow(m, m', p, x);
  }

  lemma ResumedPermits(m: State, t: Token, p: ProcId, s: SemId)
    requires Semaphores.Valid(m.w) && OnlyPermit(m.w, t) && Enabled(m.w, EvResume(p))
    requires m.w.tasks[p].blockedOn == Some(s)
    ensures t == Given(p, s) && OnlyPermit(DownEnd(m.w, p), Held(p))
  {
    hide HandedOff, Semaphores.Valid;
    DownEndKeeps(m.w, p);
    var w' := DownEnd(m.w, p);
    assert p in HandedOff(m.w, s);
    forall r | r in w'.sems ensures HandedOff(w', r) == {} {
      assert HandedOff(m.w, r) == if r == s then {p} else {};
    }
  }

  lemma ResumeKeeps(m: State, t: Token, p: ProcId)
    requires Inv(m, t) && CanStep(m, p, Resume)
    ensures t == Given(p, m.pc[p].s)
    ensures Inv(Step(m, p, Resume), Held(p))
  {
    hide CountersExact, Standing, Semaphores.Valid, PcsOk, HandedOff, OnlyPermit;
    var s := m.pc[p].s;
    var m' := Step(m, p, Resume);
    DownEndKeeps(m.w, p);
    ResumedPermits(m, t, p, s);
    PcsFollow(m, m', p, Active);
    CountersFollow(m, m', p, Active);
  }

  lemma EnvironmentKeepsToken(m: State, t: Token, p: ProcId, e: Event)
    requires Inv(m, t) && CanStep(m, p, Environment(e))
    ensures Inv(Step(m, p, Environment(e)), t)
  {
    var m' := Step(m, p, Environment(e));
    EnvironmentKeeps(m.w, e);
    forall q | 0 <= q < |m'.pc| ensures PcOk(m', q) {
      assert PcOk(m, q);
    }
  }

  /** Where the token goes in one step; `Moved` is the whole protocol seen from the token. */
  ghost predicate Moved(m: State, p: ProcId, l: Label, t: Token, t': Token)
    requires CanStep(m, p, l)
  {
    match l
    case Enter => t' == if t == Stored(Mutex) then Held(p) else t
    case SignalPark => t' == if t == Stored(Next) then Held(p) else t
    case WaitPark => t' == if t == Stored(Cv(m.pc[p].c)) then Held(p) else t
    case SignalUp(c) =>
      t == Held(p) && !t'.Held? && t'.s == Cv(c) && (t'.Given? ==> t'.p < |m.pc| && m.pc[t'.p] == In(Cv(c)))
    case WaitRelease(_) => t == Held(p) && !t'.Held? && t'.s == ReleaseTarget(m)
    case Leave => t == Held(p) && !t'.Held? && t'.s == ReleaseTarget(m)
    case Resume => t == Given(p, m.pc[p].s) && t' == Held(p)
    case _ => t' == t
  }

  /** The steps that give the monitor away. */
  lemma UpMovesToken(m: State, t: Token, p: ProcId, l: Label) returns (t': Token)
    requires Inv(m, t) && CanStep(m, p, l) && (l.SignalUp? || l.WaitRelease? || l.Leave?)
    ensures Inv(Step(m, p, l), t')
    ensures Moved(m, p, l, t, t')
  {
    hide Up, Semaphores.Valid, PcsOk, OnlyPermit, HandedOff, Standing;
    match l
    case SignalUp(c) => t' := HandOverKeeps(m, Step(m, p, l), t, p, AtNext, Cv(c));
    case WaitRelease(c) => t' := HandOverKeeps(m, Step(m, p, l), t, p, AtCv(c), ReleaseTarget(m));
    case Leave => t' := HandOverKeeps(m, Step(m, p, l), t, p, Outside, ReleaseTarget(m));
  }

  lemma StepMovesToken(m: State, t: Token, p: ProcId, l: Label) returns (t': Token)
    requires Inv(m, t) && CanStep(m, p, l)
    ensures Inv(Step(m, p, l), t')
    ensures Moved(m, p, l, t, t')
  {
    match l
    case Enter => t' := DownKeeps(m, t, p, Mutex);
    case SignalPark => t' := DownKeeps(m, t, p, Next);
    case WaitPark => t' := DownKeeps(m, t, p, Cv(m.pc[p].c));
    case SignalUp(c) => t' := UpMovesToken(m, t, p, l);
    case WaitRelease(c) => t' := UpMovesToken(m, t, p, l);
    case Leave => t' := UpMovesToken(m, t, p, l);
    case Resume => ResumeKeeps(m, t, p); t' := Held(p);
    case Environment(e) => EnvironmentKeepsToken(m, t, p, e); t' := t;
    case _ => t' := t;
  }

  /** Only the process that executes changes its place. */
  lemma StepMovesOnlyOne(m: State, p: ProcId, l: Label)
    requires CanStep(m, p, l)
    ensures var m' := Step(m, p, l);
      && |m'.pc| == |m.pc| && |m'.count| == |m.count|
      && (forall q :: 0 <= q < |m.pc| && q != p ==> m'.pc[q] == m.pc[q])
      && match l
         case Enter => m'.pc[p] == if TakesPermit(m.w, Mutex) then Active else In(Mutex)
         case SignalUp(_) => m'.pc[p] == AtNext
         case SignalPark => m'.pc[p] == if TakesPermit(m.w, Next) then Active else In(Next)
         case WaitRelease(c) => m'.pc[p] == AtCv(c)
         case WaitPark => m'.pc[p] == if TakesPermit(m.w, Cv(m.pc[p].c)) then Active else In(Cv(m.pc[p].c))
         case Resume => m'.pc[p] == Active
         case Leave => m'.pc[p] == Outside
         case _ => m'.pc == m.pc
  {
  }

  lemma {:induction false} StandingCounts(pcs: seq<Pc>, p: ProcId, s: SemId)
    requires p < |pcs| && StandsAt(pcs[p], s)
    ensures Standing(pcs, s) > 0
  {
    if p < |pcs| - 1 {
      StandingCounts(pcs[..|pcs| - 1], p, s);
    }
  }

  // ---------------------------------------------------------------- theorems over all runs

  datatype Move = Move(p: ProcId, l: Label)

  ghost predicate IsRun(m: State, ms: seq<Move>)
    decreases |ms|
  {
    ms == [] || (CanStep(m, ms[0].p, ms[0].l) && IsRun(Step(m, ms[0].p, ms[0].l), ms[1..]))
  }

  ghost function Run(m: State, ms: seq<Move>): State
    requires IsRun(m, ms)
    decreases |ms|
  {
    if ms == [] then m else Run(Step(m, ms[0].p, ms[0].l), ms[1..])
  }

  lemma InitialHasToken(m: State)
    requires Initial(m)
    ensures Inv(m, Stored(Mutex))
  {
    InitialIsValid(m.w);
    NobodyStands(m.pc, Next);
    forall c | 0 <= c < |m.count| ensures m.count[c] == Standing(m.pc, Cv(c)) {
      NobodyStands(m.pc, Cv(c));
    }
  }

  lemma {:induction false} RunKeepsToken(m: State, t: Token, ms: seq<Move>) returns (t': Token)
    requires Inv(m, t) && IsRun(m, ms)
    ensures Inv(Run(m, ms), t')
    decreases |ms|
  {
    if ms == [] {
      t' := t;
    } else {
      t' := StepMovesToken(m, t, ms[0].p, ms[0].l);
      t' := RunKeepsToken(Step(m, ms[0].p, ms[0].l), t', ms[1..]);
    }
  }

  ghost function ActiveSet(m: State): set<ProcId> {
    set p | 0 <= p < |m.pc| && m.pc[p] == Active
  }

  ghost function CondvarPermits(m: State, k: nat): int
    requires WellFormed(m) && k <= |m.count|
  {
    if k == 0 then 0 else CondvarPermits(m, k - 1) + Permits(m.w, Cv(k - 1))
  }

  /** Permits stored in the mutex, in `next` and in all condition variables, wakeups in flight, and active processes. */
  ghost function TotalTokens(m: State): int
    requires WellFormed(m)
  {
    Permits(m.w, Mutex) + Permits(m.w, Next) + CondvarPermits(m, |m.count|) + |ActiveSet(m)|
  }

  lemma {:induction false} CondvarTotal(m: State, t: Token, k: nat)
    requires Inv(m, t) && k <= |m.count|
    ensures CondvarPermits(m, k) == if !t.Held? && t.s.Cv? && t.s.i < k then 1 else 0
  {
    if k > 0 {
      CondvarTotal(m, t, k - 1);
      PermitsOfToken(m, t, Cv(k - 1));
    }
  }

  lemma PermitsOfToken(m: State, t: Token, s: SemId)
    requires Inv(m, t) && s in m.w.sems
    ensures Permits(m.w, s) == if !t.Held? && t.s == s then 1 else 0
  {
    assert HandedOff(m.w, s) == if t.Given? && t.s == s then {t.p} else {};
  }

  /** In every interleaving of any clients: the tokens total exactly one, so at most one process is active. */
  lemma OneTokenAlways(m: State, ms: seq<Move>)
    requires Initial(m) && IsRun(m, ms)
    ensures WellFormed(Run(m, ms)) && TotalTokens(Run(m, ms)) == 1
    ensures forall p, q :: p in ActiveSet(Run(m, ms)) && q in ActiveSet(Run(m, ms)) ==> p == q
  {
    hide PcsOk, OnlyPermit, CountersExact, HasTaker, Semaphores.Valid, Initial, Run, IsRun;
    InitialHasToken(m);
    var z := Run(m, ms);
    var t := RunKeepsToken(m, Stored(Mutex), ms);
    PermitsOfToken(z, t, Mutex);
    PermitsOfToken(z, t, Next);
    CondvarTotal(z, t, |z.count|);
    assert ActiveSet(z) == if t.Held? then {t.p} else {};
  }

  /** In every reachable state the semaphore assertions hold and no semaphore has both a permit and a waiter. */
  lemma SemaphoresSound(m: State, ms: seq<Move>)
    requires Initial(m) && IsRun(m, ms)
    ensures var z := Run(m, ms);
      && (forall s :: s in z.w.sems ==>
        0 <= z.w.sems[s].value <= 1 && (z.w.sems[s].value > 0 ==> z.w.sems[s].queue == []))
      && (forall p :: 0 <= p < |z.pc| && CanStep(z, p, Resume) ==> z.w.tasks[p].flags == FlagKsem)
  {
    InitialHasToken(m);
    var z := Run(m, ms);
    var t := RunKeepsToken(m, Stored(Mutex), ms);
    SoundWithToken(z, t);
  }

  lemma SoundWithToken(z: State, t: Token)
    requires Inv(z, t)
    ensures forall s :: s in z.w.sems ==>
      0 <= z.w.sems[s].value <= 1 && (z.w.sems[s].value > 0 ==> z.w.sems[s].queue == [])
    ensures forall p :: 0 <= p < |z.pc| && CanStep(z, p, Resume) ==> z.w.tasks[p].flags == FlagKsem
  {
    forall s | s in z.w.sems ensures 0 <= z.w.sems[s].value <= 1 && (z.w.sems[s].value > 0 ==>
      z.w.sems[s].queue == []) {
      assert SemOk(z.w, s);
    }
    forall p | 0 <= p < |z.pc| && CanStep(z, p, Resume) ensures z.w.tasks[p].flags == FlagKsem {
      DownEndKeeps(z.w, p);
    }
  }

  /** Some process can move the token on. */
  ghost predicate CanProgress(m: State, p: ProcId) {
    CanStep(m, p, Resume) || CanStep(m, p, Leave) || CanStep(m, p, SignalPark) || CanStep(m, p, WaitPark)
  }

  lemma HolderCanLeave(m: State, p: ProcId)
    requires Inv(m, Held(p))
    ensures CanStep(m, p, Leave)
  {
    assert PcOk(m, p);
  }

  lemma GivenCanResume(m: State, p: ProcId, s: SemId)
    requires Inv(m, Given(p, s))
    ensures CanStep(m, p, Resume)
  {
    assert p in HandedOff(m.w, s);
    assert PcOk(m, p);
  }

  /** A token stored anywhere but in the mutex has a process standing in front of it, awake. */
  lemma StoredHasTaker(m: State, s: SemId) returns (p: ProcId)
    requires Inv(m, Stored(s)) && s != Mutex
    ensures CanStep(m, p, SignalPark) || CanStep(m, p, WaitPark)
    ensures StandsAt(m.pc[p], s) && !m.pc[p].In?
  {
    p := SomebodyStands(m.pc, s);
    assert SemOk(m.w, s);
    assert PcOk(m, p) && TaskOk(m.w, p);
    assert HandedOff(m.w, s) == {};
    assert m.pc[p] == In(s) ==> p in HandedOff(m.w, s);
  }

  /**
    The monitor never wedges: in every reachable state either it is free -- and then nobody is parked
    as a signaller or queued at the door -- or some process can run and pass the token on.
  */
  lemma NeverStuck(m: State, ms: seq<Move>)
    requires Initial(m) && IsRun(m, ms)
    ensures var z := Run(m, ms);
      || (WellFormed(z) && z.w.sems[Mutex] == Sem(1, []) && z.nextCount == 0 && ActiveSet(z) == {})
      || exists p :: CanProgress(z, p)
  {
    InitialHasToken(m);
    var z := Run(m, ms);
    var t := RunKeepsToken(m, Stored(Mutex), ms);
    if t.Held? {
      HolderCanLeave(z, t.p);
      assert CanProgress(z, t.p);
    } else if t.Given? {
      GivenCanResume(z, t.p, t.s);
      assert CanProgress(z, t.p);
    } else if t.s != Mutex {
      var p := StoredHasTaker(z, t.s);
      assert CanProgress(z, p);
    } else {
      assert SemOk(z.w, Mutex);
    }
  }

  /** A newcomer gets in through the mutex only when no signaller is parked. */
  lemma SignallersFirst(m: State, ms: seq<Move>, p: ProcId)
    requires Initial(m) && IsRun(m, ms)
    requires var z := Run(m, ms);
      || (CanStep(z, p, Enter) && Step(z, p, Enter).pc[p] == Active)
      || (CanStep(z, p, Resume) && z.pc[p] == In(Mutex))
    ensures Run(m, ms).nextCount == 0
  {
    InitialHasToken(m);
    var z := Run(m, ms);
    var t := RunKeepsToken(m, Stored(Mutex), ms);
    if CanStep(z, p, Enter) {
      assert TakesPermit(z.w, Mutex);
    } else {
      ResumeKeeps(z, t, p);
    }
  }

  /** No state strictly inside the run has an active process. */
  ghost predicate NobodyActiveBefore(m: State, ms: seq<Move>)
    requires IsRun(m, ms)
    decreases |ms|
  {
    ms == [] || (ActiveSet(m) == {} && NobodyActiveBefore(Step(m, ms[0].p, ms[0].l), ms[1..]))
  }

  /** While nobody is active nobody joins a condition variable and the token stays on its way to it. */
  lemma {:induction false} OnlyWaiterResumes(m: State, t: Token, c: nat, ms: seq<Move>, q: ProcId)
    requires Inv(m, t) && !t.Held? && t.s == Cv(c)
    requires IsRun(m, ms) && NobodyActiveBefore(m, ms) && q in ActiveSet(Run(m, ms))
    ensures q < |m.pc| && StandsAt(m.pc[q], Cv(c))
    decreases |ms|
  {
    hide PcsOk, OnlyPermit, CountersExact, HasTaker, Semaphores.Valid, HandedOff;
    if ms == [] {
      assert false;
    } else {
      var p, l := ms[0].p, ms[0].l;
      var m' := Step(m, p, l);
      var t' := StepMovesToken(m, t, p, l);
      assert p in ActiveSet(m) <==> m.pc[p] == Active;
      if t'.Held? {
        HeldStaysUnlessReleased(m', t', ms[1..], q);
        assert StandsAt(m.pc[p], Cv(c));
      } else {
        OnlyWaiterResumes(m', t', c, ms[1..], q);
      }
    }
  }

  lemma HeldStaysUnlessReleased(m: State, t: Token, ms: seq<Move>, q: ProcId)
    requires Inv(m, t) && t.Held?
    requires IsRun(m, ms) && NobodyActiveBefore(m, ms) && q in ActiveSet(Run(m, ms))
    ensures q == t.p
  {
    assert t.p in ActiveSet(m);
  }

  /**
    Signal and urgent wait: after a signal on a condition variable with a waiter, the next process to
    be active in the monitor is one that was waiting on that very condition variable.
  */
  lemma SignalPassesMonitorToWaiter(m: State, ms: seq<Move>, p: ProcId, c: nat, after: seq<Move>, q: ProcId)
    requires Initial(m) && IsRun(m, ms)
    requires CanStep(Run(m, ms), p, SignalUp(c))
    requires var z := Step(Run(m, ms), p, SignalUp(c));
      IsRun(z, after) && NobodyActiveBefore(z, after) && q in ActiveSet(Run(z, after))
    ensures q < |Run(m, ms).pc| && StandsAt(Run(m, ms).pc[q], Cv(c))
  {
    InitialHasToken(m);
    var y := Run(m, ms);
    var t := RunKeepsToken(m, Stored(Mutex), ms);
    var t' := StepMovesToken(y, t, p, SignalUp(c));
    OnlyWaiterResumes(Step(y, p, SignalUp(c)), t', c, after, q);
  }

  // ---------------------------------------------------------------- the monitor as a client of its semaphores

  /** The semaphore operations of a step. */
  ghost function Events(m: State, p: ProcId, l: Label): seq<Event>
    requires CanStep(m, p, l)
  {
    match l
    case Enter => [EvDown(p, Mutex)]
    case SignalUp(c) => [EvUp(Cv(c))]
    case SignalPark => [EvDown(p, Next)]
    case WaitRelease(_) => [EvUp(ReleaseTarget(m))]
    case WaitPark => [EvDown(p, Cv(m.pc[p].c))]
    case Resume => [EvResume(p)]
    case Leave => [EvUp(ReleaseTarget(m))]
    case Environment(e) => [e]
    case _ => []
  }

  ghost function AllEvents(m: State, ms: seq<Move>): seq<Event>
    requires IsRun(m, ms)
    decreases |ms|
  {
    if ms == [] then [] else Events(m, ms[0].p, ms[0].l) + AllEvents(Step(m, ms[0].p, ms[0].l), ms[1..])
  }

  lemma StepProjects(m: State, t: Token, p: ProcId, l: Label)
    requires Inv(m, t) && CanStep(m, p, l)
    ensures var es := Events(m, p, l);
      if es == [] then Step(m, p, l).w == m.w
      else |es| == 1 && Enabled(m.w, es[0]) && Apply(m.w, es[0]) == Step(m, p, l).w
  {
    hide OnlyPermit, CountersExact, HasTaker, Semaphores.Valid, HandedOff;
    assert PcOk(m, p);
  }

  /** Every run of the monitor is a run of its semaphores, so what holds of all of these holds of it. */
  lemma {:induction false} RunProjects(m: State, t: Token, ms: seq<Move>)
    requires Inv(m, t) && IsRun(m, ms)
    ensures Semaphores.IsRun(m.w, AllEvents(m, ms)) && Semaphores.Run(m.w, AllEvents(m, ms)) == Run(m, ms).w
    decreases |ms|
  {
    hide Inv, Step, CanStep, Apply, Enabled;
    if ms != [] {
      var p, l := ms[0].p, ms[0].l;
      var es := Events(m, p, l);
      var t' := StepMovesToken(m, t, p, l);
      StepProjects(m, t, p, l);
      RunProjects(Step(m, p, l), t', ms[1..]);
      var rest := AllEvents(Step(m, p, l), ms[1..]);
      if es == [] {
        assert es + rest == rest;
      } else {
        assert (es + rest)[0] == es[0] && (es + rest)[1..] == rest;
      }
    }
  }

  /** Who waits at the door, as a signaller or on a condition variable gets in its turn: first come, first served. */
  lemma WaitersInOrder(m: State, ms: seq<Move>, s: SemId)
    requires Initial(m) && IsRun(m, ms) && s in m.w.sems
    ensures Semaphores.IsRun(m.w, AllEvents(m, ms)) && s in Run(m, ms).w.sems
    ensures var es := AllEvents(m, ms);
      Arrivals(m.w, es, s) == Served(m.w, es, s) + Run(m, ms).w.sems[s].queue
  {
    hide Semaphores.Run, Run, AllEvents, Arrivals, Served;
    InitialHasToken(m);
    InitialIsValid(m.w);
    RunProjects(m, Stored(Mutex), ms);
    FirstComeFirstServed(m.w, AllEvents(m, ms), s);
    assert m.w.sems[s].queue == [];
  }
}
