/** monitor_init and the start of the philosophers: the initial states that the results over all runs start from. */
module SyncInit {
  import opened Options
  import opened Semaphores
  import opened Dining
  import M = Monitor
  import C = PhilosophersCondvar
  import P = PhilosophersSema

  function Idle(n: nat): seq<Task> {
    seq(n, _ => Task(true, NotWaiting, FlagKsem, false, None))
  }

  /** sem_init on these semaphores: the mutex free, the others without permits. */
  function Fresh(ids: set<SemId>): map<SemId, Sem> {
    map s | s in ids :: Sem(if s == Mutex then 1 else 0, [])
  }

  function Condvars(n: nat): set<SemId> {
    set i: nat | i < n :: Cv(i)
  }

  /** monitor_init, with `procs` processes outside the monitor. */
  function MonitorInit(procs: nat, condvars: nat): M.State {
    M.State(World(Fresh({Mutex, Next} + Condvars(condvars)), Idle(procs)), 0, seq(condvars, _ =>
      0), seq(procs, _ => M.Outside))
  }

  /** For any number of processes and condition variables there is an initial state, the one monitor_init builds. */
  lemma MonitorStarts(procs: nat, condvars: nat)
    ensures var m := MonitorInit(procs, condvars); M.Initial(m) && |m.pc| == procs && |m.count| == condvars
  {
    var m := MonitorInit(procs, condvars);
    forall s ensures s in m.w.sems <==> (s.Cv? ==> s.i < |m.count|) {
      assert s == Mutex || s == Next || s.Cv?;
    }
  }

  function CondvarTable(n: nat): C.Table {
    C.Table(MonitorInit(n, n), seq(n, _ => Thinking), seq(n, _ => C.Think))
  }

  /** check_sync starts the monitor version of the philosophers in an initial state, for any number from 2 on. */
  lemma CondvarStarts(n: nat)
    requires n >= 2
    ensures C.Initial(CondvarTable(n)) && |CondvarTable(n).phil| == n
  {
    MonitorStarts(n, n);
  }

  function SemaTable(n: nat): P.Table {
    P.Table(World(Fresh({Mutex} + Condvars(n)), Idle(n)), seq(n, _ => Thinking), seq(n, _ => P.Think))
  }

  /** The same for the semaphore version. */
  lemma SemaStarts(n: nat)
    requires n >= 2
    ensures P.Initial(SemaTable(n)) && |SemaTable(n).phil| == n
  {
    var s := SemaTable(n);
    assert forall r :: r in s.w.sems <==> r == Mutex || (r.Cv? && r.i < n);
  }
}
