/**
  Semaphores as the kernel updates them: records with a counter and a queue of waiters, any number of them,
  changed in place next to the table of process records.  Every operation is tied to the step of the same name
  in `Semaphores`, in a world that holds all semaphores, so what is proved there of all runs is about this code.
*/
module SemaphoreObject {
  import opened Options
  import S = Semaphores

  type ProcId = S.ProcId

  /** semaphore_t */
  class Semaphore {
    var value: int
    var queue: seq<ProcId>

    /** sem_init */
    constructor (value: int)
      ensures this.value == value && this.queue == []
    {
      this.value, this.queue := value, [];
    }
  }

  class Kernel {
    var tasks: seq<S.Task>
    const sems: map<S.SemId, Semaphore>

    ghost function View(): S.World
      reads this, sems.Values
    {
      S.World(map s | s in sems :: S.Sem(sems[s].value, sems[s].queue), tasks)
    }

    /** Different names are different records, and the invariant of `Semaphores` holds of all of them together. */
    ghost predicate Ok()
      reads this, sems.Values
    {
      (forall s, t :: s in sems && t in sems && s != t ==> sems[s] != sems[t]) && S.Valid(View())
    }

    /** Semaphores just initialised, and `n` processes none of which waits for anything. */
    constructor (n: nat, sems: map<S.SemId, Semaphore>)
      requires forall s, t :: s in sems && t in sems && s != t ==> sems[s] != sems[t]
      requires forall s :: s in sems ==> sems[s].value >= 0 && sems[s].queue == []
      ensures Ok() && S.Initial(View()) && this.sems == sems && |tasks| == n
    {
      this.sems := sems;
      tasks := seq(n, _ => S.Task(true, S.NotWaiting, S.FlagInterrupted, false, None));
      new;
      S.InitialIsValid(View());
    }

    /**
      wakeup_proc: a sleeper becomes runnable and waits for nothing, everything else stays.  Unless it slept on a
      semaphore this keeps the invariant and every permit where it is.
    */
    method Wakeup(p: ProcId)
      requires p < |tasks|
      modifies this
      ensures |tasks| == |old(tasks)| && tasks[p].runnable
      ensures !old(tasks)[p].runnable ==> tasks[p].wait == S.NotWaiting
      ensures tasks[p].flags == old(tasks)[p].flags && tasks[p].blockedOn == old(tasks)[p].blockedOn
      ensures forall q :: 0 <= q < |tasks| && (q != p || old(tasks)[p].runnable) ==> tasks[q] == old(tasks)[q]
      ensures tasks == S.WakeupProc(old(tasks), p)
      ensures old(Ok() && tasks[p].wait != S.WtKsem) ==>
        Ok() && forall s :: s in sems ==> S.HandedOff(View(), s) == S.HandedOff(old(View()), s)
    {
      ghost var w := View();
      if !tasks[p].runnable {
        tasks := tasks[p := tasks[p].(runnable := true)];
        tasks := tasks[p := tasks[p].(wait := S.NotWaiting)];
      }
      assert View().sems == w.sems;
      assert View() == S.TimerFires(w, p);
      if S.Valid(w) && w.tasks[p].wait != S.WtKsem { WakeupKeeps(w, p); }
    }

    /** up: hand the permit to the first waiter, or bank it; no other semaphore changes. */
    method Up(s: S.SemId)
      requires Ok() && s in sems
      modifies this, sems[s]
      ensures Ok() && View() == S.Up(old(View()), s)
    {
      hide S.Valid, S.HandedOff;
      ghost var w := View();
      S.UpKeeps(w, s);
      FirstWaiter(w, s);
      var sem := sems[s];
      if |sem.queue| == 0 {
        sem.value := sem.value + 1;
      } else {
        var p := sem.queue[0];
        assert w.tasks[p].wait == S.WtKsem;  // the assertion in `__up`
        sem.queue := sem.queue[1..];
        tasks := tasks[p := tasks[p].(flags := S.FlagKsem)];
        Wakeup(p);
      }
      OnlyOneChanged(w, View(), s, S.Up(w, s));
    }

    /** The part of down before schedule(); `taken` says that it returned at once. */
    method DownBegin(p: ProcId, s: S.SemId) returns (taken: bool)
      requires Ok() && S.Enabled(View(), S.EvDown(p, s))
      modifies this, sems[s]
      ensures Ok() && View() == S.DownBegin(old(View()), p, s) && taken == S.TakesPermit(old(View()), s)
      ensures sems[s].queue == old(sems[s].queue) + if taken then [] else [p]
      ensures tasks[p].runnable == taken && forall q :: 0 <= q < |tasks| && q != p ==> tasks[q] == old(tasks)[q]
    {
      ghost var w := View();
      S.DownBeginKeeps(w, p, s);
      var sem := sems[s];
      if sem.value > 0 {
        sem.value := sem.value - 1;
        taken := true;
      } else {
        // wait_current_set
        var t := tasks[p];
        t := t.(flags := S.FlagInterrupted, blockedOn := Some(s));
        t := t.(runnable := false);
        t := t.(wait := S.WtKsem);
        tasks := tasks[p := t];
        sem.queue := sem.queue + [p];
        taken := false;
      }
      OnlyOneChanged(w, View(), s, S.DownBegin(w, p, s));
    }

    /** The part of down after schedule(); `flags` is what `down` asserts to be zero. */
    method DownEnd(p: ProcId) returns (flags: int)
      requires Ok() && S.Enabled(View(), S.EvResume(p))
      modifies this, sems[tasks[p].blockedOn.value]
      ensures flags == 0 && Ok() && View() == S.DownEnd(old(View()), p)
    {
      ghost var w := View();
      S.DownEndKeeps(w, p);
      var s := tasks[p].blockedOn.value;
      var sem := sems[s];
      // wait_current_del unlinks the caller if it is still queued
      sem.queue := S.Without(sem.queue, p);
      tasks := tasks[p := tasks[p].(blockedOn := None)];
      flags := if tasks[p].flags == S.FlagKsem then 0 else 1;
      OnlyOneChanged(w, View(), s, S.DownEnd(w, p));
    }

    /** try_down: takes a permit exactly if there is one, wakes and queues nobody. */
    method TryDown(s: S.SemId) returns (taken: bool)
      requires Ok() && s in sems
      modifies sems[s]
      ensures Ok() && taken == S.TakesPermit(old(View()), s) && tasks == old(tasks)
      ensures S.Permits(View(), s) == S.Permits(old(View()), s) - if taken then 1 else 0
      ensures forall r :: r in sems && r != s ==> View().sems[r] == old(View()).sems[r]
    {
      ghost var w := View();
      var sem := sems[s];
      taken := false;
      if sem.value > 0 {
        sem.value := sem.value - 1;
        taken := true;
      }
      ghost var w' := w.(sems := w.sems[s := w.sems[s].(value := w.sems[s].value - if taken then 1 else 0)]);
      OnlyOneChanged(w, View(), s, w');
      TryDownKeeps(w, s, w');
    }

    /** do_kill, as far as sleeping and waking go. */
    method Kill(p: ProcId)
      requires Ok() && p < |tasks|
      modifies this
      ensures Ok() && View() == S.Kill(old(View()), p)
    {
      ghost var w := View();
      S.EnvironmentKeeps(w, S.EvKill(p));
      var interruptible := tasks[p].wait.Interruptible();
      tasks := tasks[p := tasks[p].(exiting := true)];
      if interruptible {
        Wakeup(p);
      }
      assert View().sems == w.sems;
    }
  }

  /** Whoever is first in a queue is asleep on it. */
  lemma FirstWaiter(w: S.World, s: S.SemId)
    requires S.Valid(w) && s in w.sems
    ensures var q := w.sems[s].queue; q != [] ==>
      q[0] < |w.tasks| && w.tasks[q[0]].wait == S.WtKsem && !w.tasks[q[0]].runnable
  {
    assert S.SemOk(w, s);
    var q := w.sems[s].queue;
    if q != [] { assert q[0] in q && S.TaskOk(w, q[0]); }
  }

  /** Two worlds that agree on everything but one semaphore, and on that one too, are the same. */
  lemma OnlyOneChanged(w: S.World, v: S.World, s: S.SemId, w': S.World)
    requires s in w.sems && v.sems.Keys == w.sems.Keys == w'.sems.Keys && v.tasks == w'.tasks && v.sems[s] == w'.sems[s]
    requires forall r :: r in w.sems && r != s ==> v.sems[r] == w.sems[r] && w'.sems[r] == w.sems[r]
    ensures v == w'
  {
    assert v.sems == w'.sems;
  }

  lemma WakeupKeeps(w: S.World, p: ProcId)
    requires S.Valid(w) && p < |w.tasks| && w.tasks[p].wait != S.WtKsem
    ensures S.Valid(S.TimerFires(w, p))
    ensures forall s :: s in w.sems ==> S.HandedOff(S.TimerFires(w, p), s) == S.HandedOff(w, s)
  {
    var w' := S.TimerFires(w, p);
    assert S.TaskOk(w, p);
    forall s | s in w'.sems ensures S.SemOk(w', s) {
      assert S.SemOk(w, s);
    }
    forall q | 0 <= q < |w'.tasks| ensures S.TaskOk(w', q) {
      assert S.TaskOk(w, q);
    }
  }

  lemma TryDownKeeps(w: S.World, s: S.SemId, w': S.World)
    requires S.Valid(w) && s in w.sems
    requires w' == w.(sems := w.sems[s := w.sems[s].(value := w.sems[s].value - if S.TakesPermit(w, s) then 1 else 0)])
    ensures S.Valid(w') && S.HandedOff(w', s) == S.HandedOff(w, s)
  {
    forall r | r in w'.sems ensures S.SemOk(w', r) {
      assert S.SemOk(w, r);
    }
    forall q | 0 <= q < |w'.tasks| ensures S.TaskOk(w', q) {
      assert S.TaskOk(w, q);
    }
  }
}
