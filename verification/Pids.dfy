/**
  Process numbers (get_pid in kern/process/proc.c): the static pair (last_pid, next_safe) caches a gap in the
  list of used numbers, so that most calls need no scan.
*/
module Pids {
  import opened Lists

  const MAX_PROCESS: nat := 4096
  const MAX_PID: nat := 8192

  ghost function Listed(procs: seq<nat>): set<nat> {
    set p | p in procs
  }

  /** Where the search for a number starts. */
  function Start(last: nat): nat {
    if last + 1 >= 8192 then 1 else last + 1
  }

  /** All numbers from `start` on, cyclically and up to but not including `pid`, are used. */
  ghost predicate UsedUpTo(used: set<nat>, start: nat, pid: nat) {
    if start <= pid then forall q :: start <= q < pid ==> q in used
    else (forall q :: start <= q < 8192 ==> q in used) && (forall q :: 1 <= q < pid ==> q in used)
  }

  /** `pid` is the first unused number from `start` on, cyclically. */
  ghost predicate NextUnused(used: set<nat>, start: nat, pid: nat) {
    1 <= pid < 8192 && pid !in used && UsedUpTo(used, start, pid)
  }

  /** There is only one. */
  lemma NextUnusedUnique(used: set<nat>, start: nat, p: nat, q: nat)
    requires 1 <= start < 8192 && NextUnused(used, start, p) && NextUnused(used, start, q)
    ensures p == q
  {
  }

  /** No used number lies strictly between the two. */
  ghost predicate Gap(used: set<nat>, last: nat, next: nat) {
    forall p :: p in used ==> !(last < p < next)
  }

  /** Steps from `a` to `b` on the ring 1, ..., 8191. */
  ghost function Steps(a: nat, b: nat): nat
    requires 1 <= a < 8192 && 1 <= b < 8192
  {
    if a <= b then b - a else 8191 - a + b
  }

  /** With fewer used numbers than there are, one is unused. */
  lemma {:induction false} SomeUnused(used: set<nat>, n: nat) returns (g: nat)
    requires |used| < n
    ensures 1 <= g <= n && g !in used
  {
    if n !in used {
      g := n;
    } else {
      g := SomeUnused(used - {n}, n - 1);
    }
  }

  class Allocator {
    var lastPid: nat
    var nextSafe: nat

    ghost predicate Valid(used: set<nat>)
      reads this
    {
      1 <= lastPid <= MAX_PID && nextSafe <= MAX_PID && Gap(used, lastPid, nextSafe)
    }

    /** The initial values of the static variables. */
    constructor ()
      ensures Valid({}) && lastPid == MAX_PID
    {
      lastPid, nextSafe := MAX_PID, MAX_PID;
    }

    /** get_pid: the first unused number after the last one, cyclically, whether or not the list is scanned. */
    method GetPid(procs: seq<nat>) returns (pid: nat)
      requires Valid(Listed(procs)) && |Listed(procs)| < MAX_PID - 1
      modifies this
      ensures NextUnused(Listed(procs), Start(old(lastPid)), pid)
      ensures pid == lastPid && Valid(Listed(procs) + {pid})
    {
      ghost var used := Listed(procs);
      ghost var g := SomeUnused(used, MAX_PID - 1);
      var scan := false;
      lastPid := lastPid + 1;
      if lastPid >= MAX_PID {
        lastPid := 1;
        scan := true;
      }
      ghost var start := lastPid;
      if scan || lastPid >= nextSafe {
        nextSafe := MAX_PID;
        var again := true;
        while again
          invariant 1 <= lastPid < MAX_PID && nextSafe <= MAX_PID && UsedUpTo(used, start, lastPid)
          invariant !again ==> lastPid < nextSafe && Free(used, lastPid, nextSafe)
          invariant again ==> nextSafe == MAX_PID
          decreases again, Steps(lastPid, g)
        {
          again := Pass(procs, start, g);
        }
      }
      pid := lastPid;
    }

    /** One walk over the list; true if it has to start again. */
    method Pass(procs: seq<nat>, ghost start: nat, ghost g: nat) returns (again: bool)
      requires 1 <= lastPid < MAX_PID && nextSafe == MAX_PID && 1 <= start < MAX_PID && 1 <= g < MAX_PID
      requires g !in Listed(procs)
      requires UsedUpTo(Listed(procs), start, lastPid)
      modifies this
      ensures 1 <= lastPid < MAX_PID && nextSafe <= MAX_PID && UsedUpTo(Listed(procs), start, lastPid)
      ensures !again ==> lastPid < nextSafe && Free(Listed(procs), lastPid, nextSafe)
      ensures again ==> nextSafe == MAX_PID && Steps(lastPid, g) < Steps(old(lastPid), g)
    {
      var i := 0;
      while i < |procs|
        invariant i <= |procs| && 1 <= lastPid < nextSafe <= MAX_PID && UsedUpTo(Listed(procs), start, lastPid)
        invariant Free(Listed(procs[..i]), lastPid, nextSafe)
        invariant Steps(lastPid, g) <= Steps(old(lastPid), g)
      {
        var p := procs[i];
        assert p in procs;
        assert Listed(procs[..i + 1]) == Listed(procs[..i]) + {p} by {
          assert procs[..i + 1] == procs[..i] + [p];
        }
        if p == lastPid {
          lastPid := lastPid + 1;
          if lastPid >= nextSafe {
            if lastPid >= MAX_PID {
              lastPid := 1;
            }
            nextSafe := MAX_PID;
            return true;
          }
        } else if p > lastPid && nextSafe > p {
          nextSafe := p;
        }
        i := i + 1;
      }
      assert procs[..i] == procs;
      return false;
    }
  }

  /** No used number is `last` or between `last` and `next`. */
  ghost predicate Free(used: set<nat>, last: nat, next: nat) {
    forall p :: p in used ==> !(last <= p < next)
  }

  /** The table of processes: who has which number.  The idle process is counted but not on the list. */
  class Table {
    var procs: seq<nat>               // the numbers on proc_list, latest first
    const pids: Allocator

    ghost predicate Valid()
      reads this, pids
    {
      && Distinct(procs) && (forall p :: p in procs ==> 1 <= p < MAX_PID) && |procs| < MAX_PROCESS
      && pids.Valid(Listed(procs))
    }

    constructor ()
      ensures Valid() && procs == [] && fresh(pids)
    {
      procs := [];
      pids := new Allocator();
    }

    /** do_fork as far as numbers go; nothing if there are too many processes, the idle process among them. */
    method Fork() returns (pid: nat, ok: bool)
      requires Valid()
      modifies this, pids
      ensures Valid() && (ok <==> old(|procs|) + 1 < MAX_PROCESS)
      ensures if ok then pid !in old(procs) && procs == [pid] + old(procs) else procs == old(procs)
      ensures ok ==> NextUnused(Listed(old(procs)), Start(old(pids.lastPid)), pid)
    {
      var nrProcess := |procs| + 1;
      if nrProcess >= MAX_PROCESS {
        return 0, false;
      }
      ListedSize(procs);
      pid := pids.GetPid(procs);
      assert Listed([pid] + procs) == Listed(procs) + {pid};
      procs := [pid] + procs;
      ok := true;
    }

    /** A process is reaped: its number may be used again. */
    method Reap(i: nat)
      requires Valid() && i < |procs|
      modifies this
      ensures Valid() && procs == old(procs[..i] + procs[i + 1..])
    {
      ghost var was := procs;
      procs := procs[..i] + procs[i + 1..];
      assert forall k :: 0 <= k < |procs| ==> procs[k] == was[if k < i then k else k + 1];
      assert forall p :: p in procs ==> p in was;
      assert Listed(procs) <= Listed(was);
    }
  }

  lemma {:induction false} ListedSize(s: seq<nat>)
    ensures |Listed(s)| <= |s|
  {
    if s == [] {
      assert Listed(s) == {};
    } else {
      ListedSize(s[1..]);
      assert Listed(s) == {s[0]} + Listed(s[1..]);
    }
  }
}
