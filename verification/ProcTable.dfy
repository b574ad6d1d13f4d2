/** The process table with its operations, as kern/process/proc.c performs them on the pointers. */
module ProcTable {
  import opened ProcLinks
  import opened Processes

  class Table {
    const root: nat                   // idleproc
    const init: nat                   // initproc
    var l: Links
    var state: map<nat, State>
    var waits: map<nat, nat>          // who has wait_state WT_CHILD, and the pid it waits for (0: any)
    var dozing: set<nat>              // who has wait_state WT_TIMER or WT_KBD
    var exiting: set<nat>             // who has flag PF_EXITING
    ghost var children: map<nat, seq<nat>>
    ghost var rank: map<nat, nat>

    ghost function View(): World
      reads this
    {
      World(l, children, state, waits, rank)
    }

    ghost predicate Valid()
      reads this
    {
      Good(View(), root, init) && Dozing(View(), dozing)
    }

    /** proc_init: the idle process and its child init. */
    constructor (root: nat, init: nat)
      requires root != 0 && init != 0 && root != init
      ensures Valid() && children == map[root := [init], init := []] && waits == map[] && this.root == root
      ensures this.init == init && dozing == {} && exiting == {} && state == map[root := Runnable, init := Runnable]
    {
      hide Good;
      this.root, this.init := root, init;
      l := Links(map[init := root], map[root := init], map[], map[]);
      state, waits, dozing, exiting := map[root := Runnable, init := Runnable], map[], {}, {};
      children, rank := map[root := [init], init := []], map[root := 0, init := 1];
      new;
      InitialGood(View(), root, init);
    }

    /** do_fork and set_links: the child is runnable and the youngest of its parent, and nobody else is affected. */
    method Fork(p: nat, c: nat)
      requires Valid() && p in children && Alive(View(), p) && c !in children && c != 0 && At(l.cptr, c) == 0
      modifies this
      ensures Valid() && children == old(children)[p := [c] + old(children)[p]][c := []]
      ensures exiting == old(exiting) - {c} && dozing == old(dozing)
      ensures state == old(state)[c := Runnable] && waits == old(waits)
    {
      hide Family, Settled, Adopted;
      RankFacts(View(), root, init, p);
      ghost var r := rank[p] + rank[init] + 1;
      ForkedGood(View(), root, init, p, c, r);
      LinkYoungest(p, c);
      state, exiting := state[c := Runnable], exiting - {c};
      children, rank := children[p := [c] + children[p]][c := []], rank[c := r];
    }

    /** The pointer updates of set_links. */
    method LinkYoungest(p: nat, c: nat)
      modifies this`l
      ensures l == Adopted(old(l), p, c)
    {
      var first := At(l.cptr, p);
      l := Links(l.parent[c := p], l.cptr, l.optr[c := first], l.yptr[c := 0]);
      if first != 0 {
        l := l.(yptr := l.yptr[first := c]);
      }
      l := l.(cptr := l.cptr[p := c]);
    }

    /**
      wakeup_proc, whose assertion that the process is no zombie holds wherever it is called: the process is runnable
      and waits for no child any more, the others stay as they are, and no sleeper comes to wait on a zombie child.
    */
    method WakeUp(p: nat)
      requires Alive(View(), p)
      modifies this`state, this`waits, this`dozing
      ensures dozing == old(dozing) - {p} && state.Keys == old(state).Keys && Alive(View(), p) && state[p] == Runnable
      ensures p !in waits
      ensures forall q :: q in state && q != p ==> state[q] == old(state)[q]
      ensures forall q :: q != p ==> (q in waits <==> q in old(waits)) && (q in waits ==> waits[q] == old(waits)[q])
      ensures old(Valid()) ==> Valid()
    {
      ghost var w := View();
      assert state[p] != Zombie;
      state, waits, dozing := state[p := Runnable], waits - {p}, dozing - {p};
      assert View() == Woken(w, p);
      if Good(w, root, init) { WokenSettled(w, root, init, 0, p); }
    }

    /** do_sleep, and reading from the keyboard, up to the point where the running process sleeps. */
    method Doze(cur: nat)
      requires Valid() && Alive(View(), cur) && cur !in waits
      modifies this`state, this`dozing
      ensures Valid() && View() == Dozed(old(View()), cur) && dozing == old(dozing) + {cur}
    {
      hide Good;
      DozedGood(View(), root, init, cur);
      state, dozing := state[cur := Sleeping], dozing + {cur};
      assert View() == Dozed(old(View()), cur);
    }

    /** do_kill: mark the process, and wake it if its wait can be interrupted: for a child, a timer, the keyboard. */
    method Kill(pid: nat) returns (r: Killing)
      requires Valid()
      modifies this`state, this`waits, this`dozing, this`exiting
      ensures Valid()
      ensures r.NotFound? <==> pid !in state || pid == root
      ensures r.AlreadyKilled? <==> pid in state && pid != root && pid in old(exiting)
      ensures r.Killed? ==> exiting == old(exiting) + {pid} && dozing == old(dozing) - {pid}
      ensures r.Killed? ==>
        View() == if pid in old(waits) || pid in old(dozing) then Woken(old(View()), pid) else old(View())
      ensures !r.Killed? ==> exiting == old(exiting) && dozing == old(dozing) && View() == old(View())
      ensures r.Killed? ==> pid !in waits && (Alive(View(), pid) <==> old(Alive(View(), pid)))
    {
      hide Good;
      if pid !in state || pid == root {
        return NotFound;
      }
      if pid in exiting {
        return AlreadyKilled;
      }
      exiting := exiting + {pid};
      if pid in waits || pid in dozing {
        if pid in waits { WaiterAlive(View(), root, init, pid); }
        WakeUp(pid);
        assert state == old(state)[pid := Runnable] && waits == old(waits) - {pid};
      }
      return Killed;
    }

    /**
      do_exit: the process is a zombie without children, all its children belong to init.  Woken are its parent, if it
      waits for a child, and init, if it does and has got a zombie; nobody else is affected.
    */
    method Exit(cur: nat)
      requires Valid() && cur in children && cur != root && cur != init && cur !in waits && cur !in dozing
      modifies this
      ensures dozing == old(dozing) && exiting == old(exiting)
      ensures Valid() && cur in state && state[cur] == Zombie && children == AllHanded(old(children), cur, init)
      ensures var woken := Roused(old(View()), init, cur);
        && waits == old(waits) - woken && state.Keys == old(state).Keys
        && forall q :: q in state && q != cur ==> state[q] == if q in woken then Runnable else old(state)[q]
    {
      hide Family, Moving, Settled, AllHanded;
      RankFacts(View(), root, init, cur);
      ghost var all := AllHanded(children, cur, init);
      ghost var kids := children[cur];
      KidStates(View(), root, init, cur);
      KidsOthers(View(), root, init, cur);
      Die(cur);
      ghost var w1 := View();
      ghost var i := 0;
      while At(l.cptr, cur) != 0
        invariant cur in children && init in children && Moving(l, children, root, cur)
        invariant Settled(View(), root, init, cur) && dozing == old(dozing) && Dozing(View(), dozing)
        invariant AllHanded(children, cur, init) == all && cur in state && state[cur] == Zombie
        invariant 0 <= i <= |kids| && children[cur] == kids[i..] && exiting == old(exiting)
        invariant InitRoused(w1, View(), init, kids[..i])
        decreases if cur in children then |children[cur]| else 0
      {
        HasKids(l, children, root, cur);
        HandedStep(children, cur, init);
        ghost var w2 := View();
        MoveOne(cur);
        RousedStep(w1, w2, View(), init, kids, i);
        i := i + 1;
      }
      HasKids(l, children, root, cur);
      assert kids[..i] == kids;
      RousedAll(old(View()), w1, View(), init, cur, kids);
      HandedDone(children, cur, init);
      ExitDone(View(), root, init, cur);
    }

    /** The first half of do_exit. */
    method Die(cur: nat)
      requires Valid() && cur in children && cur != root && cur != init && cur !in waits && cur !in dozing
      modifies this`state, this`waits, this`dozing
      ensures dozing == old(dozing) && Dozing(View(), dozing)
      ensures Moving(l, children, root, cur) && Settled(View(), root, init, cur) && cur in state && state[cur] == Zombie
      ensures waits == old(waits) - {At(l.parent, cur)}
      ensures state == (if At(l.parent, cur) in old(waits) then old(state)[At(l.parent, cur) := Runnable]
        else old(state))[cur := Zombie]
    {
      hide Family, Settled, Moving;
      var p := At(l.parent, cur);
      ghost var w := View();
      RankFacts(w, root, init, cur);
      ParentIsOlder(w, root, init, cur);
      MovingFromFamily(l, children, root, cur);
      ghost var w1 := ParentWoken(w, root, init, cur, p);
      DiedSettled(w1, root, init, cur);
      state := state[cur := Zombie];
      if p in waits {
        WakeUp(p);
      }
      assert state == w1.state[cur := Zombie];
      assert View() == Died(w1, cur);
    }

    /** One turn of the loop in do_exit. */
    method MoveOne(cur: nat)
      requires cur in children && init in children && Moving(l, children, root, cur) && Settled(View(), root, init, cur)
      requires cur != init && cur != root && children[cur] != [] && At(l.cptr, cur) == children[cur][0]
      requires Dozing(View(), dozing)
      modifies this
      ensures dozing == old(dozing) && Dozing(View(), dozing)
      ensures children == Handed(old(children), cur, init) && Moving(l, children, root, cur)
      ensures Settled(View(), root, init, cur) && exiting == old(exiting)
      ensures InitRoused(old(View()), View(), init, [old(children)[cur][0]])
    {
      ghost var w := View();
      var c := At(l.cptr, cur);
      hide Moving, Settled, MovedOne, Handed, Older;
      MoveFacts(w, root, init, cur);
      ghost var w1 := InitWoken(w, root, init, cur, c);
      MovedSettled(w1, root, init, cur);
      MovePointers(cur, c);
      children := Handed(children, cur, init);
      if state[c] == Zombie && init in waits {
        WakeUp(init);
      }
      assert View() == Moved(w1, cur, init);
    }

    method MovePointers(cur: nat, c: nat)
      requires c == At(l.cptr, cur) && cur != init
      modifies this`l
      ensures l == MovedOne(old(l), cur, init)
    {
      l := l.(cptr := l.cptr[cur := At(l.optr, c)], yptr := l.yptr[c := 0]);
      l := l.(optr := l.optr[c := At(l.cptr, init)]);
      if At(l.cptr, init) != 0 {
        l := l.(yptr := l.yptr[At(l.cptr, init) := c]);
      }
      l := l.(parent := l.parent[c := init]);
      l := l.(cptr := l.cptr[init := c]);
    }

    /** The search of do_wait among the children. */
    method FindChild(cur: nat, pid: nat) returns (r: Outcome)
      requires Valid() && cur in children
      ensures Waited(View(), cur, pid, r)
    {
      if pid != 0 {
        r := NoChild;
        ParentOf(View(), root, cur, pid);
        if pid in state && At(l.parent, pid) == cur && pid != root {
          r := if state[pid] == Zombie then Reaped(pid) else Slept;
          assert Youngest(View(), children[cur], pid, pid) by { FirstOf(View(), children[cur], pid); }
        }
      } else {
        r := FindAny(cur);
      }
    }

    /** The walk over `cptr` and `optr`. */
    method FindAny(cur: nat) returns (r: Outcome)
      requires Valid() && cur in children
      ensures Waited(View(), cur, 0, r)
    {
      ghost var kids := children[cur];
      KidStates(View(), root, init, cur);
      assert KidsOk(l, cur, kids, false);
      NoNullKid(l, cur, kids);
      hide Family, Settled, Waited, KidsOk, Good;
      var c := At(l.cptr, cur);
      ghost var i := 0;
      r := NoChild;
      while c != 0
        invariant 0 <= i <= |kids| && c == Entry(kids, i) && r == if i == 0 then NoChild else Slept
        invariant forall j :: 0 <= j < i ==> Alive(View(), kids[j])
        decreases |kids| - i
      {
        KidAt(l, cur, kids, i);
        if state[c] == Zombie {
          AnyFound(View(), cur, i);
          return Reaped(c);
        }
        r := Slept;
        c := At(l.optr, c);
        i := i + 1;
      }
      NoneFound(View(), cur);
    }

    /** do_wait up to the point where it returns or sleeps; woken up, it starts again. */
    method Wait(cur: nat, pid: nat) returns (r: Outcome)
      requires Valid() && cur in children && Alive(View(), cur) && cur !in dozing
      modifies this
      ensures dozing == old(dozing) && exiting == old(exiting)
      ensures Valid() && Waited(old(View()), cur, pid, r)
      ensures r.NoChild? ==> View() == old(View())
      ensures r.Slept? ==> View() == Asleep(old(View()), cur, pid)
      ensures r.Reaped? ==> exists k: nat ::
        k < |old(children)[cur]| && old(children)[cur][k] == r.child && View() == Buried(old(View()), cur, k)
    {
      hide Family, Settled;
      r := FindChild(cur, pid);
      if r.Slept? {
        AsleepGood(View(), root, init, cur, pid);
        state, waits := state[cur := Sleeping], waits[cur := pid];
      } else if r.Reaped? {
        Bury(cur, r.child);
      }
    }

    /** The end of do_wait: remove_links, and the process structure is freed. */
    method Bury(cur: nat, c: nat)
      requires Valid() && cur in children && Alive(View(), cur) && c in children[cur] && !Alive(View(), c)
      modifies this
      ensures dozing == old(dozing) && exiting == old(exiting)
      ensures Valid() && exists k: nat ::
        k < |old(children)[cur]| && old(children)[cur][k] == c && View() == Buried(old(View()), cur, k)
    {
      hide Family, Settled, Removed;
      ghost var k := PlaceOf(children[cur], c);
      KidStates(View(), root, init, cur);
      BuriedGood(View(), root, init, cur, k);
      Unlink(c);
      state := state - {c};
      children, rank := Without(children, cur, k), rank - {c};
      assert View() == Buried(old(View()), cur, k);
    }

    /** remove_links */
    method Unlink(c: nat)
      modifies this`l
      ensures l == Removed(old(l), c)
    {
      var older, younger := At(l.optr, c), At(l.yptr, c);
      if older != 0 {
        l := l.(yptr := l.yptr[older := younger]);
      }
      if younger != 0 {
        l := l.(optr := l.optr[younger := older]);
      } else {
        l := l.(cptr := l.cptr[At(l.parent, c) := older]);
      }
    }
  }

  /** Who is woken when `cur` exits. */
  ghost function Roused(w: World, init: nat, cur: nat): set<nat> {
    set p | p in w.waits && (p == At(w.l.parent, cur) || (p == init && HasZombie(w, Kids(w, cur))))
  }

  ghost function Kids(w: World, p: nat): seq<nat> {
    if p in w.children then w.children[p] else []
  }

  ghost predicate HasZombie(w: World, kids: seq<nat>) {
    exists c :: c in kids && c in w.state && w.state[c] == Zombie
  }

  /** From `w` to `w'`, init has been woken if it waits for a child and there is a zombie among `kids`, nobody else. */
  ghost predicate InitRoused(w: World, w': World, init: nat, kids: seq<nat>) {
    if init in w.waits && HasZombie(w, kids) then w'.state == w.state[init := Runnable] && w'.waits == w.waits - {init}
    else w'.state == w.state && w'.waits == w.waits
  }

  lemma RousedStep(w: World, w1: World, w2: World, init: nat, kids: seq<nat>, i: nat)
    requires i < |kids| && init !in kids && InitRoused(w, w1, init, kids[..i]) && InitRoused(w1, w2, init, [kids[i]])
    ensures InitRoused(w, w2, init, kids[..i + 1])
  {
    assert kids[..i + 1] == kids[..i] + [kids[i]];
    assert HasZombie(w, kids[..i + 1]) <==> HasZombie(w, kids[..i]) || HasZombie(w, [kids[i]]);
    assert HasZombie(w1, [kids[i]]) <==> HasZombie(w, [kids[i]]);
  }

  lemma RousedAll(w: World, w1: World, w2: World, init: nat, cur: nat, kids: seq<nat>)
    requires cur in w.children && w.children[cur] == kids && cur != init && cur !in kids && cur !in w.waits
    requires At(w.l.parent, cur) !in kids && At(w.l.parent, cur) != cur && w.waits.Keys <= w.state.Keys
    requires w1.waits == w.waits - {At(w.l.parent, cur)}
    requires w1.state == (if At(w.l.parent, cur) in w.waits then w.state[At(w.l.parent, cur) := Runnable]
      else w.state)[cur := Zombie]
    requires InitRoused(w1, w2, init, kids) && cur in w.state
    ensures w2.waits == w.waits - Roused(w, init, cur) && w2.state.Keys == w.state.Keys
    ensures forall q :: q in w2.state && q != cur ==>
      w2.state[q] == if q in Roused(w, init, cur) then Runnable else w.state[q]
  {
    assert HasZombie(w1, kids) <==> HasZombie(w, kids);
  }

  lemma KidsOthers(w: World, root: nat, init: nat, cur: nat)
    requires Good(w, root, init) && cur in w.children && cur != root
    ensures cur !in w.children[cur] && init !in w.children[cur] && At(w.l.parent, cur) !in w.children[cur]
    ensures At(w.l.parent, cur) != cur && w.waits.Keys <= w.state.Keys
  {
    ParentIsOlder(w, root, init, cur);
  }

  lemma WaiterAlive(w: World, root: nat, init: nat, p: nat)
    requires Good(w, root, init) && p in w.waits
    ensures Alive(w, p)
  {
    assert NoMissedExit(w, p);
  }

  datatype Killing = Killed | AlreadyKilled | NotFound

  lemma NoNullKid(l: Links, p: nat, kids: seq<nat>)
    requires KidsOk(l, p, kids, false)
    ensures forall i :: 0 <= i < |kids| ==> kids[i] != 0
  {
    forall i | 0 <= i < |kids| ensures kids[i] != 0 {
      assert KidOk(l, p, kids, i, false);
    }
  }

  lemma KidStates(w: World, root: nat, init: nat, p: nat)
    requires Good(w, root, init) && p in w.children
    ensures forall c :: c in w.children[p] ==> c in w.state
  {
  }

  lemma ParentOf(w: World, root: nat, p: nat, c: nat)
    requires Family(w.l, w.children, root) && p in w.children
    ensures c in w.children[p] <==> c in w.children && c != root && At(w.l.parent, c) == p
  {
    if c in w.children[p] { KidsParent(w.l, p, w.children[p], false); }
    if c in w.children && c != root { assert Listed(w.l, w.children, c); }
  }

  /** Of those that could be reaped `c` is the first in the list of children, the last to be forked or moved there. */
  ghost predicate Youngest(w: World, kids: seq<nat>, pid: nat, c: nat) {
    exists k :: 0 <= k < |kids| && kids[k] == c && forall j :: 0 <= j < k && Wanted(pid, kids[j]) ==> Alive(w, kids[j])
  }

  lemma KidAt(l: Links, p: nat, kids: seq<nat>, i: nat)
    requires KidsOk(l, p, kids, false) && i < |kids|
    ensures kids[i] in kids && At(l.optr, kids[i]) == Entry(kids, i + 1)
  {
    assert KidOk(l, p, kids, i, false);
  }

  lemma AnyFound(w: World, cur: nat, i: nat)
    requires cur in w.children && i < |w.children[cur]| && !Alive(w, w.children[cur][i])
    requires forall j :: 0 <= j < i ==> Alive(w, w.children[cur][j])
    ensures Waited(w, cur, 0, Reaped(w.children[cur][i]))
  {
  }

  lemma NoneFound(w: World, cur: nat)
    requires cur in w.children && forall j :: 0 <= j < |w.children[cur]| ==> Alive(w, w.children[cur][j])
    ensures Waited(w, cur, 0, if w.children[cur] == [] then NoChild else Slept)
  {
    var kids := w.children[cur];
    assert kids != [] ==> kids[0] in kids && Wanted(0, kids[0]);
  }

  lemma FirstOf(w: World, kids: seq<nat>, pid: nat)
    requires pid in kids && pid != 0
    ensures Youngest(w, kids, pid, pid)
  {
    var k := Index(kids, pid);
  }

  lemma {:induction false} Index(kids: seq<nat>, c: nat) returns (k: nat)
    requires c in kids
    ensures k < |kids| && kids[k] == c && c !in kids[..k]
  {
    if kids[0] == c {
      k := 0;
    } else {
      k := Index(kids[1..], c);
      k := k + 1;
    }
  }

  /** What do_wait finds: a child it may reap, no child that it could wait for, or neither. */
  ghost predicate Waited(w: World, cur: nat, pid: nat, r: Outcome)
    requires cur in w.children
  {
    match r
    case Reaped(c) => c in w.children[cur] && Wanted(pid, c) && !Alive(w, c) && Youngest(w, w.children[cur], pid, c)
    case NoChild => forall c :: c in w.children[cur] ==> !Wanted(pid, c)
    case Slept =>
      && (exists c :: c in w.children[cur] && Wanted(pid, c))
      && (forall c :: c in w.children[cur] && Wanted(pid, c) ==> Alive(w, c))
  }

  lemma InitialGood(w: World, root: nat, init: nat)
    requires root != 0 && init != 0 && root != init
    requires w == World(Links(map[init := root], map[root := init], map[], map[]), map[root := [init], init := []],
                        map[root := Runnable, init := Runnable], map[], map[root := 0, init := 1])
    ensures Good(w, root, init)
  {
    assert KidOk(w.l, root, [init], 0, false);
    assert KidsOk(w.l, root, w.children[root], false) && KidsOk(w.l, init, w.children[init], false);
    assert Listed(w.l, w.children, init);
  }

  lemma RankFacts(w: World, root: nat, init: nat, p: nat)
    requires Good(w, root, init) && p in w.children
    ensures p in w.rank && init in w.rank && w.state.Keys == w.children.Keys && init in w.children
  {
  }

  lemma MoveFacts(w: World, root: nat, init: nat, cur: nat)
    requires cur in w.children && Moving(w.l, w.children, root, cur) && Settled(w, root, init, cur) && cur != root
    requires w.children[cur] != []
    ensures w.children[cur][0] != init && w.children[cur][0] in w.state && init in w.state && Alive(w, init)
  {
    InitStays(w, root, init, cur);
    assert w.children[cur][0] in w.children[cur];
  }

  lemma HasKids(l: Links, children: map<nat, seq<nat>>, root: nat, cur: nat)
    requires cur in children && Moving(l, children, root, cur)
    ensures At(l.cptr, cur) == Entry(children[cur], 0) && (At(l.cptr, cur) == 0 <==> children[cur] == [])
  {
    assert KidsOk(l, cur, children[cur], true);
    assert children[cur] != [] ==> KidOk(l, cur, children[cur], 0, true);
  }

  lemma MovingFromFamily(l: Links, children: map<nat, seq<nat>>, root: nat, cur: nat)
    requires Family(l, children, root) && cur in children
    ensures Moving(l, children, root, cur)
  {
    forall p | p in children ensures KidsOk(l, p, children[p], p == cur) {
      Relaxed(l, p, children[p], p == cur);
    }
  }

  lemma Relaxed(l: Links, p: nat, kids: seq<nat>, stale: bool)
    requires KidsOk(l, p, kids, false)
    ensures KidsOk(l, p, kids, stale)
  {
    forall i | 0 <= i < |kids| ensures KidOk(l, p, kids, i, stale) {
      assert KidOk(l, p, kids, i, false);
    }
  }

  lemma ParentWoken(w: World, root: nat, init: nat, cur: nat, p: nat) returns (w1: World)
    requires Good(w, root, init) && p in w.children
    ensures w1 == (if p in w.waits then Woken(w, p) else w) && Good(w1, root, init) && p !in w1.waits
    ensures p in w.waits ==> Alive(w, p)
  {
    w1 := w;
    if p in w.waits {
      assert NoMissedExit(w, p);
      WokenSettled(w, root, init, 0, p);
      w1 := Woken(w, p);
    }
  }

  lemma InitWoken(w: World, root: nat, init: nat, cur: nat, c: nat) returns (w1: World)
    requires Settled(w, root, init, cur) && c in w.state
    ensures w1 == (if w.state[c] == Zombie && init in w.waits then Woken(w, init) else w)
    ensures Settled(w1, root, init, cur)
    ensures init in w1.waits ==> Alive(w1, c)
  {
    w1 := w;
    if w.state[c] == Zombie && init in w.waits {
      WokenSettled(w, root, init, cur, init);
      w1 := Woken(w, init);
    }
  }
}
