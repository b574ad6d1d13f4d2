/**
  Fork, exit and wait (kern/process/proc.c): the family of processes and who sleeps waiting for a child.
  Killing a process is a wakeup; memory, files and scheduling are left out.
*/
module Processes {
  import opened ProcLinks

  datatype State = Runnable | Sleeping | Zombie

  datatype Outcome = NoChild | Slept | Reaped(child: nat)

  /** The processes as values: links, children, states, and for those that wait for a child which one (0: any). */
  datatype World = World(l: Links, children: map<nat, seq<nat>>, state: map<nat, State>, waits: map<nat, nat>,
    rank: map<nat, nat>)

  /** Whether waiting for `pid` is waiting for child `c`. */
  predicate Wanted(pid: nat, c: nat) {
    pid == 0 || pid == c
  }

  /** A process that sleeps until a child exits has no child it could reap. */
  ghost predicate NoMissedExit(w: World, p: nat)
    requires p in w.waits
  {
    && p in w.children && p in w.state && w.state[p] == Sleeping
    && forall c :: c in w.children[p] && Wanted(w.waits[p], c) ==> c in w.state && w.state[c] != Zombie
  }

  ghost predicate Ranked(w: World) {
    w.rank.Keys == w.children.Keys && forall p, c :: p in w.children && c in w.children[p] ==>
      c in w.rank && w.rank[p] < w.rank[c]
  }

  /** Parents come before their children, so the family is a forest; init comes before all but the idle process. */
  ghost predicate Older(w: World, root: nat, init: nat) {
    && w.rank.Keys == w.children.Keys && init in w.children && init != root && root in w.children
      && init in w.children[root]
    && Ranked(w)
    && (forall c :: c in w.children && c != root && c != init ==> w.rank[init] < w.rank[c])
  }

  ghost predicate Alive(w: World, p: nat) {
    p in w.state && w.state[p] != Zombie
  }

  /** Zombies have no children. */
  ghost predicate Barren(w: World, exiting: nat) {
    forall p :: p in w.children && p != exiting && !Alive(w, p) ==> w.children[p] == []
  }

  ghost predicate Served(w: World) {
    forall p :: p in w.waits ==> NoMissedExit(w, p)
  }

  /** All but the family itself, with the children of `exiting` still to be moved. */
  ghost predicate Settled(w: World, root: nat, init: nat, exiting: nat) {
    w.state.Keys == w.children.Keys && Older(w, root, init) && Alive(w, root) && Alive(w, init) && Barren(w, exiting)
      && Served(w)
  }

  ghost predicate Good(w: World, root: nat, init: nat) {
    Family(w.l, w.children, root) && Settled(w, root, init, 0)
  }

  /** Those that sleep for a timer or the keyboard do sleep, and do not wait for a child. */
  ghost predicate Dozing(w: World, dozing: set<nat>) {
    forall p :: p in dozing ==> p in w.state && w.state[p] == Sleeping && p !in w.waits
  }

  /** No process is its own ancestor: the rank falls along every chain of parents. */
  lemma ParentIsOlder(w: World, root: nat, init: nat, c: nat)
    requires Good(w, root, init) && c in w.children && c != root
    ensures At(w.l.parent, c) in w.children && w.rank[At(w.l.parent, c)] < w.rank[c]
  {
    assert Listed(w.l, w.children, c);
  }

  // ---------------------------------------------------------------- steps

  /** wakeup_proc */
  ghost function Woken(w: World, p: nat): World {
    w.(state := w.state[p := Runnable], waits := w.waits - {p})
  }

  lemma WokenSettled(w: World, root: nat, init: nat, exiting: nat, p: nat)
    requires Settled(w, root, init, exiting) && Alive(w, p)
    ensures Settled(Woken(w, p), root, init, exiting)
  {
    hide Older, Served;
    SameOlder(w, Woken(w, p), root, init);
    WokenServed(w, p);
  }

  lemma WokenServed(w: World, p: nat)
    requires Served(w)
    ensures Served(Woken(w, p))
  {
    forall q | q in Woken(w, p).waits ensures NoMissedExit(Woken(w, p), q) {
      assert NoMissedExit(w, q);
    }
  }

  lemma SameOlder(w: World, w': World, root: nat, init: nat)
    requires Older(w, root, init) && w'.children == w.children && w'.rank == w.rank
    ensures Older(w', root, init)
  {
  }

  /** A process falls asleep without waiting for a child. */
  ghost function Dozed(w: World, p: nat): World {
    w.(state := w.state[p := Sleeping])
  }

  lemma DozedGood(w: World, root: nat, init: nat, p: nat)
    requires Good(w, root, init) && Alive(w, p)
    ensures Good(Dozed(w, p), root, init)
  {
    hide Family, Older;
    SameOlder(w, Dozed(w, p), root, init);
    forall q | q in w.waits ensures NoMissedExit(Dozed(w, p), q) {
      assert NoMissedExit(w, q);
    }
  }

  /** do_fork: `c` is the youngest child of `p`. */
  ghost function Forked(w: World, p: nat, c: nat, rank: nat): World
    requires p in w.children
  {
    World(Adopted(w.l, p, c), w.children[p := [c] + w.children[p]][c := []], w.state[c := Runnable], w.waits,
      w.rank[c := rank])
  }

  lemma ForkedGood(w: World, root: nat, init: nat, p: nat, c: nat, rank: nat)
    requires Good(w, root, init) && p in w.children && c !in w.children && c != 0 && At(w.l.cptr, c) == 0
    requires Alive(w, p) && p in w.rank && init in w.rank && rank > w.rank[p] && rank > w.rank[init]
    ensures Good(Forked(w, p, c, rank), root, init)
  {
    hide Family, Older, Adopted;
    var w' := Forked(w, p, c, rank);
    SetLinksFamily(w.l, w.children, root, p, c);
    ForkedOlder(w, root, init, p, c, rank);
    forall q | q in w'.waits ensures NoMissedExit(w', q) {
      ForkedWaits(w, p, c, rank, q);
    }
  }

  lemma ForkedOlder(w: World, root: nat, init: nat, p: nat, c: nat, rank: nat)
    requires Older(w, root, init) && p in w.children && c !in w.children && rank > w.rank[p] && rank > w.rank[init]
    ensures Older(Forked(w, p, c, rank), root, init)
  {
    hide Adopted;
    var w' := Forked(w, p, c, rank);
    assert Ranked(w') by {
      forall q, x | q in w'.children && x in w'.children[q] ensures x in w'.rank && w'.rank[q] < w'.rank[x] {
        if x != c { assert q in w.children && x in w.children[q]; }
      }
    }
  }

  lemma ForkedWaits(w: World, p: nat, c: nat, rank: nat, q: nat)
    requires q in w.waits && NoMissedExit(w, q) && p in w.children && c !in w.children
    ensures NoMissedExit(Forked(w, p, c, rank), q)
  {
  }

  /** The first part of do_exit: the process is a zombie, and its parent is awake. */
  ghost function Died(w: World, p: nat): World {
    w.(state := w.state[p := Zombie])
  }

  lemma DiedSettled(w: World, root: nat, init: nat, p: nat)
    requires Good(w, root, init) && p in w.children && p != root && p != init && p !in w.waits
    requires At(w.l.parent, p) !in w.waits
    ensures Settled(Died(w, p), root, init, p)
  {
    assert 0 !in w.children;
    hide Older, Family, Served;
    SameOlder(w, Died(w, p), root, init);
    DiedServed(w, root, p);
  }

  lemma DiedServed(w: World, root: nat, p: nat)
    requires Family(w.l, w.children, root) && Served(w) && p in w.children && p != root && p !in w.waits
    requires At(w.l.parent, p) !in w.waits
    ensures Served(Died(w, p))
  {
    hide Family;
    forall q | q in w.waits ensures NoMissedExit(Died(w, p), q) {
      assert NoMissedExit(w, q);
      NotMine(w, root, p, q);
    }
  }

  lemma NotMine(w: World, root: nat, p: nat, q: nat)
    requires Family(w.l, w.children, root) && p in w.children && p != root && q in w.children && q != At(w.l.parent, p)
    ensures p !in w.children[q]
  {
    assert Listed(w.l, w.children, p);
    if p in w.children[q] { OneParent(w.l, w.children, root, q, At(w.l.parent, p), p); }
  }

  // ---------------------------------------------------------------- moving the children to init

  /** A child of the exiting process goes to init, which is woken if it waits and the child is a zombie. */
  ghost function Moved(w: World, cur: nat, init: nat): World
    requires cur in w.children && init in w.children && w.children[cur] != []
  {
    w.(l := MovedOne(w.l, cur, init), children := Handed(w.children, cur, init))
  }

  lemma MovedOlder(w: World, root: nat, init: nat, cur: nat)
    requires Older(w, root, init) && cur in w.children && cur != init && w.children[cur] != []
    requires w.children[cur][0] != root && w.children[cur][0] != init
    requires w.children[cur][0] in w.children
    ensures Older(Moved(w, cur, init), root, init)
  {
    MovedRanked(w, cur, init);
    hide MovedOne, Ranked;
  }

  lemma MovedRanked(w: World, cur: nat, init: nat)
    requires Ranked(w) && cur in w.children && init in w.children && cur != init && w.children[cur] != []
    requires w.children[cur][0] in w.children && w.rank[init] < w.rank[w.children[cur][0]]
    ensures Ranked(Moved(w, cur, init))
  {
    hide MovedOne, Handed;
    var w' := Moved(w, cur, init);
    HandedKeys(w.children, cur, init);
    forall q, x | q in w'.children && x in w'.children[q] ensures x in w'.rank && w'.rank[q] < w'.rank[x] {
      HandedMember(w.children, cur, init, q, x);
    }
  }

  lemma HandedKeys(children: map<nat, seq<nat>>, cur: nat, init: nat)
    requires cur in children && init in children && children[cur] != []
    ensures Handed(children, cur, init).Keys == children.Keys
  {
  }

  lemma HandedMember(children: map<nat, seq<nat>>, cur: nat, init: nat, q: nat, x: nat)
    requires cur in children && init in children && cur != init && children[cur] != []
    requires q in Handed(children, cur, init) && x in Handed(children, cur, init)[q]
    ensures q in children && (x in children[q] || (x == children[cur][0] && q == init))
  {
    assert forall y :: y in children[cur][1..] ==> y in children[cur];
  }

  lemma MovedWaits(w: World, init: nat, cur: nat, q: nat)
    requires cur in w.children && init in w.children && cur != init && w.children[cur] != [] && q in w.waits
    requires NoMissedExit(w, q)
    requires q == init ==> w.children[cur][0] in w.state && w.state[w.children[cur][0]] != Zombie
    ensures NoMissedExit(Moved(w, cur, init), q)
  {
    hide MovedOne;
  }

  lemma MovingFacts(w: World, root: nat, init: nat, cur: nat)
    requires Moving(w.l, w.children, root, cur) && Settled(w, root, init, cur) && w.children[cur] != []
    ensures cur in w.children && init in w.children && 0 !in w.children
    ensures w.children[cur][0] in w.children && w.children[cur][0] != root
  {
    assert w.children[cur][0] in w.children[cur];
  }

  lemma MovedSettled(w: World, root: nat, init: nat, cur: nat)
    requires Moving(w.l, w.children, root, cur) && Settled(w, root, init, cur) && cur != init && w.children[cur] != []
    requires init in w.waits ==> Alive(w, w.children[cur][0])
    requires w.children[cur][0] != init
    ensures Moving(Moved(w, cur, init).l, Moved(w, cur, init).children, root, cur)
    ensures Settled(Moved(w, cur, init), root, init, cur)
  {
    hide Older, Moving, MovedOne, Served;
    MovingFacts(w, root, init, cur);
    MovedFamily(w.l, w.children, root, cur, init);
    MovedOlder(w, root, init, cur);
    MovedServed(w, init, cur);
  }

  lemma MovedServed(w: World, init: nat, cur: nat)
    requires Served(w) && cur in w.children && init in w.children && cur != init && w.children[cur] != []
    requires init in w.waits ==> Alive(w, w.children[cur][0])
    ensures Served(Moved(w, cur, init))
  {
    forall q | q in w.waits ensures NoMissedExit(Moved(w, cur, init), q) {
      assert NoMissedExit(w, q);
      MovedWaits(w, init, cur, q);
    }
  }

  /** init is nobody's child but the idle process's. */
  lemma InitStays(w: World, root: nat, init: nat, cur: nat)
    requires Moving(w.l, w.children, root, cur) && Older(w, root, init) && cur != root && w.children[cur] != []
    ensures w.children[cur][0] != init
  {
    KidsParent(w.l, cur, w.children[cur], true);
    KidsParent(w.l, root, w.children[root], false);
    assert w.children[cur][0] in w.children[cur];
  }

  ghost function Reversed(s: seq<nat>): seq<nat> {
    if s == [] then [] else Reversed(s[1..]) + [s[0]]
  }

  /** All children of `cur` have gone to init, the oldest in front. */
  ghost function AllHanded(children: map<nat, seq<nat>>, cur: nat, init: nat): map<nat, seq<nat>>
    requires cur in children && init in children
  {
    children[cur := []][init := Reversed(children[cur]) + children[init]]
  }

  lemma HandedStep(children: map<nat, seq<nat>>, cur: nat, init: nat)
    requires cur in children && init in children && cur != init && children[cur] != []
    ensures AllHanded(Handed(children, cur, init), cur, init) == AllHanded(children, cur, init)
  {
    var kids := children[cur];
    assert Reversed(kids[1..]) + ([kids[0]] + children[init]) == Reversed(kids) + children[init];
  }

  lemma HandedDone(children: map<nat, seq<nat>>, cur: nat, init: nat)
    requires cur in children && init in children && cur != init && children[cur] == []
    ensures AllHanded(children, cur, init) == children
  {
    assert [] + children[init] == children[init];
  }

  lemma ExitDone(w: World, root: nat, init: nat, cur: nat)
    requires Moving(w.l, w.children, root, cur) && Settled(w, root, init, cur) && w.children[cur] == []
    ensures Good(w, root, init)
  {
    assert KidsOk(w.l, cur, [], true);
    assert KidsOk(w.l, cur, [], false);
  }

  // ---------------------------------------------------------------- waiting

  ghost function Asleep(w: World, p: nat, pid: nat): World {
    w.(state := w.state[p := Sleeping], waits := w.waits[p := pid])
  }

  lemma AsleepGood(w: World, root: nat, init: nat, p: nat, pid: nat)
    requires Good(w, root, init) && p in w.children && Alive(w, p)
    requires forall c :: c in w.children[p] && Wanted(pid, c) ==> Alive(w, c)
    ensures Good(Asleep(w, p, pid), root, init)
  {
    hide Older, Family, Served;
    var w' := Asleep(w, p, pid);
    SameOlder(w, w', root, init);
    AsleepServed(w, p, pid);
  }

  lemma AsleepServed(w: World, p: nat, pid: nat)
    requires Served(w) && p in w.children && Alive(w, p)
    requires forall c :: c in w.children[p] && Wanted(pid, c) ==> Alive(w, c)
    ensures Served(Asleep(w, p, pid))
  {
    var w' := Asleep(w, p, pid);
    forall q | q in w'.waits ensures NoMissedExit(w', q) {
      if q != p { assert NoMissedExit(w, q); }
    }
  }

  /** do_wait's reaping of child `k` of `p`. */
  ghost function Buried(w: World, p: nat, k: nat): World
    requires p in w.children && k < |w.children[p]|
  {
    var c := w.children[p][k];
    World(Removed(w.l, c), Without(w.children, p, k), w.state - {c}, w.waits, w.rank - {c})
  }

  lemma BuriedGood(w: World, root: nat, init: nat, p: nat, k: nat)
    requires Good(w, root, init) && p in w.children && k < |w.children[p]|
    requires w.children[p][k] in w.state && w.state[w.children[p][k]] == Zombie && Alive(w, p)
    ensures Good(Buried(w, p, k), root, init)
  {
    hide Family, Older, Served, Removed;
    BuriedFacts(w, root, init, p, k);
    RemovedFamily(w.l, w.children, root, p, k);
    OnlyParent(w, root, p, w.children[p][k]);
    BuriedOlder(w, root, init, p, k);
    BuriedServed(w, p, k);
  }

  lemma BuriedFacts(w: World, root: nat, init: nat, p: nat, k: nat)
    requires Good(w, root, init) && p in w.children && k < |w.children[p]|
    requires w.children[p][k] in w.state && w.state[w.children[p][k]] == Zombie && Alive(w, p)
    ensures var c := w.children[p][k];
      c in w.children[p] && c in w.children && c != root && c != init && w.children[c] == []
    ensures forall x :: x in w.children[p][..k] + w.children[p][k + 1..] <==>
      x in w.children[p] && x != w.children[p][k]
  {
    var c := w.children[p][k];
    assert c in w.children[p] && KidsOk(w.l, p, w.children[p], false);
    assert 0 !in w.children && w.children[c] == [];
    WithoutMembers(w.children[p], k);
  }

  lemma OnlyParent(w: World, root: nat, p: nat, c: nat)
    requires Family(w.l, w.children, root) && p in w.children && c in w.children[p]
    ensures forall q :: q in w.children && q != p ==> c !in w.children[q]
  {
    forall q | q in w.children && q != p ensures c !in w.children[q] {
      if c in w.children[q] { OneParent(w.l, w.children, root, p, q, c); }
    }
  }

  lemma BuriedOlder(w: World, root: nat, init: nat, p: nat, k: nat)
    requires Older(w, root, init) && p in w.children && k < |w.children[p]| && w.children[p][k] != root
    requires w.children[p][k] != init
    requires forall x :: x in w.children[p][..k] + w.children[p][k + 1..] <==>
      x in w.children[p] && x != w.children[p][k]
    requires forall q :: q in w.children && q != p ==> w.children[p][k] !in w.children[q]
    ensures Older(Buried(w, p, k), root, init)
  {
    BuriedRanked(w, p, k);
    hide Removed, Ranked;
  }

  lemma BuriedRanked(w: World, p: nat, k: nat)
    requires Ranked(w) && p in w.children && k < |w.children[p]|
    requires forall x :: x in w.children[p][..k] + w.children[p][k + 1..] <==>
      x in w.children[p] && x != w.children[p][k]
    requires forall q :: q in w.children && q != p ==> w.children[p][k] !in w.children[q]
    ensures Ranked(Buried(w, p, k))
  {
    hide Removed;
    var w' := Buried(w, p, k);
    forall q, x | q in w'.children && x in w'.children[q] ensures x in w'.rank && w'.rank[q] < w'.rank[x] {
      assert x in w.children[q];
    }
  }

  lemma BuriedServed(w: World, p: nat, k: nat)
    requires Served(w) && p in w.children && k < |w.children[p]|
    requires w.children[p][k] in w.state && w.state[w.children[p][k]] == Zombie
    requires forall x :: x in w.children[p][..k] + w.children[p][k + 1..] <==>
      x in w.children[p] && x != w.children[p][k]
    requires forall q :: q in w.children && q != p ==> w.children[p][k] !in w.children[q]
    ensures Served(Buried(w, p, k))
  {
    hide Removed;
    var w' := Buried(w, p, k);
    forall q | q in w'.waits ensures NoMissedExit(w', q) {
      assert NoMissedExit(w, q);
    }
  }
}
