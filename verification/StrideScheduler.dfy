/**
  The stride run queue on the skew heap, as schedule() drives it: put the running process back if it is still
  runnable, pick the heap's root, charge it, take it out, run it; or run the idle process if there is none.
*/
module StrideScheduler {
  import opened Machine
  import opened SkewHeap
  import opened Stride

  /** The pointers below `root` are a proper tree of exactly the entries `s`. */
  ghost predicate IsHeap(root: Entry?, t: Tree, s: set<Entry>)
    reads s`left, s`right, s`parent
  {
    Nodes(t) == s && Proper(t) && Rep(root, t) && (root != null ==> root.parent == null)
  }

  /** Every key is the pass modulo 2^32: `laps` counts how often it has wrapped around. */
  ghost predicate Wrapped(pass: Rank, laps: Rank, s: set<Entry>)
    reads s`key
  {
    && pass.Keys == s && laps.Keys == s
    && forall e :: e in s ==> IsWrapped(e, pass, laps)
  }

  ghost predicate IsWrapped(e: Entry, pass: Rank, laps: Rank)
    requires e in pass && e in laps
    reads e`key
  {
    0 <= e.key < WORD && pass[e] == e.key + WORD * laps[e]
  }

  /** Within the spread bound comparing strides is comparing passes. */
  lemma CompReflects(pass: Rank, laps: Rank, s: set<Entry>)
    requires Spread(pass) && Wrapped(pass, laps, s)
    ensures Reflects(Comp, pass, s)
  {
    hide Comp;
    forall x, y | x in s && y in s ensures Comp(x.key, y.key) == Sign(Pos(pass, x) - Pos(pass, y)) {
      CompWrapped(x.key, laps[x], y.key, laps[y], pass[x], pass[y]);
    }
  }

  lemma CompWrapped(a: int, la: int, b: int, lb: int, x: int, y: int)
    requires 0 <= a < WORD && 0 <= b < WORD && x == a + WORD * la && y == b + WORD * lb
    requires x - y <= BIG_STRIDE && y - x <= BIG_STRIDE
    ensures Comp(a, b) == Sign(x - y)
  {
    hide Comp;
    Unwrap(a, la);
    Unwrap(b, lb);
    CompWithinTurn(x, y);
  }

  lemma Unwrap(key: int, laps: int)
    requires 0 <= key < WORD
    ensures (key + WORD * laps) % WORD == key
  {
  }

  /**
    stride_enqueue: insert `e` into the heap of the entries `s`, which are among `all`.  No entry is lost whatever
    the strides; the heap stays in order if all are within the bound, and then the new entry is its root exactly if
    no pass is smaller: among equals the last to come runs first.
  */
  method Enqueue(root: Entry?, e: Entry, ghost t: Tree, ghost s: set<Entry>, ghost all: set<Entry>, ghost pass: Rank,
                 ghost laps: Rank)
    returns (root': Entry, ghost t': Tree)
    requires IsHeap(root, t, s) && e !in s && s + {e} <= all && Wrapped(pass, laps, all)
    modifies (s + {e})`left, (s + {e})`right, (s + {e})`parent
    ensures IsHeap(root', t', s + {e}) && (Orderly(pass, t) ==> Ordered(pass, t'))
    ensures Orderly(pass, t) ==> (root' == e <==> Smallest(pass, s, e))
  {
    hide Orderly, Smallest;
    InsertedShape(e, t, s, all, pass, laps);
    ghost var one := T(e, Nil, Nil);
    assert Nodes(one) == {e};
    t' := Merged(Comp, t, one);
    root' := Insert(root, e, Comp, t, s + {e});
    assert t' == Merged(Comp, t, one);
  }

  lemma InsertedShape(e: Entry, t: Tree, s: set<Entry>, all: set<Entry>, pass: Rank, laps: Rank)
    requires Nodes(t) == s && Proper(t) && e !in s && s + {e} <= all && Wrapped(pass, laps, all)
    ensures var t' := Merged(Comp, t, T(e, Nil, Nil));
      && Nodes(t') == s + {e} && Proper(t') && t'.T? && (Orderly(pass, t) ==> Ordered(pass, t'))
      && (Orderly(pass, t) ==> (t'.e == e <==> Smallest(pass, s, e)))
  {
    var one := T(e, Nil, Nil);
    assert Nodes(one) == {e} && Proper(one) && Nodes(t) !! Nodes(one);
    MergedNodes(Comp, t, one);
    if Orderly(pass, t) {
      CompReflects(pass, laps, all);
      MergedOrdered(Comp, pass, t, one);
      InsertedOnTop(Comp, pass, t, e);
    }
  }

  /** No pass of `s` is smaller than that of `e`. */
  ghost predicate Smallest(pass: Rank, s: set<Entry>, e: Entry) {
    forall x :: x in s ==> Pos(pass, e) <= Pos(pass, x)
  }

  /** All are within the bound, and the heap is in order. */
  ghost predicate Orderly(pass: Rank, t: Tree) {
    Spread(pass) && Ordered(pass, t)
  }

  /** stride_dequeue: take `e` out; its own key need not be in order.  No other entry is lost whatever the strides. */
  method Dequeue(root: Entry, e: Entry, ghost t: Tree, ghost s: set<Entry>, ghost pass: Rank, ghost laps: Rank)
    returns (root': Entry?, ghost t': Tree)
    requires IsHeap(root, t, s) && e in s && Wrapped(pass, laps, s)
    modifies s`left, s`right, s`parent
    ensures IsHeap(root', t', s - {e}) && (OrderedBut(pass, t, e) && Spread(pass) ==> Ordered(pass, t'))
  {
    WithoutNodes(Comp, t, e);
    if OrderedBut(pass, t, e) && Spread(pass) {
      CompReflects(pass, laps, s);
      WithoutOrdered(Comp, pass, t, e);
    }
    t' := Without(Comp, t, e);
    root' := RemoveEntry(root, e, Comp, t);
  }

  ghost function Lap(key: int, step: nat, laps: int): int
    requires 0 <= key < WORD && step <= BIG_STRIDE
  {
    if key + step < WORD then laps else laps + 1
  }

  /** The charge of stride_pick_next: the 32-bit addition to the stride is an addition to the pass. */
  method Charge(e: Entry, priority: nat, ghost s: set<Entry>, ghost pass: Rank, ghost laps: Rank)
    returns (ghost pass': Rank, ghost laps': Rank)
    requires e in s && Wrapped(pass, laps, s)
    modifies e`key
    ensures pass' == pass[e := pass[e] + StepOf(priority)]
    ensures Wrapped(pass', laps', s)
  {
    var step := StepOf(priority);
    pass' := pass[e := pass[e] + step];
    laps' := laps[e := Lap(e.key, step, laps[e])];
    var sum := e.key + step;
    assert sum % WORD == if sum < WORD then sum else sum - WORD;
    e.key := sum % WORD;
  }

  /** What the scheduler stands for: its processes, the shape of the heap, and everybody's pass. */
  datatype Shadow = Shadow(members: set<Entry>, tree: Tree, pass: Rank, laps: Rank)

  /** The running process, unless it is the idle process. */
  ghost function Running(current: Entry?): set<Entry> {
    if current == null then {} else {current}
  }

  /** Everybody has a pass, and all processes but the running one are in the heap, in whatever order. */
  ghost predicate Held(pool: Entry?, current: Entry?, w: Shadow)
    reads w.members
  {
    && Running(current) <= w.members && Wrapped(w.pass, w.laps, w.members)
    && IsHeap(pool, w.tree, w.members - Running(current))
  }

  /** Who competes in a call of schedule(): everybody, without the running process if it is no longer runnable. */
  ghost function Competing(members: set<Entry>, current: Entry?, stays: bool): set<Entry> {
    if stays then members else members - Running(current)
  }

  ghost function Only(m: Rank, s: set<Entry>): Rank
    requires s <= m.Keys
  {
    map e | e in s :: m[e]
  }

  /** The scheduler with the runnable processes, and the running one. */
  class Scheduler {
    var pool: Entry?            // rq->lab6_run_pool
    var procNum: nat            // rq->proc_num
    var current: Entry?         // null stands for idleproc
    var priority: map<Entry, nat>
    ghost var w: Shadow

    /** No process is lost, and the count is right. */
    ghost predicate Kept()
      reads this, w.members
    {
      Held(pool, current, w) && w.members <= priority.Keys && procNum == |w.members - Running(current)|
    }

    /** Moreover the heap is in order. */
    ghost predicate Ok()
      reads this, w.members
    {
      Kept() && Orderly(w.pass, w.tree)
    }

    /** stride_init, with the idle process running. */
    constructor ()
      ensures Ok() && current == null && w.members == {} && w.pass == map[]
    {
      pool, procNum, current := null, 0, null;
      priority := map[];
      w := Shadow({}, Nil, map[], map[]);
    }

    /**
      wakeup_proc for a process that is not running.  It is in the heap with all others in any case; the heap stays
      in order exactly if the process has a place within the bound.
    */
    method Admit(proc: Entry, prio: nat) returns (ghost lap: int)
      requires Kept() && proc !in w.members && 0 <= proc.key < WORD
      modifies this, w.members`left, w.members`right, w.members`parent, proc`left, proc`right, proc`parent
      ensures Kept() && (old(Ok()) ==> (Ok() <==> old(Joinable(w.pass, proc, proc.key))))
      ensures current == old(current) && w.members == old(w.members) + {proc}
      ensures w.pass == old(w.pass[proc := proc.key + WORD * lap]) && priority == old(priority)[proc := prio]
    {
      hide Held, Orderly, Running, Joinable, JoinsAt;
      var pool'; ghost var w';
      HeldMembers(pool, current, w);
      lap := PlaceFor(w.pass, proc, proc.key);
      ghost var members, pass' := w.members + {proc}, w.pass[proc := proc.key + WORD * lap];
      OneMoreQueued(w.members, current, proc);
      var priority' := priority[proc := prio];
      assert members <= priority'.Keys;
      pool', w' := Join(pool, current, proc, w, lap);
      assert w'.members == members && w'.pass == pass';
      Store(pool', current, priority', procNum + 1, w');
    }

    /**
      schedule(): one of those still runnable is charged and runs, the idle process if there is nobody.  Whatever the
      strides, no process is lost.  If the heap was in order it stays so, and a smallest pass wins: that of the
      process that ran before if it is still runnable and none is smaller.
    */
    method Schedule(stays: bool)
      requires Kept()
      modifies this, w.members
      ensures Kept() && w.members == Competing(old(w.members), old(current), stays) && priority == old(priority)
      ensures w.members <= old(w.pass).Keys
      ensures w.members == {} ==> current == null && w.pass == map[]
      ensures w.members != {} ==> current != null && current in w.members && current in priority
      ensures w.members != {} ==>
        ChargedTo<Entry>(Only(old(w.pass), w.members), w.pass, current, StepOf(priority[current]))
      ensures old(Ok()) ==> Ok()
      ensures old(Ok()) && w.members != {} ==>
        Picked<Entry>(Only(old(w.pass), w.members), w.pass, current, StepOf(priority[current]))
      ensures old(Ok()) && stays && old(current) != null ==>
        (current == old(current) <==> Smallest(old(w.pass), old(w.members), old(current)))
    {
      hide Held, Orderly, Queued, Picked, Only, ChargedTo, Smallest;
      var root; ghost var v;
      HeldMembers(pool, current, w);
      root, v := Settle(pool, current, stays, w);
      if root == null {
        IdleHeld(v);
        Store(null, null, priority, 0, v);
      } else {
        QueuedRoot(root, v);
        QueuedCount(w.members, current, stays, root);
        var count := if stays && current != null then procNum + 1 else procNum;
        PickNext(root, v, count - 1);
      }
    }

    /** schedule() while everybody stays runnable. */
    method Rerun() returns (next: Entry)
      requires Ok() && w.members != {}
      modifies this, w.members
      ensures Ok() && w.members == old(w.members) && priority == old(priority)
      ensures next == current && next in w.members && Picked(old(w.pass), w.pass, next, StepOf(priority[next]))
    {
      hide Held, Orderly, Picked, ChargedTo;
      HeldMembers(pool, current, w);
      assert Only(w.pass, w.members) == w.pass;
      Schedule(true);
      next := current;
    }

    /** stride_pick_next and stride_dequeue. */
    method PickNext(root: Entry, ghost v: Shadow, count: nat)
      requires Queued(root, v) && v.members <= priority.Keys && count == |v.members - {root}|
      modifies this, v.members
      ensures Kept() && current == root && w.members == v.members && priority == old(priority)
      ensures root in priority && ChargedTo(v.pass, w.pass, root, StepOf(priority[root]))
      ensures Orderly(v.pass, v.tree) ==> Ok() && Picked(v.pass, w.pass, root, StepOf(priority[root]))
    {
      hide Held, Orderly, Picked, ChargedTo, IsHeap, Wrapped;
      QueuedRoot(root, v);
      var pool'; ghost var w';
      pool', w' := Choose(root, priority[root], v);
      Store(pool', root, priority, count, w');
    }

    method Store(pool': Entry?, current': Entry?, priority': map<Entry, nat>, procNum': nat, ghost w': Shadow)
      modifies this
      ensures pool == pool' && current == current' && w == w' && priority == priority' && procNum == procNum'
      ensures Held(pool', current', w') == old(Held(pool', current', w'))
    {
      hide Held, Running;
      pool, current, priority, procNum, w := pool', current', priority', procNum', w';
    }
  }

  /** `p` is charged `d` for running, and nobody else's pass changes. */
  ghost predicate ChargedTo<P>(pass: map<P, int>, pass': map<P, int>, p: P, d: nat) {
    p in pass && pass' == pass[p := pass[p] + d]
  }

  lemma HeldMembers(pool: Entry?, current: Entry?, w: Shadow)
    requires Held(pool, current, w)
    ensures Running(current) <= w.members && w.pass.Keys == w.members
  {
  }

  /** With an empty heap nobody is left. */
  lemma IdleHeld(v: Shadow)
    requires Queued(null, v)
    ensures v.members == {} && v.pass == map[] && Held(null, null, v) && Orderly(v.pass, v.tree)
  {
    assert v.members - Running(null) == v.members;
  }

  lemma QueuedRoot(root: Entry, v: Shadow)
    requires Queued(root, v)
    ensures root in v.members
  {
    RootOfAll(root, v.tree, v.members);
  }

  lemma OneMoreQueued(members: set<Entry>, current: Entry?, proc: Entry)
    requires proc !in members && Running(current) <= members
    ensures |members + {proc} - Running(current)| == |members - Running(current)| + 1
  {
    assert members + {proc} - Running(current) == members - Running(current) + {proc};
  }

  lemma QueuedCount(members: set<Entry>, current: Entry?, stays: bool, root: Entry)
    requires Running(current) <= members && root in Competing(members, current, stays)
    ensures |Competing(members, current, stays) - {root}| + 1 ==
      |members - Running(current)| + if stays && current != null then 1 else 0
  {
    var s := Competing(members, current, stays);
    assert s == s - {root} + {root};
    if current != null { assert members == members - {current} + {current}; }
  }

  /** The first conditional of schedule(): the running process goes back into the heap, or leaves. */
  method Settle(pool: Entry?, current: Entry?, stays: bool, ghost w: Shadow) returns (root: Entry?, ghost v: Shadow)
    requires Held(pool, current, w)
    modifies w.members`left, w.members`right, w.members`parent
    ensures v.members == Competing(w.members, current, stays) && v.members <= w.pass.Keys
    ensures v.pass == Only(w.pass, v.members) && Queued(root, v)
    ensures Orderly(w.pass, w.tree) ==> Orderly(v.pass, v.tree)
    ensures Orderly(w.pass, w.tree) && stays && current != null ==>
      (root == current <==> Smallest(w.pass, w.members, current))
  {
    if stays && current != null {
      assert w.members - {current} + {current} == w.members;
      ghost var t;
      root, t := Enqueue(pool, current, w.tree, w.members - {current}, w.members, w.pass, w.laps);
      v := w.(tree := t);
      assert Only(w.pass, w.members) == w.pass;
    } else {
      root := pool;
      ghost var s := w.members - Running(current);
      v := Shadow(s, w.tree, Only(w.pass, s), Only(w.laps, s));
      OnlyWraps(w.pass, w.laps, w.members, s);
      if Ordered(w.pass, w.tree) { RanksAgree(w.pass, v.pass, w.tree); }
    }
  }

  lemma OnlyWraps(pass: Rank, laps: Rank, s: set<Entry>, s': set<Entry>)
    requires Wrapped(pass, laps, s) && s' <= s
    ensures Wrapped(Only(pass, s'), Only(laps, s'), s') && (Spread(pass) ==> Spread(Only(pass, s')))
  {
    forall e | e in s' ensures IsWrapped(e, Only(pass, s'), Only(laps, s')) {
      assert IsWrapped(e, pass, laps);
    }
  }

  /** What each process is charged for one run. */
  ghost function Steps(members: set<Entry>, priority: map<Entry, nat>): map<Entry, nat>
    requires members <= priority.Keys
  {
    map e | e in members :: StepOf(priority[e])
  }

  /** Calling schedule() `n` times while all stay runnable is a run of picks in the sense of the fairness theorems. */
  method RunFor(k: Scheduler, n: nat) returns (ghost passes: seq<Rank>, ghost picks: seq<Entry>)
    requires k.Ok() && k.w.members != {}
    modifies k, k.w.members
    ensures k.Ok() && k.w.members == old(k.w.members) && k.priority == old(k.priority)
    ensures |picks| == n && IsRun(passes, picks, Steps(k.w.members, k.priority)) && passes[0] == old(k.w.pass)
    ensures AllEqual(old(k.w.pass)) ==>
      forall e, f :: e in k.w.members && f in k.w.members ==> WithinShare(picks, k.priority, e, f)
  {
    hide Held, Orderly, IsRun, Picked, WithinShare, AllEqual;
    HeldMembers(k.pool, k.current, k.w);
    RunStarts(k.w.pass, Steps(k.w.members, k.priority));
    passes, picks := [k.w.pass], [];
    var i := 0;
    while i < n
      invariant i == |picks| <= n && k.Ok() && k.w.members == old(k.w.members) && k.priority == old(k.priority)
      invariant |passes| == |picks| + 1 && passes[0] == old(k.w.pass) && passes[i] == k.w.pass
      invariant IsRun(passes, picks, Steps(k.w.members, k.priority))
    {
      var next := k.Rerun();
      ghost var step := Steps(k.w.members, k.priority);
      RunExtended(passes, picks, step, k.w.pass, next);
      passes, picks := passes + [k.w.pass], picks + [next];
      i := i + 1;
    }
    if AllEqual(old(k.w.pass)) { RunShares(passes, picks, k.w.members, k.priority); }
  }

  ghost predicate AllEqual(pass: Rank) {
    forall e, f :: e in pass && f in pass ==> pass[e] == pass[f]
  }

  lemma RunShares(passes: seq<Rank>, picks: seq<Entry>, members: set<Entry>, priority: map<Entry, nat>)
    requires members <= priority.Keys && IsRun(passes, picks, Steps(members, priority)) && AllEqual(passes[0])
    ensures forall e, f :: e in members && f in members ==> WithinShare(picks, priority, e, f)
  {
    hide IsRun, WithinShare;
    var own := map e | e in members :: priority[e];
    assert StepsOf(own) == Steps(members, priority);
    forall e, f | e in members && f in members ensures WithinShare(picks, priority, e, f) {
      Shares(passes, picks, own, e, f);
      SamePriorities(picks, own, priority, e, f);
    }
  }

  lemma SamePriorities(picks: seq<Entry>, own: map<Entry, nat>, priority: map<Entry, nat>, e: Entry, f: Entry)
    requires e in own && f in own && e in priority && f in priority && own[e] == priority[e] && own[f] == priority[f]
    requires WithinShare(picks, own, e, f)
    ensures WithinShare(picks, priority, e, f)
  {
  }

  lemma RunStarts(pass: Rank, step: map<Entry, nat>)
    requires pass.Keys == step.Keys && forall e :: e in step ==> step[e] <= BIG_STRIDE
    ensures IsRun([pass], [], step)
  {
  }

  lemma RunExtended(passes: seq<Rank>, picks: seq<Entry>, step: map<Entry, nat>, pass: Rank, e: Entry)
    requires IsRun(passes, picks, step) && e in step && Picked(passes[|picks|], pass, e, step[e])
    ensures IsRun(passes + [pass], picks + [e], step)
  {
    var passes', picks' := passes + [pass], picks + [e];
    forall k | 0 <= k < |picks'| ensures picks'[k] in step
      && Picked(passes'[k], passes'[k + 1], picks'[k], step[picks'[k]]) {
      if k < |picks| {
        assert Picked(passes[k], passes[k + 1], picks[k], step[picks[k]]);
      }
    }
  }

  /** The heap as schedule() has it after putting the running process back. */
  ghost predicate Queued(root: Entry?, w: Shadow)
    reads w.members
  {
    Wrapped(w.pass, w.laps, w.members) && IsHeap(root, w.tree, w.members)
  }

  /** A turn on which the process is within the bound, if there is one. */
  lemma PlaceFor(pass: Rank, proc: Entry, key: int) returns (lap: int)
    ensures Joinable(pass, proc, key) <==> JoinsAt(pass, proc, key, lap)
  {
    lap := 0;
    if Joinable(pass, proc, key) {
      lap :| JoinsAt(pass, proc, key, lap);
    }
  }

  method Join(pool: Entry?, current: Entry?, proc: Entry, ghost w: Shadow, ghost lap: int)
    returns (pool': Entry, ghost w': Shadow)
    requires Held(pool, current, w) && proc !in w.members && 0 <= proc.key < WORD
    modifies w.members`left, w.members`right, w.members`parent, proc`left, proc`right, proc`parent
    ensures w'.members == w.members + {proc} && w'.pass == w.pass[proc := old(proc.key) + WORD * lap]
    ensures Held(pool', current, w')
    ensures Orderly(w.pass, w.tree) ==> (Orderly(w'.pass, w'.tree) <==> JoinsAt(w.pass, proc, old(proc.key), lap))
  {
    hide Spread, Ordered, Wrapped, Rep, Proper;
    ghost var start := proc.key + WORD * lap;
    ghost var pass', laps' := w.pass[proc := start], w.laps[proc := lap];
    JoinWraps(w.members, proc, w.pass, w.laps, start, lap);
    if Ordered(w.pass, w.tree) { RanksAgree(w.pass, pass', w.tree); }
    assert w.members - Running(current) + {proc} == w.members + {proc} - Running(current);
    ghost var t;
    pool', t := Enqueue(pool, proc, w.tree, w.members - Running(current), w.members + {proc}, pass', laps');
    w' := Shadow(w.members + {proc}, t, pass', laps');
  }

  lemma JoinWraps(members: set<Entry>, proc: Entry, pass: Rank, laps: Rank, start: int, lap: int)
    requires Wrapped(pass, laps, members) && proc !in members && 0 <= proc.key < WORD && start == proc.key + WORD * lap
    ensures Wrapped(pass[proc := start], laps[proc := lap], members + {proc})
  {
    var pass', laps' := pass[proc := start], laps[proc := lap];
    assert forall e :: e in members ==> IsWrapped(e, pass, laps) && IsWrapped(e, pass', laps');
    assert IsWrapped(proc, pass', laps');
  }

  /** Charge the root and take it out. */
  method Choose(root: Entry, prio: nat, ghost w: Shadow) returns (pool: Entry?, ghost w': Shadow)
    requires Queued(root, w)
    modifies w.members
    ensures Held(pool, root, w') && w'.members == w.members && ChargedTo(w.pass, w'.pass, root, StepOf(prio))
    ensures Orderly(w.pass, w.tree) ==> Orderly(w'.pass, w'.tree) && Picked(w.pass, w'.pass, root, StepOf(prio))
  {
    ghost var pass', laps', t;
    RootOfAll(root, w.tree, w.members);
    pass', laps' := ChargeRoot(root, prio, w);
    pool, t := Dequeue(root, root, w.tree, w.members, pass', laps');
    w' := Shadow(w.members, t, pass', laps');
  }

  /** Charging the root spoils the heap order only at the root itself. */
  method ChargeRoot(root: Entry, prio: nat, ghost w: Shadow) returns (ghost pass': Rank, ghost laps': Rank)
    requires Queued(root, w) && root in w.members
    modifies root`key
    ensures ChargedTo(w.pass, pass', root, StepOf(prio)) && Wrapped(pass', laps', w.members)
    ensures Orderly(w.pass, w.tree) ==>
      Picked(w.pass, pass', root, StepOf(prio)) && Spread(pass') && OrderedBut(pass', w.tree, root)
  {
    RootOfAll(root, w.tree, w.members);
    ghost var pass := w.pass;
    assert pass.Keys == w.members == Nodes(w.tree);
    hide Nodes, Proper, Rep, Orderly, Picked, OrderedBut, StepOf;
    pass', laps' := Charge(root, prio, w.members, pass, w.laps);
    if Orderly(pass, w.tree) {
      RootPicked(pass, pass', w.tree, root, StepOf(prio));
    }
  }

  lemma RootPicked(pass: Rank, pass': Rank, t: Tree, root: Entry, d: nat)
    requires Orderly(pass, t) && pass.Keys == Nodes(t) && t.T? && t.e == root && d <= BIG_STRIDE && root in pass
    requires pass' == pass[root := pass[root] + d]
    ensures Picked(pass, pass', root, d) && Spread(pass') && OrderedBut(pass', t, root)
  {
    hide Nodes, OrderedBut, Ordered;
    MinimumOfAll(t, pass.Keys, pass);
    PickKeepsSpread(pass, pass', root, d);
    RankChanged(pass, pass', t, root);
  }

  lemma RootOfAll(root: Entry, t: Tree, s: set<Entry>)
    requires IsHeap(root, t, s)
    ensures t.T? && t.e == root && root in s
  {
  }

  lemma MinimumOfAll(t: Tree, s: set<Entry>, pass: Rank)
    requires Nodes(t) == s && Ordered(pass, t) && pass.Keys == s && t.T?
    ensures forall q :: q in s ==> pass[t.e] <= pass[q]
  {
    forall q | q in s ensures pass[t.e] <= pass[q] {
      MinimumAtRoot(pass, t, q);
    }
  }

  lemma {:induction false} RanksAgree(rank: Rank, rank': Rank, t: Tree)
    requires Ordered(rank, t) && forall e :: e in Nodes(t) ==> Pos(rank', e) == Pos(rank, e)
    ensures Ordered(rank', t)
  {
    if t.T? {
      RanksAgree(rank, rank', t.l);
      RanksAgree(rank, rank', t.r);
    }
  }
}
