/**
  Stride scheduling (kern/schedule/stride_sched.c): 32-bit strides that wrap around, compared by the sign
  of their 32-bit difference.  The `pass` of a process is its stride as an unbounded number.
*/
module Stride {
  import opened Machine
  import opened SkewHeap

  const BIG_STRIDE: int := 0x7FFFFFFF

  /** proc_stride_comp_f on two 32-bit strides: the difference as an int32_t. */
  function Comp(a: int, b: int): int {
    var d := (a - b) % WORD;
    Sign(if d < WORD / 2 then d else d - WORD)
  }

  /** What stride_pick_next adds to the chosen process. */
  function StepOf(priority: nat): (d: nat)
    ensures d <= BIG_STRIDE
  {
    if priority == 0 then BIG_STRIDE else
      Quotient(BIG_STRIDE, priority);
      BIG_STRIDE / priority
  }

  lemma Quotient(a: nat, b: nat)
    requires b > 0
    ensures 0 <= a / b <= a
  {
    var q := a / b;
    assert a == b * q + a % b;
    AtLeast(b, q);
  }

  lemma AtLeast(b: nat, q: nat)
    requires b > 0
    ensures b * q >= q
  {
  }

  /** What a priority counts for: 0 is as good as 1. */
  function Weight(priority: nat): (w: nat)
    ensures w > 0
  {
    if priority == 0 then 1 else priority
  }

  /** The charge, times what the priority counts for, is BIG_STRIDE rounded down to a multiple of it. */
  lemma StepMeaning(priority: nat)
    ensures var d, w := StepOf(priority), Weight(priority);
      d * w + BIG_STRIDE % w == BIG_STRIDE && d * w <= BIG_STRIDE < (d + 1) * w
  {
    var w := Weight(priority);
    assert BIG_STRIDE == w * (BIG_STRIDE / w) + BIG_STRIDE % w;
    OneMore(StepOf(priority), w);
  }

  /** The charge is zero, so that running costs nothing, exactly for priorities above BIG_STRIDE. */
  lemma StepZero(priority: nat)
    ensures StepOf(priority) == 0 <==> priority > BIG_STRIDE
  {
    if 0 < priority {
      var q := BIG_STRIDE / priority;
      assert BIG_STRIDE == priority * q + BIG_STRIDE % priority;
      if q > 0 { AtLeast(q, priority); }
    }
  }

  lemma Difference(x: int, y: int)
    ensures (x % WORD - y % WORD) % WORD == (x - y) % WORD
  {
  }

  /** The comparison of the strides that stand for two passes. */
  function StrideComp(x: int, y: int): int {
    Comp(x % WORD, y % WORD)
  }

  /** The wrapped comparison of two passes is the true one exactly if their distance reads right in 32 bits. */
  lemma CompExact(x: int, y: int)
    ensures StrideComp(x, y) == Sign(x - y) <==>
      || x == y
      || (x > y && 0 < (x - y) % WORD < WORD / 2)
      || (x < y && (x - y) % WORD >= WORD / 2)
  {
    Difference(x, y);
  }

  /** For passes less than a whole turn apart: right from -BIG_STRIDE - 1 to BIG_STRIDE and reversed beyond. */
  lemma CompWithinTurn(x: int, y: int)
    requires x - y < WORD && y - x < WORD
    ensures StrideComp(x, y) == if -(BIG_STRIDE + 1) <= x - y <= BIG_STRIDE then Sign(x - y) else -Sign(x - y)
    ensures StrideComp(x, y) == Sign(x - y) <==> -(BIG_STRIDE + 1) <= x - y <= BIG_STRIDE
  {
    Difference(x, y);
    var d := x - y;
    assert d % WORD == if d < 0 then d + WORD else d;
  }

  /** A process ahead by BIG_STRIDE + 1 compares as behind; one that far behind still compares right. */
  lemma CompWrongBeyond(y: int)
    ensures StrideComp(y + BIG_STRIDE + 1, y) == -1 == StrideComp(y, y + BIG_STRIDE + 1)
  {
    CompWithinTurn(y + BIG_STRIDE + 1, y);
    CompWithinTurn(y, y + BIG_STRIDE + 1);
  }

  // ---------------------------------------------------------------- who may take part

  ghost predicate Spread<P>(pass: map<P, int>) {
    forall p, q :: p in pass && q in pass ==> pass[p] - pass[q] <= BIG_STRIDE
  }

  /** The 32-bit strides that stand for passes. */
  ghost function Strides<P>(pass: map<P, int>): map<P, int> {
    map p | p in pass :: pass[p] % WORD
  }

  /** Comparing strides is a total preorder on the processes. */
  ghost predicate Comparable<P>(stride: map<P, int>) {
    && (forall p, q :: p in stride && q in stride ==> Comp(stride[p], stride[q]) == -Comp(stride[q], stride[p]))
    && forall p, q, r :: p in stride && q in stride && r in stride ==>
        Comp(stride[p], stride[q]) <= 0 && Comp(stride[q], stride[r]) <= 0 ==> Comp(stride[p], stride[r]) <= 0
  }

  /** A process whose stride is `key` can be given a pass with which the bound on the spread still holds. */
  ghost predicate Joinable<P>(pass: map<P, int>, p: P, key: int) {
    exists lap: int :: JoinsAt(pass, p, key, lap)
  }

  ghost predicate JoinsAt<P>(pass: map<P, int>, p: P, key: int, lap: int) {
    Spread(pass[p := key + WORD * lap])
  }

  /** A process may join exactly if comparing strides still is an order; otherwise no heap on strides means anything. */
  lemma JoinableExactly<P>(pass: map<P, int>, p: P, key: int)
    requires Spread(pass) && p !in pass && 0 <= key < WORD
    ensures Joinable(pass, p, key) <==> Comparable(Strides(pass)[p := key])
  {
    hide Comparable, Strides, Spread;
    if Joinable(pass, p, key) {
      var lap: int :| JoinsAt(pass, p, key, lap);
      SpreadComparable(pass[p := key + WORD * lap]);
      StridesWith(pass, p, key, lap);
    }
    if Comparable(Strides(pass)[p := key]) {
      var lap := ComparableJoins(pass, p, key);
      assert JoinsAt(pass, p, key, lap);
    }
  }

  /**
    Whether a process has a place can be read off the strides of one that is last and one that is first: its
    distance to the reach of the first, and theirs to each other, must not add up to more than twice BIG_STRIDE.
  */
  lemma JoinableByEnds<P>(pass: map<P, int>, p: P, key: int, low: P, high: P)
    requires Spread(pass) && p !in pass && low in pass && high in pass
    requires forall q :: q in pass ==> pass[low] <= pass[q] <= pass[high]
    ensures Joinable(pass, p, key) <==> Reach(key, pass[low] % WORD, pass[high] % WORD) <= 2 * BIG_STRIDE
  {
    hide Reach;
    var x, y := pass[low], pass[high];
    ReachExact(key, x, y);
    var lap := TurnAt(key, y);
    OnTurn(key, lap, y - BIG_STRIDE);
    if Joinable(pass, p, key) {
      var lap': int :| JoinsAt(pass, p, key, lap');
      PlaceBetween(pass, p, key + WORD * lap', low, high);
      OnTurn(key, lap', y - BIG_STRIDE);
    }
    if key + WORD * lap <= x + BIG_STRIDE {
      PlaceFound(pass, p, key + WORD * lap, low, high);
      assert JoinsAt(pass, p, key, lap);
    }
  }

  /** How far the stride `key` is above the least that `high` allows, and `high` above `low`. */
  function Reach(key: int, low: int, high: int): int {
    (key - high + BIG_STRIDE) % WORD + (high - low) % WORD
  }

  lemma ReachExact(key: int, x: int, y: int)
    requires 0 <= y - x <= BIG_STRIDE
    ensures Reach(key, x % WORD, y % WORD) == (key - (y - BIG_STRIDE)) % WORD + y - x
  {
    Difference(y, x);
    Shifted(key, y);
  }

  lemma Shifted(key: int, y: int)
    ensures (key - y % WORD + BIG_STRIDE) % WORD == (key - (y - BIG_STRIDE)) % WORD
  {
  }

  /** Where a stride stands on the turn that starts at `base`. */
  lemma OnTurn(key: int, lap: int, base: int)
    requires base <= key + WORD * lap < base + WORD
    ensures key + WORD * lap - base == (key - base) % WORD
  {
    Turned(key - base, lap);
  }

  lemma PlaceBetween<P>(pass: map<P, int>, p: P, start: int, low: P, high: P)
    requires Spread(pass[p := start]) && p !in pass && low in pass && high in pass
    ensures pass[high] - BIG_STRIDE <= start <= pass[low] + BIG_STRIDE
  {
    var pass' := pass[p := start];
    assert pass'[p] - pass'[low] <= BIG_STRIDE && pass'[high] - pass'[p] <= BIG_STRIDE;
  }

  lemma PlaceFound<P>(pass: map<P, int>, p: P, start: int, low: P, high: P)
    requires Spread(pass) && p !in pass && low in pass && high in pass
    requires forall q :: q in pass ==> pass[low] <= pass[q] <= pass[high]
    requires pass[high] - BIG_STRIDE <= start <= pass[low] + BIG_STRIDE
    ensures Spread(pass[p := start])
  {
  }

  /**
    An ordinary fork without a place: two processes of priority 0 have run three times in turn, and a new process
    starts with stride 0 as alloc_proc sets it.  It comes before the one, which comes before the other, which
    comes before the new one.
  */
  lemma ForkWithoutPlace()
    ensures var d := StepOf(0);
      var step: map<nat, nat> := map[0 := d, 1 := d];
      var passes: seq<map<nat, int>> :=
        [map[0 := 0, 1 := 0], map[0 := d, 1 := 0], map[0 := d, 1 := d], map[0 := 2 * d, 1 := d]];
      && IsRun(passes, [0, 1, 0], step) && Spread(passes[3]) && !Joinable(passes[3], 2, 0)
      && Comp(0, d) == -1 && Comp(d, 2 * d) == -1 && Comp(2 * d, 0) == -1
  {
    var d := StepOf(0);
    var passes: seq<map<nat, int>> :=
      [map[0 := 0, 1 := 0], map[0 := d, 1 := 0], map[0 := d, 1 := d], map[0 := 2 * d, 1 := d]];
    var step: map<nat, nat> := map[0 := d, 1 := d];
    assert IsRun(passes, [0, 1, 0], step) by {
      assert Picked(passes[0], passes[1], 0, d) && Picked(passes[1], passes[2], 1, d);
      assert Picked(passes[2], passes[3], 0, d);
    }
    JoinableByEnds(passes[3], 2, 0, 1, 0);
  }

  lemma StridesWith<P>(pass: map<P, int>, p: P, key: int, lap: int)
    requires 0 <= key < WORD
    ensures Strides(pass[p := key + WORD * lap]) == Strides(pass)[p := key]
  {
    Turned(key, lap);
  }

  lemma SpreadComparable<P>(pass: map<P, int>)
    requires Spread(pass)
    ensures Comparable(Strides(pass))
  {
    hide Comp;
    var stride := Strides(pass);
    forall p, q | p in stride && q in stride ensures Comp(stride[p], stride[q]) == Sign(pass[p] - pass[q]) {
      assert pass[q] - pass[p] <= BIG_STRIDE && pass[p] - pass[q] <= BIG_STRIDE;
      CompWithinTurn(pass[p], pass[q]);
    }
  }

  lemma Turned(x: int, lap: int)
    ensures (x + WORD * lap) % WORD == x % WORD
  {
  }

  /** The turn on which the stride is last at most BIG_STRIDE behind `high`. */
  lemma TurnAt(key: int, high: int) returns (lap: int)
    ensures high - BIG_STRIDE <= key + WORD * lap < high - BIG_STRIDE + WORD
  {
    var d := high - BIG_STRIDE - key;
    lap := if d % WORD == 0 then d / WORD else d / WORD + 1;
    assert d == WORD * (d / WORD) + d % WORD;
  }

  lemma {:induction false} Highest<P>(pass: map<P, int>, s: set<P>) returns (top: P)
    requires s != {} && s <= pass.Keys
    ensures top in s && forall q :: q in s ==> pass[q] <= pass[top]
    decreases s
  {
    var a :| a in s;
    var rest := s - {a};
    assert s == rest + {a};
    top := a;
    if rest != {} {
      var t := Highest(pass, rest);
      top := if pass[a] < pass[t] then t else a;
    }
  }

  lemma ComparableJoins<P>(pass: map<P, int>, p: P, key: int) returns (lap: int)
    requires Spread(pass) && p !in pass && 0 <= key < WORD && Comparable(Strides(pass)[p := key])
    ensures Spread(pass[p := key + WORD * lap])
  {
    lap := 0;
    if pass != map[] {
      var top := Highest(pass, pass.Keys);
      lap := TurnAt(key, pass[top]);
      var start := key + WORD * lap;
      forall q | q in pass ensures start - pass[q] <= BIG_STRIDE && pass[q] - start <= BIG_STRIDE {
        NoCycle(pass, p, key, lap, top, q);
      }
      assert pass[p := start][p] == start;
    }
  }

  /** Too far ahead of `q`, the newcomer would be both before and after the highest. */
  lemma NoCycle<P>(pass: map<P, int>, p: P, key: int, lap: int, top: P, q: P)
    requires Spread(pass) && p !in pass && 0 <= key < WORD && Comparable(Strides(pass)[p := key])
    requires top in pass && q in pass && pass[q] <= pass[top]
    requires pass[top] - BIG_STRIDE <= key + WORD * lap < pass[top] - BIG_STRIDE + WORD
    ensures key + WORD * lap - pass[q] <= BIG_STRIDE
  {
    hide Comp;
    var stride := Strides(pass)[p := key];
    var x, y, z := stride[p], stride[q], stride[top];
    assert pass[top] - pass[q] <= BIG_STRIDE;
    Turned(key, lap);
    AroundTheTurn(key + WORD * lap, pass[q], pass[top]);
    assert Comp(x, y) == -Comp(y, x) && Comp(x, z) == -Comp(z, x);
  }

  lemma AroundTheTurn(start: int, y: int, z: int)
    requires y <= z <= y + BIG_STRIDE && z - BIG_STRIDE <= start < z - BIG_STRIDE + WORD
    ensures start - y <= BIG_STRIDE || (
        && StrideComp(start, y) == -1 && StrideComp(y, z) <= 0
        && (StrideComp(start, z) == 1 || StrideComp(start, z) == -1 == StrideComp(z, start)))
  {
    hide StrideComp;
    if start - y > BIG_STRIDE {
      CompWithinTurn(start, y);
      CompWithinTurn(y, z);
      CompWithinTurn(start, z);
      CompWithinTurn(z, start);
    }
  }

  // ---------------------------------------------------------------- choosing a minimum, again and again

  /** `p` has the smallest pass and is charged `d` for running. */
  ghost predicate Picked<P>(pass: map<P, int>, pass': map<P, int>, p: P, d: nat) {
    && p in pass
    && (forall q :: q in pass ==> pass[p] <= pass[q])
    && pass' == pass[p := pass[p] + d]
  }

  lemma PickKeepsSpread<P>(pass: map<P, int>, pass': map<P, int>, p: P, d: nat)
    requires Spread(pass) && Picked(pass, pass', p, d) && d <= BIG_STRIDE
    ensures Spread(pass')
  {
  }

  /** A run: the passes before, between and after the picks, and who was picked each time. */
  ghost predicate IsRun<P>(passes: seq<map<P, int>>, picks: seq<P>, step: map<P, nat>) {
    && |passes| == |picks| + 1
    && (forall p :: p in passes[0] ==> p in step && step[p] <= BIG_STRIDE)
    && passes[0].Keys == step.Keys
    && forall k :: 0 <= k < |picks| ==> picks[k] in step && Picked(passes[k], passes[k + 1], picks[k], step[picks[k]])
  }

  ghost function Count<P>(picks: seq<P>, p: P): nat {
    if picks == [] then 0 else Count(picks[..|picks| - 1], p) + if picks[|picks| - 1] == p then 1 else 0
  }

  /** What the runs of `p` add up to at `d` each. */
  ghost function Charged<P>(picks: seq<P>, p: P, d: nat): nat {
    Count(picks, p) * d
  }

  lemma ChargedStep<P>(picks: seq<P>, p: P, d: nat)
    requires picks != []
    ensures Charged(picks, p, d) == Charged(picks[..|picks| - 1], p, d) + if picks[|picks| - 1] == p then d else 0
  {
    OneMore(Count(picks[..|picks| - 1], p), d);
  }

  /** Along a run the spread stays bounded and every pass is what its runs add up to. */
  lemma {:induction false} RunInvariant<P>(passes: seq<map<P, int>>, picks: seq<P>, step: map<P, nat>)
    requires IsRun(passes, picks, step) && Spread(passes[0])
    ensures Spread(passes[|picks|]) && passes[|picks|].Keys == step.Keys
    ensures forall p :: p in step ==> passes[|picks|][p] == passes[0][p] + Charged(picks, p, step[p])
    decreases |picks|, 1
  {
    if picks == [] {
      assert forall p :: p in step ==> Charged(picks, p, step[p]) == 0;
    } else {
      RunExtends(passes, picks, step);
    }
  }

  lemma {:induction false} RunExtends<P>(passes: seq<map<P, int>>, picks: seq<P>, step: map<P, nat>)
    requires IsRun(passes, picks, step) && Spread(passes[0]) && picks != []
    ensures Spread(passes[|picks|]) && passes[|picks|].Keys == step.Keys
    ensures forall p :: p in step ==> passes[|picks|][p] == passes[0][p] + Charged(picks, p, step[p])
    decreases |picks|, 0
  {
    hide Picked, Spread, Charged, Count, IsRun;
    var n := |picks| - 1;
    RunPrefix(passes, picks, step);
    RunInvariant(passes[..n + 1], picks[..n], step);
    PickKeepsSpread(passes[n], passes[n + 1], picks[n], step[picks[n]]);
    forall p | p in step ensures p in passes[n + 1] && passes[n + 1][p] == passes[0][p] + Charged(picks, p, step[p]) {
      ChargedStep(picks, p, step[p]);
      PickedAt(passes[n], passes[n + 1], picks[n], step[picks[n]], p);
    }
    PickedKeys(passes[n], passes[n + 1], picks[n], step[picks[n]]);
  }

  lemma PickedKeys<P>(pass: map<P, int>, pass': map<P, int>, p: P, d: nat)
    requires Picked(pass, pass', p, d)
    ensures pass'.Keys == pass.Keys
  {
  }

  lemma RunPrefix<P>(passes: seq<map<P, int>>, picks: seq<P>, step: map<P, nat>)
    requires IsRun(passes, picks, step) && picks != []
    ensures var n := |picks| - 1;
      && |passes| == n + 2 && passes[0].Keys == step.Keys && IsRun(passes[..n + 1], picks[..n], step)
      && picks[n] in step && step[picks[n]] <= BIG_STRIDE && Picked(passes[n], passes[n + 1], picks[n], step[picks[n]])
  {
    hide Picked;
  }

  lemma PickedAt<P>(pass: map<P, int>, pass': map<P, int>, p: P, d: nat, q: P)
    requires Picked(pass, pass', p, d) && q in pass
    ensures pass'.Keys == pass.Keys && pass'[q] == pass[q] + if q == p then d else 0
  {
  }

  lemma OneMore(c: nat, s: nat)
    ensures (c + 1) * s == c * s + s
  {
  }

  /** Started together, any two processes have had service in proportion to their priorities, up to BIG_STRIDE. */
  lemma Fair<P>(passes: seq<map<P, int>>, picks: seq<P>, step: map<P, nat>, p: P, q: P)
    requires IsRun(passes, picks, step) && p in step && q in step
    requires forall x, y :: x in passes[0] && y in passes[0] ==> passes[0][x] == passes[0][y]
    ensures -BIG_STRIDE <= Count(picks, p) * step[p] - Count(picks, q) * step[q] <= BIG_STRIDE
  {
    RunInvariant(passes, picks, step);
  }

  /** The charges that go with priorities. */
  ghost function StepsOf<P>(priority: map<P, nat>): map<P, nat> {
    map p | p in priority :: StepOf(priority[p])
  }

  /**
    How many more runs than its share `p` has had against `q`, weighted: at most one run of each, and what rounding
    the charge of `p` down has saved it over all its runs.
  */
  ghost predicate WithinShare<P>(picks: seq<P>, priority: map<P, nat>, p: P, q: P)
    requires p in priority && q in priority
  {
    var u, v := Weight(priority[p]), Weight(priority[q]);
    var more := Count(picks, p) * v - Count(picks, q) * u;
    && BIG_STRIDE * more <= BIG_STRIDE * (u * v) + (Count(picks, p) * v) * (BIG_STRIDE % u)
    && (Count(picks, p) <= BIG_STRIDE ==> more <= 2 * (u * v))
  }

  /** Started together, any two processes have had runs in proportion to their priorities. */
  lemma Shares<P>(passes: seq<map<P, int>>, picks: seq<P>, priority: map<P, nat>, p: P, q: P)
    requires IsRun(passes, picks, StepsOf(priority)) && p in priority && q in priority
    requires forall x, y :: x in passes[0] && y in passes[0] ==> passes[0][x] == passes[0][y]
    ensures WithinShare(picks, priority, p, q)
  {
    hide IsRun, Count;
    Fair(passes, picks, StepsOf(priority), p, q);
    StepMeaning(priority[p]);
    StepMeaning(priority[q]);
    ShareBound(Count(picks, p), Count(picks, q), StepOf(priority[p]), StepOf(priority[q]),
               Weight(priority[p]), Weight(priority[q]));
  }

  lemma ShareBound(c: nat, d: nat, s: nat, t: nat, u: nat, v: nat)
    requires c * s - d * t <= BIG_STRIDE && u > 0 && v > 0
    requires s * u + BIG_STRIDE % u == BIG_STRIDE && t * v <= BIG_STRIDE
    ensures BIG_STRIDE * (c * v - d * u) <= BIG_STRIDE * (u * v) + (c * v) * (BIG_STRIDE % u)
    ensures c <= BIG_STRIDE ==> c * v - d * u <= 2 * (u * v)
  {
    var e := BIG_STRIDE % u;
    Expand(s, u, e, c, v);
    Scale(t * v, BIG_STRIDE, d * u);
    Regroup(t, v, d, u);
    Scale(c * s - d * t, BIG_STRIDE, u * v);
    Subtract(c * s, d * t, u * v);
    if c <= BIG_STRIDE { RoundingBound(c, u, v, e); }
  }

  lemma RoundingBound(c: nat, u: nat, v: nat, e: nat)
    requires c <= BIG_STRIDE && e <= u
    ensures (c * v) * e <= BIG_STRIDE * (u * v)
  {
    Scale(e, u, c * v);
    Scale(c, BIG_STRIDE, u * v);
    assert (c * v) * u == c * (u * v);
  }

  lemma Expand(s: nat, u: nat, e: nat, c: nat, v: nat)
    ensures (s * u + e) * (c * v) == (c * s) * (u * v) + (c * v) * e
  {
    assert (s * u) * (c * v) == (c * s) * (u * v);
  }

  lemma Regroup(t: nat, v: nat, d: nat, u: nat)
    ensures (t * v) * (d * u) == (d * t) * (u * v)
  {
  }

  lemma Subtract(x: int, y: int, z: int)
    ensures (x - y) * z == x * z - y * z
  {
  }

  lemma Scale(x: int, y: int, z: nat)
    requires x <= y
    ensures x * z <= y * z
  {
  }

  /** While `p` is not chosen, each other process is charged at most twice BIG_STRIDE in all. */
  lemma ChargedAtMost<P>(passes: seq<map<P, int>>, picks: seq<P>, step: map<P, nat>, p: P, q: P)
    requires IsRun(passes, picks, step) && Spread(passes[0]) && p in step && q in step && Count(picks, p) == 0
    ensures Count(picks, q) * step[q] <= 2 * BIG_STRIDE
  {
    RunInvariant(passes, picks, step);
    var z := passes[|picks|];
    assert z[p] == passes[0][p];
    assert z[q] - z[p] <= BIG_STRIDE && passes[0][p] - passes[0][q] <= BIG_STRIDE;
  }

  /** Nobody starves: if running costs the others something, `p` is chosen within this many picks. */
  lemma NoStarvation<P>(passes: seq<map<P, int>>, picks: seq<P>, step: map<P, nat>, p: P)
    requires IsRun(passes, picks, step) && Spread(passes[0]) && p in step
    requires forall q :: q in step && q != p ==> step[q] > 0
    requires Count(picks, p) == 0
    ensures |picks| <= (|step| - 1) * (2 * BIG_STRIDE)
  {
    var others := step.Keys - {p};
    assert |others| == |step| - 1;
    forall q | q in others ensures Count(picks, q) <= 2 * BIG_STRIDE {
      ChargedAtMost(passes, picks, step, p, q);
      AtLeast(step[q], Count(picks, q));
    }
    forall k | 0 <= k < |picks| ensures picks[k] in others {
      assert Picked(passes[k], passes[k + 1], picks[k], step[picks[k]]);
      Counted(picks, k);
    }
    LengthBound(picks, others, 2 * BIG_STRIDE);
  }

  /** And only then: next to a process whose runs cost nothing, `p` can wait through a run of any length. */
  lemma FreeRiderStarves<P>(step: map<P, nat>, p: P, q: P, n: nat) returns (passes: seq<map<P, int>>, picks: seq<P>)
    requires p in step && q in step && p != q && step[q] == 0 && forall r :: r in step ==> step[r] <= BIG_STRIDE
    ensures IsRun(passes, picks, step) && Spread(passes[0]) && |picks| == n && Count(picks, p) == 0
  {
    var level: map<P, int> := map r | r in step :: 0;
    passes, picks := seq(n + 1, _ => level), seq(n, _ => q);
    assert level == level[q := level[q] + 0];
    NeverCounted(picks, p);
  }

  /** Whoever starts behind a process whose runs cost nothing is never chosen, however long the run. */
  lemma BehindFreeRider<P>(passes: seq<map<P, int>>, picks: seq<P>, step: map<P, nat>, p: P, q: P)
    requires IsRun(passes, picks, step) && p in step && q in step && step[q] == 0 && passes[0][q] < passes[0][p]
    ensures p !in picks
  {
    forall k | 0 <= k < |picks| ensures picks[k] != p {
      StaysBehind(passes, picks, step, p, q, k);
    }
  }

  lemma {:induction false} StaysBehind<P>(passes: seq<map<P, int>>, picks: seq<P>, step: map<P, nat>, p: P, q: P,
                                          k: nat)
    requires IsRun(passes, picks, step) && p in step && q in step && step[q] == 0 && passes[0][q] < passes[0][p]
    requires k < |picks|
    ensures passes[k].Keys == step.Keys && passes[k][q] == passes[0][q] && passes[k][p] == passes[0][p] && picks[k] != p
  {
    assert Picked(passes[k], passes[k + 1], picks[k], step[picks[k]]);
    if k > 0 {
      StaysBehind(passes, picks, step, p, q, k - 1);
      assert Picked(passes[k - 1], passes[k], picks[k - 1], step[picks[k - 1]]);
    }
  }

  lemma {:induction false} Counted<P>(picks: seq<P>, k: nat)
    requires k < |picks|
    ensures Count(picks, picks[k]) > 0
    decreases |picks|
  {
    if k < |picks| - 1 { Counted(picks[..|picks| - 1], k); }
  }

  lemma {:induction false} NeverCounted<P>(picks: seq<P>, p: P)
    requires forall k :: 0 <= k < |picks| ==> picks[k] != p
    ensures Count(picks, p) == 0
    decreases |picks|
  {
    if picks != [] { NeverCounted(picks[..|picks| - 1], p); }
  }

  ghost function Except<P>(picks: seq<P>, q: P): seq<P> {
    if picks == [] then [] else
      Except(picks[..|picks| - 1], q) + if picks[|picks| - 1] == q then [] else [picks[|picks| - 1]]
  }

  lemma {:induction false} ExceptCounts<P>(picks: seq<P>, q: P, r: P)
    ensures |picks| == |Except(picks, q)| + Count(picks, q)
    ensures r != q ==> Count(Except(picks, q), r) == Count(picks, r)
    decreases |picks|
  {
    if picks != [] {
      var n := |picks| - 1;
      ExceptCounts(picks[..n], q, r);
      var e := Except(picks[..n], q);
      assert (e + [picks[n]])[..|e|] == e == e + [];
    }
  }

  lemma {:induction false} ExceptMembers<P>(picks: seq<P>, q: P)
    ensures forall x :: x in Except(picks, q) ==> x in picks && x != q
    decreases |picks|
  {
    if picks != [] { ExceptMembers(picks[..|picks| - 1], q); }
  }

  lemma {:induction false} LengthBound<P>(picks: seq<P>, s: set<P>, bound: nat)
    requires forall x :: x in picks ==> x in s
    requires forall q :: q in s ==> Count(picks, q) <= bound
    ensures |picks| <= |s| * bound
    decreases s
  {
    if picks == [] {
      assert |s| * bound >= 0;
    } else {
      var q := picks[0];
      var rest := Except(picks, q);
      ExceptCounts(picks, q, q);
      ExceptMembers(picks, q);
      forall r | r in s - {q} ensures Count(rest, r) <= bound {
        ExceptCounts(picks, q, r);
      }
      LengthBound(rest, s - {q}, bound);
      OneMore(|s| - 1, bound);
    }
  }
}
