/**
  The timer list (kern/schedule/sched.c): each timer keeps only the ticks between its predecessor's deadline
  and its own.  The list stands for a table of deadlines, counted in ticks from now.
*/
module Timers {
  import opened Machine
  import Lists

  datatype Timer = Timer(id: nat, expires: nat)

  ghost predicate Has(l: seq<Timer>, id: nat) {
    exists i :: 0 <= i < |l| && l[i].id == id
  }

  /** In how many ticks timer `id` fires. */
  ghost function Due(l: seq<Timer>, id: nat): nat {
    if l == [] then 0
    else if l[0].id == id then l[0].expires
    else l[0].expires + Due(l[1..], id)
  }

  ghost predicate DistinctIds(l: seq<Timer>) {
    forall i, j :: 0 <= i < j < |l| ==> l[i].id != l[j].id
  }

  /** Deadlines fit in 32 bits, hence so do the differences. */
  ghost predicate Bounded(l: seq<Timer>) {
    forall i :: 0 <= i < |l| ==> Due(l, l[i].id) < WORD
  }

  lemma {:induction false} DeltaAtMostDue(l: seq<Timer>, i: nat)
    requires DistinctIds(l) && i < |l|
    ensures l[i].expires <= Due(l, l[i].id)
  {
    if i > 0 {
      assert l[1..][i - 1] == l[i];
      DeltaAtMostDue(l[1..], i - 1);
    }
  }

  lemma HasTail(l: seq<Timer>, id: nat)
    requires l != []
    ensures Has(l, id) <==> l[0].id == id || Has(l[1..], id)
  {
    if Has(l, id) {
      var i :| 0 <= i < |l| && l[i].id == id;
      assert i > 0 ==> l[1..][i - 1].id == id;
    }
    if Has(l[1..], id) {
      var i :| 0 <= i < |l[1..]| && l[1..][i].id == id;
      assert l[i + 1].id == id;
    }
  }

  // ---------------------------------------------------------------- adding

  /** What add_timer makes of the list. */
  ghost function Inserted(l: seq<Timer>, id: nat, e: nat): seq<Timer> {
    if l == [] then [Timer(id, e)]
    else if e < l[0].expires then [Timer(id, e), Timer(l[0].id, l[0].expires - e)] + l[1..]
    else [l[0]] + Inserted(l[1..], id, e - l[0].expires)
  }

  /** The new timer has its deadline, and all others keep theirs. */
  lemma {:induction false} InsertedDue(l: seq<Timer>, id: nat, e: nat, x: nat)
    requires !Has(l, id)
    ensures Has(Inserted(l, id, e), x) <==> x == id || Has(l, x)
    ensures Due(Inserted(l, id, e), id) == e
    ensures Has(l, x) ==> Due(Inserted(l, id, e), x) == Due(l, x)
  {
    var m := Inserted(l, id, e);
    if l == [] {
      assert m[0].id == id;
    } else if e < l[0].expires {
      assert m[1..] == [Timer(l[0].id, l[0].expires - e)] + l[1..];
      assert m[1..][1..] == l[1..];
      HasTail(m, x);
      HasTail(m[1..], x);
      HasTail(l, x);
      HasTail(l, id);
    } else {
      HasTail(l, id);
      HasTail(l, x);
      HasTail(m, x);
      assert m[1..] == Inserted(l[1..], id, e - l[0].expires);
      InsertedDue(l[1..], id, e - l[0].expires, x);
    }
  }

  /** The timers in the order in which they will fire. */
  ghost function Order(l: seq<Timer>): seq<nat> {
    seq(|l|, i requires 0 <= i < |l| => l[i].id)
  }

  /** Timer `id` stands behind the first `k`, which fire no later than in `e` ticks, and before the others. */
  ghost predicate Takes(l: seq<Timer>, l': seq<Timer>, id: nat, e: nat, k: nat) {
    && k <= |l| && Order(l') == Order(l)[..k] + [id] + Order(l)[k..]
    && (forall i :: 0 <= i < k ==> Due(l, l[i].id) <= e)
    && (forall i :: k <= i < |l| ==> Due(l, l[i].id) > e)
  }

  /** Of timers with the same deadline the new one fires last. */
  lemma {:induction false} InsertedTakes(l: seq<Timer>, id: nat, e: nat) returns (k: nat)
    requires DistinctIds(l)
    ensures Takes(l, Inserted(l, id, e), id, e, k)
  {
    k := 0;
    if l != [] && e >= l[0].expires {
      var t := l[1..];
      k := InsertedTakes(t, id, e - l[0].expires);
      TakesNext(l, Inserted(t, id, e - l[0].expires), id, e, k);
      k := k + 1;
    } else {
      assert Order(Inserted(l, id, e)) == [id] + Order(l);
    }
  }

  lemma TakesNext(l: seq<Timer>, m: seq<Timer>, id: nat, e: nat, k: nat)
    requires l != [] && DistinctIds(l) && e >= l[0].expires && Takes(l[1..], m, id, e - l[0].expires, k)
    ensures Takes(l, [l[0]] + m, id, e, k + 1)
  {
    hide Due;
    var t := l[1..];
    assert [l[0]] + t == l;
    OrderNext(l[0], t);
    OrderNext(l[0], m);
    var o := Order(t);
    assert ([l[0].id] + o)[..k + 1] == [l[0].id] + o[..k] && ([l[0].id] + o)[k + 1..] == o[k..];
    forall i | 1 <= i < |l| ensures Due(l, l[i].id) == l[0].expires + Due(t, t[i - 1].id) {
      DueNext(l, i);
    }
    assert Due(l, l[0].id) <= e by { DueFirst(l); }
  }

  lemma OrderNext(x: Timer, l: seq<Timer>)
    ensures Order([x] + l) == [x.id] + Order(l)
  {
  }

  lemma DueFirst(l: seq<Timer>)
    requires l != []
    ensures Due(l, l[0].id) == l[0].expires
  {
  }

  lemma DueNext(l: seq<Timer>, i: nat)
    requires DistinctIds(l) && 1 <= i < |l|
    ensures l[1..][i - 1] == l[i] && Due(l, l[i].id) == l[0].expires + Due(l[1..], l[i].id)
  {
  }

  lemma {:induction false} InsertedDistinct(l: seq<Timer>, id: nat, e: nat)
    requires DistinctIds(l) && !Has(l, id)
    ensures DistinctIds(Inserted(l, id, e))
  {
    var m := Inserted(l, id, e);
    if l != [] && e >= l[0].expires {
      HasTail(l, id);
      InsertedDistinct(l[1..], id, e - l[0].expires);
      var t := m[1..];
      assert t == Inserted(l[1..], id, e - l[0].expires);
      forall j | 1 <= j < |m| ensures m[j].id != m[0].id {
        assert m[j] == t[j - 1] && Has(t, m[j].id);
        InsertedDue(l[1..], id, e - l[0].expires, m[j].id);
        HeadNotInTail(l);
      }
      assert forall i, j :: 1 <= i < j < |m| ==> m[i] == t[i - 1] && m[j] == t[j - 1];
    } else if l != [] {
      assert forall j :: 2 <= j < |m| ==> m[j] == l[j - 1];
      assert forall j :: 0 <= j < |l| ==> l[j].id != id;
    }
  }

  lemma HeadNotInTail(l: seq<Timer>)
    requires l != [] && DistinctIds(l)
    ensures !Has(l[1..], l[0].id)
  {
    assert forall i :: 0 <= i < |l[1..]| ==> l[1..][i] == l[i + 1];
  }

  // ---------------------------------------------------------------- removing

  /** What del_timer makes of the list. */
  ghost function Removed(l: seq<Timer>, id: nat): seq<Timer> {
    if l == [] then []
    else if l[0].id == id then
      if |l| == 1 then [] else [Timer(l[1].id, l[1].expires + l[0].expires)] + l[2..]
    else [l[0]] + Removed(l[1..], id)
  }

  /** All other timers keep their deadlines. */
  lemma {:induction false} RemovedDue(l: seq<Timer>, id: nat, x: nat)
    requires DistinctIds(l)
    ensures Has(Removed(l, id), x) <==> x != id && Has(l, x)
    ensures x != id && Has(l, x) ==> Due(Removed(l, id), x) == Due(l, x)
  {
    var m := Removed(l, id);
    if l == [] {
    } else if l[0].id == id {
      HeadNotInTail(l);
      HasTail(l, x);
      if |l| > 1 {
        HasTail(l[1..], x);
        HasTail(m, x);
        assert m[1..] == l[2..] && l[1..][1..] == l[2..];
      }
    } else {
      HasTail(l, x);
      HasTail(m, x);
      assert m[1..] == Removed(l[1..], id);
      RemovedDue(l[1..], id, x);
    }
  }

  lemma RemovedFirst(l: seq<Timer>)
    requires l != []
    ensures Order(Removed(l, l[0].id)) == Order(l)[..0] + Order(l)[1..]
  {
    var m := Removed(l, l[0].id);
    assert |m| == |l| - 1 && forall j :: 0 <= j < |m| ==> m[j].id == l[j + 1].id;
  }

  lemma OrderLength(l: seq<Timer>)
    ensures |Order(l)| == |l|
  {
  }

  /** The others stay in order. */
  lemma {:induction false} RemovedOrder(l: seq<Timer>, i: nat)
    requires DistinctIds(l) && i < |l|
    ensures Order(Removed(l, l[i].id)) == Order(l)[..i] + Order(l)[i + 1..]
  {
    hide Order;
    var t, m := l[1..], Removed(l, l[i].id);
    if i == 0 {
      RemovedFirst(l);
    } else {
      OrderLength(t);
      assert t[i - 1] == l[i] && [l[0]] + t == l;
      RemovedOrder(t, i - 1);
      OrderNext(l[0], t);
      OrderNext(l[0], Removed(t, l[i].id));
      assert m == [l[0]] + Removed(t, l[i].id);
      var o := Order(t);
      assert ([l[0].id] + o)[..i] == [l[0].id] + o[..i - 1] && ([l[0].id] + o)[i + 1..] == o[i..];
    }
  }

  lemma {:induction false} RemovedDistinct(l: seq<Timer>, id: nat)
    requires DistinctIds(l)
    ensures DistinctIds(Removed(l, id))
  {
    var m := Removed(l, id);
    if l != [] && l[0].id != id {
      RemovedDistinct(l[1..], id);
      var t := m[1..];
      assert t == Removed(l[1..], id);
      forall j | 1 <= j < |m| ensures m[j].id != m[0].id {
        assert m[j] == t[j - 1] && Has(t, m[j].id);
        RemovedDue(l[1..], id, m[j].id);
        HeadNotInTail(l);
      }
      assert forall i, j :: 1 <= i < j < |m| ==> m[i] == t[i - 1] && m[j] == t[j - 1];
    } else if |l| > 1 {
      assert forall j :: 1 <= j < |m| ==> m[j] == l[j + 1];
    }
  }

  lemma {:induction false} RemovedAbsent(l: seq<Timer>, id: nat)
    requires !Has(l, id)
    ensures Removed(l, id) == l
  {
    if l != [] {
      HasTail(l, id);
      RemovedAbsent(l[1..], id);
    }
  }

  // ---------------------------------------------------------------- the list

  ghost predicate Good(l: seq<Timer>) {
    DistinctIds(l) && Bounded(l) && (l != [] ==> l[0].expires > 0)
  }

  lemma InsertedGood(l: seq<Timer>, id: nat, e: nat)
    requires Good(l) && !Has(l, id) && 0 < e < WORD
    ensures Good(Inserted(l, id, e))
  {
    var m := Inserted(l, id, e);
    InsertedDistinct(l, id, e);
    forall i | 0 <= i < |m| ensures Due(m, m[i].id) < WORD {
      DueOfMember(l, id, e, m[i].id, i);
    }
  }

  lemma DueOfMember(l: seq<Timer>, id: nat, e: nat, x: nat, i: nat)
    requires Bounded(l) && !Has(l, id) && e < WORD && i < |Inserted(l, id, e)| && Inserted(l, id, e)[i].id == x
    ensures Due(Inserted(l, id, e), x) < WORD
  {
    InsertedDue(l, id, e, x);
    if x != id {
      var j :| 0 <= j < |l| && l[j].id == x;
      assert Due(l, l[j].id) < WORD;
    }
  }

  lemma RemovedGood(l: seq<Timer>, id: nat)
    requires Good(l)
    ensures Good(Removed(l, id))
  {
    var m := Removed(l, id);
    RemovedDistinct(l, id);
    forall i | 0 <= i < |m| ensures Due(m, m[i].id) < WORD {
      var x := m[i].id;
      assert Has(m, x);
      RemovedDue(l, id, x);
      var j :| 0 <= j < |l| && l[j].id == x;
      assert Due(l, l[j].id) < WORD;
    }
  }

  class TimerList {
    var list: seq<Timer>

    /** No two entries for one timer, deadlines in range, and nothing is due now. */
    ghost predicate Valid()
      reads this
    {
      Good(list)
    }

    constructor ()
      ensures Valid() && list == []
    {
      list := [];
    }

    /** add_timer: the timer gets its deadline and its turn, no other deadline changes. */
    method Add(id: nat, expires: nat)
      requires Valid() && !Has(list, id) && 0 < expires < WORD
      modifies this
      ensures Valid() && Due(list, id) == expires
      ensures forall x: nat :: Has(list, x) <==> x == id || Has(old(list), x)
      ensures forall x: nat :: Has(old(list), x) ==> Due(list, x) == Due(old(list), x)
      ensures exists k: nat :: Takes(old(list), list, id, expires, k)
    {
      hide Good, Has, Due, Inserted, Takes;
      AddMeaning(list, id, expires);
      Link(id, expires);
    }

    method Link(id: nat, expires: nat)
      modifies this
      ensures list == Inserted(old(list), id, expires)
    {
      hide Inserted;
      var i := 0;
      var e: nat := expires;
      while i < |list| && e >= list[i].expires
        invariant i <= |list| && list == old(list)
        invariant list[..i] + Inserted(list[i..], id, e) == Inserted(list, id, expires)
      {
        InsertedStep(list, i, id, e);
        e := e - list[i].expires;
        i := i + 1;
      }
      InsertedHere(list, i, id, e);
      if i < |list| {
        list := list[i := Timer(list[i].id, list[i].expires - e)];
      }
      list := list[..i] + [Timer(id, e)] + list[i..];
    }

    /** del_timer: the timer is gone, no other deadline changes; nothing happens if it was not there. */
    method Delete(id: nat)
      requires Valid()
      modifies this
      ensures Valid() && (!Has(old(list), id) ==> list == old(list))
      ensures forall x: nat :: Has(list, x) <==> x != id && Has(old(list), x)
      ensures forall x: nat :: x != id && Has(old(list), x) ==> Due(list, x) == Due(old(list), x)
      ensures forall i :: 0 <= i < |old(list)| && old(list)[i].id == id ==>
        Order(list) == Order(old(list))[..i] + Order(old(list))[i + 1..]
    {
      hide Good, Has, Due, Removed, Order;
      DeleteMeaning(list, id);
      Unlink(id);
    }

    method Unlink(id: nat)
      modifies this
      ensures list == Removed(old(list), id)
    {
      hide Removed;
      var i := 0;
      while i < |list| && list[i].id != id
        invariant i <= |list| && list == old(list) && list[..i] + Removed(list[i..], id) == Removed(list, id)
      {
        RemovedStep(list, i, id);
        i := i + 1;
      }
      RemovedHere(list, i, id);
      if i < |list| {
        if list[i].expires != 0 && i + 1 < |list| {
          list := list[i + 1 := Timer(list[i + 1].id, list[i + 1].expires + list[i].expires)];
        }
        list := list[..i] + list[i + 1..];
      }
    }

    /** run_timer_list: one tick brings every deadline nearer and fires exactly the timers whose deadline is reached. */
    method Tick() returns (fired: seq<nat>)
      requires Valid()
      modifies this
      ensures Valid() && Ticked(old(list), list, fired)
    {
      fired := [];
      ghost var l := list;
      if list != [] {
        var head := list[0];
        assert head.expires != 0;
        list := [Timer(head.id, head.expires - 1)] + list[1..];
        Lowered(l);
        while list != [] && list[0].expires == 0
          invariant Ticking(l, list, fired)
          decreases |list|
        {
          PopDue(l, list, fired);
          fired := fired + [list[0].id];
          list := list[1..];
        }
      }
      AllFired(l, list, fired);
    }
  }

  /** Timers due in one tick have fired, each once and in order, the others are one tick nearer. */
  ghost predicate Ticked(l: seq<Timer>, l': seq<Timer>, fired: seq<nat>) {
    && Lists.Distinct(fired) && (forall x: nat :: x in fired <==> Has(l, x) && Due(l, x) == 1)
    && (forall x: nat :: Has(l', x) <==> Has(l, x) && Due(l, x) > 1)
    && (forall x: nat :: Has(l', x) ==> Due(l', x) == Due(l, x) - 1)
    && fired + Order(l') == Order(l)
  }

  /** The loop of run_timer_list: some of the timers that are due have been taken off. */
  ghost predicate Ticking(l: seq<Timer>, l': seq<Timer>, fired: seq<nat>) {
    && DistinctIds(l') && Lists.Distinct(fired) && (forall x: nat :: TickingAt(l, l', fired, x))
    && fired + Order(l') == Order(l)
  }

  ghost predicate TickingAt(l: seq<Timer>, l': seq<Timer>, fired: seq<nat>, x: nat) {
    && (Has(l, x) <==> x in fired || Has(l', x))
    && (x in fired ==> Due(l, x) == 1 && !Has(l', x))
    && (Has(l', x) ==> Due(l, x) == Due(l', x) + 1)
  }

  lemma Lowered(l: seq<Timer>)
    requires Good(l) && l != []
    ensures Ticking(l, [Timer(l[0].id, l[0].expires - 1)] + l[1..], [])
  {
    var m := [Timer(l[0].id, l[0].expires - 1)] + l[1..];
    assert m[1..] == l[1..] && forall i :: 0 <= i < |l| ==> m[i].id == l[i].id;
    assert [] + Order(m) == Order(l);
    forall x: nat ensures TickingAt(l, m, [], x) {
      HasTail(l, x);
      HasTail(m, x);
    }
  }

  lemma PopDue(l: seq<Timer>, m: seq<Timer>, fired: seq<nat>)
    requires Ticking(l, m, fired) && m != [] && m[0].expires == 0
    ensures Ticking(l, m[1..], fired + [m[0].id])
  {
    HeadNotInTail(m);
    assert Order(m) == [m[0].id] + Order(m[1..]);
    assert fired + [m[0].id] + Order(m[1..]) == fired + Order(m);
    assert Has(m, m[0].id) && TickingAt(l, m, fired, m[0].id);
    forall x: nat ensures TickingAt(l, m[1..], fired + [m[0].id], x) {
      assert TickingAt(l, m, fired, x);
      HasTail(m, x);
    }
  }

  lemma {:induction false} AllLater(m: seq<Timer>, x: nat)
    requires m != [] && m[0].expires > 0
    ensures Due(m, x) > 0
  {
  }

  lemma AllFired(l: seq<Timer>, m: seq<Timer>, fired: seq<nat>)
    requires Good(l)
    requires if l == [] then m == [] && fired == [] else Ticking(l, m, fired) && (m != [] ==> m[0].expires > 0)
    ensures Ticked(l, m, fired) && Good(m)
  {
    if l != [] {
      forall x: nat ensures TickingAt(l, m, fired, x) && (Has(m, x) ==> Due(m, x) > 0) {
        if m != [] { AllLater(m, x); }
      }
      forall i | 0 <= i < |m| ensures Due(m, m[i].id) < WORD {
        var x := m[i].id;
        assert Has(m, x) && TickingAt(l, m, fired, x);
        var j :| 0 <= j < |l| && l[j].id == x;
        assert Due(l, l[j].id) < WORD;
      }
    }
  }

  lemma AddMeaning(l: seq<Timer>, id: nat, e: nat)
    requires Good(l) && !Has(l, id) && 0 < e < WORD
    ensures Good(Inserted(l, id, e)) && Due(Inserted(l, id, e), id) == e
    ensures forall x: nat :: Has(Inserted(l, id, e), x) <==> x == id || Has(l, x)
    ensures forall x: nat :: Has(l, x) ==> Due(Inserted(l, id, e), x) == Due(l, x)
    ensures exists k: nat :: Takes(l, Inserted(l, id, e), id, e, k)
  {
    GoodDistinct(l);
    hide Inserted, Due, Has, Good, Takes;
    var k := InsertedTakes(l, id, e);
    InsertedGood(l, id, e);
    InsertedDue(l, id, e, id);
    forall x: nat
      ensures Has(Inserted(l, id, e), x) <==> x == id || Has(l, x)
      ensures Has(l, x) ==> Due(Inserted(l, id, e), x) == Due(l, x)
    {
      InsertedDue(l, id, e, x);
    }
  }

  lemma GoodDistinct(l: seq<Timer>)
    requires Good(l)
    ensures DistinctIds(l)
  {
  }

  lemma DeleteMeaning(l: seq<Timer>, id: nat)
    requires Good(l)
    ensures Good(Removed(l, id)) && (!Has(l, id) ==> Removed(l, id) == l)
    ensures forall x: nat :: Has(Removed(l, id), x) <==> x != id && Has(l, x)
    ensures forall x: nat :: x != id && Has(l, x) ==> Due(Removed(l, id), x) == Due(l, x)
    ensures forall i :: 0 <= i < |l| && l[i].id == id ==>
      Order(Removed(l, id)) == Order(l)[..i] + Order(l)[i + 1..]
  {
    hide Removed, Due, Has;
    forall i | 0 <= i < |l| && l[i].id == id
      ensures Order(Removed(l, id)) == Order(l)[..i] + Order(l)[i + 1..]
    {
      RemovedOrder(l, i);
    }
    RemovedGood(l, id);
    if !Has(l, id) { RemovedAbsent(l, id); }
    forall x: nat
      ensures Has(Removed(l, id), x) <==> x != id && Has(l, x)
      ensures x != id && Has(l, x) ==> Due(Removed(l, id), x) == Due(l, x)
    {
      RemovedDue(l, id, x);
    }
  }

  lemma InsertedStep(l: seq<Timer>, i: nat, id: nat, e: nat)
    requires i < |l| && e >= l[i].expires
    ensures l[..i] + Inserted(l[i..], id, e) == l[..i + 1] + Inserted(l[i + 1..], id, e - l[i].expires)
  {
    assert l[i..][1..] == l[i + 1..] && l[..i + 1] == l[..i] + [l[i]];
  }

  lemma InsertedHere(l: seq<Timer>, i: nat, id: nat, e: nat)
    requires i <= |l| && (i < |l| ==> e < l[i].expires)
    ensures var m := if i < |l| then l[i := Timer(l[i].id, l[i].expires - e)] else l;
      l[..i] + Inserted(l[i..], id, e) == m[..i] + [Timer(id, e)] + m[i..]
  {
    if i < |l| {
      assert l[i..][1..] == l[i + 1..];
      assert l[i := Timer(l[i].id, l[i].expires - e)][i..] == [Timer(l[i].id, l[i].expires - e)] + l[i + 1..];
    }
  }

  lemma RemovedStep(l: seq<Timer>, i: nat, id: nat)
    requires i < |l| && l[i].id != id
    ensures l[..i] + Removed(l[i..], id) == l[..i + 1] + Removed(l[i + 1..], id)
  {
    assert l[i..][1..] == l[i + 1..] && l[..i + 1] == l[..i] + [l[i]];
  }

  lemma RemovedHere(l: seq<Timer>, i: nat, id: nat)
    requires i <= |l| && (i < |l| ==> l[i].id == id)
    ensures i == |l| ==> l[..i] + Removed(l[i..], id) == l
    ensures i < |l| ==>
      var m := if i + 1 < |l| then l[i + 1 := Timer(l[i + 1].id, l[i + 1].expires + l[i].expires)] else l;
      l[..i] + Removed(l[i..], id) == m[..i] + m[i + 1..]
  {
    if i + 1 < |l| {
      var t := Timer(l[i + 1].id, l[i + 1].expires + l[i].expires);
      assert l[i + 1 := t][i + 1..] == [t] + l[i + 2..] && l[i..][2..] == l[i + 2..];
    }
  }

  /** The addition in del_timer fits in 32 bits. */
  lemma {:induction false} NoOverflow(l: seq<Timer>, i: nat)
    requires DistinctIds(l) && i + 1 < |l|
    ensures l[i].expires + l[i + 1].expires <= Due(l, l[i + 1].id)
  {
    assert l[1..][i] == l[i + 1];
    if i == 0 {
      DeltaAtMostDue(l[1..], 0);
    } else {
      assert l[1..][i - 1] == l[i];
      NoOverflow(l[1..], i - 1);
    }
  }
}
