/** The few facts about sequences without duplicates that the kernel's linked lists need. */
module Lists {

  ghost predicate Distinct<T>(s: seq<T>) {
    forall i, j :: 0 <= i < j < |s| ==> s[i] != s[j]
  }

  /** list_del: the list without `x`. */
  function Remove<T(==,!new)>(s: seq<T>, x: T): (r: seq<T>)
    ensures forall y :: y in r <==> y in s && y != x
  {
    if s == [] then []
    else if s[0] == x then Remove(s[1..], x)
    else [s[0]] + Remove(s[1..], x)
  }

  lemma {:induction false} RemoveDistinct<T(!new)>(s: seq<T>, x: T)
    requires Distinct(s)
    ensures Distinct(Remove(s, x))
    ensures |Remove(s, x)| == |s| - if x in s then 1 else 0
  {
    if s != [] {
      assert forall i :: 0 <= i < |s[1..]| ==> s[1..][i] == s[i + 1];
      RemoveDistinct(s[1..], x);
      assert s[0] !in s[1..];
      if s[0] != x {
        PrependDistinct(s[0], Remove(s[1..], x));
      }
    }
  }

  lemma PrependDistinct<T>(x: T, s: seq<T>)
    requires Distinct(s) && x !in s
    ensures Distinct([x] + s)
  {
  }

  /** Total of `f` over the elements of a list. */
  ghost function Total(s: seq<nat>, f: seq<nat>): nat {
    if s == [] then 0 else (if s[0] < |f| then f[s[0]] else 0) + Total(s[1..], f)
  }

  lemma {:induction false} TotalRemove(s: seq<nat>, f: seq<nat>, x: nat)
    requires Distinct(s) && x in s && x < |f|
    ensures Total(s, f) == f[x] + Total(Remove(s, x), f)
  {
    assert forall i :: 0 <= i < |s[1..]| ==> s[1..][i] == s[i + 1];
    assert s[0] !in s[1..];
    if s[0] == x {
      RemoveAbsent(s[1..], x);
    } else {
      TotalRemove(s[1..], f, x);
      assert Remove(s, x)[1..] == Remove(s[1..], x);
    }
  }

  lemma {:induction false} RemoveAbsent<T(!new)>(s: seq<T>, x: T)
    requires x !in s
    ensures Remove(s, x) == s
  {
    if s != [] { RemoveAbsent(s[1..], x); }
  }

  lemma {:induction false} TotalFrame(s: seq<nat>, f: seq<nat>, x: nat, v: nat)
    requires x < |f| && x !in s
    ensures Total(s, f[x := v]) == Total(s, f)
  {
    if s != [] {
      TotalFrame(s[1..], f, x, v);
    }
  }

  lemma TotalPrepend(x: nat, s: seq<nat>, f: seq<nat>)
    requires x < |f|
    ensures Total([x] + s, f) == f[x] + Total(s, f)
  {
    assert ([x] + s)[1..] == s;
  }
}
