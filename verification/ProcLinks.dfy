/**
  The family links of processes (kern/process/proc.c): `cptr` is the youngest child, `optr` the next older
  sibling, `yptr` the next younger one.  They stand for one list of children per process, youngest first.
  Processes are numbers other than 0, which is the null pointer.
*/
module ProcLinks {

  datatype Links = Links(parent: map<nat, nat>, cptr: map<nat, nat>, optr: map<nat, nat>, yptr: map<nat, nat>)

  function At(m: map<nat, nat>, p: nat): nat {
    if p in m then m[p] else 0
  }

  ghost function Entry(kids: seq<nat>, i: int): nat {
    if 0 <= i < |kids| then kids[i] else 0
  }

  /** The pointers of child `i`; while children are being moved away the oldest pointer to a moved one may be stale. */
  ghost predicate KidOk(l: Links, p: nat, kids: seq<nat>, i: nat, stale: bool)
    requires i < |kids|
  {
    var c := kids[i];
    && c != 0 && At(l.parent, c) == p && At(l.optr, c) == Entry(kids, i + 1)
    && (At(l.yptr, c) == Entry(kids, i - 1) || (stale && i == 0))
  }

  /** The children of `p` are `kids`, youngest first. */
  ghost predicate KidsOk(l: Links, p: nat, kids: seq<nat>, stale: bool) {
    && At(l.cptr, p) == Entry(kids, 0)
    && (forall i :: 0 <= i < |kids| ==> KidOk(l, p, kids, i, stale))
    && (forall i, j :: 0 <= i < j < |kids| ==> kids[i] != kids[j])
  }

  ghost predicate Listed(l: Links, children: map<nat, seq<nat>>, c: nat) {
    At(l.parent, c) in children && c in children[At(l.parent, c)]
  }

  /** The pointers stand for these lists of children; every process but the root is in its parent's list. */
  ghost predicate Family(l: Links, children: map<nat, seq<nat>>, root: nat) {
    && root in children && 0 !in children
    && (forall p :: p in children ==> KidsOk(l, p, children[p], false))
    && (forall p, c :: p in children && c in children[p] ==> c in children && c != root)
    && (forall c {:trigger Listed(l, children, c)} :: c in children && c != root ==> Listed(l, children, c))
  }

  /** Every process is in one list only. */
  lemma OneParent(l: Links, children: map<nat, seq<nat>>, root: nat, p: nat, q: nat, c: nat)
    requires Family(l, children, root) && p in children && q in children && c in children[p] && c in children[q]
    ensures p == q && At(l.parent, c) == p
  {
    var i :| 0 <= i < |children[p]| && children[p][i] == c;
    var j :| 0 <= j < |children[q]| && children[q][j] == c;
    assert KidOk(l, p, children[p], i, false) && KidOk(l, q, children[q], j, false);
  }

  /** The pointers of the children of `p`, and its own pointer to them, are the same. */
  ghost predicate SameKids(l: Links, l': Links, p: nat, kids: seq<nat>) {
    && At(l'.cptr, p) == At(l.cptr, p)
    && forall c :: c in kids ==>
      At(l'.parent, c) == At(l.parent, c) && At(l'.optr, c) == At(l.optr, c) && At(l'.yptr, c) == At(l.yptr, c)
  }

  lemma SameKidsOk(l: Links, l': Links, p: nat, kids: seq<nat>, stale: bool)
    requires KidsOk(l, p, kids, stale) && SameKids(l, l', p, kids)
    ensures KidsOk(l', p, kids, stale)
  {
    forall i | 0 <= i < |kids| ensures KidOk(l', p, kids, i, stale) {
      assert KidOk(l, p, kids, i, stale) && kids[i] in kids;
    }
  }

  // ---------------------------------------------------------------- becoming the youngest child

  /** The common part of set_links and of moving a child: `c` becomes the youngest child of `p`. */
  function Adopted(l: Links, p: nat, c: nat): Links {
    var first := At(l.cptr, p);
    Links(l.parent[c := p], l.cptr[p := c], l.optr[c := first], if first != 0 then l.yptr[c := 0][first := c]
      else l.yptr[c := 0])
  }

  lemma AdoptedKids(l: Links, p: nat, kids: seq<nat>, c: nat)
    requires KidsOk(l, p, kids, false) && c !in kids && c != 0
    ensures KidsOk(Adopted(l, p, c), p, [c] + kids, false)
  {
    var l', kids' := Adopted(l, p, c), [c] + kids;
    assert kids != [] ==> KidOk(l, p, kids, 0, false);
    forall i | 0 <= i < |kids'| ensures KidOk(l', p, kids', i, false) {
      if i > 0 {
        assert KidOk(l, p, kids, i - 1, false) && kids'[i] == kids[i - 1];
        assert i > 1 ==> kids[i - 1] != kids[0];
      }
    }
  }

  lemma AdoptedOthers(l: Links, p: nat, kids: seq<nat>, c: nat, q: nat, kidsQ: seq<nat>, stale: bool)
    requires KidsOk(l, p, kids, false) && KidsOk(l, q, kidsQ, stale) && p != q && c !in kidsQ
    ensures KidsOk(Adopted(l, p, c), q, kidsQ, stale)
  {
    var first := At(l.cptr, p);
    assert kids != [] ==> KidOk(l, p, kids, 0, false);
    forall x | x in kidsQ ensures x != first {
      var i :| 0 <= i < |kidsQ| && kidsQ[i] == x;
      assert KidOk(l, q, kidsQ, i, stale);
    }
    SameKidsOk(l, Adopted(l, p, c), q, kidsQ, stale);
  }

  /** set_links: a new process becomes the youngest child of its parent. */
  lemma SetLinksFamily(l: Links, children: map<nat, seq<nat>>, root: nat, p: nat, c: nat)
    requires Family(l, children, root) && p in children && c !in children && c != 0
    requires At(l.cptr, c) == 0
    ensures Family(Adopted(l, p, c), children[p := [c] + children[p]][c := []], root)
  {
    hide KidOk;
    var l', children' := Adopted(l, p, c), children[p := [c] + children[p]][c := []];
    AdoptedKids(l, p, children[p], c);
    forall q | q in children' ensures KidsOk(l', q, children'[q], false) {
      if q != p && q != c { AdoptedOthers(l, p, children[p], c, q, children[q], false); }
    }
    forall q, x | q in children' && x in children'[q] ensures x in children' && x != root {
      if x != c { assert q in children && x in children[q]; }
    }
    forall x | x in children' && x != root ensures Listed(l', children', x) {
      if x != c { assert Listed(l, children, x); }
    }
  }

  // ---------------------------------------------------------------- leaving the family

  /** remove_links */
  function Removed(l: Links, c: nat): Links {
    var older, younger := At(l.optr, c), At(l.yptr, c);
    var yptr := if older != 0 then l.yptr[older := younger] else l.yptr;
    if younger != 0 then l.(optr := l.optr[younger := older], yptr := yptr)
    else l.(cptr := l.cptr[At(l.parent, c) := older], yptr := yptr)
  }

  lemma RemovedKids(l: Links, p: nat, kids: seq<nat>, k: nat)
    requires KidsOk(l, p, kids, false) && k < |kids|
    ensures KidsOk(Removed(l, kids[k]), p, kids[..k] + kids[k + 1..], false)
  {
    var l', m := Removed(l, kids[k]), kids[..k] + kids[k + 1..];
    assert KidOk(l, p, kids, k, false);
    assert forall j :: 0 <= j < |m| ==> m[j] == kids[if j < k then j else j + 1];
    forall j | 0 <= j < |m| ensures KidOk(l', p, m, j, false) {
      RemovedKid(l, p, kids, k, m, j);
    }
    assert k > 0 ==> KidOk(l, p, kids, k - 1, false);
    assert At(l'.cptr, p) == Entry(m, 0);
  }

  lemma RemovedKid(l: Links, p: nat, kids: seq<nat>, k: nat, m: seq<nat>, j: nat)
    requires KidsOk(l, p, kids, false) && k < |kids| && |m| == |kids| - 1 && j < |m|
    requires forall j :: 0 <= j < |m| ==> m[j] == kids[if j < k then j else j + 1]
    ensures KidOk(Removed(l, kids[k]), p, m, j, false)
  {
    var o := if j < k then j else j + 1;
    assert KidOk(l, p, kids, k, false) && KidOk(l, p, kids, o, false);
    assert k + 1 < |kids| ==> KidOk(l, p, kids, k + 1, false);
    assert k > 0 ==> KidOk(l, p, kids, k - 1, false);
    assert forall i :: 0 <= i < |kids| && i != o ==> kids[i] != kids[o];
  }

  lemma KidsParent(l: Links, p: nat, kids: seq<nat>, stale: bool)
    requires KidsOk(l, p, kids, stale)
    ensures forall x :: x in kids ==> At(l.parent, x) == p
  {
    forall x | x in kids ensures At(l.parent, x) == p {
      var i :| 0 <= i < |kids| && kids[i] == x;
      assert KidOk(l, p, kids, i, stale);
    }
  }

  lemma RemovedOthers(l: Links, p: nat, kids: seq<nat>, k: nat, q: nat, kidsQ: seq<nat>)
    requires KidsOk(l, p, kids, false) && k < |kids| && KidsOk(l, q, kidsQ, false) && p != q
    ensures KidsOk(Removed(l, kids[k]), q, kidsQ, false)
  {
    assert KidOk(l, p, kids, k, false);
    assert k + 1 < |kids| ==> KidOk(l, p, kids, k + 1, false);
    assert k > 0 ==> KidOk(l, p, kids, k - 1, false);
    KidsParent(l, q, kidsQ, false);
    SameKidsOk(l, Removed(l, kids[k]), q, kidsQ, false);
  }

  lemma PlaceOf(kids: seq<nat>, c: nat) returns (k: nat)
    requires c in kids
    ensures k < |kids| && kids[k] == c
  {
    k :| 0 <= k < |kids| && kids[k] == c;
  }

  /** The lists of children without `c`. */
  ghost function Without(children: map<nat, seq<nat>>, p: nat, k: nat): map<nat, seq<nat>>
    requires p in children && k < |children[p]|
  {
    children[p := children[p][..k] + children[p][k + 1..]] - {children[p][k]}
  }

  /** remove_links takes exactly one childless process out of the family. */
  lemma RemovedFamily(l: Links, children: map<nat, seq<nat>>, root: nat, p: nat, k: nat)
    requires Family(l, children, root) && p in children && k < |children[p]|
    requires children[p][k] in children && children[children[p][k]] == [] && p != children[p][k]
    ensures Family(Removed(l, children[p][k]), Without(children, p, k), root)
  {
    var c := children[p][k];
    var l', children', kids := Removed(l, c), Without(children, p, k), children[p];
    RemovedKids(l, p, kids, k);
    forall q | q in children' ensures KidsOk(l', q, children'[q], false) {
      if q != p { RemovedOthers(l, p, kids, k, q, children[q]); }
    }
    forall q, x | q in children' && x in children'[q] ensures x in children' && x != root {
      RemovedClosed(l, children, root, p, k, q, x);
    }
    forall x | x in children' && x != root ensures Listed(l', children', x) {
      RemovedListed(l, children, root, p, k, x);
    }
    assert children[p][k] in children[p];
  }

  lemma RemovedClosed(l: Links, children: map<nat, seq<nat>>, root: nat, p: nat, k: nat, q: nat, x: nat)
    requires Family(l, children, root) && p in children && k < |children[p]|
    requires q in Without(children, p, k) && x in Without(children, p, k)[q]
    ensures x in Without(children, p, k) && x != root
  {
    var c := children[p][k];
    WithoutMembers(children[p], k);
    assert x in children[q] && c in children[p];
    if q != p && x == c { OneParent(l, children, root, p, q, c); }
  }

  lemma RemovedListed(l: Links, children: map<nat, seq<nat>>, root: nat, p: nat, k: nat, x: nat)
    requires Family(l, children, root) && p in children && k < |children[p]|
    requires children[p][k] in children && children[children[p][k]] == []
    requires x in Without(children, p, k) && x != root
    ensures At(l.parent, x) in Without(children, p, k) && x in Without(children, p, k)[At(l.parent, x)]
  {
    WithoutMembers(children[p], k);
    assert Listed(l, children, x);
  }

  lemma WithoutMembers(kids: seq<nat>, k: nat)
    requires k < |kids| && forall i, j :: 0 <= i < j < |kids| ==> kids[i] != kids[j]
    ensures forall x :: x in kids[..k] + kids[k + 1..] <==> x in kids && x != kids[k]
  {
    var m := kids[..k] + kids[k + 1..];
    assert forall j :: 0 <= j < |m| ==> m[j] == kids[if j < k then j else j + 1];
    forall x | x in kids && x != kids[k] ensures x in m {
      var i := PlaceOf(kids, x);
      assert m[if i < k then i else i - 1] == x;
    }
  }

  // ---------------------------------------------------------------- moving children to another process

  /** The family while do_exit moves the children of `cur`: its youngest remaining child may point to a moved one. */
  ghost predicate Moving(l: Links, children: map<nat, seq<nat>>, root: nat, cur: nat) {
    && root in children && 0 !in children && cur in children
    && (forall p :: p in children ==> KidsOk(l, p, children[p], p == cur))
    && (forall p, c :: p in children && c in children[p] ==> c in children && c != root)
    && (forall c {:trigger Listed(l, children, c)} :: c in children && c != root ==> Listed(l, children, c))
  }

  /** One turn of the loop in do_exit. */
  function MovedOne(l: Links, cur: nat, init: nat): Links {
    var c := At(l.cptr, cur);
    Adopted(l.(cptr := l.cptr[cur := At(l.optr, c)]), init, c)
  }

  lemma DetachedKids(l: Links, p: nat, kids: seq<nat>)
    requires KidsOk(l, p, kids, true) && kids != []
    ensures KidsOk(l.(cptr := l.cptr[p := At(l.optr, kids[0])]), p, kids[1..], true) && kids[0] !in kids[1..]
    ensures kids[0] != 0
  {
    var l', m := l.(cptr := l.cptr[p := At(l.optr, kids[0])]), kids[1..];
    assert KidOk(l, p, kids, 0, true);
    forall i | 0 <= i < |m| ensures KidOk(l', p, m, i, true) {
      assert KidOk(l, p, kids, i + 1, true);
    }
  }

  lemma MovedLists(l: Links, children: map<nat, seq<nat>>, root: nat, cur: nat, init: nat, q: nat)
    requires Moving(l, children, root, cur) && init in children && init != cur && children[cur] != [] && q in children
    ensures KidsOk(MovedOne(l, cur, init), q, Handed(children, cur, init)[q], q == cur)
  {
    var kids := children[cur];
    var c := kids[0];
    var l1 := l.(cptr := l.cptr[cur := At(l.optr, c)]);
    assert KidsOk(l, cur, kids, true);
    DetachedKids(l, cur, kids);
    assert KidsOk(l, init, children[init], false);
    SameKidsOk(l, l1, init, children[init], false);
    NotElsewhere(l, children, root, cur, init);
    if q == cur {
      AdoptedOthers(l1, init, children[init], c, cur, kids[1..], true);
    } else if q == init {
      AdoptedKids(l1, init, children[init], c);
    } else {
      assert KidsOk(l, q, children[q], false);
      SameKidsOk(l, l1, q, children[q], false);
      NotElsewhere(l, children, root, cur, q);
      AdoptedOthers(l1, init, children[init], c, q, children[q], false);
    }
  }

  lemma NotElsewhere(l: Links, children: map<nat, seq<nat>>, root: nat, cur: nat, q: nat)
    requires Moving(l, children, root, cur) && q in children && q != cur && children[cur] != []
    ensures children[cur][0] !in children[q]
  {
    KidsParent(l, cur, children[cur], true);
    KidsParent(l, q, children[q], false);
    assert children[cur][0] in children[cur];
  }

  lemma MovedFamily(l: Links, children: map<nat, seq<nat>>, root: nat, cur: nat, init: nat)
    requires Moving(l, children, root, cur) && init in children && init != cur && children[cur] != []
    ensures Moving(MovedOne(l, cur, init), Handed(children, cur, init), root, cur)
  {
    var l', children' := MovedOne(l, cur, init), Handed(children, cur, init);
    forall q | q in children' ensures KidsOk(l', q, children'[q], q == cur) {
      MovedLists(l, children, root, cur, init, q);
    }
    forall q, x | q in children' && x in children'[q] ensures x in children' && x != root {
      assert x in children[q] || x in children[cur];
    }
    forall x | x in children' && x != root ensures Listed(l', children', x) {
      MovedListed(l, children, root, cur, init, x);
    }
  }

  /** The lists after the youngest child of `cur` has gone to `init`. */
  ghost function Handed(children: map<nat, seq<nat>>, cur: nat, init: nat): map<nat, seq<nat>>
    requires cur in children && init in children && children[cur] != []
  {
    children[cur := children[cur][1..]][init := [children[cur][0]] + children[init]]
  }

  lemma MovedListed(l: Links, children: map<nat, seq<nat>>, root: nat, cur: nat, init: nat, x: nat)
    requires Moving(l, children, root, cur) && init in children && init != cur && children[cur] != [] && x in children
    requires x != root
    ensures var children', q := Handed(children, cur, init), At(MovedOne(l, cur, init).parent, x);
      q in children' && x in children'[q]
  {
    var kids := children[cur];
    assert KidsOk(l, cur, kids, true);
    assert KidOk(l, cur, kids, 0, true);
    var q := At(l.parent, x);
    assert Listed(l, children, x);
    if x != kids[0] && q == cur {
      var i := PlaceOf(kids, x);
      assert kids[1..][i - 1] == x;
    }
  }
}
