/** Weak references: a doubly linked list that hangs on its target and outlives it (wref.h). */
module WeakRefs {
  import opened Common

  class WeakRef {
    var target: Target?
    var next: WeakRef?
    var prev: WeakRef?

    constructor (target: Target?, next: WeakRef?)
      ensures this.target == target && this.next == next && prev == null
    {
      this.target, this.next, prev := target, next, null;
    }
  }

  /** A list or a dict. */
  class Target {
    var first: WeakRef?

    constructor ()
      ensures first == null
    {
      first := null;
    }
  }

  /** The weak references of l are linked in this order, with prev and next mutually inverse, and all read as t. */
  ghost predicate IsList(l: seq<WeakRef>, t: Target?)
    reads l
  {
    NoDup(l) && forall i {:trigger IsNode(l, i, t)} :: 0 <= i < |l| ==> IsNode(l, i, t)
  }

  ghost predicate IsNode(l: seq<WeakRef>, i: int, t: Target?)
    requires 0 <= i < |l|
    reads l[i]
  {
    && l[i].target == t
    && l[i].prev == (if i == 0 then null else l[i - 1])
    && l[i].next == (if i + 1 == |l| then null else l[i + 1])
  }

  function FirstOf(l: seq<WeakRef>): WeakRef? { if l == [] then null else l[0] }

  /** w is the element i of l. */
  ghost function IndexOf(l: seq<WeakRef>, w: WeakRef): (i: int)
    requires w in l
    ensures 0 <= i < |l| && l[i] == w
  {
    var i :| 0 <= i < |l| && l[i] == w;
    i
  }

  ghost function Without(l: seq<WeakRef>, i: int): seq<WeakRef>
    requires 0 <= i < |l|
  {
    l[..i] + l[i + 1..]
  }

  lemma WithoutOne(l: seq<WeakRef>, i: int)
    requires 0 <= i < |l| && NoDup(l)
    ensures NoDup(Without(l, i)) && forall x :: x in Without(l, i) <==> x in l && x != l[i]
  {
    var r := Without(l, i);
    forall x | x in l && x != l[i] ensures x in r {
      var j :| 0 <= j < |l| && l[j] == x;
      assert r[if j < i then j else j - 1] == x;
    }
  }

  /** wref_new() for a target whose references are l. */
  method WrefNew(t: Target, ghost l: seq<WeakRef>) returns (w: WeakRef)
    requires IsList(l, t) && t.first == FirstOf(l)
    modifies t, l
    ensures fresh(w) && IsList([w] + l, t) && t.first == w
  {
    var oldFirst := t.first;
    w := new WeakRef(t, oldFirst);
    if oldFirst != null {
      assert IsNode(l, 0, t);
      oldFirst.prev := w;
    }
    t.first := w;
    ghost var l' := [w] + l;
    forall i | 0 <= i < |l'| ensures IsNode(l', i, t) {
      if i > 0 { assert old(IsNode(l, i - 1, t)); }
    }
  }

  /** wref_destroy() for the element k of l, the references of t, which they read as unless it is dead: then it is
      neither read nor written. */
  method WrefDestroy(w: WeakRef, ghost l: seq<WeakRef>, ghost k: nat, ghost t: Target?)
    requires k < |l| && w == l[k] && IsList(l, t) && (t != null ==> t.first == FirstOf(l))
    modifies l, if t == null then {} else {t}
    ensures IsList(Without(l, k), t) && (t != null ==> t.first == FirstOf(Without(l, k)))
  {
    assert IsNode(l, k, t) && (k > 0 ==> IsNode(l, k - 1, t)) && (k + 1 < |l| ==> IsNode(l, k + 1, t));
    var prev := w.prev;
    var next := w.next;
    if prev != null {
      prev.next := next;
    } else {
      var target := w.target;
      if target != null {
        target.first := next;
      }
    }
    if next != null {
      next.prev := prev;
    }
    WithoutOne(l, k);
    ghost var l' := Without(l, k);
    forall i | 0 <= i < |l'| ensures IsNode(l', i, t) {
      var j := if i < k then i else i + 1;
      assert old(IsNode(l, j, t)) && l'[i] == l[j];
    }
  }

  /** wrefable_invalidate(), with which list_destroy() and dict_destroy() begin. */
  method Invalidate(t: Target, ghost l: seq<WeakRef>)
    requires IsList(l, t) && t.first == FirstOf(l)
    modifies l
    ensures IsList(l, null)
  {
    ghost var i := 0;
    var w := t.first;
    while w != null
      invariant 0 <= i <= |l| && w == if i == |l| then null else l[i]
      invariant forall j {:trigger IsNode(l, j, null)} :: 0 <= j < i ==> IsNode(l, j, null)
      invariant forall j {:trigger IsNode(l, j, t)} :: i <= j < |l| ==> IsNode(l, j, t)
      decreases |l| - i
    {
      assert IsNode(l, i, t);
      w.target := null;
      w := w.next;
      i := i + 1;
    }
  }

  /** All targets that were ever created, and all live weak references. */
  class World {
    /** The target that a live weak reference was created for. */
    ghost var owner: map<WeakRef, Target>
    /** The weak references of a target, newest first. */
    ghost var order: map<Target, seq<WeakRef>>
    ghost var dead: set<Target>

    /** What the weak references of t have to read as. */
    ghost function Seen(t: Target): Target?
      reads this
    {
      if t in dead then null else t
    }

    ghost predicate Owned(t: Target, l: seq<WeakRef>)
      reads this
    {
      forall i {:trigger l[i]} :: 0 <= i < |l| ==> l[i] in owner && owner[l[i]] == t
    }

    ghost predicate Linked(t: Target, l: seq<WeakRef>)
      reads this, t, l
    {
      IsList(l, Seen(t)) && (t !in dead ==> t.first == FirstOf(l))
    }

    ghost predicate Valid()
      reads this, order.Keys, owner.Keys
    {
      && dead <= order.Keys
      && (forall w :: w in owner ==> owner[w] in order && w in order[owner[w]])
      && (forall t :: t in order ==> Owned(t, order[t]) && Linked(t, order[t]))
    }

    constructor ()
      ensures Valid() && owner == map[] && order == map[] && dead == {}
    {
      owner, order, dead := map[], map[], {};
    }

    /** A new list or dict has no weak references. */
    method NewTarget() returns (t: Target)
      requires Valid()
      modifies this
      ensures Valid() && fresh(t)
      ensures order == old(order)[t := []] && owner == old(owner) && dead == old(dead)
    {
      t := new Target();
      order := order[t := []];
    }

    /** Reading a weak reference gives its target until that dies, and null from then on. */
    method Get(w: WeakRef) returns (r: Target?)
      requires Valid() && w in owner
      ensures r == if owner[w] in dead then null else owner[w]
    {
      ghost var l := order[owner[w]];
      ghost var i := IndexOf(l, w);
      assert IsNode(l, i, Seen(owner[w]));
      r := w.target;
    }

    /** The lists of the targets other than t are as they were: no reference is in two lists. */
    twostate lemma KeepOthers(t: Target)
      requires old(Valid()) && dead == old(dead) && t in old(order)
      requires forall u :: u in old(order) && u != t ==> u in order && order[u] == old(order[u]) && unchanged(u)
      requires forall x :: x in old(owner) && old(owner[x]) != t ==>
        x in owner && owner[x] == old(owner[x]) && unchanged(x)
      ensures forall u :: u in old(order) && u != t ==> Owned(u, order[u]) && Linked(u, order[u])
    {
      forall u | u in old(order) && u != t ensures Owned(u, order[u]) && Linked(u, order[u]) {
        var l := order[u];
        assert old(Owned(u, l) && Linked(u, l));
        forall i | 0 <= i < |l| ensures l[i] in owner && owner[l[i]] == u && IsNode(l, i, Seen(u)) {
          assert old(l[i] in owner && owner[l[i]] == u && IsNode(l, i, Seen(u)));
        }
      }
    }

    method New(t: Target) returns (w: WeakRef)
      requires Valid() && t in order && t !in dead
      modifies this, t, owner.Keys
      ensures Valid() && fresh(w)
      ensures order == old(order)[t := [w] + old(order)[t]] && owner == old(owner)[w := t] && dead == old(dead)
    {
      ghost var l := order[t];
      w := WrefNew(t, l);
      owner, order := owner[w := t], order[t := [w] + l];
      KeepOthers(t);
    }

    method Destroy(w: WeakRef)
      requires Valid() && w in owner
      modifies this, owner.Keys, if owner[w] in dead then {} else {owner[w]}
      ensures Valid() && dead == old(dead) && owner == old(owner) - {w}
      ensures var t := old(owner[w]); order == old(order)[t := Without(old(order)[t], IndexOf(old(order)[t], w))]
    {
      ghost var t := owner[w];
      ghost var l := order[t];
      ghost var k := IndexOf(l, w);
      WrefDestroy(w, l, k, Seen(t));
      WithoutOne(l, k);
      ghost var l' := Without(l, k);
      owner, order := owner - {w}, order[t := l'];
      forall i | 0 <= i < |l'| ensures l'[i] in owner && owner[l'[i]] == t { assert l'[i] in l'; }
      assert Owned(t, l') && Linked(t, l');
      KeepOthers(t);
    }

    method Kill(t: Target)
      requires Valid() && t in order && t !in dead
      modifies this, owner.Keys
      ensures Valid() && owner == old(owner) && order == old(order) && dead == old(dead) + {t}
    {
      Invalidate(t, order[t]);
      KeepOthers(t);
      dead := dead + {t};
    }
  }
}
