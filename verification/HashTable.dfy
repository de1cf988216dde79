/** The indexed hash table (xht.c, xht.h): a dense array of items, and per bucket a chain of indices into it. */
module HashTable {
  import opened Common
  import opened Powers

  /** Bitwise conjunction. */
  function And(x: nat, y: nat): (r: nat)
    ensures r <= y
    decreases x
  {
    if x == 0 then 0 else 2 * And(x / 2, y / 2) + (if x % 2 == 1 && y % 2 == 1 then 1 else 0)
  }

  /** Masking with a power of two minus one is a remainder. */
  lemma {:induction false} MaskIsMod(x: nat, k: nat)
    ensures Pow(2, k) > 0 && And(x, Pow(2, k) - 1) == x % Pow(2, k)
    decreases k
  {
    hide And, Pow;
    PowPositive(2, k);
    if k == 0 {
      MaskNothing(x);
    } else if x == 0 {
      MaskZero(Pow(2, k));
    } else {
      MaskIsMod(x / 2, k - 1);
      TwicePow(k);
      MaskStep(x, Pow(2, k - 1), Pow(2, k));
    }
  }

  lemma MaskNothing(x: nat)
    ensures And(x, Pow(2, 0) - 1) == x % Pow(2, 0)
  {
  }

  lemma MaskZero(m: nat)
    requires m > 0
    ensures And(0, m - 1) == 0 % m
  {
  }

  lemma TwicePow(k: nat)
    requires k > 0
    ensures Pow(2, k) == 2 * Pow(2, k - 1)
  {
  }

  lemma MaskStep(x: nat, h: nat, m: nat)
    requires x > 0 && h > 0 && m == 2 * h && And(x / 2, h - 1) == x / 2 % h
    ensures And(x, m - 1) == x % m
  {
    HalvesMod(x, h);
    AndStep(x, h);
  }

  lemma AndStep(x: nat, h: nat)
    requires x > 0 && h > 0
    ensures And(x, 2 * h - 1) == 2 * And(x / 2, h - 1) + x % 2
  {
    assert (2 * h - 1) / 2 == h - 1 && (2 * h - 1) % 2 == 1;
  }

  lemma HalvesMod(x: nat, h: nat)
    requires h > 0
    ensures x % (2 * h) == 2 * (x / 2 % h) + x % 2
  {
    var q := x / 2 / h;
    Division(x / 2, h);
    assert q * (2 * h) == 2 * (q * h);
    RemainderIs(x, 2 * h, q, 2 * (x / 2 % h) + x % 2);
  }

  lemma RemainderIs(x: nat, m: nat, q: nat, r: nat)
    requires m > 0 && x == q * m + r && r < m
    ensures x % m == r
  {
    Division(x, m);
    assert (q + 1) * m == q * m + m;
    LessByMul(x / m, q + 1, m);
    LessByMul(q, x / m + 1, m);
  }

  /** The end of a chain; also what the search functions return for "none". */
  const NIL := -1

  datatype Item<K, V> = Item(key: K, value: V, next: int, hash: nat)

  // ----- Chains -----

  /** Following the links from head visits the indices of c and then ends. */
  ghost predicate Chain<K, V>(items: seq<Item<K, V>>, head: int, c: seq<int>)
    decreases |c|
  {
    if c == [] then head == NIL
    else head == c[0] && 0 <= c[0] < |items| && Chain(items, items[c[0]].next, c[1..])
  }

  lemma {:induction false} ChainInside<K, V>(items: seq<Item<K, V>>, head: int, c: seq<int>)
    requires Chain(items, head, c)
    ensures forall i :: i in c ==> 0 <= i < |items|
    decreases |c|
  {
    if c != [] {
      ChainInside(items, items[c[0]].next, c[1..]);
      forall i | i in c ensures 0 <= i < |items| {
        if i != c[0] { assert i in c[1..]; }
      }
    }
  }

  /** A chain depends only on the links of its own items. */
  lemma {:induction false} ChainFrame<K, V>(items: seq<Item<K, V>>, items': seq<Item<K, V>>, head: int, c: seq<int>)
    requires Chain(items, head, c)
    requires forall i :: i in c && 0 <= i < |items| ==> i < |items'| && items'[i].next == items[i].next
    ensures Chain(items', head, c)
    decreases |c|
  {
    if c != [] {
      assert forall i :: i in c[1..] ==> i in c;
      ChainFrame(items, items', items[c[0]].next, c[1..]);
    }
  }

  lemma {:induction false} ChainAt<K, V>(items: seq<Item<K, V>>, head: int, c: seq<int>, k: nat)
    requires Chain(items, head, c) && k < |c|
    ensures 0 <= c[k] < |items| && Chain(items, items[c[k]].next, c[k + 1..])
    ensures items[c[k]].next == if k + 1 < |c| then c[k + 1] else NIL
    ensures Chain(items, c[k], c[k..])
    decreases k
  {
    if k > 0 {
      assert c[1..][k - 1] == c[k] && c[1..][k..] == c[k + 1..] && c[1..][k - 1..] == c[k..];
      ChainAt(items, items[c[0]].next, c[1..], k - 1);
    } else {
      assert c[0..] == c;
    }
  }

  /** Changing the link of the k-th item: the part of the chain up to it stays, the part behind it is replaced. */
  lemma {:induction false} ChainCut<K, V>(
      items: seq<Item<K, V>>, items': seq<Item<K, V>>, head: int, c: seq<int>, k: nat, tail: seq<int>)
    requires Chain(items, head, c) && k < |c|
    requires forall j :: 0 <= j < k && 0 <= c[j] < |items| ==> c[j] < |items'| && items'[c[j]].next == items[c[j]].next
    requires 0 <= c[k] < |items'| && Chain(items', items'[c[k]].next, tail)
    ensures Chain(items', head, c[..k + 1] + tail)
    decreases k
  {
    var d := c[..k + 1] + tail;
    if k == 0 {
      assert d[1..] == tail;
    } else {
      assert d[1..] == c[1..][..k - 1 + 1] + tail;
      assert forall j :: 0 <= j < k - 1 ==> c[1..][j] == c[j + 1];
      ChainCut(items, items', items[c[0]].next, c[1..], k - 1, tail);
      assert items'[c[0]].next == items[c[0]].next;
    }
  }

  // ----- The table as a value -----

  datatype Table<K, V> = Table(items: seq<Item<K, V>>, buckets: seq<int>)

  function Slot(hash: nat, nbuckets: nat): (b: nat)
    requires nbuckets > 0
    ensures b < nbuckets
  {
    And(hash, nbuckets - 1)
  }

  /** chains[b] is the chain of bucket b: together they hold every index but `gone` exactly once, in the bucket of
      its hash. */
  ghost predicate LinkedBut<K, V>(t: Table<K, V>, chains: seq<seq<int>>, gone: int) {
    && |chains| == |t.buckets| > 0
    && (forall b {:trigger chains[b]} {:trigger t.buckets[b]} :: 0 <= b < |chains| ==>
      NoDup(chains[b]) && Chain(t.items, t.buckets[b], chains[b]))
    && (forall b, i {:trigger i in chains[b]} :: 0 <= b < |chains| && i in chains[b] ==>
          0 <= i < |t.items| && i != gone && Slot(t.items[i].hash, |t.buckets|) == b)
    && (forall i {:trigger t.items[i]} :: 0 <= i < |t.items| && i != gone ==>
      i in chains[Slot(t.items[i].hash, |t.buckets|)])
  }

  ghost predicate Linked<K, V>(t: Table<K, V>, chains: seq<seq<int>>) { LinkedBut(t, chains, NIL) }

  ghost predicate Keyed<K(!new), V>(items: seq<Item<K, V>>, h: K -> nat) {
    && (forall i, j {:trigger items[i], items[j]} :: 0 <= i < j < |items| ==> items[i].key != items[j].key)
    && (forall i {:trigger items[i]} :: 0 <= i < |items| ==> items[i].hash == h(items[i].key))
  }

  /** The map that the items represent. */
  ghost function Contents<K, V>(items: seq<Item<K, V>>): map<K, V>
    decreases |items|
  {
    if items == [] then map[] else Contents(items[..|items| - 1])[items[|items| - 1].key := items[|items| - 1].value]
  }

  lemma {:induction false} ContentsOf<K(!new), V>(items: seq<Item<K, V>>, h: K -> nat)
    requires Keyed(items, h)
    ensures forall i {:trigger items[i]} :: 0 <= i < |items| ==>
      items[i].key in Contents(items) && Contents(items)[items[i].key] == items[i].value
    ensures forall k :: k in Contents(items) ==> exists i :: 0 <= i < |items| && items[i].key == k
    ensures |Contents(items)| == |items|
    decreases |items|
  {
    if items != [] {
      var (init, x) := (items[..|items| - 1], items[|items| - 1]);
      ContentsOf(init, h);
      assert x.key !in Contents(init) by {
        forall i | 0 <= i < |init| ensures init[i].key != x.key { assert init[i] == items[i]; }
      }
      forall k | k in Contents(items) ensures exists i :: 0 <= i < |items| && items[i].key == k {
        if k == x.key {
          assert items[|items| - 1].key == k;
        } else {
          var i :| 0 <= i < |init| && init[i].key == k;
          assert items[i].key == k;
        }
      }
      forall i | 0 <= i < |items| ensures items[i].key in Contents(items)
        && Contents(items)[items[i].key] == items[i].value {
        if i < |init| { assert init[i] == items[i]; }
      }
    }
  }

  /** Two tables with the same pairs represent the same map. */
  lemma {:induction false} SameContents<K(!new), V>(items: seq<Item<K, V>>, m: map<K, V>, h: K -> nat)
    requires Keyed(items, h)
    requires forall i {:trigger items[i]} :: 0 <= i < |items| ==> items[i].key in m && m[items[i].key] == items[i].value
    requires forall k :: k in m ==> exists i :: 0 <= i < |items| && items[i].key == k
    ensures Contents(items) == m
  {
    ContentsOf(items, h);
    forall k | k in m ensures k in Contents(items) && Contents(items)[k] == m[k] {
      var i :| 0 <= i < |items| && items[i].key == k;
    }
    forall k | k in Contents(items) ensures k in m {
      var i :| 0 <= i < |items| && items[i].key == k;
    }
  }

  // ----- Values of the table before and after an operation -----

  /** A new item at the head of its chain. */
  function Inserted<K, V>(t: Table<K, V>, key: K, hash: nat, value: V): Table<K, V>
    requires |t.buckets| > 0
  {
    var b := Slot(hash, |t.buckets|);
    Table(t.items + [Item(key, value, t.buckets[b], hash)], t.buckets[b := |t.items|])
  }

  lemma {:induction false} InsertedLinked<K, V>(t: Table<K, V>, chains: seq<seq<int>>, key: K, hash: nat, value: V)
    requires Linked(t, chains)
    ensures var b := Slot(hash, |t.buckets|);
      Linked(Inserted(t, key, hash, value), chains[b := [|t.items| as int] + chains[b]])
  {
    hide Slot, And;
    var (b, n: int) := (Slot(hash, |t.buckets|), |t.items|);
    var (u, cs) := (Inserted(t, key, hash, value), chains[b := [n] + chains[b]]);
    forall k | 0 <= k < |cs| ensures NoDup(cs[k]) && Chain(u.items, u.buckets[k], cs[k]) {
      assert NoDup(chains[k]) && Chain(t.items, t.buckets[k], chains[k]);
      ChainInside(t.items, t.buckets[k], chains[k]);
      ChainFrame(t.items, u.items, t.buckets[k], chains[k]);
      if k == b {
        assert cs[b][1..] == chains[b];
        assert forall j :: 0 <= j < |chains[b]| ==> chains[b][j] in chains[b];
      }
    }
    forall k, i | 0 <= k < |cs| && i in cs[k] ensures 0 <= i < |u.items| && Slot(u.items[i].hash, |u.buckets|) == k {
      if i in chains[k] { assert u.items[i] == t.items[i]; }
    }
    forall i | 0 <= i < |u.items| ensures i in cs[Slot(u.items[i].hash, |u.buckets|)] {
      if i < n { assert i in chains[Slot(t.items[i].hash, |t.buckets|)]; } else { assert cs[b][0] == n; }
    }
  }

  lemma {:induction false} InsertedContents<K(!new), V>(items: seq<Item<K, V>>, h: K -> nat, x: Item<K, V>)
    requires Keyed(items, h) && x.hash == h(x.key) && forall i {:trigger items[i]} :: 0 <= i < |items| ==>
      items[i].key != x.key
    ensures Keyed(items + [x], h) && Contents(items + [x]) == Contents(items)[x.key := x.value]
  {
    assert (items + [x])[..|items|] == items;
  }

  // ----- Links that are about to be changed -----

  /** A place that holds a link: the head of a bucket or the link of an item. */
  datatype Loc = Head(b: int) | After(i: int)

  predicate IsLoc<K, V>(t: Table<K, V>, l: Loc) {
    if l.Head? then 0 <= l.b < |t.buckets| else 0 <= l.i < |t.items|
  }

  function Read<K, V>(t: Table<K, V>, l: Loc): int
    requires IsLoc(t, l)
  {
    if l.Head? then t.buckets[l.b] else t.items[l.i].next
  }

  function Write<K, V>(t: Table<K, V>, l: Loc, v: int): Table<K, V>
    requires IsLoc(t, l)
  {
    if l.Head? then t.(buckets := t.buckets[l.b := v]) else t.(items := t.items[l.i := t.items[l.i].(next := v)])
  }

  /** The place that leads to position k of chain c in bucket b. */
  function LocAt(b: int, c: seq<int>, k: nat): Loc
    requires k <= |c|
  {
    if k == 0 then Head(b) else After(c[k - 1])
  }

  lemma {:induction false} ReadAt<K, V>(t: Table<K, V>, chains: seq<seq<int>>, gone: int, b: nat, k: nat)
    requires LinkedBut(t, chains, gone) && b < |chains| && k <= |chains[b]|
    ensures IsLoc(t, LocAt(b, chains[b], k))
    ensures Read(t, LocAt(b, chains[b], k)) == if k < |chains[b]| then chains[b][k] else NIL
    ensures k < |chains[b]| ==>
      chains[b][k] in chains[b] && 0 <= chains[b][k] < |t.items| && LocAt(b, chains[b], k + 1) == After(chains[b][k])
  {
    assert Chain(t.items, t.buckets[b], chains[b]);
    if k > 0 { ChainAt(t.items, t.buckets[b], chains[b], k - 1); }
    if k < |chains[b]| { ChainAt(t.items, t.buckets[b], chains[b], k); }
  }

  lemma {:induction false} ChainSplice<K, V>(
      items: seq<Item<K, V>>, items': seq<Item<K, V>>, head: int, head': int, c: seq<int>, k: nat, v: int,
      tail: seq<int>)
    requires Chain(items, head, c) && k <= |c| && Chain(items', v, tail)
    requires if k == 0 then head' == v else head' == head && 0 <= c[k - 1] < |items'| && items'[c[k - 1]].next == v
    requires forall j :: 0 <= j < k - 1 && 0 <= c[j] < |items| ==>
      c[j] < |items'| && items'[c[j]].next == items[c[j]].next
    ensures Chain(items', head', c[..k] + tail)
  {
    if k == 0 {
      assert c[..0] + tail == tail;
    } else {
      ChainCut(items, items', head, c, k - 1, tail);
    }
  }

  /** Taking position k out of a chain. */
  lemma {:induction false} Unlinked<K, V>(t: Table<K, V>, chains: seq<seq<int>>, b: nat, k: nat)
    requires Linked(t, chains) && b < |chains| && k < |chains[b]|
    ensures var (c, l) := (chains[b], LocAt(b, chains[b], k));
      && 0 <= c[k] < |t.items| && IsLoc(t, l)
      && LinkedBut(Write(t, l, t.items[c[k]].next), chains[b := c[..k] + c[k + 1..]], c[k])
  {
    var (c, l) := (chains[b], LocAt(b, chains[b], k));
    ReadAt(t, chains, NIL, b, k);
    ChainAt(t.items, t.buckets[b], c, k);
    var (i, v, tail) := (c[k], t.items[c[k]].next, c[k + 1..]);
    var u := Write(t, l, v);
    assert NoDup(c) && forall j :: 0 <= j < |c| ==> c[j] in c;
    ChainFrame(t.items, u.items, v, tail);
    ChainSplice(t.items, u.items, t.buckets[b], u.buckets[b], c, k, v, tail);
    OthersStay(t, u, chains, NIL, b);
    WithoutOne(c, k);
    Shortened(t, u, chains, b, c[..k] + tail, i);
  }

  lemma {:induction false} Shortened<K, V>(t: Table<K, V>, u: Table<K, V>, chains: seq<seq<int>>, b: nat, d: seq<int>,
      i: int)
    requires Linked(t, chains) && b < |chains| && |u.buckets| == |t.buckets| && |u.items| == |t.items|
    requires forall x {:trigger u.items[x]} :: 0 <= x < |t.items| ==> u.items[x].hash == t.items[x].hash
    requires forall q {:trigger chains[q]} :: 0 <= q < |chains| && q != b ==> Chain(u.items, u.buckets[q], chains[q])
    requires NoDup(d) && Chain(u.items, u.buckets[b], d) && i in chains[b] && forall x :: x in d <==>
      x in chains[b] && x != i
    ensures LinkedBut(u, chains[b := d], i)
  {
    var cs := chains[b := d];
    forall q | 0 <= q < |cs| ensures NoDup(cs[q]) && Chain(u.items, u.buckets[q], cs[q]) {
      assert NoDup(chains[q]);
    }
    forall q, x | 0 <= q < |cs| && x in cs[q]
      ensures 0 <= x < |u.items| && x != i && Slot(u.items[x].hash, |u.buckets|) == q {
      assert x in chains[q] && i in chains[b];
    }
    forall x | 0 <= x < |u.items| && x != i ensures x in cs[Slot(u.items[x].hash, |u.buckets|)] {
      assert x in chains[Slot(t.items[x].hash, |t.buckets|)];
    }
  }

  lemma {:induction false} WithoutOne(c: seq<int>, k: nat)
    requires NoDup(c) && k < |c|
    ensures forall x :: x in c[..k] + c[k + 1..] <==> x in c && x != c[k]
    ensures NoDup(c[..k] + c[k + 1..])
  {
    var d := c[..k] + c[k + 1..];
    forall x | x in c && x != c[k] ensures x in d {
      var j :| 0 <= j < |c| && c[j] == x;
      assert d[if j < k then j else j - 1] == x;
    }
    forall j | 0 <= j < |d| ensures d[j] == c[if j < k then j else j + 1] {
    }
  }

  /** The chains of the other buckets do not notice a change inside of bucket b. */
  lemma {:induction false} OthersStay<K, V>(t: Table<K, V>, u: Table<K, V>, chains: seq<seq<int>>, gone: int, b: nat)
    requires LinkedBut(t, chains, gone) && b < |chains| && |u.buckets| == |t.buckets| && |u.items| == |t.items|
    requires forall q :: 0 <= q < |chains| && q != b ==> u.buckets[q] == t.buckets[q]
    requires forall i :: 0 <= i < |t.items| && i !in chains[b] && i != gone ==> u.items[i].next == t.items[i].next
    ensures forall q {:trigger chains[q]} :: 0 <= q < |chains| && q != b ==> Chain(u.items, u.buckets[q], chains[q])
  {
    forall q | 0 <= q < |chains| && q != b ensures Chain(u.items, u.buckets[q], chains[q]) {
      assert Chain(t.items, t.buckets[q], chains[q]);
      forall i | i in chains[q] && 0 <= i < |t.items| ensures i !in chains[b] && i != gone {
        assert Slot(t.items[i].hash, |t.buckets|) == q;
      }
      ChainFrame(t.items, u.items, t.buckets[q], chains[q]);
    }
  }

  // ----- The last item moves to the place of a removed one -----

  /** `*pi = idx; items[idx] = items[idx_last]; --items_size`, where l is the place that leads to the last item. */
  function Moved<K, V>(t: Table<K, V>, l: Loc, i: nat): Table<K, V>
    requires IsLoc(t, l) && i < |t.items|
  {
    var u := Write(t, l, i);
    var last := |t.items| - 1;
    Table(u.items[i := u.items[last]][..last], u.buckets)
  }

  lemma {:induction false} Truncated<K, V>(t: Table<K, V>, chains: seq<seq<int>>)
    requires t.items != [] && LinkedBut(t, chains, |t.items| - 1)
    ensures Linked(Table(t.items[..|t.items| - 1], t.buckets), chains)
  {
    var u := Table(t.items[..|t.items| - 1], t.buckets);
    forall q | 0 <= q < |chains| ensures NoDup(chains[q]) && Chain(u.items, u.buckets[q], chains[q]) {
      assert NoDup(chains[q]) && Chain(t.items, t.buckets[q], chains[q]);
      ChainFrame(t.items, u.items, t.buckets[q], chains[q]);
    }
  }

  lemma {:induction false} NotGone<K, V>(t: Table<K, V>, chains: seq<seq<int>>, gone: int, b: nat)
    requires LinkedBut(t, chains, gone) && b < |chains|
    ensures NoDup(chains[b]) && b < |t.buckets| && Chain(t.items, t.buckets[b], chains[b])
    ensures forall j :: 0 <= j < |chains[b]| ==>
      0 <= chains[b][j] < |t.items| && chains[b][j] != gone && chains[b][j] in chains[b]
  {
    forall j | 0 <= j < |chains[b]| ensures 0 <= chains[b][j] < |t.items| && chains[b][j] != gone
      && chains[b][j] in chains[b] {
      assert chains[b][j] in chains[b];
    }
  }

  lemma {:induction false} MovedLinked<K, V>(t: Table<K, V>, chains: seq<seq<int>>, i: nat, b: nat, k: nat)
    requires LinkedBut(t, chains, i) && i < |t.items| - 1 && b < |chains| && k < |chains[b]|
      && chains[b][k] == |t.items| - 1
    ensures IsLoc(t, LocAt(b, chains[b], k))
      && Linked(Moved(t, LocAt(b, chains[b], k), i), chains[b := chains[b][k := i]])
  {
    hide LinkedBut, Linked, Chain, Slot;
    var (l, last) := (LocAt(b, chains[b], k), |t.items| - 1);
    Sizes(t, chains, i);
    ReadAt(t, chains, i, b, k);
    NotGone(t, chains, i, b);
    var v := Table(Write(t, l, i).items[i := Write(t, l, i).items[last]], Write(t, l, i).buckets);
    MovedChain(t, v, chains[b], b, k, i, last);
    WriteFacts(t, l, i, last, v, chains[b], b, k);
    OthersStay(t, v, chains, i, b);
    MovedBut(t, v, chains, i, b, k, last);
    Truncated(v, chains[b := chains[b][k := i]]);
  }

  lemma {:induction false} WriteFacts<K, V>(t: Table<K, V>, l: Loc, i: nat, last: nat, v: Table<K, V>, c: seq<int>,
      b: nat, k: nat)
    requires IsLoc(t, l) && i < last < |t.items| && k < |c| && l == LocAt(b, c, k)
    requires v == Table(Write(t, l, i).items[i := Write(t, l, i).items[last]], Write(t, l, i).buckets)
    requires forall j :: 0 <= j < |c| ==> c[j] in c
    ensures |v.buckets| == |t.buckets| && |v.items| == |t.items|
    ensures forall q :: 0 <= q < |t.buckets| && q != b ==> v.buckets[q] == t.buckets[q]
    ensures forall x :: 0 <= x < |t.items| && x !in c && x != i ==> v.items[x].next == t.items[x].next
    ensures forall x {:trigger v.items[x]} :: 0 <= x < |t.items| ==>
      v.items[x].hash == t.items[if x == i then last else x].hash
  {
  }

  lemma {:induction false} MovedChain<K, V>(t: Table<K, V>, v: Table<K, V>, c: seq<int>, b: nat, k: nat, i: nat,
      last: nat)
    requires b < |t.buckets| && Chain(t.items, t.buckets[b], c) && k < |c| && c[k] == last && i < last < |t.items|
      && NoDup(c)
    requires forall j :: 0 <= j < |c| ==> 0 <= c[j] < |t.items| && c[j] != i
    requires IsLoc(t, LocAt(b, c, k)) && var u := Write(t, LocAt(b, c, k), i);
      v == Table(u.items[i := u.items[last]], u.buckets)
    ensures Chain(v.items, v.buckets[b], c[k := i])
  {
    ChainAt(t.items, t.buckets[b], c, k);
    var tail := c[k + 1..];
    ChainFrame(t.items, v.items, t.items[last].next, tail);
    assert ([i as int] + tail)[1..] == tail;
    ChainSplice(t.items, v.items, t.buckets[b], v.buckets[b], c, k, i, [i as int] + tail);
    assert c[..k] + ([i as int] + tail) == c[k := i];
  }

  lemma {:induction false} MovedBut<K, V>(t: Table<K, V>, v: Table<K, V>, chains: seq<seq<int>>, i: nat, b: nat,
      k: nat, last: int)
    requires LinkedBut(t, chains, i) && i < last == |t.items| - 1 && b < |chains| && k < |chains[b]|
      && chains[b][k] == last
    requires |v.buckets| == |t.buckets| && |v.items| == |t.items|
    requires forall x {:trigger v.items[x]} :: 0 <= x < |t.items| ==>
      v.items[x].hash == t.items[if x == i then last else x].hash
    requires forall q {:trigger chains[q]} :: 0 <= q < |chains| && q != b ==> Chain(v.items, v.buckets[q], chains[q])
    requires Chain(v.items, v.buckets[b], chains[b][k := i])
    ensures LinkedBut(v, chains[b := chains[b][k := i]], last)
  {
    var (c, d) := (chains[b], chains[b][k := i]);
    var cs := chains[b := d];
    NotGone(t, chains, i, b);
    forall x ensures x in d <==> x == i || (x in c && x != last) {
      if x == i { assert d[k] == x; }
      if x in c && x != last {
        var j :| 0 <= j < |c| && c[j] == x;
        assert d[j] == x;
      }
    }
    forall q | 0 <= q < |cs| ensures NoDup(cs[q]) && Chain(v.items, v.buckets[q], cs[q]) {
      assert NoDup(chains[q]);
    }
    forall q, x | 0 <= q < |cs| && x in cs[q]
      ensures 0 <= x < |v.items| && x != last && Slot(v.items[x].hash, |v.buckets|) == q {
      if x != i { assert x in chains[q]; }
    }
    forall x | 0 <= x < |v.items| && x != last ensures x in cs[Slot(v.items[x].hash, |v.buckets|)] {
      if x != i { assert x in chains[Slot(t.items[x].hash, |t.buckets|)]; }
    }
  }

  lemma {:induction false} RemovedContents<K(!new), V>(
      items: seq<Item<K, V>>, items': seq<Item<K, V>>, h: K -> nat, i: nat)
    requires Keyed(items, h) && i < |items| && |items'| == |items| - 1
    requires forall x {:trigger items'[x]} :: 0 <= x < |items'| ==>
      var y := items[if x == i then |items| - 1 else x];
        items'[x].key == y.key && items'[x].value == y.value && items'[x].hash == y.hash
    ensures Keyed(items', h) && Contents(items') == Contents(items) - {items[i].key}
  {
    ContentsOf(items, h);
    var m := Contents(items) - {items[i].key};
    forall k | k in m ensures exists x :: 0 <= x < |items'| && items'[x].key == k {
      var y :| 0 <= y < |items| && items[y].key == k;
      assert items'[if y == |items| - 1 then i else y].key == k;
    }
    SameContents(items', m, h);
  }

  // ----- Growing -----

  /** The first i items have been put into the new buckets. */
  ghost predicate Rehashed<K, V>(t: Table<K, V>, chains: seq<seq<int>>, i: nat) {
    && |chains| == |t.buckets| > 0 && i <= |t.items|
    && (forall b {:trigger chains[b]} {:trigger t.buckets[b]} :: 0 <= b < |chains| ==>
      NoDup(chains[b]) && Chain(t.items, t.buckets[b], chains[b]))
    && (forall b, x {:trigger x in chains[b]} :: 0 <= b < |chains| && x in chains[b] ==>
          0 <= x < i && Slot(t.items[x].hash, |t.buckets|) == b)
    && (forall x {:trigger t.items[x]} :: 0 <= x < i ==> x in chains[Slot(t.items[x].hash, |t.buckets|)])
  }

  lemma {:induction false} RehashOne<K, V>(t: Table<K, V>, chains: seq<seq<int>>, i: nat, b: nat)
    requires Rehashed(t, chains, i) && i < |t.items| && b == Slot(t.items[i].hash, |t.buckets|)
    ensures Rehashed(Table(t.items[i := t.items[i].(next := t.buckets[b])], t.buckets[b := i]),
      chains[b := [i as int] + chains[b]], i + 1)
  {
    var u := Table(t.items[i := t.items[i].(next := t.buckets[b])], t.buckets[b := i]);
    var cs := chains[b := [i as int] + chains[b]];
    forall q | 0 <= q < |cs| ensures NoDup(cs[q]) && Chain(u.items, u.buckets[q], cs[q]) {
      assert NoDup(chains[q]) && Chain(t.items, t.buckets[q], chains[q]);
      ChainFrame(t.items, u.items, t.buckets[q], chains[q]);
      if q == b {
        assert cs[b][1..] == chains[b];
        assert forall j :: 0 <= j < |chains[b]| ==> chains[b][j] in chains[b];
      }
    }
    forall q, x | 0 <= q < |cs| && x in cs[q] ensures 0 <= x < i + 1 && Slot(u.items[x].hash, |u.buckets|) == q {
      if x != i { assert x in chains[q]; }
    }
    forall x | 0 <= x < i + 1 ensures x in cs[Slot(u.items[x].hash, |u.buckets|)] {
      if x < i { assert x in chains[Slot(t.items[x].hash, |t.buckets|)]; } else { assert cs[b][0] == i; }
    }
  }

  lemma {:induction false} SamePairs<K(!new), V>(items: seq<Item<K, V>>, items': seq<Item<K, V>>, h: K -> nat)
    requires Keyed(items, h) && |items'| == |items|
    requires forall x {:trigger items'[x]} :: 0 <= x < |items| ==>
      items'[x].key == items[x].key && items'[x].value == items[x].value && items'[x].hash == items[x].hash
    ensures Keyed(items', h) && Contents(items') == Contents(items)
  {
    ContentsOf(items, h);
    forall k | k in Contents(items) ensures exists x :: 0 <= x < |items'| && items'[x].key == k {
      var x :| 0 <= x < |items| && items[x].key == k;
      assert items'[x].key == k;
    }
    SameContents(items', Contents(items), h);
  }

  // ----- Iteration: the chains one after another -----

  ghost function Order(chains: seq<seq<int>>, b: nat): seq<int>
    requires b <= |chains|
    decreases |chains| - b
  {
    if b == |chains| then [] else chains[b] + Order(chains, b + 1)
  }

  ghost function Before(chains: seq<seq<int>>, b: nat): seq<int>
    requires b <= |chains|
  {
    if b == 0 then [] else Before(chains, b - 1) + chains[b - 1]
  }

  lemma {:induction false} OrderSplit(chains: seq<seq<int>>, b: nat)
    requires b <= |chains|
    ensures Order(chains, 0) == Before(chains, b) + Order(chains, b)
  {
    if b > 0 {
      OrderSplit(chains, b - 1);
      Cat3(Before(chains, b - 1), chains[b - 1], Order(chains, b));
    } else {
      assert [] + Order(chains, 0) == Order(chains, 0);
    }
  }

  lemma {:induction false} OrderMembers<K, V>(t: Table<K, V>, chains: seq<seq<int>>, b: nat)
    requires Linked(t, chains) && b <= |chains|
    ensures NoDup(Order(chains, b))
    ensures forall i :: i in Order(chains, b) <==> 0 <= i < |t.items| && Slot(t.items[i].hash, |t.buckets|) >= b
    decreases |chains| - b
  {
    if b < |chains| {
      OrderMembers(t, chains, b + 1);
      var (c, rest) := (chains[b], Order(chains, b + 1));
      assert NoDup(c);
      forall i, j | 0 <= i < j < |c + rest| ensures (c + rest)[i] != (c + rest)[j] {
        if i < |c| <= j {
          assert c[i] in c && rest[j - |c|] in rest;
        }
      }
      forall i ensures i in c + rest <==> 0 <= i < |t.items| && Slot(t.items[i].hash, |t.buckets|) >= b {
        if 0 <= i < |t.items| && Slot(t.items[i].hash, |t.buckets|) == b {
          assert i in chains[Slot(t.items[i].hash, |t.buckets|)];
        }
      }
    }
  }

  lemma {:induction false} DistinctCount(s: seq<int>, n: nat)
    requires NoDup(s) && forall i :: i in s <==> 0 <= i < n
    ensures |s| == n
    decreases n
  {
    if n == 0 {
      assert forall j :: 0 <= j < |s| ==> s[j] in s;
    } else {
      assert n - 1 in s;
      var k :| 0 <= k < |s| && s[k] == n - 1;
      var r := s[..k] + s[k + 1..];
      WithoutOne(s, k);
      forall i ensures i in r <==> 0 <= i < n - 1 {
        assert i in s <==> 0 <= i < n;
      }
      DistinctCount(r, n - 1);
    }
  }

  /** Iteration visits every index exactly once. */
  lemma {:induction false} OrderComplete<K, V>(t: Table<K, V>, chains: seq<seq<int>>)
    requires Linked(t, chains)
    ensures NoDup(Order(chains, 0)) && |Order(chains, 0)| == |t.items| && forall i :: i in Order(chains, 0) <==>
      0 <= i < |t.items|
  {
    OrderMembers(t, chains, 0);
    DistinctCount(Order(chains, 0), |t.items|);
  }

  /** Where position k of bucket b is in the iteration, and what comes next. */
  lemma {:induction false} NextInOrder(chains: seq<seq<int>>, b: nat, k: nat)
    requires b < |chains| && k < |chains[b]|
    ensures var (o, m, rest) := (Order(chains, 0), |Before(chains, b)| + k, Order(chains, b + 1));
      && m < |o| && o[m] == chains[b][k]
      && (k + 1 < |chains[b]| ==> m + 1 < |o| && o[m + 1] == chains[b][k + 1])
      && (k + 1 == |chains[b]| && rest != [] ==> m + 1 < |o| && o[m + 1] == rest[0])
      && (k + 1 == |chains[b]| && rest == [] ==> m + 1 == |o|)
  {
    OrderSplit(chains, b);
  }

  // ----- The table -----

  class Xht<K(==, !new), V> {
    var items: seq<Item<K, V>>
    var buckets: seq<int>
    ghost var chains: seq<seq<int>>
    ghost var rank: nat
    ghost const h: K -> nat            // the hash function of the callers

    ghost function T(): Table<K, V>
      reads this
    {
      Table(items, buckets)
    }

    /** Chains and keys are in order, the number of buckets is a power of two, and the load is at most 3/4. */
    ghost predicate Valid()
      reads this
    {
      Linked(T(), chains) && Keyed(items, h) && |buckets| == Pow(2, rank) && 4 * |items| <= 3 * |buckets|
    }

    /** The mask selects the bucket by the remainder of the hash. */
    lemma BucketOf(hash: nat)
      requires Valid()
      ensures |buckets| > 0 && Slot(hash, |buckets|) == hash % |buckets|
    {
      hide LinkedBut, Keyed;
      MaskIsMod(hash, rank);
    }

    ghost function Map(): map<K, V>
      reads this
    {
      Contents(items)
    }

    /** xht_new() */
    constructor (ghost h: K -> nat, rank: nat)
      ensures Valid() && this.h == h && Map() == map[] && this.rank == rank
    {
      PowPositive(2, rank);
      this.h, this.rank := h, rank;
      items := [];
      buckets := seq(Pow(2, rank), _ => NIL);
      chains := seq(Pow(2, rank), _ => []);
    }

    /** xht_size() */
    method Size() returns (n: nat)
      requires Valid()
      ensures n == |Map()|
    {
      ContentsOf(items, h);
      n := |items|;
    }

    /** The position of the key in the items, or NIL. */
    method Find(key: K, hash: nat) returns (i: int)
      requires Valid() && hash == h(key)
      ensures i == NIL <==> key !in Map()
      ensures i != NIL ==> 0 <= i < |items| && items[i].key == key && Map()[key] == items[i].value
    {
      hide LinkedBut, Chain, Contents, And, Slot, Keyed;
      Sizes(T(), chains, NIL);
      var b := Slot(hash, |buckets|);
      i := buckets[b];
      ghost var c := chains[b];
      ghost var k := 0;
      ContentsOf(items, h);
      ReadAt(T(), chains, NIL, b, 0);
      while i != NIL
        invariant 0 <= k <= |c| && i == if k < |c| then c[k] else NIL
        invariant i != NIL ==> 0 <= i < |items|
        invariant forall j :: 0 <= j < k && 0 <= c[j] < |items| ==> items[c[j]].key != key
        decreases |c| - k
      {
        var item := items[i];
        if item.key == key { return; }
        ReadAt(T(), chains, NIL, b, k);
        ReadAt(T(), chains, NIL, b, k + 1);
        i := item.next;
        k := k + 1;
      }
      ReadAt(T(), chains, NIL, b, k);
      NotFound(T(), chains, h, key, b);
    }

    /** xht_get() */
    method Get(key: K, hash: nat, ifAbsent: V) returns (v: V)
      requires Valid() && hash == h(key)
      ensures v == if key in Map() then Map()[key] else ifAbsent
    {
      var i := Find(key, hash);
      v := if i != NIL then items[i].value else ifAbsent;
    }

    /** grow_buckets() */
    method Grow()
      requires Linked(T(), chains) && Keyed(items, h)
      modifies `items, `buckets, `chains
      ensures Linked(T(), chains) && Keyed(items, h) && Map() == old(Map())
      ensures |items| == |old(items)| && |buckets| == 2 * |old(buckets)|
      ensures forall x {:trigger items[x]} :: 0 <= x < |items| ==> items[x].key == old(items)[x].key
    {
      var n := 2 * |buckets|;
      buckets := seq(n, _ => NIL);
      chains := seq(n, _ => []);
      var i := 0;
      while i < |items|
        invariant i <= |items| == |old(items)| && |buckets| == n && Rehashed(T(), chains, i)
        invariant forall x {:trigger items[x]} :: 0 <= x < |items| ==>
          items[x].key == old(items)[x].key && items[x].value == old(items)[x].value
            && items[x].hash == old(items)[x].hash
      {
        var b := Slot(items[i].hash, |buckets|);
        RehashOne(T(), chains, i, b);
        items := items[i := items[i].(next := buckets[b])];
        buckets := buckets[b := i];
        chains := chains[b := [i as int] + chains[b]];
        i := i + 1;
      }
      SamePairs(old(items), items, h);
    }

    /** xht_insert_new_unchecked(): the key must be new. */
    method InsertNewUnchecked(key: K, hash: nat, value: V) returns (i: nat)
      requires Valid() && hash == h(key) && key !in Map()
      modifies `items, `buckets, `chains, `rank
      ensures Valid() && Map() == old(Map())[key := value]
      ensures i < |items| && items[i].key == key
    {
      hide LinkedBut, Chain, Contents, And, Slot, Keyed;
      i := |items|;
      Sizes(T(), chains, NIL);
      var b := Slot(hash, |buckets|);
      ContentsOf(items, h);
      InsertedLinked(T(), chains, key, hash, value);
      InsertedContents(items, h, Item(key, value, buckets[b], hash));
      items := items + [Item(key, value, buckets[b], hash)];
      chains := chains[b := [i as int] + chains[b]];
      buckets := buckets[b := i];
      if |items| * 4 > |buckets| * 3 {
        Grow();
        rank := rank + 1;
        TwicePow(rank);
      }
    }

    /** xht_put(): the position of the value of the key, which is entered if it is new. */
    method Put(key: K, hash: nat, value: V) returns (i: nat)
      requires Valid() && hash == h(key)
      modifies `items, `buckets, `chains, `rank
      ensures Valid() && Map() == if key in old(Map()) then old(Map()) else old(Map())[key := value]
      ensures i < |items| && items[i].key == key
    {
      var j := Find(key, hash);
      if j != NIL { return j; }
      i := InsertNewUnchecked(key, hash, value);
    }

    /** Writing through the pointer that Put returns. */
    method SetValue(i: nat, value: V)
      requires Valid() && i < |items|
      modifies `items
      ensures Valid() && Map() == old(Map())[old(items)[i].key := value] && |items| == |old(items)|
        && items[i].key == old(items)[i].key
    {
      ValueSet(T(), chains, h, i, value);
      items := items[i := items[i].(value := value)];
    }

    /** pop_item_at_index(): item i, which is in no chain, makes room for the last item. */
    method PopItemAtIndex(i: nat)
      requires i < |items| && LinkedBut(T(), chains, i) && Keyed(items, h)
      modifies `items, `buckets, `chains
      ensures Linked(T(), chains) && Keyed(items, h) && Map() == old(Map()) - {old(items)[i].key}
      ensures |items| == |old(items)| - 1 && |buckets| == |old(buckets)|
    {
      hide LinkedBut, Chain, Contents, And, Slot, Keyed;
      Sizes(T(), chains, i);
      var last := |items| - 1;
      if i != last {
        var b := Slot(items[last].hash, |buckets|);
        ghost var c := chains[b];
        InItsChain(T(), chains, i, last);
        var pi := Head(b);
        ghost var k := 0;
        ReadAt(T(), chains, i, b, 0);
        while Read(Table(items, buckets), pi) != last
          invariant items == old(items) && buckets == old(buckets) && chains == old(chains)
          invariant 0 <= k <= |c| && pi == LocAt(b, c, k) && IsLoc(T(), pi)
          invariant Read(T(), pi) == if k < |c| then c[k] else NIL
          invariant exists j :: k <= j < |c| && c[j] == last
          decreases |c| - k
        {
          ReadAt(T(), chains, i, b, k);
          ReadAt(T(), chains, i, b, k + 1);
          pi := After(Read(Table(items, buckets), pi));
          k := k + 1;
        }
        MovedLinked(T(), chains, i, b, k);
        var t := Write(Table(items, buckets), pi, i);
        items, buckets := t.items, t.buckets;
        items := items[i := items[last]];
        chains := chains[b := c[k := i]];
      } else {
        Truncated(T(), chains);
      }
      items := items[..last];
      RemovedContents(old(items), items, h, i);
    }

    /** xht_remove() */
    method Remove(key: K, hash: nat, ifAbsent: V) returns (v: V)
      requires Valid() && hash == h(key)
      modifies `items, `buckets, `chains
      ensures Valid() && Map() == old(Map()) - {key}
      ensures v == if key in old(Map()) then old(Map())[key] else ifAbsent
    {
      hide LinkedBut, Chain, Contents, And, Slot, Keyed;
      Sizes(T(), chains, NIL);
      var b := Slot(hash, |buckets|);
      ghost var c := chains[b];
      var pi := Head(b);
      ghost var k := 0;
      ContentsOf(items, h);
      ReadAt(T(), chains, NIL, b, 0);
      while true
        invariant items == old(items) && buckets == old(buckets) && chains == old(chains)
        invariant 0 <= k <= |c| && pi == LocAt(b, c, k) && IsLoc(T(), pi)
        invariant Read(T(), pi) == if k < |c| then c[k] else NIL
        invariant forall j :: 0 <= j < k && 0 <= c[j] < |items| ==> items[c[j]].key != key
        decreases |c| - k
      {
        var i := Read(Table(items, buckets), pi);
        if i == NIL { break; }
        ReadAt(T(), chains, NIL, b, k);
        if items[i].key == key {
          v := items[i].value;
          Unlinked(T(), chains, b, k);
          ghost var before := items;
          var t := Write(Table(items, buckets), pi, items[i].next);
          items, buckets := t.items, t.buckets;
          chains := chains[b := c[..k] + c[k + 1..]];
          SamePairs(before, items, h);
          PopItemAtIndex(i);
          return;
        }
        ReadAt(T(), chains, NIL, b, k + 1);
        pi := After(i);
        k := k + 1;
      }
      ReadAt(T(), chains, NIL, b, k);
      NotFound(T(), chains, h, key, b);
      v := ifAbsent;
    }

    /** xht_indexed_first(): the first index in the buckets from `start` on. */
    method IndexedFirst(start: nat) returns (i: int)
      requires Valid() && start <= |buckets|
      ensures i == if Order(chains, start) == [] then NIL else Order(chains, start)[0]
    {
      var b := start;
      while b != |buckets|
        invariant start <= b <= |buckets| && Order(chains, start) == Order(chains, b)
      {
        i := buckets[b];
        assert Chain(items, buckets[b], chains[b]);
        if i != NIL { return; }
        b := b + 1;
      }
      i := NIL;
    }

    /** The item at position m of the iteration has this key. */
    ghost predicate AtPosition(key: K, m: nat)
      requires Valid()
      reads this
    {
      m < |Order(chains, 0)| && 0 <= Order(chains, 0)[m] < |items| && items[Order(chains, 0)[m]].key == key
    }

    /** xht_indexed_next(): the index after the one of the given key, or NIL if there is none or no such key. */
    method IndexedNext(key: K, hash: nat) returns (i: int, ghost m: nat)
      requires Valid() && hash == h(key)
      ensures key in Map() ==> AtPosition(key, m) && i == if m + 1 < |Order(chains, 0)| then Order(chains, 0)[m + 1]
        else NIL
      ensures key !in Map() ==> i == NIL
    {
      hide LinkedBut, Chain, Contents, And, Slot, Keyed;
      Sizes(T(), chains, NIL);
      var b := Slot(hash, |buckets|);
      ghost var c := chains[b];
      ghost var k := 0;
      m := 0;
      ContentsOf(items, h);
      i := buckets[b];
      ReadAt(T(), chains, NIL, b, 0);
      while i != NIL
        invariant 0 <= k <= |c| && i == if k < |c| then c[k] else NIL
        invariant forall j :: 0 <= j < k && 0 <= c[j] < |items| ==> items[c[j]].key != key
        decreases |c| - k
      {
        ReadAt(T(), chains, NIL, b, k);
        var item := items[i];
        ReadAt(T(), chains, NIL, b, k + 1);
        if item.key == key {
          NextInOrder(chains, b, k);
          m := |Before(chains, b)| + k;
          if item.next != NIL { return item.next, m; }
          i := IndexedFirst(b + 1);
          return;
        }
        i := item.next;
        k := k + 1;
      }
      ReadAt(T(), chains, NIL, b, k);
      NotFound(T(), chains, h, key, b);
    }

    /** The loop of the callers: first, then next of the key at hand, until the end. */
    method Keys(hashOf: K -> nat) returns (ks: seq<K>)
      requires Valid() && forall k :: hashOf(k) == h(k)
      ensures NoDup(ks) && |ks| == |Map()| && forall k :: k in ks <==> k in Map()
    {
      hide LinkedBut, Chain, Contents, And, Slot, Keyed, Order, NoDup, Pow;
      ks := [];
      ghost var o := Order(chains, 0);
      OrderComplete(T(), chains);
      ContentsOf(items, h);
      assert forall j :: 0 <= j < |o| ==> o[j] in o;
      var i := IndexedFirst(0);
      while i != NIL
        invariant |ks| <= |o| && i == if |ks| < |o| then o[|ks|] else NIL
        invariant forall j {:trigger ks[j]} :: 0 <= j < |ks| ==> 0 <= o[j] < |items| && ks[j] == items[o[j]].key
        decreases |o| - |ks|
      {
        ghost var m := |ks|;
        var key := items[i].key;
        ks := ks + [key];
        ghost var m';
        i, m' := IndexedNext(key, hashOf(key));
        OnePosition(T(), chains, h, m, m');
      }
      AllVisited(T(), chains, h, ks);
    }
  }

  lemma {:induction false} Sizes<K, V>(t: Table<K, V>, chains: seq<seq<int>>, gone: int)
    requires LinkedBut(t, chains, gone)
    ensures |chains| == |t.buckets| > 0
  {
  }

  lemma {:induction false} InItsChain<K, V>(t: Table<K, V>, chains: seq<seq<int>>, gone: int, i: nat)
    requires LinkedBut(t, chains, gone) && i < |t.items| && i != gone
    ensures |chains| == |t.buckets| > 0
    ensures var c := chains[Slot(t.items[i].hash, |t.buckets|)]; exists j :: 0 <= j < |c| && c[j] == i
  {
    assert i in chains[Slot(t.items[i].hash, |t.buckets|)];
  }

  lemma {:induction false} NotFound<K(!new), V>(t: Table<K, V>, chains: seq<seq<int>>, h: K -> nat, key: K, b: nat)
    requires Linked(t, chains) && Keyed(t.items, h) && b == Slot(h(key), |t.buckets|)
    requires forall j :: 0 <= j < |chains[b]| && 0 <= chains[b][j] < |t.items| ==> t.items[chains[b][j]].key != key
    ensures key !in Contents(t.items)
  {
    ContentsOf(t.items, h);
    forall i | 0 <= i < |t.items| && t.items[i].hash == h(key) ensures t.items[i].key != key {
      assert i in chains[Slot(t.items[i].hash, |t.buckets|)];
    }
  }

  lemma {:induction false} ValueSet<K(!new), V>(t: Table<K, V>, chains: seq<seq<int>>, h: K -> nat, i: nat, value: V)
    requires Linked(t, chains) && Keyed(t.items, h) && i < |t.items|
    ensures var items := t.items[i := t.items[i].(value := value)];
      && Linked(Table(items, t.buckets), chains) && Keyed(items, h)
      && Contents(items) == Contents(t.items)[t.items[i].key := value]
  {
    hide Linked, LinkedBut, Contents;
    ValueSetLinked(t, chains, i, value);
    ValueSetContents(t.items, h, i, value);
  }

  lemma {:induction false} ValueSetLinked<K, V>(t: Table<K, V>, chains: seq<seq<int>>, i: nat, value: V)
    requires Linked(t, chains) && i < |t.items|
    ensures Linked(Table(t.items[i := t.items[i].(value := value)], t.buckets), chains)
  {
    var items := t.items[i := t.items[i].(value := value)];
    forall q | 0 <= q < |chains| ensures NoDup(chains[q]) && Chain(items, t.buckets[q], chains[q]) {
      assert NoDup(chains[q]) && Chain(t.items, t.buckets[q], chains[q]);
      ChainFrame(t.items, items, t.buckets[q], chains[q]);
    }
  }

  lemma {:induction false} ValueSetContents<K(!new), V>(was: seq<Item<K, V>>, h: K -> nat, i: nat, value: V)
    requires Keyed(was, h) && i < |was|
    ensures var items := was[i := was[i].(value := value)];
      Keyed(items, h) && Contents(items) == Contents(was)[was[i].key := value]
  {
    hide Contents;
    var items := was[i := was[i].(value := value)];
    ContentsOf(was, h);
    var m := Contents(was)[was[i].key := value];
    forall k | k in m ensures exists x :: 0 <= x < |items| && items[x].key == k {
      var x :| 0 <= x < |was| && was[x].key == k;
      assert items[x].key == k;
    }
    SameContents(items, m, h);
  }

  /** A key is at one position of the iteration only. */
  lemma {:induction false} OnePosition<K(!new), V>(t: Table<K, V>, chains: seq<seq<int>>, h: K -> nat, m: nat, n: nat)
    requires Linked(t, chains) && Keyed(t.items, h) && m < |Order(chains, 0)| && n < |Order(chains, 0)|
    requires var o := Order(chains, 0);
      0 <= o[m] < |t.items| && 0 <= o[n] < |t.items| && t.items[o[m]].key == t.items[o[n]].key
    ensures m == n
  {
    OrderComplete(t, chains);
  }

  lemma {:induction false} AllVisited<K(!new), V>(t: Table<K, V>, chains: seq<seq<int>>, h: K -> nat, ks: seq<K>)
    requires Linked(t, chains) && Keyed(t.items, h) && |ks| == |Order(chains, 0)|
    requires forall j {:trigger ks[j]} :: 0 <= j < |ks| ==>
      0 <= Order(chains, 0)[j] < |t.items| && ks[j] == t.items[Order(chains, 0)[j]].key
    ensures NoDup(ks) && |ks| == |Contents(t.items)| && forall k :: k in ks <==> k in Contents(t.items)
  {
    var o := Order(chains, 0);
    OrderComplete(t, chains);
    ContentsOf(t.items, h);
    forall i, j | 0 <= i < j < |ks| ensures ks[i] != ks[j] {
      assert o[i] != o[j];
    }
    forall k | k in Contents(t.items) ensures k in ks {
      var i :| 0 <= i < |t.items| && t.items[i].key == k;
      assert i in o;
      var j :| 0 <= j < |o| && o[j] == i;
      assert ks[j] == k;
    }
  }
}
