// The leaves in order: the bindings a tree holds, the next_leaf chain through
// its pages, and what an insertion does to both.
module BTreeChain {
  import opened Wrappers
  import opened BTreeModel
  import opened BTreeMap

  function Leaves(t: Tree): (ls: seq<Tree>)
    ensures forall i :: 0 <= i < |ls| ==> ls[i].Leaf?
  {
    match t
    case Leaf(_, _, _) => [t]
    case Node(_, _, kids) => LeavesAll(kids)
  }

  function LeavesAll(kids: seq<Tree>): (ls: seq<Tree>)
    ensures forall i :: 0 <= i < |ls| ==> ls[i].Leaf?
  {
    if kids == [] then [] else Leaves(kids[0]) + LeavesAll(kids[1..])
  }

  lemma LeavesAppend(a: seq<Tree>, b: seq<Tree>)
    ensures LeavesAll(a + b) == LeavesAll(a) + LeavesAll(b)
  {
    if a == [] {
      assert a + b == b;
    } else {
      assert (a + b)[1..] == a[1..] + b;
      LeavesAppend(a[1..], b);
    }
  }

  lemma LeavesOne(t: Tree)
    ensures LeavesAll([t]) == Leaves(t)
  {
    assert LeavesAll([t]) == Leaves(t) + LeavesAll([]);
  }

  // kids with the children in `mid` replaced by others
  lemma LeavesAround(a: seq<Tree>, mid: seq<Tree>, b: seq<Tree>)
    ensures LeavesAll(a + mid + b) == LeavesAll(a) + LeavesAll(mid) + LeavesAll(b)
  {
    LeavesAppend(a + mid, b);
    LeavesAppend(a, mid);
  }

  function LeavesOf(c: Ins): seq<Tree>
    requires !c.Dup?
  {
    match c
    case Done(t, _, _) => Leaves(t)
    case Split(l, _, r, _, _) => Leaves(l) + Leaves(r)
  }

  // An insertion edits the leaf sequence in one place: the leaf k belongs to
  // becomes what LeafInsert makes of it, one leaf or two.
  lemma {:induction false} InsertLeaves(t: Tree, k: int, r: Rid, n: nat, fan: Fan)
      returns (a: seq<Tree>, leaf: Tree, b: seq<Tree>)
    requires Shaped(t) && !Insert(t, k, r, n, fan).Dup?
    ensures leaf.Leaf? && Leaves(t) == a + [leaf] + b && !LeafInsert(leaf, k, r, n, fan).Dup?
    ensures LeavesOf(Insert(t, k, r, n, fan)) == a + LeavesOf(LeafInsert(leaf, k, r, n, fan)) + b
    decreases t
  {
    if t.Leaf? {
      a, leaf, b := [], t, [];
    } else {
      var i := ChildIndex(t.keys, k);
      var d := Insert(t.kids[i], k, r, n, fan);
      var pre, post := LeavesAll(t.kids[..i]), LeavesAll(t.kids[i + 1..]);
      a, leaf, b := InsertLeaves(t.kids[i], k, r, n, fan);
      NodeLeaves(t, i, d, fan);
      Reassociate(pre, a, [leaf], b, post);
      Reassociate(pre, a, LeavesOf(LeafInsert(leaf, k, r, n, fan)), b, post);
      a, b := pre + a, b + post;
    }
  }

  // What a node's leaves are before and after child i is inserted into.
  lemma NodeLeaves(t: Tree, i: nat, d: Ins, fan: Fan)
    requires t.Node? && i < |t.kids| == |t.keys| + 1 && !d.Dup?
    ensures var pre, post := LeavesAll(t.kids[..i]), LeavesAll(t.kids[i + 1..]);
      && Leaves(t) == pre + Leaves(t.kids[i]) + post
      && (d.Done? ==> Leaves(Node(t.pid, t.keys, t.kids[i := d.t])) == pre + LeavesOf(d) + post)
      && (d.Split? ==> LeavesOf(InnerInsert(t, i, d, fan)) == pre + LeavesOf(d) + post)
  {
    var pre, post := t.kids[..i], t.kids[i + 1..];
    assert t.kids == pre + [t.kids[i]] + post;
    LeavesAround(pre, [t.kids[i]], post);
    LeavesOne(t.kids[i]);
    if d.Done? {
      LeavesAround(pre, [d.t], post);
      LeavesOne(d.t);
      assert t.kids[i := d.t] == pre + [d.t] + post;
    } else {
      LeavesAround(pre, [d.left, d.right], post);
      LeavesTwo(d.left, d.right);
      HalvesLeaves(Widened(t, i, d.left, d.sep, d.right), d.size);
    }
  }

  lemma LeavesTwo(l: Tree, r: Tree)
    ensures LeavesAll([l, r]) == Leaves(l) + Leaves(r)
  {
    assert [l, r] == [l] + [r];
    LeavesAppend([l], [r]);
    LeavesOne(l);
    LeavesOne(r);
  }

  lemma HalvesLeaves(u: Tree, pid: nat)
    requires u.Node? && |u.kids| == |u.keys| + 1 && u.keys != []
    ensures Leaves(LeftHalf(u)) + Leaves(RightHalf(u, pid)) == Leaves(u)
  {
    var mid := |u.keys| / 2;
    assert u.kids == u.kids[..mid + 1] + u.kids[mid + 1..];
    LeavesAppend(u.kids[..mid + 1], u.kids[mid + 1..]);
  }

  lemma Reassociate<T>(v: seq<T>, w: seq<T>, x: seq<T>, y: seq<T>, z: seq<T>)
    ensures v + (w + x + y) + z == (v + w) + x + (y + z)
  {
  }

  // ------------------------------------------------------------------
  // Bindings in key order
  // ------------------------------------------------------------------

  function Concat(ls: seq<Tree>): seq<Entry>
    requires forall i :: 0 <= i < |ls| ==> ls[i].Leaf?
  {
    if ls == [] then [] else ls[0].entries + Concat(ls[1..])
  }

  lemma ConcatAppend(a: seq<Tree>, b: seq<Tree>)
    requires forall i :: 0 <= i < |a| ==> a[i].Leaf?
    requires forall i :: 0 <= i < |b| ==> b[i].Leaf?
    ensures Concat(a + b) == Concat(a) + Concat(b)
  {
    if a == [] {
      assert a + b == b;
    } else {
      assert (a + b)[1..] == a[1..] + b;
      ConcatAppend(a[1..], b);
    }
  }

  // The bindings of t by in-order traversal.
  function Bindings(t: Tree): seq<Entry> {
    Concat(Leaves(t))
  }

  // es lies in [lo, hi) and is strictly increasing.
  predicate Within(es: seq<Entry>, lo: int, hi: int) {
    SortedEntries(es) && forall i :: 0 <= i < |es| ==> lo <= es[i].key < hi
  }

  lemma WithinAppend(a: seq<Entry>, b: seq<Entry>, lo: int, mid: int, hi: int)
    requires Within(a, lo, mid) && Within(b, mid, hi) && lo <= mid <= hi
    ensures Within(a + b, lo, hi)
  {
  }

  // The bindings of an ordered tree are strictly increasing in key.
  lemma {:induction false} BindingsSorted(t: Tree, h: nat, lo: int, hi: int)
    requires Ordered(t, h, lo, hi) && lo <= hi
    ensures Within(Bindings(t), lo, hi)
    decreases h, 0
  {
    if t.Leaf? {
      assert Concat([t]) == t.entries + Concat([]);
    } else {
      BindingsSortedFrom(t, h, lo, hi, 0);
      assert t.kids[0..] == t.kids;
    }
  }

  lemma {:induction false} BindingsSortedFrom(t: Tree, h: nat, lo: int, hi: int, i: nat)
    requires t.Node? && Ordered(t, h, lo, hi) && i < |t.kids| && lo <= hi
    ensures Within(Concat(LeavesAll(t.kids[i..])), LowOf(t.keys, lo, i), hi)
    decreases h - 1, 1, |t.kids| - i
  {
    var l, u := LowOf(t.keys, lo, i), HighOf(t.keys, hi, i);
    BindingsSorted(t.kids[i], h - 1, l, u);
    ConcatAppend(Leaves(t.kids[i]), LeavesAll(t.kids[i + 1..]));
    assert t.kids[i..] == [t.kids[i]] + t.kids[i + 1..];
    if i + 1 < |t.kids| {
      BindingsSortedFrom(t, h, lo, hi, i + 1);
      WithinAppend(Bindings(t.kids[i]), Concat(LeavesAll(t.kids[i + 1..])), l, u, hi);
    } else {
      assert t.kids[i + 1..] == [];
    }
  }

  // ... and are exactly what search sees.
  lemma {:induction false} BindingsAreLookup(t: Tree, h: nat, lo: int, hi: int, x: int, v: Rid)
    requires Ordered(t, h, lo, hi) && lo <= hi
    ensures Entry(x, v) in Bindings(t) <==> Lookup(t, x) == Some(v)
    decreases h, 0
  {
    if t.Leaf? {
      assert Concat([t]) == t.entries + Concat([]);
      if Entry(x, v) in t.entries {
        FindIs(t.entries, x, v);
      }
    } else if lo <= x < hi {
      var i := ChildIndex(t.keys, x);
      BindingsAreLookup(t.kids[i], h - 1, LowOf(t.keys, lo, i), HighOf(t.keys, hi, i), x, v);
      BindingsOfChild(t, h, lo, hi, i, Entry(x, v));
    } else {
      OutOfRange(t, h, lo, hi, x);
      BindingsSorted(t, h, lo, hi);
    }
  }

  // A binding of a node in child i's range is a binding of child i.
  lemma BindingsAround(t: Tree, i: nat)
    requires t.Node? && i < |t.kids|
    ensures Bindings(t) == Concat(LeavesAll(t.kids[..i])) + Bindings(t.kids[i]) + Concat(LeavesAll(t.kids[i + 1..]))
  {
    hide LeavesAll, Concat;
    var pre, post := t.kids[..i], t.kids[i + 1..];
    assert t.kids == pre + [t.kids[i]] + post;
    LeavesAround(pre, [t.kids[i]], post);
    LeavesOne(t.kids[i]);
    ConcatAppend(LeavesAll(pre) + Leaves(t.kids[i]), LeavesAll(post));
    ConcatAppend(LeavesAll(pre), Leaves(t.kids[i]));
  }

  lemma BindingsOfChild(t: Tree, h: nat, lo: int, hi: int, i: nat, e: Entry)
    requires t.Node? && Ordered(t, h, lo, hi) && lo <= hi && i < |t.kids|
    requires LowOf(t.keys, lo, i) <= e.key < HighOf(t.keys, hi, i)
    ensures e in Bindings(t) <==> e in Bindings(t.kids[i])
  {
    BindingsAround(t, i);
    hide Leaves, LeavesAll, Concat;
    var pre, post := t.kids[..i], t.kids[i + 1..];
    if e in Concat(LeavesAll(pre)) {
      BindingsBefore(t, h, lo, hi, i, e);
    }
    if e in Concat(LeavesAll(post)) && i + 1 < |t.kids| {
      BindingsSortedFrom(t, h, lo, hi, i + 1);
    }
  }

  lemma {:induction false} BindingsBefore(t: Tree, h: nat, lo: int, hi: int, i: nat, e: Entry)
    requires t.Node? && Ordered(t, h, lo, hi) && lo <= hi && i < |t.kids|
    requires e in Concat(LeavesAll(t.kids[..i]))
    ensures i > 0 && e.key < LowOf(t.keys, lo, i)
    decreases i
  {
    assert i > 0;
    var pre := t.kids[..i - 1];
    assert t.kids[..i] == pre + [t.kids[i - 1]];
    LeavesAppend(pre, [t.kids[i - 1]]);
    LeavesOne(t.kids[i - 1]);
    ConcatAppend(LeavesAll(pre), Leaves(t.kids[i - 1]));
    if e in Concat(LeavesAll(pre)) {
      BindingsBefore(t, h, lo, hi, i - 1, e);
    } else {
      BindingsSorted(t.kids[i - 1], h - 1, LowOf(t.keys, lo, i - 1), HighOf(t.keys, hi, i - 1));
    }
  }

  // ------------------------------------------------------------------
  // The chain
  // ------------------------------------------------------------------

  // Each leaf points to the one after it, the last one to `end`.
  predicate Linked(ls: seq<Tree>, end: nat)
    requires forall i :: 0 <= i < |ls| ==> ls[i].Leaf?
  {
    ls == [] || (ls[0].next == HeadPid(ls[1..], end) && Linked(ls[1..], end))
  }

  function HeadPid(ls: seq<Tree>, end: nat): nat {
    if ls == [] then end else ls[0].pid
  }

  lemma LinkedAppend(a: seq<Tree>, b: seq<Tree>, end: nat)
    requires forall i :: 0 <= i < |a| ==> a[i].Leaf?
    requires forall i :: 0 <= i < |b| ==> b[i].Leaf?
    ensures Linked(a + b, end) <==> Linked(a, HeadPid(b, end)) && Linked(b, end)
  {
    if a == [] {
      assert a + b == b;
    } else {
      assert (a + b)[1..] == a[1..] + b;
      LinkedAppend(a[1..], b, end);
    }
  }

  // Walking next_leaf from page p visits exactly the leaves ls and stops at 0.
  predicate Chain(f: seq<Page>, p: nat, ls: seq<Tree>)
    requires forall i :: 0 <= i < |ls| ==> ls[i].Leaf?
    decreases ls
  {
    if ls == [] then p == 0
    else 0 < p < |f| && p == ls[0].pid && f[p] == PageOf(ls[0]) && Chain(f, ls[0].next, ls[1..])
  }

  // The walk is determined by the file.
  lemma {:induction false} ChainUnique(f: seq<Page>, p: nat, ls: seq<Tree>, ms: seq<Tree>)
    requires forall i :: 0 <= i < |ls| ==> ls[i].Leaf?
    requires forall i :: 0 <= i < |ms| ==> ms[i].Leaf?
    requires Chain(f, p, ls) && Chain(f, p, ms)
    ensures ls == ms
    decreases ls
  {
    if ls == [] {
    } else {
      assert ls[0] == ms[0];
      ChainUnique(f, ls[0].next, ls[1..], ms[1..]);
      assert ls == [ls[0]] + ls[1..] && ms == [ms[0]] + ms[1..];
    }
  }

  // The pages of f hold the leaves ls.
  predicate LeavesOn(f: seq<Page>, ls: seq<Tree>) {
    forall l :: l in ls ==> l.pid < |f| && f[l.pid] == PageOf(l)
  }

  predicate LeavesHeld(f: seq<Page>, ls: seq<Tree>) {
    LeavesOn(f, ls) && forall i :: 0 <= i < |ls| ==> ls[i].pid > 0
  }

  lemma {:induction false} LinkedIsChain(f: seq<Page>, ls: seq<Tree>)
    requires ls != [] && (forall i :: 0 <= i < |ls| ==> ls[i].Leaf?)
    requires Linked(ls, 0) && LeavesHeld(f, ls)
    ensures Chain(f, ls[0].pid, ls)
  {
    if |ls| > 1 {
      LinkedIsChain(f, ls[1..]);
    } else {
      assert ls[1..] == [];
    }
  }

  // Replacing a leaf by what LeafInsert makes of it keeps the chain linked, with
  // the same first page.
  lemma EditLinked(a: seq<Tree>, leaf: Tree, b: seq<Tree>, k: int, r: Rid, n: nat, fan: Fan)
    requires leaf.Leaf? && !LeafInsert(leaf, k, r, n, fan).Dup?
    requires forall i :: 0 <= i < |a| ==> a[i].Leaf?
    requires forall i :: 0 <= i < |b| ==> b[i].Leaf?
    requires Linked(a + [leaf] + b, 0)
    ensures var mid := LeavesOf(LeafInsert(leaf, k, r, n, fan));
      && (forall i :: 0 <= i < |mid| ==> mid[i].Leaf?)
      && (forall i :: 0 <= i < |a + mid + b| ==> (a + mid + b)[i].Leaf?)
      && Linked(a + mid + b, 0)
      && (a + mid + b)[0].pid == (a + [leaf] + b)[0].pid
  {
    var c := LeafInsert(leaf, k, r, n, fan);
    var mid := LeavesOf(c);
    assert mid == if c.Done? then [c.t] else [c.left, c.right];
    assert a + [leaf] + b == a + ([leaf] + b) && a + mid + b == a + (mid + b);
    LinkedAppend(a, [leaf] + b, 0);
    LinkedAppend(a, mid + b, 0);
    LinkedAppend([leaf], b, 0);
    LinkedAppend(mid, b, 0);
  }
}
