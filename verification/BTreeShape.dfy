// How full the nodes of a tree are, and the height that bounds.
module BTreeShape {
  import opened Wrappers
  import opened Arithmetic
  import opened BTreeModel
  import opened BTreeMap
  import opened BTreeChain

  function LeafMin(fan: Fan): nat {
    (fan.leafMax + 1) / 2
  }

  function InnerMin(fan: Fan): nat {
    fan.innerMax / 2
  }

  // No node overflows, and every node but the root is at least half full. A node
  // with one child and no separator is half full when innerMax is 1.
  predicate Filled(t: Tree, fan: Fan, root: bool) {
    match t
    case Leaf(_, es, _) => (if root then 0 else LeafMin(fan)) <= |es| <= fan.leafMax
    case Node(_, keys, kids) =>
      && (if root then 1 else InnerMin(fan)) <= |keys| <= fan.innerMax
      && |kids| == |keys| + 1
      && forall i :: 0 <= i < |kids| ==> Filled(kids[i], fan, false)
  }

  predicate FilledIns(c: Ins, fan: Fan, root: bool) {
    match c
    case Dup => true
    case Done(t, _, _) => Filled(t, fan, root)
    case Split(l, _, r, _, _) => Filled(l, fan, false) && Filled(r, fan, false)
  }

  lemma {:induction false} InsertFilled(t: Tree, k: int, r: Rid, n: nat, fan: Fan, root: bool)
    requires Filled(t, fan, root) && Shaped(t) && fan.leafMax >= 1 && fan.innerMax >= 1
    ensures FilledIns(Insert(t, k, r, n, fan), fan, root)
    decreases t
  {
    if t.Leaf? {
    } else {
      var i := ChildIndex(t.keys, k);
      InsertFilled(t.kids[i], k, r, n, fan, false);
      var d := Insert(t.kids[i], k, r, n, fan);
      if d.Split? {
        WidenedFilled(t, i, d.left, d.sep, d.right, fan);
      }
    }
  }

  lemma WidenedFilled(t: Tree, i: nat, l: Tree, s: int, r: Tree, fan: Fan)
    requires t.Node? && i < |t.kids| == |t.keys| + 1
    requires forall j :: 0 <= j < |t.kids| ==> Filled(t.kids[j], fan, false)
    requires Filled(l, fan, false) && Filled(r, fan, false)
    ensures var kids := Widened(t, i, l, s, r).kids;
      forall j :: 0 <= j < |kids| ==> Filled(kids[j], fan, false)
  {
    forall j | 0 <= j < |t.kids| + 1 ensures Filled(Widened(t, i, l, s, r).kids[j], fan, false) {
      WidenedAt(t, i, l, s, r, j);
    }
  }

  lemma InsertAtRootFilled(t: Tree, k: int, r: Rid, n: nat, fan: Fan)
    requires Filled(t, fan, true) && Shaped(t) && fan.leafMax >= 1 && fan.innerMax >= 1
    ensures var c := InsertAtRoot(t, k, r, n, fan); c.RootDone? ==> Filled(c.t, fan, true)
  {
    InsertFilled(t, k, r, n, fan, true);
  }

  // ------------------------------------------------------------------
  // Entries against height
  // ------------------------------------------------------------------

  // The least a non-root subtree of height h can hold.
  function LeastEntries(fan: Fan, h: nat): nat {
    Pow(InnerMin(fan) + 1, h) * LeafMin(fan)
  }

  lemma {:induction false} SubtreeCount(t: Tree, fan: Fan, h: nat, lo: int, hi: int)
    requires Ordered(t, h, lo, hi) && Filled(t, fan, false)
    ensures |Bindings(t)| >= LeastEntries(fan, h)
    decreases h, 0
  {
    if t.Leaf? {
      assert Concat([t]) == t.entries + Concat([]);
    } else {
      var least := LeastEntries(fan, h - 1);
      KidsCount(t, fan, h, lo, hi, 0);
      assert t.kids[0..] == t.kids;
      MulMonotone(InnerMin(fan) + 1, |t.kids|, least);
      MulAssociates(InnerMin(fan) + 1, Pow(InnerMin(fan) + 1, h - 1), LeafMin(fan));
    }
  }

  lemma {:induction false} KidsCount(t: Tree, fan: Fan, h: nat, lo: int, hi: int, i: nat)
    requires t.Node? && Ordered(t, h, lo, hi) && i <= |t.kids|
    requires forall j :: 0 <= j < |t.kids| ==> Filled(t.kids[j], fan, false)
    ensures |Concat(LeavesAll(t.kids[i..]))| >= (|t.kids| - i) * LeastEntries(fan, h - 1)
    decreases h - 1, 1, |t.kids| - i
  {
    if i == |t.kids| {
    } else {
      SubtreeCount(t.kids[i], fan, h - 1, LowOf(t.keys, lo, i), HighOf(t.keys, hi, i));
      KidsCount(t, fan, h, lo, hi, i + 1);
      assert t.kids[i..] == [t.kids[i]] + t.kids[i + 1..];
      ConcatAppend(Leaves(t.kids[i]), LeavesAll(t.kids[i + 1..]));
      var least := LeastEntries(fan, h - 1);
      assert (|t.kids| - i) * least == least + (|t.kids| - i - 1) * least;
    }
  }

  // A tree of h + 1 levels, h >= 1, holds at least twice what a subtree of h
  // levels must.
  lemma HeightBound(t: Tree, fan: Fan, h: nat, lo: int, hi: int)
    requires Ordered(t, h, lo, hi) && Filled(t, fan, true) && h >= 1
    ensures |Bindings(t)| >= 2 * (Pow(InnerMin(fan) + 1, h - 1) * LeafMin(fan))
  {
    KidsCount(t, fan, h, lo, hi, 0);
    assert t.kids[0..] == t.kids;
    MulMonotone(2, |t.kids|, LeastEntries(fan, h - 1));
  }

  // ------------------------------------------------------------------
  // Where nodes split
  // ------------------------------------------------------------------

  // A leaf takes a new entry among its entries. With more than it may hold it splits: the
  // lower half, rounded down, stays on its page, the rest goes to the next new page, whose
  // first key is copied up, and the new page is linked between the old one and its
  // successor. The new page is written first.
  lemma LeafSplits(t: Tree, k: int, r: Rid, n: nat, fan: Fan)
    requires t.Leaf? && !LeafInsert(t, k, r, n, fan).Dup?
    ensures var c, all := LeafInsert(t, k, r, n, fan), Added(t.entries, k, r);
      && |all| == |t.entries| + 1
      && (exists p :: 0 <= p <= |t.entries| && all == t.entries[..p] + [Entry(k, r)] + t.entries[p..])
      && if |t.entries| < fan.leafMax then c == Done(Leaf(t.pid, all, t.next), n, [Write(t.pid, LeafPage(all, t.next))])
         else
           && c.Split? && c.left.Leaf? && c.right.Leaf? && c.size == n + 1
           && c.left.entries + c.right.entries == all && |c.left.entries| == (|t.entries| + 1) / 2
           && c.left.pid == t.pid && c.right.pid == n && c.left.next == n && c.right.next == t.next
           && c.right.entries != [] && c.sep == c.right.entries[0].key
           && c.ws == [Write(n, LeafPage(c.right.entries, t.next)), Write(t.pid, LeafPage(c.left.entries, n))]
  {
    var p := LowerBound(t.entries, k);
    assert Added(t.entries, k, r) == t.entries[..p] + [Entry(k, r)] + t.entries[p..];
  }

  // An internal node takes a separator and a child behind the child that split. With more
  // keys than it may hold it splits: the lower half of the keys, rounded down, stays, the
  // next key is pushed up and is in neither half, the rest goes to the next new page,
  // which is written first.
  lemma InnerSplits(t: Tree, i: nat, d: Ins, fan: Fan)
    requires t.Node? && i < |t.kids| == |t.keys| + 1 && d.Split?
    ensures var c := InnerInsert(t, i, d, fan);
      var keys, kids := t.keys[..i] + [d.sep] + t.keys[i..], t.kids[..i] + [d.left, d.right] + t.kids[i + 1..];
      if |t.keys| < fan.innerMax then
        c == Done(Node(t.pid, keys, kids), d.size, d.ws + [Write(t.pid, InnerPage(keys, KidPids(kids)))])
      else
        && c.Split? && c.left.Node? && c.right.Node? && c.size == d.size + 1
        && c.left.keys + [c.sep] + c.right.keys == keys && |c.left.keys| == (|t.keys| + 1) / 2
        && c.left.kids + c.right.kids == kids && |c.left.kids| == |c.left.keys| + 1
        && c.left.pid == t.pid && c.right.pid == d.size
        && c.ws == d.ws + [Write(d.size, InnerPage(c.right.keys, KidPids(c.right.kids))),
                           Write(t.pid, InnerPage(c.left.keys, KidPids(c.left.kids)))]
  {
  }

  // A root that split gets a new root above the halves on the next new page; the header is
  // written last.
  lemma RootSplits(t: Tree, k: int, r: Rid, n: nat, fan: Fan)
    requires Shaped(t) && Insert(t, k, r, n, fan).Split?
    ensures var d, c := Insert(t, k, r, n, fan), InsertAtRoot(t, k, r, n, fan);
      && c.RootDone? && c.t == Node(d.size, [d.sep], [d.left, d.right]) && c.size == d.size + 1
      && c.ws == d.ws + [Write(d.size, InnerPage([d.sep], [d.left.pid, d.right.pid])), Write(0, HeaderPage(d.size))]
  {
    var root := Node(Insert(t, k, r, n, fan).size, [Insert(t, k, r, n, fan).sep],
                     [Insert(t, k, r, n, fan).left, Insert(t, k, r, n, fan).right]);
    assert KidPids(root.kids) == [root.kids[0].pid, root.kids[1].pid];
  }
}
