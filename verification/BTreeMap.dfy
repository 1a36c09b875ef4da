// Insertion refines a map: what search sees afterwards is what it saw before
// plus the new binding, and the tree stays ordered.
module BTreeMap {
  import opened Wrappers
  import opened BTreeModel

  // What a search for x that reaches this subtree's range sees after the insertion.
  function Found(c: Ins, x: int): Option<Rid>
    requires !c.Dup?
  {
    match c
    case Done(t, _, _) => Lookup(t, x)
    case Split(l, sep, r, _, _) => if x < sep then Lookup(l, x) else Lookup(r, x)
  }

  // The outcome of inserting into an ordered subtree over [lo, hi) is one
  // ordered tree, or two that share the range at the separator.
  predicate OrderedIns(c: Ins, h: nat, lo: int, hi: int) {
    match c
    case Dup => true
    case Done(t, _, _) => Ordered(t, h, lo, hi)
    case Split(l, sep, r, _, _) => lo < sep < hi && Ordered(l, h, lo, sep) && Ordered(r, h, sep, hi)
  }

  lemma FindIs(es: seq<Entry>, k: int, r: Rid)
    requires SortedEntries(es) && Entry(k, r) in es
    ensures LeafFind(es, k) == Some(r)
  {
    var i :| 0 <= i < |es| && es[i] == Entry(k, r);
    var v := LeafFind(es, k);
    assert v != None;
    var j :| 0 <= j < |es| && es[j] == Entry(k, v.value);
    assert i == j;
  }

  // LeafFind only depends on which entries are present.
  lemma FindSame(es: seq<Entry>, fs: seq<Entry>, x: int)
    requires SortedEntries(es) && SortedEntries(fs)
    requires forall e :: e in es && e.key == x ==> e in fs
    requires forall e :: e in fs && e.key == x ==> e in es
    ensures LeafFind(es, x) == LeafFind(fs, x)
  {
    if LeafFind(es, x).Some? {
      FindIs(fs, x, LeafFind(es, x).value);
    } else if LeafFind(fs, x).Some? {
      FindIs(es, x, LeafFind(fs, x).value);
    }
  }

  lemma AddedAt(es: seq<Entry>, k: int, r: Rid, i: nat)
    requires i <= |es|
    ensures |Added(es, k, r)| == |es| + 1
    ensures var p := LowerBound(es, k);
            Added(es, k, r)[i] == if i < p then es[i] else if i == p then Entry(k, r) else es[i - 1]
  {
  }

  lemma AddedSorted(es: seq<Entry>, k: int, r: Rid)
    requires SortedEntries(es) && forall i :: 0 <= i < |es| ==> es[i].key != k
    ensures SortedEntries(Added(es, k, r))
  {
    var fs := Added(es, k, r);
    var p := LowerBound(es, k);
    forall i, j | 0 <= i < j < |fs| ensures fs[i].key < fs[j].key {
      AddedAt(es, k, r, i);
      AddedAt(es, k, r, j);
      assert p < |es| ==> es[p].key != k;
    }
  }

  lemma AddedMembers(es: seq<Entry>, k: int, r: Rid, e: Entry)
    ensures e in Added(es, k, r) <==> e in es || e == Entry(k, r)
  {
    var p := LowerBound(es, k);
    assert es == es[..p] + es[p..];
  }

  // A key below some entry of a sorted leaf is missing unless LowerBound finds it.
  lemma LowerBoundDecides(es: seq<Entry>, k: int)
    requires SortedEntries(es)
    ensures var p := LowerBound(es, k);
            (p < |es| && es[p].key == k) <==> exists i :: 0 <= i < |es| && es[i].key == k
  {
  }

  lemma LeafOrdered(t: Tree, k: int, r: Rid, n: nat, fan: Fan, lo: int, hi: int)
    requires t.Leaf? && Ordered(t, 0, lo, hi) && lo <= k < hi && fan.leafMax >= 1
    ensures OrderedIns(LeafInsert(t, k, r, n, fan), 0, lo, hi)
  {
    LowerBoundDecides(t.entries, k);
    var c := LeafInsert(t, k, r, n, fan);
    if !c.Dup? {
      hide Added, LowerBound;
      var es := Added(t.entries, k, r);
      AddedSorted(t.entries, k, r);
      AddedInRange(t.entries, k, r, lo, hi);
      if c.Split? {
        SplitInRange(es, |es| / 2, lo, hi);
      }
    }
  }

  lemma AddedInRange(es: seq<Entry>, k: int, r: Rid, lo: int, hi: int)
    requires lo <= k < hi && forall i :: 0 <= i < |es| ==> lo <= es[i].key < hi
    ensures |Added(es, k, r)| == |es| + 1 && forall i :: 0 <= i < |es| + 1 ==> lo <= Added(es, k, r)[i].key < hi
  {
    AddedAt(es, k, r, 0);
    forall i | 0 <= i < |es| + 1 ensures lo <= Added(es, k, r)[i].key < hi {
      AddedAt(es, k, r, i);
    }
  }

  // The halves of sorted entries around the first key of the right one.
  lemma SplitInRange(es: seq<Entry>, mid: nat, lo: int, hi: int)
    requires 0 < mid < |es| && SortedEntries(es) && forall i :: 0 <= i < |es| ==> lo <= es[i].key < hi
    ensures lo < es[mid].key < hi && SortedEntries(es[..mid]) && SortedEntries(es[mid..])
    ensures forall i :: 0 <= i < mid ==> lo <= es[..mid][i].key < es[mid].key
    ensures forall i :: 0 <= i < |es| - mid ==> es[mid].key <= es[mid..][i].key < hi
  {
    assert es[0].key < es[mid].key;
    forall i | 0 <= i < |es| - mid ensures es[mid].key <= es[mid..][i].key < hi {
      assert es[mid..][i] == es[mid + i];
    }
  }

  lemma LeafRefines(t: Tree, k: int, r: Rid, n: nat, fan: Fan, lo: int, hi: int)
    requires t.Leaf? && Ordered(t, 0, lo, hi) && lo <= k < hi && fan.leafMax >= 1
    ensures var c := LeafInsert(t, k, r, n, fan);
      && (c.Dup? <==> Lookup(t, k).Some?)
      && (!c.Dup? ==> forall x :: Found(c, x) == if x == k then Some(r) else Lookup(t, x))
  {
    hide Added, LowerBound, LeafFind;
    LowerBoundDecides(t.entries, k);
    var c := LeafInsert(t, k, r, n, fan);
    if !c.Dup? {
      var es := Added(t.entries, k, r);
      AddedSorted(t.entries, k, r);
      AddedAt(t.entries, k, r, 0);
      forall x ensures Found(c, x) == if x == k then Some(r) else Lookup(t, x) {
        LeafFindAdded(t.entries, k, r, x);
        if c.Split? {
          SplitFind(es, |es| / 2, x);
        }
      }
    }
  }

  lemma LeafFindAdded(es: seq<Entry>, k: int, r: Rid, x: int)
    requires SortedEntries(es) && forall i :: 0 <= i < |es| ==> es[i].key != k
    ensures LeafFind(Added(es, k, r), x) == if x == k then Some(r) else LeafFind(es, x)
  {
    AddedSorted(es, k, r);
    forall e ensures e in Added(es, k, r) <==> e in es || e == Entry(k, r) {
      AddedMembers(es, k, r, e);
    }
    if x == k {
      FindIs(Added(es, k, r), k, r);
    } else {
      FindSame(Added(es, k, r), es, x);
    }
  }

  lemma SplitFind(es: seq<Entry>, mid: nat, x: int)
    requires SortedEntries(es) && 0 < mid < |es|
    ensures LeafFind(es, x) == if x < es[mid].key then LeafFind(es[..mid], x) else LeafFind(es[mid..], x)
  {
    if x < es[mid].key {
      forall e | e in es && e.key == x ensures e in es[..mid] {
        var i :| 0 <= i < |es| && es[i] == e;
        assert es[..mid][i] == e;
      }
      FindSame(es, es[..mid], x);
    } else {
      forall e | e in es && e.key == x ensures e in es[mid..] {
        var i :| 0 <= i < |es| && es[i] == e;
        assert es[mid..][i - mid] == e;
      }
      FindSame(es, es[mid..], x);
    }
  }

  // ------------------------------------------------------------------
  // Internal nodes
  // ------------------------------------------------------------------

  // A node over [lo, hi) answers for x what its child responsible for x answers.
  lemma LookupChild(t: Tree, h: nat, lo: int, hi: int, i: nat, x: int)
    requires t.Node? && Ordered(t, h, lo, hi) && i < |t.kids|
    requires LowOf(t.keys, lo, i) <= x < HighOf(t.keys, hi, i)
    ensures Lookup(t, x) == Lookup(t.kids[i], x)
  {
    ChildIndexRange(t.keys, x, lo, hi, i);
  }

  lemma ReplacedOrdered(t: Tree, h: nat, lo: int, hi: int, i: nat, c: Tree)
    requires t.Node? && Ordered(t, h, lo, hi) && i < |t.kids|
    requires Ordered(c, h - 1, LowOf(t.keys, lo, i), HighOf(t.keys, hi, i))
    ensures Ordered(Node(t.pid, t.keys, t.kids[i := c]), h, lo, hi)
  {
  }

  lemma WidenedAt(t: Tree, i: nat, l: Tree, s: int, r: Tree, j: nat)
    requires t.Node? && i < |t.kids| == |t.keys| + 1
    ensures var u := Widened(t, i, l, s, r);
      && (j < |u.keys| ==> u.keys[j] == if j < i then t.keys[j] else if j == i then s else t.keys[j - 1])
      && (j < |u.kids| ==>
            u.kids[j] == if j < i then t.kids[j] else if j == i then l else if j == i + 1 then r else t.kids[j - 1])
  {
  }

  lemma WidenedKeysSorted(t: Tree, lo: int, hi: int, i: nat, l: Tree, s: int, r: Tree)
    requires t.Node? && i < |t.kids| == |t.keys| + 1
    requires Sorted(t.keys) && forall j :: 0 <= j < |t.keys| ==> lo < t.keys[j] < hi
    requires lo < s < hi && LowOf(t.keys, lo, i) < s < HighOf(t.keys, hi, i)
    ensures var u := Widened(t, i, l, s, r);
      Sorted(u.keys) && forall j :: 0 <= j < |u.keys| ==> lo < u.keys[j] < hi
  {
    var u := Widened(t, i, l, s, r);
    forall a, b | 0 <= a < b < |u.keys| ensures u.keys[a] < u.keys[b] {
      WidenedAt(t, i, l, s, r, a);
      WidenedAt(t, i, l, s, r, b);
    }
    forall a | 0 <= a < |u.keys| ensures lo < u.keys[a] < hi {
      WidenedAt(t, i, l, s, r, a);
    }
  }

  // The range of a child of the widened node is a range of the old node, cut at
  // s for the two new children.
  lemma WidenedRange(t: Tree, lo: int, hi: int, i: nat, l: Tree, s: int, r: Tree, j: nat)
    requires t.Node? && i < |t.kids| == |t.keys| + 1 && j <= |t.kids|
    ensures var keys := Widened(t, i, l, s, r).keys;
      && LowOf(keys, lo, j)
         == (if j <= i then LowOf(t.keys, lo, j) else if j == i + 1 then s else LowOf(t.keys, lo, j - 1))
      && HighOf(keys, hi, j)
         == (if j < i then HighOf(t.keys, hi, j) else if j == i then s else HighOf(t.keys, hi, j - 1))
  {
    WidenedAt(t, i, l, s, r, j);
    if j > 0 {
      WidenedAt(t, i, l, s, r, j - 1);
    }
  }

  lemma WidenedOrdered(t: Tree, h: nat, lo: int, hi: int, i: nat, l: Tree, s: int, r: Tree)
    requires t.Node? && Ordered(t, h, lo, hi) && i < |t.kids|
    requires lo < s < hi && LowOf(t.keys, lo, i) < s < HighOf(t.keys, hi, i)
    requires Ordered(l, h - 1, LowOf(t.keys, lo, i), s)
    requires Ordered(r, h - 1, s, HighOf(t.keys, hi, i))
    ensures Ordered(Widened(t, i, l, s, r), h, lo, hi)
  {
    var u := Widened(t, i, l, s, r);
    WidenedKeysSorted(t, lo, hi, i, l, s, r);
    forall j | 0 <= j < |u.kids|
      ensures Ordered(u.kids[j], h - 1, LowOf(u.keys, lo, j), HighOf(u.keys, hi, j))
    {
      WidenedAt(t, i, l, s, r, j);
      WidenedRange(t, lo, hi, i, l, s, r, j);
    }
  }

  lemma WidenedLookup(t: Tree, h: nat, lo: int, hi: int, i: nat, l: Tree, s: int, r: Tree, x: int)
    requires t.Node? && Ordered(t, h, lo, hi) && i < |t.kids| && lo <= x < hi
    requires lo < s < hi && LowOf(t.keys, lo, i) < s < HighOf(t.keys, hi, i)
    ensures Lookup(Widened(t, i, l, s, r), x) ==
            if !(LowOf(t.keys, lo, i) <= x < HighOf(t.keys, hi, i)) then Lookup(t, x)
            else if x < s then Lookup(l, x) else Lookup(r, x)
  {
    var u := Widened(t, i, l, s, r);
    var j := ChildIndex(t.keys, x);
    InRangeIff(t.keys, lo, hi, i, x);
    var m := if j < i || (j == i && x < s) then j else j + 1;
    WidenedKeysSorted(t, lo, hi, i, l, s, r);
    WidenedRange(t, lo, hi, i, l, s, r, m);
    ChildIndexRange(u.keys, x, lo, hi, m);
    WidenedAt(t, i, l, s, r, m);
  }

  // A key lies in the range of child i exactly when ChildIndex picks i.
  lemma InRangeIff(keys: seq<int>, lo: int, hi: int, i: nat, x: int)
    requires Sorted(keys) && i <= |keys| && lo <= x < hi
    ensures LowOf(keys, lo, i) <= x < HighOf(keys, hi, i) <==> ChildIndex(keys, x) == i
  {
    var j := ChildIndex(keys, x);
    if LowOf(keys, lo, i) <= x < HighOf(keys, hi, i) {
      ChildIndexRange(keys, x, lo, hi, i);
    }
  }

  lemma HalvesOrdered(u: Tree, h: nat, lo: int, hi: int, pid: nat)
    requires u.Node? && Ordered(u, h, lo, hi) && |u.keys| >= 2
    ensures var m := u.keys[|u.keys| / 2];
      && lo < m < hi
      && Ordered(LeftHalf(u), h, lo, m)
      && Ordered(RightHalf(u, pid), h, m, hi)
  {
    hide LeftHalf, RightHalf;
    LeftOrdered(u, h, lo, hi);
    RightOrdered(u, h, lo, hi, pid);
  }

  lemma LeftOrdered(u: Tree, h: nat, lo: int, hi: int)
    requires u.Node? && Ordered(u, h, lo, hi) && |u.keys| >= 2
    ensures Ordered(LeftHalf(u), h, lo, u.keys[|u.keys| / 2])
  {
    var mid := |u.keys| / 2;
    var left := LeftHalf(u);
    forall j | 0 <= j < |left.kids|
      ensures Ordered(left.kids[j], h - 1, LowOf(left.keys, lo, j), HighOf(left.keys, u.keys[mid], j))
    {
      assert left.kids[j] == u.kids[j];
    }
  }

  lemma RightOrdered(u: Tree, h: nat, lo: int, hi: int, pid: nat)
    requires u.Node? && Ordered(u, h, lo, hi) && |u.keys| >= 2
    ensures Ordered(RightHalf(u, pid), h, u.keys[|u.keys| / 2], hi)
  {
    var mid := |u.keys| / 2;
    var right := RightHalf(u, pid);
    forall j | 0 <= j < |right.kids|
      ensures Ordered(right.kids[j], h - 1, LowOf(right.keys, u.keys[mid], j), HighOf(right.keys, hi, j))
    {
      RightChild(u, lo, hi, pid, j);
    }
  }

  // Child j of the right half, with its range.
  lemma RightChild(u: Tree, lo: int, hi: int, pid: nat, j: nat)
    requires u.Node? && |u.kids| == |u.keys| + 1 && |u.keys| >= 2 && j < |RightHalf(u, pid).kids|
    ensures var mid, right := |u.keys| / 2, RightHalf(u, pid);
      && mid + 1 + j < |u.kids| && right.kids[j] == u.kids[mid + 1 + j]
      && LowOf(right.keys, u.keys[mid], j) == LowOf(u.keys, lo, mid + 1 + j)
      && HighOf(right.keys, hi, j) == HighOf(u.keys, hi, mid + 1 + j)
  {
  }

  lemma HalvesLookup(u: Tree, h: nat, lo: int, hi: int, pid: nat, x: int)
    requires u.Node? && Ordered(u, h, lo, hi) && |u.keys| >= 2 && lo <= x < hi
    ensures Lookup(u, x) ==
            if x < u.keys[|u.keys| / 2] then Lookup(LeftHalf(u), x) else Lookup(RightHalf(u, pid), x)
  {
    HalvesOrdered(u, h, lo, hi, pid);
    var mid := |u.keys| / 2;
    var i := ChildIndex(u.keys, x);
    var m := u.keys[mid];
    if x < m {
      var left := LeftHalf(u);
      assert LowOf(left.keys, lo, i) <= x < HighOf(left.keys, m, i);
      LookupChild(left, h, lo, m, i, x);
    } else {
      var right := RightHalf(u, pid);
      var j := i - mid - 1;
      assert j > 0 ==> right.keys[j - 1] == u.keys[i - 1];
      assert j < |right.keys| ==> right.keys[j] == u.keys[i];
      assert LowOf(right.keys, m, j) <= x < HighOf(right.keys, hi, j);
      LookupChild(right, h, m, hi, j, x);
      assert right.kids[j] == u.kids[i];
    }
  }

  lemma InnerRefines(t: Tree, i: nat, c: Ins, fan: Fan, h: nat, lo: int, hi: int)
    requires t.Node? && Ordered(t, h, lo, hi) && i < |t.kids| && c.Split? && fan.innerMax >= 1
    requires OrderedIns(c, h - 1, LowOf(t.keys, lo, i), HighOf(t.keys, hi, i))
    ensures var d := InnerInsert(t, i, c, fan);
      && OrderedIns(d, h, lo, hi)
      && forall x :: lo <= x < hi ==>
           Found(d, x) == if LowOf(t.keys, lo, i) <= x < HighOf(t.keys, hi, i) then Found(c, x) else Lookup(t, x)
  {
    var u := Widened(t, i, c.left, c.sep, c.right);
    var d := InnerInsert(t, i, c, fan);
    WidenedOrdered(t, h, lo, hi, i, c.left, c.sep, c.right);
    if d.Split? {
      HalvesOrdered(u, h, lo, hi, c.size);
    }
    forall x | lo <= x < hi
      ensures Found(d, x) == if LowOf(t.keys, lo, i) <= x < HighOf(t.keys, hi, i) then Found(c, x) else Lookup(t, x)
    {
      WidenedLookup(t, h, lo, hi, i, c.left, c.sep, c.right, x);
      if d.Split? {
        HalvesLookup(u, h, lo, hi, c.size, x);
      }
    }
  }

  // Replacing child i of a node changes the answers in that child's range only.
  lemma ReplacedLookup(t: Tree, h: nat, lo: int, hi: int, i: nat, c: Tree, x: int)
    requires t.Node? && Ordered(t, h, lo, hi) && i < |t.kids| && lo <= x < hi
    ensures Lookup(Node(t.pid, t.keys, t.kids[i := c]), x) ==
            if LowOf(t.keys, lo, i) <= x < HighOf(t.keys, hi, i) then Lookup(c, x) else Lookup(t, x)
  {
    InRangeIff(t.keys, lo, hi, i, x);
  }

  // The main result for a subtree: a present key is refused; otherwise exactly
  // the binding k -> r is added and order, ranges and depth are kept.
  lemma {:induction false} InsertRefinesMap(t: Tree, k: int, r: Rid, n: nat, fan: Fan, h: nat, lo: int, hi: int)
    requires Ordered(t, h, lo, hi) && Shaped(t) && lo <= k < hi && fan.leafMax >= 1 && fan.innerMax >= 1
    ensures var c := Insert(t, k, r, n, fan);
      && (c.Dup? <==> Lookup(t, k).Some?)
      && OrderedIns(c, h, lo, hi)
      && (!c.Dup? ==> forall x :: lo <= x < hi ==> Found(c, x) == if x == k then Some(r) else Lookup(t, x))
    decreases h
  {
    if t.Leaf? {
      LeafOrdered(t, k, r, n, fan, lo, hi);
      LeafRefines(t, k, r, n, fan, lo, hi);
    } else {
      var i := ChildIndex(t.keys, k);
      var l, u := LowOf(t.keys, lo, i), HighOf(t.keys, hi, i);
      InsertRefinesMap(t.kids[i], k, r, n, fan, h - 1, l, u);
      var c := Insert(t.kids[i], k, r, n, fan);
      if c.Done? {
        ReplacedOrdered(t, h, lo, hi, i, c.t);
        forall x | lo <= x < hi
          ensures Found(Insert(t, k, r, n, fan), x) == if x == k then Some(r) else Lookup(t, x)
        {
          ReplacedLookup(t, h, lo, hi, i, c.t, x);
          if l <= x < u {
            LookupChild(t, h, lo, hi, i, x);
          }
        }
      } else if c.Split? {
        InnerRefines(t, i, c, fan, h, lo, hi);
        forall x | l <= x < u ensures Lookup(t, x) == Lookup(t.kids[i], x) {
          LookupChild(t, h, lo, hi, i, x);
        }
      }
    }
  }

  // A root over a split one is one level higher and finds what the halves find.
  lemma GrownRoot(d: Ins, h: nat, lo: int, hi: int, x: int)
    requires d.Split? && OrderedIns(d, h, lo, hi)
    ensures GrowRoot(d).RootDone? && Ordered(GrowRoot(d).t, h + 1, lo, hi)
    ensures lo <= x < hi ==> Lookup(GrowRoot(d).t, x) == Found(d, x)
  {
    var t := GrowRoot(d).t;
    assert t.kids[0] == d.left && t.kids[1] == d.right;
    if lo <= x < hi {
      ChildIndexRange(t.keys, x, lo, hi, if x < d.sep then 0 else 1);
    }
  }

  // The same for the whole tree, whose keys range over [lo, hi). Exactly a root split
  // makes it one level higher.
  lemma InsertAtRootRefinesMap(t: Tree, k: int, r: Rid, n: nat, fan: Fan, h: nat, lo: int, hi: int)
    requires Ordered(t, h, lo, hi) && Shaped(t) && lo <= k < hi && fan.leafMax >= 1 && fan.innerMax >= 1
    ensures var c := InsertAtRoot(t, k, r, n, fan);
      && (c.RootDup? <==> Lookup(t, k).Some?)
      && (c.RootDone? ==>
            && Ordered(c.t, if Insert(t, k, r, n, fan).Split? then h + 1 else h, lo, hi)
            && forall x :: Lookup(c.t, x) == if x == k then Some(r) else Lookup(t, x))
  {
    hide Insert, Lookup, Ordered, GrowRoot;
    InsertRefinesMap(t, k, r, n, fan, h, lo, hi);
    var c, d := InsertAtRoot(t, k, r, n, fan), Insert(t, k, r, n, fan);
    if d.Split? {
      GrownRoot(d, h, lo, hi, k);
    }
    if c.RootDone? {
      forall x ensures Lookup(c.t, x) == if x == k then Some(r) else Lookup(t, x) {
        if !(lo <= x < hi) {
          OutOfRange(t, h, lo, hi, x);
          OutOfRange(c.t, if d.Split? then h + 1 else h, lo, hi, x);
        } else if d.Split? {
          GrownRoot(d, h, lo, hi, x);
        }
      }
    }
  }
}
