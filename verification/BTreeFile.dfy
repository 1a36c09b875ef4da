// Index files between inserts: the invariant every completed insert keeps, and
// what whole runs of inserts amount to.
module BTreeFile {
  import opened Wrappers
  import opened BTreeModel
  import opened BTreeMap
  import opened BTreePages
  import opened BTreeChain
  import opened BTreeShape

  function Height(t: Tree): nat {
    if t.Leaf? || t.kids == [] then 0 else 1 + Height(t.kids[0])
  }

  lemma {:induction false} OrderedHeight(t: Tree, h: nat, lo: int, hi: int)
    requires Ordered(t, h, lo, hi)
    ensures Height(t) == h
    decreases h
  {
    if t.Leaf? {
    } else {
      OrderedHeight(t.kids[0], h - 1, LowOf(t.keys, lo, 0), HighOf(t.keys, hi, 0));
    }
  }

  // Page 0 names the root, page 1 is the leftmost leaf, every other page is one
  // node of the tree, and the leaves are chained in order. Keys lie in [lo, hi).
  ghost predicate TreeFile(f: seq<Page>, t: Tree, fan: Fan, lo: int, hi: int) {
    && fan.leafMax >= 1 && fan.innerMax >= 1 && lo <= hi
    && |f| > 1 && f[0] == HeaderPage(t.pid)
    && Holds(f, t)
    && Ordered(t, Height(t), lo, hi)
    && Filled(t, fan, true)
    && (forall p: nat :: Uses(t, p) == if 1 <= p < |f| then 1 else 0)
    && HeadPid(Leaves(t), 0) == 1 && Linked(Leaves(t), 0)
  }

  lemma TreeFileShape(f: seq<Page>, t: Tree, fan: Fan, lo: int, hi: int)
    requires TreeFile(f, t, fan, lo, hi)
    ensures Shaped(t) && Disjoint(t) && t.pid != 0
  {
    OrderedIsShaped(t, Height(t), lo, hi);
    assert Uses(t, t.pid) > 0;
  }

  // The file `create` writes.
  function EmptyFile(): seq<Page> {
    [HeaderPage(1), LeafPage([], 0)]
  }

  const EMPTY_TREE := Leaf(1, [], 0)

  lemma EmptyIsTreeFile(fan: Fan, lo: int, hi: int)
    requires fan.leafMax >= 1 && fan.innerMax >= 1 && lo <= hi
    ensures TreeFile(EmptyFile(), EMPTY_TREE, fan, lo, hi)
  {
    assert Leaves(EMPTY_TREE) == [EMPTY_TREE];
  }

  // ------------------------------------------------------------------
  // A completed insert
  // ------------------------------------------------------------------

  // Growing a root over a split: the new root page, then the header.
  lemma GrowRootWrites(f: seq<Page>, h: seq<Page>, c: Ins)
    requires c.Split? && h == ApplyAll(f, c.ws) && |h| == c.size && HeldIns(h, c) && |h| > 0
    requires Uses(c.left, 0) == 0 == Uses(c.right, 0)
    ensures var d := GrowRoot(c);
      var g := ApplyAll(f, d.ws);
      |g| == d.size && Holds(g, d.t) && g[0] == HeaderPage(d.t.pid)
  {
    var d := GrowRoot(c);
    var g := ApplyAll(f, d.ws);
    ApplyTwoMore(f, c.ws, Write(c.size, PageOf(d.t)), Write(0, HeaderPage(c.size)));
    Frame(h, g, c.left);
    Frame(h, g, c.right);
  }

  lemma GrowRootUses(c: Ins, p: nat)
    requires c.Split?
    ensures Uses(GrowRoot(c).t, p) == UsesOf(c, p) + if p == c.size then 1 else 0
  {
    assert [c.left, c.right] == [c.left] + [c.right];
    UsesAppend([c.left], [c.right], p);
    UsesOne(c.left, p);
    UsesOne(c.right, p);
  }

  // After an insert returns, every page past the header is exactly one node of
  // the tree: no page is lost, shared or reused.
  lemma InsertConserves(f: seq<Page>, t: Tree, k: int, r: Rid, fan: Fan, lo: int, hi: int)
    requires TreeFile(f, t, fan, lo, hi) && Shaped(t) && InsertAtRoot(t, k, r, |f|, fan).RootDone?
    ensures var c := InsertAtRoot(t, k, r, |f|, fan);
      var g := ApplyAll(f, c.ws);
      && |g| == c.size && g[0] == HeaderPage(c.t.pid) && Holds(g, c.t)
      && forall p: nat :: Uses(c.t, p) == if 1 <= p < |g| then 1 else 0
  {
    TreeFileShape(f, t, fan, lo, hi);
    var d := Insert(t, k, r, |f|, fan);
    var c := InsertAtRoot(t, k, r, |f|, fan);
    InsertWrites(f, t, k, r, fan);
    InsertSize(t, k, r, |f|, fan);
    forall p: nat ensures UsesOf(d, p) == if 1 <= p < d.size then 1 else 0 {
      InsertUses(t, k, r, |f|, fan, p);
    }
    assert UsesOf(d, 0) == 0;
    if d.Split? {
      GrowRootWrites(f, ApplyAll(f, d.ws), d);
      forall p: nat ensures Uses(c.t, p) == if 1 <= p < c.size then 1 else 0 {
        GrowRootUses(d, p);
      }
    } else {
      assert Uses(t, 0) == 0;
      forall p: nat ensures Uses(c.t, p) == if 1 <= p < c.size then 1 else 0 {
        assert UsesOf(d, p) == Uses(c.t, p);
      }
    }
  }

  lemma InsertChains(t: Tree, k: int, r: Rid, n: nat, fan: Fan)
    requires Shaped(t) && InsertAtRoot(t, k, r, n, fan).RootDone? && Linked(Leaves(t), 0)
    ensures var c := InsertAtRoot(t, k, r, n, fan);
      Linked(Leaves(c.t), 0) && HeadPid(Leaves(c.t), 0) == HeadPid(Leaves(t), 0)
  {
    var d := Insert(t, k, r, n, fan);
    var a, leaf, b := InsertLeaves(t, k, r, n, fan);
    PartsAreLeaves(t, a, leaf, b);
    EditLinked(a, leaf, b, k, r, n, fan);
    RootLeaves(t, k, r, n, fan);
  }

  lemma PartsAreLeaves(t: Tree, a: seq<Tree>, leaf: Tree, b: seq<Tree>)
    requires Leaves(t) == a + [leaf] + b
    ensures forall i :: 0 <= i < |a| ==> a[i].Leaf?
    ensures forall i :: 0 <= i < |b| ==> b[i].Leaf?
  {
    var ls := Leaves(t);
    assert forall i :: 0 <= i < |a| ==> a[i] == ls[i];
    assert forall i :: 0 <= i < |b| ==> b[i] == ls[|a| + 1 + i];
  }

  lemma RootLeaves(t: Tree, k: int, r: Rid, n: nat, fan: Fan)
    requires Shaped(t) && InsertAtRoot(t, k, r, n, fan).RootDone?
    ensures Leaves(InsertAtRoot(t, k, r, n, fan).t) == LeavesOf(Insert(t, k, r, n, fan))
  {
    var d := Insert(t, k, r, n, fan);
    if d.Split? {
      LeavesTwo(d.left, d.right);
    }
  }

  // An insert appends at most one page a level, and one for a new root.
  lemma {:induction false} InsertGrowth(t: Tree, k: int, r: Rid, n: nat, fan: Fan, h: nat, lo: int, hi: int)
    requires Ordered(t, h, lo, hi) && Shaped(t)
    ensures var c := Insert(t, k, r, n, fan); !c.Dup? ==> c.size <= n + h + 1
    decreases h
  {
    if t.Leaf? {
    } else {
      var i := ChildIndex(t.keys, k);
      InsertGrowth(t.kids[i], k, r, n, fan, h - 1, LowOf(t.keys, lo, i), HighOf(t.keys, hi, i));
    }
  }

  // The pages on the leftmost path.
  function Spine(t: Tree): set<nat> {
    {t.pid} + if t.Node? && t.kids != [] then Spine(t.kids[0]) else {}
  }

  lemma {:induction false} SpineUsed(t: Tree, p: nat)
    requires p in Spine(t)
    ensures Uses(t, p) > 0
    decreases t
  {
    if p == t.pid {
    } else {
      SpineUsed(t.kids[0], p);
      ChildUses(t, 0, p);
    }
  }

  lemma {:induction false} SpineSize(t: Tree)
    requires Disjoint(t)
    ensures |Spine(t)| == Height(t) + 1
    decreases t
  {
    if t.Leaf? || t.kids == [] {
    } else {
      ChildDisjoint(t, 0);
      ChildUses(t, 0, t.pid);
      SpineSize(t.kids[0]);
      if t.pid in Spine(t.kids[0]) {
        SpineUsed(t.kids[0], t.pid);
      }
    }
  }

  lemma {:induction false} BelowSize(s: set<nat>, n: nat)
    requires forall p :: p in s ==> 1 <= p < n
    ensures |s| <= if n == 0 then 0 else n - 1
  {
    if n <= 1 {
      assert s == {};
    } else {
      BelowSize(s - {n - 1}, n - 1);
    }
  }

  // A tree is less high than its file has pages.
  lemma HeightBelowPages(f: seq<Page>, t: Tree, fan: Fan, lo: int, hi: int)
    requires TreeFile(f, t, fan, lo, hi)
    ensures Height(t) + 2 <= |f|
  {
    TreeFileShape(f, t, fan, lo, hi);
    SpineSize(t);
    forall p | p in Spine(t) ensures 1 <= p < |f| {
      SpineUsed(t, p);
    }
    BelowSize(Spine(t), |f|);
  }

  // The main result for whole files. A present key is refused. Otherwise the
  // file holds a tree again, and search sees the old map plus k -> r.
  lemma CompletedInsert(f: seq<Page>, t: Tree, k: int, r: Rid, fan: Fan, lo: int, hi: int)
    requires TreeFile(f, t, fan, lo, hi) && Shaped(t) && lo <= k < hi
    ensures var c := InsertAtRoot(t, k, r, |f|, fan);
      && (c.RootDup? <==> Lookup(t, k).Some?)
      && (c.RootDone? ==>
            && TreeFile(ApplyAll(f, c.ws), c.t, fan, lo, hi)
            && forall x :: Lookup(c.t, x) == if x == k then Some(r) else Lookup(t, x))
  {
    var c := InsertAtRoot(t, k, r, |f|, fan);
    InsertAtRootRefinesMap(t, k, r, |f|, fan, Height(t), lo, hi);
    if c.RootDone? {
      InsertConserves(f, t, k, r, fan, lo, hi);
      InsertChains(t, k, r, |f|, fan);
      InsertAtRootFilled(t, k, r, |f|, fan);
      OrderedHeight(c.t, if Insert(t, k, r, |f|, fan).Split? then Height(t) + 1 else Height(t), lo, hi);
    }
  }

  // Between inserts, walking next_leaf from page 1 meets every binding once, in
  // strictly increasing key order, and nothing else.
  lemma ChainListsBindings(f: seq<Page>, t: Tree, fan: Fan, lo: int, hi: int)
    requires TreeFile(f, t, fan, lo, hi)
    ensures Chain(f, 1, Leaves(t)) && SortedEntries(Bindings(t))
    ensures forall x, v :: Entry(x, v) in Bindings(t) <==> Lookup(t, x) == Some(v)
  {
    HeldLeaves(f, t);
    forall i | 0 <= i < |Leaves(t)| ensures Leaves(t)[i].pid > 0 {
      LeafUses(t, i);
      assert Uses(t, Leaves(t)[i].pid) > 0;
    }
    assert LeavesHeld(f, Leaves(t));
    LinkedIsChain(f, Leaves(t));
    BindingsSorted(t, Height(t), lo, hi);
    forall x, v ensures Entry(x, v) in Bindings(t) <==> Lookup(t, x) == Some(v) {
      BindingsAreLookup(t, Height(t), lo, hi, x, v);
    }
  }

  lemma {:induction false} HeldLeaves(f: seq<Page>, t: Tree)
    requires Holds(f, t)
    ensures LeavesOn(f, Leaves(t))
    decreases t
  {
    if t.Node? {
      HeldLeavesAll(f, t.kids);
    }
  }

  lemma {:induction false} HeldLeavesAll(f: seq<Page>, kids: seq<Tree>)
    requires forall i :: 0 <= i < |kids| ==> Holds(f, kids[i])
    ensures LeavesOn(f, LeavesAll(kids))
    decreases kids
  {
    if kids == [] {
    } else {
      HeldLeaves(f, kids[0]);
      HeldLeavesAll(f, kids[1..]);
      assert forall l :: l in LeavesAll(kids) ==> l in Leaves(kids[0]) || l in LeavesAll(kids[1..]);
    }
  }

  // A leaf of t is a node of t.
  lemma {:induction false} LeafUses(t: Tree, i: nat)
    requires i < |Leaves(t)|
    ensures Uses(t, Leaves(t)[i].pid) > 0
    decreases t
  {
    if t.Node? {
      LeafUsesAll(t.kids, i);
    }
  }

  lemma {:induction false} LeafUsesAll(kids: seq<Tree>, i: nat)
    requires i < |LeavesAll(kids)|
    ensures UsesAll(kids, LeavesAll(kids)[i].pid) > 0
    decreases kids
  {
    if i < |Leaves(kids[0])| {
      LeafUses(kids[0], i);
    } else {
      LeafUsesAll(kids[1..], i - |Leaves(kids[0])|);
    }
  }

  // ------------------------------------------------------------------
  // Runs
  // ------------------------------------------------------------------

  // One insert on a file and its tree; a refused insert changes nothing.
  function Step(f: seq<Page>, t: Tree, op: Entry, fan: Fan): (seq<Page>, Tree)
    requires Shaped(t)
  {
    match InsertAtRoot(t, op.key, op.rid, |f|, fan)
    case RootDup => (f, t)
    case RootDone(u, _, ws) => (ApplyAll(f, ws), u)
  }

  lemma StepKeeps(f: seq<Page>, t: Tree, op: Entry, fan: Fan, lo: int, hi: int, x: int)
    requires TreeFile(f, t, fan, lo, hi) && Shaped(t) && lo <= op.key < hi
    ensures var (g, u) := Step(f, t, op, fan);
      && TreeFile(g, u, fan, lo, hi) && Shaped(u)
      && Lookup(u, x) == if Lookup(t, x).None? && x == op.key then Some(op.rid) else Lookup(t, x)
  {
    CompletedInsert(f, t, op.key, op.rid, fan, lo, hi);
    var (g, u) := Step(f, t, op, fan);
    TreeFileShape(g, u, fan, lo, hi);
  }

  // The file and tree after inserting ops in order.
  function Run(ops: seq<Entry>, fan: Fan, lo: int, hi: int): (s: (seq<Page>, Tree))
    requires fan.leafMax >= 1 && fan.innerMax >= 1 && lo <= hi
    requires forall i :: 0 <= i < |ops| ==> lo <= ops[i].key < hi
    ensures TreeFile(s.0, s.1, fan, lo, hi) && Shaped(s.1)
  {
    if ops == [] then
      EmptyIsTreeFile(fan, lo, hi);
      (EmptyFile(), EMPTY_TREE)
    else
      var (f, t) := Run(ops[..|ops| - 1], fan, lo, hi);
      StepKeeps(f, t, ops[|ops| - 1], fan, lo, hi, 0);
      Step(f, t, ops[|ops| - 1], fan)
  }

  // One more insert on a run adds its binding unless the key is bound already.
  lemma RunStep(ops: seq<Entry>, fan: Fan, lo: int, hi: int, x: int)
    requires fan.leafMax >= 1 && fan.innerMax >= 1 && lo <= hi && ops != []
    requires forall i :: 0 <= i < |ops| ==> lo <= ops[i].key < hi
    ensures var op := ops[|ops| - 1];
      var was := Lookup(Run(ops[..|ops| - 1], fan, lo, hi).1, x);
      Lookup(Run(ops, fan, lo, hi).1, x) == if was.None? && x == op.key then Some(op.rid) else was
  {
    var s := Run(ops[..|ops| - 1], fan, lo, hi);
    StepKeeps(s.0, s.1, ops[|ops| - 1], fan, lo, hi, x);
  }

  // After any run, search finds for each key the row id of its first insert.
  lemma {:induction false} RunIsFirstInsert(ops: seq<Entry>, fan: Fan, lo: int, hi: int, x: int)
    requires fan.leafMax >= 1 && fan.innerMax >= 1 && lo <= hi
    requires forall i :: 0 <= i < |ops| ==> lo <= ops[i].key < hi
    ensures Lookup(Run(ops, fan, lo, hi).1, x) == LeafFind(ops, x)
    decreases ops
  {
    if ops == [] {
    } else {
      RunIsFirstInsert(ops[..|ops| - 1], fan, lo, hi, x);
      RunStep(ops, fan, lo, hi, x);
      FindLast(ops, x);
    }
  }

  lemma FindLast(es: seq<Entry>, x: int)
    requires es != []
    ensures var e, was := es[|es| - 1], LeafFind(es[..|es| - 1], x);
      LeafFind(es, x) == if was.None? && x == e.key then Some(e.rid) else was
  {
    assert es == es[..|es| - 1] + [es[|es| - 1]];
    FindAppend(es[..|es| - 1], es[|es| - 1], x);
  }

  lemma FindAppend(es: seq<Entry>, e: Entry, x: int)
    ensures LeafFind(es + [e], x) ==
            if LeafFind(es, x).Some? then LeafFind(es, x) else if e.key == x then Some(e.rid) else None
  {
    if es == [] {
      assert [] + [e] == [e];
    } else {
      assert (es + [e])[1..] == es[1..] + [e];
      FindAppend(es[1..], e, x);
    }
  }
}
