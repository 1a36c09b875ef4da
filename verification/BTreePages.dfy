// The tree on its pages: which pages hold it, what a run of page writes leaves,
// and how an insertion allocates. A page write is one step on the page sequence.
module BTreePages {
  import opened Wrappers
  import opened BTreeModel
  import opened BTreeMap

  function Apply(f: seq<Page>, w: Write): (g: seq<Page>)
    ensures |f| <= |g|
  {
    if w.pid < |f| then f[w.pid := w.page] else f + [w.page]
  }

  function ApplyAll(f: seq<Page>, ws: seq<Write>): (g: seq<Page>)
    ensures |f| <= |g|
  {
    if ws == [] then f else Apply(ApplyAll(f, ws[..|ws| - 1]), ws[|ws| - 1])
  }

  lemma ApplyOneMore(f: seq<Page>, ws: seq<Write>, w: Write)
    ensures ApplyAll(f, ws + [w]) == Apply(ApplyAll(f, ws), w)
  {
    assert (ws + [w])[..|ws|] == ws;
  }

  lemma ApplyTwoMore(f: seq<Page>, ws: seq<Write>, v: Write, w: Write)
    ensures ApplyAll(f, ws + [v, w]) == Apply(Apply(ApplyAll(f, ws), v), w)
  {
    assert ws + [v, w] == (ws + [v]) + [w];
    ApplyOneMore(f, ws, v);
    ApplyOneMore(f, ws + [v], w);
  }

  // The pages of f hold t: each node's page decodes to that node.
  predicate Holds(f: seq<Page>, t: Tree) {
    && t.pid < |f|
    && f[t.pid] == PageOf(t)
    && (t.Node? ==> forall i :: 0 <= i < |t.kids| ==> Holds(f, t.kids[i]))
  }

  // How many nodes of t live on page p.
  function Uses(t: Tree, p: nat): nat {
    (if p == t.pid then 1 else 0) + if t.Node? then UsesAll(t.kids, p) else 0
  }

  function UsesAll(kids: seq<Tree>, p: nat): nat {
    if kids == [] then 0 else Uses(kids[0], p) + UsesAll(kids[1..], p)
  }

  // No page is used twice: subtrees are disjoint and every page has one parent.
  ghost predicate Disjoint(t: Tree) {
    forall p: nat :: Uses(t, p) <= 1
  }

  lemma UsesAppend(a: seq<Tree>, b: seq<Tree>, p: nat)
    ensures UsesAll(a + b, p) == UsesAll(a, p) + UsesAll(b, p)
  {
    if a == [] {
      assert a + b == b;
    } else {
      assert (a + b)[1..] == a[1..] + b;
      UsesAppend(a[1..], b, p);
    }
  }

  lemma UsesOne(t: Tree, p: nat)
    ensures UsesAll([t], p) == Uses(t, p)
  {
    assert UsesAll([t], p) == Uses(t, p) + UsesAll([], p);
  }

  lemma UsesAt(kids: seq<Tree>, i: nat, p: nat)
    requires i < |kids|
    ensures UsesAll(kids, p) == UsesAll(kids[..i], p) + Uses(kids[i], p) + UsesAll(kids[i + 1..], p)
  {
    assert kids == kids[..i] + ([kids[i]] + kids[i + 1..]);
    UsesAppend(kids[..i], [kids[i]] + kids[i + 1..], p);
    UsesAppend([kids[i]], kids[i + 1..], p);
    UsesOne(kids[i], p);
  }

  lemma UsesTwo(kids: seq<Tree>, i: nat, j: nat, p: nat)
    requires i < j < |kids|
    ensures Uses(kids[i], p) + Uses(kids[j], p) <= UsesAll(kids, p)
  {
    UsesAt(kids, i, p);
    assert kids[i + 1..][j - i - 1] == kids[j];
    UsesAt(kids[i + 1..], j - i - 1, p);
  }

  // Children of a disjoint tree share no page with each other or the node.
  lemma SiblingsDisjoint(t: Tree, i: nat, j: nat, p: nat)
    requires t.Node? && Disjoint(t) && i < |t.kids| && j < |t.kids| && i != j
    ensures Uses(t.kids[i], p) == 0 || Uses(t.kids[j], p) == 0
  {
    if i < j {
      UsesTwo(t.kids, i, j, p);
    } else {
      UsesTwo(t.kids, j, i, p);
    }
    assert Uses(t, p) <= 1;
  }

  lemma ChildUses(t: Tree, i: nat, p: nat)
    requires t.Node? && i < |t.kids|
    ensures Uses(t.kids[i], p) + (if p == t.pid then 1 else 0) <= Uses(t, p)
  {
    UsesAt(t.kids, i, p);
  }

  lemma ChildDisjoint(t: Tree, i: nat)
    requires t.Node? && Disjoint(t) && i < |t.kids|
    ensures Disjoint(t.kids[i]) && Uses(t.kids[i], t.pid) == 0
  {
    forall p: nat ensures Uses(t.kids[i], p) <= 1 {
      ChildUses(t, i, p);
      assert Uses(t, p) <= 1;
    }
    ChildUses(t, i, t.pid);
    assert Uses(t, t.pid) <= 1;
  }

  // Only the pages of t matter to whether f holds t.
  lemma {:induction false} Frame(f: seq<Page>, g: seq<Page>, t: Tree)
    requires Holds(f, t) && |f| <= |g|
    requires forall p: nat :: p < |f| && Uses(t, p) > 0 ==> g[p] == f[p]
    ensures Holds(g, t)
    decreases t
  {
    assert Uses(t, t.pid) > 0;
    if t.Leaf? {
    } else {
      forall i | 0 <= i < |t.kids| ensures Holds(g, t.kids[i]) {
        forall p: nat | p < |f| && Uses(t.kids[i], p) > 0 ensures g[p] == f[p] {
          ChildUses(t, i, p);
        }
        Frame(f, g, t.kids[i]);
      }
    }
  }

  lemma {:induction false} HeldUses(f: seq<Page>, t: Tree, p: nat)
    requires Holds(f, t) && Uses(t, p) > 0
    ensures p < |f|
    decreases t
  {
    if t.Node? && p != t.pid {
      HeldUsesAll(f, t.kids, p);
    }
  }

  lemma {:induction false} HeldUsesAll(f: seq<Page>, kids: seq<Tree>, p: nat)
    requires forall i :: 0 <= i < |kids| ==> Holds(f, kids[i])
    requires UsesAll(kids, p) > 0
    ensures p < |f|
    decreases kids
  {
    if Uses(kids[0], p) > 0 {
      HeldUses(f, kids[0], p);
    } else {
      HeldUsesAll(f, kids[1..], p);
    }
  }

  // ------------------------------------------------------------------
  // The writes of an insertion
  // ------------------------------------------------------------------

  function UsesOf(c: Ins, p: nat): nat
    requires !c.Dup?
  {
    match c
    case Done(t, _, _) => Uses(t, p)
    case Split(l, _, r, _, _) => Uses(l, p) + Uses(r, p)
  }

  predicate HeldIns(f: seq<Page>, c: Ins)
    requires !c.Dup?
  {
    match c
    case Done(t, _, _) => Holds(f, t)
    case Split(l, _, r, _, _) => Holds(f, l) && Holds(f, r)
  }

  function RootPid(c: Ins): nat
    requires !c.Dup?
  {
    match c
    case Done(t, _, _) => t.pid
    case Split(l, _, _, _, _) => l.pid
  }

  // Pages of f that t does not use are as they were.
  ghost predicate Untouched(f: seq<Page>, g: seq<Page>, t: Tree) {
    |f| <= |g| && forall p: nat :: p < |f| && Uses(t, p) == 0 ==> g[p] == f[p]
  }

  lemma WidenedUses(t: Tree, i: nat, l: Tree, s: int, r: Tree, p: nat)
    requires t.Node? && i < |t.kids| == |t.keys| + 1
    ensures UsesAll(Widened(t, i, l, s, r).kids, p) + Uses(t.kids[i], p) == UsesAll(t.kids, p) + Uses(l, p) + Uses(r, p)
  {
    UsesAt(t.kids, i, p);
    UsesAppend(t.kids[..i] + [l, r], t.kids[i + 1..], p);
    UsesAppend(t.kids[..i], [l, r], p);
    UsesAppend([l], [r], p);
    assert [l] + [r] == [l, r];
    UsesOne(l, p);
    UsesOne(r, p);
  }

  lemma HalvesUses(u: Tree, pid: nat, p: nat)
    requires u.Node? && |u.kids| == |u.keys| + 1 && u.keys != []
    ensures Uses(LeftHalf(u), p) + Uses(RightHalf(u, pid), p) == Uses(u, p) + if p == pid then 1 else 0
  {
    var mid := |u.keys| / 2;
    assert u.kids == u.kids[..mid + 1] + u.kids[mid + 1..];
    UsesAppend(u.kids[..mid + 1], u.kids[mid + 1..], p);
  }

  lemma ReplacedUses(t: Tree, i: nat, c: Tree, p: nat)
    requires t.Node? && i < |t.kids|
    ensures UsesAll(t.kids[i := c], p) + Uses(t.kids[i], p) == UsesAll(t.kids, p) + Uses(c, p)
  {
    UsesAt(t.kids, i, p);
    var ks := t.kids[i := c];
    UsesAt(ks, i, p);
    assert ks[..i] == t.kids[..i] && ks[i + 1..] == t.kids[i + 1..];
  }

  lemma {:induction false} InsertSize(t: Tree, k: int, r: Rid, n: nat, fan: Fan)
    requires Shaped(t) && !Insert(t, k, r, n, fan).Dup?
    ensures var c := Insert(t, k, r, n, fan); n <= c.size && RootPid(c) == t.pid
    decreases t
  {
    if t.Leaf? {
    } else {
      InsertSize(t.kids[ChildIndex(t.keys, k)], k, r, n, fan);
    }
  }

  // The pages writes append to a file of n pages, in order.
  function FreshIds(ws: seq<Write>, n: nat): seq<nat> {
    if ws == [] then []
    else
      var last := ws[|ws| - 1].pid;
      FreshIds(ws[..|ws| - 1], n) + if last < n then [] else [last]
  }

  lemma NoWritesNoIds(n: nat)
    ensures FreshIds([], n) == []
  {
  }

  lemma FreshOneMore(ws: seq<Write>, w: Write, n: nat)
    ensures FreshIds(ws + [w], n) == FreshIds(ws, n) + if w.pid < n then [] else [w.pid]
  {
    assert (ws + [w])[..|ws|] == ws;
  }

  lemma FreshTwoMore(ws: seq<Write>, v: Write, w: Write, n: nat)
    requires w.pid < n <= v.pid
    ensures FreshIds(ws + [v, w], n) == FreshIds(ws, n) + [v.pid]
  {
    assert ws + [v, w] == (ws + [v]) + [w];
    FreshOneMore(ws, v, n);
    FreshOneMore(ws + [v], w, n);
  }

  // The ids from n up to size.
  function IdsFrom(n: nat, size: nat): seq<nat>
    requires n <= size
  {
    seq(size - n, i requires 0 <= i < size - n => n + i)
  }

  // Pages are handed out one after the other from the page count on, also when
  // several levels split, each written once.
  lemma {:induction false} InsertAllocates(f: seq<Page>, t: Tree, k: int, r: Rid, fan: Fan)
    requires Shaped(t) && Holds(f, t) && !Insert(t, k, r, |f|, fan).Dup?
    ensures var c := Insert(t, k, r, |f|, fan);
      |f| <= c.size && FreshIds(c.ws, |f|) == IdsFrom(|f|, c.size)
    decreases t
  {
    hide PageOf, FreshIds;
    var c := Insert(t, k, r, |f|, fan);
    NoWritesNoIds(|f|);
    if t.Leaf? {
      if c.Done? {
        FreshOneMore([], c.ws[0], |f|);
        assert c.ws == [] + [c.ws[0]];
      } else {
        FreshTwoMore([], c.ws[0], c.ws[1], |f|);
        assert c.ws == [] + [c.ws[0], c.ws[1]];
      }
    } else {
      var i := ChildIndex(t.keys, k);
      InsertAllocates(f, t.kids[i], k, r, fan);
      var d := Insert(t.kids[i], k, r, |f|, fan);
      if d.Split? {
        InnerAllocates(t, i, d, fan, |f|);
      }
    }
  }

  lemma InnerAllocates(t: Tree, i: nat, d: Ins, fan: Fan, n: nat)
    requires t.Node? && i < |t.kids| == |t.keys| + 1 && d.Split? && t.pid < n <= d.size
    requires FreshIds(d.ws, n) == IdsFrom(n, d.size)
    ensures var c := InnerInsert(t, i, d, fan); n <= c.size && FreshIds(c.ws, n) == IdsFrom(n, c.size)
  {
    var u := Widened(t, i, d.left, d.sep, d.right);
    if |u.keys| <= fan.innerMax {
      FreshOneMore(d.ws, Write(t.pid, PageOf(u)), n);
    } else {
      FreshTwoMore(d.ws, Write(d.size, PageOf(RightHalf(u, d.size))), Write(t.pid, PageOf(LeftHalf(u))), n);
    }
  }

  // A new root comes behind them; the header is no new page.
  lemma RootAllocates(f: seq<Page>, t: Tree, k: int, r: Rid, fan: Fan)
    requires Shaped(t) && Holds(f, t) && InsertAtRoot(t, k, r, |f|, fan).RootDone?
    ensures var c := InsertAtRoot(t, k, r, |f|, fan);
      |f| <= c.size && FreshIds(c.ws, |f|) == IdsFrom(|f|, c.size)
  {
    hide Insert, FreshIds, PageOf;
    InsertAllocates(f, t, k, r, fan);
    var d := Insert(t, k, r, |f|, fan);
    if d.Split? {
      assert |f| > 0;
      FreshTwoMore(d.ws, Write(d.size, PageOf(GrowRoot(d).t)), Write(0, HeaderPage(d.size)), |f|);
    }
  }

  // Pages are conserved: an insertion uses the old pages and the ones it
  // appended, each once.
  lemma {:induction false} InsertUses(t: Tree, k: int, r: Rid, n: nat, fan: Fan, p: nat)
    requires Shaped(t) && !Insert(t, k, r, n, fan).Dup?
    ensures var c := Insert(t, k, r, n, fan);
      UsesOf(c, p) == Uses(t, p) + if n <= p < c.size then 1 else 0
    decreases t
  {
    if t.Leaf? {
    } else {
      var i := ChildIndex(t.keys, k);
      InsertSize(t.kids[i], k, r, n, fan);
      InsertUses(t.kids[i], k, r, n, fan, p);
      var d := Insert(t.kids[i], k, r, n, fan);
      if d.Done? {
        ReplacedUses(t, i, d.t, p);
      } else {
        WidenedUses(t, i, d.left, d.sep, d.right, p);
        HalvesUses(Widened(t, i, d.left, d.sep, d.right), d.size, p);
      }
    }
  }

  // The writes of an insertion take a file holding t to one holding the result.
  // Pages off the path are untouched and each allocated page is the next one.
  lemma {:induction false} InsertWrites(f: seq<Page>, t: Tree, k: int, r: Rid, fan: Fan)
    requires Shaped(t) && Holds(f, t) && Disjoint(t) && !Insert(t, k, r, |f|, fan).Dup?
    ensures var c := Insert(t, k, r, |f|, fan);
      var g := ApplyAll(f, c.ws);
      |g| == c.size && HeldIns(g, c) && Untouched(f, g, t)
    decreases t
  {
    var c := Insert(t, k, r, |f|, fan);
    if t.Leaf? {
      LeafWrites(f, t, c);
    } else {
      var i := ChildIndex(t.keys, k);
      ChildDisjoint(t, i);
      InsertWrites(f, t.kids[i], k, r, fan);
      InsertSize(t.kids[i], k, r, |f|, fan);
      var d := Insert(t.kids[i], k, r, |f|, fan);
      var h := ApplyAll(f, d.ws);
      SiblingsHeld(f, h, t, i);
      if d.Done? {
        assert KidPids(t.kids[i := d.t]) == KidPids(t.kids);
      } else {
        assert !(Uses(d.left, t.pid) > 0 || Uses(d.right, t.pid) > 0) by {
          InsertUses(t.kids[i], k, r, |f|, fan, t.pid);
        }
        InnerWrites(f, h, t, i, d, fan);
      }
    }
  }

  // An insertion that stays in, or splits, leaf t; the new page is written first.
  predicate LeafIns(t: Tree, c: Ins, n: nat) {
    match c
    case Dup => false
    case Done(u, size, ws) => u.Leaf? && u.pid == t.pid && size == n && ws == [Write(t.pid, PageOf(u))]
    case Split(l, _, rt, size, ws) =>
      && l.Leaf? && rt.Leaf? && l.pid == t.pid && rt.pid == n && size == n + 1
      && ws == [Write(n, PageOf(rt)), Write(t.pid, PageOf(l))]
  }

  lemma LeafWrites(f: seq<Page>, t: Tree, c: Ins)
    requires t.Leaf? && t.pid < |f|
    requires LeafIns(t, c, |f|)
    ensures var g := ApplyAll(f, c.ws);
      |g| == c.size && HeldIns(g, c) && Untouched(f, g, t)
  {
    if c.Done? {
      assert c.ws == [] + [c.ws[0]];
      ApplyOneMore(f, [], c.ws[0]);
    } else {
      assert c.ws == [] + [c.ws[0], c.ws[1]];
      ApplyTwoMore(f, [], c.ws[0], c.ws[1]);
    }
    assert Uses(t, t.pid) == 1;
  }

  // Changing only pages of child i, and appending, keeps the node's page and its
  // other children.
  lemma SiblingsHeld(f: seq<Page>, h: seq<Page>, t: Tree, i: nat)
    requires t.Node? && Holds(f, t) && Disjoint(t) && i < |t.kids| && Untouched(f, h, t.kids[i])
    ensures h[t.pid] == f[t.pid] && Untouched(f, h, t)
    ensures forall j :: 0 <= j < |t.kids| && j != i ==> Holds(h, t.kids[j]) && Uses(t.kids[j], t.pid) == 0
  {
    ChildDisjoint(t, i);
    forall p: nat | p < |f| && Uses(t, p) == 0 ensures h[p] == f[p] {
      ChildUses(t, i, p);
    }
    forall j | 0 <= j < |t.kids| && j != i ensures Holds(h, t.kids[j]) && Uses(t.kids[j], t.pid) == 0 {
      ChildDisjoint(t, j);
      forall p: nat | p < |f| && Uses(t.kids[j], p) > 0 ensures h[p] == f[p] {
        SiblingsDisjoint(t, i, j, p);
      }
      Frame(f, h, t.kids[j]);
    }
  }

  // Rewriting page q keeps every subtree that does not use it.
  lemma KidsHeld(h: seq<Page>, g: seq<Page>, kids: seq<Tree>, q: nat)
    requires |h| <= |g| && forall p: nat :: p < |h| && p != q ==> g[p] == h[p]
    requires forall j :: 0 <= j < |kids| ==> Holds(h, kids[j]) && Uses(kids[j], q) == 0
    ensures forall j :: 0 <= j < |kids| ==> Holds(g, kids[j])
  {
    forall j | 0 <= j < |kids| ensures Holds(g, kids[j]) {
      Frame(h, g, kids[j]);
    }
  }

  lemma WidenedHeld(h: seq<Page>, t: Tree, i: nat, l: Tree, s: int, r: Tree, q: nat)
    requires t.Node? && i < |t.kids| == |t.keys| + 1
    requires Holds(h, l) && Holds(h, r) && Uses(l, q) == 0 == Uses(r, q)
    requires forall j :: 0 <= j < |t.kids| && j != i ==> Holds(h, t.kids[j]) && Uses(t.kids[j], q) == 0
    ensures var kids := Widened(t, i, l, s, r).kids;
      forall j :: 0 <= j < |kids| ==> Holds(h, kids[j]) && Uses(kids[j], q) == 0
  {
    var kids := Widened(t, i, l, s, r).kids;
    forall j | 0 <= j < |kids| ensures Holds(h, kids[j]) && Uses(kids[j], q) == 0 {
      WidenedAt(t, i, l, s, r, j);
    }
  }

  // Rewriting a node's page over held children leaves the node held.
  lemma NodeWritten(h: seq<Page>, u: Tree)
    requires u.Node? && u.pid < |h|
    requires forall j :: 0 <= j < |u.kids| ==> Holds(h, u.kids[j]) && Uses(u.kids[j], u.pid) == 0
    ensures Holds(Apply(h, Write(u.pid, PageOf(u))), u)
  {
    KidsHeld(h, Apply(h, Write(u.pid, PageOf(u))), u.kids, u.pid);
  }

  // So does writing its two halves, the right one first and on a new page.
  lemma HalvesWritten(h: seq<Page>, u: Tree)
    requires u.Node? && u.pid < |h| && |u.kids| == |u.keys| + 1 && u.keys != []
    requires forall j :: 0 <= j < |u.kids| ==> Holds(h, u.kids[j]) && Uses(u.kids[j], u.pid) == 0
    ensures var left, right := LeftHalf(u), RightHalf(u, |h|);
      var g := Apply(Apply(h, Write(|h|, PageOf(right))), Write(u.pid, PageOf(left)));
      Holds(g, left) && Holds(g, right)
  {
    var left, right := LeftHalf(u), RightHalf(u, |h|);
    var g := Apply(Apply(h, Write(|h|, PageOf(right))), Write(u.pid, PageOf(left)));
    KidsHeld(h, g, left.kids, u.pid);
    KidsHeld(h, g, right.kids, u.pid);
  }

  // The writes of an internal node, after those of its split child.
  lemma InnerWrites(f: seq<Page>, h: seq<Page>, t: Tree, i: nat, d: Ins, fan: Fan)
    requires t.Node? && i < |t.kids| == |t.keys| + 1 && t.pid < |f| <= |h|
    requires d.Split? && h == ApplyAll(f, d.ws) && |h| == d.size && HeldIns(h, d)
    requires Uses(d.left, t.pid) == 0 == Uses(d.right, t.pid) && Untouched(f, h, t)
    requires forall j :: 0 <= j < |t.kids| && j != i ==> Holds(h, t.kids[j]) && Uses(t.kids[j], t.pid) == 0
    ensures var c := InnerInsert(t, i, d, fan);
      var g := ApplyAll(f, c.ws);
      |g| == c.size && HeldIns(g, c) && Untouched(f, g, t)
  {
    WidenedHeld(h, t, i, d.left, d.sep, d.right, t.pid);
    var u := Widened(t, i, d.left, d.sep, d.right);
    if |u.keys| <= fan.innerMax {
      ApplyOneMore(f, d.ws, Write(t.pid, PageOf(u)));
      NodeWritten(h, u);
      UntouchedMore(f, h, Apply(h, Write(t.pid, PageOf(u))), t);
    } else {
      var v, w := Write(d.size, PageOf(RightHalf(u, d.size))), Write(t.pid, PageOf(LeftHalf(u)));
      ApplyTwoMore(f, d.ws, v, w);
      HalvesWritten(h, u);
      UntouchedMore(f, h, Apply(Apply(h, v), w), t);
    }
  }

  lemma UntouchedMore(f: seq<Page>, h: seq<Page>, g: seq<Page>, t: Tree)
    requires Untouched(f, h, t) && |h| <= |g|
    requires forall p: nat :: p < |f| && p != t.pid ==> g[p] == h[p]
    ensures Untouched(f, g, t)
  {
    assert Uses(t, t.pid) > 0;
  }
}
