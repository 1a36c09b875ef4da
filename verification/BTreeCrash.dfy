// One insert is a sequence of page writes; this is about the file after any
// prefix of them.
module BTreeCrash {
  import opened Wrappers
  import opened BTreeModel
  import opened BTreeMap
  import opened BTreePages
  import opened BTreeChain
  import opened BTreeFile

  // Some write of ws goes to a page that existed when the file had n pages.
  predicate OldTouched(ws: seq<Write>, n: nat) {
    exists i :: 0 <= i < |ws| && ws[i].pid < n
  }

  // Keys search cannot reach: a half-open range whose bindings all sit in a
  // subtree that is on disk, complete and ordered, but that nothing points to yet.
  datatype Lost = Nothing | Unlinked(from: int, to: int, orphan: Tree)

  ghost predicate LostIs(lost: Lost, c: Ins, fp: seq<Page>, n: nat, lo: int, hi: int)
    requires !c.Dup?
  {
    lost.Unlinked? ==>
      && lo < lost.from < lost.to <= hi
      && n <= lost.orphan.pid && Holds(fp, lost.orphan)
      && Ordered(lost.orphan, Height(lost.orphan), lost.from, lost.to)
      && forall x :: lost.from <= x < lost.to ==> Lookup(lost.orphan, x) == Found(c, x)
  }

  predicate IsLost(lost: Lost, x: int) {
    lost.Unlinked? && lost.from <= x < lost.to
  }

  // What the subtree reached at the old page shows after the writes ws of
  // insertion c into t.
  ghost predicate Shows(tp: Tree, t: Tree, c: Ins, lost: Lost, ws: seq<Write>, n: nat, lo: int, hi: int)
    requires !c.Dup?
  {
    forall x :: lo <= x < hi ==>
      Lookup(tp, x) == if !OldTouched(ws, n) then Lookup(t, x) else if IsLost(lost, x) then None else Found(c, x)
  }

  // After the writes ws, fp holds at t's page an ordered tree tp of t's height
  // that shows t before the first write to an existing page, and the outcome c
  // of the insertion short of the lost range after it.
  ghost predicate CrashState(fp: seq<Page>, ws: seq<Write>, n: nat, t: Tree, c: Ins, h: nat, lo: int, hi: int,
                             tp: Tree, lost: Lost)
    requires !c.Dup?
  {
    && Holds(fp, tp) && tp.pid == t.pid && Ordered(tp, h, lo, hi)
    && LostIs(lost, c, fp, n, lo, hi) && Shows(tp, t, c, lost, ws, n, lo, hi)
  }

  // ------------------------------------------------------------------
  // Prefixes of the writes
  // ------------------------------------------------------------------

  predicate WritesInto(ws: seq<Write>, t: Tree, n: nat) {
    forall i :: 0 <= i < |ws| ==> n <= ws[i].pid || Uses(t, ws[i].pid) > 0
  }

  lemma {:induction false} InsertWritesInto(t: Tree, k: int, r: Rid, n: nat, fan: Fan)
    requires Shaped(t) && !Insert(t, k, r, n, fan).Dup?
    ensures WritesInto(Insert(t, k, r, n, fan).ws, t, n)
    decreases t
  {
    if t.Leaf? {
    } else {
      var i := ChildIndex(t.keys, k);
      InsertWritesInto(t.kids[i], k, r, n, fan);
      InsertSize(t.kids[i], k, r, n, fan);
      ChildWrites(t, i, Insert(t.kids[i], k, r, n, fan).ws, n);
    }
  }

  lemma ChildWrites(t: Tree, i: nat, ws: seq<Write>, n: nat)
    requires t.Node? && i < |t.kids| && WritesInto(ws, t.kids[i], n)
    ensures WritesInto(ws, t, n)
  {
    hide Uses;
    forall j | 0 <= j < |ws| ensures n <= ws[j].pid || Uses(t, ws[j].pid) > 0 {
      ChildUses(t, i, ws[j].pid);
    }
  }

  lemma {:induction false} WritesUntouched(f: seq<Page>, ws: seq<Write>, t: Tree)
    requires WritesInto(ws, t, |f|)
    ensures Untouched(f, ApplyAll(f, ws), t)
    decreases ws
  {
    if ws == [] {
    } else {
      WritesUntouched(f, ws[..|ws| - 1], t);
    }
  }

  // Any prefix of the writes leaves every other page of the file alone.
  lemma PrefixUntouched(f: seq<Page>, t: Tree, k: int, r: Rid, fan: Fan, p: nat)
    requires Shaped(t) && !Insert(t, k, r, |f|, fan).Dup? && p <= |Insert(t, k, r, |f|, fan).ws|
    ensures Untouched(f, ApplyAll(f, Insert(t, k, r, |f|, fan).ws[..p]), t)
  {
    InsertWritesInto(t, k, r, |f|, fan);
    WritesUntouched(f, Insert(t, k, r, |f|, fan).ws[..p], t);
  }

  // A completed insertion has written an existing page, last of all.
  lemma {:induction false} LastWriteIsOld(f: seq<Page>, t: Tree, k: int, r: Rid, fan: Fan)
    requires Shaped(t) && Holds(f, t) && !Insert(t, k, r, |f|, fan).Dup?
    ensures var ws := Insert(t, k, r, |f|, fan).ws; ws != [] && ws[|ws| - 1].pid < |f|
    decreases t
  {
    if t.Leaf? {
    } else {
      LastWriteIsOld(f, t.kids[ChildIndex(t.keys, k)], k, r, fan);
    }
  }

  // ------------------------------------------------------------------
  // Through a node
  // ------------------------------------------------------------------

  // What an insertion shows at a node is what it shows at the child it went to.
  lemma FoundThroughNode(t: Tree, k: int, r: Rid, n: nat, fan: Fan, h: nat, lo: int, hi: int, x: int)
    requires t.Node? && Ordered(t, h, lo, hi) && Shaped(t) && lo <= k < hi && lo <= x < hi
    requires fan.leafMax >= 1 && fan.innerMax >= 1 && !Insert(t, k, r, n, fan).Dup?
    ensures var i := ChildIndex(t.keys, k);
      Found(Insert(t, k, r, n, fan), x) ==
      if LowOf(t.keys, lo, i) <= x < HighOf(t.keys, hi, i) then Found(Insert(t.kids[i], k, r, n, fan), x)
      else Lookup(t, x)
  {
    hide Lookup, InnerInsert, LeafInsert;
    var i := ChildIndex(t.keys, k);
    var d := Insert(t.kids[i], k, r, n, fan);
    if d.Done? {
      ReplacedLookup(t, h, lo, hi, i, d.t, x);
    } else {
      InsertRefinesMap(t.kids[i], k, r, n, fan, h - 1, LowOf(t.keys, lo, i), HighOf(t.keys, hi, i));
      InnerRefines(t, i, d, fan, h, lo, hi);
    }
  }

  // A state of child i after some writes, seen at the node, whose own page has
  // not been written.
  lemma SeenAtNode(f: seq<Page>, t: Tree, k: int, r: Rid, fan: Fan, h: nat, lo: int, hi: int,
                   cp: Tree, lost: Lost, ws: seq<Write>)
      returns (tp: Tree)
    requires t.Node? && Ordered(t, h, lo, hi) && Shaped(t) && lo <= k < hi
    requires fan.leafMax >= 1 && fan.innerMax >= 1 && !Insert(t, k, r, |f|, fan).Dup?
    requires Holds(f, t) && Disjoint(t)
    requires var i := ChildIndex(t.keys, k);
      var d := Insert(t.kids[i], k, r, |f|, fan);
      var fp := ApplyAll(f, ws);
      var l, u := LowOf(t.keys, lo, i), HighOf(t.keys, hi, i);
      Untouched(f, fp, t.kids[i]) && CrashState(fp, ws, |f|, t.kids[i], d, h - 1, l, u, cp, lost)
    ensures CrashState(ApplyAll(f, ws), ws, |f|, t, Insert(t, k, r, |f|, fan), h, lo, hi, tp, lost)
  {
    var i := ChildIndex(t.keys, k);
    var c := Insert(t, k, r, |f|, fan);
    var fp := ApplyAll(f, ws);
    tp := Node(t.pid, t.keys, t.kids[i := cp]);
    SiblingsHeld(f, fp, t, i);
    assert KidPids(tp.kids) == KidPids(t.kids);
    ReplacedOrdered(t, h, lo, hi, i, cp);
    forall x | lo <= x < hi
      ensures Lookup(tp, x) == if !OldTouched(ws, |f|) then Lookup(t, x) else if IsLost(lost, x) then None
                                                                              else Found(c, x)
    {
      FoundThroughNode(t, k, r, |f|, fan, h, lo, hi, x);
      ReplacedLookup(t, h, lo, hi, i, cp, x);
      InRangeIff(t.keys, lo, hi, i, x);
    }
    if lost.Unlinked? {
      forall x | lost.from <= x < lost.to ensures Lookup(lost.orphan, x) == Found(c, x) {
        FoundThroughNode(t, k, r, |f|, fan, h, lo, hi, x);
      }
    }
  }

  // The state once a split is fully written but not linked: the left part is
  // reached, the right part is not.
  lemma SplitShown(f: seq<Page>, fp: seq<Page>, t: Tree, c: Ins, ws: seq<Write>, h: nat, lo: int, hi: int)
    requires c.Split? && OrderedIns(c, h, lo, hi) && HeldIns(fp, c) && OldTouched(ws, |f|) && |f| <= c.right.pid
    ensures var lost := Unlinked(c.sep, hi, c.right);
      LostIs(lost, c, fp, |f|, lo, hi) && Shows(c.left, t, c, lost, ws, |f|, lo, hi)
      && Ordered(c.left, h, lo, hi)
  {
    OrderedHeight(c.right, h, c.sep, hi);
    LoosenHigh(c.left, h, lo, c.sep, hi);
    forall x | c.sep <= x < hi ensures Lookup(c.left, x) == None {
      OutOfRange(c.left, h, lo, c.sep, x);
    }
  }

  lemma {:induction false} LoosenHigh(t: Tree, h: nat, lo: int, mid: int, hi: int)
    requires Ordered(t, h, lo, mid) && mid <= hi
    ensures Ordered(t, h, lo, hi)
    decreases h
  {
    if t.Leaf? {
    } else {
      var i := |t.keys|;
      LoosenHigh(t.kids[i], h - 1, LowOf(t.keys, lo, i), mid, hi);
    }
  }

  lemma {:induction false} RightIsFresh(t: Tree, k: int, r: Rid, n: nat, fan: Fan)
    requires Shaped(t) && Insert(t, k, r, n, fan).Split?
    ensures n <= Insert(t, k, r, n, fan).right.pid
  {
    if t.Node? {
      InsertSize(t.kids[ChildIndex(t.keys, k)], k, r, n, fan);
    }
  }

  // ------------------------------------------------------------------
  // The main result for a subtree
  // ------------------------------------------------------------------

  lemma {:induction false} CrashBelow(f: seq<Page>, t: Tree, k: int, r: Rid, fan: Fan, h: nat, lo: int, hi: int, p: nat)
      returns (tp: Tree, lost: Lost)
    requires Ordered(t, h, lo, hi) && Shaped(t) && lo <= k < hi && fan.leafMax >= 1 && fan.innerMax >= 1
    requires Holds(f, t) && Disjoint(t)
    requires !Insert(t, k, r, |f|, fan).Dup? && p <= |Insert(t, k, r, |f|, fan).ws|
    ensures var c := Insert(t, k, r, |f|, fan);
      && CrashState(ApplyAll(f, c.ws[..p]), c.ws[..p], |f|, t, c, h, lo, hi, tp, lost)
      && (p == |c.ws| && c.Done? ==> lost.Nothing?)
    decreases h, 1
  {
    var c := Insert(t, k, r, |f|, fan);
    if p == |c.ws| {
      assert c.ws[..p] == c.ws;
      tp, lost := CrashComplete(f, t, k, r, fan, h, lo, hi);
    } else if t.Leaf? {
      tp, lost := t, Nothing;
      PrefixOfLeaf(f, t, c, p);
    } else {
      tp, lost := CrashAtNode(f, t, k, r, fan, h, lo, hi, p);
    }
  }

  lemma {:induction false} CrashAtNode(f: seq<Page>, t: Tree, k: int, r: Rid, fan: Fan, h: nat, lo: int, hi: int,
                                       p: nat)
      returns (tp: Tree, lost: Lost)
    requires Ordered(t, h, lo, hi) && Shaped(t) && lo <= k < hi && fan.leafMax >= 1 && fan.innerMax >= 1
    requires Holds(f, t) && Disjoint(t) && t.Node?
    requires !Insert(t, k, r, |f|, fan).Dup? && p < |Insert(t, k, r, |f|, fan).ws|
    ensures var c := Insert(t, k, r, |f|, fan);
      CrashState(ApplyAll(f, c.ws[..p]), c.ws[..p], |f|, t, c, h, lo, hi, tp, lost)
    decreases h, 0
  {
    hide CrashState, ApplyAll;
    var i := ChildIndex(t.keys, k);
    var l, u := LowOf(t.keys, lo, i), HighOf(t.keys, hi, i);
    ChildDisjoint(t, i);
    var cp;
    cp, lost := CrashBelow(f, t.kids[i], k, r, fan, h - 1, l, u, ChildPrefix(t, k, r, |f|, fan, p));
    ChildStateAt(f, t, k, r, fan, h - 1, l, u, p, cp, lost);
    tp := SeenAtNode(f, t, k, r, fan, h, lo, hi, cp, lost, Insert(t, k, r, |f|, fan).ws[..p]);
  }

  // How many of the first p writes at a node are its child's.
  function ChildPrefix(t: Tree, k: int, r: Rid, n: nat, fan: Fan, p: nat): (q: nat)
    requires t.Node? && Shaped(t)
    requires var d := Insert(t.kids[ChildIndex(t.keys, k)], k, r, n, fan); !d.Dup?
    ensures q <= |Insert(t.kids[ChildIndex(t.keys, k)], k, r, n, fan).ws|
  {
    var m := |Insert(t.kids[ChildIndex(t.keys, k)], k, r, n, fan).ws|;
    if p <= m then p else m
  }

  // A node's writes are its child's, then at most two of its own.
  lemma NodeWrites(t: Tree, k: int, r: Rid, n: nat, fan: Fan, p: nat)
    requires t.Node? && Shaped(t) && !Insert(t, k, r, n, fan).Dup? && p < |Insert(t, k, r, n, fan).ws|
    ensures var c, d := Insert(t, k, r, n, fan), Insert(t.kids[ChildIndex(t.keys, k)], k, r, n, fan);
      && |d.ws| <= |c.ws|
      && (p <= |d.ws| ==> c.ws[..p] == d.ws[..p])
      && (p > |d.ws| ==> c.Split? && p == |d.ws| + 1)
      && !d.Dup?
  {
  }

  // The child's state after the writes it has seen is its state after the
  // node's first p.
  lemma ChildStateAt(f: seq<Page>, t: Tree, k: int, r: Rid, fan: Fan, h: nat, l: int, u: int, p: nat, cp: Tree,
                     lost: Lost)
    requires t.Node? && Shaped(t) && Holds(f, t) && Disjoint(t)
    requires !Insert(t, k, r, |f|, fan).Dup? && p < |Insert(t, k, r, |f|, fan).ws|
    requires var i := ChildIndex(t.keys, k);
      var d := Insert(t.kids[i], k, r, |f|, fan);
      var ws := d.ws[..ChildPrefix(t, k, r, |f|, fan, p)];
      CrashState(ApplyAll(f, ws), ws, |f|, t.kids[i], d, h, l, u, cp, lost)
    ensures var i := ChildIndex(t.keys, k);
      var d := Insert(t.kids[i], k, r, |f|, fan);
      var ws := Insert(t, k, r, |f|, fan).ws[..p];
      Untouched(f, ApplyAll(f, ws), t.kids[i]) && CrashState(ApplyAll(f, ws), ws, |f|, t.kids[i], d, h, l, u, cp, lost)
  {
    hide Insert, CrashState, ApplyAll, Untouched, Holds, Disjoint;
    var i := ChildIndex(t.keys, k);
    var d := Insert(t.kids[i], k, r, |f|, fan);
    NodeWrites(t, k, r, |f|, fan, p);
    if p <= |d.ws| {
      PrefixUntouched(f, t.kids[i], k, r, fan, p);
    } else {
      assert d.ws[..|d.ws|] == d.ws;
      RightWritten(f, t, k, r, fan, h, l, u, cp, lost);
    }
  }

  lemma CrashComplete(f: seq<Page>, t: Tree, k: int, r: Rid, fan: Fan, h: nat, lo: int, hi: int)
      returns (tp: Tree, lost: Lost)
    requires Ordered(t, h, lo, hi) && Shaped(t) && lo <= k < hi && fan.leafMax >= 1 && fan.innerMax >= 1
    requires Holds(f, t) && Disjoint(t) && !Insert(t, k, r, |f|, fan).Dup?
    ensures var c := Insert(t, k, r, |f|, fan);
      CrashState(ApplyAll(f, c.ws), c.ws, |f|, t, c, h, lo, hi, tp, lost) && (c.Done? ==> lost.Nothing?)
  {
    var c := Insert(t, k, r, |f|, fan);
    InsertRefinesMap(t, k, r, |f|, fan, h, lo, hi);
    InsertWrites(f, t, k, r, fan);
    InsertSize(t, k, r, |f|, fan);
    LastWriteIsOld(f, t, k, r, fan);
    assert OldTouched(c.ws, |f|);
    if c.Done? {
      tp, lost := c.t, Nothing;
    } else {
      tp, lost := c.left, Unlinked(c.sep, hi, c.right);
      RightIsFresh(t, k, r, |f|, fan);
      SplitShown(f, ApplyAll(f, c.ws), t, c, c.ws, h, lo, hi);
    }
  }

  // Before a leaf's last write only a new page can have been written.
  lemma PrefixOfLeaf(f: seq<Page>, t: Tree, c: Ins, p: nat)
    requires t.Leaf? && Holds(f, t) && LeafIns(t, c, |f|) && p < |c.ws|
    ensures !OldTouched(c.ws[..p], |f|) && Holds(ApplyAll(f, c.ws[..p]), t)
  {
    if p == 1 {
      assert c.ws[..1] == [] + [c.ws[0]];
      ApplyOneMore(f, [], c.ws[0]);
    }
  }

  // g is f with pages appended.
  predicate Extends(f: seq<Page>, g: seq<Page>) {
    |f| <= |g| && forall j: nat :: j < |f| ==> g[j] == f[j]
  }

  // One more write of a new page, after a completed subtree insertion: the file
  // grows, and existing pages have been written before.
  lemma OneMoreAppends(f: seq<Page>, t: Tree, k: int, r: Rid, fan: Fan, w: Write)
    requires Shaped(t) && Holds(f, t) && Disjoint(t) && !Insert(t, k, r, |f|, fan).Dup?
    requires w.pid == Insert(t, k, r, |f|, fan).size
    ensures var ws := Insert(t, k, r, |f|, fan).ws;
      && Extends(ApplyAll(f, ws), ApplyAll(f, ws + [w]))
      && OldTouched(ws, |f|) && OldTouched(ws + [w], |f|)
  {
    var ws := Insert(t, k, r, |f|, fan).ws;
    ApplyOneMore(f, ws, w);
    InsertWrites(f, t, k, r, fan);
    LastWriteIsOld(f, t, k, r, fan);
    assert (ws + [w])[|ws| - 1] == ws[|ws| - 1];
  }

  lemma StateStays(f: seq<Page>, v: seq<Write>, w: seq<Write>, t: Tree, c: Ins, h: nat, lo: int, hi: int, tp: Tree,
                   lost: Lost)
    requires !c.Dup? && CrashState(ApplyAll(f, v), v, |f|, t, c, h, lo, hi, tp, lost)
    requires OldTouched(v, |f|) && OldTouched(w, |f|) && Extends(ApplyAll(f, v), ApplyAll(f, w))
    ensures CrashState(ApplyAll(f, w), w, |f|, t, c, h, lo, hi, tp, lost)
  {
    Frame(ApplyAll(f, v), ApplyAll(f, w), tp);
    if lost.Unlinked? {
      Frame(ApplyAll(f, v), ApplyAll(f, w), lost.orphan);
    }
  }

  // A node only splits when its child has.
  lemma ChildSplits(t: Tree, k: int, r: Rid, n: nat, fan: Fan)
    requires t.Node? && Shaped(t) && Insert(t, k, r, n, fan).Split?
    ensures var c, d := Insert(t, k, r, n, fan), Insert(t.kids[ChildIndex(t.keys, k)], k, r, n, fan);
      d.Split? && |c.ws| == |d.ws| + 2
  {
  }

  // The write of a splitting node's right half.
  lemma RightAppends(f: seq<Page>, t: Tree, k: int, r: Rid, fan: Fan)
    requires t.Node? && Shaped(t) && Holds(f, t) && Disjoint(t) && Insert(t, k, r, |f|, fan).Split?
    ensures var d := Insert(t.kids[ChildIndex(t.keys, k)], k, r, |f|, fan);
      var ws := Insert(t, k, r, |f|, fan).ws[..|d.ws| + 1];
      && d.ws[..|d.ws|] == d.ws
      && Extends(ApplyAll(f, d.ws), ApplyAll(f, ws))
      && OldTouched(d.ws, |f|) && OldTouched(ws, |f|)
  {
    var i := ChildIndex(t.keys, k);
    var d := Insert(t.kids[i], k, r, |f|, fan);
    var w := Insert(t, k, r, |f|, fan).ws[|d.ws|];
    ChildDisjoint(t, i);
    OneMoreAppends(f, t.kids[i], k, r, fan, w);
    assert Insert(t, k, r, |f|, fan).ws[..|d.ws| + 1] == d.ws + [w];
  }

  // A splitting node has written its right half, on a new page, but not yet its
  // own: its child is as it was before that write.
  lemma RightWritten(f: seq<Page>, t: Tree, k: int, r: Rid, fan: Fan, h: nat, l: int, u: int, cp: Tree, lost: Lost)
    requires t.Node? && Shaped(t) && Holds(f, t) && Disjoint(t) && Insert(t, k, r, |f|, fan).Split?
    requires var i := ChildIndex(t.keys, k);
      var d := Insert(t.kids[i], k, r, |f|, fan);
      CrashState(ApplyAll(f, d.ws), d.ws, |f|, t.kids[i], d, h, l, u, cp, lost)
    ensures var i := ChildIndex(t.keys, k);
      var d := Insert(t.kids[i], k, r, |f|, fan);
      var ws := Insert(t, k, r, |f|, fan).ws[..|d.ws| + 1];
      && Untouched(f, ApplyAll(f, ws), t.kids[i])
      && CrashState(ApplyAll(f, ws), ws, |f|, t.kids[i], d, h, l, u, cp, lost)
  {
    var i := ChildIndex(t.keys, k);
    var d := Insert(t.kids[i], k, r, |f|, fan);
    hide ApplyAll, CrashState, OldTouched, Extends, Untouched, Insert;
    ChildSplits(t, k, r, |f|, fan);
    ChildDisjoint(t, i);
    RightAppends(f, t, k, r, fan);
    PrefixUntouched(f, t.kids[i], k, r, fan, |d.ws|);
    StateStays(f, d.ws, Insert(t, k, r, |f|, fan).ws[..|d.ws| + 1], t.kids[i], d, h, l, u, cp, lost);
  }

  // ------------------------------------------------------------------
  // The main results for a file
  // ------------------------------------------------------------------

  ghost predicate RootLostIs(lost: Lost, t: Tree, fp: seq<Page>, n: nat, lo: int, hi: int) {
    lost.Unlinked? ==>
      && lo < lost.from < lost.to <= hi
      && n <= lost.orphan.pid && Holds(fp, lost.orphan)
      && Ordered(lost.orphan, Height(lost.orphan), lost.from, lost.to)
      && forall x :: lost.from <= x < lost.to ==> Lookup(lost.orphan, x) == Lookup(t, x)
  }

  // What search finds in a tree reached after the writes ws of an insert that
  // takes t to u.
  function Surviving(t: Tree, u: Tree, lost: Lost, ws: seq<Write>, n: nat, x: int): Option<Rid> {
    if !OldTouched(ws, n) then Lookup(t, x) else if IsLost(lost, x) then None else Lookup(u, x)
  }

  // The file after the first p page writes of an insert. The header names the
  // root of an ordered tree of equal leaf depth. Search is unchanged until the
  // first write to an existing page; from then on it sees the outcome of the
  // insert except for one range of keys, whose bindings are all on disk in a
  // complete subtree that no parent and no header points to yet.
  lemma CrashPrefix(f: seq<Page>, t: Tree, k: int, r: Rid, fan: Fan, lo: int, hi: int, p: nat)
      returns (tp: Tree, lost: Lost)
    requires TreeFile(f, t, fan, lo, hi) && Shaped(t) && lo <= k < hi
    requires InsertAtRoot(t, k, r, |f|, fan).RootDone? && p <= |InsertAtRoot(t, k, r, |f|, fan).ws|
    ensures var c := InsertAtRoot(t, k, r, |f|, fan);
      var fp := ApplyAll(f, c.ws[..p]);
      && fp[0] == HeaderPage(tp.pid) && Holds(fp, tp) && Ordered(tp, Height(tp), lo, hi)
      && RootLostIs(lost, c.t, fp, |f|, lo, hi)
      && (forall x :: Lookup(tp, x) == Surviving(t, c.t, lost, c.ws[..p], |f|, x))
      && (p == |c.ws| ==> tp == c.t && lost.Nothing?)
  {
    var c := InsertAtRoot(t, k, r, |f|, fan);
    TreeFileShape(f, t, fan, lo, hi);
    CompletedInsert(f, t, k, r, fan, lo, hi);
    if p == |c.ws| {
      assert c.ws[..p] == c.ws;
      tp, lost := c.t, Nothing;
      LastWriteIsOld(f, t, k, r, fan);
      RootTouches(f, t, k, r, fan);
    } else {
      tp, lost := CrashBeforeLast(f, t, k, r, fan, lo, hi, p);
      StateAtRoot(f, t, k, r, fan, lo, hi, c.ws[..p], tp, lost);
    }
  }

  lemma RootTouches(f: seq<Page>, t: Tree, k: int, r: Rid, fan: Fan)
    requires Shaped(t) && Holds(f, t) && |f| > 0 && InsertAtRoot(t, k, r, |f|, fan).RootDone?
    ensures OldTouched(InsertAtRoot(t, k, r, |f|, fan).ws, |f|)
  {
    hide Insert, Holds, Shaped;
    LastWriteIsOld(f, t, k, r, fan);
    var ws := InsertAtRoot(t, k, r, |f|, fan).ws;
    assert ws[|ws| - 1].pid < |f|;
  }

  // The state at the old root's page, as the header sees it.
  lemma CrashBeforeLast(f: seq<Page>, t: Tree, k: int, r: Rid, fan: Fan, lo: int, hi: int, p: nat)
      returns (tp: Tree, lost: Lost)
    requires TreeFile(f, t, fan, lo, hi) && Shaped(t) && Disjoint(t) && lo <= k < hi
    requires InsertAtRoot(t, k, r, |f|, fan).RootDone? && p < |InsertAtRoot(t, k, r, |f|, fan).ws|
    ensures var ws := InsertAtRoot(t, k, r, |f|, fan).ws[..p];
      var fp := ApplyAll(f, ws);
      fp[0] == f[0] && CrashState(fp, ws, |f|, t, Insert(t, k, r, |f|, fan), Height(t), lo, hi, tp, lost)
  {
    hide CrashState, ApplyAll, Insert;
    var d := Insert(t, k, r, |f|, fan);
    RootWrites(t, k, r, |f|, fan, p);
    if p <= |d.ws| {
      tp, lost := CrashBelow(f, t, k, r, fan, Height(t), lo, hi, p);
      HeaderStays(f, t, k, r, fan, p);
    } else {
      tp, lost := NewRootUnlinked(f, t, k, r, fan, Height(t), lo, hi);
    }
  }

  // An insert's writes are those below the root, then at most the new root and
  // the header.
  lemma RootWrites(t: Tree, k: int, r: Rid, n: nat, fan: Fan, p: nat)
    requires Shaped(t) && InsertAtRoot(t, k, r, n, fan).RootDone? && p < |InsertAtRoot(t, k, r, n, fan).ws|
    ensures var c, d := InsertAtRoot(t, k, r, n, fan), Insert(t, k, r, n, fan);
      && |d.ws| <= |c.ws|
      && (p <= |d.ws| ==> c.ws[..p] == d.ws[..p])
      && (p > |d.ws| ==> d.Split? && p == |d.ws| + 1)
  {
  }

  lemma HeaderStays(f: seq<Page>, t: Tree, k: int, r: Rid, fan: Fan, p: nat)
    requires Shaped(t) && !Insert(t, k, r, |f|, fan).Dup? && p <= |Insert(t, k, r, |f|, fan).ws|
    requires |f| > 0 && Uses(t, 0) == 0
    ensures ApplyAll(f, Insert(t, k, r, |f|, fan).ws[..p])[0] == f[0]
  {
    PrefixUntouched(f, t, k, r, fan, p);
  }

  lemma StateAtRoot(f: seq<Page>, t: Tree, k: int, r: Rid, fan: Fan, lo: int, hi: int, ws: seq<Write>, tp: Tree,
                    lost: Lost)
    requires TreeFile(f, t, fan, lo, hi) && Shaped(t) && lo <= k < hi && InsertAtRoot(t, k, r, |f|, fan).RootDone?
    requires CrashState(ApplyAll(f, ws), ws, |f|, t, Insert(t, k, r, |f|, fan), Height(t), lo, hi, tp, lost)
    ensures var u := InsertAtRoot(t, k, r, |f|, fan).t;
      && Ordered(tp, Height(tp), lo, hi)
      && RootLostIs(lost, u, ApplyAll(f, ws), |f|, lo, hi)
      && forall x :: Lookup(tp, x) == Surviving(t, u, lost, ws, |f|, x)
  {
    var u := InsertAtRoot(t, k, r, |f|, fan).t;
    OrderedHeight(tp, Height(t), lo, hi);
    forall x ensures Lookup(tp, x) == Surviving(t, u, lost, ws, |f|, x) {
      SurvivingAtRoot(t, tp, k, r, |f|, fan, Height(t), lo, hi, lost, ws, x);
    }
    if lost.Unlinked? {
      forall x | lost.from <= x < lost.to ensures Lookup(lost.orphan, x) == Lookup(u, x) {
        RootFound(t, k, r, |f|, fan, Height(t), lo, hi, x);
      }
    }
  }

  lemma RootFound(t: Tree, k: int, r: Rid, n: nat, fan: Fan, h: nat, lo: int, hi: int, x: int)
    requires Ordered(t, h, lo, hi) && Shaped(t) && lo <= k < hi && lo <= x < hi && fan.leafMax >= 1 && fan.innerMax >= 1
    requires InsertAtRoot(t, k, r, n, fan).RootDone?
    ensures Lookup(InsertAtRoot(t, k, r, n, fan).t, x) == Found(Insert(t, k, r, n, fan), x)
  {
    InsertRefinesMap(t, k, r, n, fan, h, lo, hi);
    InsertAtRootRefinesMap(t, k, r, n, fan, h, lo, hi);
  }

  lemma SurvivingAtRoot(t: Tree, tp: Tree, k: int, r: Rid, n: nat, fan: Fan, h: nat, lo: int, hi: int, lost: Lost,
                        ws: seq<Write>, x: int)
    requires Ordered(t, h, lo, hi) && Shaped(t) && lo <= k < hi && fan.leafMax >= 1 && fan.innerMax >= 1
    requires InsertAtRoot(t, k, r, n, fan).RootDone? && Ordered(tp, h, lo, hi)
    requires lost.Unlinked? ==> lo < lost.from < lost.to <= hi
    requires Shows(tp, t, Insert(t, k, r, n, fan), lost, ws, n, lo, hi)
    ensures Lookup(tp, x) == Surviving(t, InsertAtRoot(t, k, r, n, fan).t, lost, ws, n, x)
  {
    if lo <= x < hi {
      RootFound(t, k, r, n, fan, h, lo, hi, x);
    } else {
      OutOfRange(tp, h, lo, hi, x);
      OutOfRange(t, h, lo, hi, x);
      InsertAtRootRefinesMap(t, k, r, n, fan, h, lo, hi);
    }
  }

  // The new root page is written but the header still names the old root.
  lemma NewRootUnlinked(f: seq<Page>, t: Tree, k: int, r: Rid, fan: Fan, h: nat, lo: int, hi: int)
      returns (tp: Tree, lost: Lost)
    requires Ordered(t, h, lo, hi) && Shaped(t) && lo <= k < hi && fan.leafMax >= 1 && fan.innerMax >= 1
    requires Holds(f, t) && Disjoint(t) && Insert(t, k, r, |f|, fan).Split? && Uses(t, 0) == 0 && |f| > 0
    ensures var d := Insert(t, k, r, |f|, fan);
      var ws := GrowRoot(d).ws[..|d.ws| + 1];
      var fp := ApplyAll(f, ws);
      fp[0] == f[0] && CrashState(fp, ws, |f|, t, d, h, lo, hi, tp, lost)
  {
    var d := Insert(t, k, r, |f|, fan);
    var w := GrowRoot(d).ws[|d.ws|];
    tp, lost := CrashComplete(f, t, k, r, fan, h, lo, hi);
    assert GrowRoot(d).ws[..|d.ws| + 1] == d.ws + [w];
    InsertWrites(f, t, k, r, fan);
    OneMoreAppends(f, t, k, r, fan, w);
    StateStays(f, d.ws, d.ws + [w], t, d, h, lo, hi, tp, lost);
  }

  // ------------------------------------------------------------------
  // The chain after a prefix
  // ------------------------------------------------------------------

  // All the old leaves are in place, or all the new ones.
  predicate OldOrNew(fp: seq<Page>, ws: seq<Write>, n: nat, old': seq<Tree>, new': seq<Tree>) {
    if OldTouched(ws, n) then LeavesOn(fp, new') else LeavesOn(fp, old')
  }

  lemma {:induction false} LeavesBelow(f: seq<Page>, t: Tree, k: int, r: Rid, fan: Fan, p: nat)
    requires Shaped(t) && Holds(f, t) && Disjoint(t)
    requires !Insert(t, k, r, |f|, fan).Dup? && p <= |Insert(t, k, r, |f|, fan).ws|
    ensures var c := Insert(t, k, r, |f|, fan);
      OldOrNew(ApplyAll(f, c.ws[..p]), c.ws[..p], |f|, Leaves(t), LeavesOf(c))
    decreases t
  {
    var c := Insert(t, k, r, |f|, fan);
    if p == |c.ws| {
      assert c.ws[..p] == c.ws;
      LastWriteIsOld(f, t, k, r, fan);
      assert OldTouched(c.ws, |f|);
      InsertWrites(f, t, k, r, fan);
      HeldLeavesOf(ApplyAll(f, c.ws), c);
    } else if t.Leaf? {
      PrefixOfLeaf(f, t, c, p);
    } else {
      ChildDisjoint(t, ChildIndex(t.keys, k));
      LeavesBelow(f, t.kids[ChildIndex(t.keys, k)], k, r, fan, ChildPrefix(t, k, r, |f|, fan, p));
      LeavesAtNode(f, t, k, r, fan, p);
    }
  }

  lemma HeldLeavesOf(f: seq<Page>, c: Ins)
    requires !c.Dup? && HeldIns(f, c)
    ensures LeavesOn(f, LeavesOf(c))
  {
    if c.Done? {
      HeldLeaves(f, c.t);
    } else {
      HeldLeaves(f, c.left);
      HeldLeaves(f, c.right);
    }
  }

  lemma LeavesAtNode(f: seq<Page>, t: Tree, k: int, r: Rid, fan: Fan, p: nat)
    requires t.Node? && Shaped(t) && Holds(f, t) && Disjoint(t)
    requires !Insert(t, k, r, |f|, fan).Dup? && p < |Insert(t, k, r, |f|, fan).ws|
    requires var i := ChildIndex(t.keys, k);
      var d := Insert(t.kids[i], k, r, |f|, fan);
      var ws := d.ws[..ChildPrefix(t, k, r, |f|, fan, p)];
      OldOrNew(ApplyAll(f, ws), ws, |f|, Leaves(t.kids[i]), LeavesOf(d))
    ensures var c := Insert(t, k, r, |f|, fan);
      OldOrNew(ApplyAll(f, c.ws[..p]), c.ws[..p], |f|, Leaves(t), LeavesOf(c))
  {
    var d := Insert(t.kids[ChildIndex(t.keys, k)], k, r, |f|, fan);
    NodeWrites(t, k, r, |f|, fan, p);
    LeavesOfChildSeen(f, t, k, r, fan, ChildPrefix(t, k, r, |f|, fan, p));
    if p > |d.ws| {
      RightAppends(f, t, k, r, fan);
      var c := Insert(t, k, r, |f|, fan);
      LeavesStay(ApplyAll(f, d.ws), ApplyAll(f, c.ws[..p]), LeavesOf(c));
    }
  }

  lemma LeavesOfChildSeen(f: seq<Page>, t: Tree, k: int, r: Rid, fan: Fan, q: nat)
    requires t.Node? && Shaped(t) && Holds(f, t) && Disjoint(t) && !Insert(t, k, r, |f|, fan).Dup?
    requires q <= |Insert(t.kids[ChildIndex(t.keys, k)], k, r, |f|, fan).ws|
    requires var i := ChildIndex(t.keys, k);
      var d := Insert(t.kids[i], k, r, |f|, fan);
      OldOrNew(ApplyAll(f, d.ws[..q]), d.ws[..q], |f|, Leaves(t.kids[i]), LeavesOf(d))
    ensures var d := Insert(t.kids[ChildIndex(t.keys, k)], k, r, |f|, fan);
      OldOrNew(ApplyAll(f, d.ws[..q]), d.ws[..q], |f|, Leaves(t), LeavesOf(Insert(t, k, r, |f|, fan)))
  {
    var i := ChildIndex(t.keys, k);
    var d := Insert(t.kids[i], k, r, |f|, fan);
    ChildDisjoint(t, i);
    PrefixUntouched(f, t.kids[i], k, r, fan, q);
    LeavesSeenAtNode(f, ApplyAll(f, d.ws[..q]), t, i, d, fan);
  }

  lemma LeavesStay(f: seq<Page>, g: seq<Page>, ls: seq<Tree>)
    requires LeavesOn(f, ls) && Extends(f, g)
    ensures LeavesOn(g, ls)
  {
  }

  // Leaves in place below child i are in place at the node.
  lemma LeavesSeenAtNode(f: seq<Page>, g: seq<Page>, t: Tree, i: nat, d: Ins, fan: Fan)
    requires t.Node? && i < |t.kids| == |t.keys| + 1 && !d.Dup?
    requires Holds(f, t) && Disjoint(t) && Untouched(f, g, t.kids[i])
    ensures LeavesOn(g, Leaves(t.kids[i])) ==> LeavesOn(g, Leaves(t))
    ensures LeavesOn(g, LeavesOf(d)) ==>
              && (d.Done? ==> LeavesOn(g, Leaves(Node(t.pid, t.keys, t.kids[i := d.t]))))
              && (d.Split? ==> LeavesOn(g, LeavesOf(InnerInsert(t, i, d, fan))))
  {
    SiblingsHeld(f, g, t, i);
    HeldLeavesAll(g, t.kids[..i]);
    HeldLeavesAll(g, t.kids[i + 1..]);
    NodeLeaves(t, i, d, fan);
  }

  // After any prefix of the writes of an insert, walking the chain from page 1
  // still ends, and lists exactly the old bindings or exactly the new ones.
  lemma CrashChain(f: seq<Page>, t: Tree, k: int, r: Rid, fan: Fan, lo: int, hi: int, p: nat)
    requires TreeFile(f, t, fan, lo, hi) && Shaped(t) && lo <= k < hi
    requires InsertAtRoot(t, k, r, |f|, fan).RootDone? && p <= |InsertAtRoot(t, k, r, |f|, fan).ws|
    ensures var c := InsertAtRoot(t, k, r, |f|, fan);
      Chain(ApplyAll(f, c.ws[..p]), 1, if OldTouched(c.ws[..p], |f|) then Leaves(c.t) else Leaves(t))
  {
    var c := InsertAtRoot(t, k, r, |f|, fan);
    var fp := ApplyAll(f, c.ws[..p]);
    CompletedInsert(f, t, k, r, fan, lo, hi);
    TreeFileShape(f, t, fan, lo, hi);
    LeavesPastHeader(f, t, fan, lo, hi);
    LeavesPastHeader(ApplyAll(f, c.ws), c.t, fan, lo, hi);
    LeavesAtRoot(f, t, k, r, fan, p);
    LinkedIsChain(fp, if OldTouched(c.ws[..p], |f|) then Leaves(c.t) else Leaves(t));
  }

  lemma LeavesPastHeader(f: seq<Page>, t: Tree, fan: Fan, lo: int, hi: int)
    requires TreeFile(f, t, fan, lo, hi)
    ensures forall i :: 0 <= i < |Leaves(t)| ==> Leaves(t)[i].pid > 0
  {
    forall i | 0 <= i < |Leaves(t)| ensures Leaves(t)[i].pid > 0 {
      LeafUses(t, i);
      assert Uses(t, 0) == 0;
    }
  }

  lemma LeavesAtRoot(f: seq<Page>, t: Tree, k: int, r: Rid, fan: Fan, p: nat)
    requires Shaped(t) && Holds(f, t) && Disjoint(t) && |f| > 0
    requires InsertAtRoot(t, k, r, |f|, fan).RootDone? && p <= |InsertAtRoot(t, k, r, |f|, fan).ws|
    requires forall i :: 0 <= i < |Leaves(InsertAtRoot(t, k, r, |f|, fan).t)| ==>
               Leaves(InsertAtRoot(t, k, r, |f|, fan).t)[i].pid > 0
    ensures var c := InsertAtRoot(t, k, r, |f|, fan);
      OldOrNew(ApplyAll(f, c.ws[..p]), c.ws[..p], |f|, Leaves(t), Leaves(c.t))
  {
    var c, d := InsertAtRoot(t, k, r, |f|, fan), Insert(t, k, r, |f|, fan);
    RootLeaves(t, k, r, |f|, fan);
    if p <= |d.ws| {
      LeavesBelow(f, t, k, r, fan, p);
      PrefixBelowRoot(t, k, r, |f|, fan, p);
    } else {
      LeavesUnderNewRoot(f, t, k, r, fan, p - |d.ws|);
    }
  }

  lemma PrefixBelowRoot(t: Tree, k: int, r: Rid, n: nat, fan: Fan, p: nat)
    requires Shaped(t) && InsertAtRoot(t, k, r, n, fan).RootDone? && p <= |Insert(t, k, r, n, fan).ws|
    ensures p <= |InsertAtRoot(t, k, r, n, fan).ws|
    ensures InsertAtRoot(t, k, r, n, fan).ws[..p] == Insert(t, k, r, n, fan).ws[..p]
  {
  }

  lemma LeavesUnderNewRoot(f: seq<Page>, t: Tree, k: int, r: Rid, fan: Fan, j: nat)
    requires Shaped(t) && Holds(f, t) && Disjoint(t) && |f| > 0 && Insert(t, k, r, |f|, fan).Split? && 1 <= j <= 2
    requires forall l :: l in LeavesOf(Insert(t, k, r, |f|, fan)) ==> l.pid > 0
    ensures var d := Insert(t, k, r, |f|, fan);
      var ws := GrowRoot(d).ws[..|d.ws| + j];
      OldTouched(ws, |f|) && LeavesOn(ApplyAll(f, ws), LeavesOf(d))
  {
    hide Insert, Holds, LeavesOf, LeavesOn, ApplyAll, HeldIns, OldTouched, Disjoint, Shaped;
    var d := Insert(t, k, r, |f|, fan);
    assert OldTouched(GrowRoot(d).ws[..|d.ws| + j], |f|) by {
      LastWriteIsOld(f, t, k, r, fan);
      GrowRootTouched(d, |f|, j);
    }
    assert LeavesOn(ApplyAll(f, GrowRoot(d).ws[..|d.ws| + j]), LeavesOf(d)) by {
      InsertWrites(f, t, k, r, fan);
      RootKeepsLeaves(f, d, j);
    }
  }

  lemma RootKeepsLeaves(f: seq<Page>, d: Ins, j: nat)
    requires d.Split? && 1 <= j <= 2 && |ApplyAll(f, d.ws)| == d.size && d.size > 0
    requires HeldIns(ApplyAll(f, d.ws), d) && forall l :: l in LeavesOf(d) ==> l.pid > 0
    ensures LeavesOn(ApplyAll(f, GrowRoot(d).ws[..|d.ws| + j]), LeavesOf(d))
  {
    HeldLeavesOf(ApplyAll(f, d.ws), d);
    RootWritesKeep(f, d, j);
    LeavesPastZero(ApplyAll(f, d.ws), ApplyAll(f, GrowRoot(d).ws[..|d.ws| + j]), LeavesOf(d));
  }

  lemma GrowRootTouched(d: Ins, n: nat, j: nat)
    requires d.Split? && d.ws != [] && d.ws[|d.ws| - 1].pid < n && j <= 2
    ensures OldTouched(GrowRoot(d).ws[..|d.ws| + j], n)
  {
    assert GrowRoot(d).ws[..|d.ws| + j][|d.ws| - 1] == d.ws[|d.ws| - 1];
  }

  lemma LeavesPastZero(f: seq<Page>, g: seq<Page>, ls: seq<Tree>)
    requires LeavesOn(f, ls) && (forall l :: l in ls ==> l.pid > 0)
    requires |f| <= |g| && forall q: nat :: 0 < q < |f| ==> g[q] == f[q]
    ensures LeavesOn(g, ls)
  {
  }

  // The new root page and the header are not leaves of the tree.
  lemma RootWritesKeep(f: seq<Page>, d: Ins, j: nat)
    requires d.Split? && 1 <= j <= 2 && |ApplyAll(f, d.ws)| == d.size && d.size > 0
    ensures var ws := GrowRoot(d).ws[..|d.ws| + j];
      var fd, fp := ApplyAll(f, d.ws), ApplyAll(f, ws);
      |fd| <= |fp| && forall q: nat :: 0 < q < |fd| ==> fp[q] == fd[q]
  {
    var v := Write(d.size, PageOf(GrowRoot(d).t));
    var w := Write(0, HeaderPage(d.size));
    PrefixesOfTwo(d.ws, v, w);
    ApplyTwoMore(f, d.ws, v, w);
    ApplyOneMore(f, d.ws, v);
  }

  lemma PrefixesOfTwo<T>(a: seq<T>, v: T, w: T)
    ensures (a + [v, w])[..|a| + 1] == a + [v]
    ensures (a + [v, w])[..|a| + 2] == a + [v, w]
  {
  }
}
