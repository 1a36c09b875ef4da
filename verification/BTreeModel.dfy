// The B+Tree as a value: the tree the header reaches, the insertion into it, and
// the page writes that insertion performs, in order.
//
// Keys are the integers that encoded keys compare as (KeyCodec gives that
// reading of the stored bytes), so the order of keys is the order of int.
module BTreeModel {

  import opened Wrappers

  datatype Entry = Entry(key: int, rid: Rid)

  // What one page of an index file holds once decoded.
  datatype Page =
    | HeaderPage(root: nat)
    | LeafPage(entries: seq<Entry>, next: nat)
    | InnerPage(keys: seq<int>, children: seq<nat>)
    | BadPage

  datatype Write = Write(pid: nat, page: Page)

  // Fanout limits: entries in a leaf, separators in an internal node.
  datatype Fan = Fan(leafMax: nat, innerMax: nat)

  // A subtree with the page ids its nodes live on.
  datatype Tree =
    | Leaf(pid: nat, entries: seq<Entry>, next: nat)
    | Node(pid: nat, keys: seq<int>, kids: seq<Tree>)

  function KidPids(kids: seq<Tree>): (r: seq<nat>)
    ensures |r| == |kids|
  {
    seq(|kids|, i requires 0 <= i < |kids| => kids[i].pid)
  }

  function PageOf(t: Tree): Page {
    match t
    case Leaf(_, entries, next) => LeafPage(entries, next)
    case Node(_, keys, kids) => InnerPage(keys, KidPids(kids))
  }

  // One child more than separators, all the way down.
  predicate Shaped(t: Tree) {
    t.Node? ==> |t.kids| == |t.keys| + 1 && forall i :: 0 <= i < |t.kids| ==> Shaped(t.kids[i])
  }

  // ------------------------------------------------------------------
  // Search
  // ------------------------------------------------------------------

  // The first position whose separator is above k.
  function ChildIndex(keys: seq<int>, k: int, from: nat := 0): (i: nat)
    requires from <= |keys|
    ensures from <= i <= |keys|
    ensures forall j :: from <= j < i ==> keys[j] <= k
    ensures i < |keys| ==> k < keys[i]
    decreases |keys| - from
  {
    if from == |keys| || k < keys[from] then from else ChildIndex(keys, k, from + 1)
  }

  function LeafFind(entries: seq<Entry>, k: int): (r: Option<Rid>)
    ensures r == None <==> forall i :: 0 <= i < |entries| ==> entries[i].key != k
    ensures r.Some? ==> Entry(k, r.value) in entries
  {
    if entries == [] then None
    else if entries[0].key == k then Some(entries[0].rid)
    else LeafFind(entries[1..], k)
  }

  function Lookup(t: Tree, k: int): Option<Rid> {
    match t
    case Leaf(_, entries, _) => LeafFind(entries, k)
    case Node(_, keys, kids) =>
      var i := ChildIndex(keys, k);
      if i < |kids| then Lookup(kids[i], k) else None
  }

  // ------------------------------------------------------------------
  // Insertion
  // ------------------------------------------------------------------

  // What inserting into a subtree gives. `size` is the page count of the file
  // afterwards and `ws` the writes made, oldest first.
  datatype Ins =
    | Dup
    | Done(t: Tree, size: nat, ws: seq<Write>)
    | Split(left: Tree, sep: int, right: Tree, size: nat, ws: seq<Write>)

  // The first position whose key is at least k.
  function LowerBound(entries: seq<Entry>, k: int, from: nat := 0): (i: nat)
    requires from <= |entries|
    ensures from <= i <= |entries|
    ensures forall j :: from <= j < i ==> entries[j].key < k
    ensures i < |entries| ==> k <= entries[i].key
    decreases |entries| - from
  {
    if from == |entries| || k <= entries[from].key then from else LowerBound(entries, k, from + 1)
  }

  function Added(entries: seq<Entry>, k: int, r: Rid): seq<Entry> {
    var p := LowerBound(entries, k);
    entries[..p] + [Entry(k, r)] + entries[p..]
  }

  function LeafInsert(t: Tree, k: int, r: Rid, n: nat, fan: Fan): Ins
    requires t.Leaf?
  {
    var p := LowerBound(t.entries, k);
    if p < |t.entries| && t.entries[p].key == k then Dup
    else
      var es := Added(t.entries, k, r);
      if |es| <= fan.leafMax then
        var u := Leaf(t.pid, es, t.next);
        Done(u, n, [Write(t.pid, PageOf(u))])
      else
        var mid := |es| / 2;
        var right := Leaf(n, es[mid..], t.next);
        var left := Leaf(t.pid, es[..mid], n);
        Split(left, es[mid].key, right, n + 1, [Write(n, PageOf(right)), Write(t.pid, PageOf(left))])
  }

  // Node t after child i has split into left and right around sep.
  function Widened(t: Tree, i: nat, left: Tree, sep: int, right: Tree): (u: Tree)
    requires t.Node? && i < |t.kids| == |t.keys| + 1
    ensures u.Node? && u.pid == t.pid && |u.kids| == |u.keys| + 1 == |t.kids| + 1
  {
    Node(t.pid, t.keys[..i] + [sep] + t.keys[i..], t.kids[..i] + [left, right] + t.kids[i + 1..])
  }

  function LeftHalf(u: Tree): Tree
    requires u.Node? && |u.kids| == |u.keys| + 1
  {
    var mid := |u.keys| / 2;
    Node(u.pid, u.keys[..mid], u.kids[..mid + 1])
  }

  function RightHalf(u: Tree, pid: nat): Tree
    requires u.Node? && |u.kids| == |u.keys| + 1 && u.keys != []
  {
    var mid := |u.keys| / 2;
    Node(pid, u.keys[mid + 1..], u.kids[mid + 1..])
  }

  function InnerInsert(t: Tree, i: nat, c: Ins, fan: Fan): Ins
    requires t.Node? && i < |t.kids| == |t.keys| + 1 && c.Split?
  {
    var u := Widened(t, i, c.left, c.sep, c.right);
    if |u.keys| <= fan.innerMax then
      Done(u, c.size, c.ws + [Write(t.pid, PageOf(u))])
    else
      var left := LeftHalf(u);
      var right := RightHalf(u, c.size);
      Split(left, u.keys[|u.keys| / 2], right, c.size + 1,
            c.ws + [Write(c.size, PageOf(right)), Write(t.pid, PageOf(left))])
  }

  // Insertion of k -> r below t, in a file of n pages.
  function Insert(t: Tree, k: int, r: Rid, n: nat, fan: Fan): Ins
    requires Shaped(t)
  {
    match t
    case Leaf(_, _, _) => LeafInsert(t, k, r, n, fan)
    case Node(pid, keys, kids) =>
      var i := ChildIndex(keys, k);
      match Insert(kids[i], k, r, n, fan)
      case Dup => Dup
      case Done(c, size, ws) => Done(Node(pid, keys, kids[i := c]), size, ws)
      case Split(l, s, rt, size, ws) => InnerInsert(t, i, Split(l, s, rt, size, ws), fan)
  }

  // Insertion at the root: a split root gets a new root page, and the header is
  // rewritten last.
  datatype RootIns = RootDup | RootDone(t: Tree, size: nat, ws: seq<Write>)

  function GrowRoot(c: Ins): (r: RootIns)
    requires c.Split?
  {
    var root := Node(c.size, [c.sep], [c.left, c.right]);
    RootDone(root, c.size + 1, c.ws + [Write(c.size, PageOf(root)), Write(0, HeaderPage(c.size))])
  }

  function InsertAtRoot(t: Tree, k: int, r: Rid, n: nat, fan: Fan): RootIns
    requires Shaped(t)
  {
    match Insert(t, k, r, n, fan)
    case Dup => RootDup
    case Done(u, size, ws) => RootDone(u, size, ws)
    case Split(l, s, rt, size, ws) => GrowRoot(Split(l, s, rt, size, ws))
  }

  // ------------------------------------------------------------------
  // Order: sorted nodes, half-open key ranges, equal leaf depth
  // ------------------------------------------------------------------

  predicate Sorted(keys: seq<int>) {
    forall i, j :: 0 <= i < j < |keys| ==> keys[i] < keys[j]
  }

  predicate SortedEntries(es: seq<Entry>) {
    forall i, j :: 0 <= i < j < |es| ==> es[i].key < es[j].key
  }

  // The keys child i of a node over [lo, hi) may hold: [LowOf, HighOf).
  function LowOf(keys: seq<int>, lo: int, i: nat): int
    requires i <= |keys|
  {
    if i == 0 then lo else keys[i - 1]
  }

  function HighOf(keys: seq<int>, hi: int, i: nat): int
    requires i <= |keys|
  {
    if i == |keys| then hi else keys[i]
  }

  // t is an ordered tree of height h whose keys all lie in [lo, hi).
  predicate Ordered(t: Tree, h: nat, lo: int, hi: int)
    decreases h
  {
    match t
    case Leaf(_, es, _) =>
      h == 0 && SortedEntries(es) && forall i :: 0 <= i < |es| ==> lo <= es[i].key < hi
    case Node(_, keys, kids) =>
      && h > 0
      && |kids| == |keys| + 1
      && Sorted(keys)
      && (forall i :: 0 <= i < |keys| ==> lo < keys[i] < hi)
      && (forall i :: 0 <= i < |kids| ==> Ordered(kids[i], h - 1, LowOf(keys, lo, i), HighOf(keys, hi, i)))
  }

  lemma OrderedIsShaped(t: Tree, h: nat, lo: int, hi: int)
    requires Ordered(t, h, lo, hi)
    ensures Shaped(t)
    decreases h
  {
    if t.Node? {
      forall i | 0 <= i < |t.kids| ensures Shaped(t.kids[i]) {
        OrderedIsShaped(t.kids[i], h - 1, LowOf(t.keys, lo, i), HighOf(t.keys, hi, i));
      }
    }
  }

  // ChildIndex picks the only child whose range holds k.
  lemma ChildIndexRange(keys: seq<int>, k: int, lo: int, hi: int, i: nat)
    requires Sorted(keys) && i <= |keys|
    requires LowOf(keys, lo, i) <= k < HighOf(keys, hi, i)
    ensures ChildIndex(keys, k) == i
  {
  }

  lemma {:induction false} OutOfRange(t: Tree, h: nat, lo: int, hi: int, x: int)
    requires Ordered(t, h, lo, hi) && !(lo <= x < hi)
    ensures Lookup(t, x) == None
    decreases h
  {
    if t.Leaf? {
    } else {
      var i := ChildIndex(t.keys, x);
      OutOfRange(t.kids[i], h - 1, LowOf(t.keys, lo, i), HighOf(t.keys, hi, i), x);
    }
  }
}
