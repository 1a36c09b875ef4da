// The raw index file after any prefix of the page writes of an insert.
module IndexCrash {
  import opened Wrappers
  import opened Bytes
  import opened IndexPages
  import opened BPlusTreeFile
  import M = BTreeModel
  import F = BTreeFile
  import BTreePages
  import BTreeChain
  import BTreeCrash

  // The file after the first n writes logged past the log l0.
  function After(p0: seq<bytes>, l0: seq<RawWrite>, l: seq<RawWrite>, n: nat): seq<bytes>
    requires |l0| + n <= |l|
  {
    Replay(p0, l[|l0|..|l0| + n])
  }

  // It shows the model's file after the first n writes, and after the last one is the
  // file the insert leaves.
  lemma AfterView(meta: Meta, p0: seq<bytes>, l0: seq<RawWrite>, ws: seq<M.Write>, p: seq<bytes>, l: seq<RawWrite>,
                  n: nat)
    requires Effect(meta, p0, l0, ws, p, l) && p0 != [] && n <= |ws|
    ensures |l| == |l0| + |ws|
    ensures FileView(meta, After(p0, l0, l, n)) == BTreePages.ApplyAll(FileView(meta, p0), ws[..n])
    ensures n == |ws| ==> After(p0, l0, l, n) == p
  {
    var more := l[|l0|..];
    assert l[|l0|..|l0| + n] == more[..n];
    assert LogView(meta, more[..n]) == LogView(meta, more)[..n];
    ReplayView(meta, p0, more[..n]);
    if n == |ws| {
      assert more[..n] == more;
    }
  }

  // After any prefix of the raw writes of an insert the file has a header, and from
  // its root an ordered tree that has lost at most one range of keys, all of them in
  // one unlinked subtree; before the first write to an old page nothing has changed,
  // and after the last one nothing is lost.
  lemma CrashPrefix(meta: Meta, p0: seq<bytes>, l0: seq<RawWrite>, p: seq<bytes>, l: seq<RawWrite>,
                    t: M.Tree, k: int, r: Rid, fan: M.Fan, lo: int, hi: int, n: nat)
      returns (tp: M.Tree, lost: BTreeCrash.Lost)
    requires F.TreeFile(FileView(meta, p0), t, fan, lo, hi) && M.Shaped(t) && lo <= k < hi
    requires M.InsertAtRoot(t, k, r, |p0|, fan).RootDone?
    requires Effect(meta, p0, l0, M.InsertAtRoot(t, k, r, |p0|, fan).ws, p, l) && |l0| + n <= |l|
    ensures var c := M.InsertAtRoot(t, k, r, |p0|, fan);
      var fp := FileView(meta, After(p0, l0, l, n));
      && |l| == |l0| + |c.ws|
      && |fp| > 0 && fp[0] == M.HeaderPage(tp.pid) && BTreePages.Holds(fp, tp) && M.Ordered(tp, F.Height(tp), lo, hi)
      && BTreeCrash.RootLostIs(lost, c.t, fp, |p0|, lo, hi)
      && (forall x :: M.Lookup(tp, x) == BTreeCrash.Surviving(t, c.t, lost, c.ws[..n], |p0|, x))
      && (n == |c.ws| ==> After(p0, l0, l, n) == p && tp == c.t && lost.Nothing?)
  {
    hide M.InsertAtRoot, FileView;
    assert p0 != [];
    var c := M.InsertAtRoot(t, k, r, |p0|, fan);
    AfterView(meta, p0, l0, c.ws, p, l, n);
    tp, lost := BTreeCrash.CrashPrefix(FileView(meta, p0), t, k, r, fan, lo, hi, n);
  }

  // And the walk from page 1 meets the old leaves or the new ones, all of them.
  lemma CrashChain(meta: Meta, p0: seq<bytes>, l0: seq<RawWrite>, p: seq<bytes>, l: seq<RawWrite>,
                   t: M.Tree, k: int, r: Rid, fan: M.Fan, lo: int, hi: int, n: nat)
    requires F.TreeFile(FileView(meta, p0), t, fan, lo, hi) && M.Shaped(t) && lo <= k < hi
    requires M.InsertAtRoot(t, k, r, |p0|, fan).RootDone?
    requires Effect(meta, p0, l0, M.InsertAtRoot(t, k, r, |p0|, fan).ws, p, l) && |l0| + n <= |l|
    ensures var c := M.InsertAtRoot(t, k, r, |p0|, fan);
      && n <= |c.ws|
      && BTreeChain.Chain(FileView(meta, After(p0, l0, l, n)), 1,
                          if BTreeCrash.OldTouched(c.ws[..n], |p0|) then BTreeChain.Leaves(c.t)
                          else BTreeChain.Leaves(t))
  {
    hide M.InsertAtRoot, FileView;
    assert p0 != [];
    var c := M.InsertAtRoot(t, k, r, |p0|, fan);
    AfterView(meta, p0, l0, c.ws, p, l, n);
    BTreeCrash.CrashChain(FileView(meta, p0), t, k, r, fan, lo, hi, n);
  }
}
