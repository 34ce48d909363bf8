/** The single-entry writes unlink, rmdir and rename make, one after the other, none of which can
    fail, add up to the step each is meant to be. */
module Writes {
  import opened Wrappers
  import opened Namespace
  import opened Tree
  import opened Ops
  import opened Shape
  import opened Moves
  import opened FsDbs

  lemma DelOfShared(ns: NS, k: Key, l: Key)
    requires k in ns.dirs && l in ns.dirs && l != k && ns.dirs[l] == ns.dirs[k]
    ensures DelIsClean(ns, k) && DelAt(ns, k) == DelKey(ns, k)
  {
    assert (ns.dirs - {k})[l] == ns.dirs[k];
  }

  /** Deleting an entry just added to a node that has others. */
  lemma DelJustAdded(ns: NS, k: Key, c: Id)
    requires k !in ns.dirs && Referenced(ns.dirs, c)
    ensures var added := NS(ns.meta, ns.dirs[k := c]);
            DelIsClean(added, k) && DelAt(added, k) == ns
  {
    assert ns.dirs[k := c] - {k} == ns.dirs;
  }

  /** unlink's one write. */
  lemma UnlinkWrites(ns: NS, d: Id, x: Name, c: Id)
    requires Child(ns, d, x) == Some(c) && !IsDirNode(ns, c)
    ensures DelIsClean(ns, Key(d, x)) && DelAt(ns, Key(d, x)) == UnlinkAt(ns, d, x, c)
  {
  }

  /** The tables after rmdir dropped ".", and after it dropped "..". */
  function WithoutDot(ns: NS, c: Id): NS {
    DelKey(ns, Key(c, Dot))
  }

  function WithoutDots(ns: NS, c: Id): NS {
    DelKey(WithoutDot(ns, c), Key(c, DotDot))
  }

  lemma RmdirDropsDots(ns: NS, d: Id, x: Name, c: Id)
    requires Inv(ns) && Child(ns, d, x) == Some(c) && x.Word? && IsDirNode(ns, c)
    ensures Key(c, Dot) in ns.dirs && DelIsClean(ns, Key(c, Dot))
    ensures DelAt(ns, Key(c, Dot)) == WithoutDot(ns, c)
    ensures Key(c, DotDot) in WithoutDot(ns, c).dirs && DelIsClean(WithoutDot(ns, c), Key(c, DotDot))
    ensures DelAt(WithoutDot(ns, c), Key(c, DotDot)) == WithoutDots(ns, c)
    ensures c != d && IsDirNode(WithoutDots(ns, c), c)
  {
    assert SubdirEntry(ns, Key(d, x));
    assert Key(c, Dot) in ns.dirs && Key(c, DotDot) in ns.dirs && Key(d, Dot) in ns.dirs;
    if c == d {
      SelfParentIsRoot(ns, c);
    }
    DelOfShared(ns, Key(c, Dot), Key(d, x));
    assert Up(ns, c) == d;
    DelOfShared(WithoutDot(ns, c), Key(c, DotDot), Key(d, Dot));
  }

  /** rmdir's three writes. */
  lemma RmdirWrites(ns: NS, d: Id, x: Name, c: Id)
    requires Inv(ns) && Child(ns, d, x) == Some(c) && x.Word? && IsDirNode(ns, c) && !HasEntries(ns, c)
    ensures Key(d, x) in WithoutDots(ns, c).dirs && DelIsClean(WithoutDots(ns, c), Key(d, x))
    ensures DelAt(WithoutDots(ns, c), Key(d, x)) == RmdirAt(ns, d, x, c)
  {
    RmdirEntries(ns, d, x, c);
    var ns2 := WithoutDots(ns, c);
    var dirs' := ns2.dirs - {Key(d, x)};
    assert dirs' == RmdirAt(ns, d, x, c).dirs;
    assert Key(d, x) in ns2.dirs && ns2.dirs[Key(d, x)] == c;
    forall k | k in dirs'
      ensures k.dir != c && dirs'[k] != c
    {
    }
    WithoutSame(dirs', c);
  }

  /** The tables once the node at the new name, if any, is gone. */
  ghost function Cleared(ns: NS, src: Id, dp: Id, dl: Name, dst: Option<Id>): NS {
    if dst.None? then ns
    else if IsDirNode(ns, src) then RmdirAt(ns, dp, dl, dst.value)
    else UnlinkAt(ns, dp, dl, dst.value)
  }

  lemma ClearedReady(ns: NS, sp: Id, sl: Name, src: Id, dp: Id, dl: Name, dst: Option<Id>)
    requires Inv(ns) && MayMove(ns, sp, sl, src, dp, dl, dst)
    ensures var cl := Cleared(ns, src, dp, dl, dst);
            && Inv(cl) && IsDirNode(cl, sp) && IsDirNode(cl, dp) && IsDirNode(cl, src) == IsDirNode(ns, src)
            && src in cl.meta && Key(dp, dl) !in cl.dirs
            && Key(sp, sl) in cl.dirs && cl.dirs[Key(sp, sl)] == src
  {
    hide DotsOk, ListedByParent, ListedOnce, EachListed, EachReferenced, Acyclic;
    if dst.Some? {
      if IsDirNode(ns, src) {
        ReplacedDirGone(ns, sp, sl, src, dp, dl, dst);
        RmdirKeepsInv(ns, dp, dl, dst.value);
      } else {
        UnlinkKeepsInv(ns, dp, dl, dst.value);
        ClearedFileKeepsSource(ns, sp, sl, src, dp, dl, dst.value);
      }
    }
  }

  lemma ClearedFileKeepsSource(ns: NS, sp: Id, sl: Name, src: Id, dp: Id, dl: Name, dst: Id)
    requires Child(ns, sp, sl) == Some(src) && Key(sp, sl) != Key(dp, dl)
    ensures src in UnlinkAt(ns, dp, dl, dst).meta
  {
    assert (ns.dirs - {Key(dp, dl)})[Key(sp, sl)] == src;
  }

  /** rename's further writes for a directory: its ".." leads to the new parent. */
  lemma ReparentWrites(cl: NS, sp: Id, sl: Name, src: Id)
    requires Inv(cl) && IsDirNode(cl, src) && sl.Word? && Key(sp, sl) in cl.dirs && cl.dirs[Key(sp, sl)] == src
    ensures Key(src, DotDot) in cl.dirs && DelIsClean(cl, Key(src, DotDot))
    ensures DelAt(cl, Key(src, DotDot)) == DelKey(cl, Key(src, DotDot))
  {
    assert SubdirEntry(cl, Key(sp, sl));
    assert Key(src, DotDot) in cl.dirs && Key(sp, Dot) in cl.dirs;
    DelOfShared(cl, Key(src, DotDot), Key(sp, Dot));
  }

  /** The entries rename relinks once the new name is free. */
  function Relisted(cl: NS, sp: Id, sl: Name, src: Id, dp: Id, dl: Name): NS {
    var dirs := if IsDirNode(cl, src) then (cl.dirs - {Key(src, DotDot)})[Key(src, DotDot) := dp] else cl.dirs;
    NS(cl.meta, dirs[Key(dp, dl) := src] - {Key(sp, sl)})
  }

  lemma RelistedIsRename(ns: NS, sp: Id, sl: Name, src: Id, dp: Id, dl: Name, dst: Option<Id>)
    requires Inv(ns) && MayMove(ns, sp, sl, src, dp, dl, dst)
    ensures Relisted(Cleared(ns, src, dp, dl, dst), sp, sl, src, dp, dl)
            == RenameAt(ns, sp, sl, src, dp, dl, dst)
  {
    var cl := Cleared(ns, src, dp, dl, dst);
    ClearedReady(ns, sp, sl, src, dp, dl, dst);
    RelistedDirs(ns, sp, sl, src, dp, dl, dst);
    RelistedMeta(ns, sp, sl, src, dp, dl, dst);
  }

  lemma RelistedFresh(ns: NS, sp: Id, sl: Name, src: Id, dp: Id, dl: Name)
    requires Key(sp, sl) != Key(dp, dl) && sl.Word?
    ensures Relisted(ns, sp, sl, src, dp, dl) == RenameAt(ns, sp, sl, src, dp, dl, None)
  {
    RelistedDirs(ns, sp, sl, src, dp, dl, None);
  }

  lemma RelistedDirs(ns: NS, sp: Id, sl: Name, src: Id, dp: Id, dl: Name, dst: Option<Id>)
    requires Key(sp, sl) != Key(dp, dl) && sl.Word?
    requires IsDirNode(Cleared(ns, src, dp, dl, dst), src) == IsDirNode(ns, src)
    requires dst.Some? && IsDirNode(ns, src) ==> dst.value != src
    ensures Relisted(Cleared(ns, src, dp, dl, dst), sp, sl, src, dp, dl).dirs
            == MovedDirs(ns, sp, sl, src, dp, dl, dst)
  {
  }

  lemma RelistedMeta(ns: NS, sp: Id, sl: Name, src: Id, dp: Id, dl: Name, dst: Option<Id>)
    requires Inv(ns) && MayMove(ns, sp, sl, src, dp, dl, dst)
    ensures Cleared(ns, src, dp, dl, dst).meta == RenameAt(ns, sp, sl, src, dp, dl, dst).meta
  {
    if dst.Some? {
      if IsDirNode(ns, src) {
        ReplacedDirGone(ns, sp, sl, src, dp, dl, dst);
      } else {
        StillReferenced(ns, sp, sl, src, dp, dl, dst.value);
      }
    }
  }

  lemma StillReferenced(ns: NS, sp: Id, sl: Name, src: Id, dp: Id, dl: Name, dst: Id)
    requires MayMove(ns, sp, sl, src, dp, dl, Some(dst)) && !IsDirNode(ns, src)
    ensures Referenced(ns.dirs - {Key(dp, dl)}, dst)
            <==> Referenced(MovedDirs(ns, sp, sl, src, dp, dl, Some(dst)), dst)
  {
    var a, b := ns.dirs - {Key(dp, dl)}, MovedDirs(ns, sp, sl, src, dp, dl, Some(dst));
    if dst == src {
      assert a[Key(sp, sl)] == dst && b[Key(dp, dl)] == dst;
    } else {
      if k :| k in a && a[k] == dst {
        assert b[k] == dst;
      }
      if k :| k in b && b[k] == dst {
        assert a[k] == dst;
      }
    }
  }
}
