/** Every namespace step, with the single-path invalidations fs.cxx performs, keeps the path
    cache coherent, provided nothing is cached below a name that appears. */
module Invalidation {
  import opened Wrappers
  import opened Modes
  import opened Namespace
  import opened Tree
  import opened Ops
  import opened Moves
  import opened Effects
  import opened Coherence

  ghost predicate Outside(r: Path, touched: set<Path>) {
    forall t | t in touched :: !Under(r, t)
  }

  /** Only paths through a touched path may have changed their meaning. */
  ghost predicate SameOutside(ns: NS, ns': NS, touched: set<Path>) {
    forall r | ValidPath(r) && Outside(r, touched) :: Resolve(ns', r) == Resolve(ns, r)
  }

  /** Surviving nodes keep their attributes. */
  ghost predicate SameMeta(ns: NS, ns': NS) {
    forall e | e in ns.meta && e in ns'.meta :: ns'.meta[e] == ns.meta[e]
  }

  lemma OutsidePrefix(q: Path, touched: set<Path>, k: nat)
    requires Outside(q, touched) && k <= |q|
    ensures Outside(q[..k], touched)
  {
    assert q == q[..k] + q[k..];
    forall t | t in touched
      ensures !Under(q[..k], t)
    {
      if Under(q[..k], t) {
        PrefixOfPrefix(t, q, k);
      }
    }
  }

  lemma PrefixOfPrefix(t: Path, q: Path, k: nat)
    requires k <= |q| && t <= q[..k]
    ensures t <= q
  {
  }

  /** A cached path outside the touched ones stays as good as it was. */
  lemma OutsideStaysGood(ns: NS, ns': NS, touched: set<Path>, view: View, view': View, q: Path)
    requires Coherent(ns, view) && SameOutside(ns, ns', touched)
    requires q in view && q in view' && view'[q] == view[q] && view'.Keys <= view.Keys
    requires Outside(q, touched)
    requires Right(ns, q, view[q]) && view[q].node in ns'.meta ==> ns'.meta[view[q].node] == ns.meta[view[q].node]
    ensures Right(ns', q, view'[q]) || CutOff(ns', view', q)
  {
    if Right(ns, q, view[q]) {
      ResolveLive(ns', q);
    } else {
      var k :| 0 <= k < |q| && Resolve(ns, q[..k]).None? && q[..k] !in view;
      OutsidePrefix(q, touched, k);
      assert Resolve(ns', q[..k]).None? && q[..k] !in view';
    }
  }

  /** p's directory holds no entry for p's last token, so p is not cached. */
  lemma HeldUncached(ns: NS, view: View, p: Path, d: Id)
    requires Coherent(ns, view) && HoldsLeaf(ns, p, d) && Resolve(ns, p).None?
    ensures p !in view
  {
    var k := FirstFail(ns, p);
    FirstFailUncached(ns, view, p);
    HeldPrefixes(ns, p, d);
    assert p[..|p|] == p;
  }

  lemma HeldPrefixes(ns: NS, p: Path, d: Id)
    requires HoldsLeaf(ns, p, d)
    ensures forall k | 0 <= k < |p| :: Resolve(ns, p[..k]).Some?
  {
    forall k | 0 <= k < |p|
      ensures Resolve(ns, p[..k]).Some?
    {
      assert Parent(p)[..k] == p[..k];
      ResolvePrefix(ns, Parent(p), k);
    }
  }

  /** p appeared, and nothing below it resolves. */
  ghost predicate Appeared(ns: NS, ns': NS, p: Path, n: Id) {
    && Resolve(ns', p) == Some(n)
    && SameOutside(ns, ns', {p}) && SameMeta(ns, ns')
    && forall q | ValidPath(q) && StrictlyUnder(q, p) :: Resolve(ns', q).None?
  }

  /** q is p followed by one more name. */
  predicate ChildOf(q: Path, p: Path) {
    |q| == |p| + 1 && Under(q, p)
  }

  lemma UnderIsStrict(q: Path, p: Path)
    requires Under(q, p) && q != p
    ensures StrictlyUnder(q, p)
  {
    assert q == p + q[|p|..];
  }

  ghost predicate NoChildCached(view: View, p: Path) {
    forall q | q in view :: !ChildOf(q, p)
  }

  /** A cached child of a new name makes the cache incoherent. */
  lemma CachedChildIsStale(ns: NS, ns': NS, view: View, p: Path, n: Id, q: Path)
    requires Appeared(ns, ns', p, n) && q in view && ChildOf(q, p) && ValidPath(q)
    ensures !Coherent(ns', view)
  {
    forall k | 0 <= k < |q|
      ensures Resolve(ns', q[..k]).Some?
    {
      ResolvePrefix(ns', p, k);
      assert p[..k] == q[..k];
    }
    assert !CutOff(ns', view, q);
  }

  lemma GrandchildIsCutOff(ns': NS, view: View, p: Path, q: Path)
    requires forall r | ValidPath(r) && StrictlyUnder(r, p) :: Resolve(ns', r).None?
    requires NoChildCached(view, p)
    requires StrictlyUnder(q, p) && ValidPath(q) && q in view
    ensures CutOff(ns', view, q)
  {
    var r := q[..|p| + 1];
    assert ChildOf(r, p);
    assert Resolve(ns', r).None? && r !in view;
    assert r != q;
  }

  lemma NoChildCachedSuffices(ns: NS, ns': NS, view: View, p: Path, n: Id)
    requires Coherent(ns, view) && p !in view && NoChildCached(view, p)
    requires Appeared(ns, ns', p, n)
    ensures Coherent(ns', view)
  {
    forall q | q in view
      ensures Right(ns', q, view[q]) || CutOff(ns', view, q)
    {
      if Under(q, p) {
        UnderIsStrict(q, p);
        GrandchildIsCutOff(ns', view, p, q);
      } else {
        ResolveLive(ns, q);
        OutsideStaysGood(ns, ns', {p}, view, view, q);
      }
    }
  }

  /** A name p appears for a node without named entries: the cache stays coherent exactly when it
      holds no child of p. */
  lemma AppearKeepsCoherent(ns: NS, ns': NS, view: View, p: Path, d: Id, n: Id)
    requires Coherent(ns, view) && HoldsLeaf(ns, p, d) && Resolve(ns, p).None?
    requires Appeared(ns, ns', p, n)
    ensures Coherent(ns', view) <==> NoChildCached(view, p)
  {
    HeldUncached(ns, view, p, d);
    if NoChildCached(view, p) {
      NoChildCachedSuffices(ns, ns', view, p, n);
    } else {
      var q :| q in view && ChildOf(q, p);
      CachedChildIsStale(ns, ns', view, p, n, q);
    }
  }

  /** mkdir, mknod and symlink. */
  lemma AddCoherent(ns: NS, view: View, p: Path, d: Id, n: Id, m: Meta)
    requires Inv(ns) && Coherent(ns, view) && HoldsLeaf(ns, p, d)
    requires Key(d, Leaf(p)) !in ns.dirs && n !in ns.meta
    ensures Coherent(AddAt(ns, d, Leaf(p), n, m), view) <==> NoChildCached(view, p)
  {
    hide Appeared, AddAt, Coherent;
    AddAppears(ns, p, d, n, m);
    ResolveHeld(ns, p, d);
    AppearKeepsCoherent(ns, AddAt(ns, d, Leaf(p), n, m), view, p, d, n);
  }

  lemma AddAppears(ns: NS, p: Path, d: Id, n: Id, m: Meta)
    requires Inv(ns) && HoldsLeaf(ns, p, d) && Key(d, Leaf(p)) !in ns.dirs && n !in ns.meta
    ensures Appeared(ns, AddAt(ns, d, Leaf(p), n, m), p, n)
  {
    var ns' := AddAt(ns, d, Leaf(p), n, m);
    forall q | ValidPath(q)
      ensures Resolve(ns', q) == if q == p then Some(n) else if Under(q, p) then None else Resolve(ns, q)
    {
      AddPaths(ns, p, d, n, m, q);
    }
  }

  /** link. */
  lemma LinkCoherent(ns: NS, view: View, p: Path, d: Id, n: Id)
    requires Inv(ns) && Coherent(ns, view) && HoldsLeaf(ns, p, d)
    requires Key(d, Leaf(p)) !in ns.dirs && n in ns.meta && !IsDirNode(ns, n)
    ensures Coherent(LinkAt(ns, d, Leaf(p), n), view) <==> NoChildCached(view, p)
  {
    hide Appeared, LinkAt, Coherent;
    LinkAppears(ns, p, d, n);
    ResolveHeld(ns, p, d);
    AppearKeepsCoherent(ns, LinkAt(ns, d, Leaf(p), n), view, p, d, n);
  }

  lemma LinkAppears(ns: NS, p: Path, d: Id, n: Id)
    requires Inv(ns) && HoldsLeaf(ns, p, d)
    requires Key(d, Leaf(p)) !in ns.dirs && n in ns.meta && !IsDirNode(ns, n)
    ensures Appeared(ns, LinkAt(ns, d, Leaf(p), n), p, n)
  {
    var ns' := LinkAt(ns, d, Leaf(p), n);
    forall q | ValidPath(q)
      ensures Resolve(ns', q) == if q == p then Some(n) else if Under(q, p) then None else Resolve(ns, q)
    {
      LinkPaths(ns, p, d, n, q);
    }
  }

  /** p and everything below it stopped resolving. */
  ghost predicate Vanished(ns: NS, ns': NS, p: Path) {
    && SameOutside(ns, ns', {p}) && SameMeta(ns, ns')
    && forall q | ValidPath(q) && Under(q, p) :: Resolve(ns', q).None?
  }

  lemma CutOffAt(ns: NS, view: View, p: Path, q: Path)
    requires StrictlyUnder(q, p) && Resolve(ns, p).None? && p !in view
    ensures CutOff(ns, view, q)
  {
    assert q[..|p|] == p;
  }

  /** Dropping the one entry of p is enough, whatever is cached below p. */
  lemma VanishKeepsCoherent(ns: NS, ns': NS, view: View, p: Path)
    requires Coherent(ns, view) && Vanished(ns, ns', p) && ValidPath(p)
    ensures Coherent(ns', view - {p})
  {
    var view' := view - {p};
    forall q | q in view'
      ensures Right(ns', q, view'[q]) || CutOff(ns', view', q)
    {
      if Under(q, p) {
        UnderIsStrict(q, p);
        CutOffAt(ns', view', p, q);
      } else {
        ResolveLive(ns, q);
        OutsideStaysGood(ns, ns', {p}, view, view', q);
      }
    }
  }

  /** unlink. */
  lemma UnlinkCoherent(ns: NS, view: View, p: Path, d: Id, c: Id)
    requires Inv(ns) && Coherent(ns, view) && HoldsLeaf(ns, p, d)
    requires Child(ns, d, Leaf(p)) == Some(c) && !IsDirNode(ns, c)
    ensures Coherent(UnlinkAt(ns, d, Leaf(p), c), view - {p})
  {
    var ns' := UnlinkAt(ns, d, Leaf(p), c);
    forall q | ValidPath(q)
      ensures Resolve(ns', q) == if Under(q, p) then None else Resolve(ns, q)
    {
      UnlinkPaths(ns, p, d, c, q);
    }
    VanishKeepsCoherent(ns, ns', view, p);
  }

  /** rmdir. */
  lemma RmdirCoherent(ns: NS, view: View, p: Path, d: Id, c: Id)
    requires Inv(ns) && Coherent(ns, view) && HoldsLeaf(ns, p, d)
    requires Child(ns, d, Leaf(p)) == Some(c) && IsDirNode(ns, c) && !HasEntries(ns, c)
    ensures Coherent(RmdirAt(ns, d, Leaf(p), c), view - {p})
  {
    var ns' := RmdirAt(ns, d, Leaf(p), c);
    forall q | ValidPath(q)
      ensures Resolve(ns', q) == if Under(q, p) then None else Resolve(ns, q)
    {
      RmdirPaths(ns, p, d, c, q);
    }
    VanishKeepsCoherent(ns, ns', view, p);
  }

  /** chmod and chown: dropping the entry of p is enough, since a directory has no other path. */
  lemma SetMetaCoherent(ns: NS, view: View, p: Path, n: Id, m: Meta)
    requires Inv(ns) && Coherent(ns, view) && ValidPath(p) && Resolve(ns, p) == Some(n)
    requires n in ns.meta && IsDir(m.mode) == IsDir(ns.meta[n].mode)
    ensures Coherent(SetMeta(ns, n, m), view - {p})
  {
    var ns' := SetMeta(ns, n, m);
    var view' := view - {p};
    forall r | ValidPath(r)
      ensures Resolve(ns', r) == Resolve(ns, r)
    {
      SetMetaPaths(ns, n, m, r);
    }
    forall q | q in view'
      ensures Right(ns', q, view'[q]) || CutOff(ns', view', q)
    {
      if Right(ns, q, view[q]) {
        if view[q].node == n && IsDirNode(ns, n) {
          DirPathUnique(ns, p, q);
        }
      } else {
        OutsideStaysGood(ns, ns', {}, view, view', q);
      }
    }
  }

  /** What a cached path r below the new name q must satisfy in the old tree: its entry is what
      the old name p led to, or it is cut off below the new name. */
  ghost predicate FollowsMove(ns: NS, view: View, p: Path, q: Path, r: Path)
    requires Under(r, q) && r in view
  {
    Right(ns, p + r[|q|..], view[r]) ||
    exists k :: |q| <= k < |r| && Resolve(ns, p + r[|q|..k]).None? && r[..k] !in view
  }

  ghost predicate MovedEntriesFit(ns: NS, view: View, p: Path, q: Path) {
    forall r | r in view && StrictlyUnder(r, q) :: FollowsMove(ns, view, p, q, r)
  }

  lemma RightFollows(ns: NS, ns': NS, p: Path, q: Path, r: Path, e: CData)
    requires SubtreeMoved(ns, ns', p, q) && SameMeta(ns, ns') && Under(r, q) && ValidPath(r)
    ensures Right(ns', r, e) <==> Right(ns, p + r[|q|..], e)
  {
    var s := r[|q|..];
    assert r == q + s;
    assert Resolve(ns', q + s) == Resolve(ns, p + s);
    ResolveLive(ns', r);
    ResolveLive(ns, p + s);
  }

  lemma PrefixFollows(ns: NS, ns': NS, p: Path, q: Path, r: Path, k: nat)
    requires SubtreeMoved(ns, ns', p, q) && Under(r, q) && ValidPath(r) && |q| <= k <= |r|
    ensures Resolve(ns', r[..k]) == Resolve(ns, p + r[|q|..k])
  {
    hide Resolve, ValidPath;
    PrefixParts(r, q, k);
    MovedAt(ns, ns', p, q, r[|q|..k]);
  }

  lemma PrefixParts(r: Path, q: Path, k: nat)
    requires Under(r, q) && |q| <= k <= |r| && ValidPath(r)
    ensures r[..k] == q + r[|q|..k] && ValidPath(r[|q|..k])
  {
    forall i | 0 <= i < k - |q|
      ensures r[|q|..k][i] == r[|q| + i]
    {
    }
  }

  lemma MovedAt(ns: NS, ns': NS, p: Path, q: Path, s: Path)
    requires SubtreeMoved(ns, ns', p, q) && ValidPath(s)
    ensures Resolve(ns', q + s) == Resolve(ns, p + s)
  {
  }

  /** Below the new name, an entry is good afterwards exactly when it fits the subtree that moved there. */
  lemma GoodIffFollows(ns: NS, ns': NS, view: View, p: Path, q: Path, r: Path)
    requires SubtreeMoved(ns, ns', p, q) && SameMeta(ns, ns') && Resolve(ns', q).Some?
    requires StrictlyUnder(r, q) && ValidPath(r) && r in view
    ensures Right(ns', r, view[r]) || CutOff(ns', view, r) <==> FollowsMove(ns, view, p, q, r)
  {
    hide Resolve, SubtreeMoved;
    RightFollows(ns, ns', p, q, r, view[r]);
    forall k | |q| <= k <= |r|
      ensures Resolve(ns', r[..k]) == Resolve(ns, p + r[|q|..k])
    {
      PrefixFollows(ns, ns', p, q, r, k);
    }
    forall k | 0 <= k <= |q|
      ensures Resolve(ns', r[..k]).Some?
    {
      ResolvePrefix(ns', q, k);
      assert q[..k] == r[..k];
    }
  }

  lemma SubtreeMovedOutside(ns: NS, ns': NS, p: Path, q: Path)
    requires SubtreeMoved(ns, ns', p, q) && ValidPath(p)
    ensures SameOutside(ns, ns', {p, q}) && Resolve(ns', p).None?
  {
    forall r | ValidPath(r) && Outside(r, {p, q})
      ensures Resolve(ns', r) == Resolve(ns, r)
    {
      assert !Under(r, p) && !Under(r, q);
    }
    assert Under(p, p);
  }

  /** What is left in the cache of entries that end at p or q, or lie outside both, is good. */
  lemma MoveOutsideGood(ns: NS, ns': NS, view: View, view': View, p: Path, q: Path, r: Path)
    requires Coherent(ns, view) && SameOutside(ns, ns', {p, q}) && SameMeta(ns, ns')
    requires Resolve(ns', p).None?
    requires view'.Keys <= view.Keys && r in view' && view'[r] == view[r]
    requires p !in view' && !Under(r, q)
    ensures Right(ns', r, view'[r]) || CutOff(ns', view', r)
  {
    hide Resolve, CutOff, SameOutside;
    if Under(r, p) {
      UnderIsStrict(r, p);
      CutOffAt(ns', view', p, r);
    } else {
      ResolveLive(ns, r);
      OutsideStaysGood(ns, ns', {p, q}, view, view', r);
    }
  }

  function RenamedView(view: View, p: Path, q: Path, replaced: bool): View {
    (if replaced then view - {q} else view) - {p}
  }

  lemma MovedNodes(ns: NS, sp: Id, sl: Name, src: Id, dp: Id, dl: Name, dst: Option<Id>)
    requires MayMove(ns, sp, sl, src, dp, dl, dst)
    ensures Child(ns, sp, sl) == Some(src) && Child(ns, dp, dl) == dst
    ensures SameMeta(ns, RenameAt(ns, sp, sl, src, dp, dl, dst))
  {
  }

  /** rename: with the entries of both names dropped, the cache stays coherent exactly when what
      it still holds below the new name fits the subtree that moves there. */
  lemma RenameCoherent(ns: NS, view: View, p: Path, q: Path, sp: Id, src: Id, dp: Id, dst: Option<Id>)
    requires Inv(ns) && Coherent(ns, view) && HoldsLeaf(ns, p, sp) && HoldsLeaf(ns, q, dp)
    requires MayMove(ns, sp, Leaf(p), src, dp, Leaf(q), dst)
    ensures Coherent(RenameAt(ns, sp, Leaf(p), src, dp, Leaf(q), dst), RenamedView(view, p, q, dst.Some?))
            <==> MovedEntriesFit(ns, RenamedView(view, p, q, dst.Some?), p, q)
  {
    var ns' := RenameAt(ns, sp, Leaf(p), src, dp, Leaf(q), dst);
    var view' := RenamedView(view, p, q, dst.Some?);
    hide Inv, MayMove, RenameAt, Right, CutOff, FollowsMove, SubtreeMoved;
    MovedNodes(ns, sp, Leaf(p), src, dp, Leaf(q), dst);
    MoveMovesOneSubtree(ns, p, q, sp, src, dp, dst);
    SubtreeMovedOutside(ns, ns', p, q);
    NewNameResolves(ns, ns', p, q, sp, src);
    ResolveHeld(ns, q, dp);
    if dst.None? {
      HeldUncached(ns, view, q, dp);
    }
    forall r | r in view' && !Under(r, q)
      ensures Right(ns', r, view'[r]) || CutOff(ns', view', r)
    {
      MoveOutsideGood(ns, ns', view, view', p, q, r);
    }
    forall r | r in view' && Under(r, q)
      ensures StrictlyUnder(r, q)
      ensures Right(ns', r, view'[r]) || CutOff(ns', view', r) <==> FollowsMove(ns, view', p, q, r)
    {
      UnderIsStrict(r, q);
      GoodIffFollows(ns, ns', view', p, q, r);
    }
  }

  lemma NewNameResolves(ns: NS, ns': NS, p: Path, q: Path, sp: Id, src: Id)
    requires SubtreeMoved(ns, ns', p, q) && HoldsLeaf(ns, p, sp) && Child(ns, sp, Leaf(p)) == Some(src)
    ensures Resolve(ns', q) == Some(src)
  {
    assert ValidPath([]);
    assert q + [] == q && p + [] == p;
    ResolveHeld(ns, p, sp);
  }

}
