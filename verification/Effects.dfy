/** What every path means after a namespace step, in terms of what it meant before. */
module Effects {
  import opened Wrappers
  import opened Modes
  import opened Namespace
  import opened Tree
  import opened Ops
  import opened Frames
  import opened Shape
  import opened Moves

  /** d is the directory in which p's last token is looked up. */
  predicate HoldsLeaf(ns: NS, p: Path, d: Id) {
    p != [] && ValidPath(p) && Resolve(ns, Parent(p)) == Some(d) && IsDirNode(ns, d)
  }

  lemma ResolveHeld(ns: NS, p: Path, d: Id)
    requires HoldsLeaf(ns, p, d)
    ensures Resolve(ns, p) == Child(ns, d, Leaf(p))
  {
  }

  /** Nothing lies below a path that names a node without entries. */
  lemma {:induction false} NothingBelow(ns: NS, p: Path, q: Path)
    requires Resolve(ns, p).None? || (forall x: Name | x.Word? :: Child(ns, Resolve(ns, p).value, x).None?)
    requires StrictlyUnder(q, p) && ValidPath(q)
    ensures Resolve(ns, q).None?
    decreases |q|
  {
    var r := Parent(q);
    if r == p {
    } else {
      assert StrictlyUnder(r, p);
      NothingBelow(ns, p, r);
    }
  }

  /** Creation: p names the new node, nothing lies below it, every other path keeps its meaning. */
  lemma AddPaths(ns: NS, p: Path, d: Id, n: Id, m: Meta, q: Path)
    requires Inv(ns) && HoldsLeaf(ns, p, d) && ValidPath(q)
    requires Key(d, Leaf(p)) !in ns.dirs && n !in ns.meta
    ensures Resolve(AddAt(ns, d, Leaf(p), n, m), q) ==
            if q == p then Some(n) else if Under(q, p) then None else Resolve(ns, q)
  {
    var ns' := AddAt(ns, d, Leaf(p), n, m);
    AddElsewhere(ns, d, Leaf(p), n, m);
    hide Inv, AddAt;
    OneEntryEdit(ns, ns', p, Parent(p));
    if !Under(q, p) {
      OneEntryEdit(ns, ns', p, q);
    } else if q != p {
      NothingBelow(ns', p, q);
    }
  }

  lemma AddElsewhere(ns: NS, d: Id, x: Name, n: Id, m: Meta)
    requires EntriesOk(ns) && RootOk(ns) && x.Word? && Key(d, x) !in ns.dirs && n !in ns.meta && IsDirNode(ns, d)
    ensures var ns' := AddAt(ns, d, x, n, m);
            SameElsewhere(ns, ns', {Key(d, x)}) && Child(ns', d, x) == Some(n) && IsDirNode(ns', d)
    ensures forall y: Name | y.Word? :: Child(AddAt(ns, d, x, n, m), n, y).None?
  {
    assert AddAt(ns, d, x, n, m).dirs[Key(d, x)] == n;
  }

  /** A further hard link: p names the node too, every other path keeps its meaning. */
  lemma LinkPaths(ns: NS, p: Path, d: Id, n: Id, q: Path)
    requires Inv(ns) && HoldsLeaf(ns, p, d) && ValidPath(q)
    requires Key(d, Leaf(p)) !in ns.dirs && n in ns.meta && !IsDirNode(ns, n)
    ensures Resolve(LinkAt(ns, d, Leaf(p), n), q) ==
            if q == p then Some(n) else if Under(q, p) then None else Resolve(ns, q)
  {
    var ns' := LinkAt(ns, d, Leaf(p), n);
    assert SameElsewhere(ns, ns', {Key(d, Leaf(p))});
    OneEntryEdit(ns, ns', p, Parent(p));
    if !Under(q, p) {
      OneEntryEdit(ns, ns', p, q);
    } else if q != p {
      NothingBelow(ns', p, q);
    }
  }

  /** Unlink: p stops resolving, every other path keeps its meaning, other links to the node included. */
  lemma UnlinkPaths(ns: NS, p: Path, d: Id, c: Id, q: Path)
    requires Inv(ns) && HoldsLeaf(ns, p, d) && ValidPath(q)
    requires Child(ns, d, Leaf(p)) == Some(c) && !IsDirNode(ns, c)
    ensures Resolve(UnlinkAt(ns, d, Leaf(p), c), q) == if Under(q, p) then None else Resolve(ns, q)
  {
    var ns' := UnlinkAt(ns, d, Leaf(p), c);
    UnlinkElsewhere(ns, d, Leaf(p), c);
    OneEntryEdit(ns, ns', p, Parent(p));
    if !Under(q, p) {
      OneEntryEdit(ns, ns', p, q);
    } else {
      ResolveBelowNone(ns', p, q);
    }
  }

  lemma UnlinkElsewhere(ns: NS, d: Id, x: Name, c: Id)
    requires EntriesOk(ns) && RootOk(ns) && Child(ns, d, x) == Some(c) && !IsDirNode(ns, c)
    ensures SameElsewhere(ns, UnlinkAt(ns, d, x, c), {Key(d, x)})
  {
    var ns' := UnlinkAt(ns, d, x, c);
    forall e, y: Name | e in ns.meta && y.Word? && Key(e, y) != Key(d, x)
      ensures Child(ns', e, y) == Child(ns, e, y)
    {
      if Key(e, y) in ns.dirs {
        assert ns.dirs[Key(e, y)] == (ns.dirs - {Key(d, x)})[Key(e, y)];
        assert Referenced(ns'.dirs, ns.dirs[Key(e, y)]);
      }
    }
  }

  /** Rmdir: p stops resolving, every other path keeps its meaning. */
  lemma RmdirPaths(ns: NS, p: Path, d: Id, c: Id, q: Path)
    requires Inv(ns) && HoldsLeaf(ns, p, d) && ValidPath(q)
    requires Child(ns, d, Leaf(p)) == Some(c) && IsDirNode(ns, c) && !HasEntries(ns, c)
    ensures Resolve(RmdirAt(ns, d, Leaf(p), c), q) == if Under(q, p) then None else Resolve(ns, q)
  {
    var ns' := RmdirAt(ns, d, Leaf(p), c);
    RmdirElsewhere(ns, d, Leaf(p), c);
    OneEntryEdit(ns, ns', p, Parent(p));
    if !Under(q, p) {
      OneEntryEdit(ns, ns', p, q);
    } else {
      ResolveBelowNone(ns', p, q);
    }
  }

  lemma RmdirElsewhere(ns: NS, d: Id, x: Name, c: Id)
    requires Inv(ns) && Child(ns, d, x) == Some(c) && IsDirNode(ns, c) && !HasEntries(ns, c) && x.Word?
    ensures SameElsewhere(ns, RmdirAt(ns, d, x, c), {Key(d, x)})
  {
    assert SubdirEntry(ns, Key(d, x));
    RmdirEntries(ns, d, x, c);
    forall e, y: Name | e in ns.meta && y.Word? && Key(e, y) != Key(d, x)
      ensures Child(RmdirAt(ns, d, x, c), e, y) == Child(ns, e, y)
    {
      if Key(e, y) in ns.dirs {
        assert e == c ==> HasEntries(ns, c);
      }
    }
  }

  /** New attributes change what no path names. */
  lemma SetMetaPaths(ns: NS, n: Id, m: Meta, q: Path)
    requires n in ns.meta && IsDir(m.mode) == IsDir(ns.meta[n].mode) && ValidPath(q)
    ensures Resolve(SetMeta(ns, n, m), q) == Resolve(ns, q)
  {
    assert SameElsewhere(ns, SetMeta(ns, n, m), {});
    SamePath(ns, SetMeta(ns, n, m), {}, q);
  }

  /** A prefix of a directory's path names a directory. */
  lemma PrefixIsDir(ns: NS, p: Path, q: Path)
    requires Under(p, q) && Resolve(ns, p).Some? && IsDirNode(ns, Resolve(ns, p).value)
    ensures Resolve(ns, q).Some? && IsDirNode(ns, Resolve(ns, q).value)
  {
    assert p[..|q|] == q;
    if |p| == |q| {
      assert p == q;
    } else {
      ResolvePrefix(ns, p, |q|);
    }
  }

  /** A move that is allowed never puts a node below itself. */
  lemma MoveNotBelowItself(ns: NS, p: Path, q: Path, sp: Id, src: Id, dp: Id, dst: Option<Id>)
    requires Inv(ns) && HoldsLeaf(ns, p, sp) && HoldsLeaf(ns, q, dp)
    requires MayMove(ns, sp, Leaf(p), src, dp, Leaf(q), dst)
    ensures !Under(q, p)
  {
    ResolveHeld(ns, p, sp);
    if p != q && Under(q, p) {
      assert Under(Parent(q), p);
      PrefixIsDir(ns, Parent(q), p);
      BelowIsPrefix(ns, Parent(q), p);
    }
  }

  /** A move that is allowed never replaces a directory above the node moved. */
  lemma MoveNotOntoAncestor(ns: NS, p: Path, q: Path, sp: Id, src: Id, dp: Id, dst: Option<Id>)
    requires HoldsLeaf(ns, p, sp) && HoldsLeaf(ns, q, dp)
    requires MayMove(ns, sp, Leaf(p), src, dp, Leaf(q), dst)
    ensures !Under(p, q)
  {
    ResolveHeld(ns, p, sp);
    ResolveHeld(ns, q, dp);
    if p != q && Under(p, q) {
      assert Under(Parent(p), q);
      PrefixIsDir(ns, Parent(p), q);
      assert !HasEntries(ns, dst.value);
      forall x: Name | x.Word?
        ensures Child(ns, dst.value, x).None?
      {
        assert Key(dst.value, x) !in ns.dirs;
      }
      NothingBelow(ns, q, p);
    }
  }

  lemma MoveElsewhere(ns: NS, sp: Id, sl: Name, src: Id, dp: Id, dl: Name, dst: Option<Id>)
    requires Inv(ns) && MayMove(ns, sp, sl, src, dp, dl, dst)
    ensures SameElsewhere(ns, RenameAt(ns, sp, sl, src, dp, dl, dst), {Key(sp, sl), Key(dp, dl)})
    ensures Child(RenameAt(ns, sp, sl, src, dp, dl, dst), sp, sl) == None
    ensures Child(RenameAt(ns, sp, sl, src, dp, dl, dst), dp, dl) == Some(src)
  {
    if IsDirNode(ns, src) {
      ReplacedDirGone(ns, sp, sl, src, dp, dl, dst);
    }
    MoveEntriesElsewhere(ns, sp, sl, src, dp, dl, dst);
  }

  lemma MoveOwnEntries(ns: NS, sp: Id, sl: Name, src: Id, dp: Id, dl: Name, dst: Option<Id>)
    requires EntriesOk(ns) && RootOk(ns) && MayMove(ns, sp, sl, src, dp, dl, dst)
    requires dst.Some? && IsDirNode(ns, src) ==>
               dst.value != src && dst.value != sp && dst.value != dp && dst.value != 0
    ensures Child(RenameAt(ns, sp, sl, src, dp, dl, dst), sp, sl) == None
    ensures Child(RenameAt(ns, sp, sl, src, dp, dl, dst), dp, dl) == Some(src)
  {
    var ns' := RenameAt(ns, sp, sl, src, dp, dl, dst);
    assert ns'.dirs[Key(dp, dl)] == src;
    assert Referenced(ns'.dirs, src);
  }

  lemma MoveEntriesElsewhere(ns: NS, sp: Id, sl: Name, src: Id, dp: Id, dl: Name, dst: Option<Id>)
    requires EntriesOk(ns) && RootOk(ns) && MayMove(ns, sp, sl, src, dp, dl, dst)
    requires dst.Some? && IsDirNode(ns, src) ==>
               dst.value != src && dst.value != sp && dst.value != dp && dst.value != 0
    ensures SameElsewhere(ns, RenameAt(ns, sp, sl, src, dp, dl, dst), {Key(sp, sl), Key(dp, dl)})
    ensures Child(RenameAt(ns, sp, sl, src, dp, dl, dst), sp, sl) == None
    ensures Child(RenameAt(ns, sp, sl, src, dp, dl, dst), dp, dl) == Some(src)
  {
    var ns' := RenameAt(ns, sp, sl, src, dp, dl, dst);
    MoveOwnEntries(ns, sp, sl, src, dp, dl, dst);
    forall e, y: Name | e in ns.meta && y.Word? && Key(e, y) != Key(sp, sl) && Key(e, y) != Key(dp, dl)
      ensures Child(ns', e, y) == Child(ns, e, y)
    {
      if Key(e, y) in ns.dirs {
        assert dst == Some(e) && IsDirNode(ns, e) ==> HasEntries(ns, e);
        assert ns'.dirs[Key(e, y)] == ns.dirs[Key(e, y)];
        assert Referenced(ns'.dirs, ns.dirs[Key(e, y)]);
      }
    }
  }

  /** A path that leads neither through the old name nor through the new one keeps its meaning. */
  lemma MoveOtherPaths(ns: NS, p: Path, q: Path, sp: Id, src: Id, dp: Id, dst: Option<Id>, r: Path)
    requires Inv(ns) && HoldsLeaf(ns, p, sp) && HoldsLeaf(ns, q, dp) && ValidPath(r)
    requires MayMove(ns, sp, Leaf(p), src, dp, Leaf(q), dst)
    requires !Under(r, p) && !Under(r, q)
    ensures Resolve(RenameAt(ns, sp, Leaf(p), src, dp, Leaf(q), dst), r) == Resolve(ns, r)
  {
    MoveElsewhere(ns, sp, Leaf(p), src, dp, Leaf(q), dst);
    if Meets(ns, r, Key(sp, Leaf(p))) {
      MeetsIsUnder(ns, p, r);
    }
    if Meets(ns, r, Key(dp, Leaf(q))) {
      MeetsIsUnder(ns, q, r);
    }
    SamePath(ns, RenameAt(ns, sp, Leaf(p), src, dp, Leaf(q), dst), {Key(sp, Leaf(p)), Key(dp, Leaf(q))}, r);
  }

  /** The old name and everything below it stops resolving. */
  lemma MoveOldPaths(ns: NS, p: Path, q: Path, sp: Id, src: Id, dp: Id, dst: Option<Id>, r: Path)
    requires Inv(ns) && HoldsLeaf(ns, p, sp) && HoldsLeaf(ns, q, dp) && ValidPath(r)
    requires MayMove(ns, sp, Leaf(p), src, dp, Leaf(q), dst)
    requires Under(r, p)
    ensures Resolve(RenameAt(ns, sp, Leaf(p), src, dp, Leaf(q), dst), r).None?
  {
    var ns' := RenameAt(ns, sp, Leaf(p), src, dp, Leaf(q), dst);
    MoveNotOntoAncestor(ns, p, q, sp, src, dp, dst);
    MoveElsewhere(ns, sp, Leaf(p), src, dp, Leaf(q), dst);
    assert !Under(Parent(p), q);
    MoveOtherPaths(ns, p, q, sp, src, dp, dst, Parent(p));
    ResolveBelowNone(ns', p, r);
  }

  /** Below p no directory is the one that holds q's last token, unless q lies below p. */
  lemma HolderNotBelow(ns: NS, p: Path, t: Path, q: Path, d: Id)
    requires Inv(ns) && HoldsLeaf(ns, q, d) && ValidPath(p + t) && !Under(Parent(q), p)
    ensures Resolve(ns, p + t) != Some(d)
  {
    assert Under(p + t, p);
    if Resolve(ns, p + t) == Some(d) {
      DirPathUnique(ns, p + t, Parent(q));
    }
  }

  ghost predicate HoldsNone(ns: NS, r: Path, edited: set<Key>) {
    forall k | k in edited :: Resolve(ns, r) != Some(k.dir)
  }

  lemma FollowStep(ns: NS, ns': NS, r: Path, r': Path, edited: set<Key>, x: Name)
    requires SameElsewhere(ns, ns', edited) && Resolve(ns', r') == Resolve(ns, r) && x.Word?
    requires HoldsNone(ns, r, edited)
    ensures Resolve(ns', r' + [x]) == Resolve(ns, r + [x])
  {
    ResolveLive(ns, r);
    ResolveExtend(ns, r, x);
    ResolveExtend(ns', r', x);
  }

  /** A subtree none of whose entries is edited keeps its meaning below its new name. */
  lemma {:induction false} SubtreeFollows(ns: NS, ns': NS, p: Path, q: Path, edited: set<Key>, s: Path)
    requires SameElsewhere(ns, ns', edited) && Resolve(ns', q) == Resolve(ns, p) && ValidPath(s)
    requires forall t {:trigger HoldsNone(ns, p + t, edited)} | ValidPath(t) :: HoldsNone(ns, p + t, edited)
    ensures Resolve(ns', q + s) == Resolve(ns, p + s)
    decreases |s|
  {
    if s == [] {
      assert p + s == p && q + s == q;
    } else {
      var t := Parent(s);
      SubtreeFollows(ns, ns', p, q, edited, t);
      assert HoldsNone(ns, p + t, edited);
      SplitLast(p, s);
      SplitLast(q, s);
      FollowStep(ns, ns', p + t, q + t, edited, Leaf(s));
    }
  }

  /** The new name leads to exactly the subtree the old name led to. */
  lemma MoveNewPaths(ns: NS, p: Path, q: Path, sp: Id, src: Id, dp: Id, dst: Option<Id>, s: Path)
    requires Inv(ns) && HoldsLeaf(ns, p, sp) && HoldsLeaf(ns, q, dp) && ValidPath(s)
    requires MayMove(ns, sp, Leaf(p), src, dp, Leaf(q), dst)
    ensures Resolve(RenameAt(ns, sp, Leaf(p), src, dp, Leaf(q), dst), q + s) == Resolve(ns, p + s)
  {
    var ns' := RenameAt(ns, sp, Leaf(p), src, dp, Leaf(q), dst);
    var edited := {Key(sp, Leaf(p)), Key(dp, Leaf(q))};
    MoveNotBelowItself(ns, p, q, sp, src, dp, dst);
    MoveElsewhere(ns, sp, Leaf(p), src, dp, Leaf(q), dst);
    ResolveHeld(ns, p, sp);
    assert !Under(Parent(q), p);
    MoveOtherPaths(ns, p, q, sp, src, dp, dst, Parent(q));
    forall t | ValidPath(t)
      ensures HoldsNone(ns, p + t, edited)
    {
      HolderNotBelow(ns, p, t, p, sp);
      HolderNotBelow(ns, p, t, q, dp);
    }
    SubtreeFollows(ns, ns', p, q, edited, s);
  }

  /** A rename moves exactly one subtree. */
  lemma MoveMovesOneSubtree(ns: NS, p: Path, q: Path, sp: Id, src: Id, dp: Id, dst: Option<Id>)
    requires Inv(ns) && HoldsLeaf(ns, p, sp) && HoldsLeaf(ns, q, dp)
    requires MayMove(ns, sp, Leaf(p), src, dp, Leaf(q), dst)
    ensures SubtreeMoved(ns, RenameAt(ns, sp, Leaf(p), src, dp, Leaf(q), dst), p, q)
  {
    var ns' := RenameAt(ns, sp, Leaf(p), src, dp, Leaf(q), dst);
    forall s | ValidPath(s)
      ensures Resolve(ns', q + s) == Resolve(ns, p + s)
    {
      MoveNewPaths(ns, p, q, sp, src, dp, dst, s);
    }
    forall r | ValidPath(r) && Under(r, p)
      ensures Resolve(ns', r).None?
    {
      MoveOldPaths(ns, p, q, sp, src, dp, dst, r);
    }
    forall r | ValidPath(r) && !Under(r, p) && !Under(r, q)
      ensures Resolve(ns', r) == Resolve(ns, r)
    {
      MoveOtherPaths(ns, p, q, sp, src, dp, dst, r);
    }
  }

  ghost predicate SubtreeMoved(ns: NS, ns': NS, p: Path, q: Path) {
    && (forall s | ValidPath(s) :: Resolve(ns', q + s) == Resolve(ns, p + s))
    && (forall r | ValidPath(r) && Under(r, p) :: Resolve(ns', r).None?)
    && (forall r | ValidPath(r) && !Under(r, p) && !Under(r, q) :: Resolve(ns', r) == Resolve(ns, r))
  }

  /** With both names linked to one file, the old name still goes. */
  lemma LinkedNamesRename(ns: NS, p: Path, q: Path, sp: Id, src: Id, dp: Id)
    requires Inv(ns) && HoldsLeaf(ns, p, sp) && HoldsLeaf(ns, q, dp)
    requires MayMove(ns, sp, Leaf(p), src, dp, Leaf(q), Some(src))
    ensures Resolve(ns, p) == Resolve(ns, q) == Some(src)
    ensures var ns' := RenameAt(ns, sp, Leaf(p), src, dp, Leaf(q), Some(src));
            Resolve(ns', p).None? && Resolve(ns', q) == Some(src) && ns' != ns
  {
    ResolveHeld(ns, p, sp);
    ResolveHeld(ns, q, dp);
    hide Inv, MayMove, RenameAt, HoldsLeaf, Resolve;
    MoveMovesOneSubtree(ns, p, q, sp, src, dp, Some(src));
    assert ValidPath([]) && q + [] == q && p + [] == p;
    HeldIsValid(ns, p, sp);
  }

  lemma HeldIsValid(ns: NS, p: Path, d: Id)
    requires HoldsLeaf(ns, p, d)
    ensures ValidPath(p) && Under(p, p)
  {
  }
}
