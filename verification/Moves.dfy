/** Rename: the tree shape is kept, and exactly one subtree moves. */
module Moves {
  import opened Wrappers
  import opened Namespace
  import opened Tree
  import opened Ops
  import opened Frames
  import opened Shape

  /** The state in which rename starts to write: src is listed in sp as sl, and is to be listed
      in dp as dl in place of dst, if there is one. */
  ghost predicate MayMove(ns: NS, sp: Id, sl: Name, src: Id, dp: Id, dl: Name, dst: Option<Id>) {
    && IsDirNode(ns, sp) && IsDirNode(ns, dp) && sl.Word? && ValidName(dl)
    && Child(ns, sp, sl) == Some(src) && Child(ns, dp, dl) == dst
    && Key(sp, sl) != Key(dp, dl)
    && (IsDirNode(ns, src) ==> !Below(ns, dp, src))
    && (dst.Some? ==> IsDirNode(ns, dst.value) == IsDirNode(ns, src))
    && (dst.Some? && IsDirNode(ns, src) ==> !HasEntries(ns, dst.value))
  }

  lemma MoveFileReferenced(ns: NS, sp: Id, sl: Name, src: Id, dp: Id, dl: Name, dst: Option<Id>)
    requires EntriesOk(ns) && EachReferenced(ns) && MayMove(ns, sp, sl, src, dp, dl, dst) && !IsDirNode(ns, src)
    ensures EachReferenced(RenameAt(ns, sp, sl, src, dp, dl, dst))
  {
    var ns' := RenameAt(ns, sp, sl, src, dp, dl, dst);
    forall e | e in ns'.meta
      ensures Referenced(ns'.dirs, e)
    {
      if e == src {
        assert ns'.dirs[Key(dp, dl)] == src;
      } else if dst != Some(e) {
        assert Referenced(ns.dirs, e);
        StaysReferenced(ns, ns', e);
      }
    }
  }

  lemma MoveFileEntries(ns: NS, sp: Id, sl: Name, src: Id, dp: Id, dl: Name, dst: Option<Id>)
    requires EntriesOk(ns) && MayMove(ns, sp, sl, src, dp, dl, dst) && !IsDirNode(ns, src)
    ensures EntriesOk(RenameAt(ns, sp, sl, src, dp, dl, dst))
  {
    var ns' := RenameAt(ns, sp, sl, src, dp, dl, dst);
    forall k | k in ns'.dirs
      ensures ns'.dirs[k] in ns'.meta
    {
      assert Referenced(ns'.dirs, ns'.dirs[k]);
    }
  }

  lemma MoveFileDirectories(ns: NS, sp: Id, sl: Name, src: Id, dp: Id, dl: Name, dst: Option<Id>)
    requires EntriesOk(ns) && MayMove(ns, sp, sl, src, dp, dl, dst) && !IsDirNode(ns, src)
    ensures SameDirectories(ns, RenameAt(ns, sp, sl, src, dp, dl, dst))
  {
  }

  lemma MoveFileDots(ns: NS, sp: Id, sl: Name, src: Id, dp: Id, dl: Name, dst: Option<Id>)
    requires EntriesOk(ns) && DotsOk(ns) && MayMove(ns, sp, sl, src, dp, dl, dst) && !IsDirNode(ns, src)
    ensures DotsOk(RenameAt(ns, sp, sl, src, dp, dl, dst))
  {
    hide RenameAt, MayMove, EntriesOk;
    MoveFileDirectories(ns, sp, sl, src, dp, dl, dst);
    MoveFileOwnEntries(ns, sp, sl, src, dp, dl, dst);
  }

  lemma MoveFileOwnEntries(ns: NS, sp: Id, sl: Name, src: Id, dp: Id, dl: Name, dst: Option<Id>)
    requires MayMove(ns, sp, sl, src, dp, dl, dst) && !IsDirNode(ns, src)
    ensures forall k | k in ns.dirs && !Named(k) :: k in RenameAt(ns, sp, sl, src, dp, dl, dst).dirs
  {
    hide Below, HasEntries, Referenced;
  }

  lemma MoveFileKeepsInv(ns: NS, sp: Id, sl: Name, src: Id, dp: Id, dl: Name, dst: Option<Id>)
    requires Inv(ns) && MayMove(ns, sp, sl, src, dp, dl, dst) && !IsDirNode(ns, src)
    ensures Inv(RenameAt(ns, sp, sl, src, dp, dl, dst))
  {
    hide RootOk, EntriesOk, DotsOk, ListedByParent, ListedOnce, EachListed, EachReferenced, Acyclic, RenameAt;
    MoveFileReferenced(ns, sp, sl, src, dp, dl, dst);
    MoveFileEntries(ns, sp, sl, src, dp, dl, dst);
    MoveFileDirectories(ns, sp, sl, src, dp, dl, dst);
    MoveFileDots(ns, sp, sl, src, dp, dl, dst);
    SameDirectoriesKeepInv(ns, RenameAt(ns, sp, sl, src, dp, dl, dst));
  }

  /** Nothing is left that leads to a replaced directory, and nothing sits in it. */
  lemma ReplacedDirGone(ns: NS, sp: Id, sl: Name, src: Id, dp: Id, dl: Name, dst: Option<Id>)
    requires Inv(ns) && MayMove(ns, sp, sl, src, dp, dl, dst) && IsDirNode(ns, src)
    ensures dst.Some? ==> dst.value != src && dst.value != sp && dst.value != dp && dst.value != 0
    ensures dst.Some? ==> !Referenced(MovedDirs(ns, sp, sl, src, dp, dl, dst), dst.value)
  {
    if dst.Some? {
      assert SubdirEntry(ns, Key(sp, sl)) && SubdirEntry(ns, Key(dp, dl));
      var dirs' := MovedDirs(ns, sp, sl, src, dp, dl, dst);
      forall k | k in dirs'
        ensures dirs'[k] != dst.value
      {
        if k in ns.dirs && ns.dirs[k] == dst.value {
          OnlyOwnEntries(ns, Key(dp, dl), dst.value, k);
        }
      }
    }
  }

  /** The directories after the move, the moved one below dp. */
  ghost predicate DirectoryMoved(ns: NS, ns': NS, sp: Id, sl: Name, src: Id, dp: Id, dl: Name, dst: Option<Id>) {
    && (forall e: Id :: IsDirNode(ns', e) == (IsDirNode(ns, e) && dst != Some(e)))
    && (forall e: Id {:trigger Up(ns', e)} | dst != Some(e) :: Up(ns', e) == if e == src then dp else Up(ns, e))
    && (forall k :: SubdirEntry(ns', k) ==
                    (k == Key(dp, dl) || (SubdirEntry(ns, k) && k != Key(sp, sl))))
    && (forall k | SubdirEntry(ns', k) :: ns'.dirs[k] == if k == Key(dp, dl) then src else ns.dirs[k])
  }

  lemma MoveDirNodes(ns: NS, sp: Id, sl: Name, src: Id, dp: Id, dl: Name, dst: Option<Id>)
    requires EntriesOk(ns) && MayMove(ns, sp, sl, src, dp, dl, dst) && IsDirNode(ns, src)
    requires dst.Some? ==> !Referenced(MovedDirs(ns, sp, sl, src, dp, dl, dst), dst.value)
    ensures forall e: Id :: IsDirNode(RenameAt(ns, sp, sl, src, dp, dl, dst), e) == (IsDirNode(ns, e) && dst != Some(e))
  {
    hide MovedDirs;
  }

  lemma MoveDirUps(ns: NS, sp: Id, sl: Name, src: Id, dp: Id, dl: Name, dst: Option<Id>)
    requires EntriesOk(ns) && MayMove(ns, sp, sl, src, dp, dl, dst) && IsDirNode(ns, src)
    requires dst.Some? ==> dst.value != src
    ensures forall e: Id {:trigger Up(RenameAt(ns, sp, sl, src, dp, dl, dst), e)} | dst != Some(e) ::
              Up(RenameAt(ns, sp, sl, src, dp, dl, dst), e) == if e == src then dp else Up(ns, e)
  {
    hide EntriesOk, Referenced, Below, HasEntries;
  }

  lemma MoveDirSubdirs(ns: NS, sp: Id, sl: Name, src: Id, dp: Id, dl: Name, dst: Option<Id>)
    requires EntriesOk(ns) && MayMove(ns, sp, sl, src, dp, dl, dst) && IsDirNode(ns, src)
    requires dst.Some? ==> dst.value != src
    requires dst.Some? ==> !Referenced(MovedDirs(ns, sp, sl, src, dp, dl, dst), dst.value)
    requires forall e: Id :: IsDirNode(RenameAt(ns, sp, sl, src, dp, dl, dst), e) == (IsDirNode(ns, e) && dst != Some(e))
    ensures var ns' := RenameAt(ns, sp, sl, src, dp, dl, dst);
            && (forall k :: SubdirEntry(ns', k) == (k == Key(dp, dl) || (SubdirEntry(ns, k) && k != Key(sp, sl))))
            && (forall k | SubdirEntry(ns', k) :: ns'.dirs[k] == if k == Key(dp, dl) then src else ns.dirs[k])
  {
    hide IsDirNode, Below, HasEntries;
    var ns' := RenameAt(ns, sp, sl, src, dp, dl, dst);
    assert ns'.dirs[Key(dp, dl)] == src;
    assert forall k | k in ns'.dirs :: dst != Some(ns'.dirs[k]);
  }

  lemma MoveDirDirectories(ns: NS, sp: Id, sl: Name, src: Id, dp: Id, dl: Name, dst: Option<Id>)
    requires EntriesOk(ns) && MayMove(ns, sp, sl, src, dp, dl, dst) && IsDirNode(ns, src)
    requires dst.Some? ==> dst.value != src
    requires dst.Some? ==> !Referenced(MovedDirs(ns, sp, sl, src, dp, dl, dst), dst.value)
    ensures DirectoryMoved(ns, RenameAt(ns, sp, sl, src, dp, dl, dst), sp, sl, src, dp, dl, dst)
  {
    hide RenameAt, MayMove;
    MoveDirNodes(ns, sp, sl, src, dp, dl, dst);
    MoveDirUps(ns, sp, sl, src, dp, dl, dst);
    MoveDirSubdirs(ns, sp, sl, src, dp, dl, dst);
  }

  lemma MoveDirEntries(ns: NS, sp: Id, sl: Name, src: Id, dp: Id, dl: Name, dst: Option<Id>)
    requires EntriesOk(ns) && MayMove(ns, sp, sl, src, dp, dl, dst) && IsDirNode(ns, src)
    requires dst.Some? ==> dst.value != src && dst.value != sp && dst.value != dp
    requires dst.Some? ==> !Referenced(MovedDirs(ns, sp, sl, src, dp, dl, dst), dst.value)
    ensures EntriesOk(RenameAt(ns, sp, sl, src, dp, dl, dst))
  {
    var ns' := RenameAt(ns, sp, sl, src, dp, dl, dst);
    forall k | k in ns'.dirs
      ensures IsDirNode(ns', k.dir)
    {
      assert k in ns.dirs ==> dst.Some? && k.dir == dst.value ==> Named(k) || k in ReplacedKeys(ns, src, dp, dl, dst);
    }
  }

  lemma MoveDirReferenced(ns: NS, sp: Id, sl: Name, src: Id, dp: Id, dl: Name, dst: Option<Id>)
    requires Inv(ns) && MayMove(ns, sp, sl, src, dp, dl, dst) && IsDirNode(ns, src)
    ensures EachReferenced(RenameAt(ns, sp, sl, src, dp, dl, dst))
  {
    var ns' := RenameAt(ns, sp, sl, src, dp, dl, dst);
    ReplacedDirGone(ns, sp, sl, src, dp, dl, dst);
    forall e | e in ns'.meta
      ensures Referenced(ns'.dirs, e)
    {
      if IsDirNode(ns, e) {
        assert Key(e, Dot) in ns.dirs;
        assert ns'.dirs[Key(e, Dot)] == e;
      } else {
        assert Referenced(ns.dirs, e);
        assert IsDirNode(ns, Up(ns, src));
        if dst.Some? {
          assert Key(dst.value, Dot) in ns.dirs;
          assert IsDirNode(ns, Up(ns, dst.value));
        }
        StaysReferenced(ns, ns', e);
      }
    }
  }

  lemma MoveDirDots(ns: NS, ns': NS, sp: Id, sl: Name, src: Id, dp: Id, dl: Name, dst: Option<Id>)
    requires DotsOk(ns) && IsDirNode(ns, dp) && IsDirNode(ns, src)
    requires ns' == RenameAt(ns, sp, sl, src, dp, dl, dst) && sl.Word? && dl.Word?
    requires DirectoryMoved(ns, ns', sp, sl, src, dp, dl, dst)
    requires dst != Some(dp)
    requires dst.Some? ==> forall e {:trigger Up(ns, e)} | IsDirNode(ns, e) && e != dst.value :: Up(ns, e) != dst.value
    ensures DotsOk(ns')
  {
  }

  lemma MoveDirListings(ns: NS, ns': NS, sp: Id, sl: Name, src: Id, dp: Id, dl: Name, dst: Option<Id>)
    requires ListedByParent(ns) && ListedOnce(ns) && EachListed(ns)
    requires MayMove(ns, sp, sl, src, dp, dl, dst) && IsDirNode(ns, src)
    requires DirectoryMoved(ns, ns', sp, sl, src, dp, dl, dst)
    requires forall k | SubdirEntry(ns', k) :: dst != Some(ns'.dirs[k])
    ensures ListedByParent(ns') && ListedOnce(ns')
  {
    assert SubdirEntry(ns, Key(sp, sl));
    assert SubdirEntry(ns', Key(dp, dl));
  }

  lemma MoveDirEachListed(ns: NS, ns': NS, sp: Id, sl: Name, src: Id, dp: Id, dl: Name, dst: Option<Id>)
    requires EachListed(ns)
    requires MayMove(ns, sp, sl, src, dp, dl, dst) && IsDirNode(ns, src)
    requires DirectoryMoved(ns, ns', sp, sl, src, dp, dl, dst)
    ensures EachListed(ns')
  {
    forall e | IsDirNode(ns', e) && e != 0
      ensures Listed(ns', e)
    {
      if e == src {
        assert SubdirEntry(ns', Key(dp, dl));
      } else {
        assert Listed(ns, e);
        var k :| SubdirEntry(ns, k) && ns.dirs[k] == e;
        assert SubdirEntry(ns', k);
      }
    }
  }

  lemma {:induction false} MovedReachesRoot(ns: NS, ns': NS, src: Id, dst: Option<Id>, e: Id, n: nat)
    requires DotsOk(ns) && IsDirNode(ns, e) && UpN(ns, e, n) == src
    requires ReachesRoot(ns', src)
    requires forall d: Id {:trigger Up(ns', d)} | IsDirNode(ns, d) && dst != Some(d) && d != src :: Up(ns', d) == Up(ns, d)
    requires dst.Some? ==> !Below(ns, e, dst.value)
    ensures ReachesRoot(ns', e)
    decreases n
  {
    if e != src {
      if dst.Some? {
        BelowSelf(ns, e);
        BelowStep(ns, e, dst.value);
      }
      MovedReachesRoot(ns, ns', src, dst, Up(ns, e), n - 1);
      ReachesRootByParent(ns', e);
    }
  }

  lemma MoveDirAcyclic(ns: NS, ns': NS, sp: Id, sl: Name, src: Id, dp: Id, dl: Name, dst: Option<Id>)
    requires Inv(ns) && MayMove(ns, sp, sl, src, dp, dl, dst) && IsDirNode(ns, src)
    requires DirectoryMoved(ns, ns', sp, sl, src, dp, dl, dst)
    ensures Acyclic(ns')
  {
    hide EntriesOk, ListedByParent, ListedOnce, EachListed, EachReferenced;
    ReplacedDirGone(ns, sp, sl, src, dp, dl, dst);
    var moved := if dst.Some? then {src, dst.value} else {src};
    forall e: Id | IsDirNode(ns, e) && dst != Some(e)
      ensures dst.Some? ==> !Below(ns, e, dst.value)
    {
      if dst.Some? {
        EmptyDirBelowNothing(ns, e, dst.value);
      }
    }
    assert ReachesRoot(ns, dp);
    KeepsReachingRoot(ns, ns', moved, dp);
    ReachesRootByParent(ns', src);
    forall e | IsDirNode(ns', e)
      ensures ReachesRoot(ns', e)
    {
      if Below(ns, e, src) {
        var n: nat :| UpN(ns, e, n) == src;
        MovedReachesRoot(ns, ns', src, dst, e, n);
      } else {
        assert ReachesRoot(ns, e);
        KeepsReachingRoot(ns, ns', moved, e);
      }
    }
  }

  lemma MoveDirKeepsInv(ns: NS, sp: Id, sl: Name, src: Id, dp: Id, dl: Name, dst: Option<Id>)
    requires Inv(ns) && MayMove(ns, sp, sl, src, dp, dl, dst) && IsDirNode(ns, src)
    ensures Inv(RenameAt(ns, sp, sl, src, dp, dl, dst))
  {
    var ns' := RenameAt(ns, sp, sl, src, dp, dl, dst);
    ReplacedDirGone(ns, sp, sl, src, dp, dl, dst);
    MoveDirDirectories(ns, sp, sl, src, dp, dl, dst);
    MoveDirEntries(ns, sp, sl, src, dp, dl, dst);
    MoveDirReferenced(ns, sp, sl, src, dp, dl, dst);
    forall e {:trigger Up(ns, e)} | dst.Some? && IsDirNode(ns, e) && e != dst.value
      ensures Up(ns, e) != dst.value
    {
      EmptyDirBelowNothing(ns, e, dst.value);
    }
    MoveDirDots(ns, ns', sp, sl, src, dp, dl, dst);
    assert SubdirEntry(ns, Key(sp, sl));
    assert forall k | SubdirEntry(ns', k) :: dst != Some(ns'.dirs[k]);
    MoveDirListings(ns, ns', sp, sl, src, dp, dl, dst);
    MoveDirEachListed(ns, ns', sp, sl, src, dp, dl, dst);
    MoveDirAcyclic(ns, ns', sp, sl, src, dp, dl, dst);
  }

  /** A file or a directory moves to a new name, and the tree shape is kept. */
  lemma MoveKeepsInv(ns: NS, sp: Id, sl: Name, src: Id, dp: Id, dl: Name, dst: Option<Id>)
    requires Inv(ns) && MayMove(ns, sp, sl, src, dp, dl, dst)
    ensures Inv(RenameAt(ns, sp, sl, src, dp, dl, dst))
  {
    if IsDirNode(ns, src) {
      MoveDirKeepsInv(ns, sp, sl, src, dp, dl, dst);
    } else {
      MoveFileKeepsInv(ns, sp, sl, src, dp, dl, dst);
    }
  }
}
