/** Every namespace step that leaves a directory where it is keeps the tree shape. */
module Shape {
  import opened Wrappers
  import opened Modes
  import opened Namespace
  import opened Tree
  import opened Ops
  import opened Frames

  lemma ReachesRootByParent(ns: NS, d: Id)
    requires ReachesRoot(ns, Up(ns, d))
    ensures ReachesRoot(ns, d)
  {
    var n: nat :| UpN(ns, Up(ns, d), n) == 0;
    assert UpN(ns, d, n + 1) == 0;
  }

  lemma StaysListed(ns: NS, ns': NS, e: Id)
    requires Listed(ns, e)
    requires forall k | SubdirEntry(ns, k) && ns.dirs[k] == e :: SubdirEntry(ns', k) && ns'.dirs[k] == e
    ensures Listed(ns', e)
  {
    var k :| SubdirEntry(ns, k) && ns.dirs[k] == e;
    assert SubdirEntry(ns', k);
  }

  lemma StaysReferenced(ns: NS, ns': NS, e: Id)
    requires Referenced(ns.dirs, e)
    requires forall k | k in ns.dirs && ns.dirs[k] == e :: k in ns'.dirs && ns'.dirs[k] == e
    ensures Referenced(ns'.dirs, e)
  {
    var k :| k in ns.dirs && ns.dirs[k] == e;
    assert ns'.dirs[k] == e;
  }

  ghost predicate SameDirectories(ns: NS, ns': NS) {
    && (forall e :: IsDirNode(ns', e) == IsDirNode(ns, e))
    && (forall e {:trigger Up(ns', e)} :: Up(ns', e) == Up(ns, e))
    && (forall k :: SubdirEntry(ns', k) == SubdirEntry(ns, k))
    && (forall k | SubdirEntry(ns, k) :: ns'.dirs[k] == ns.dirs[k])
  }

  /** A step that neither adds, removes nor moves a directory only has to keep its entries sound. */
  lemma SameDirectoriesKeepInv(ns: NS, ns': NS)
    requires Inv(ns) && SameDirectories(ns, ns')
    requires EntriesOk(ns') && DotsOk(ns') && EachReferenced(ns')
    ensures Inv(ns')
  {
    forall e | IsDirNode(ns', e) && e != 0
      ensures Listed(ns', e)
    {
      assert Listed(ns, e);
      StaysListed(ns, ns', e);
    }
    forall e | IsDirNode(ns', e)
      ensures ReachesRoot(ns', e)
    {
      assert ReachesRoot(ns, e);
      KeepsReachingRoot(ns, ns', {}, e);
    }
  }

  lemma AddReferenced(ns: NS, d: Id, x: Name, n: Id, m: Meta)
    requires Inv(ns) && Key(d, x) !in ns.dirs && n !in ns.meta
    ensures EachReferenced(AddAt(ns, d, x, n, m))
  {
    var ns' := AddAt(ns, d, x, n, m);
    forall e | e in ns'.meta
      ensures Referenced(ns'.dirs, e)
    {
      if e == n {
        assert ns'.dirs[Key(d, x)] == n;
      } else {
        assert Referenced(ns.dirs, e);
        StaysReferenced(ns, ns', e);
      }
    }
  }

  lemma AddDirKeepsTree(ns: NS, d: Id, x: Name, n: Id, m: Meta)
    requires Inv(ns) && IsDirNode(ns, d) && ValidName(x)
    requires Key(d, x) !in ns.dirs && n !in ns.meta && IsDir(m.mode)
    ensures EachListed(AddAt(ns, d, x, n, m)) && Acyclic(AddAt(ns, d, x, n, m))
  {
    var ns' := AddAt(ns, d, x, n, m);
    forall e | IsDirNode(ns', e) && e != 0
      ensures Listed(ns', e)
    {
      if e == n {
        assert SubdirEntry(ns', Key(d, x));
      } else {
        assert Listed(ns, e);
        StaysListed(ns, ns', e);
      }
    }
    forall e | IsDirNode(ns', e)
      ensures ReachesRoot(ns', e)
    {
      assert ReachesRoot(ns, d);
      KeepsReachingRoot(ns, ns', {}, d);
      if e == n {
        ReachesRootByParent(ns', n);
      } else {
        assert ReachesRoot(ns, e);
        KeepsReachingRoot(ns, ns', {}, e);
      }
    }
  }

  lemma AddEntries(ns: NS, d: Id, x: Name, n: Id, m: Meta)
    requires EntriesOk(ns) && IsDirNode(ns, d) && ValidName(x)
    requires Key(d, x) !in ns.dirs && n !in ns.meta
    ensures EntriesOk(AddAt(ns, d, x, n, m))
  {
  }

  lemma AddDots(ns: NS, d: Id, x: Name, n: Id, m: Meta)
    requires EntriesOk(ns) && DotsOk(ns) && IsDirNode(ns, d) && ValidName(x)
    requires n !in ns.meta
    ensures DotsOk(AddAt(ns, d, x, n, m))
    ensures RootOk(ns) ==> RootOk(AddAt(ns, d, x, n, m))
  {
    var ns' := AddAt(ns, d, x, n, m);
    forall e {:trigger Up(ns', e)} | IsDirNode(ns', e)
      ensures IsDirNode(ns', Up(ns', e))
    {
      if e != n {
        assert Up(ns', e) == Up(ns, e);
      }
    }
  }

  lemma AddFileSameDirectories(ns: NS, d: Id, x: Name, n: Id, m: Meta)
    requires EntriesOk(ns) && ValidName(x)
    requires Key(d, x) !in ns.dirs && n !in ns.meta && !IsDir(m.mode)
    ensures SameDirectories(ns, AddAt(ns, d, x, n, m))
  {
  }

  lemma AddDirListed(ns: NS, d: Id, x: Name, n: Id, m: Meta)
    requires EntriesOk(ns) && RootOk(ns) && ListedByParent(ns) && ValidName(x)
    requires Key(d, x) !in ns.dirs && n !in ns.meta && IsDir(m.mode)
    ensures ListedByParent(AddAt(ns, d, x, n, m))
  {
    var ns' := AddAt(ns, d, x, n, m);
    assert forall k | SubdirEntry(ns', k) :: k == Key(d, x) || (SubdirEntry(ns, k) && ns.dirs[k] != n);
  }

  lemma AddDirListedOnce(ns: NS, d: Id, x: Name, n: Id, m: Meta)
    requires EntriesOk(ns) && RootOk(ns) && ListedOnce(ns) && ValidName(x)
    requires Key(d, x) !in ns.dirs && n !in ns.meta && IsDir(m.mode)
    ensures ListedOnce(AddAt(ns, d, x, n, m))
  {
    var ns' := AddAt(ns, d, x, n, m);
    assert forall k | SubdirEntry(ns', k) :: k == Key(d, x) || (SubdirEntry(ns, k) && ns.dirs[k] != n);
  }

  /** A new file, directory or symbolic link. */
  lemma AddKeepsInv(ns: NS, d: Id, x: Name, n: Id, m: Meta)
    requires Inv(ns) && IsDirNode(ns, d) && ValidName(x)
    requires Key(d, x) !in ns.dirs && n !in ns.meta
    ensures Inv(AddAt(ns, d, x, n, m))
  {
    var ns' := AddAt(ns, d, x, n, m);
    AddReferenced(ns, d, x, n, m);
    AddEntries(ns, d, x, n, m);
    AddDots(ns, d, x, n, m);
    if IsDir(m.mode) {
      AddDirKeepsTree(ns, d, x, n, m);
      AddDirListed(ns, d, x, n, m);
      AddDirListedOnce(ns, d, x, n, m);
    } else {
      AddFileSameDirectories(ns, d, x, n, m);
      SameDirectoriesKeepInv(ns, ns');
    }
  }

  lemma LinkSameDirectories(ns: NS, d: Id, x: Name, n: Id)
    requires Key(d, x) !in ns.dirs && x.Word? && !IsDirNode(ns, n)
    ensures SameDirectories(ns, LinkAt(ns, d, x, n))
  {
  }

  lemma LinkReferenced(ns: NS, d: Id, x: Name, n: Id)
    requires EachReferenced(ns) && Key(d, x) !in ns.dirs
    ensures EachReferenced(LinkAt(ns, d, x, n))
  {
    forall e | e in ns.meta
      ensures Referenced(LinkAt(ns, d, x, n).dirs, e)
    {
      assert Referenced(ns.dirs, e);
      StaysReferenced(ns, LinkAt(ns, d, x, n), e);
    }
  }

  /** A further name for a node that is no directory. */
  lemma LinkKeepsInv(ns: NS, d: Id, x: Name, n: Id)
    requires Inv(ns) && IsDirNode(ns, d) && ValidName(x)
    requires Key(d, x) !in ns.dirs && n in ns.meta && !IsDirNode(ns, n)
    ensures Inv(LinkAt(ns, d, x, n))
  {
    LinkReferenced(ns, d, x, n);
    LinkSameDirectories(ns, d, x, n);
    SameDirectoriesKeepInv(ns, LinkAt(ns, d, x, n));
  }

  lemma UnlinkKeepsEntries(ns: NS, d: Id, x: Name, c: Id)
    requires Inv(ns) && Child(ns, d, x) == Some(c) && x.Word? && !IsDirNode(ns, c)
    ensures EntriesOk(UnlinkAt(ns, d, x, c)) && EachReferenced(UnlinkAt(ns, d, x, c))
  {
    var ns' := UnlinkAt(ns, d, x, c);
    forall e | e in ns'.meta
      ensures Referenced(ns'.dirs, e)
    {
      assert Referenced(ns.dirs, e);
      if e != c {
        StaysReferenced(ns, ns', e);
      }
    }
  }

  /** One name of a node that is no directory goes, and the node with its last name. */
  lemma UnlinkKeepsInv(ns: NS, d: Id, x: Name, c: Id)
    requires Inv(ns) && Child(ns, d, x) == Some(c) && x.Word? && !IsDirNode(ns, c)
    ensures Inv(UnlinkAt(ns, d, x, c))
  {
    hide RootOk, EntriesOk, DotsOk, ListedByParent, ListedOnce, EachListed, EachReferenced, Acyclic, UnlinkAt;
    UnlinkKeepsEntries(ns, d, x, c);
    UnlinkDirectories(ns, d, x, c);
    SameDirectoriesKeepInv(ns, UnlinkAt(ns, d, x, c));
  }

  lemma UnlinkDirectories(ns: NS, d: Id, x: Name, c: Id)
    requires DotsOk(ns) && Child(ns, d, x) == Some(c) && x.Word? && !IsDirNode(ns, c)
    ensures SameDirectories(ns, UnlinkAt(ns, d, x, c)) && DotsOk(UnlinkAt(ns, d, x, c))
  {
  }

  lemma EmptyDirBelowNothing(ns: NS, d: Id, c: Id)
    requires Inv(ns) && IsDirNode(ns, d) && d != c && c != 0 && !HasEntries(ns, c)
    ensures !Below(ns, d, c)
    ensures Up(ns, d) != c
  {
    if Below(ns, d, c) {
      var n: nat :| UpN(ns, d, n) == c;
      NothingBelowEmpty(ns, d, c, n);
    }
    NothingBelowEmpty(ns, d, c, 1);
    assert UpN(ns, d, 1) == UpN(ns, Up(ns, d), 0);
  }

  lemma {:induction false} SelfParentStays(ns: NS, c: Id, n: nat)
    requires Up(ns, c) == c
    ensures UpN(ns, c, n) == c
    decreases n
  {
    if n > 0 {
      SelfParentStays(ns, c, n - 1);
    }
  }

  lemma SelfParentIsRoot(ns: NS, c: Id)
    requires Inv(ns) && IsDirNode(ns, c) && Up(ns, c) == c
    ensures c == 0
  {
    assert ReachesRoot(ns, c);
    var n: nat :| UpN(ns, c, n) == 0;
    SelfParentStays(ns, c, n);
  }

  /** The entries that lead to an empty directory c are its listing and its own ".". */
  lemma OnlyOwnEntries(ns: NS, l: Key, c: Id, k: Key)
    requires Inv(ns) && SubdirEntry(ns, l) && ns.dirs[l] == c && !HasEntries(ns, c)
    requires k in ns.dirs && ns.dirs[k] == c
    ensures k == l || k == Key(c, Dot)
  {
    if k.name.Word? {
      assert SubdirEntry(ns, k);
    } else if k.name.DotDot? {
      assert Up(ns, k.dir) == c;
      if k.dir == c {
        SelfParentIsRoot(ns, c);
      } else {
        EmptyDirBelowNothing(ns, k.dir, c);
      }
    }
  }

  lemma RmdirEntries(ns: NS, d: Id, x: Name, c: Id)
    requires Inv(ns) && Child(ns, d, x) == Some(c) && x.Word? && IsDirNode(ns, c) && !HasEntries(ns, c)
    ensures forall k | k in RmdirAt(ns, d, x, c).dirs :: k.dir != c && ns.dirs[k] != c
    ensures EachReferenced(RmdirAt(ns, d, x, c))
  {
    var ns' := RmdirAt(ns, d, x, c);
    assert SubdirEntry(ns, Key(d, x));
    forall k | k in ns'.dirs
      ensures k.dir != c && ns.dirs[k] != c
    {
      if ns.dirs[k] == c {
        OnlyOwnEntries(ns, Key(d, x), c, k);
      }
    }
    forall e | e in ns'.meta
      ensures Referenced(ns'.dirs, e)
    {
      if IsDirNode(ns, e) {
        assert Key(e, Dot) in ns.dirs;
        assert ns'.dirs[Key(e, Dot)] == e;
      } else {
        assert Referenced(ns.dirs, e);
        assert IsDirNode(ns, Up(ns, c));
        assert Key(c, Dot) in ns.dirs;
        StaysReferenced(ns, ns', e);
      }
    }
  }

  lemma RmdirKeepsTree(ns: NS, d: Id, x: Name, c: Id)
    requires Inv(ns) && Child(ns, d, x) == Some(c) && x.Word? && IsDirNode(ns, c) && !HasEntries(ns, c)
    ensures EachListed(RmdirAt(ns, d, x, c)) && Acyclic(RmdirAt(ns, d, x, c))
  {
    var ns' := RmdirAt(ns, d, x, c);
    assert SubdirEntry(ns, Key(d, x));
    forall e | IsDirNode(ns', e) && e != 0
      ensures Listed(ns', e)
    {
      assert Listed(ns, e);
      StaysListed(ns, ns', e);
    }
    forall e | IsDirNode(ns', e)
      ensures ReachesRoot(ns', e)
    {
      assert ReachesRoot(ns, e);
      EmptyDirBelowNothing(ns, e, c);
      KeepsReachingRoot(ns, ns', {c}, e);
    }
  }

  /** An empty directory goes. */
  lemma RmdirKeepsInv(ns: NS, d: Id, x: Name, c: Id)
    requires Inv(ns) && Child(ns, d, x) == Some(c) && x.Word? && IsDirNode(ns, c) && !HasEntries(ns, c)
    ensures Inv(RmdirAt(ns, d, x, c))
  {
    var ns' := RmdirAt(ns, d, x, c);
    assert SubdirEntry(ns, Key(d, x));
    hide RootOk, EntriesOk, DotsOk, ListedByParent, ListedOnce, EachListed, EachReferenced, Acyclic, HasEntries;
    RmdirEntries(ns, d, x, c);
    RmdirKeepsTree(ns, d, x, c);
    RmdirKeepsDots(ns, d, x, c);
    RmdirKeepsListing(ns, d, x, c);
  }

  lemma RmdirKeepsDots(ns: NS, d: Id, x: Name, c: Id)
    requires Inv(ns) && SubdirEntry(ns, Key(d, x)) && ns.dirs[Key(d, x)] == c && !HasEntries(ns, c)
    requires forall k | k in RmdirAt(ns, d, x, c).dirs :: k.dir != c && ns.dirs[k] != c
    ensures var ns' := RmdirAt(ns, d, x, c); RootOk(ns') && EntriesOk(ns') && DotsOk(ns')
  {
    hide EachListed, EachReferenced, Acyclic, ListedOnce, HasEntries;
    var ns' := RmdirAt(ns, d, x, c);
    assert forall e {:trigger IsDirNode(ns', e)} :: IsDirNode(ns', e) == (IsDirNode(ns, e) && e != c);
    forall e | IsDirNode(ns', e)
      ensures IsDirNode(ns', Up(ns', e))
    {
      EmptyDirBelowNothing(ns, e, c);
    }
  }

  lemma RmdirKeepsListing(ns: NS, d: Id, x: Name, c: Id)
    requires Inv(ns) && x.Word?
    requires forall k | k in RmdirAt(ns, d, x, c).dirs :: k.dir != c && ns.dirs[k] != c
    ensures var ns' := RmdirAt(ns, d, x, c); ListedByParent(ns') && ListedOnce(ns')
  {
    hide EachListed, EachReferenced, Acyclic, RootOk;
    var ns' := RmdirAt(ns, d, x, c);
    assert forall k | SubdirEntry(ns', k) :: SubdirEntry(ns, k);
  }

  lemma SetMetaSameDirectories(ns: NS, n: Id, m: Meta)
    requires n in ns.meta && IsDir(m.mode) == IsDir(ns.meta[n].mode)
    ensures SameDirectories(ns, SetMeta(ns, n, m))
  {
    var ns' := SetMeta(ns, n, m);
    assert forall e :: IsDirNode(ns', e) == IsDirNode(ns, e);
  }

  /** New permission bits, owner or group. */
  lemma SetMetaKeepsInv(ns: NS, n: Id, m: Meta)
    requires Inv(ns) && n in ns.meta && IsDir(m.mode) == IsDir(ns.meta[n].mode)
    ensures Inv(SetMeta(ns, n, m))
  {
    SetMetaSameDirectories(ns, n, m);
    assert forall e {:trigger Referenced(ns.dirs, e)} | e in ns.meta :: Referenced(ns.dirs, e);
    SameDirectoriesKeepInv(ns, SetMeta(ns, n, m));
  }
}
