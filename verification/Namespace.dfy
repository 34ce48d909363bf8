/** The tables of the file system without their link counts, and the uncached path walk. */
module Namespace {
  import opened Wrappers
  import opened Modes

  type Id = nat

  /** An entry name. The two names every directory has are set apart from all the others. */
  datatype Name = Dot | DotDot | Word(text: string)

  type Path = seq<Name>

  const EMPTY_NAME: Name := Word("")

  /** A key of the directories table: an entry name in the register of a directory. */
  datatype Key = Key(dir: Id, name: Name)

  /** Node attributes by id, and directory entries, "." and ".." included, by key. */
  datatype NS = NS(meta: map<Id, Meta>, dirs: map<Key, Id>)

  datatype Errno = OK | ENOENT | ENOTDIR | EACCES | EEXIST | EISDIR | ENOTEMPTY | EINVAL | EPERM | EIO

  predicate ValidName(x: Name) {
    x.Word? && x != EMPTY_NAME
  }

  predicate ValidPath(p: Path) {
    forall i | 0 <= i < |p| :: ValidName(p[i])
  }

  function Parent(p: Path): Path {
    if p == [] then [] else p[..|p| - 1]
  }

  function Leaf(p: Path): Name {
    if p == [] then EMPTY_NAME else p[|p| - 1]
  }

  lemma SplitLast(p: Path, s: Path)
    requires s != []
    ensures p + s == (p + Parent(s)) + [Leaf(s)]
  {
  }

  /** p is q or lies below it. */
  predicate Under(p: Path, q: Path) {
    q <= p
  }

  /** p lies strictly below q. */
  predicate StrictlyUnder(p: Path, q: Path) {
    q < p
  }

  predicate IsDirNode(ns: NS, d: Id) {
    d in ns.meta && IsDir(ns.meta[d].mode)
  }

  predicate Named(k: Key) {
    k.name.Word?
  }

  predicate Referenced(dirs: map<Key, Id>, c: Id) {
    exists k :: k in dirs && dirs[k] == c
  }

  /** The node an entry of a directory leads to. */
  function Child(ns: NS, d: Id, name: Name): Option<Id> {
    if IsDirNode(ns, d) && Key(d, name) in ns.dirs && ns.dirs[Key(d, name)] in ns.meta
    then Some(ns.dirs[Key(d, name)])
    else None
  }

  /** What a path names, permissions aside. */
  function Resolve(ns: NS, p: Path): Option<Id> {
    if p == [] then
      if 0 in ns.meta then Some(0) else None
    else
      match Resolve(ns, Parent(p))
      case None => None
      case Some(d) => Child(ns, d, Leaf(p))
  }

  /** One token of the uncached walk: search permission, then the cast, then the entry. */
  function WalkStep(ns: NS, ctx: SContext, d: Id, name: Name): Result<Id, Errno>
    requires d in ns.meta
  {
    if !Access(ctx, ns.meta[d], X_OK) then Err(EACCES)
    else if !IsDir(ns.meta[d].mode) then Err(ENOTDIR)
    else match Child(ns, d, name)
         case None => Err(ENOENT)
         case Some(c) => Ok(c)
  }

  /** The uncached walk from the root. */
  function Walk(ns: NS, ctx: SContext, p: Path): (r: Result<Id, Errno>)
    ensures r.Ok? ==> r.value in ns.meta
    ensures r.Err? ==> r.error in {ENOENT, ENOTDIR, EACCES}
  {
    if p == [] then
      if 0 in ns.meta then Ok(0) else Err(ENOENT)
    else
      match Walk(ns, ctx, Parent(p))
      case Err(e) => Err(e)
      case Ok(d) => WalkStep(ns, ctx, d, Leaf(p))
  }

  /** p names a directory the caller may search. */
  predicate SearchableDir(ns: NS, ctx: SContext, p: Path) {
    match Resolve(ns, p)
    case None => false
    case Some(d) => d in ns.meta && IsDir(ns.meta[d].mode) && Access(ctx, ns.meta[d], X_OK)
  }

  lemma ResolveLive(ns: NS, p: Path)
    ensures Resolve(ns, p).Some? ==> Resolve(ns, p).value in ns.meta
  {
  }

  /** The walk reaches a node exactly when the path names it and every
      directory above it is searchable. */
  lemma {:induction false} WalkResolves(ns: NS, ctx: SContext, p: Path)
    ensures Walk(ns, ctx, p).Ok? <==>
            Resolve(ns, p).Some? && forall k | 0 <= k < |p| :: SearchableDir(ns, ctx, p[..k])
    ensures Walk(ns, ctx, p).Ok? ==> Resolve(ns, p) == Some(Walk(ns, ctx, p).value)
  {
    if p != [] {
      var q := Parent(p);
      WalkResolves(ns, ctx, q);
      ResolveLive(ns, q);
      assert p[..|q|] == q;
      forall k | 0 <= k < |q|
        ensures p[..k] == q[..k]
      {
      }
      if Walk(ns, ctx, p).Ok? {
        assert forall k | 0 <= k < |q| :: SearchableDir(ns, ctx, q[..k]);
      } else if Walk(ns, ctx, q).Ok? {
        if SearchableDir(ns, ctx, p[..|q|]) {
          assert Resolve(ns, p).None?;
        }
      } else if Resolve(ns, q).Some? {
        var k :| 0 <= k < |q| && !SearchableDir(ns, ctx, q[..k]);
        assert !SearchableDir(ns, ctx, p[..k]);
      }
    }
  }

  lemma {:induction false} ResolvePrefix(ns: NS, p: Path, k: nat)
    requires k <= |p| && Resolve(ns, p).Some?
    ensures Resolve(ns, p[..k]).Some?
    ensures k < |p| ==> IsDirNode(ns, Resolve(ns, p[..k]).value)
    decreases |p|
  {
    if k == |p| {
      assert p[..k] == p;
    } else {
      var q := Parent(p);
      ResolvePrefix(ns, q, k);
      assert q[..k] == p[..k];
    }
  }

  /** Below an unresolvable path nothing resolves. */
  lemma ResolveBelowNone(ns: NS, p: Path, q: Path)
    requires Resolve(ns, p).None? && Under(q, p)
    ensures Resolve(ns, q).None?
  {
    assert q[..|p|] == p;
    if Resolve(ns, q).Some? {
      ResolvePrefix(ns, q, |p|);
    }
  }

  lemma WalkErr(ns: NS, ctx: SContext, p: Path)
    requires Resolve(ns, p).None? || exists k :: 0 <= k < |p| && !SearchableDir(ns, ctx, p[..k])
    ensures Walk(ns, ctx, p).Err?
  {
    WalkResolves(ns, ctx, p);
  }
}
