/** The operations of fs.cxx on the database and the path cache together. Each does, write by write,
    what CachedSteps says of it, for any contents of the cache; so it keeps the tables sound, and with
    the cache in step it ends as with uncached walks. */
module FileSystems {
  import opened Wrappers
  import opened Modes
  import opened Namespace
  import opened Tree
  import opened Ops
  import opened Shape
  import opened Moves
  import opened Coherence
  import opened Invalidation
  import opened Runs
  import opened CacheModel
  import opened CachedSteps
  import opened Agreement
  import opened Verdicts
  import opened Performed
  import opened Permissions
  import opened CacheState
  import opened PathCaches
  import opened FsDbs
  import opened Writes
  import opened Seqs

  /** The next request finds ids and room for its entries. */
  ghost predicate Room(ns: NS) {
    IdsLeft(ns) && |ns.dirs| + 3 <= INT32_MAX
  }

  class FS {
    const db: FsDb
    const pcache: PathCacheHash

    /** Stored link counts are right and the cache is intact. */
    ghost predicate Usable()
      reads this, db, pcache, pcache.st.heap.Keys
    {
      Sound(db.T()) && pcache.Valid()
    }

    ghost predicate Valid()
      reads this, db, pcache, pcache.st.heap.Keys
    {
      Usable() && Inv(db.View())
    }

    ghost function W(): World
      reads this, db, pcache
    {
      World(db.View(), Abs(pcache.st))
    }

    constructor (maxentries: nat, uid: nat, gid: nat)
      requires maxentries >= 1
      ensures Valid() && W() == World(Rebuilt(uid, gid), EMPTY) && InStep(W())
      ensures pcache.maxentries == maxentries
      ensures fresh(db) && fresh(pcache) && pcache.st.heap == map[]
    {
      db := new FsDb();
      pcache := new PathCacheHash(maxentries);
      new;
      RebuiltInv(uid, gid);
      db.Rebuild(uid, gid);
    }

    /** Path::Path: the directory that holds the last token. */
    method OpenParent(ctx: SContext, p: Path) returns (e: Errno, d: Id)
      requires Usable()
      modifies pcache, pcache.st.heap.Keys
      ensures Usable() && fresh(pcache.st.heap.Keys - old(pcache.st).heap.Keys)
      ensures (Abs(pcache.st), if e == OK then Ok(d) else Err(e))
              == OpenDir(db.View(), ctx, Abs(old(pcache.st)), p, pcache.maxentries)
      ensures e == OK ==> IsDirNode(db.View(), d)
    {
      hide Sound, Consistent, Abs, GetNodeIn;
      d := 0;
      var r := pcache.GetNode(db.View(), ctx, Parent(p));
      if r.Err? {
        return r.error, 0;
      }
      d := r.value;
      if !IsDir(db.nodes[d].meta.mode) {
        return ENOTDIR, d;
      }
      e := OK;
    }

    /** getattr and the other lookups: the node of a path. */
    method GetAttr(ctx: SContext, p: Path) returns (e: Errno, n: Id)
      requires Usable()
      modifies pcache, pcache.st.heap.Keys
      ensures Usable() && fresh(pcache.st.heap.Keys - old(pcache.st).heap.Keys)
      ensures (Abs(pcache.st), if e == OK then Ok(n) else Err(e))
              == GetNodeIn(db.View(), ctx, Abs(old(pcache.st)), p, pcache.maxentries)
      ensures Reply(W(), e) == Step(old(W()), Request(ctx, Op.GetAttr(p)), pcache.maxentries)
      ensures e == OK ==> n in db.View().meta
      ensures InStep(old(W())) && ValidPath(p) ==>
                InStep(W()) && if e == OK then Walk(db.View(), ctx, p) == Ok(n) else Walk(db.View(), ctx, p).Err?
    {
      hide Sound, Consistent, Abs, GetNodeIn, Walk, Coherent;
      ViewOfAbs(pcache.st);
      var r := pcache.GetNode(db.View(), ctx, p);
      ViewOfAbs(pcache.st);
      match r {
        case Err(f) => e, n := f, 0;
        case Ok(m) => e, n := OK, m;
      }
    }

    /** Path::create: permission on the directory, then the new node under the last token. */
    method PathCreate(ctx: SContext, p: Path, d: Id, mode: Mode) returns (e: Errno, n: Id)
      requires Sound(db.T()) && EntriesOk(db.View()) && IsDirNode(db.View(), d) && Room(db.View())
      requires IsDir(mode) ==> mode == S_IFDIR
      modifies db
      ensures Sound(db.T())
      ensures e == CreateCheck(old(db.View()), ctx, d, Leaf(p))
      ensures e != OK ==> db.View() == old(db.View())
      ensures e == OK ==> n == NextId(old(db.View()).meta.Keys) && n !in old(db.View()).meta
      ensures e == OK ==> db.View() == Entered(old(db.View()), d, Leaf(p), n, mode)
    {
      hide Sound, EntriesOk;
      n := 0;
      if !Access(ctx, db.nodes[d].meta, W_OK | X_OK) {
        return EACCES, 0;
      }
      n, e := db.CreateIn(d, Leaf(p), mode);
    }

    /** mkdir, once the parent directory is open. */
    method MakeDir(ctx: SContext, p: Path, d: Id, mode: Mode) returns (e: Errno)
      requires Sound(db.T()) && EntriesOk(db.View()) && IsDirNode(db.View(), d) && Room(db.View())
      requires IsDir(S_IFDIR | mode)
      modifies db
      ensures Sound(db.T())
      ensures var ef := CreateUnder(old(db.View()), ctx, d, Leaf(p), DirMeta(ctx, mode));
              db.View() == ef.ns && e == ErrnoOf(ef.out)
    {
      hide Sound, EntriesOk, AddAt, Access;
      ghost var ns := db.View();
      var n;
      DirIsDir();
      e, n := PathCreate(ctx, p, d, S_IFDIR);
      if e == OK {
        EnteredRoom(ns, n, d, Leaf(p), S_IFDIR);
        var e' := db.AddChild(n, DotDot, d);
        db.SetAttrs(n, DirMeta(ctx, mode));
        MadeDirectory(ns, d, Leaf(p), n, DirMeta(ctx, mode));
      }
    }

    /** mknod and symlink, once the parent directory is open. */
    method MakeNode(ctx: SContext, p: Path, d: Id, mode0: Mode, m: Meta) returns (e: Errno)
      requires Sound(db.T()) && EntriesOk(db.View()) && IsDirNode(db.View(), d) && Room(db.View())
      requires !IsDir(mode0) && !IsDir(m.mode)
      modifies db
      ensures Sound(db.T())
      ensures var ef := CreateUnder(old(db.View()), ctx, d, Leaf(p), m);
              db.View() == ef.ns && e == ErrnoOf(ef.out)
    {
      hide Sound, EntriesOk;
      var n;
      e, n := PathCreate(ctx, p, d, mode0);
      if e == OK {
        db.SetAttrs(n, m);
      }
    }

    /** mkdir. */
    method MkDir(ctx: SContext, p: Path, mode: Mode) returns (e: Errno)
      requires Valid() && WellFormed(Op.MkDir(p, mode)) && Room(db.View())
      modifies db, pcache, pcache.st.heap.Keys
      ensures Valid() && fresh(pcache.st.heap.Keys - old(pcache.st).heap.Keys)
      ensures Reply(W(), e) == StepCreate(old(W()), ctx, p, DirMeta(ctx, mode), pcache.maxentries)
      ensures e != OK ==> db.View() == old(db.View())
      ensures e == OK ==> NodeMade(old(db.View()), db.View(), ctx, Op.MkDir(p, mode), NextId(old(db.View()).meta.Keys))
      ensures InStep(old(W())) ==> Mirrors(Reply(W(), e), Create(old(db.View()), ctx, p, DirMeta(ctx, mode)))
      ensures InStep(old(W())) ==> (InStep(W()) <==> (e == OK ==> NoChildCached(pcache.st.view, p)))
    {
      hide Sound, Consistent, Inv, EntriesOk, Coherent, OpenDir, CreateUnder, NoChildCached, Abs, Create,
           NodeMade;
      hide PathCacheHash.Linked, PathCacheHash.Valid;
      ghost var w := W();
      CreateServed(w, ctx, p, DirMeta(ctx, mode), pcache.maxentries);
      CreateMakes(w, ctx, Op.MkDir(p, mode), DirMeta(ctx, mode), pcache.maxentries);
      InvEntries(w.ns);
      DirIsDir();
      var d;
      e, d := OpenParent(ctx, p);
      if e == OK {
        e := MakeDir(ctx, p, d, mode);
      }
      ViewOfAbs(pcache.st);
    }

    /** mknod. */
    method MkNod(ctx: SContext, p: Path, mode: Mode) returns (e: Errno)
      requires Valid() && WellFormed(Op.MkNod(p, mode)) && Room(db.View())
      modifies db, pcache, pcache.st.heap.Keys
      ensures Valid() && fresh(pcache.st.heap.Keys - old(pcache.st).heap.Keys)
      ensures Reply(W(), e) == StepCreate(old(W()), ctx, p, Meta(mode, ctx.uid, ctx.gid), pcache.maxentries)
      ensures e != OK ==> db.View() == old(db.View())
      ensures e == OK ==> NodeMade(old(db.View()), db.View(), ctx, Op.MkNod(p, mode), NextId(old(db.View()).meta.Keys))
      ensures InStep(old(W())) ==> Mirrors(Reply(W(), e), Create(old(db.View()), ctx, p, Meta(mode, ctx.uid, ctx.gid)))
      ensures InStep(old(W())) ==> (InStep(W()) <==> (e == OK ==> NoChildCached(pcache.st.view, p)))
    {
      hide Sound, Consistent, Inv, EntriesOk, Coherent, OpenDir, CreateUnder, NoChildCached, Abs, Create,
           NodeMade;
      hide PathCacheHash.Linked, PathCacheHash.Valid;
      ghost var w := W();
      CreateServed(w, ctx, p, Meta(mode, ctx.uid, ctx.gid), pcache.maxentries);
      CreateMakes(w, ctx, Op.MkNod(p, mode), Meta(mode, ctx.uid, ctx.gid), pcache.maxentries);
      InvEntries(w.ns);
      DirIsDir();
      var d;
      e, d := OpenParent(ctx, p);
      if e == OK {
        e := MakeNode(ctx, p, d, 0, Meta(mode, ctx.uid, ctx.gid));
      }
      ViewOfAbs(pcache.st);
    }

    /** symlink. */
    method SymLink(ctx: SContext, p: Path) returns (e: Errno)
      requires Valid() && WellFormed(Op.SymLink(p)) && Room(db.View())
      modifies db, pcache, pcache.st.heap.Keys
      ensures Valid() && fresh(pcache.st.heap.Keys - old(pcache.st).heap.Keys)
      ensures Reply(W(), e) == StepCreate(old(W()), ctx, p, Meta(S_IFLNK, ctx.uid, ctx.gid), pcache.maxentries)
      ensures e != OK ==> db.View() == old(db.View())
      ensures e == OK ==> NodeMade(old(db.View()), db.View(), ctx, Op.SymLink(p), NextId(old(db.View()).meta.Keys))
      ensures InStep(old(W())) ==> Mirrors(Reply(W(), e), Create(old(db.View()), ctx, p, Meta(S_IFLNK, ctx.uid, ctx.gid)))
      ensures InStep(old(W())) ==> (InStep(W()) <==> (e == OK ==> NoChildCached(pcache.st.view, p)))
    {
      hide Sound, Consistent, Inv, EntriesOk, Coherent, OpenDir, CreateUnder, NoChildCached, Abs, Create,
           NodeMade;
      hide PathCacheHash.Linked, PathCacheHash.Valid;
      ghost var w := W();
      CreateServed(w, ctx, p, Meta(S_IFLNK, ctx.uid, ctx.gid), pcache.maxentries);
      CreateMakes(w, ctx, Op.SymLink(p), Meta(S_IFLNK, ctx.uid, ctx.gid), pcache.maxentries);
      InvEntries(w.ns);
      DirIsDir();
      var d;
      e, d := OpenParent(ctx, p);
      if e == OK {
        e := MakeNode(ctx, p, d, S_IFLNK, Meta(S_IFLNK, ctx.uid, ctx.gid));
      }
      ViewOfAbs(pcache.st);
    }

    /** unlink's checks. */
    method CheckUnlink(ctx: SContext, d: Id, x: Name) returns (e: Errno, c: Id)
      requires IsDirNode(db.View(), d)
      ensures e == OK ==> Child(db.View(), d, x) == Some(c) && !IsDirNode(db.View(), c)
      ensures UnlinkFrom(db.View(), ctx, d, x)
              == if e == OK then Effect(UnlinkAt(db.View(), d, x, c), Done) else Effect(db.View(), Fails(e))
    {
      hide UnlinkAt, Access, StickyOk;
      c := 0;
      if !Access(ctx, db.nodes[d].meta, W_OK | X_OK) {
        return EACCES, c;
      }
      var child := db.GetChild(d, x);
      if child.None? {
        return ENOENT, c;
      }
      c := child.value;
      if !StickyOk(ctx, db.nodes[d].meta, db.nodes[c].meta) {
        return EACCES, c;
      }
      if IsDir(db.nodes[c].meta.mode) {
        return EISDIR, c;
      }
      e := OK;
    }

    /** unlink, once the parent directory is open. */
    method UnlinkIn(ctx: SContext, p: Path, d: Id) returns (e: Errno)
      requires Usable() && IsDirNode(db.View(), d)
      modifies db, pcache, pcache.st.heap.Keys
      ensures Usable() && fresh(pcache.st.heap.Keys - old(pcache.st).heap.Keys)
      ensures Reply(W(), e) == Removed(Abs(old(pcache.st)), p, UnlinkFrom(old(db.View()), ctx, d, Leaf(p)))
    {
      hide Sound, Consistent, UnlinkAt, UnlinkFrom, DelAt, DelIsClean, Abs, Forget, Referenced, IsDirNode;
      hide PathCacheHash.Linked, PathCacheHash.Valid;
      var c;
      e, c := CheckUnlink(ctx, d, Leaf(p));
      if e == OK {
        UnlinkWrites(db.View(), d, Leaf(p), c);
        pcache.Invalidate(p);
        e := db.DelChild(d, Leaf(p));
      }
    }

    /** unlink. */
    method UnLink(ctx: SContext, p: Path) returns (e: Errno)
      requires Valid() && ValidPath(p)
      modifies db, pcache, pcache.st.heap.Keys
      ensures Valid() && fresh(pcache.st.heap.Keys - old(pcache.st).heap.Keys)
      ensures Reply(W(), e) == StepUnlink(old(W()), ctx, p, pcache.maxentries)
      ensures e != OK ==> db.View() == old(db.View())
      ensures InStep(old(W())) ==> InStep(W()) && Mirrors(Reply(W(), e), Unlink(old(db.View()), ctx, p))
    {
      hide Sound, Consistent, Inv, Coherent, OpenDir, UnlinkFrom, Abs, Unlink, Removed;
      hide PathCacheHash.Linked, PathCacheHash.Valid;
      ghost var w := W();
      UnlinkServed(w, ctx, p, pcache.maxentries);
      var d;
      e, d := OpenParent(ctx, p);
      if e == OK {
        e := UnlinkIn(ctx, p, d);
      }
    }

    /** rmdir, once the parent directory is open. */
    method RmdirIn(ctx: SContext, p: Path, d: Id) returns (e: Errno)
      requires Valid() && ValidPath(p) && IsDirNode(db.View(), d)
      modifies db, pcache, pcache.st.heap.Keys
      ensures Usable() && fresh(pcache.st.heap.Keys - old(pcache.st).heap.Keys)
      ensures Reply(W(), e) == Removed(Abs(old(pcache.st)), p, RmdirFrom(old(db.View()), ctx, d, Leaf(p)))
    {
      hide Sound, Consistent, Inv, EntriesOk, DotsOk, RmdirAt, Access, StickyOk, HasEntries, Abs, Forget;
      hide PathCacheHash.Linked, PathCacheHash.Valid;
      ghost var ns := db.View();
      InvEntries(ns);
      if !Access(ctx, db.nodes[d].meta, X_OK | W_OK) {
        return EACCES;
      }
      var child := db.GetChild(d, Leaf(p));
      if child.None? {
        return ENOENT;
      }
      var c := child.value;
      if !IsDir(db.nodes[c].meta.mode) {
        return ENOTDIR;
      }
      if !StickyOk(ctx, db.nodes[d].meta, db.nodes[c].meta) {
        return EACCES;
      }
      var count := db.CountChildren(c);
      CountDecidesEmpty(ns, c);
      if count > 2 {
        return ENOTEMPTY;
      }
      NoEmptyChild(ns, d, p);
      RemoveEmptyDir(d, Leaf(p), c);
      pcache.Invalidate(p);
      e := OK;
    }

    /** rmdir. */
    method RmDir(ctx: SContext, p: Path) returns (e: Errno)
      requires Valid() && ValidPath(p)
      modifies db, pcache, pcache.st.heap.Keys
      ensures Valid() && fresh(pcache.st.heap.Keys - old(pcache.st).heap.Keys)
      ensures Reply(W(), e) == StepRmdir(old(W()), ctx, p, pcache.maxentries)
      ensures e != OK ==> db.View() == old(db.View())
      ensures InStep(old(W())) ==> InStep(W()) && Mirrors(Reply(W(), e), Rmdir(old(db.View()), ctx, p))
    {
      hide Sound, Consistent, Inv, Coherent, OpenDir, RmdirFrom, Abs, Rmdir, Removed;
      hide PathCacheHash.Linked, PathCacheHash.Valid;
      ghost var w := W();
      RmdirServed(w, ctx, p, pcache.maxentries);
      var d;
      e, d := OpenParent(ctx, p);
      if e == OK {
        e := RmdirIn(ctx, p, d);
      }
    }

    /** The writes with which rmdir, and rename for a directory it replaces, remove an empty directory. */
    method RemoveEmptyDir(d: Id, x: Name, c: Id)
      requires Sound(db.T()) && Inv(db.View()) && Child(db.View(), d, x) == Some(c) && x.Word?
      requires IsDirNode(db.View(), c) && !HasEntries(db.View(), c)
      modifies db
      ensures Sound(db.T()) && db.View() == RmdirAt(old(db.View()), d, x, c)
    {
      hide Sound, Inv, HasEntries, RmdirAt, DelAt, DelIsClean, WithoutDots, WithoutDot;
      ghost var ns := db.View();
      RmdirDropsDots(ns, d, x, c);
      RmdirWrites(ns, d, x, c);
      var e1 := db.DelChild(c, Dot);
      WithoutDotKeeps(ns, c);
      var e2 := db.DelChild(c, DotDot);
      WithoutDotsKeeps(ns, c);
      var e3 := db.DelChild(d, x);
    }

    /** link's write. */
    method LinkIn(x: Name, d: Id, n: Id) returns (e: Errno)
      requires Sound(db.T()) && Inv(db.View()) && n in db.View().meta && Room(db.View())
      modifies db
      ensures Sound(db.T())
      ensures var ef := LinkUnder(old(db.View()), d, x, n); db.View() == ef.ns && e == ErrnoOf(ef.out)
    {
      hide Sound, Inv, DropNew, Referenced;
      LiveIsKept(db.View(), n);
      e := db.AddChild(d, x, n);
    }

    /** link. */
    method HardLink(ctx: SContext, p: Path, q: Path) returns (e: Errno)
      requires Valid() && WellFormed(Op.HardLink(p, q)) && Room(db.View())
      modifies db, pcache, pcache.st.heap.Keys
      ensures Usable() && fresh(pcache.st.heap.Keys - old(pcache.st).heap.Keys)
      ensures Reply(W(), e) == StepLink(old(W()), ctx, p, q, pcache.maxentries)
      ensures Valid() <==> Safe(old(W()), Request(ctx, Op.HardLink(p, q)), pcache.maxentries)
      ensures e != OK ==> db.View() == old(db.View())
      ensures InStep(old(W())) && Admissible(old(db.View()), Op.HardLink(p, q)) ==>
                && Valid() && Mirrors(Reply(W(), e), Link(old(db.View()), ctx, p, q))
                && (InStep(W()) <==> (e == OK ==> NoChildCached(pcache.st.view, q)))
    {
      hide Sound, Consistent, Inv, Coherent, OpenDir, GetNodeIn, Access, LinkUnder, NoChildCached, Abs, Link, Admissible,
           Safe;
      hide PathCacheHash.Linked, PathCacheHash.Valid;
      ghost var w := W();
      LinkServed(w, ctx, p, q, pcache.maxentries);
      var d, n;
      e, d := OpenParent(ctx, q);
      if e == OK {
        if !Access(ctx, db.nodes[d].meta, W_OK) {
          e := EACCES;
        } else {
          e, n := GetAttr(ctx, p);
          if e == OK {
            e := LinkIn(Leaf(q), d, n);
          }
        }
      }
      ViewOfAbs(pcache.st);
    }

    /** chmod's checks and write on the node itself. */
    method WriteMode(ctx: SContext, n: Id, mode: Mode) returns (e: Errno)
      requires Sound(db.T()) && n in db.View().meta
      modifies db
      ensures Sound(db.T())
      ensures var ef := ChmodNode(old(db.View()), ctx, n, mode); db.View() == ef.ns && e == ErrnoOf(ef.out)
      ensures e == if ctx.uid in {0, old(db.View()).meta[n].uid} then OK else EPERM
      ensures e == OK ==> OneChanged(old(db.View()), db.View(), n) && ModeSet(ctx, old(db.View()).meta[n], db.View().meta[n], mode)
    {
      hide Sound, ChmodMode, ModeSet;
      ChmodSets(ctx, db.View().meta[n], mode);
      var wanted := mode;
      if ctx.uid != 0 {
        if ctx.uid != db.nodes[n].meta.uid {
          return EPERM;
        }
        if db.nodes[n].meta.gid !in ctx.groups {
          wanted := wanted & !S_ISGID;
        }
      }
      var m := db.nodes[n].meta;
      db.SetAttrs(n, m.(mode := ChmodMode(wanted, m.mode)));
      e := OK;
    }

    /** chmod. */
    method ChMod(ctx: SContext, p: Path, mode: Mode) returns (e: Errno)
      requires Valid() && ValidPath(p)
      modifies db, pcache, pcache.st.heap.Keys
      ensures Valid() && fresh(pcache.st.heap.Keys - old(pcache.st).heap.Keys)
      ensures Reply(W(), e) == StepSet(old(W()), ctx, Op.ChMod(p, mode), pcache.maxentries)
      ensures e != OK ==> db.View() == old(db.View())
      ensures e == OK ==> exists n :: OneChanged(old(db.View()), db.View(), n)
                                      && ModeSet(ctx, old(db.View()).meta[n], db.View().meta[n], mode)
      ensures InStep(old(W())) ==> InStep(W()) && Mirrors(Reply(W(), e), Chmod(old(db.View()), ctx, p, mode))
    {
      hide Sound, Consistent, Inv, Coherent, GetNodeIn, ChmodNode, Abs, Chmod, Forget, Walk;
      hide PathCacheHash.Linked, PathCacheHash.Valid;
      ghost var w := W();
      SetServed(w, ctx, Op.ChMod(p, mode), pcache.maxentries);
      var n;
      e, n := GetAttr(ctx, p);
      if e == OK {
        SetOutcome(w.ns, ctx, n, mode);
        e := WriteMode(ctx, n, mode);
        if e == OK {
          pcache.Invalidate(p);
        }
      }
    }

    /** chown. */
    method ChOwn(ctx: SContext, p: Path, owner: nat, group: nat) returns (e: Errno)
      requires Valid() && ValidPath(p)
      modifies db, pcache, pcache.st.heap.Keys
      ensures Valid() && fresh(pcache.st.heap.Keys - old(pcache.st).heap.Keys)
      ensures Reply(W(), e) == StepSet(old(W()), ctx, Op.ChOwn(p, owner, group), pcache.maxentries)
      ensures e != OK ==> db.View() == old(db.View())
      ensures e == OK ==> exists n :: OneChanged(old(db.View()), db.View(), n)
                                      && OwnerSet(ctx, old(db.View()).meta[n], db.View().meta[n], owner, group)
      ensures InStep(old(W())) ==> InStep(W()) && Mirrors(Reply(W(), e), Chown(old(db.View()), ctx, p, owner, group))
    {
      hide Sound, Consistent, Inv, Coherent, GetNodeIn, MayChown, ChownMeta, Abs, Chown, Forget, Walk;
      hide PathCacheHash.Linked, PathCacheHash.Valid;
      ghost var w := W();
      SetServed(w, ctx, Op.ChOwn(p, owner, group), pcache.maxentries);
      var n;
      e, n := GetAttr(ctx, p);
      if e != OK {
        return;
      }
      e := WriteOwner(ctx, n, owner, group);
      if e == OK {
        pcache.Invalidate(p);
      }
    }

    /** chown's checks and writes on the node itself. */
    method WriteOwner(ctx: SContext, n: Id, owner: nat, group: nat) returns (e: Errno)
      requires Sound(db.T()) && n in db.View().meta
      modifies db
      ensures Sound(db.T())
      ensures e == if MayChown(ctx, old(db.View()).meta[n], owner, group) then OK else EPERM
      ensures e == if ChownRefused(ctx, old(db.View()).meta[n], owner, group) then EPERM else OK
      ensures e == OK ==>
                OneChanged(old(db.View()), db.View(), n) && OwnerSet(ctx, old(db.View()).meta[n], db.View().meta[n], owner, group)
      ensures db.View() == if e != OK then old(db.View())
                           else SetMeta(old(db.View()), n, ChownMeta(ctx, old(db.View()).meta[n], owner, group))
    {
      hide Sound, ChownMode, OwnerSet;
      ghost var ns := db.View();
      SetNothing(ns, n);
      ChownSets(ctx, ns.meta[n], owner, group);
      if owner != NO_ID && owner != db.nodes[n].meta.uid {
        if ctx.uid != 0 {
          return EPERM;
        }
        db.SetAttrs(n, db.nodes[n].meta.(uid := owner));
      }
      if group != NO_ID && group != db.nodes[n].meta.gid {
        if ctx.uid != 0 {
          if ctx.uid != db.nodes[n].meta.uid || group !in ctx.groups {
            return EPERM;
          }
          db.SetAttrs(n, db.nodes[n].meta.(mode := ChownMode(db.nodes[n].meta.mode)));
        }
        db.SetAttrs(n, db.nodes[n].meta.(gid := group));
      }
      e := OK;
    }

    /** rename's walk from the new parent along ".." to the root, looking for the node to be moved. */
    method MeetsOnWayUp(start: Id, src: Id) returns (met: bool)
      requires RootOk(db.View()) && DotsOk(db.View()) && Acyclic(db.View())
      requires EntriesOk(db.View()) && IsDirNode(db.View(), start) && src != 0
      ensures met <==> Below(db.View(), start, src)
    {
      var n := start;
      ghost var ns := db.View();
      assert ReachesRoot(ns, start);
      ghost var steps: nat :| UpN(ns, start, steps) == 0;
      while n != 0
        invariant IsDirNode(ns, n) && UpN(ns, n, steps) == 0
        invariant Below(ns, start, src) <==> Below(ns, n, src)
        decreases steps
      {
        if n == src {
          BelowSelf(ns, src);
          return true;
        }
        BelowStep(ns, n, src);
        assert Key(n, DotDot) in ns.dirs && Up(ns, n) == ns.dirs[Key(n, DotDot)];
        var up := db.GetChild(n, DotDot);
        n := up.value;
        steps := steps - 1;
      }
      RootBelow(ns, src);
      met := false;
    }

    /** The checks rename makes on the node it would replace, in their order. */
    method CheckReplace(ctx: SContext, src: Id, dp: Id, dst: Id) returns (e: Errno)
      requires Inv(db.View()) && IsDirNode(db.View(), dp) && src in db.View().meta && dst in db.View().meta && src != 0
      ensures e == ReplaceCheck(db.View(), ctx, src, dp, dst)
    {
      hide StickyOk, Below, HasEntries;
      InvEntries(db.View());
      if !StickyOk(ctx, db.nodes[dp].meta, db.nodes[dst].meta) {
        return EACCES;
      }
      if IsDir(db.nodes[src].meta.mode) {
        if !IsDir(db.nodes[dst].meta.mode) {
          return ENOTDIR;
        }
        var met := MeetsOnWayUp(dp, src);
        if met {
          return EINVAL;
        }
        var count := db.CountChildren(dst);
        CountDecidesEmpty(db.View(), dst);
        if count > 2 {
          return ENOTEMPTY;
        }
      } else if IsDir(db.nodes[dst].meta.mode) {
        return EISDIR;
      }
      e := OK;
    }

    /** rename's writes that make room: the node at the new name goes. */
    method ClearTarget(src: Id, dp: Id, dl: Name, dst: Id)
      requires Sound(db.T()) && Inv(db.View()) && Child(db.View(), dp, dl) == Some(dst) && dl.Word?
      requires src in db.View().meta && IsDirNode(db.View(), dp) && IsDirNode(db.View(), src) == IsDirNode(db.View(), dst)
      requires IsDirNode(db.View(), src) ==> !HasEntries(db.View(), dst)
      modifies db
      ensures Sound(db.T()) && db.View() == Cleared(old(db.View()), src, dp, dl, Some(dst))
    {
      hide Sound, Inv, HasEntries, DelAt, DelIsClean;
      if IsDir(db.nodes[src].meta.mode) {
        RemoveEmptyDir(dp, dl, dst);
      } else {
        UnlinkWrites(db.View(), dp, dl, dst);
        var e := db.DelChild(dp, dl);
      }
    }

    /** rename's two writes that give a directory its new "..". */
    method Reparent(sp: Id, sl: Name, src: Id, dp: Id)
      requires Sound(db.T()) && Inv(db.View()) && IsDirNode(db.View(), src) && dp in db.View().meta
      requires sl.Word? && Key(sp, sl) in db.View().dirs && db.View().dirs[Key(sp, sl)] == src
      requires |db.View().dirs| + 3 <= INT32_MAX
      modifies db
      ensures Sound(db.T())
      ensures db.View() == NS(old(db.View()).meta, (old(db.View()).dirs - {Key(src, DotDot)})[Key(src, DotDot) := dp])
      ensures |db.dirs| <= |old(db.View()).dirs| + 1
    {
      hide Sound, Inv, DelAt, DelIsClean, Referenced;
      ghost var cl := db.View();
      ReparentWrites(cl, sp, sl, src);
      MapShrinks(cl.dirs, Key(src, DotDot));
      var e1 := db.DelChild(src, DotDot);
      var e2 := db.AddChild(src, DotDot, dp);
      MapGrows(cl.dirs - {Key(src, DotDot)}, Key(src, DotDot), dp);
    }

    /** rename's writes that relink the node: a directory gets its new "..", then the new name
        appears and the old one goes; if both are one entry, nothing is left of it. */
    method Relist(sp: Id, sl: Name, src: Id, dp: Id, dl: Name)
      requires Sound(db.T()) && Relistable(db.View(), sp, sl, src, dp, dl)
      modifies db
      ensures Sound(db.T())
      ensures db.View() == if Key(sp, sl) == Key(dp, dl) then old(db.View())
                           else Relisted(old(db.View()), sp, sl, src, dp, dl)
    {
      hide Sound, Inv, DelAt, DelIsClean, Referenced;
      ghost var cl := db.View();
      if IsDir(db.nodes[src].meta.mode) {
        Reparent(sp, sl, src, dp);
      }
      var e3 := db.AddChild(dp, dl, src);
      if Key(sp, sl) == Key(dp, dl) {
        DelJustAdded(cl, Key(dp, dl), src);
      } else {
        DelOfShared(db.View(), Key(sp, sl), Key(dp, dl));
      }
      var e4 := db.DelChild(sp, sl);
    }

    /** rename's checks once both parents are open: what is to be moved and what is to be replaced. */
    method CheckMove(ctx: SContext, p: Path, q: Path, sp: Id, dp: Id)
      returns (e: Errno, src: Id, dst: Option<Id>)
      requires Inv(db.View()) && IsDirNode(db.View(), sp) && IsDirNode(db.View(), dp) && ValidPath(p)
      ensures e == MoveCheck(db.View(), ctx, p == q, sp, Leaf(p), dp, Leaf(q))
      ensures e == OK ==> Child(db.View(), sp, Leaf(p)) == Some(src) && Child(db.View(), dp, Leaf(q)) == dst
    {
      hide Access, StickyOk, ReplaceCheck, Inv;
      ChildrenLive(db.View(), sp, p);
      src, dst := 0, None;
      var child := db.GetChild(sp, Leaf(p));
      if child.None? {
        return ENOENT, 0, None;
      }
      src := child.value;
      dst := db.GetChild(dp, Leaf(q));
      if dst.Some? && p == q {
        return OK, src, dst;
      }
      if !Access(ctx, db.nodes[sp].meta, X_OK | W_OK) || !Access(ctx, db.nodes[dp].meta, X_OK | W_OK) {
        return EACCES, src, dst;
      }
      if !StickyOk(ctx, db.nodes[sp].meta, db.nodes[src].meta) {
        return EACCES, src, dst;
      }
      e := OK;
      if dst.Some? {
        e := CheckReplace(ctx, src, dp, dst.value);
      }
    }

    /** rename's two Path objects. */
    method OpenBoth(ctx: SContext, p: Path, q: Path) returns (e: Errno, sp: Id, dp: Id)
      requires Usable()
      modifies pcache, pcache.st.heap.Keys
      ensures Usable() && fresh(pcache.st.heap.Keys - old(pcache.st).heap.Keys)
      ensures (Abs(pcache.st), if e == OK then Ok((sp, dp)) else Err(e))
              == RenameOpens(old(W()), ctx, p, q, pcache.maxentries)
      ensures e == OK ==> IsDirNode(db.View(), sp) && IsDirNode(db.View(), dp)
    {
      hide Sound, Consistent, Abs, OpenDir;
      dp := 0;
      e, sp := OpenParent(ctx, p);
      if e == OK {
        e, dp := OpenParent(ctx, q);
      }
    }

    /** rename's writes and invalidations. The node found under both names, when they are one entry, is
        gone after the first of them, unless it is a file with other links. */
    method Move(p: Path, q: Path, sp: Id, src: Id, dp: Id, dst: Option<Id>) returns (e: Errno)
      requires Usable() && Inv(db.View()) && Room(db.View())
      requires Checked(db.View(), sp, Leaf(p), src, dp, Leaf(q), dst)
      modifies db, pcache, pcache.st.heap.Keys
      ensures Usable() && fresh(pcache.st.heap.Keys - old(pcache.st).heap.Keys)
      ensures var ef := MovedFor(old(db.View()), sp, Leaf(p), src, dp, Leaf(q), dst);
              db.View() == ef.ns && e == ErrnoOf(ef.out)
      ensures Abs(pcache.st) == RenameForgets(Abs(old(pcache.st)), p, q, dst.Some?, e)
    {
      hide Sound, Consistent, Inv, Checked, Cleared, Relisted, Relistable, RenameAt, Abs, Forget, RenameOntoItself, MovedFor;
      hide PathCacheHash.Linked, PathCacheHash.Valid;
      ghost var ns := db.View();
      CheckedTarget(ns, sp, Leaf(p), src, dp, Leaf(q), dst);
      ClearedSource(ns, sp, Leaf(p), src, dp, Leaf(q), dst);
      if dst.Some? {
        ClearTarget(src, dp, Leaf(q), dst.value);
        pcache.Invalidate(q);
      }
      if src !in db.nodes {
        return EIO;
      }
      pcache.Invalidate(p);
      Relist(sp, Leaf(p), src, dp, Leaf(q));
      e := OK;
    }

    /** rename. */
    method ReName(ctx: SContext, p: Path, q: Path) returns (e: Errno)
      requires Valid() && WellFormed(Op.ReName(p, q)) && Room(db.View())
      modifies db, pcache, pcache.st.heap.Keys
      ensures Usable() && fresh(pcache.st.heap.Keys - old(pcache.st).heap.Keys)
      ensures Reply(W(), e) == StepRename(old(W()), ctx, p, q, pcache.maxentries)
      ensures Valid() <==> Safe(old(W()), Request(ctx, Op.ReName(p, q)), pcache.maxentries)
      ensures (e != OK ==> db.View() == old(db.View()))
              <==> Clean(old(W()), Request(ctx, Op.ReName(p, q)), pcache.maxentries)
      ensures !MayRename(old(W()), ctx, p, q, pcache.maxentries) ==> e == EACCES && db.View() == old(db.View())
      ensures InStep(old(W())) && Admissible(old(db.View()), Op.ReName(p, q)) ==>
                && Valid() && Mirrors(Reply(W(), e), Rename(old(db.View()), ctx, p, q))
                && (InStep(W()) <==> (e == OK && p != q ==> MovedEntriesFit(old(db.View()), pcache.st.view, p, q)))
    {
      hide Sound, Consistent, Inv, Coherent, RenameOpens, MoveCheck, Abs, Rename, RenameForgets, Safe, Clean, Admissible,
           MovedEntriesFit, Checked, RenameAt, RenameOntoItself, MayRename;
      hide PathCacheHash.Linked, PathCacheHash.Valid;
      ghost var w := W();
      RenameServed(w, ctx, p, q, pcache.maxentries);
      RenameStepNeeds(w, ctx, p, q, pcache.maxentries);
      var sp, dp, src, dst;
      e, sp, dp := OpenBoth(ctx, p, q);
      if e == OK {
        e, src, dst := CheckMove(ctx, p, q, sp, dp);
        if e == OK && !(dst.Some? && p == q) {
          PassedIsChecked(w.ns, ctx, p, q, sp, src, dp, dst);
          e := Move(p, q, sp, src, dp, dst);
        }
      }
      ViewOfAbs(pcache.st);
    }
  }

  lemma CreateServed(w: World, ctx: SContext, p: Path, m: Meta, max: nat)
    requires Inv(w.ns) && IdsLeft(w.ns) && ValidPath(p) && p != []
    ensures var rep := StepCreate(w, ctx, p, m, max);
            && Inv(rep.w.ns) && (rep.e != OK ==> rep.w.ns == w.ns)
            && (InStep(w) ==> Mirrors(rep, Create(w.ns, ctx, p, m)) &&
                              (InStep(rep.w) <==> (rep.e == OK ==> NoChildCached(rep.w.cache.view, p))))
  {
    hide Inv, Coherent, StepCreate, Create, NoChildCached;
    StepCreateKeeps(w, ctx, p, m, max);
    if InStep(w) {
      CreateAgrees(w, ctx, p, m, max);
    }
  }

  lemma CreateMakes(w: World, ctx: SContext, op: Op, m: Meta, max: nat)
    requires Inv(w.ns) && IdsLeft(w.ns) && WellFormed(op)
    requires (op.MkDir? && m == DirMeta(ctx, op.mode)) || (op.MkNod? && m == Meta(op.mode, ctx.uid, ctx.gid))
             || (op.SymLink? && m == Meta(S_IFLNK, ctx.uid, ctx.gid))
    ensures var rep := StepCreate(w, ctx, op.p, m, max);
            rep.e == OK ==> NodeMade(w.ns, rep.w.ns, ctx, op, NextId(w.ns.meta.Keys))
  {
    hide Inv, IdsLeft, WellFormed, NewAttrs, NodeMade, OpenDir, CreateUnder, DirMeta;
    NewAttrsAre(ctx, op);
    var o := OpenDir(w.ns, ctx, w.cache, op.p, max).1;
    if o.Ok? && CreateUnder(w.ns, ctx, o.value, Leaf(op.p), m).out == Done {
      CreateUnderMakes(w.ns, ctx, op, o.value, Leaf(op.p), m);
    } else if o.Ok? {
      CreateFails(w.ns, ctx, o.value, Leaf(op.p), m);
    }
  }

  lemma CreateFails(ns: NS, ctx: SContext, d: Id, x: Name, m: Meta)
    requires d in ns.meta && CreateUnder(ns, ctx, d, x, m).out != Done
    ensures ErrnoOf(CreateUnder(ns, ctx, d, x, m).out) != OK
  {
  }

  lemma UnlinkServed(w: World, ctx: SContext, p: Path, max: nat)
    requires Inv(w.ns) && ValidPath(p)
    ensures var rep := StepUnlink(w, ctx, p, max);
            && Inv(rep.w.ns) && (rep.e != OK ==> rep.w.ns == w.ns)
            && (InStep(w) ==> InStep(rep.w) && Mirrors(rep, Unlink(w.ns, ctx, p)))
  {
    hide Inv, Coherent, StepUnlink, Unlink;
    StepRemoveKeeps(w, ctx, p, max);
    if InStep(w) {
      UnlinkAgrees(w, ctx, p, max);
    }
  }

  lemma RmdirServed(w: World, ctx: SContext, p: Path, max: nat)
    requires Inv(w.ns) && ValidPath(p)
    ensures var rep := StepRmdir(w, ctx, p, max);
            && Inv(rep.w.ns) && (rep.e != OK ==> rep.w.ns == w.ns)
            && (InStep(w) ==> InStep(rep.w) && Mirrors(rep, Rmdir(w.ns, ctx, p)))
  {
    hide Inv, Coherent, StepRmdir, Rmdir;
    StepRemoveKeeps(w, ctx, p, max);
    if InStep(w) {
      RmdirAgrees(w, ctx, p, max);
    }
  }

  lemma LinkServed(w: World, ctx: SContext, p: Path, q: Path, max: nat)
    requires Inv(w.ns) && WellFormed(Op.HardLink(p, q))
    ensures var rep := StepLink(w, ctx, p, q, max);
            && (Inv(rep.w.ns) <==> Safe(w, Request(ctx, Op.HardLink(p, q)), max))
            && (rep.e != OK ==> rep.w.ns == w.ns)
            && (InStep(w) && Admissible(w.ns, Op.HardLink(p, q)) ==>
                  && Inv(rep.w.ns) && Mirrors(rep, Link(w.ns, ctx, p, q))
                  && (InStep(rep.w) <==> (rep.e == OK ==> NoChildCached(rep.w.cache.view, q))))
  {
    hide Inv, Coherent, StepLink, Link, Safe, NoChildCached;
    StepLinkIff(w, ctx, p, q, max);
    if InStep(w) && Admissible(w.ns, Op.HardLink(p, q)) {
      LinkAgrees(w, ctx, p, q, max);
      LinkStep(w.ns, ctx, p, q);
    }
  }

  lemma RenameServed(w: World, ctx: SContext, p: Path, q: Path, max: nat)
    requires Inv(w.ns) && WellFormed(Op.ReName(p, q))
    ensures var rep := StepRename(w, ctx, p, q, max);
            && (Inv(rep.w.ns) <==> Safe(w, Request(ctx, Op.ReName(p, q)), max))
            && ((rep.e != OK ==> rep.w.ns == w.ns) <==> Clean(w, Request(ctx, Op.ReName(p, q)), max))
            && (InStep(w) && Admissible(w.ns, Op.ReName(p, q)) ==>
                  && Inv(rep.w.ns) && Mirrors(rep, Rename(w.ns, ctx, p, q))
                  && (InStep(rep.w) <==> (rep.e == OK && p != q ==> MovedEntriesFit(w.ns, rep.w.cache.view, p, q))))
  {
    hide Inv, Coherent, StepRename, Rename, Safe, Clean, MovedEntriesFit;
    StepRenameIff(w, ctx, p, q, max);
    if InStep(w) && Admissible(w.ns, Op.ReName(p, q)) {
      RenameAgrees(w, ctx, p, q, max);
      RenameStep(w.ns, ctx, p, q);
    }
  }

  lemma SetServed(w: World, ctx: SContext, op: Op, max: nat)
    requires Inv(w.ns) && (op.ChMod? || op.ChOwn?) && ValidPath(op.p)
    ensures var rep := StepSet(w, ctx, op, max);
            && Inv(rep.w.ns) && (rep.e != OK ==> rep.w.ns == w.ns)
            && (InStep(w) ==> InStep(rep.w) && Mirrors(rep, if op.ChMod? then Chmod(w.ns, ctx, op.p, op.mode)
                                                            else Chown(w.ns, ctx, op.p, op.owner, op.group)))
  {
    hide Inv, Coherent, StepSet, Chmod, Chown;
    StepSetKeeps(w, ctx, op, max);
    if InStep(w) {
      SetAgrees(w, ctx, op, max);
    }
  }

  lemma SetOutcome(ns: NS, ctx: SContext, n: Id, mode: Mode)
    requires n in ns.meta
    ensures var ef := ChmodNode(ns, ctx, n, mode);
            (ef.out == Done <==> ErrnoOf(ef.out) == OK) && (ef.out != Done ==> ef.ns == ns)
  {
    hide ChmodMode;
  }

  /** What rename's checks leave to be written. */
  ghost predicate Checked(ns: NS, sp: Id, sl: Name, src: Id, dp: Id, dl: Name, dst: Option<Id>) {
    && IsDirNode(ns, sp) && IsDirNode(ns, dp) && sl.Word? && ValidName(dl)
    && Child(ns, sp, sl) == Some(src) && Child(ns, dp, dl) == dst
    && (dst.Some? ==> IsDirNode(ns, dst.value) == IsDirNode(ns, src))
    && (dst.Some? && IsDirNode(ns, src) ==> !Below(ns, dp, src) && !HasEntries(ns, dst.value))
  }

  ghost function MovedFor(ns: NS, sp: Id, sl: Name, src: Id, dp: Id, dl: Name, dst: Option<Id>): Effect {
    if Key(sp, sl) == Key(dp, dl) then RenameOntoItself(ns, dp, dl, src)
    else Effect(RenameAt(ns, sp, sl, src, dp, dl, dst), Done)
  }

  /** What rename's last writes rely on. */
  ghost predicate Relistable(cl: NS, sp: Id, sl: Name, src: Id, dp: Id, dl: Name) {
    && Inv(cl) && IsDirNode(cl, sp) && IsDirNode(cl, dp) && src in cl.meta
    && sl.Word? && dl.Word? && Key(dp, dl) !in cl.dirs && |cl.dirs| + 3 <= INT32_MAX
    && (if Key(sp, sl) == Key(dp, dl) then !IsDirNode(cl, src) && Referenced(cl.dirs, src)
        else Key(sp, sl) in cl.dirs && cl.dirs[Key(sp, sl)] == src)
  }

  lemma PassedIsChecked(ns: NS, ctx: SContext, p: Path, q: Path, sp: Id, src: Id, dp: Id, dst: Option<Id>)
    requires Inv(ns) && ValidPath(p) && ValidPath(q) && q != [] && IsDirNode(ns, sp) && IsDirNode(ns, dp)
    requires MoveCheck(ns, ctx, p == q, sp, Leaf(p), dp, Leaf(q)) == OK && !(dst.Some? && p == q)
    requires Child(ns, sp, Leaf(p)) == Some(src) && Child(ns, dp, Leaf(q)) == dst
    ensures Checked(ns, sp, Leaf(p), src, dp, Leaf(q), dst)
    ensures RenameBetween(ns, ctx, p == q, sp, Leaf(p), dp, Leaf(q))
            == MovedFor(ns, sp, Leaf(p), src, dp, Leaf(q), dst)
  {
    hide Inv, Access, StickyOk, Below, HasEntries, RenameAt, RenameOntoItself;
    LeafIsWord(p);
    LeafIsWord(q);
  }

  lemma CheckedTarget(ns: NS, sp: Id, sl: Name, src: Id, dp: Id, dl: Name, dst: Option<Id>)
    requires Checked(ns, sp, sl, src, dp, dl, dst)
    ensures IsDirNode(ns, dp) && dl.Word? && src in ns.meta
    ensures dst.Some? ==> Child(ns, dp, dl) == dst && IsDirNode(ns, src) == IsDirNode(ns, dst.value)
    ensures dst.Some? && IsDirNode(ns, src) ==> !HasEntries(ns, dst.value)
  {
  }

  /** Once the new name is free, the moved node is gone, as when it replaced itself, or can be relinked. */
  lemma ClearedSource(ns: NS, sp: Id, sl: Name, src: Id, dp: Id, dl: Name, dst: Option<Id>)
    requires Inv(ns) && Room(ns) && Checked(ns, sp, sl, src, dp, dl, dst)
    ensures var cl := Cleared(ns, src, dp, dl, dst);
            var ef := MovedFor(ns, sp, sl, src, dp, dl, dst);
            && (dst.None? ==> cl == ns)
            && (src !in cl.meta ==> ef == Effect(cl, Fails(EIO)))
            && (src in cl.meta ==>
                  && Relistable(cl, sp, sl, src, dp, dl) && ef.out == Done
                  && ef.ns == if Key(sp, sl) == Key(dp, dl) then cl else Relisted(cl, sp, sl, src, dp, dl))
  {
    hide Inv, RenameAt, Relisted, HasEntries, Below, MayMove;
    ClearedSize(ns, src, dp, dl, dst);
    if Key(sp, sl) == Key(dp, dl) {
      ReplacedByItself(ns, sp, sl, src);
    } else if dst.None? {
      RelistedFresh(ns, sp, sl, src, dp, dl);
      InvEntries(ns);
    } else {
      CheckedReplaces(ns, sp, sl, src, dp, dl, dst);
      ClearedReady(ns, sp, sl, src, dp, dl, dst);
      RelistedIsRename(ns, sp, sl, src, dp, dl, dst);
    }
  }

  lemma CheckedReplaces(ns: NS, sp: Id, sl: Name, src: Id, dp: Id, dl: Name, dst: Option<Id>)
    requires Checked(ns, sp, sl, src, dp, dl, dst) && dst.Some? && Key(sp, sl) != Key(dp, dl)
    ensures MayMove(ns, sp, sl, src, dp, dl, dst)
  {
  }

  lemma ReplacedByItself(ns: NS, d: Id, x: Name, src: Id)
    requires Inv(ns) && IsDirNode(ns, d) && x.Word? && Child(ns, d, x) == Some(src)
    requires IsDirNode(ns, src) ==> !HasEntries(ns, src)
    ensures var cl := Cleared(ns, src, d, x, Some(src));
            && cl == RenameOntoItself(ns, d, x, src).ns
            && (src in cl.meta <==> RenameOntoItself(ns, d, x, src).out == Done)
            && (src in cl.meta ==> Inv(cl) && !IsDirNode(cl, src) && Referenced(cl.dirs, src) && IsDirNode(cl, d))
            && Key(d, x) !in cl.dirs
  {
    if !IsDirNode(ns, src) {
      UnlinkKeepsInv(ns, d, x, src);
    }
  }

  lemma ChildrenLive(ns: NS, sp: Id, p: Path)
    requires Inv(ns) && ValidPath(p)
    ensures Child(ns, sp, Leaf(p)).Some? ==> Child(ns, sp, Leaf(p)).value != 0 && Leaf(p).Word?
  {
    NoEmptyChild(ns, sp, p);
    assert Child(ns, sp, Leaf(p)) == Some(0) ==> SubdirEntry(ns, Key(sp, Leaf(p)));
  }

  lemma ClearedSize(ns: NS, src: Id, dp: Id, dl: Name, dst: Option<Id>)
    ensures |Cleared(ns, src, dp, dl, dst).dirs| <= |ns.dirs|
  {
    var dirs' := Cleared(ns, src, dp, dl, dst).dirs;
    SubsetSize(dirs'.Keys, ns.dirs.Keys);
    assert |dirs'.Keys| == |dirs'| && |ns.dirs.Keys| == |ns.dirs|;
  }

  lemma MapShrinks(dirs: map<Key, Id>, k: Key)
    ensures |dirs - {k}| <= |dirs|
  {
    SubsetSize((dirs - {k}).Keys, dirs.Keys);
    assert |(dirs - {k}).Keys| == |dirs - {k}| && |dirs.Keys| == |dirs|;
  }

  lemma LiveIsKept(ns: NS, n: Id)
    requires Inv(ns) && n in ns.meta
    ensures DropNew(ns, n) == ns && Referenced(ns.dirs, n)
  {
    assert Referenced(ns.dirs, n);
  }

  lemma SetNothing(ns: NS, n: Id)
    requires n in ns.meta
    ensures SetMeta(ns, n, ns.meta[n]) == ns
  {
    assert ns.meta[n := ns.meta[n]] == ns.meta;
  }

  lemma WithoutDotKeeps(ns: NS, c: Id)
    ensures forall e :: IsDirNode(WithoutDot(ns, c), e) == IsDirNode(ns, e)
  {
  }

  lemma WithoutDotsKeeps(ns: NS, c: Id)
    ensures forall e :: IsDirNode(WithoutDots(ns, c), e) == IsDirNode(ns, e)
  {
  }

  /** The checks Path::create makes. */
  function CreateCheck(ns: NS, ctx: SContext, d: Id, x: Name): Errno
    requires d in ns.meta
  {
    if !Access(ctx, ns.meta[d], W_OK | X_OK) then EACCES
    else if Key(d, x) in ns.dirs then EEXIST
    else OK
  }

  /** A new node entered under a name, its attributes not yet set. */
  ghost function Entered(ns: NS, d: Id, x: Name, n: Id, mode: Mode): NS {
    NS(WithNew(ns, n, mode).meta, WithNew(ns, n, mode).dirs[Key(d, x) := n])
  }

  lemma EnteredRoom(ns: NS, n: Id, d: Id, x: Name, mode: Mode)
    requires Room(ns) && n !in ns.meta && EntriesOk(ns) && d in ns.meta
    ensures |Entered(ns, d, x, n, mode).dirs| < INT32_MAX
    ensures Key(n, DotDot) !in Entered(ns, d, x, n, mode).dirs
  {
    MapGrows(ns.dirs, Key(n, Dot), n);
    MapGrows(WithNew(ns, n, mode).dirs, Key(d, x), n);
  }

  lemma MapGrows(dirs: map<Key, Id>, k: Key, c: Id)
    ensures |dirs[k := c]| <= |dirs| + 1
  {
    if k in dirs {
      assert dirs[k := c].Keys == dirs.Keys;
      assert |dirs[k := c].Keys| == |dirs[k := c]| && |dirs.Keys| == |dirs|;
    }
  }

  /** The writes of mkdir add up to a new directory. */
  lemma MadeDirectory(ns: NS, d: Id, x: Name, n: Id, m: Meta)
    requires d != n && IsDir(m.mode)
    ensures SetMeta(NS(Entered(ns, d, x, n, S_IFDIR).meta,
                       Entered(ns, d, x, n, S_IFDIR).dirs[Key(n, DotDot) := d]), n, m)
            == AddAt(ns, d, x, n, m)
  {
    DirIsDir();
  }
}
