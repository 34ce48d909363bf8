/** The requests once more, told only by paths, permission bits and attributes: with what each is answered,
    and what it leaves. Ops tells the same by entries and checks, in the order the program makes them. */
module Verdicts {
  import opened Wrappers
  import opened Modes
  import opened Namespace
  import opened Tree
  import opened Ops
  import opened Effects
  import opened Steps
  import opened Runs

  /** The attributes of what a path names. */
  function AttrsAt(ns: NS, p: Path): Meta
    requires Resolve(ns, p).Some?
  {
    ResolveLive(ns, p);
    ns.meta[Resolve(ns, p).value]
  }

  predicate DirAt(ns: NS, p: Path) {
    Resolve(ns, p).Some? && DirType(AttrsAt(ns, p).mode)
  }

  /** The caller may pass through p. */
  predicate LetsThrough(ns: NS, ctx: SContext, p: Path) {
    Resolve(ns, p).Some? && MaySearch(ctx, AttrsAt(ns, p))
  }

  /** p names something, and the caller may pass through every directory above it. */
  ghost predicate Reaches(ns: NS, ctx: SContext, p: Path) {
    Resolve(ns, p).Some? && forall k | 0 <= k < |p| :: LetsThrough(ns, ctx, p[..k])
  }

  /** The directory of p's last token can be opened. */
  ghost predicate Opens(ns: NS, ctx: SContext, p: Path) {
    Reaches(ns, ctx, Parent(p)) && DirAt(ns, Parent(p))
  }

  predicate MayChangeAt(ns: NS, ctx: SContext, p: Path) {
    Resolve(ns, p).Some? && MayChange(ctx, AttrsAt(ns, p))
  }

  predicate StickyAt(ns: NS, ctx: SContext, p: Path) {
    Resolve(ns, p).Some? && Resolve(ns, Parent(p)).Some? && StickyRefuses(ctx, AttrsAt(ns, Parent(p)), AttrsAt(ns, p))
  }

  /** p names something by its last token, as the root does not. */
  predicate Entry(ns: NS, p: Path) {
    p != [] && Resolve(ns, p).Some?
  }

  ghost predicate HasChild(ns: NS, p: Path) {
    exists x: Name :: ValidName(x) && Resolve(ns, p + [x]).Some?
  }

  /** mkdir, mknod, symlink. */
  ghost function CreateVerdict(ns: NS, ctx: SContext, p: Path): Outcome {
    if !Opens(ns, ctx, p) then LookupFails
    else if !MayChangeAt(ns, ctx, Parent(p)) then Fails(EACCES)
    else if Entry(ns, p) then Fails(EEXIST)
    else Done
  }

  ghost function UnlinkVerdict(ns: NS, ctx: SContext, p: Path): Outcome {
    if !Opens(ns, ctx, p) then LookupFails
    else if !MayChangeAt(ns, ctx, Parent(p)) then Fails(EACCES)
    else if !Entry(ns, p) then Fails(ENOENT)
    else if StickyAt(ns, ctx, p) then Fails(EACCES)
    else if DirAt(ns, p) then Fails(EISDIR)
    else Done
  }

  ghost function RmdirVerdict(ns: NS, ctx: SContext, p: Path): Outcome {
    if !Opens(ns, ctx, p) then LookupFails
    else if !MayChangeAt(ns, ctx, Parent(p)) then Fails(EACCES)
    else if !Entry(ns, p) then Fails(ENOENT)
    else if !DirAt(ns, p) then Fails(ENOTDIR)
    else if StickyAt(ns, ctx, p) then Fails(EACCES)
    else if HasChild(ns, p) then Fails(ENOTEMPTY)
    else Done
  }

  ghost function LinkVerdict(ns: NS, ctx: SContext, p: Path, q: Path): Outcome {
    if !Opens(ns, ctx, q) then LookupFails
    else if !MayWrite(ctx, AttrsAt(ns, Parent(q))) then Fails(EACCES)
    else if !Reaches(ns, ctx, p) then LookupFails
    else if Entry(ns, q) then Fails(EEXIST)
    else Done
  }

  /** What rename says of the node it would replace. */
  ghost function ReplaceVerdict(ns: NS, ctx: SContext, p: Path, q: Path): Outcome {
    if StickyAt(ns, ctx, q) then Fails(EACCES)
    else if DirAt(ns, p) then
      if !DirAt(ns, q) then Fails(ENOTDIR)
      else if StrictlyUnder(q, p) then Fails(EINVAL)
      else if HasChild(ns, q) then Fails(ENOTEMPTY)
      else Done
    else if DirAt(ns, q) then Fails(EISDIR)
    else Done
  }

  ghost function RenameVerdict(ns: NS, ctx: SContext, p: Path, q: Path): Outcome {
    if !Opens(ns, ctx, p) || !Opens(ns, ctx, q) then LookupFails
    else if !Entry(ns, p) then Fails(ENOENT)
    else if p == q then Done
    else if !MayChangeAt(ns, ctx, Parent(p)) || !MayChangeAt(ns, ctx, Parent(q)) then Fails(EACCES)
    else if StickyAt(ns, ctx, p) then Fails(EACCES)
    else if Entry(ns, q) then ReplaceVerdict(ns, ctx, p, q)
    else Done
  }

  ghost function ChmodVerdict(ns: NS, ctx: SContext, p: Path): Outcome {
    if !Reaches(ns, ctx, p) then LookupFails
    else if ctx.uid !in {0, AttrsAt(ns, p).uid} then Fails(EPERM)
    else Done
  }

  /** Another owner can be given by user 0 only; another group by user 0, or by the owner if it is one
      of his own. */
  predicate ChownRefused(ctx: SContext, m: Meta, owner: nat, group: nat) {
    ctx.uid != 0 &&
    (owner !in {0xFFFF_FFFF, m.uid} || (group !in {0xFFFF_FFFF, m.gid} && (ctx.uid != m.uid || group !in ctx.groups)))
  }

  ghost function ChownVerdict(ns: NS, ctx: SContext, p: Path, owner: nat, group: nat): Outcome {
    if !Reaches(ns, ctx, p) then LookupFails
    else if ChownRefused(ctx, AttrsAt(ns, p), owner, group) then Fails(EPERM)
    else Done
  }

  ghost function Verdict(ns: NS, r: Request): Outcome {
    match r.op
    case GetAttr(p) => if Reaches(ns, r.ctx, p) then Done else LookupFails
    case MkDir(p, _) => CreateVerdict(ns, r.ctx, p)
    case MkNod(p, _) => CreateVerdict(ns, r.ctx, p)
    case SymLink(p) => CreateVerdict(ns, r.ctx, p)
    case UnLink(p) => UnlinkVerdict(ns, r.ctx, p)
    case RmDir(p) => RmdirVerdict(ns, r.ctx, p)
    case ReName(p, q) => RenameVerdict(ns, r.ctx, p, q)
    case HardLink(p, q) => LinkVerdict(ns, r.ctx, p, q)
    case ChMod(p, _) => ChmodVerdict(ns, r.ctx, p)
    case ChOwn(p, owner, group) => ChownVerdict(ns, r.ctx, p, owner, group)
  }

  lemma ReachesIsWalk(ns: NS, ctx: SContext, p: Path)
    ensures Reaches(ns, ctx, p) <==> Walk(ns, ctx, p).Ok?
    ensures Walk(ns, ctx, p).Ok? ==> Resolve(ns, p) == Some(Walk(ns, ctx, p).value)
  {
    hide Walk, Resolve, MaySearch, Access;
    WalkResolves(ns, ctx, p);
    if Resolve(ns, p).Some? {
      forall k | 0 <= k < |p|
        ensures LetsThrough(ns, ctx, p[..k]) <==> SearchableDir(ns, ctx, p[..k])
      {
        ResolvePrefix(ns, p, k);
        ResolveLive(ns, p[..k]);
        AccessIsBits(ctx, ns.meta[Resolve(ns, p[..k]).value]);
      }
    }
  }

  lemma OpensIsLocate(ns: NS, ctx: SContext, p: Path)
    ensures LocateDir(ns, ctx, p) == if Opens(ns, ctx, p) then Resolve(ns, Parent(p)) else None
    ensures Opens(ns, ctx, p) ==> Resolve(ns, Parent(p)).Some? && IsDirNode(ns, Resolve(ns, Parent(p)).value)
  {
    hide Walk, Resolve, Reaches;
    ReachesIsWalk(ns, ctx, Parent(p));
    if Resolve(ns, Parent(p)).Some? {
      ResolveLive(ns, Parent(p));
      IsDirIsType(AttrsAt(ns, Parent(p)).mode);
    }
  }

  /** The entry of p's last token. */
  lemma EntryIsChild(ns: NS, p: Path, d: Id)
    requires EntriesOk(ns) && ValidPath(p) && Resolve(ns, Parent(p)) == Some(d) && IsDirNode(ns, d)
    ensures Child(ns, d, Leaf(p)) == if Entry(ns, p) then Resolve(ns, p) else None
    ensures Key(d, Leaf(p)) in ns.dirs <==> Entry(ns, p)
  {
    if p == [] {
      EmptyNameMissing(ns, d);
    }
  }

  lemma HasChildIsEntries(ns: NS, p: Path)
    requires EntriesOk(ns) && DirAt(ns, p)
    ensures HasChild(ns, p) <==> HasEntries(ns, Resolve(ns, p).value)
  {
    var c := Resolve(ns, p).value;
    forall x: Name
      ensures Parent(p + [x]) == p && Leaf(p + [x]) == x
    {
    }
    if HasChild(ns, p) {
      var x: Name :| ValidName(x) && Resolve(ns, p + [x]).Some?;
      assert Key(c, x) in ns.dirs && Named(Key(c, x));
    }
    if k :| k in ns.dirs && k.dir == c && Named(k) {
      assert Resolve(ns, p + [k.name]) == Child(ns, c, k.name);
    }
  }

  lemma CreateIsVerdict(ns: NS, ctx: SContext, p: Path, m: Meta)
    requires EntriesOk(ns) && ValidPath(p)
    ensures Create(ns, ctx, p, m).out == CreateVerdict(ns, ctx, p)
  {
    hide Resolve, LocateDir, Opens, Access, MayChange, EntriesOk, AddAt;
    OpensIsLocate(ns, ctx, p);
    if Opens(ns, ctx, p) {
      var d := Resolve(ns, Parent(p)).value;
      AccessIsBits(ctx, ns.meta[d]);
      EntryIsChild(ns, p, d);
    }
  }

  /** The entry, its attributes, and whom the sticky bit refuses, on an opened directory. */
  lemma OpenedEntry(ns: NS, ctx: SContext, p: Path, d: Id)
    requires EntriesOk(ns) && ValidPath(p) && Resolve(ns, Parent(p)) == Some(d) && IsDirNode(ns, d)
    ensures Access(ctx, ns.meta[d], W_OK | X_OK) <==> MayChangeAt(ns, ctx, Parent(p))
    ensures Access(ctx, ns.meta[d], X_OK | W_OK) <==> MayChangeAt(ns, ctx, Parent(p))
    ensures Child(ns, d, Leaf(p)).Some? <==> Entry(ns, p)
    ensures Entry(ns, p) ==>
              var c := Child(ns, d, Leaf(p)).value;
              && Resolve(ns, p) == Some(c) && c in ns.meta
              && (IsDir(ns.meta[c].mode) <==> DirAt(ns, p))
              && (StickyOk(ctx, ns.meta[d], ns.meta[c]) <==> !StickyAt(ns, ctx, p))
  {
    hide Resolve, Access, MayChange, EntriesOk, StickyOk, StickyRefuses, DirType, IsDir;
    AccessIsBits(ctx, ns.meta[d]);
    EntryIsChild(ns, p, d);
    if Entry(ns, p) {
      var c := Child(ns, d, Leaf(p)).value;
      IsDirIsType(ns.meta[c].mode);
      StickyIsBit(ctx, ns.meta[d], ns.meta[c]);
    }
  }

  lemma UnlinkIsVerdict(ns: NS, ctx: SContext, p: Path)
    requires EntriesOk(ns) && ValidPath(p)
    ensures Unlink(ns, ctx, p).out == UnlinkVerdict(ns, ctx, p)
  {
    hide Resolve, LocateDir, Opens, Access, MayChangeAt, EntriesOk, StickyOk, StickyAt, DirAt, IsDir, Entry, UnlinkAt;
    OpensIsLocate(ns, ctx, p);
    if Opens(ns, ctx, p) {
      OpenedEntry(ns, ctx, p, Resolve(ns, Parent(p)).value);
    }
  }

  lemma RmdirIsVerdict(ns: NS, ctx: SContext, p: Path)
    requires EntriesOk(ns) && ValidPath(p)
    ensures Rmdir(ns, ctx, p).out == RmdirVerdict(ns, ctx, p)
  {
    hide Resolve, LocateDir, Opens, Access, MayChangeAt, EntriesOk, StickyOk, StickyAt, DirAt, IsDir, Entry, RmdirAt,
         HasEntries, HasChild;
    OpensIsLocate(ns, ctx, p);
    if Opens(ns, ctx, p) {
      OpenedEntry(ns, ctx, p, Resolve(ns, Parent(p)).value);
      if DirAt(ns, p) {
        HasChildIsEntries(ns, p);
      }
    }
  }

  lemma LinkIsVerdict(ns: NS, ctx: SContext, p: Path, q: Path)
    requires EntriesOk(ns) && ValidPath(p) && ValidPath(q)
    ensures Link(ns, ctx, p, q).out == LinkVerdict(ns, ctx, p, q)
  {
    hide Resolve, LocateDir, Opens, Access, MayWrite, EntriesOk, Entry, LinkAt, Walk, Reaches;
    OpensIsLocate(ns, ctx, q);
    ReachesIsWalk(ns, ctx, p);
    if Opens(ns, ctx, q) {
      var d := Resolve(ns, Parent(q)).value;
      AccessIsBits(ctx, ns.meta[d]);
      EntryIsChild(ns, q, d);
    }
  }

  lemma ReplaceIsVerdict(ns: NS, ctx: SContext, p: Path, q: Path, sp: Id, dp: Id)
    requires Inv(ns) && HoldsLeaf(ns, p, sp) && HoldsLeaf(ns, q, dp) && Entry(ns, p) && Entry(ns, q)
    ensures Resolve(ns, p).value in ns.meta && Resolve(ns, q).value in ns.meta
    ensures var e := ReplaceCheck(ns, ctx, Resolve(ns, p).value, dp, Resolve(ns, q).value);
            ReplaceVerdict(ns, ctx, p, q) == if e == OK then Done else Fails(e)
  {
    hide Inv, Resolve, Access, StickyOk, StickyAt, IsDir, DirAt, HasEntries, HasChild, Below;
    EntriesThere(ns);
    OpenedEntry(ns, ctx, p, sp);
    OpenedEntry(ns, ctx, q, dp);
    ResolveHeld(ns, p, sp);
    if DirAt(ns, p) {
      WalkDecidesSubtree(ns, p, q, sp, Resolve(ns, p).value, dp);
    }
    if DirAt(ns, q) {
      HasChildIsEntries(ns, q);
    }
  }

  lemma EntriesThere(ns: NS)
    requires Inv(ns)
    ensures EntriesOk(ns)
  {
  }

  lemma RenameIsVerdict(ns: NS, ctx: SContext, p: Path, q: Path)
    requires Inv(ns) && ValidPath(p) && ValidPath(q) && q != []
    ensures Rename(ns, ctx, p, q).out == RenameVerdict(ns, ctx, p, q)
  {
    hide Inv, Resolve, LocateDir, Opens, Access, MayChangeAt, StickyOk, StickyAt, DirAt, IsDir, Entry, RenameAt,
         ReplaceCheck, ReplaceVerdict, RenameOntoItself, EntriesOk;
    EntriesThere(ns);
    OpensIsLocate(ns, ctx, p);
    OpensIsLocate(ns, ctx, q);
    if Opens(ns, ctx, p) && Opens(ns, ctx, q) {
      var sp, dp := Resolve(ns, Parent(p)).value, Resolve(ns, Parent(q)).value;
      OpenedEntry(ns, ctx, p, sp);
      OpenedEntry(ns, ctx, q, dp);
      if Entry(ns, p) {
        RootIsNoEntry(ns, p);
        if p != q {
          KeysDiffer(ns, p, q, sp, dp);
        }
        if Entry(ns, q) {
          ReplaceIsVerdict(ns, ctx, p, q, sp, dp);
        }
      }
    }
  }

  lemma RootIsNoEntry(ns: NS, p: Path)
    requires Entry(ns, p)
    ensures p != []
  {
  }

  lemma ChmodIsVerdict(ns: NS, ctx: SContext, p: Path, mode: Mode)
    ensures Chmod(ns, ctx, p, mode).out == ChmodVerdict(ns, ctx, p)
  {
    hide Walk, Resolve, Reaches, ChmodMode;
    ReachesIsWalk(ns, ctx, p);
  }

  lemma ChownIsVerdict(ns: NS, ctx: SContext, p: Path, owner: nat, group: nat)
    ensures Chown(ns, ctx, p, owner, group).out == ChownVerdict(ns, ctx, p, owner, group)
  {
    hide Walk, Resolve, Reaches, ChownMeta;
    ReachesIsWalk(ns, ctx, p);
  }

  /** Every request, walked for without a cache, is answered as paths, bits and attributes say. */
  lemma ApplyIsVerdict(ns: NS, r: Request)
    requires Inv(ns) && WellFormed(r.op)
    ensures Apply(ns, r).out == Verdict(ns, r)
  {
    hide Inv, Walk, Reaches, Create, Unlink, Rmdir, Rename, Link, Chmod, Chown, CreateVerdict, UnlinkVerdict, RmdirVerdict,
         RenameVerdict, LinkVerdict, ChmodVerdict, ChownVerdict, EntriesOk;
    EntriesThere(ns);
    match r.op
    case GetAttr(p) => ReachesIsWalk(ns, r.ctx, p);
    case MkDir(p, mode) => CreateIsVerdict(ns, r.ctx, p, DirMeta(r.ctx, mode));
    case MkNod(p, mode) => CreateIsVerdict(ns, r.ctx, p, Meta(mode, r.ctx.uid, r.ctx.gid));
    case SymLink(p) => CreateIsVerdict(ns, r.ctx, p, Meta(S_IFLNK, r.ctx.uid, r.ctx.gid));
    case UnLink(p) => UnlinkIsVerdict(ns, r.ctx, p);
    case RmDir(p) => RmdirIsVerdict(ns, r.ctx, p);
    case ReName(p, q) => RenameIsVerdict(ns, r.ctx, p, q);
    case HardLink(p, q) => LinkIsVerdict(ns, r.ctx, p, q);
    case ChMod(p, mode) => ChmodIsVerdict(ns, r.ctx, p, mode);
    case ChOwn(p, owner, group) => ChownIsVerdict(ns, r.ctx, p, owner, group);
  }
}
