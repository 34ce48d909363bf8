/** What a request that is done leaves, told by paths and attributes: which paths mean what afterwards, and
    which node has which owner, group and mode. What no path leads to is gone. */
module Performed {
  import opened Wrappers
  import opened Modes
  import opened Namespace
  import opened Tree
  import opened Ops
  import opened Effects
  import opened Steps
  import opened Runs
  import opened CachedSteps
  import opened Agreement
  import opened Verdicts

  /** p names n, nothing lies below it, and every other path means what it meant. */
  ghost predicate NameAppears(ns: NS, ns': NS, p: Path, n: Id) {
    forall q | ValidPath(q) :: Resolve(ns', q) == if q == p then Some(n) else if Under(q, p) then None else Resolve(ns, q)
  }

  /** p and all below it mean nothing, and every other path means what it meant. */
  ghost predicate NameVanishes(ns: NS, ns': NS, p: Path) {
    forall q | ValidPath(q) :: Resolve(ns', q) == if Under(q, p) then None else Resolve(ns, q)
  }

  ghost predicate SamePaths(ns: NS, ns': NS) {
    forall q | ValidPath(q) :: Resolve(ns', q) == Resolve(ns, q)
  }

  /** Nodes keep their attributes, and are there as long as some path leads to them. */
  ghost predicate OnlyUnnamedGo(ns: NS, ns': NS) {
    && (forall n | n in ns'.meta :: n in ns.meta && ns'.meta[n] == ns.meta[n])
    && (forall n :: n in ns'.meta <==> Reachable(ns', n))
  }

  /** The attributes mkdir, mknod and symlink give: the caller's user and primary group, and the mode asked
      for, with the type of what is made. */
  predicate NewAttrs(ctx: SContext, op: Op, m: Meta) {
    && m.uid == ctx.uid && m.gid == ctx.gid
    && match op
       case MkDir(_, mode) => NewDirMode(m.mode, mode)
       case MkNod(_, mode) => m.mode == mode
       case SymLink(_) => m.mode == 0xA000
       case _ => true
  }

  /** A directory's type, and every other bit as asked. */
  predicate NewDirMode(m: Mode, mode: Mode) {
    DirType(m) && m & 0xFFFF0FFF == mode & 0xFFFF0FFF
  }

  /** One node more, with these attributes. */
  ghost predicate NodeMade(ns: NS, ns': NS, ctx: SContext, op: Op, n: Id) {
    n !in ns.meta && n in ns'.meta && NewAttrs(ctx, op, ns'.meta[n]) && ns'.meta == ns.meta[n := ns'.meta[n]]
  }

  ghost predicate Made(ns: NS, ns': NS, ctx: SContext, op: Op) {
    exists n :: NodeMade(ns, ns', ctx, op, n) && NameAppears(ns, ns', op.p, n)
  }

  /** chmod leaves the type and sets every other bit as asked; but it clears the set-group-id bit for a
      caller, other than user 0, who is not in the node's group. */
  predicate ModeSet(ctx: SContext, m: Meta, m': Meta, mode: Mode) {
    && m'.uid == m.uid && m'.gid == m.gid
    && m'.mode == (m.mode & 0xF000) | (if ctx.uid != 0 && m.gid !in ctx.groups then mode & 0xFFFF0BFF else mode & 0xFFFF0FFF)
  }

  /** chown sets owner and group where they are given. Where the caller is not user 0 and the group changes,
      bits are cleared. */
  predicate OwnerSet(ctx: SContext, m: Meta, m': Meta, owner: nat, group: nat) {
    && m'.uid == (if owner == 0xFFFF_FFFF then m.uid else owner)
    && m'.gid == (if group == 0xFFFF_FFFF then m.gid else group)
    && m'.mode == if ctx.uid == 0 || m'.gid == m.gid then m.mode else SetIdCleared(m.mode)
  }

  /** Without the set-user-id bit, if the highest type bit is set, and then without the set-group-id bit if
      the group may execute. */
  function SetIdCleared(m: Mode): Mode {
    if m & 0x8000 == 0 then m else if m & 0x8 == 0 then m & 0xFFFFF7FF else m & 0xFFFFF3FF
  }

  /** One node has other attributes, and all else is as it was. */
  ghost predicate OneChanged(ns: NS, ns': NS, n: Id) {
    n in ns.meta && n in ns'.meta && ns'.meta == ns.meta[n := ns'.meta[n]] && ns'.dirs == ns.dirs
  }

  ghost predicate IsDone(ns: NS, ns': NS, r: Request) {
    match r.op
    case GetAttr(_) => ns' == ns
    case MkDir(_, _) => Made(ns, ns', r.ctx, r.op)
    case MkNod(_, _) => Made(ns, ns', r.ctx, r.op)
    case SymLink(_) => Made(ns, ns', r.ctx, r.op)
    case UnLink(p) => NameVanishes(ns, ns', p) && OnlyUnnamedGo(ns, ns')
    case RmDir(p) => NameVanishes(ns, ns', p) && OnlyUnnamedGo(ns, ns')
    case HardLink(p, q) => Resolve(ns, p).Some? && NameAppears(ns, ns', q, Resolve(ns, p).value) && ns'.meta == ns.meta
    case ReName(p, q) => if p == q then ns' == ns else SubtreeMoved(ns, ns', p, q) && OnlyUnnamedGo(ns, ns')
    case ChMod(p, mode) =>
      && Resolve(ns, p).Some? && OneChanged(ns, ns', Resolve(ns, p).value) && SamePaths(ns, ns')
      && ModeSet(r.ctx, ns.meta[Resolve(ns, p).value], ns'.meta[Resolve(ns, p).value], mode)
    case ChOwn(p, owner, group) =>
      && Resolve(ns, p).Some? && OneChanged(ns, ns', Resolve(ns, p).value) && SamePaths(ns, ns')
      && OwnerSet(r.ctx, ns.meta[Resolve(ns, p).value], ns'.meta[Resolve(ns, p).value], owner, group)
  }

  lemma LiveIsReachable(ns: NS)
    requires Inv(ns)
    ensures forall n :: n in ns.meta <==> Reachable(ns, n)
  {
    hide Inv;
    forall n
      ensures n in ns.meta <==> Reachable(ns, n)
    {
      if n in ns.meta {
        EveryNodeReachable(ns, n);
      }
      if Reachable(ns, n) {
        var p :| ValidPath(p) && Resolve(ns, p) == Some(n);
        ResolveLive(ns, p);
      }
    }
  }

  lemma DirModeBits(mode: Mode)
    ensures DirType(S_IFDIR | mode) <==> IsDir(S_IFDIR | mode)
    ensures (S_IFDIR | mode) & 0xFFFF0FFF == mode & 0xFFFF0FFF
  {
  }

  lemma NewDirAttrs(ctx: SContext, mode: Mode)
    requires IsDir(S_IFDIR | mode)
    ensures var m := DirMeta(ctx, mode);
            m.uid == ctx.uid && m.gid == ctx.gid && NewDirMode(m.mode, mode)
  {
    hide IsDir, DirType;
    DirModeBits(mode);
  }

  lemma NewAttrsAre(ctx: SContext, op: Op)
    requires WellFormed(op)
    ensures op.MkDir? ==> NewAttrs(ctx, op, DirMeta(ctx, op.mode))
    ensures op.MkNod? ==> NewAttrs(ctx, op, Meta(op.mode, ctx.uid, ctx.gid))
    ensures op.SymLink? ==> NewAttrs(ctx, op, Meta(S_IFLNK, ctx.uid, ctx.gid))
  {
    hide IsDir, NewDirMode, DirMeta;
    if op.MkDir? {
      NewDirAttrs(ctx, op.mode);
    }
  }

  /** Whatever directory was opened: the new node's attributes. */
  lemma CreateUnderMakes(ns: NS, ctx: SContext, op: Op, d: Id, x: Name, m: Meta)
    requires IdsLeft(ns) && d in ns.meta && NewAttrs(ctx, op, m) && CreateUnder(ns, ctx, d, x, m).out == Done
    ensures NodeMade(ns, CreateUnder(ns, ctx, d, x, m).ns, ctx, op, NextId(ns.meta.Keys))
  {
    NextIdFresh(ns);
  }

  lemma CreateIsDone(ns: NS, ctx: SContext, op: Op, m: Meta)
    requires Inv(ns) && IdsLeft(ns) && ValidPath(op.p) && op.p != [] && NewAttrs(ctx, op, m)
    requires Create(ns, ctx, op.p, m).out == Done
    ensures Made(ns, Create(ns, ctx, op.p, m).ns, ctx, op)
  {
    hide Inv, LocateDir, AddAt, Access, NewAttrs, IdsLeft;
    var p := op.p;
    var d, n := LocateDir(ns, ctx, p).value, NextId(ns.meta.Keys);
    Located(ns, ctx, p);
    NextIdFresh(ns);
    CreateUnderMakes(ns, ctx, op, d, Leaf(p), m);
    forall q | ValidPath(q)
      ensures Resolve(Create(ns, ctx, p, m).ns, q)
              == if q == p then Some(n) else if Under(q, p) then None else Resolve(ns, q)
    {
      AddPaths(ns, p, d, n, m, q);
    }
  }

  lemma UnlinkIsDone(ns: NS, ctx: SContext, p: Path)
    requires Inv(ns) && ValidPath(p) && Unlink(ns, ctx, p).out == Done
    ensures NameVanishes(ns, Unlink(ns, ctx, p).ns, p) && OnlyUnnamedGo(ns, Unlink(ns, ctx, p).ns)
  {
    hide Inv, LocateDir, Access, StickyOk, UnlinkAt;
    var d := LocateDir(ns, ctx, p).value;
    var c := Child(ns, d, Leaf(p)).value;
    EntriesThere(ns);
    EmptyNameMissing(ns, d);
    Located(ns, ctx, p);
    UnlinkStep(ns, ctx, p);
    LiveIsReachable(Unlink(ns, ctx, p).ns);
    UnlinkFewer(ns, d, Leaf(p), c);
    forall q | ValidPath(q)
      ensures Resolve(Unlink(ns, ctx, p).ns, q) == if Under(q, p) then None else Resolve(ns, q)
    {
      UnlinkPaths(ns, p, d, c, q);
    }
  }

  lemma UnlinkFewer(ns: NS, d: Id, x: Name, c: Id)
    ensures var ns' := UnlinkAt(ns, d, x, c);
            forall n | n in ns'.meta :: n in ns.meta && ns'.meta[n] == ns.meta[n]
  {
  }

  lemma RmdirIsDone(ns: NS, ctx: SContext, p: Path)
    requires Inv(ns) && ValidPath(p) && Rmdir(ns, ctx, p).out == Done
    ensures NameVanishes(ns, Rmdir(ns, ctx, p).ns, p) && OnlyUnnamedGo(ns, Rmdir(ns, ctx, p).ns)
  {
    hide Inv, LocateDir, Access, StickyOk, HasEntries;
    var d := LocateDir(ns, ctx, p).value;
    var c := Child(ns, d, Leaf(p)).value;
    EntriesThere(ns);
    EmptyNameMissing(ns, d);
    Located(ns, ctx, p);
    RmdirStep(ns, ctx, p);
    LiveIsReachable(Rmdir(ns, ctx, p).ns);
    forall q | ValidPath(q)
      ensures Resolve(Rmdir(ns, ctx, p).ns, q) == if Under(q, p) then None else Resolve(ns, q)
    {
      RmdirPaths(ns, p, d, c, q);
    }
  }

  lemma LinkIsDone(ns: NS, ctx: SContext, p: Path, q: Path)
    requires Inv(ns) && Admissible(ns, HardLink(p, q)) && Link(ns, ctx, p, q).out == Done
    ensures IsDone(ns, Link(ns, ctx, p, q).ns, Request(ctx, HardLink(p, q)))
  {
    hide Inv, LocateDir, Access, Walk;
    var d, n := LocateDir(ns, ctx, q).value, Walk(ns, ctx, p).value;
    Located(ns, ctx, q);
    WalkResolves(ns, ctx, p);
    forall r | ValidPath(r)
      ensures Resolve(Link(ns, ctx, p, q).ns, r) == if r == q then Some(n) else if Under(r, q) then None else Resolve(ns, r)
    {
      LinkPaths(ns, q, d, n, r);
    }
  }

  lemma RenameIsDone(ns: NS, ctx: SContext, p: Path, q: Path)
    requires Inv(ns) && Admissible(ns, ReName(p, q)) && Rename(ns, ctx, p, q).out == Done
    ensures IsDone(ns, Rename(ns, ctx, p, q).ns, Request(ctx, ReName(p, q)))
  {
    hide Inv, Rename, SubtreeMoved;
    RenameStep(ns, ctx, p, q);
    LiveIsReachable(Rename(ns, ctx, p, q).ns);
    RenameFewer(ns, ctx, p, q);
  }

  lemma RenameFewer(ns: NS, ctx: SContext, p: Path, q: Path)
    requires Rename(ns, ctx, p, q).out == Done
    ensures var ns' := Rename(ns, ctx, p, q).ns;
            forall n | n in ns'.meta :: n in ns.meta && ns'.meta[n] == ns.meta[n]
  {
    hide MoveCheck, LocateDir, MovedDirs;
  }

  lemma ChmodSets(ctx: SContext, m: Meta, mode: Mode)
    ensures var wanted := if ctx.uid != 0 && m.gid !in ctx.groups then mode & !S_ISGID else mode;
            ModeSet(ctx, m, m.(mode := ChmodMode(wanted, m.mode)), mode)
  {
    hide ChmodMode;
    if ctx.uid != 0 && m.gid !in ctx.groups {
      ChmodKeepsGroupOut(mode, m.mode);
    } else {
      ChmodParts(mode, m.mode);
    }
  }

  lemma ChmodParts(mode: Mode, current: Mode)
    ensures ChmodMode(mode, current) == (current & 0xF000) | (mode & 0xFFFF0FFF)
  {
  }

  lemma ChmodKeepsGroupOut(mode: Mode, current: Mode)
    ensures ChmodMode(mode & !S_ISGID, current) == (current & 0xF000) | (mode & 0xFFFF0BFF)
  {
  }

  lemma ChownClears(m: Mode)
    ensures ChownMode(m) == SetIdCleared(m)
  {
    ChownModeBits(m);
  }

  lemma ChownSets(ctx: SContext, m: Meta, owner: nat, group: nat)
    ensures OwnerSet(ctx, m, ChownMeta(ctx, m, owner, group), owner, group)
  {
    hide ChownMode, SetIdCleared;
    ChownClears(m.mode);
  }

  lemma SetIsDone(ns: NS, n: Id, m: Meta)
    requires n in ns.meta && IsDir(m.mode) == IsDir(ns.meta[n].mode)
    ensures OneChanged(ns, SetMeta(ns, n, m), n) && SamePaths(ns, SetMeta(ns, n, m))
  {
    forall q | ValidPath(q)
      ensures Resolve(SetMeta(ns, n, m), q) == Resolve(ns, q)
    {
      SetMetaPaths(ns, n, m, q);
    }
  }

  lemma ChmodIsDone(ns: NS, ctx: SContext, p: Path, mode: Mode)
    requires Chmod(ns, ctx, p, mode).out == Done
    ensures IsDone(ns, Chmod(ns, ctx, p, mode).ns, Request(ctx, ChMod(p, mode)))
  {
    hide Walk, Resolve, ChmodMode, ModeSet, SamePaths;
    WalkResolves(ns, ctx, p);
    var n := Walk(ns, ctx, p).value;
    ChmodSets(ctx, ns.meta[n], mode);
    SetIsDone(ns, n, Chmod(ns, ctx, p, mode).ns.meta[n]);
  }

  lemma ChownIsDone(ns: NS, ctx: SContext, p: Path, owner: nat, group: nat)
    requires Chown(ns, ctx, p, owner, group).out == Done
    ensures IsDone(ns, Chown(ns, ctx, p, owner, group).ns, Request(ctx, ChOwn(p, owner, group)))
  {
    hide Walk, Resolve, ChownMeta, OwnerSet, SamePaths, MayChown;
    WalkResolves(ns, ctx, p);
    var n := Walk(ns, ctx, p).value;
    ChownSets(ctx, ns.meta[n], owner, group);
    SetIsDone(ns, n, ChownMeta(ctx, ns.meta[n], owner, group));
  }

  /** A request that is done leaves what paths and attributes say; one that is refused leaves all as it was. */
  lemma ApplyIsDone(ns: NS, r: Request)
    requires Inv(ns) && IdsLeft(ns) && Admissible(ns, r.op)
    ensures Apply(ns, r).out == Done ==> IsDone(ns, Apply(ns, r).ns, r)
    ensures Apply(ns, r).out != Done ==> Apply(ns, r).ns == ns
  {
    hide Inv, Create, Unlink, Rmdir, Rename, Link, Chmod, Chown, Made, NameVanishes, OnlyUnnamedGo, NewAttrs, IdsLeft,
         Admissible, SubtreeMoved, NameAppears, ModeSet, OwnerSet, OneChanged, SamePaths, Resolve;
    StepKeepsInv(ns, r);
    AdmissibleIsWellFormed(ns, r.op);
    if Apply(ns, r).out == Done {
      NewAttrsAre(r.ctx, r.op);
      match r.op
      case GetAttr(p) =>
      case MkDir(p, mode) => CreateIsDone(ns, r.ctx, r.op, DirMeta(r.ctx, mode));
      case MkNod(p, mode) => CreateIsDone(ns, r.ctx, r.op, Meta(mode, r.ctx.uid, r.ctx.gid));
      case SymLink(p) => CreateIsDone(ns, r.ctx, r.op, Meta(S_IFLNK, r.ctx.uid, r.ctx.gid));
      case UnLink(p) => UnlinkIsDone(ns, r.ctx, p);
      case RmDir(p) => RmdirIsDone(ns, r.ctx, p);
      case ReName(p, q) => RenameIsDone(ns, r.ctx, p, q);
      case HardLink(p, q) => LinkIsDone(ns, r.ctx, p, q);
      case ChMod(p, mode) => ChmodIsDone(ns, r.ctx, p, mode);
      case ChOwn(p, owner, group) => ChownIsDone(ns, r.ctx, p, owner, group);
    }
  }

  lemma AdmissibleIsWellFormed(ns: NS, op: Op)
    requires Admissible(ns, op)
    ensures WellFormed(op)
  {
  }

  /** Through a cache in step: answer and effect as paths, bits and attributes say. */
  lemma StepMeans(w: World, r: Request, max: nat)
    requires Inv(w.ns) && IdsLeft(w.ns) && InStep(w) && Admissible(w.ns, r.op)
    ensures var rep := Step(w, r, max);
            && Matches(rep.e, Verdict(w.ns, r))
            && if rep.e == OK then IsDone(w.ns, rep.w.ns, r) else rep.w.ns == w.ns
  {
    hide Inv, IdsLeft, InStep, Admissible, Step, Apply, Verdict, IsDone, WellFormed, Safe, Clean, NewNameFits;
    AdmissibleIsWellFormed(w.ns, r.op);
    StepAgrees(w, r, max);
    NeverFailsOk(w.ns, r);
    ApplyIsVerdict(w.ns, r);
    ApplyIsDone(w.ns, r);
  }
}
