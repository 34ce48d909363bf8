/** What permission a request takes, whatever the cache led it to: the bits of the directories it opened,
    and the owner of the node it opened. */
module Permissions {
  import opened Modes
  import opened Namespace
  import opened Ops
  import opened Runs
  import opened CacheModel
  import opened CachedSteps
  import opened Verdicts

  /** The directory opened for p may be changed by the caller. */
  predicate MayChangeOpened(w: World, ctx: SContext, p: Path, max: nat) {
    var o := OpenDir(w.ns, ctx, w.cache, p, max).1;
    o.Ok? ==> MayChange(ctx, w.ns.meta[o.value])
  }

  predicate MayChangeBoth(ns: NS, ctx: SContext, sp: Id, dp: Id)
    requires sp in ns.meta && dp in ns.meta
  {
    MayChange(ctx, ns.meta[sp]) && MayChange(ctx, ns.meta[dp])
  }

  /** rename's source is there, and it is not asked to do nothing. */
  predicate HasToMove(ns: NS, same: bool, sp: Id, sl: Name, dp: Id, dl: Name) {
    Child(ns, sp, sl).Some? && !(same && Child(ns, dp, dl).Some?)
  }

  lemma CreateNeeds(ns: NS, ctx: SContext, d: Id, x: Name, m: Meta)
    requires d in ns.meta
    ensures !MayChange(ctx, ns.meta[d]) ==> CreateUnder(ns, ctx, d, x, m) == Effect(ns, Fails(EACCES))
    ensures MayChange(ctx, ns.meta[d]) && Key(d, x) in ns.dirs ==> CreateUnder(ns, ctx, d, x, m) == Effect(ns, Fails(EEXIST))
  {
    hide Access, MayChange;
    AccessIsBits(ctx, ns.meta[d]);
  }

  lemma RemoveNeeds(ns: NS, ctx: SContext, d: Id, x: Name)
    requires d in ns.meta
    ensures !MayChange(ctx, ns.meta[d]) ==>
              UnlinkFrom(ns, ctx, d, x) == RmdirFrom(ns, ctx, d, x) == Effect(ns, Fails(EACCES))
  {
    hide Access, MayChange;
    AccessIsBits(ctx, ns.meta[d]);
  }

  /** In a sticky directory nobody takes away another's node. */
  lemma StickyNeeds(ns: NS, ctx: SContext, d: Id, x: Name)
    requires d in ns.meta && Child(ns, d, x).Some? && StickyRefuses(ctx, ns.meta[d], ns.meta[Child(ns, d, x).value])
    ensures UnlinkFrom(ns, ctx, d, x) == Effect(ns, Fails(EACCES))
    ensures RmdirFrom(ns, ctx, d, x).out in {Fails(EACCES), Fails(ENOTDIR)} && RmdirFrom(ns, ctx, d, x).ns == ns
  {
    hide Access, StickyOk;
    StickyIsBit(ctx, ns.meta[d], ns.meta[Child(ns, d, x).value]);
  }

  lemma RenameNeeds(ns: NS, ctx: SContext, same: bool, sp: Id, sl: Name, dp: Id, dl: Name)
    requires sp in ns.meta && dp in ns.meta
    ensures Child(ns, sp, sl).None? ==> RenameBetween(ns, ctx, same, sp, sl, dp, dl) == Effect(ns, Fails(ENOENT))
    ensures HasToMove(ns, same, sp, sl, dp, dl) && !MayChangeBoth(ns, ctx, sp, dp) ==>
              RenameBetween(ns, ctx, same, sp, sl, dp, dl) == Effect(ns, Fails(EACCES))
  {
    hide Access, MayChange, StickyOk, ReplaceCheck, RenameAt, RenameOntoItself;
    AccessIsBits(ctx, ns.meta[sp]);
    AccessIsBits(ctx, ns.meta[dp]);
  }

  /** Nothing is created, removed or renamed without write and search permission for each directory that
      changes, nor linked without write permission: the answer is EACCES and no table changes. */
  lemma NoneWithoutPermission(w: World, r: Request, max: nat)
    ensures match r.op
            case MkDir(p, _) => !MayChangeOpened(w, r.ctx, p, max) ==> Refused(w, r, max, EACCES)
            case MkNod(p, _) => !MayChangeOpened(w, r.ctx, p, max) ==> Refused(w, r, max, EACCES)
            case SymLink(p) => !MayChangeOpened(w, r.ctx, p, max) ==> Refused(w, r, max, EACCES)
            case UnLink(p) => !MayChangeOpened(w, r.ctx, p, max) ==> Refused(w, r, max, EACCES)
            case RmDir(p) => !MayChangeOpened(w, r.ctx, p, max) ==> Refused(w, r, max, EACCES)
            case HardLink(p, q) => !MayWriteOpened(w, r.ctx, q, max) ==> Refused(w, r, max, EACCES)
            case ReName(p, q) => !MayRename(w, r.ctx, p, q, max) ==> Refused(w, r, max, EACCES)
            case ChMod(p, _) => !OwnsOpened(w, r.ctx, p, max) ==> Refused(w, r, max, EPERM)
            case ChOwn(p, owner, group) => !MayGiveOpened(w, r.ctx, p, owner, group, max) ==> Refused(w, r, max, EPERM)
            case GetAttr(_) => true
  {
    hide OpenDir, GetNodeIn, RenameOpens, Access, MayChange, MayWrite, CreateUnder, UnlinkFrom, RmdirFrom, RenameBetween,
         ChmodMode, ChownMeta, MoveCheck;
    var o := OpenDir(w.ns, r.ctx, w.cache, r.op.p, max).1;
    match r.op
    case GetAttr(_) =>
    case MkDir(p, mode) => if o.Ok? { CreateNeeds(w.ns, r.ctx, o.value, Leaf(p), DirMeta(r.ctx, mode)); }
    case MkNod(p, mode) => if o.Ok? { CreateNeeds(w.ns, r.ctx, o.value, Leaf(p), Meta(mode, r.ctx.uid, r.ctx.gid)); }
    case SymLink(p) => if o.Ok? { CreateNeeds(w.ns, r.ctx, o.value, Leaf(p), Meta(S_IFLNK, r.ctx.uid, r.ctx.gid)); }
    case UnLink(p) => if o.Ok? { RemoveNeeds(w.ns, r.ctx, o.value, Leaf(p)); }
    case RmDir(p) => if o.Ok? { RemoveNeeds(w.ns, r.ctx, o.value, Leaf(p)); }
    case HardLink(p, q) =>
      var oq := OpenDir(w.ns, r.ctx, w.cache, q, max).1;
      if oq.Ok? {
        AccessIsBits(r.ctx, w.ns.meta[oq.value]);
      }
    case ReName(p, q) => RenameStepNeeds(w, r.ctx, p, q, max);
    case ChMod(_, _) =>
    case ChOwn(_, _, _) =>
  }

  ghost predicate Refused(w: World, r: Request, max: nat, e: Errno) {
    Step(w, r, max).e == e && Step(w, r, max).w.ns == w.ns
  }

  predicate MayWriteOpened(w: World, ctx: SContext, q: Path, max: nat) {
    var o := OpenDir(w.ns, ctx, w.cache, q, max).1;
    o.Ok? ==> MayWrite(ctx, w.ns.meta[o.value])
  }

  predicate MayRename(w: World, ctx: SContext, p: Path, q: Path, max: nat) {
    var o := RenameOpens(w, ctx, p, q, max).1;
    o.Ok? && HasToMove(w.ns, p == q, o.value.0, Leaf(p), o.value.1, Leaf(q)) ==>
      MayChangeBoth(w.ns, ctx, o.value.0, o.value.1)
  }

  predicate OwnsOpened(w: World, ctx: SContext, p: Path, max: nat) {
    var o := GetNodeIn(w.ns, ctx, w.cache, p, max).1;
    o.Ok? ==> ctx.uid in {0, w.ns.meta[o.value].uid}
  }

  predicate MayGiveOpened(w: World, ctx: SContext, p: Path, owner: nat, group: nat, max: nat) {
    var o := GetNodeIn(w.ns, ctx, w.cache, p, max).1;
    o.Ok? ==> !ChownRefused(ctx, w.ns.meta[o.value], owner, group)
  }

  lemma RenameStepNeeds(w: World, ctx: SContext, p: Path, q: Path, max: nat)
    ensures !MayRename(w, ctx, p, q, max) ==> Refused(w, Request(ctx, ReName(p, q)), max, EACCES)
  {
    hide RenameOpens, Access, MayChange, RenameBetween, MoveCheck;
    var (c, o) := RenameOpens(w, ctx, p, q, max);
    if o.Ok? && !MayRename(w, ctx, p, q, max) {
      RenameNeeds(w.ns, ctx, p == q, o.value.0, Leaf(p), o.value.1, Leaf(q));
      RefusedMove(w.ns, ctx, p == q, o.value.0, Leaf(p), o.value.1, Leaf(q));
    }
  }

  lemma RefusedMove(ns: NS, ctx: SContext, same: bool, sp: Id, sl: Name, dp: Id, dl: Name)
    requires sp in ns.meta && dp in ns.meta
    requires RenameBetween(ns, ctx, same, sp, sl, dp, dl) == Effect(ns, Fails(EACCES))
    ensures MoveCheck(ns, ctx, same, sp, sl, dp, dl) == EACCES
  {
  }

  /** EPERM is exactly for those who may not set the mode or the owner of the node they opened. */
  lemma SetRefusedIff(w: World, ctx: SContext, p: Path, mode: Mode, owner: nat, group: nat, max: nat)
    ensures Step(w, Request(ctx, ChMod(p, mode)), max).e == EPERM <==> !OwnsOpened(w, ctx, p, max)
    ensures Step(w, Request(ctx, ChOwn(p, owner, group)), max).e == EPERM <==> !MayGiveOpened(w, ctx, p, owner, group, max)
  {
    hide GetNodeIn, ChmodMode, ChownMeta;
  }
}
