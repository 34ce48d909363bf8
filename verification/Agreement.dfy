/** On a cache in step with the tables, a request does what it does with uncached walks. It leaves the
    cache in step exactly if what is still cached below a name that appears is what then lies there. */
module Agreement {
  import opened Wrappers
  import opened Modes
  import opened Namespace
  import opened Tree
  import opened Ops
  import opened Moves
  import opened Effects
  import opened Steps
  import opened Coherence
  import opened Invalidation
  import opened Runs
  import opened CacheModel
  import opened CachedSteps

  ghost predicate InStep(w: World) {
    Coherent(w.ns, w.cache.view)
  }

  /** The request that made a name appear left nothing cached below it that is not there. */
  ghost predicate NewNameFits(w: World, r: Request, max: nat) {
    var rep := Step(w, r, max);
    rep.e == OK ==>
      match r.op
      case MkDir(p, _) => NoChildCached(rep.w.cache.view, p)
      case MkNod(p, _) => NoChildCached(rep.w.cache.view, p)
      case SymLink(p) => NoChildCached(rep.w.cache.view, p)
      case HardLink(_, q) => NoChildCached(rep.w.cache.view, q)
      case ReName(p, q) => p != q ==> MovedEntriesFit(w.ns, rep.w.cache.view, p, q)
      case _ => true
  }

  /** rep is what an uncached request has as its effect. */
  ghost predicate Mirrors(rep: Reply, ef: Effect) {
    rep.w.ns == ef.ns && Matches(rep.e, ef.out)
  }

  /** Same answer and same tables as with uncached walks; then the cache is in step exactly if the new
      name fits it; and such a request is safe and clean. */
  lemma StepAgrees(w: World, r: Request, max: nat)
    requires Inv(w.ns) && IdsLeft(w.ns) && InStep(w) && Admissible(w.ns, r.op)
    ensures Mirrors(Step(w, r, max), Apply(w.ns, r))
    ensures InStep(Step(w, r, max).w) <==> NewNameFits(w, r, max)
    ensures Safe(w, r, max) && Clean(w, r, max)
  {
    hide Inv, IdsLeft, Coherent, GetNodeIn, Walk, Create, Unlink, Rmdir, Rename, Link, Chmod, Chown, StepCreate,
         StepUnlink, StepRmdir, StepRename, StepLink, StepSet, Safe, Clean, MovedEntriesFit, NoChildCached;
    match r.op {
      case GetAttr(p) => GetNodeAgrees(w.ns, r.ctx, w.cache, p, max);
      case MkDir(p, mode) => CreateAgrees(w, r.ctx, p, DirMeta(r.ctx, mode), max);
      case MkNod(p, mode) => CreateAgrees(w, r.ctx, p, Meta(mode, r.ctx.uid, r.ctx.gid), max);
      case SymLink(p) => CreateAgrees(w, r.ctx, p, Meta(S_IFLNK, r.ctx.uid, r.ctx.gid), max);
      case UnLink(p) => UnlinkAgrees(w, r.ctx, p, max);
      case RmDir(p) => RmdirAgrees(w, r.ctx, p, max);
      case ReName(p, q) => RenameAgrees(w, r.ctx, p, q, max);
      case HardLink(p, q) => LinkAgrees(w, r.ctx, p, q, max);
      case ChMod(_, _) => SetAgrees(w, r.ctx, r.op, max);
      case ChOwn(_, _, _) => SetAgrees(w, r.ctx, r.op, max);
    }
    AgreeingIsSafe(w, r, max);
  }

  lemma AgreeingIsSafe(w: World, r: Request, max: nat)
    requires Inv(w.ns) && IdsLeft(w.ns) && Admissible(w.ns, r.op)
    requires Mirrors(Step(w, r, max), Apply(w.ns, r))
    ensures Safe(w, r, max) && Clean(w, r, max)
  {
    hide Inv, IdsLeft, Apply, Step, Safe, Clean;
    StepIff(w, r, max);
    StepKeepsInv(w.ns, r);
  }

  lemma OpenDirAgrees(ns: NS, ctx: SContext, c: Cache, p: Path, max: nat)
    requires Coherent(ns, c.view) && ValidPath(p)
    ensures var (c', o) := OpenDir(ns, ctx, c, p, max);
            && Coherent(ns, c'.view)
            && LocateDir(ns, ctx, p) == if o.Ok? then Some(o.value) else None
  {
    hide Coherent, GetNodeIn, Walk;
    GetNodeAgrees(ns, ctx, c, Parent(p), max);
  }

  lemma CreateAgrees(w: World, ctx: SContext, p: Path, m: Meta, max: nat)
    requires Inv(w.ns) && IdsLeft(w.ns) && InStep(w) && ValidPath(p) && p != []
    ensures var rep := StepCreate(w, ctx, p, m, max);
            && Mirrors(rep, Create(w.ns, ctx, p, m))
            && (InStep(rep.w) <==> (rep.e == OK ==> NoChildCached(rep.w.cache.view, p)))
  {
    hide Inv, Coherent, OpenDir, NoChildCached, LocateDir, AddAt, Access;
    OpenDirAgrees(w.ns, ctx, w.cache, p, max);
    var (c, o) := OpenDir(w.ns, ctx, w.cache, p, max);
    if o.Ok? && StepCreate(w, ctx, p, m, max).e == OK {
      NextIdFresh(w.ns);
      Located(w.ns, ctx, p);
      AddCoherent(w.ns, c.view, p, o.value, NextId(w.ns.meta.Keys), m);
    }
  }

  lemma NoEmptyChild(ns: NS, d: Id, p: Path)
    requires EntriesOk(ns) && ValidPath(p)
    ensures Child(ns, d, Leaf(p)).Some? ==> p != [] && Leaf(p).Word?
  {
    EmptyNameMissing(ns, d);
  }

  lemma InvEntries(ns: NS)
    requires Inv(ns)
    ensures EntriesOk(ns) && DotsOk(ns)
  {
  }

  lemma UnlinkAgrees(w: World, ctx: SContext, p: Path, max: nat)
    requires Inv(w.ns) && InStep(w) && ValidPath(p)
    ensures var rep := StepUnlink(w, ctx, p, max);
            Mirrors(rep, Unlink(w.ns, ctx, p)) && InStep(rep.w)
  {
    hide Inv, Coherent, OpenDir, LocateDir, UnlinkAt, Access, StickyOk;
    OpenDirAgrees(w.ns, ctx, w.cache, p, max);
    var (c, o) := OpenDir(w.ns, ctx, w.cache, p, max);
    if o.Ok? && StepUnlink(w, ctx, p, max).e == OK {
      InvEntries(w.ns);
      NoEmptyChild(w.ns, o.value, p);
      Located(w.ns, ctx, p);
      ForgetView(c, p);
      UnlinkCoherent(w.ns, c.view, p, o.value, Child(w.ns, o.value, Leaf(p)).value);
    }
  }

  lemma RmdirAgrees(w: World, ctx: SContext, p: Path, max: nat)
    requires Inv(w.ns) && InStep(w) && ValidPath(p)
    ensures var rep := StepRmdir(w, ctx, p, max);
            Mirrors(rep, Rmdir(w.ns, ctx, p)) && InStep(rep.w)
  {
    hide Inv, Coherent, OpenDir, LocateDir, RmdirAt, Access, StickyOk, HasEntries;
    OpenDirAgrees(w.ns, ctx, w.cache, p, max);
    var (c, o) := OpenDir(w.ns, ctx, w.cache, p, max);
    if o.Ok? && StepRmdir(w, ctx, p, max).e == OK {
      InvEntries(w.ns);
      NoEmptyChild(w.ns, o.value, p);
      Located(w.ns, ctx, p);
      ForgetView(c, p);
      RmdirCoherent(w.ns, c.view, p, o.value, Child(w.ns, o.value, Leaf(p)).value);
    }
  }

  lemma LinkAgrees(w: World, ctx: SContext, p: Path, q: Path, max: nat)
    requires Inv(w.ns) && InStep(w) && Admissible(w.ns, HardLink(p, q))
    ensures var rep := StepLink(w, ctx, p, q, max);
            && Mirrors(rep, Link(w.ns, ctx, p, q))
            && (InStep(rep.w) <==> (rep.e == OK ==> NoChildCached(rep.w.cache.view, q)))
  {
    hide Inv, Coherent, OpenDir, LocateDir, LinkAt, Access, GetNodeIn, Walk, NoChildCached;
    OpenDirAgrees(w.ns, ctx, w.cache, q, max);
    var (c1, o) := OpenDir(w.ns, ctx, w.cache, q, max);
    if o.Ok? {
      GetNodeAgrees(w.ns, ctx, c1, p, max);
      var (c2, r) := GetNodeIn(w.ns, ctx, c1, p, max);
      if r.Ok? && StepLink(w, ctx, p, q, max).e == OK {
        Located(w.ns, ctx, q);
        WalkResolves(w.ns, ctx, p);
        LinkCoherent(w.ns, c2.view, q, o.value, r.value);
      }
    }
  }

  lemma RenameOpensAgrees(w: World, ctx: SContext, p: Path, q: Path, max: nat)
    requires InStep(w) && ValidPath(p) && ValidPath(q)
    ensures var (c, o) := RenameOpens(w, ctx, p, q, max);
            && Coherent(w.ns, c.view)
            && if o.Ok? then LocateDir(w.ns, ctx, p) == Some(o.value.0) && LocateDir(w.ns, ctx, q) == Some(o.value.1)
               else (LocateDir(w.ns, ctx, p).None? || LocateDir(w.ns, ctx, q).None?) && o.error in {ENOENT, ENOTDIR, EACCES}
  {
    hide Coherent, LocateDir, GetNodeIn;
    OpenDirAgrees(w.ns, ctx, w.cache, p, max);
    var (c1, o1) := OpenDir(w.ns, ctx, w.cache, p, max);
    if o1.Ok? {
      OpenDirAgrees(w.ns, ctx, c1, q, max);
    }
  }

  lemma ForgottenView(c: Cache, p: Path, q: Path, replaced: bool)
    ensures RenameForgets(c, p, q, replaced, OK).view == RenamedView(c.view, p, q, replaced)
  {
  }

  lemma RenameAgrees(w: World, ctx: SContext, p: Path, q: Path, max: nat)
    requires Inv(w.ns) && InStep(w) && Admissible(w.ns, ReName(p, q))
    ensures var rep := StepRename(w, ctx, p, q, max);
            && Mirrors(rep, Rename(w.ns, ctx, p, q))
            && (InStep(rep.w) <==> (rep.e == OK && p != q ==> MovedEntriesFit(w.ns, rep.w.cache.view, p, q)))
  {
    hide Inv, Coherent, RenameOpens, LocateDir, RenameAt, RenameBetween, MoveCheck, MayMove, MovedEntriesFit,
         RenameForgets, Resolve;
    RenameOpensAgrees(w, ctx, p, q, max);
    var (c, o) := RenameOpens(w, ctx, p, q, max);
    if o.Ok? {
      var (sp, dp) := o.value;
      if MoveCheck(w.ns, ctx, p == q, sp, Leaf(p), dp, Leaf(q)) == OK {
        RenameIsMove(w.ns, ctx, p, q, sp, dp);
        if p == q {
          RenameOntoSame(w.ns, ctx, sp, Leaf(p), dp, Leaf(q));
        } else {
          var src, dst := Child(w.ns, sp, Leaf(p)).value, Child(w.ns, dp, Leaf(q));
          ForgottenView(c, p, q, dst.Some?);
          RenameCoherent(w.ns, c.view, p, q, sp, src, dp, dst);
        }
      } else {
        RefusedRename(w.ns, ctx, p == q, sp, Leaf(p), dp, Leaf(q));
      }
    }
  }

  lemma RefusedRename(ns: NS, ctx: SContext, same: bool, sp: Id, sl: Name, dp: Id, dl: Name)
    requires sp in ns.meta && dp in ns.meta && MoveCheck(ns, ctx, same, sp, sl, dp, dl) != OK
    ensures RenameBetween(ns, ctx, same, sp, sl, dp, dl)
            == Effect(ns, Fails(MoveCheck(ns, ctx, same, sp, sl, dp, dl)))
  {
  }

  lemma RenameOntoSame(ns: NS, ctx: SContext, sp: Id, sl: Name, dp: Id, dl: Name)
    requires sp in ns.meta && dp in ns.meta && MoveCheck(ns, ctx, true, sp, sl, dp, dl) == OK
    requires Child(ns, dp, dl).Some?
    ensures RenameBetween(ns, ctx, true, sp, sl, dp, dl) == Effect(ns, Done)
  {
  }

  lemma SetAgrees(w: World, ctx: SContext, op: Op, max: nat)
    requires Inv(w.ns) && InStep(w) && (op.ChMod? || op.ChOwn?) && ValidPath(op.p)
    ensures var rep := StepSet(w, ctx, op, max);
            && InStep(rep.w)
            && Mirrors(rep, if op.ChMod? then Chmod(w.ns, ctx, op.p, op.mode)
                            else Chown(w.ns, ctx, op.p, op.owner, op.group))
  {
    hide Inv, Coherent, GetNodeIn, Walk, ChmodMode, ChownMeta, MayChown;
    GetNodeAgrees(w.ns, ctx, w.cache, op.p, max);
    var (c, r) := GetNodeIn(w.ns, ctx, w.cache, op.p, max);
    if r.Ok? && StepSet(w, ctx, op, max).e == OK {
      WalkResolves(w.ns, ctx, op.p);
      var m := StepSet(w, ctx, op, max).w.ns.meta[r.value];
      ForgetView(c, op.p);
      SetMetaCoherent(w.ns, c.view, op.p, r.value, m);
    }
  }

  /** The names a request may make appear. */
  function Appearing(op: Op): set<Path> {
    match op
    case MkDir(p, _) => {p}
    case MkNod(p, _) => {p}
    case SymLink(p) => {p}
    case ReName(_, q) => {q}
    case HardLink(_, q) => {q}
    case _ => {}
  }

  ghost predicate NothingCachedBelowNew(view: View, op: Op) {
    forall q | q in Appearing(op) :: NoneCachedBelow(view, q)
  }

  lemma NoneBelowNew(v: View, v': View, op: Op, q: Path)
    requires CachedAlong(v, v', Paths(op)) && NoneCachedBelow(v, q)
    requires forall r | r in Paths(op) :: !StrictlyUnder(r, q)
    ensures NoneCachedBelow(v', q) && NoChildCached(v', q)
  {
    forall k | k in v'
      ensures !StrictlyUnder(k, q)
    {
      if k !in v {
        var r :| r in Paths(op) && k <= r;
        PrefixTrans(k, r, q);
      }
    }
  }

  lemma PrefixTrans(k: Path, r: Path, q: Path)
    requires k <= r && !StrictlyUnder(r, q)
    ensures !StrictlyUnder(k, q)
  {
  }

  lemma PrefixResolves(ns: NS, p: Path, q: Path)
    requires Resolve(ns, p).Some? && Under(p, q)
    ensures Resolve(ns, q).Some?
  {
    ResolvePrefix(ns, p, |q|);
    assert p[..|q|] == q;
  }

  /** A done link's old path does not lie below the new one, and neither does a done rename's. */
  lemma OldNotBelowNew(ns: NS, r: Request)
    requires Inv(ns) && Admissible(ns, r.op) && Apply(ns, r).out == Done && (r.op.HardLink? || r.op.ReName?)
    ensures (r.op.ReName? && r.op.p == r.op.q) || !StrictlyUnder(r.op.p, r.op.q)
  {
    hide Inv, RenameAt, MayMove;
    var p, q := r.op.p, r.op.q;
    var d := LocateDir(ns, r.ctx, q).value;
    if r.op.HardLink? {
      Located(ns, r.ctx, q);
      WalkResolves(ns, r.ctx, p);
      ResolveHeld(ns, q, d);
      if StrictlyUnder(p, q) {
        PrefixResolves(ns, p, q);
      }
    } else if p != q {
      var sp := LocateDir(ns, r.ctx, p).value;
      RenameIsMove(ns, r.ctx, p, q, sp, d);
      MoveNotOntoAncestor(ns, p, q, sp, Child(ns, sp, Leaf(p)).value, d, Child(ns, d, Leaf(q)));
    }
  }

  /** Nothing cached below the name beforehand is enough for it to fit. */
  lemma NothingBelowFitsNew(w: World, r: Request, max: nat)
    requires Inv(w.ns) && IdsLeft(w.ns) && InStep(w) && Admissible(w.ns, r.op)
    requires NothingCachedBelowNew(w.cache.view, r.op)
    ensures NewNameFits(w, r, max)
  {
    hide Inv, IdsLeft, Coherent, Step, Apply, Admissible, Safe, Clean, NoneCachedBelow, CachedAlong, MovedEntriesFit,
         NoChildCached;
    StepAgrees(w, r, max);
    StepCaches(w, r, max);
    var v' := Step(w, r, max).w.cache.view;
    if Step(w, r, max).e == OK && Appearing(r.op) != {} {
      NeverFailsOk(w.ns, r);
      if r.op.HardLink? || r.op.ReName? {
        OldNotBelowNew(w.ns, r);
        if r.op.HardLink? || r.op.p != r.op.q {
          NoneBelowNew(w.cache.view, v', r.op, r.op.q);
          if r.op.ReName? {
            NothingBelowMoved(w.ns, v', r.op.p, r.op.q);
          }
        }
      } else {
        NoneBelowNew(w.cache.view, v', r.op, r.op.p);
      }
    }
  }

  lemma NeverFailsOk(ns: NS, r: Request)
    ensures Apply(ns, r).out != Fails(OK)
  {
    hide Walk, AddAt, RenameAt, UnlinkAt, RmdirAt, Access, StickyOk, HasEntries, Below;
  }

  lemma NothingBelowMoved(ns: NS, view: View, p: Path, q: Path)
    requires NoneCachedBelow(view, q)
    ensures MovedEntriesFit(ns, view, p, q)
  {
  }

  /** The same below a name, for whoever only asks there. */
  ghost predicate SameBelow(v: View, v': View, q: Path) {
    forall k | StrictlyUnder(k, q) :: (k in v' <==> k in v) && (k in v ==> v'[k] == v[k])
  }

  /** What the request has still cached below its new name can be seen beforehand. */
  ghost predicate FitsBeforehand(w: World, r: Request) {
    Apply(w.ns, r).out == Done ==>
      match r.op
      case MkDir(p, _) => NoChildCached(w.cache.view, p)
      case MkNod(p, _) => NoChildCached(w.cache.view, p)
      case SymLink(p) => NoChildCached(w.cache.view, p)
      case HardLink(_, q) => NoChildCached(w.cache.view, q)
      case ReName(p, q) => p != q ==> MovedEntriesFit(w.ns, w.cache.view, p, q)
      case _ => true
  }

  lemma BelowNewIsSame(w: World, r: Request, max: nat, q: Path)
    requires WfCache(w.cache) && RoomFor(w.cache.view, r.op, max) && Step(w, r, max).e == OK
    requires forall s | s in Paths(r.op) :: !StrictlyUnder(s, q)
    ensures SameBelow(w.cache.view, Step(w, r, max).w.cache.view, q)
  {
    hide Step, WfCache, RoomFor;
    StepDropsOnlyOwn(w, r, max);
    StepCaches(w, r, max);
    var v, v' := w.cache.view, Step(w, r, max).w.cache.view;
    forall k | StrictlyUnder(k, q)
      ensures (k in v' <==> k in v) && (k in v ==> v'[k] == v[k])
    {
      if k in v {
        assert k in v - Paths(r.op);
      } else if k in v' {
        var s :| s in Paths(r.op) && k <= s;
        PrefixTrans(k, s, q);
      }
    }
  }

  lemma SameChildren(v: View, v': View, q: Path)
    requires SameBelow(v, v', q)
    ensures NoChildCached(v, q) <==> NoChildCached(v', q)
  {
    forall k | ChildOf(k, q)
      ensures StrictlyUnder(k, q)
    {
      UnderIsStrict(k, q);
    }
  }

  lemma FollowsSame(ns: NS, v: View, v': View, p: Path, q: Path, r: Path)
    requires SameBelow(v, v', q) && Resolve(ns, p).Some? && StrictlyUnder(r, q) && r in v && r in v'
    requires FollowsMove(ns, v, p, q, r)
    ensures FollowsMove(ns, v', p, q, r)
  {
    hide Resolve;
    if !Right(ns, p + r[|q|..], v[r]) {
      var k :| |q| <= k < |r| && Resolve(ns, p + r[|q|..k]).None? && r[..k] !in v;
      assert r[|q|..|q|] == [] && p + [] == p;
      PrefixUnder(r, q, k);
      assert Resolve(ns, p + r[|q|..k]).None? && r[..k] !in v';
    }
  }

  lemma PrefixUnder(r: Path, q: Path, k: nat)
    requires StrictlyUnder(r, q) && |q| < k <= |r|
    ensures StrictlyUnder(r[..k], q)
  {
  }

  lemma SameFit(ns: NS, v: View, v': View, p: Path, q: Path)
    requires SameBelow(v, v', q) && Resolve(ns, p).Some?
    ensures MovedEntriesFit(ns, v, p, q) <==> MovedEntriesFit(ns, v', p, q)
  {
    hide Resolve, FollowsMove;
    forall r | StrictlyUnder(r, q) && r in v
      ensures FollowsMove(ns, v, p, q, r) <==> FollowsMove(ns, v', p, q, r)
    {
      if FollowsMove(ns, v, p, q, r) {
        FollowsSame(ns, v, v', p, q, r);
      }
      if FollowsMove(ns, v', p, q, r) {
        FollowsSame(ns, v', v, p, q, r);
      }
    }
  }

  lemma MovedResolves(ns: NS, ctx: SContext, p: Path, q: Path)
    requires Inv(ns) && Admissible(ns, ReName(p, q)) && Rename(ns, ctx, p, q).out == Done
    ensures Resolve(ns, p).Some?
  {
    hide Inv, RenameAt, MayMove;
    var sp, dp := LocateDir(ns, ctx, p).value, LocateDir(ns, ctx, q).value;
    RenameIsMove(ns, ctx, p, q, sp, dp);
    ResolveHeld(ns, p, sp);
  }

  /** With room for what it looks up, a request leaves the cache in step exactly if it fails or, before it,
      what is cached below its new name fits. */
  lemma FitsIff(w: World, r: Request, max: nat)
    requires Inv(w.ns) && IdsLeft(w.ns) && InStep(w) && Admissible(w.ns, r.op)
    requires WfCache(w.cache) && RoomFor(w.cache.view, r.op, max)
    ensures NewNameFits(w, r, max) <==> FitsBeforehand(w, r)
    ensures InStep(Step(w, r, max).w) <==> FitsBeforehand(w, r)
  {
    hide Inv, IdsLeft, Coherent, Step, Apply, Admissible, Safe, Clean, MovedEntriesFit, NoChildCached, SameBelow, WfCache,
         RoomFor;
    StepAgrees(w, r, max);
    NeverFailsOk(w.ns, r);
    if Step(w, r, max).e == OK && Appearing(r.op) != {} {
      if r.op.HardLink? || r.op.ReName? {
        OldNotBelowNew(w.ns, r);
        if r.op.HardLink? || r.op.p != r.op.q {
          BelowNewIsSame(w, r, max, r.op.q);
          SameChildren(w.cache.view, Step(w, r, max).w.cache.view, r.op.q);
          if r.op.ReName? {
            RenameDone(w.ns, r);
            SameFit(w.ns, w.cache.view, Step(w, r, max).w.cache.view, r.op.p, r.op.q);
          }
        }
      } else {
        BelowNewIsSame(w, r, max, r.op.p);
        SameChildren(w.cache.view, Step(w, r, max).w.cache.view, r.op.p);
      }
    }
  }

  lemma RenameDone(ns: NS, r: Request)
    requires Inv(ns) && Admissible(ns, r.op) && r.op.ReName? && Apply(ns, r).out == Done
    ensures Resolve(ns, r.op.p).Some?
  {
    hide Inv, Rename, Resolve;
    MovedResolves(ns, r.ctx, r.op.p, r.op.q);
  }
}
