/** The file system as it runs, every path looked up through the cache: what a request does to the
    tables and to the cache, for any cache, stale or not; exactly when it keeps the tree; and that on a
    cache in step with the tables it does what it does with uncached walks. */
module CachedSteps {
  import opened Wrappers
  import opened Modes
  import opened Namespace
  import opened Tree
  import opened Ops
  import opened Steps
  import opened Coherence
  import opened Runs
  import opened CacheModel

  datatype World = World(ns: NS, cache: Cache)

  datatype Reply = Reply(w: World, e: Errno)

  function ErrnoOf(out: Outcome): Errno {
    if out.Fails? then out.e else OK
  }

  /** Path::Path: the directory the cache leads to for the last token's parent. */
  function OpenDir(ns: NS, ctx: SContext, c: Cache, p: Path, max: nat): (r: (Cache, Result<Id, Errno>))
    ensures r.1.Ok? ==> IsDirNode(ns, r.1.value)
    ensures r.1.Err? ==> r.1.error in {ENOENT, ENOTDIR, EACCES}
  {
    var (c1, r) := GetNodeIn(ns, ctx, c, Parent(p), max);
    (c1, if r.Ok? && !IsDir(ns.meta[r.value].mode) then Err(ENOTDIR) else r)
  }

  ghost function StepCreate(w: World, ctx: SContext, p: Path, m: Meta, max: nat): Reply {
    var (c, o) := OpenDir(w.ns, ctx, w.cache, p, max);
    match o
    case Err(e) => Reply(World(w.ns, c), e)
    case Ok(d) =>
      var ef := CreateUnder(w.ns, ctx, d, Leaf(p), m);
      Reply(World(ef.ns, c), ErrnoOf(ef.out))
  }

  /** unlink and rmdir: the path leaves the cache with the name. */
  ghost function Removed(c: Cache, p: Path, ef: Effect): Reply {
    Reply(World(ef.ns, if ef.out == Done then Forget(c, p) else c), ErrnoOf(ef.out))
  }

  ghost function StepUnlink(w: World, ctx: SContext, p: Path, max: nat): Reply {
    var (c, o) := OpenDir(w.ns, ctx, w.cache, p, max);
    match o
    case Err(e) => Reply(World(w.ns, c), e)
    case Ok(d) => Removed(c, p, UnlinkFrom(w.ns, ctx, d, Leaf(p)))
  }

  ghost function StepRmdir(w: World, ctx: SContext, p: Path, max: nat): Reply {
    var (c, o) := OpenDir(w.ns, ctx, w.cache, p, max);
    match o
    case Err(e) => Reply(World(w.ns, c), e)
    case Ok(d) => Removed(c, p, RmdirFrom(w.ns, ctx, d, Leaf(p)))
  }

  /** The node link opens, after the directory of the new name, if it gets that far. */
  function LinkOpens(w: World, ctx: SContext, p: Path, q: Path, max: nat): (r: (Cache, Result<(Id, Id), Errno>))
    ensures r.1.Err? ==> r.1.error in {ENOENT, ENOTDIR, EACCES}
  {
    var (c1, o) := OpenDir(w.ns, ctx, w.cache, q, max);
    match o
    case Err(e) => (c1, Err(e))
    case Ok(d) =>
      if !Access(ctx, w.ns.meta[d], W_OK) then (c1, Err(EACCES))
      else
        var (c2, r) := GetNodeIn(w.ns, ctx, c1, p, max);
        match r
        case Err(e) => (c2, Err(e))
        case Ok(n) => (c2, Ok((d, n)))
  }

  function StepLink(w: World, ctx: SContext, p: Path, q: Path, max: nat): Reply {
    var (c, o) := LinkOpens(w, ctx, p, q, max);
    match o
    case Err(e) => Reply(World(w.ns, c), e)
    case Ok((d, n)) =>
      var ef := LinkUnder(w.ns, d, Leaf(q), n);
      Reply(World(ef.ns, c), ErrnoOf(ef.out))
  }

  /** The two directories rename opens. */
  function RenameOpens(w: World, ctx: SContext, p: Path, q: Path, max: nat): (r: (Cache, Result<(Id, Id), Errno>))
    ensures r.1.Ok? ==> IsDirNode(w.ns, r.1.value.0) && IsDirNode(w.ns, r.1.value.1)
    ensures r.1.Err? ==> r.1.error in {ENOENT, ENOTDIR, EACCES}
  {
    var (c1, o1) := OpenDir(w.ns, ctx, w.cache, p, max);
    match o1
    case Err(e) => (c1, Err(e))
    case Ok(sp) =>
      var (c2, o2) := OpenDir(w.ns, ctx, c1, q, max);
      match o2
      case Err(e) => (c2, Err(e))
      case Ok(dp) => (c2, Ok((sp, dp)))
  }

  /** rename's invalidations: the new name's before its node goes, the old name's unless that throws. */
  function RenameForgets(c: Cache, p: Path, q: Path, replaced: bool, e: Errno): Cache {
    var c1 := if replaced then Forget(c, q) else c;
    if e == EIO then c1 else Forget(c1, p)
  }

  ghost function StepRename(w: World, ctx: SContext, p: Path, q: Path, max: nat): Reply {
    var (c, o) := RenameOpens(w, ctx, p, q, max);
    match o
    case Err(e) => Reply(World(w.ns, c), e)
    case Ok((sp, dp)) =>
      var ef := RenameBetween(w.ns, ctx, p == q, sp, Leaf(p), dp, Leaf(q));
      var dst := Child(w.ns, dp, Leaf(q));
      if MoveCheck(w.ns, ctx, p == q, sp, Leaf(p), dp, Leaf(q)) != OK || (dst.Some? && p == q) then
        Reply(World(ef.ns, c), ErrnoOf(ef.out))
      else
        Reply(World(ef.ns, RenameForgets(c, p, q, dst.Some?, ErrnoOf(ef.out))), ErrnoOf(ef.out))
  }

  /** chmod and chown: the path leaves the cache with the change. */
  ghost function StepSet(w: World, ctx: SContext, op: Op, max: nat): Reply
    requires op.ChMod? || op.ChOwn?
  {
    var (c, r) := GetNodeIn(w.ns, ctx, w.cache, op.p, max);
    match r
    case Err(e) => Reply(World(w.ns, c), e)
    case Ok(n) =>
      Removed(c, op.p, if op.ChMod? then ChmodNode(w.ns, ctx, n, op.mode)
                       else ChownNode(w.ns, ctx, n, op.owner, op.group))
  }

  /** One request. */
  ghost function Step(w: World, r: Request, max: nat): Reply {
    match r.op
    case GetAttr(p) =>
      var (c, o) := GetNodeIn(w.ns, r.ctx, w.cache, p, max);
      Reply(World(w.ns, c), if o.Ok? then OK else o.error)
    case MkDir(p, mode) => StepCreate(w, r.ctx, p, DirMeta(r.ctx, mode), max)
    case MkNod(p, mode) => StepCreate(w, r.ctx, p, Meta(mode, r.ctx.uid, r.ctx.gid), max)
    case SymLink(p) => StepCreate(w, r.ctx, p, Meta(S_IFLNK, r.ctx.uid, r.ctx.gid), max)
    case UnLink(p) => StepUnlink(w, r.ctx, p, max)
    case RmDir(p) => StepRmdir(w, r.ctx, p, max)
    case ReName(p, q) => StepRename(w, r.ctx, p, q, max)
    case HardLink(p, q) => StepLink(w, r.ctx, p, q, max)
    case ChMod(_, _) => StepSet(w, r.ctx, r.op, max)
    case ChOwn(_, _, _) => StepSet(w, r.ctx, r.op, max)
  }

  /** A link does not reach a directory, and a rename does not move one below itself under a free name. */
  ghost predicate Safe(w: World, r: Request, max: nat) {
    match r.op
    case HardLink(p, q) =>
      var o := LinkOpens(w, r.ctx, p, q, max).1;
      o.Ok? && Key(o.value.0, Leaf(q)) !in w.ns.dirs ==> !IsDirNode(w.ns, o.value.1)
    case ReName(p, q) =>
      var o := RenameOpens(w, r.ctx, p, q, max).1;
      o.Ok? ==> !MovesBelowItself(w.ns, r.ctx, p == q, o.value.0, Leaf(p), o.value.1, Leaf(q))
    case _ => true
  }

  /** A rename does not replace a node by itself. */
  ghost predicate Clean(w: World, r: Request, max: nat) {
    match r.op
    case ReName(p, q) =>
      var o := RenameOpens(w, r.ctx, p, q, max).1;
      o.Ok? ==> !LosesItself(w.ns, r.ctx, p == q, o.value.0, Leaf(p), o.value.1, Leaf(q))
    case _ => true
  }

  lemma LeafIsWord(p: Path)
    requires ValidPath(p)
    ensures Leaf(p).Word? && (p != [] ==> ValidName(Leaf(p)))
  {
  }

  /** With whatever in the cache: a request keeps the tree shape exactly if it is safe; a failing one
      leaves the tables as they were exactly if it is clean, and says EIO otherwise. */
  lemma StepIff(w: World, r: Request, max: nat)
    requires Inv(w.ns) && IdsLeft(w.ns) && WellFormed(r.op)
    ensures var rep := Step(w, r, max);
            && (Inv(rep.w.ns) <==> Safe(w, r, max))
            && ((rep.e != OK ==> rep.w.ns == w.ns) <==> Clean(w, r, max))
            && (rep.e == EIO <==> !Clean(w, r, max))
  {
    hide Inv, IdsLeft, GetNodeIn, CreateUnder, UnlinkFrom, RmdirFrom, RenameBetween, MovesBelowItself, LosesItself;
    match r.op
    case GetAttr(p) =>
    case MkDir(p, mode) => StepCreateKeeps(w, r.ctx, p, DirMeta(r.ctx, mode), max);
    case MkNod(p, mode) => StepCreateKeeps(w, r.ctx, p, Meta(mode, r.ctx.uid, r.ctx.gid), max);
    case SymLink(p) => StepCreateKeeps(w, r.ctx, p, Meta(S_IFLNK, r.ctx.uid, r.ctx.gid), max);
    case UnLink(p) => StepRemoveKeeps(w, r.ctx, p, max);
    case RmDir(p) => StepRemoveKeeps(w, r.ctx, p, max);
    case ReName(p, q) => StepRenameIff(w, r.ctx, p, q, max);
    case HardLink(p, q) => StepLinkIff(w, r.ctx, p, q, max);
    case ChMod(_, _) => StepSetKeeps(w, r.ctx, r.op, max);
    case ChOwn(_, _, _) => StepSetKeeps(w, r.ctx, r.op, max);
  }

  lemma StepCreateKeeps(w: World, ctx: SContext, p: Path, m: Meta, max: nat)
    requires Inv(w.ns) && IdsLeft(w.ns) && ValidPath(p) && p != []
    ensures var rep := StepCreate(w, ctx, p, m, max);
            Inv(rep.w.ns) && (rep.e != OK ==> rep.w.ns == w.ns) && rep.e != EIO
  {
    hide Inv, GetNodeIn;
    var o := OpenDir(w.ns, ctx, w.cache, p, max).1;
    if o.Ok? {
      LeafIsWord(p);
      CreateUnderStep(w.ns, ctx, o.value, Leaf(p), m);
    }
  }

  lemma StepRemoveKeeps(w: World, ctx: SContext, p: Path, max: nat)
    requires Inv(w.ns) && ValidPath(p)
    ensures var rep := StepUnlink(w, ctx, p, max);
            Inv(rep.w.ns) && (rep.e != OK ==> rep.w.ns == w.ns) && rep.e != EIO
    ensures var rep := StepRmdir(w, ctx, p, max);
            Inv(rep.w.ns) && (rep.e != OK ==> rep.w.ns == w.ns) && rep.e != EIO
  {
    hide Inv, GetNodeIn;
    var o := OpenDir(w.ns, ctx, w.cache, p, max).1;
    if o.Ok? {
      LeafIsWord(p);
      UnlinkFromStep(w.ns, ctx, o.value, Leaf(p));
      RmdirFromStep(w.ns, ctx, o.value, Leaf(p));
    }
  }

  lemma StepLinkIff(w: World, ctx: SContext, p: Path, q: Path, max: nat)
    requires Inv(w.ns) && ValidPath(p) && ValidPath(q) && q != []
    ensures var rep := StepLink(w, ctx, p, q, max);
            && (Inv(rep.w.ns) <==> Safe(w, Request(ctx, HardLink(p, q)), max))
            && (rep.e != OK ==> rep.w.ns == w.ns) && rep.e != EIO
  {
    hide Inv, GetNodeIn;
    var o := LinkOpens(w, ctx, p, q, max).1;
    if o.Ok? {
      LeafIsWord(q);
      LinkUnderStepIff(w.ns, o.value.0, Leaf(q), o.value.1);
    }
  }

  lemma StepRenameIff(w: World, ctx: SContext, p: Path, q: Path, max: nat)
    requires Inv(w.ns) && ValidPath(p) && ValidPath(q) && q != []
    ensures var rep := StepRename(w, ctx, p, q, max);
            var r := Request(ctx, ReName(p, q));
            && (Inv(rep.w.ns) <==> Safe(w, r, max))
            && ((rep.e != OK ==> rep.w.ns == w.ns) <==> Clean(w, r, max))
            && (rep.e == EIO <==> !Clean(w, r, max))
  {
    hide Inv, GetNodeIn, RenameBetween, MovesBelowItself, LosesItself, MoveCheck;
    var o := RenameOpens(w, ctx, p, q, max).1;
    if o.Ok? {
      LeafIsWord(p);
      LeafIsWord(q);
      RenameBetweenStepIff(w.ns, ctx, p == q, o.value.0, Leaf(p), o.value.1, Leaf(q));
      RenameOutcome(w.ns, ctx, p == q, o.value.0, Leaf(p), o.value.1, Leaf(q));
    }
  }

  lemma RenameOutcome(ns: NS, ctx: SContext, same: bool, sp: Id, sl: Name, dp: Id, dl: Name)
    requires sp in ns.meta && dp in ns.meta
    ensures var out := RenameBetween(ns, ctx, same, sp, sl, dp, dl).out;
            out == Done || (out.Fails? && out.e != OK)
  {
  }

  lemma StepSetKeeps(w: World, ctx: SContext, op: Op, max: nat)
    requires Inv(w.ns) && (op.ChMod? || op.ChOwn?)
    ensures var rep := StepSet(w, ctx, op, max);
            Inv(rep.w.ns) && (rep.e != OK ==> rep.w.ns == w.ns) && rep.e != EIO
  {
    hide Inv, GetNodeIn;
    var r := GetNodeIn(w.ns, ctx, w.cache, op.p, max).1;
    if r.Ok? {
      if op.ChMod? {
        ChmodNodeStep(w.ns, ctx, r.value, op.mode);
      } else {
        ChownNodeStep(w.ns, ctx, r.value, op.owner, op.group);
      }
    }
  }

  /** The paths a request mentions. */
  function Paths(op: Op): set<Path> {
    match op
    case ReName(p, q) => {p, q}
    case HardLink(p, q) => {p, q}
    case _ => {op.p}
  }

  /** The cache holds nothing it did not hold before but prefixes of these paths. */
  ghost predicate CachedAlong(view: View, view': View, paths: set<Path>) {
    forall k | k in view' :: k in view || exists r :: r in paths && k <= r
  }

  lemma OpenDirCaches(ns: NS, ctx: SContext, c: Cache, p: Path, max: nat)
    ensures forall k | k in OpenDir(ns, ctx, c, p, max).0.view :: k in c.view || k <= p
  {
    hide GetNodeIn;
    GetNodeCaches(ns, ctx, c, Parent(p), max);
  }

  lemma RenameOpensCaches(w: World, ctx: SContext, p: Path, q: Path, max: nat)
    ensures forall k | k in RenameOpens(w, ctx, p, q, max).0.view :: k in w.cache.view || k <= p || k <= q
  {
    hide OpenDir;
    OpenDirCaches(w.ns, ctx, w.cache, p, max);
    OpenDirCaches(w.ns, ctx, OpenDir(w.ns, ctx, w.cache, p, max).0, q, max);
  }

  lemma LinkOpensCaches(w: World, ctx: SContext, p: Path, q: Path, max: nat)
    ensures forall k | k in LinkOpens(w, ctx, p, q, max).0.view :: k in w.cache.view || k <= p || k <= q
  {
    hide OpenDir, GetNodeIn;
    OpenDirCaches(w.ns, ctx, w.cache, q, max);
    GetNodeCaches(w.ns, ctx, OpenDir(w.ns, ctx, w.cache, q, max).0, p, max);
  }

  /** What a request adds to the cache are prefixes of its paths. */
  lemma StepCaches(w: World, r: Request, max: nat)
    ensures CachedAlong(w.cache.view, Step(w, r, max).w.cache.view, Paths(r.op))
  {
    hide OpenDir, GetNodeIn, RenameOpens, LinkOpens, CreateUnder, UnlinkFrom, RmdirFrom, RenameBetween, MoveCheck,
         LinkUnder, ChmodNode, ChownNode;
    var c' := Step(w, r, max).w.cache;
    OpenDirCaches(w.ns, r.ctx, w.cache, r.op.p, max);
    GetNodeCaches(w.ns, r.ctx, w.cache, r.op.p, max);
    if r.op.ReName? {
      RenameOpensCaches(w, r.ctx, r.op.p, r.op.q, max);
    }
    if r.op.HardLink? {
      LinkOpensCaches(w, r.ctx, r.op.p, r.op.q, max);
    }
    forall k | k in c'.view && k !in w.cache.view
      ensures exists s :: s in Paths(r.op) && k <= s
    {
      if k <= r.op.p {
        assert r.op.p in Paths(r.op);
      } else {
        assert r.op.q in Paths(r.op);
      }
    }
  }

  /** Everything cached stays, as it was. */
  ghost predicate AllKept(view: View, view': View) {
    forall k | k in view :: k in view' && view'[k] == view[k]
  }

  lemma OpenDirKeepsAll(ns: NS, ctx: SContext, c: Cache, p: Path, max: nat)
    requires WfCache(c)
    ensures var (c', o) := OpenDir(ns, ctx, c, p, max);
            && WfCache(c') && |c'.view| <= |c.view| + |p| + 1
            && (o.Ok? && |c.view| + |p| + 1 <= max ==> AllKept(c.view, c'.view))
  {
    hide GetNodeIn, WfCache;
    GetNodeKeepsWf(ns, ctx, c, Parent(p), max);
    GetNodeSize(ns, ctx, c, Parent(p), max);
    if OpenDir(ns, ctx, c, p, max).1.Ok? && |c.view| + |p| + 1 <= max {
      GetNodeWithRoom(ns, ctx, c, Parent(p), max);
    }
  }

  /** Room for every prefix a request looks up. */
  ghost predicate RoomFor(view: View, op: Op, max: nat) {
    |view| + |op.p| + 1 + (if op.ReName? || op.HardLink? then |op.q| + 1 else 0) <= max
  }

  lemma RenameOpensKeepsAll(w: World, ctx: SContext, p: Path, q: Path, max: nat)
    requires WfCache(w.cache)
    ensures var (c, o) := RenameOpens(w, ctx, p, q, max);
            WfCache(c) && (o.Ok? && |w.cache.view| + |p| + |q| + 2 <= max ==> AllKept(w.cache.view, c.view))
  {
    hide OpenDir, WfCache;
    OpenDirKeepsAll(w.ns, ctx, w.cache, p, max);
    OpenDirKeepsAll(w.ns, ctx, OpenDir(w.ns, ctx, w.cache, p, max).0, q, max);
  }

  lemma LinkOpensKeepsAll(w: World, ctx: SContext, p: Path, q: Path, max: nat)
    requires WfCache(w.cache)
    ensures var (c, o) := LinkOpens(w, ctx, p, q, max);
            WfCache(c) && (o.Ok? && |w.cache.view| + |p| + |q| + 2 <= max ==> AllKept(w.cache.view, c.view))
  {
    hide OpenDir, GetNodeIn, WfCache;
    OpenDirKeepsAll(w.ns, ctx, w.cache, q, max);
    var c1 := OpenDir(w.ns, ctx, w.cache, q, max).0;
    GetNodeKeepsWf(w.ns, ctx, c1, p, max);
    if LinkOpens(w, ctx, p, q, max).1.Ok? && |w.cache.view| + |p| + |q| + 2 <= max {
      GetNodeWithRoom(w.ns, ctx, c1, p, max);
    }
  }

  /** The order of use goes on listing every cached path once. */
  lemma StepKeepsWf(w: World, r: Request, max: nat)
    requires WfCache(w.cache)
    ensures WfCache(Step(w, r, max).w.cache)
  {
    hide WfCache, OpenDir, GetNodeIn, RenameOpens, LinkOpens, CreateUnder, UnlinkFrom, RmdirFrom, RenameBetween,
         MoveCheck, LinkUnder, ChmodNode, ChownNode, Forget;
    OpenDirKeepsAll(w.ns, r.ctx, w.cache, r.op.p, max);
    GetNodeKeepsWf(w.ns, r.ctx, w.cache, r.op.p, max);
    ForgetKeepsWf(OpenDir(w.ns, r.ctx, w.cache, r.op.p, max).0, r.op.p);
    ForgetKeepsWf(GetNodeIn(w.ns, r.ctx, w.cache, r.op.p, max).0, r.op.p);
    if r.op.HardLink? {
      LinkOpensKeepsAll(w, r.ctx, r.op.p, r.op.q, max);
    }
    if r.op.ReName? {
      var c := RenameOpens(w, r.ctx, r.op.p, r.op.q, max).0;
      RenameOpensKeepsAll(w, r.ctx, r.op.p, r.op.q, max);
      ForgetKeepsWf(c, r.op.p);
      ForgetKeepsWf(c, r.op.q);
      ForgetKeepsWf(Forget(c, r.op.q), r.op.p);
    }
  }

  /** With room, nothing leaves the cache but the names a request drops. */
  lemma StepDropsOnlyOwn(w: World, r: Request, max: nat)
    requires WfCache(w.cache) && RoomFor(w.cache.view, r.op, max) && Step(w, r, max).e == OK
    ensures AllKept(w.cache.view - Paths(r.op), Step(w, r, max).w.cache.view)
  {
    hide WfCache, OpenDir, GetNodeIn, RenameOpens, LinkOpens, CreateUnder, UnlinkFrom, RmdirFrom, RenameBetween,
         MoveCheck, LinkUnder, ChmodNode, ChownNode;
    OpenDirKeepsAll(w.ns, r.ctx, w.cache, r.op.p, max);
    if GetNodeIn(w.ns, r.ctx, w.cache, r.op.p, max).1.Ok? {
      GetNodeWithRoom(w.ns, r.ctx, w.cache, r.op.p, max);
    }
    if r.op.HardLink? {
      LinkOpensKeepsAll(w, r.ctx, r.op.p, r.op.q, max);
    }
    if r.op.ReName? {
      RenameDropsOnlyOwn(w, r.ctx, r.op.p, r.op.q, max);
    }
  }

  lemma RenameDropsOnlyOwn(w: World, ctx: SContext, p: Path, q: Path, max: nat)
    requires WfCache(w.cache) && |w.cache.view| + |p| + |q| + 2 <= max && StepRename(w, ctx, p, q, max).e == OK
    ensures AllKept(w.cache.view - {p, q}, StepRename(w, ctx, p, q, max).w.cache.view)
  {
    hide WfCache, RenameOpens, RenameBetween, MoveCheck, RenameForgets;
    RenameOpensKeepsAll(w, ctx, p, q, max);
    var c := RenameOpens(w, ctx, p, q, max).0;
    ForgottenKeep(w.cache.view, c, p, q, true);
    ForgottenKeep(w.cache.view, c, p, q, false);
  }

  lemma ForgottenKeep(v: View, c: Cache, p: Path, q: Path, replaced: bool)
    requires AllKept(v, c.view)
    ensures AllKept(v - {p, q}, RenameForgets(c, p, q, replaced, OK).view)
  {
  }
}
