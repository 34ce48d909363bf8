/** What a caller can notice of a cache out of step. For root, whom no attribute stops, every lookup agrees
    with the uncached walk exactly if every cached node is the right one or cut off; so a wrong one that
    is not cut off shows at once, at a single lookup. */
module Lookups {
  import opened Wrappers
  import opened Modes
  import opened Namespace
  import opened Tree
  import opened Ops
  import opened Coherence
  import opened Invalidation
  import opened Runs
  import opened CacheModel
  import opened CachedSteps
  import opened Agreement

  ghost predicate NodeRight(ns: NS, view: View, p: Path)
    requires p in view
  {
    Resolve(ns, p) == Some(view[p].node)
  }

  /** As Coherent, but for the attributes. */
  ghost predicate NodesFit(ns: NS, view: View) {
    forall p | p in view :: NodeRight(ns, view, p) || CutOff(ns, view, p)
  }

  ghost predicate AllLive(ns: NS, view: View) {
    forall p | p in view :: ValidPath(p) && view[p].node in ns.meta
  }

  /** A lookup gives the uncached walk's node, or both fail. */
  ghost predicate LookupAgrees(ns: NS, ctx: SContext, c: Cache, p: Path, max: nat) {
    Agrees(GetNodeIn(ns, ctx, c, p, max).1, Walk(ns, ctx, p))
  }

  ghost predicate LookupsAgree(ns: NS, ctx: SContext, c: Cache, max: nat) {
    forall p | ValidPath(p) :: LookupAgrees(ns, ctx, c, p, max)
  }

  lemma RootWalk(ns: NS, ctx: SContext, p: Path)
    requires ctx.uid == 0
    ensures Walk(ns, ctx, p).Ok? <==> Resolve(ns, p).Some?
    ensures Walk(ns, ctx, p).Ok? ==> Resolve(ns, p) == Some(Walk(ns, ctx, p).value)
  {
    WalkResolves(ns, ctx, p);
    if Resolve(ns, p).Some? {
      forall k | 0 <= k < |p|
        ensures SearchableDir(ns, ctx, p[..k])
      {
        ResolvePrefix(ns, p, k);
      }
    }
  }

  /** The view with the attributes put right. */
  ghost function Mended(ns: NS, view: View): View
    requires AllLive(ns, view)
  {
    map p | p in view :: CData(view[p].node, ns.meta[view[p].node])
  }

  lemma MendedIsCoherent(ns: NS, view: View)
    requires AllLive(ns, view) && NodesFit(ns, view)
    ensures Coherent(ns, Mended(ns, view))
  {
    hide Resolve, ValidPath;
    var v := Mended(ns, view);
    forall p | p in v
      ensures ValidPath(p) && (Right(ns, p, v[p]) || CutOff(ns, v, p))
    {
      assert p in view;
      if CutOff(ns, view, p) {
        var k :| 0 <= k < |p| && Resolve(ns, p[..k]).None? && p[..k] !in view;
        assert p[..k] !in v;
      }
    }
  }

  ghost predicate SameNodes(v: View, v': View) {
    forall p :: (p in v <==> p in v') && (p in v ==> v[p].node == v'[p].node)
  }

  lemma EntrySame(ns: NS, v: View, v': View, p: Path)
    requires SameNodes(v, v') && (p != [] ==> Parent(p) in v)
    ensures EntryOf(ns, v, p) == EntryOf(ns, v', p)
  {
  }

  lemma {:induction false} LookSame(ns: NS, c: Cache, d: Cache, p: Path)
    requires SameNodes(c.view, d.view)
    ensures Look(ns, c, p).1 == Look(ns, d, p).1 && SameNodes(Look(ns, c, p).0.view, Look(ns, d, p).0.view)
    decreases |p|
  {
    hide EntryOf;
    var c1, d1 := c, d;
    if p !in c.view && p != [] {
      LookSame(ns, c, d, Parent(p));
      c1, d1 := Look(ns, c, Parent(p)).0, Look(ns, d, Parent(p)).0;
    }
    if p !in c.view && (p == [] || Look(ns, c, Parent(p)).1 == OK) {
      EntrySame(ns, c1.view, d1.view, p);
    }
  }

  lemma {:induction false} SearchSame(ns: NS, ctx: SContext, c: Cache, d: Cache, p: Path)
    requires SameNodes(c.view, d.view) && ctx.uid == 0
    ensures SearchUp(ns, ctx, c, p).1 == SearchUp(ns, ctx, d, p).1
    ensures SameNodes(SearchUp(ns, ctx, c, p).0.view, SearchUp(ns, ctx, d, p).0.view)
    decreases |p|
  {
    hide Look, SameNodes;
    LookSame(ns, c, d, p);
    if p != [] {
      SearchSame(ns, ctx, Look(ns, c, p).0, Look(ns, d, p).0, Parent(p));
    }
  }

  /** Attributes make no difference to root's answers. */
  lemma AnswerSame(ns: NS, ctx: SContext, c: Cache, d: Cache, p: Path, max: nat)
    requires SameNodes(c.view, d.view) && ctx.uid == 0
    ensures GetNodeIn(ns, ctx, c, p, max).1 == GetNodeIn(ns, ctx, d, p, max).1
  {
    hide Look, SearchUp, Fit, Touch;
    var c1, d1 := c, d;
    if p != [] {
      SearchSame(ns, ctx, c, d, Parent(p));
      c1, d1 := SearchUp(ns, ctx, c, Parent(p)).0, SearchUp(ns, ctx, d, Parent(p)).0;
    }
    LookSame(ns, c1, d1, p);
  }

  lemma FittingAgrees(ns: NS, ctx: SContext, c: Cache, p: Path, max: nat)
    requires ctx.uid == 0 && AllLive(ns, c.view) && NodesFit(ns, c.view) && ValidPath(p)
    ensures LookupAgrees(ns, ctx, c, p, max)
  {
    hide GetNodeIn, Coherent, NodesFit, AllLive, Walk;
    var d := Cache(Mended(ns, c.view), c.order);
    MendedIsCoherent(ns, c.view);
    MendedSame(ns, c.view);
    AnswerSame(ns, ctx, c, d, p, max);
    GetNodeAgrees(ns, ctx, d, p, max);
  }

  lemma MendedSame(ns: NS, view: View)
    requires AllLive(ns, view)
    ensures SameNodes(view, Mended(ns, view))
  {
  }

  /** Every prefix of p resolves, and is cached right if it is. */
  ghost predicate GoodUpTo(ns: NS, view: View, p: Path) {
    forall k | 0 <= k <= |p| :: GoodAt(ns, view, p[..k])
  }

  ghost predicate GoodAt(ns: NS, view: View, p: Path) {
    Resolve(ns, p).Some? && (p in view ==> NodeRight(ns, view, p))
  }

  lemma GoodShorter(ns: NS, view: View, p: Path)
    requires GoodUpTo(ns, view, p)
    ensures GoodAt(ns, view, p) && (p != [] ==> GoodUpTo(ns, view, Parent(p)))
  {
    hide GoodAt;
    assert p[..|p|] == p;
    assert forall k | 0 <= k < |p| :: Parent(p)[..k] == p[..k];
  }

  /** Right entries stay right and a further one is right too. */
  lemma GoodExtends(ns: NS, view: View, p: Path, d: CData)
    requires GoodUpTo(ns, view, p) && p !in view && Resolve(ns, p) == Some(d.node)
    ensures GoodUpTo(ns, view[p := d], p)
  {
    hide Resolve;
    forall k | 0 <= k <= |p|
      ensures GoodAt(ns, view[p := d], p[..k])
    {
      assert GoodAt(ns, view, p[..k]);
      assert p[..|p|] == p;
    }
  }

  lemma GoodEntry(ns: NS, view: View, p: Path)
    requires Resolve(ns, p).Some? && (p != [] ==> Parent(p) in view && NodeRight(ns, view, Parent(p)))
    ensures EntryOf(ns, view, p).Ok? && Resolve(ns, p) == Some(EntryOf(ns, view, p).value.node)
  {
    ResolveLive(ns, p);
  }

  lemma {:induction false} LookGood(ns: NS, c: Cache, p: Path)
    requires GoodUpTo(ns, c.view, p)
    ensures Look(ns, c, p).1 == OK && GoodUpTo(ns, Look(ns, c, p).0.view, p)
    decreases |p|
  {
    hide GoodUpTo, EntryOf, Resolve;
    GoodShorter(ns, c.view, p);
    if p !in c.view {
      var c1 := c;
      if p != [] {
        LookGood(ns, c, Parent(p));
        c1 := Look(ns, c, Parent(p)).0;
        LookExtends(ns, c, Parent(p));
        GoodLonger(ns, c1.view, p);
        GoodShorter(ns, c1.view, Parent(p));
      }
      GoodEntry(ns, c1.view, p);
      GoodExtends(ns, c1.view, p, EntryOf(ns, c1.view, p).value);
    }
  }

  lemma GoodLonger(ns: NS, view: View, p: Path)
    requires p != [] && GoodUpTo(ns, view, Parent(p)) && GoodAt(ns, view, p)
    ensures GoodUpTo(ns, view, p)
  {
    hide GoodAt;
    forall k | 0 <= k <= |p|
      ensures GoodAt(ns, view, p[..k])
    {
      assert k < |p| ==> p[..k] == Parent(p)[..k];
      assert p[..|p|] == p;
    }
  }

  lemma {:induction false} SearchGood(ns: NS, ctx: SContext, c: Cache, p: Path)
    requires GoodUpTo(ns, c.view, p) && ctx.uid == 0
    ensures SearchUp(ns, ctx, c, p).1 == OK
    decreases |p|
  {
    hide GoodUpTo, Look;
    LookGood(ns, c, p);
    var c1 := Look(ns, c, p).0;
    GoodShorter(ns, c1.view, p);
    if p != [] {
      SearchGood(ns, ctx, c1, Parent(p));
    }
  }

  /** The shortest wrong path that is not cut off is served as it is cached. */
  lemma WrongIsServed(ns: NS, ctx: SContext, c: Cache, p: Path, max: nat)
    requires ctx.uid == 0 && p in c.view && c.view[p].node in ns.meta
    requires p != [] ==> GoodUpTo(ns, c.view, Parent(p))
    ensures GetNodeIn(ns, ctx, c, p, max).1 == Ok(c.view[p].node)
  {
    hide GoodUpTo, SearchUp, Look, Fit, Touch;
    var c1 := c;
    if p != [] {
      SearchGood(ns, ctx, c, Parent(p));
      SearchUpExtends(ns, ctx, c, Parent(p));
      c1 := SearchUp(ns, ctx, c, Parent(p)).0;
    }
    LookCached(ns, c1, p);
  }

  lemma CutOffLonger(ns: NS, view: View, p: Path, k: nat)
    requires k <= |p| && CutOff(ns, view, p[..k])
    ensures CutOff(ns, view, p)
  {
    var j :| 0 <= j < k && Resolve(ns, p[..k][..j]).None? && p[..k][..j] !in view;
    assert p[..k][..j] == p[..j];
  }

  /** A wrong node that is not cut off shows at a lookup of its path or of a prefix. */
  lemma {:induction false} WrongShows(ns: NS, ctx: SContext, c: Cache, p: Path, max: nat)
    requires ctx.uid == 0 && AllLive(ns, c.view) && p in c.view
    requires !NodeRight(ns, c.view, p) && !CutOff(ns, c.view, p)
    ensures exists k :: 0 <= k <= |p| && !LookupAgrees(ns, ctx, c, p[..k], max)
    decreases |p|
  {
    hide Resolve, GetNodeIn, Walk, CutOff;
    if k :| 0 <= k < |p| && p[..k] in c.view && !NodeRight(ns, c.view, p[..k]) {
      if CutOff(ns, c.view, p[..k]) {
        CutOffLonger(ns, c.view, p, k);
      }
      WrongShows(ns, ctx, c, p[..k], max);
      var j :| 0 <= j <= k && !LookupAgrees(ns, ctx, c, p[..k][..j], max);
      assert p[..k][..j] == p[..j];
    } else {
      if p != [] {
        OthersGood(ns, c.view, p);
      }
      WrongIsServed(ns, ctx, c, p, max);
      RootWalk(ns, ctx, p);
      assert p[..|p|] == p;
    }
  }

  lemma OthersGood(ns: NS, view: View, p: Path)
    requires p != [] && !CutOff(ns, view, p)
    requires forall k | 0 <= k < |p| && p[..k] in view :: NodeRight(ns, view, p[..k])
    ensures GoodUpTo(ns, view, Parent(p))
  {
    hide Resolve;
    forall k | 0 <= k < |p|
      ensures GoodAt(ns, view, Parent(p)[..k])
    {
      assert Parent(p)[..k] == p[..k];
    }
  }

  lemma PrefixValid(p: Path, k: nat)
    requires ValidPath(p) && k <= |p|
    ensures ValidPath(p[..k])
  {
  }

  /** With live nodes, whatever their attributes: all of root's lookups agree with the uncached walk exactly
      if every cached node is the right one or cut off. */
  lemma LookupsAgreeIff(ns: NS, ctx: SContext, c: Cache, max: nat)
    requires ctx.uid == 0 && AllLive(ns, c.view)
    ensures LookupsAgree(ns, ctx, c, max) <==> NodesFit(ns, c.view)
  {
    hide LookupAgrees, CutOff, ValidPath;
    if NodesFit(ns, c.view) {
      forall p | ValidPath(p)
        ensures LookupAgrees(ns, ctx, c, p, max)
      {
        FittingAgrees(ns, ctx, c, p, max);
      }
    } else {
      var p :| p in c.view && !NodeRight(ns, c.view, p) && !CutOff(ns, c.view, p);
      WrongShows(ns, ctx, c, p, max);
      var k :| 0 <= k <= |p| && !LookupAgrees(ns, ctx, c, p[..k], max);
      PrefixValid(p, k);
    }
  }

  /** A cached child of a name that has just appeared is wrong, and not cut off. */
  lemma StaleChildDoesNotFit(ns: NS, ns': NS, view: View, p: Path, n: Id)
    requires Appeared(ns, ns', p, n) && !NoChildCached(view, p) && AllLive(ns', view)
    ensures !NodesFit(ns', view)
  {
    var q :| q in view && ChildOf(q, p);
    UnderIsStrict(q, p);
    forall k | 0 <= k < |q|
      ensures Resolve(ns', q[..k]).Some?
    {
      ResolvePrefix(ns', p, k);
      assert p[..k] == q[..k];
    }
    assert !CutOff(ns', view, q);
  }

  lemma CreationAppears(w: World, ctx: SContext, p: Path, m: Meta, max: nat)
    requires Inv(w.ns) && IdsLeft(w.ns) && InStep(w) && ValidPath(p) && p != [] && StepCreate(w, ctx, p, m, max).e == OK
    ensures exists n :: Appeared(w.ns, StepCreate(w, ctx, p, m, max).w.ns, p, n)
  {
    hide Inv, Coherent, OpenDir, LocateDir, AddAt, Access, Appeared;
    OpenDirAgrees(w.ns, ctx, w.cache, p, max);
    var d := OpenDir(w.ns, ctx, w.cache, p, max).1.value;
    NextIdFresh(w.ns);
    Located(w.ns, ctx, p);
    AddAppears(w.ns, p, d, NextId(w.ns.meta.Keys), m);
  }

  lemma LinkAppearsThere(w: World, ctx: SContext, p: Path, q: Path, max: nat)
    requires Inv(w.ns) && InStep(w) && Admissible(w.ns, HardLink(p, q)) && StepLink(w, ctx, p, q, max).e == OK
    ensures exists n :: Appeared(w.ns, StepLink(w, ctx, p, q, max).w.ns, q, n)
  {
    hide Inv, Coherent, OpenDir, LocateDir, LinkAt, Access, GetNodeIn, Walk, Appeared;
    OpenDirAgrees(w.ns, ctx, w.cache, q, max);
    var (c1, o) := OpenDir(w.ns, ctx, w.cache, q, max);
    GetNodeAgrees(w.ns, ctx, c1, p, max);
    var n := GetNodeIn(w.ns, ctx, c1, p, max).1.value;
    Located(w.ns, ctx, q);
    WalkResolves(w.ns, ctx, p);
    LinkAppears(w.ns, q, o.value, n);
  }

  /** A creation or link that takes the cache out of step, its nodes being live, is noticed at the next
      lookup of some path by root. */
  lemma LostStepShows(w: World, r: Request, max: nat, ctx: SContext)
    requires Inv(w.ns) && IdsLeft(w.ns) && InStep(w) && Admissible(w.ns, r.op) && ctx.uid == 0
    requires Appearing(r.op) != {} && !r.op.ReName?
    requires var w' := Step(w, r, max).w; !InStep(w') && AllLive(w'.ns, w'.cache.view)
    ensures var w' := Step(w, r, max).w; !LookupsAgree(w'.ns, ctx, w'.cache, max)
  {
    hide Inv, IdsLeft, Coherent, StepCreate, StepLink, Apply, Safe, Clean, NoChildCached, LookupsAgree, AllLive, NodesFit,
         Appeared;
    StepAgrees(w, r, max);
    var w' := Step(w, r, max).w;
    var p := if r.op.HardLink? then r.op.q else r.op.p;
    match r.op {
      case MkDir(p, mode) => CreationAppears(w, r.ctx, p, DirMeta(r.ctx, mode), max);
      case MkNod(p, mode) => CreationAppears(w, r.ctx, p, Meta(mode, r.ctx.uid, r.ctx.gid), max);
      case SymLink(p) => CreationAppears(w, r.ctx, p, Meta(S_IFLNK, r.ctx.uid, r.ctx.gid), max);
      case HardLink(p, q) => LinkAppearsThere(w, r.ctx, p, q, max);
    }
    var n :| Appeared(w.ns, w'.ns, p, n);
    StaleChildDoesNotFit(w.ns, w'.ns, w'.cache.view, p, n);
    LookupsAgreeIff(w'.ns, ctx, w'.cache, max);
  }
}
