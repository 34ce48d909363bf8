/** Which error a lookup ends with, by paths and permission bits: ENOENT for a name that is not there,
    ENOTDIR for one below something that is no directory, EACCES for a directory that refuses the caller;
    for the path cache, and for the uncached walk, which meets the obstacles in another order. */
module LookupErrors {
  import opened Wrappers
  import opened Modes
  import opened Namespace
  import opened Ops
  import opened Coherence
  import opened Runs
  import opened CacheModel
  import opened CachedSteps
  import opened Verdicts

  /** A name below a cached path that lets the caller through: the answer is that of the directory the
      cache leads to, stale or not. */
  lemma NewNameAnswers(ns: NS, ctx: SContext, c: Cache, p: Path, max: nat)
    requires p != [] && p !in c.view && Parent(p) in c.view && Passes(c.view, ctx, Parent(p))
    ensures var d := c.view[Parent(p)].node;
            GetNodeIn(ns, ctx, c, p, max).1
            == if d !in ns.meta then Err(ENOENT)
               else if !DirType(ns.meta[d].mode) then Err(ENOTDIR)
               else match Child(ns, d, Leaf(p)) case None => Err(ENOENT) case Some(n) => Ok(n)
  {
    hide Fit, Touch, CheckAccess, Passes;
    PassingSearch(ns, ctx, c, Parent(p));
    LookCached(ns, c, Parent(p));
    var d := c.view[Parent(p)].node;
    if d in ns.meta {
      IsDirIsType(ns.meta[d].mode);
    }
  }

  /** The attributes checkAccess will test at p: the cached ones, where there are any. */
  function SeenAttrs(ns: NS, view: View, p: Path): Meta
    requires Resolve(ns, p).Some?
  {
    if p in view then view[p].meta else AttrsAt(ns, p)
  }

  lemma SearchIsCheck(ctx: SContext, m: Meta)
    ensures CheckAccess(ctx, m) <==> MaySearch(ctx, m)
  {
    CheckAccessIsSearchAccess(ctx, m);
    AccessIsBits(ctx, m);
  }

  /** Looked up, a path that resolves is cached with the attributes seen. */
  lemma {:induction false} LookSees(ns: NS, c: Cache, p: Path)
    requires Coherent(ns, c.view) && ValidPath(p) && Resolve(ns, p).Some?
    ensures var (c1, e) := Look(ns, c, p);
            e == OK && Coherent(ns, c1.view) && Resolve(ns, p) == Some(c1.view[p].node) &&
            c1.view[p].meta == SeenAttrs(ns, c.view, p)
  {
    hide Coherent, Resolve;
    LookCoherent(ns, c, p);
    var c1 := Look(ns, c, p).0;
    RightWhenResolved(ns, c1.view, p);
    if p in c.view {
      LookCached(ns, c, p);
    } else {
      NewIsCurrent(ns, c, p);
    }
  }

  lemma NewIsCurrent(ns: NS, c: Cache, p: Path)
    requires p !in c.view && Look(ns, c, p).1 == OK
    ensures var d := Look(ns, c, p).0.view[p]; d.node in ns.meta && d.meta == ns.meta[d.node]
  {
  }

  /** A directory's attributes are seen as they are. */
  lemma DirSeen(ns: NS, view: View, p: Path)
    requires Coherent(ns, view) && DirAt(ns, p)
    ensures SeenAttrs(ns, view, p) == AttrsAt(ns, p)
  {
    if p in view {
      RightWhenResolved(ns, view, p);
      IsDirIsType(AttrsAt(ns, p).mode);
    }
  }

  lemma AboveIsDir(ns: NS, p: Path, k: nat)
    requires Resolve(ns, p).Some? && k < |p|
    ensures DirAt(ns, p[..k])
  {
    ResolvePrefix(ns, p, k);
    IsDirIsType(AttrsAt(ns, p[..k]).mode);
  }

  /** Every directory above p lets the caller through. */
  ghost predicate ComesTo(ns: NS, ctx: SContext, p: Path) {
    forall k | 0 <= k < |p| :: LetsThrough(ns, ctx, p[..k])
  }

  lemma ComesToLonger(ns: NS, ctx: SContext, p: Path)
    requires p != []
    ensures ComesTo(ns, ctx, p) <==> ComesTo(ns, ctx, Parent(p)) && LetsThrough(ns, ctx, Parent(p))
  {
    hide LetsThrough;
    assert forall k | 0 <= k < |p| - 1 :: p[..k] == Parent(p)[..k];
    assert p[..|p| - 1] == Parent(p);
  }

  /** The climb from a path that resolves meets no obstacle but a refusal. */
  lemma {:induction false} SearchAnswers(ns: NS, ctx: SContext, c: Cache, p: Path)
    requires Coherent(ns, c.view) && ValidPath(p) && Resolve(ns, p).Some?
    ensures SearchUp(ns, ctx, c, p).1
            == if MaySearch(ctx, SeenAttrs(ns, c.view, p)) && ComesTo(ns, ctx, p) then OK else EACCES
    decreases |p|
  {
    hide Coherent, Resolve, Look, CheckAccess, MaySearch, ComesTo, DirAt;
    LookSees(ns, c, p);
    var c1 := Look(ns, c, p).0;
    SearchIsCheck(ctx, c1.view[p].meta);
    if p == [] {
      AtRoot(ns, ctx);
    } else {
      AboveIsDir(ns, p, |p| - 1);
      SearchAnswers(ns, ctx, c1, Parent(p));
      DirSeen(ns, c1.view, Parent(p));
      ComesToLonger(ns, ctx, p);
    }
  }

  lemma AtRoot(ns: NS, ctx: SContext)
    ensures ComesTo(ns, ctx, [])
  {
  }

  /** What a coherent cache answers for a name whose parent path resolves: EACCES if the caller is refused on
      the way, ENOTDIR if the parent is no directory, ENOENT if it has no such name, and otherwise the
      node. Only of a parent that is no directory may the attributes tested be old ones. */
  lemma NameAnswers(ns: NS, ctx: SContext, c: Cache, p: Path, max: nat)
    requires Coherent(ns, c.view) && ValidPath(p) && p != [] && Resolve(ns, Parent(p)).Some?
    ensures GetNodeIn(ns, ctx, c, p, max).1
            == if !MaySearch(ctx, SeenAttrs(ns, c.view, Parent(p))) || !ComesTo(ns, ctx, Parent(p)) then Err(EACCES)
               else if !DirAt(ns, Parent(p)) then Err(ENOTDIR)
               else match Resolve(ns, p) case None => Err(ENOENT) case Some(n) => Ok(n)
  {
    hide Coherent, Resolve, Look, SearchUp, Fit, Touch, CheckAccess, MaySearch, ComesTo, DirAt, Passes, SeenAttrs, EntryOf;
    SearchAnswers(ns, ctx, c, Parent(p));
    var (c1, e) := SearchUp(ns, ctx, c, Parent(p));
    if e == OK {
      SearchUpCoherent(ns, ctx, c, Parent(p));
      SearchUpPasses(ns, ctx, c, Parent(p));
      ItselfPasses(c1.view, ctx, Parent(p));
      RightWhenResolved(ns, c1.view, Parent(p));
      LastName(ns, c1, p);
    }
  }

  lemma ItselfPasses(view: View, ctx: SContext, p: Path)
    requires Passes(view, ctx, p)
    ensures p in view
  {
    assert p[..|p|] == p;
  }

  lemma LastName(ns: NS, c: Cache, p: Path)
    requires Coherent(ns, c.view) && ValidPath(p) && p != [] && Parent(p) in c.view
    requires Resolve(ns, Parent(p)) == Some(c.view[Parent(p)].node)
    ensures var (c', e) := Look(ns, c, p);
            && e == (if !DirAt(ns, Parent(p)) then ENOTDIR else if Resolve(ns, p).None? then ENOENT else OK)
            && (e == OK ==> Some(c'.view[p].node) == Resolve(ns, p) && c'.view[p].node in ns.meta)
  {
    hide Coherent;
    ResolveLive(ns, Parent(p));
    ResolveLive(ns, p);
    IsDirIsType(AttrsAt(ns, Parent(p)).mode);
    LookCached(ns, c, Parent(p));
    if p in c.view {
      if Resolve(ns, p).Some? {
        RightWhenResolved(ns, c.view, p);
      } else {
        HeldIsUncached(ns, c.view, p);
      }
    }
  }

  /** Below a path that resolves, what is cached resolves. */
  lemma HeldIsUncached(ns: NS, view: View, p: Path)
    requires Coherent(ns, view) && p != [] && Resolve(ns, Parent(p)).Some? && Resolve(ns, p).None?
    ensures p !in view
  {
    forall k | 0 <= k < |p|
      ensures Resolve(ns, p[..k]).Some?
    {
      assert Parent(p)[..k] == p[..k];
      ResolvePrefix(ns, Parent(p), k);
    }
  }

  /** All directories on the way are there and let the caller through, but the name is not: ENOENT. */
  lemma MissingIsENOENT(ns: NS, ctx: SContext, c: Cache, p: Path, max: nat)
    requires Coherent(ns, c.view) && ValidPath(p) && p != [] && Resolve(ns, p).None?
    requires forall k | 0 <= k < |p| :: DirAt(ns, p[..k]) && LetsThrough(ns, ctx, p[..k])
    ensures GetNodeIn(ns, ctx, c, p, max).1 == Err(ENOENT)
  {
    hide Coherent, Resolve, GetNodeIn;
    assert p[..|p| - 1] == Parent(p);
    assert ComesTo(ns, ctx, p);
    ComesToLonger(ns, ctx, p);
    DirSeen(ns, c.view, Parent(p));
    NameAnswers(ns, ctx, c, p, max);
  }

  /** Something above the name refuses the caller, all of it being there: EACCES. */
  lemma RefusedIsEACCES(ns: NS, ctx: SContext, c: Cache, p: Path, max: nat)
    requires Coherent(ns, c.view) && ValidPath(p) && p != [] && DirAt(ns, Parent(p)) && !ComesTo(ns, ctx, p)
    ensures GetNodeIn(ns, ctx, c, p, max).1 == Err(EACCES)
  {
    hide Coherent, Resolve, GetNodeIn, ComesTo;
    ComesToLonger(ns, ctx, p);
    DirSeen(ns, c.view, Parent(p));
    NameAnswers(ns, ctx, c, p, max);
  }

  /** The parent is no directory, and with the attributes seen lets the caller through: ENOTDIR. */
  lemma BelowFileIsENOTDIR(ns: NS, ctx: SContext, c: Cache, p: Path, max: nat)
    requires Coherent(ns, c.view) && ValidPath(p) && p != [] && Resolve(ns, Parent(p)).Some? && !DirAt(ns, Parent(p))
    requires MaySearch(ctx, SeenAttrs(ns, c.view, Parent(p))) && ComesTo(ns, ctx, Parent(p))
    ensures GetNodeIn(ns, ctx, c, p, max).1 == Err(ENOTDIR)
  {
    hide Coherent, Resolve, GetNodeIn, ComesTo;
    NameAnswers(ns, ctx, c, p, max);
  }

  /** Nothing is cached of p from the length k on. */
  ghost predicate NoneFrom(view: View, p: Path, k: nat) {
    forall j | k <= j <= |p| :: p[..j] !in view
  }

  /** The lookup of a path that does not resolve ends at the first name missing, unless something is still
      cached beyond it: ENOENT, or ENOTDIR below what is no directory. */
  lemma {:induction false} LookFails(ns: NS, c: Cache, p: Path, k: nat)
    requires Coherent(ns, c.view) && ValidPath(p) && 0 < k <= |p| && NoneFrom(c.view, p, k)
    requires Resolve(ns, p[..k - 1]).Some? && Resolve(ns, p[..k]).None?
    ensures Look(ns, c, p).1 == if DirAt(ns, p[..k - 1]) then ENOENT else ENOTDIR
    decreases |p|
  {
    hide Coherent, Resolve, DirAt;
    assert p[..|p|] == p;
    if k == |p| {
      LookSees(ns, c, Parent(p));
      var c1 := Look(ns, c, Parent(p)).0;
      LookExtends(ns, c, Parent(p));
      NotLonger(c.view, c1.view, p);
      LookOnFromParent(ns, c, p);
      LastName(ns, c1, p);
    } else {
      var q := Parent(p);
      assert q[..k] == p[..k] && q[..k - 1] == p[..k - 1];
      assert forall j | k <= j <= |q| :: q[..j] == p[..j];
      LookFails(ns, c, q, k);
    }
  }

  lemma NotLonger(view: View, view': View, p: Path)
    requires p != [] && p !in view && Extends(view, view', Parent(p))
    ensures p !in view'
  {
  }

  lemma LookOnFromParent(ns: NS, c: Cache, p: Path)
    requires p != [] && p !in c.view && Look(ns, c, Parent(p)).1 == OK && p !in Look(ns, c, Parent(p)).0.view
    ensures Look(ns, c, p).1 == Look(ns, Look(ns, c, Parent(p)).0, p).1
  {
    LookCached(ns, Look(ns, c, Parent(p)).0, Parent(p));
  }

  /** So a path whose parent path does not resolve gets that error, unless part of it is still cached. */
  lemma UnresolvedParentAnswers(ns: NS, ctx: SContext, c: Cache, p: Path, k: nat, max: nat)
    requires Coherent(ns, c.view) && ValidPath(p) && 0 < k < |p| && NoneFrom(c.view, Parent(p), k)
    requires Resolve(ns, p[..k - 1]).Some? && Resolve(ns, p[..k]).None?
    ensures GetNodeIn(ns, ctx, c, p, max).1 == Err(if DirAt(ns, p[..k - 1]) then ENOENT else ENOTDIR)
  {
    hide Coherent, Resolve, DirAt, Look, Fit, Touch, CheckAccess;
    var q := Parent(p);
    assert q[..k] == p[..k] && q[..k - 1] == p[..k - 1];
    LookFails(ns, c, q, k);
  }

  /** Opening the directory of a last token: what is found there must be a directory. */
  lemma NoDirectoryIsENOTDIR(ns: NS, ctx: SContext, c: Cache, p: Path, max: nat)
    requires GetNodeIn(ns, ctx, c, Parent(p), max).1.Ok?
    ensures var n := GetNodeIn(ns, ctx, c, Parent(p), max).1.value;
            OpenDir(ns, ctx, c, p, max).1 == if DirType(ns.meta[n].mode) then Ok(n) else Err(ENOTDIR)
  {
    hide GetNodeIn;
    IsDirIsType(ns.meta[GetNodeIn(ns, ctx, c, Parent(p), max).1.value].mode);
  }

  lemma {:induction false} WalkFailsOn(ns: NS, ctx: SContext, p: Path, k: nat)
    requires k <= |p| && Walk(ns, ctx, p[..k]).Err?
    ensures Walk(ns, ctx, p) == Walk(ns, ctx, p[..k])
    decreases |p|
  {
    if k == |p| {
      assert p[..k] == p;
    } else {
      assert Parent(p)[..k] == p[..k];
      WalkFailsOn(ns, ctx, Parent(p), k);
    }
  }

  /** The uncached walk ends at the first obstacle: EACCES where it is refused, ENOTDIR where it could go
      on but there is no directory, ENOENT where the next name is missing. */
  lemma WalkAnswers(ns: NS, ctx: SContext, p: Path, k: nat)
    requires k < |p| && Resolve(ns, p[..k]).Some? && ComesTo(ns, ctx, p[..k])
    ensures !LetsThrough(ns, ctx, p[..k]) ==> Walk(ns, ctx, p) == Err(EACCES)
    ensures LetsThrough(ns, ctx, p[..k]) && !DirAt(ns, p[..k]) ==> Walk(ns, ctx, p) == Err(ENOTDIR)
    ensures LetsThrough(ns, ctx, p[..k]) && DirAt(ns, p[..k]) && Resolve(ns, p[..k + 1]).None? ==>
              Walk(ns, ctx, p) == Err(ENOENT)
  {
    hide Access, MaySearch;
    var q := p[..k];
    ReachesIsWalk(ns, ctx, q);
    AccessIsBits(ctx, AttrsAt(ns, q));
    IsDirIsType(AttrsAt(ns, q).mode);
    assert Parent(p[..k + 1]) == q;
    if Walk(ns, ctx, p[..k + 1]).Err? {
      WalkFailsOn(ns, ctx, p, k + 1);
    }
  }

  /** The first lookup a request makes, and what it ends with. */
  function FirstLookup(w: World, r: Request, max: nat): (Cache, Result<Id, Errno>) {
    match r.op
    case GetAttr(p) => GetNodeIn(w.ns, r.ctx, w.cache, p, max)
    case ChMod(p, _) => GetNodeIn(w.ns, r.ctx, w.cache, p, max)
    case ChOwn(p, _, _) => GetNodeIn(w.ns, r.ctx, w.cache, p, max)
    case HardLink(_, q) => OpenDir(w.ns, r.ctx, w.cache, q, max)
    case _ => OpenDir(w.ns, r.ctx, w.cache, r.op.p, max)
  }

  /** The second one: rename's new directory, and link's old path, if the new directory may be written. */
  function SecondLookup(w: World, r: Request, max: nat): Result<Id, Errno> {
    var (c, first) := FirstLookup(w, r, max);
    match r.op
    case ReName(_, q) => OpenDir(w.ns, r.ctx, c, q, max).1
    case HardLink(p, _) =>
      if first.Ok? && first.value in w.ns.meta && MayWrite(r.ctx, w.ns.meta[first.value])
      then GetNodeIn(w.ns, r.ctx, c, p, max).1 else first
    case _ => first
  }

  /** A lookup that fails is what the request answers, and no table changes. */
  lemma LookupErrorIsAnswer(w: World, r: Request, max: nat)
    ensures FirstLookup(w, r, max).1.Err? ==>
              Step(w, r, max).e == FirstLookup(w, r, max).1.error && Step(w, r, max).w.ns == w.ns
    ensures FirstLookup(w, r, max).1.Ok? && SecondLookup(w, r, max).Err? ==>
              Step(w, r, max).e == SecondLookup(w, r, max).error && Step(w, r, max).w.ns == w.ns
  {
    hide GetNodeIn, OpenDir, CreateUnder, UnlinkFrom, RmdirFrom, RenameBetween, MoveCheck, LinkUnder, ChmodNode, ChownNode,
         Access, MayWrite;
    var first := FirstLookup(w, r, max).1;
    if r.op.HardLink? && first.Ok? {
      AccessIsBits(r.ctx, w.ns.meta[first.value]);
    }
  }

  /** getattr that finds a node says so, and changes nothing. */
  lemma FoundIsAnswer(w: World, ctx: SContext, p: Path, max: nat)
    requires GetNodeIn(w.ns, ctx, w.cache, p, max).1.Ok?
    ensures Step(w, Request(ctx, GetAttr(p)), max).e == OK && Step(w, Request(ctx, GetAttr(p)), max).w.ns == w.ns
  {
    hide GetNodeIn;
  }
}
