/** The path cache as a plain map of paths with an order of use: what getnode and invalidate do to
    it, without entries, parent links, their repair, or entries inserted and taken out again. */
module CacheModel {
  import opened Wrappers
  import opened Modes
  import opened Namespace
  import opened Coherence
  import opened Seqs

  /** What is cached, and the cached paths, the least recently used first. */
  datatype Cache = Cache(view: View, order: seq<Path>)

  const EMPTY: Cache := Cache(map[], [])

  function Add(c: Cache, p: Path, d: CData): Cache {
    Cache(c.view[p := d], c.order + [p])
  }

  /** invalidate: the one path goes, what is cached below it stays. */
  function Forget(c: Cache, p: Path): Cache {
    if p in c.view then Cache(c.view - {p}, Erase(c.order, p)) else c
  }

  lemma ForgetView(c: Cache, p: Path)
    ensures Forget(c, p).view == c.view - {p}
  {
  }

  function Touch(c: Cache, p: Path): Cache {
    Cache(c.view, Erase(c.order, p) + [p])
  }

  /** The least recently used paths leave until max are left. */
  function Fit(c: Cache, max: nat): Cache
    decreases |c.order|
  {
    if |c.order| <= max then c else Fit(Cache(c.view - {c.order[0]}, c.order[1..]), max)
  }

  /** The entry for p: the root, or what the directory cached for the parent has under the last token. */
  function EntryOf(ns: NS, view: View, p: Path): (r: Result<CData, Errno>)
    requires p != [] ==> Parent(p) in view
    ensures r.Err? ==> r.error in {ENOENT, ENOTDIR}
  {
    if p == [] then
      if 0 in ns.meta then Ok(CData(0, ns.meta[0])) else Err(ENOENT)
    else
      var d := view[Parent(p)].node;
      if d !in ns.meta then Err(ENOENT)
      else if !IsDir(ns.meta[d].mode) then Err(ENOTDIR)
      else match Child(ns, d, Leaf(p))
           case None => Err(ENOENT)
           case Some(n) => Ok(CData(n, ns.meta[n]))
  }

  /** lookup: p with its missing prefixes cached, from the deepest cached one down. */
  function Look(ns: NS, c: Cache, p: Path): (r: (Cache, Errno))
    ensures r.1 in {OK, ENOENT, ENOTDIR} && (r.1 == OK ==> p in r.0.view)
    decreases |p|
  {
    if p in c.view then (c, OK)
    else
      var (c1, e) := if p == [] then (c, OK) else Look(ns, c, Parent(p));
      if e != OK then (c1, e)
      else match EntryOf(ns, c1.view, p)
           case Err(f) => (c1, f)
           case Ok(d) => (Add(c1, p, d), OK)
  }

  /** withPath with checkAccess: p and then its prefixes, up to the root, looked up and checked. */
  function SearchUp(ns: NS, ctx: SContext, c: Cache, p: Path): (r: (Cache, Errno))
    ensures r.1 in {OK, ENOENT, ENOTDIR, EACCES}
    decreases |p|
  {
    var (c1, e) := Look(ns, c, p);
    if e != OK then (c1, e)
    else if !CheckAccess(ctx, c1.view[p].meta) then (c1, EACCES)
    else if p == [] then (c1, OK)
    else SearchUp(ns, ctx, c1, Parent(p))
  }

  /** getnode up to the entry. */
  function Find(ns: NS, ctx: SContext, c: Cache, p: Path): (r: (Cache, Errno))
    ensures r.1 in {OK, ENOENT, ENOTDIR, EACCES} && (r.1 == OK ==> p in r.0.view)
  {
    var (c1, e) := if p == [] then (c, OK) else SearchUp(ns, ctx, c, Parent(p));
    if e != OK then (c1, e) else Look(ns, c1, p)
  }

  /** Node::getnode. */
  function NodeOf(ns: NS, n: Id): Result<Id, Errno> {
    if n in ns.meta then Ok(n) else Err(ENOENT)
  }

  /** getnode. */
  function GetNodeIn(ns: NS, ctx: SContext, c: Cache, p: Path, max: nat): (r: (Cache, Result<Id, Errno>))
    ensures r.1.Ok? ==> r.1.value in ns.meta
    ensures r.1.Err? ==> r.1.error in {ENOENT, ENOTDIR, EACCES}
  {
    var (c1, e) := Find(ns, ctx, c, p);
    if e != OK then (c1, Err(e))
    else
      (Fit(Touch(c1, p), max), NodeOf(ns, c1.view[p].node))
  }

  lemma TouchShape(c: Cache, p: Path)
    ensures var c' := Touch(c, p);
            c'.view == c.view && c'.order != [] && c'.order[|c'.order| - 1] == p
  {
  }

  lemma LookCached(ns: NS, c: Cache, p: Path)
    requires p in c.view
    ensures Look(ns, c, p) == (c, OK)
  {
  }

  lemma SearchTurn(ns: NS, ctx: SContext, c: Cache, p: Path)
    ensures SearchUp(ns, ctx, c, p)
            == var (c1, e) := Look(ns, c, p);
               if e != OK then (c1, e)
               else if !CheckAccess(ctx, c1.view[p].meta) then (c1, EACCES)
               else if p == [] then (c1, OK)
               else SearchUp(ns, ctx, c1, Parent(p))
  {
  }

  lemma FitTurn(c: Cache, max: nat)
    ensures Fit(c, max)
            == if |c.order| <= max then c else Fit(Cache(c.view - {c.order[0]}, c.order[1..]), max)
  {
  }

  /** The most recently used path stays, with what is cached for it. */
  lemma {:induction false} FitKeepsYoungest(c: Cache, max: nat, p: Path)
    requires max >= 1 && Distinct(c.order) && c.order != [] && c.order[|c.order| - 1] == p && p in c.view
    ensures var c' := Fit(c, max);
            && p in c'.view && c'.view[p] == c.view[p]
            && c'.order != [] && c'.order[|c'.order| - 1] == p
    decreases |c.order|
  {
    if |c.order| > max {
      FitKeepsYoungest(Cache(c.view - {c.order[0]}, c.order[1..]), max, p);
    }
  }

  /** What leaves is exactly the old end of the order. */
  lemma {:induction false} FitKeepsNewest(c: Cache, max: nat)
    requires WfCache(c)
    ensures var c' := Fit(c, max);
            && c'.order == (if |c.order| <= max then c.order else c.order[|c.order| - max..])
            && forall p :: p in c'.view <==> p in c'.order
    decreases |c.order|
  {
    if |c.order| > max {
      var c1 := Cache(c.view - {c.order[0]}, c.order[1..]);
      FirstLeaves(c);
      FitKeepsNewest(c1, max);
      assert c.order[1..][|c.order| - 1 - max..] == c.order[|c.order| - max..];
      assert |c1.order| == max ==> c.order[1..] == c.order[|c.order| - max..];
    }
  }

  lemma FirstLeaves(c: Cache)
    requires WfCache(c) && c.order != []
    ensures WfCache(Cache(c.view - {c.order[0]}, c.order[1..]))
  {
    assert c.order == [c.order[0]] + c.order[1..];
  }

  /** view' is view with entries for prefixes of p added. */
  ghost predicate Extends(view: View, view': View, p: Path) {
    && (forall q | q in view :: q in view' && view'[q] == view[q])
    && (forall q | q in view' :: q in view || q <= p)
  }

  lemma ExtendsTrans(v0: View, v1: View, v2: View, q: Path, r: Path, p: Path)
    requires Extends(v0, v1, q) && Extends(v1, v2, r) && q <= p && r <= p
    ensures Extends(v0, v2, p)
  {
  }

  lemma EntryIsDerived(ns: NS, view: View, p: Path)
    requires p != [] ==> Parent(p) in view
    ensures forall d :: EntryOf(ns, view, p) == Ok(d) <==> Derived(ns, view, p, d)
  {
  }

  /** In a coherent cache an entry is missing only for a path that names nothing. */
  lemma NoEntryMeansUnresolved(ns: NS, view: View, p: Path)
    requires Coherent(ns, view) && (p != [] ==> Parent(p) in view) && EntryOf(ns, view, p).Err?
    ensures Resolve(ns, p).None?
  {
    if Resolve(ns, p).Some? && p != [] {
      ResolveLive(ns, p);
      RightWhenResolved(ns, view, Parent(p));
    }
  }

  lemma {:induction false} LookExtends(ns: NS, c: Cache, p: Path)
    ensures var c' := Look(ns, c, p).0;
            Extends(c.view, c'.view, p) && c.order <= c'.order
    decreases |p|
  {
    if p !in c.view && p != [] {
      LookExtends(ns, c, Parent(p));
    }
  }

  /** lookup keeps the cache coherent, and fails only for a path that names nothing. */
  lemma {:induction false} LookCoherent(ns: NS, c: Cache, p: Path)
    requires Coherent(ns, c.view) && ValidPath(p)
    ensures Coherent(ns, Look(ns, c, p).0.view)
    ensures Look(ns, c, p).1 != OK ==> Resolve(ns, p).None?
    decreases |p|
  {
    hide Coherent, EntryOf, Derived;
    if p !in c.view {
      var c1 := c;
      if p != [] {
        LookCoherent(ns, c, Parent(p));
        c1 := Look(ns, c, Parent(p)).0;
      }
      if p == [] || Look(ns, c, Parent(p)).1 == OK {
        match EntryOf(ns, c1.view, p)
        case Err(_) => NoEntryMeansUnresolved(ns, c1.view, p);
        case Ok(d) =>
          EntryIsDerived(ns, c1.view, p);
          ExtendKeepsCoherent(ns, c1.view, p, d);
      }
    }
  }

  lemma {:induction false} SearchUpExtends(ns: NS, ctx: SContext, c: Cache, p: Path)
    ensures var c' := SearchUp(ns, ctx, c, p).0;
            Extends(c.view, c'.view, p) && c.order <= c'.order
    decreases |p|
  {
    hide Look, Extends;
    LookExtends(ns, c, p);
    var (c1, e) := Look(ns, c, p);
    if p != [] {
      SearchUpExtends(ns, ctx, c1, Parent(p));
      ExtendsTrans(c.view, c1.view, SearchUp(ns, ctx, c1, Parent(p)).0.view, p, Parent(p), p);
    }
  }

  /** Every prefix of p is cached with search permission for the caller. */
  ghost predicate Passes(view: View, ctx: SContext, p: Path) {
    forall k | 0 <= k <= |p| :: p[..k] in view && CheckAccess(ctx, view[p[..k]].meta)
  }

  lemma PassesLonger(view: View, ctx: SContext, p: Path)
    requires p in view && CheckAccess(ctx, view[p].meta) && (p != [] ==> Passes(view, ctx, Parent(p)))
    ensures Passes(view, ctx, p)
  {
    forall k | 0 <= k <= |p|
      ensures p[..k] in view && CheckAccess(ctx, view[p[..k]].meta)
    {
      assert k < |p| ==> p[..k] == Parent(p)[..k];
      assert p[..|p|] == p;
    }
  }

  /** Where the search succeeds, every prefix is cached afterwards and lets the caller through. */
  lemma {:induction false} SearchUpPasses(ns: NS, ctx: SContext, c: Cache, p: Path)
    requires SearchUp(ns, ctx, c, p).1 == OK
    ensures Passes(SearchUp(ns, ctx, c, p).0.view, ctx, p)
    decreases |p|
  {
    hide Look, CheckAccess, Passes;
    var c1 := Look(ns, c, p).0;
    if p != [] {
      SearchUpPasses(ns, ctx, c1, Parent(p));
      SearchUpExtends(ns, ctx, c1, Parent(p));
    }
    PassesLonger(SearchUp(ns, ctx, c, p).0.view, ctx, p);
  }

  ghost predicate SomeUnsearchable(ns: NS, ctx: SContext, p: Path) {
    exists j :: 0 <= j <= |p| && !SearchableDir(ns, ctx, p[..j])
  }

  /** A cached directory that fails checkAccess is not searchable, and neither is a stale one. */
  lemma RefusedIsUnsearchable(ns: NS, view: View, ctx: SContext, p: Path)
    requires Coherent(ns, view) && p in view && !CheckAccess(ctx, view[p].meta)
    ensures !SearchableDir(ns, ctx, p)
  {
    CheckAccessIsSearchAccess(ctx, view[p].meta);
    if Resolve(ns, p).Some? {
      RightWhenResolved(ns, view, p);
    }
  }

  lemma UnsearchableItself(ns: NS, ctx: SContext, p: Path)
    requires !SearchableDir(ns, ctx, p)
    ensures SomeUnsearchable(ns, ctx, p)
  {
    assert p[..|p|] == p;
  }

  lemma UnsearchableLonger(ns: NS, ctx: SContext, p: Path)
    requires p != [] && SomeUnsearchable(ns, ctx, Parent(p))
    ensures SomeUnsearchable(ns, ctx, p) && Walk(ns, ctx, p).Err?
  {
    var j :| 0 <= j <= |Parent(p)| && !SearchableDir(ns, ctx, Parent(p)[..j]);
    assert Parent(p)[..j] == p[..j];
    WalkErr(ns, ctx, p);
  }

  /** The search keeps the cache coherent, and fails only where some prefix is no searchable directory. */
  lemma {:induction false} SearchUpCoherent(ns: NS, ctx: SContext, c: Cache, p: Path)
    requires Coherent(ns, c.view) && ValidPath(p)
    ensures Coherent(ns, SearchUp(ns, ctx, c, p).0.view)
    ensures SearchUp(ns, ctx, c, p).1 != OK ==> SomeUnsearchable(ns, ctx, p)
    decreases |p|
  {
    hide Look, Coherent, CheckAccess, SomeUnsearchable;
    LookCoherent(ns, c, p);
    var (c1, e) := Look(ns, c, p);
    if e != OK {
      UnsearchableItself(ns, ctx, p);
    } else if !CheckAccess(ctx, c1.view[p].meta) {
      RefusedIsUnsearchable(ns, c1.view, ctx, p);
      UnsearchableItself(ns, ctx, p);
    } else if p != [] {
      SearchUpCoherent(ns, ctx, c1, Parent(p));
      if SearchUp(ns, ctx, c1, Parent(p)).1 != OK {
        UnsearchableLonger(ns, ctx, p);
      }
    }
  }

  lemma FindExtends(ns: NS, ctx: SContext, c: Cache, p: Path)
    ensures var c' := Find(ns, ctx, c, p).0;
            Extends(c.view, c'.view, p) && c.order <= c'.order
  {
    hide Look, SearchUp, Extends;
    LookExtends(ns, c, p);
    if p != [] {
      SearchUpExtends(ns, ctx, c, Parent(p));
      var c1 := SearchUp(ns, ctx, c, Parent(p)).0;
      LookExtends(ns, c1, p);
      ExtendsTrans(c.view, c1.view, Look(ns, c1, p).0.view, Parent(p), p, p);
      ExtendsLonger(c.view, c1.view, p);
    }
  }

  lemma ExtendsLonger(v: View, v': View, p: Path)
    requires Extends(v, v', Parent(p))
    ensures Extends(v, v', p)
  {
  }

  /** Every prefix passed and the path itself is cached: the uncached walk ends at the cached node. */
  lemma FoundIsWalked(ns: NS, view: View, ctx: SContext, p: Path)
    requires Coherent(ns, view) && p in view && (p != [] ==> Passes(view, ctx, Parent(p)))
    ensures Walk(ns, ctx, p) == Ok(view[p].node)
  {
    forall k | 0 <= k < |p|
      ensures p[..k] in view && CheckAccess(ctx, view[p[..k]].meta)
    {
      assert Parent(p)[..k] == p[..k];
    }
    AllCachedIsRight(ns, view, p);
    forall k | 0 <= k < |p|
      ensures SearchableDir(ns, ctx, p[..k])
    {
      ResolvePrefix(ns, p, k);
      RightWhenResolved(ns, view, p[..k]);
      CheckAccessIsSearchAccess(ctx, view[p[..k]].meta);
    }
    WalkResolves(ns, ctx, p);
  }

  lemma PassesKept(view: View, view': View, ctx: SContext, p: Path, q: Path)
    requires Passes(view, ctx, p) && Extends(view, view', q)
    ensures Passes(view', ctx, p)
  {
  }

  /** What getnode finds in a coherent cache is what the uncached walk finds. */
  lemma FindAgrees(ns: NS, ctx: SContext, c: Cache, p: Path)
    requires Coherent(ns, c.view) && ValidPath(p)
    ensures var (c', e) := Find(ns, ctx, c, p);
            Coherent(ns, c'.view) && if e == OK then Walk(ns, ctx, p) == Ok(c'.view[p].node) else Walk(ns, ctx, p).Err?
  {
    hide Coherent, Look, SearchUp, Passes, SomeUnsearchable, Walk, Extends;
    var c1 := c;
    if p != [] {
      SearchUpCoherent(ns, ctx, c, Parent(p));
      c1 := SearchUp(ns, ctx, c, Parent(p)).0;
      if SearchUp(ns, ctx, c, Parent(p)).1 != OK {
        UnsearchableLonger(ns, ctx, p);
        return;
      }
      SearchUpPasses(ns, ctx, c, Parent(p));
    }
    LookCoherent(ns, c1, p);
    LookExtends(ns, c1, p);
    var (c', e) := Look(ns, c1, p);
    if e != OK {
      WalkErr(ns, ctx, p);
    } else {
      if p != [] {
        PassesKept(c1.view, c'.view, ctx, Parent(p), p);
      }
      FoundIsWalked(ns, c'.view, ctx, p);
    }
  }

  /** Same node, or both fail. */
  predicate Agrees(r: Result<Id, Errno>, walk: Result<Id, Errno>) {
    if walk.Ok? then r == walk else r.Err?
  }

  lemma {:induction false} FitShrinks(c: Cache, max: nat)
    ensures var c' := Fit(c, max);
            && c'.view.Keys <= c.view.Keys && (forall p | p in c'.view :: c'.view[p] == c.view[p])
            && |c'.order| <= max && (|c.order| <= max ==> c' == c)
    decreases |c.order|
  {
    if |c.order| > max {
      FitShrinks(Cache(c.view - {c.order[0]}, c.order[1..]), max);
    }
  }

  /** getnode on a coherent cache: the cache stays coherent, and the answer is the uncached walk's. */
  lemma GetNodeAgrees(ns: NS, ctx: SContext, c: Cache, p: Path, max: nat)
    requires Coherent(ns, c.view) && ValidPath(p)
    ensures var (c', r) := GetNodeIn(ns, ctx, c, p, max);
            Coherent(ns, c'.view) && Agrees(r, Walk(ns, ctx, p))
  {
    hide Coherent, Find, Fit, Walk;
    FindAgrees(ns, ctx, c, p);
    var c1 := Find(ns, ctx, c, p).0;
    FitShrinks(Touch(c1, p), max);
    ShrinkKeepsCoherent(ns, c1.view, Fit(Touch(c1, p), max).view);
    WalkLive(ns, ctx, p);
  }

  lemma WalkLive(ns: NS, ctx: SContext, p: Path)
    ensures Walk(ns, ctx, p).Ok? ==> Walk(ns, ctx, p).value in ns.meta
  {
  }

  /** The order lists every cached path once. */
  ghost predicate WfCache(c: Cache) {
    Distinct(c.order) && forall p :: p in c.view <==> p in c.order
  }

  lemma ForgetKeepsWf(c: Cache, p: Path)
    requires WfCache(c)
    ensures WfCache(Forget(c, p)) && Forget(c, p).view == c.view - {p}
  {
    EraseMembers(c.order, p);
    EraseDistinct(c.order, p);
  }

  lemma {:induction false} LookKeepsWf(ns: NS, c: Cache, p: Path)
    requires WfCache(c)
    ensures WfCache(Look(ns, c, p).0)
    decreases |p|
  {
    hide EntryOf;
    if p !in c.view {
      var c1 := c;
      if p != [] {
        LookKeepsWf(ns, c, Parent(p));
        LookExtends(ns, c, Parent(p));
        c1 := Look(ns, c, Parent(p)).0;
        assert !(p <= Parent(p));
      }
      AppendDistinct(c1.order, p);
    }
  }

  lemma {:induction false} SearchUpKeepsWf(ns: NS, ctx: SContext, c: Cache, p: Path)
    requires WfCache(c)
    ensures WfCache(SearchUp(ns, ctx, c, p).0)
    decreases |p|
  {
    hide Look, WfCache;
    LookKeepsWf(ns, c, p);
    if p != [] {
      SearchUpKeepsWf(ns, ctx, Look(ns, c, p).0, Parent(p));
    }
  }

  lemma FindKeepsWf(ns: NS, ctx: SContext, c: Cache, p: Path)
    requires WfCache(c)
    ensures WfCache(Find(ns, ctx, c, p).0)
  {
    hide Look, WfCache, SearchUp;
    LookKeepsWf(ns, c, p);
    if p != [] {
      SearchUpKeepsWf(ns, ctx, c, Parent(p));
      LookKeepsWf(ns, SearchUp(ns, ctx, c, Parent(p)).0, p);
    }
  }

  lemma TouchKeepsWf(c: Cache, p: Path)
    requires WfCache(c) && p in c.view
    ensures WfCache(Touch(c, p)) && |Touch(c, p).order| == |c.order|
  {
    EraseMembers(c.order, p);
    EraseDistinct(c.order, p);
    AppendDistinct(Erase(c.order, p), p);
  }

  lemma {:induction false} FitKeepsWf(c: Cache, max: nat)
    requires WfCache(c)
    ensures WfCache(Fit(c, max))
    decreases |c.order|
  {
    if |c.order| > max {
      var c1 := Cache(c.view - {c.order[0]}, c.order[1..]);
      FirstLeaves(c);
      FitKeepsWf(c1, max);
    }
  }

  lemma GetNodeKeepsWf(ns: NS, ctx: SContext, c: Cache, p: Path, max: nat)
    requires WfCache(c)
    ensures WfCache(GetNodeIn(ns, ctx, c, p, max).0)
  {
    hide WfCache, Find, Fit, Touch;
    FindKeepsWf(ns, ctx, c, p);
    if Find(ns, ctx, c, p).1 == OK {
      TouchKeepsWf(Find(ns, ctx, c, p).0, p);
      FitKeepsWf(Touch(Find(ns, ctx, c, p).0, p), max);
    }
  }

  ghost function Prefixes(p: Path): set<Path> {
    if p == [] then {p} else Prefixes(Parent(p)) + {p}
  }

  lemma {:induction false} PrefixesFew(p: Path)
    ensures |Prefixes(p)| <= |p| + 1
    ensures forall q | q <= p :: q in Prefixes(p)
    decreases |p|
  {
    if p != [] {
      PrefixesFew(Parent(p));
      forall q | q <= p
        ensures q in Prefixes(p)
      {
        assert q != p ==> q <= Parent(p);
      }
    }
  }

  lemma ExtendsSize(c: Cache, c': Cache, p: Path)
    requires WfCache(c) && WfCache(c') && Extends(c.view, c'.view, p)
    ensures |c'.order| <= |c.order| + |p| + 1
  {
    DistinctSize(c.order);
    DistinctSize(c'.order);
    PrefixesFew(p);
    SubsetSize(Elems(c'.order), Elems(c.order) + Prefixes(p));
  }

  /** What getnode adds to the cache are prefixes of its path. */
  lemma GetNodeCaches(ns: NS, ctx: SContext, c: Cache, p: Path, max: nat)
    ensures forall q | q in GetNodeIn(ns, ctx, c, p, max).0.view :: q in c.view || q <= p
  {
    hide Find, Fit;
    FindExtends(ns, ctx, c, p);
    FitShrinks(Touch(Find(ns, ctx, c, p).0, p), max);
  }

  /** view' holds all that view does and p with all its prefixes. */
  ghost predicate KeepsAndHolds(view: View, view': View, p: Path) {
    && (forall q | q in view :: q in view' && view'[q] == view[q])
    && (forall k | 0 <= k <= |p| :: p[..k] in view')
  }

  /** With room for them all, a found path is cached with all its prefixes, and nothing leaves. */
  lemma GetNodeWithRoom(ns: NS, ctx: SContext, c: Cache, p: Path, max: nat)
    requires WfCache(c) && |c.view| + |p| + 1 <= max && GetNodeIn(ns, ctx, c, p, max).1.Ok?
    ensures KeepsAndHolds(c.view, GetNodeIn(ns, ctx, c, p, max).0.view, p)
  {
    hide Look, SearchUp, Fit, Touch, CheckAccess, Find, WfCache, Passes;
    OrderSize(c);
    var c1 := Find(ns, ctx, c, p).0;
    FindKeepsWf(ns, ctx, c, p);
    FindExtends(ns, ctx, c, p);
    ExtendsSize(c, c1, p);
    TouchShape(c1, p);
    TouchKeepsWf(c1, p);
    FitShrinks(Touch(c1, p), max);
    FoundPasses(ns, ctx, c, p);
    HoldsPrefixes(ctx, c1.view, p);
  }

  lemma GetNodeMeans(ns: NS, ctx: SContext, c: Cache, p: Path, max: nat)
    requires WfCache(c)
    ensures var (c', r) := GetNodeIn(ns, ctx, c, p, max);
            && (ValidPath(p) && Coherent(ns, c.view) ==> Coherent(ns, c'.view) && Agrees(r, Walk(ns, ctx, p)))
            && (r.Ok? && |c.view| + |p| + 1 <= max ==> KeepsAndHolds(c.view, c'.view, p))
  {
    hide WfCache, Coherent, GetNodeIn, Walk, KeepsAndHolds;
    if ValidPath(p) && Coherent(ns, c.view) {
      GetNodeAgrees(ns, ctx, c, p, max);
    }
    if GetNodeIn(ns, ctx, c, p, max).1.Ok? && |c.view| + |p| + 1 <= max {
      GetNodeWithRoom(ns, ctx, c, p, max);
    }
  }

  lemma HoldsPrefixes(ctx: SContext, view: View, p: Path)
    requires p in view && (p != [] ==> Passes(view, ctx, Parent(p)))
    ensures forall k | 0 <= k <= |p| :: p[..k] in view
  {
    forall k | 0 <= k <= |p|
      ensures p[..k] in view
    {
      assert k < |p| ==> p[..k] == Parent(p)[..k];
      assert p[..|p|] == p;
    }
  }

  lemma FoundPasses(ns: NS, ctx: SContext, c: Cache, p: Path)
    requires Find(ns, ctx, c, p).1 == OK
    ensures p != [] ==> Passes(Find(ns, ctx, c, p).0.view, ctx, Parent(p))
  {
    hide Look, SearchUp, Passes;
    if p != [] {
      var c1 := SearchUp(ns, ctx, c, Parent(p)).0;
      SearchUpPasses(ns, ctx, c, Parent(p));
      LookExtends(ns, c1, p);
      PassesKept(c1.view, Look(ns, c1, p).0.view, ctx, Parent(p), p);
    }
  }

  /** A path cached with all its prefixes, all of which let the caller through, is served from the
      cache, whatever the tables say; only the node itself must still be there. */
  lemma ServedFromCache(ns: NS, ctx: SContext, c: Cache, p: Path, max: nat)
    requires p in c.view && (p != [] ==> Passes(c.view, ctx, Parent(p))) && |c.order| <= max && WfCache(c)
    ensures var n := c.view[p].node;
            GetNodeIn(ns, ctx, c, p, max) == (Touch(c, p), if n in ns.meta then Ok(n) else Err(ENOENT))
  {
    hide Fit, Touch, CheckAccess;
    if p != [] {
      PassingSearch(ns, ctx, c, Parent(p));
    }
    LookCached(ns, c, p);
    TouchKeepsWf(c, p);
    FitTurn(Touch(c, p), max);
  }

  lemma {:induction false} PassingSearch(ns: NS, ctx: SContext, c: Cache, p: Path)
    requires Passes(c.view, ctx, p)
    ensures SearchUp(ns, ctx, c, p) == (c, OK)
    decreases |p|
  {
    hide CheckAccess;
    assert p[..|p|] == p;
    LookCached(ns, c, p);
    if p != [] {
      assert forall k | 0 <= k <= |p| - 1 :: Parent(p)[..k] == p[..k];
      PassingSearch(ns, ctx, c, Parent(p));
    }
  }

  /** With the prefixes of p cached and p not, getnode caches p as the entry its parent's directory has. */
  lemma ServedAfterOne(ns: NS, ctx: SContext, c: Cache, p: Path, max: nat)
    requires p !in c.view && (p != [] ==> Parent(p) in c.view && Passes(c.view, ctx, Parent(p)))
    requires WfCache(c) && |c.order| < max && EntryOf(ns, c.view, p).Ok?
    ensures var d := EntryOf(ns, c.view, p).value;
            GetNodeIn(ns, ctx, c, p, max) == (Touch(Add(c, p, d), p), Ok(d.node))
  {
    hide Fit, Touch, CheckAccess, Passes;
    if p != [] {
      PassingSearch(ns, ctx, c, Parent(p));
      LookCached(ns, c, Parent(p));
    }
    LookKeepsWf(ns, c, p);
    TouchKeepsWf(Look(ns, c, p).0, p);
    FitTurn(Touch(Look(ns, c, p).0, p), max);
  }

  lemma OrderSize(c: Cache)
    requires WfCache(c)
    ensures |c.order| == |c.view|
  {
    DistinctSize(c.order);
    assert Elems(c.order) == c.view.Keys;
    assert |c.view.Keys| == |c.view|;
  }

  lemma GetNodeSize(ns: NS, ctx: SContext, c: Cache, p: Path, max: nat)
    ensures |GetNodeIn(ns, ctx, c, p, max).0.view| <= |c.view| + |p| + 1
  {
    hide GetNodeIn;
    GetNodeCaches(ns, ctx, c, p, max);
    PrefixesFew(p);
    var v' := GetNodeIn(ns, ctx, c, p, max).0.view;
    SubsetSize(v'.Keys, c.view.Keys + Prefixes(p));
    assert |v'.Keys| == |v'| && |c.view.Keys| == |c.view|;
  }

  /** The order of use after a path is found: what was cached before keeps its order, new prefixes come after
      it, the path itself comes last; and of these the last max stay. */
  lemma GetNodeOrder(ns: NS, ctx: SContext, c: Cache, p: Path, max: nat) returns (added: seq<Path>)
    requires WfCache(c) && Find(ns, ctx, c, p).1 == OK
    ensures forall q | q in added :: q <= p && q !in c.view
    ensures var order := Erase(c.order + added, p) + [p];
            GetNodeIn(ns, ctx, c, p, max).0.order == if |order| <= max then order else order[|order| - max..]
  {
    hide Find, Fit, WfCache, Touch, Extends, Erase;
    FindExtends(ns, ctx, c, p);
    FindKeepsWf(ns, ctx, c, p);
    var c1 := Find(ns, ctx, c, p).0;
    TouchOrder(c1, p);
    TouchKeepsWf(c1, p);
    FitKeepsNewest(Touch(c1, p), max);
    added := c1.order[|c.order|..];
    assert c1.order == c.order + added;
    AddedAreNew(c, c1, added, p);
  }

  lemma TouchOrder(c: Cache, p: Path)
    ensures Touch(c, p).order == Erase(c.order, p) + [p]
  {
  }

  lemma AddedAreNew(c: Cache, c1: Cache, added: seq<Path>, p: Path)
    requires WfCache(c) && WfCache(c1) && Extends(c.view, c1.view, p) && c1.order == c.order + added
    ensures forall q | q in added :: q <= p && q !in c.view
  {
    forall q | q in added
      ensures q !in c.order && q in c1.order
    {
      var i :| 0 <= i < |added| && added[i] == q;
      assert c1.order[|c.order| + i] == q;
      forall j | 0 <= j < |c.order|
        ensures c.order[j] != q
      {
        assert c1.order[j] == c.order[j];
      }
    }
  }
}
