/** When the contents of the path cache agree with the namespace, and which steps keep it so. */
module Coherence {
  import opened Wrappers
  import opened Modes
  import opened Namespace

  /** What a cache entry remembers about its node. */
  datatype CData = CData(node: Id, meta: Meta)

  type View = map<Path, CData>

  /** The entry is what the path names now; attributes matter for directories only. */
  ghost predicate Right(ns: NS, p: Path, e: CData) {
    Resolve(ns, p) == Some(e.node) &&
    (IsDirNode(ns, e.node) ==> e.meta == ns.meta[e.node])
  }

  /** Some strict prefix of p names nothing and is not cached. */
  ghost predicate CutOff(ns: NS, view: View, p: Path) {
    exists k :: 0 <= k < |p| && Resolve(ns, p[..k]).None? && p[..k] !in view
  }

  /** Every cached entry is right, or cannot be reached through the cache. */
  ghost predicate Coherent(ns: NS, view: View) {
    forall p | p in view :: ValidPath(p) && (Right(ns, p, view[p]) || CutOff(ns, view, p))
  }

  ghost predicate NoneCachedBelow(view: View, p: Path) {
    forall q | q in view :: !StrictlyUnder(q, p)
  }

  /** The length of the shortest prefix of p that names nothing. */
  function FirstFail(ns: NS, p: Path): (k: nat)
    requires Resolve(ns, p).None?
    ensures k <= |p| && Resolve(ns, p[..k]).None?
    ensures forall j | 0 <= j < k :: Resolve(ns, p[..j]).Some?
  {
    assert p[..|p|] == p;
    if p == [] then 0
    else if Resolve(ns, Parent(p)).None? then
      var k := FirstFail(ns, Parent(p));
      assert forall j | 0 <= j <= k :: p[..j] == Parent(p)[..j];
      k
    else
      assert forall j | 0 <= j < |p| :: Resolve(ns, p[..j]).Some? by {
        forall j | 0 <= j < |p|
          ensures Resolve(ns, p[..j]).Some?
        {
          ResolvePrefix(ns, Parent(p), j);
          assert Parent(p)[..j] == p[..j];
        }
      }
      |p|
  }

  /** In a coherent cache the shortest prefix that names nothing is never cached. */
  lemma FirstFailUncached(ns: NS, view: View, p: Path)
    requires Coherent(ns, view) && Resolve(ns, p).None?
    ensures p[..FirstFail(ns, p)] !in view
  {
    var k := FirstFail(ns, p);
    var r := p[..k];
    assert forall j | 0 <= j < k :: r[..j] == p[..j];
  }

  /** A path all of whose prefixes are cached resolves, to the cached node. */
  lemma AllCachedIsRight(ns: NS, view: View, p: Path)
    requires Coherent(ns, view)
    requires p in view && forall k | 0 <= k < |p| :: p[..k] in view
    ensures Right(ns, p, view[p])
  {
    assert p[..|p|] == p;
    if Resolve(ns, p).None? {
      FirstFailUncached(ns, view, p);
    } else {
      RightWhenResolved(ns, view, p);
    }
  }

  /** A cached path that resolves is cached right. */
  lemma RightWhenResolved(ns: NS, view: View, p: Path)
    requires Coherent(ns, view) && p in view && Resolve(ns, p).Some?
    ensures Right(ns, p, view[p])
  {
    if CutOff(ns, view, p) {
      var j :| 0 <= j < |p| && Resolve(ns, p[..j]).None? && p[..j] !in view;
      ResolvePrefix(ns, p, j);
    }
  }

  /** Dropping entries keeps the cache coherent. */
  lemma ShrinkKeepsCoherent(ns: NS, view: View, view': View)
    requires Coherent(ns, view)
    requires view'.Keys <= view.Keys && forall p | p in view' :: view'[p] == view[p]
    ensures Coherent(ns, view')
  {
    forall p | p in view'
      ensures ValidPath(p) && (Right(ns, p, view'[p]) || CutOff(ns, view', p))
    {
      if CutOff(ns, view, p) {
        var k :| 0 <= k < |p| && Resolve(ns, p[..k]).None? && p[..k] !in view;
        assert p[..k] !in view';
      }
    }
  }

  /** What initEntry may store for p: the root, or the entry the cached parent has under p's last token. */
  ghost predicate Derived(ns: NS, view: View, p: Path, e: CData) {
    && (if p == [] then 0 in ns.meta && e.node == 0
        else Parent(p) in view && Child(ns, view[Parent(p)].node, Leaf(p)) == Some(e.node))
    && e.node in ns.meta && e.meta == ns.meta[e.node]
  }

  lemma DerivedUnresolved(ns: NS, view: View, p: Path, e: CData)
    requires Coherent(ns, view) && Derived(ns, view, p, e) && Resolve(ns, p).None?
    ensures CutOff(ns, view, p) && FirstFail(ns, p) < |p|
  {
    FirstFailUncached(ns, view, p);
    var k := FirstFail(ns, p);
    if k == |p| {
      assert Resolve(ns, p[..|p| - 1]).Some?;
      RightWhenResolved(ns, view, Parent(p));
      assert false;
    }
  }

  /** Entries initialised from their cached parent keep the cache coherent, stale parents included. */
  lemma ExtendKeepsCoherent(ns: NS, view: View, p: Path, e: CData)
    requires Coherent(ns, view) && Derived(ns, view, p, e) && ValidPath(p)
    ensures Coherent(ns, view[p := e])
  {
    var view' := view[p := e];
    if Resolve(ns, p).Some? {
      if p != [] {
        RightWhenResolved(ns, view, Parent(p));
      }
      assert Right(ns, p, e);
    } else {
      DerivedUnresolved(ns, view, p, e);
      var k := FirstFail(ns, p);
      FirstFailUncached(ns, view, p);
      assert p[..k] !in view';
      assert CutOff(ns, view', p);
    }
    forall q | q in view && q != p
      ensures Right(ns, q, view'[q]) || CutOff(ns, view', q)
    {
      if Resolve(ns, q).Some? {
        RightWhenResolved(ns, view, q);
      } else {
        var j := FirstFail(ns, q);
        FirstFailUncached(ns, view, q);
        assert j < |q| by { assert q[..|q|] == q; }
        if q[..j] == p {
          DerivedUnresolved(ns, view, p, e);
          FirstFailPrefix(ns, q, j);
          assert false;
        }
        assert CutOff(ns, view', q);
      }
    }
  }

  lemma FirstFailPrefix(ns: NS, q: Path, j: nat)
    requires Resolve(ns, q).None? && j == FirstFail(ns, q)
    ensures FirstFail(ns, q[..j]) == j
  {
    var r := q[..j];
    assert forall k | 0 <= k < j :: r[..k] == q[..k];
  }
}
