/** How far an edit of the tables reaches: which paths keep their meaning and which
    directories keep their way to the root. */
module Frames {
  import opened Wrappers
  import opened Namespace
  import opened Tree

  /** Outside the keys in edited, every named entry of the old tree leads where it led. */
  ghost predicate SameElsewhere(ns: NS, ns': NS, edited: set<Key>) {
    && (0 in ns.meta <==> 0 in ns'.meta)
    && forall d, x: Name {:trigger Child(ns', d, x)} {:trigger Child(ns, d, x)} |
         d in ns.meta && x.Word? && Key(d, x) !in edited ::
         Child(ns', d, x) == Child(ns, d, x)
  }

  /** The key k is looked up on the way along q. */
  ghost predicate Meets(ns: NS, q: Path, k: Key) {
    exists i :: 0 <= i < |q| && Resolve(ns, q[..i]) == Some(k.dir) && q[i] == k.name
  }

  lemma MeetsParent(ns: NS, q: Path, k: Key)
    requires q != [] && Meets(ns, Parent(q), k)
    ensures Meets(ns, q, k)
  {
    var r := Parent(q);
    var i :| 0 <= i < |r| && Resolve(ns, r[..i]) == Some(k.dir) && r[i] == k.name;
    assert q[..i] == r[..i];
  }

  /** A path that meets no edited key keeps its meaning. */
  lemma {:induction false} SamePath(ns: NS, ns': NS, edited: set<Key>, q: Path)
    requires SameElsewhere(ns, ns', edited) && ValidPath(q)
    requires forall k | k in edited :: !Meets(ns, q, k)
    ensures Resolve(ns', q) == Resolve(ns, q)
    decreases |q|
  {
    if q != [] {
      var r := Parent(q);
      forall k | k in edited
        ensures !Meets(ns, r, k)
      {
        if Meets(ns, r, k) {
          MeetsParent(ns, q, k);
        }
      }
      SamePath(ns, ns', edited, r);
      ResolveLive(ns, r);
      if Resolve(ns, r).Some? {
        var d := Resolve(ns, r).value;
        assert q[..|r|] == r;
        assert Meets(ns, q, Key(d, Leaf(q)));
      }
    }
  }

  /** A path that meets the entry of p goes through p. */
  lemma MeetsIsUnder(ns: NS, p: Path, q: Path)
    requires Inv(ns) && ValidPath(p) && ValidPath(q) && p != []
    requires Resolve(ns, Parent(p)).Some? && IsDirNode(ns, Resolve(ns, Parent(p)).value)
    requires Meets(ns, q, Key(Resolve(ns, Parent(p)).value, Leaf(p)))
    ensures Under(q, p)
  {
    hide Inv, Resolve;
    var d := Resolve(ns, Parent(p)).value;
    var i :| 0 <= i < |q| && Resolve(ns, q[..i]) == Some(d) && q[i] == Leaf(p);
    DirPathUnique(ns, q[..i], Parent(p));
    assert q[..i + 1] == q[..i] + [q[i]] == Parent(p) + [Leaf(p)] == p;
  }

  /** Editing the one entry of p touches nothing outside p. */
  lemma OneEntryEdit(ns: NS, ns': NS, p: Path, q: Path)
    requires Inv(ns) && ValidPath(p) && ValidPath(q) && p != []
    requires Resolve(ns, Parent(p)).Some? && IsDirNode(ns, Resolve(ns, Parent(p)).value)
    requires SameElsewhere(ns, ns', {Key(Resolve(ns, Parent(p)).value, Leaf(p))})
    requires !Under(q, p)
    ensures Resolve(ns', q) == Resolve(ns, q)
  {
    var k := Key(Resolve(ns, Parent(p)).value, Leaf(p));
    if Meets(ns, q, k) {
      MeetsIsUnder(ns, p, q);
    }
    SamePath(ns, ns', {k}, q);
  }

  /** The way up from a directory that never meets a directory in moved is kept. */
  lemma {:induction false} SameWayUp(ns: NS, ns': NS, moved: set<Id>, d: Id, n: nat)
    requires DotsOk(ns) && IsDirNode(ns, d)
    requires forall e {:trigger Up(ns', e)} | IsDirNode(ns, e) && e !in moved :: Up(ns', e) == Up(ns, e)
    requires forall s | s in moved :: !Below(ns, d, s)
    ensures UpN(ns', d, n) == UpN(ns, d, n)
    decreases n
  {
    if n > 0 {
      if d in moved {
        BelowSelf(ns, d);
      }
      forall s | s in moved
        ensures !Below(ns, Up(ns, d), s)
      {
        BelowSelf(ns, d);
        BelowStep(ns, d, s);
      }
      SameWayUp(ns, ns', moved, Up(ns, d), n - 1);
    }
  }

  lemma KeepsReachingRoot(ns: NS, ns': NS, moved: set<Id>, d: Id)
    requires DotsOk(ns) && IsDirNode(ns, d) && ReachesRoot(ns, d)
    requires forall e {:trigger Up(ns', e)} | IsDirNode(ns, e) && e !in moved :: Up(ns', e) == Up(ns, e)
    requires forall s | s in moved :: !Below(ns, d, s)
    ensures ReachesRoot(ns', d)
  {
    var n: nat :| UpN(ns, d, n) == 0;
    SameWayUp(ns, ns', moved, d, n);
  }

  /** A directory with no entries of its own has no other directory below it. */
  lemma {:induction false} NothingBelowEmpty(ns: NS, d: Id, c: Id, n: nat)
    requires Inv(ns) && IsDirNode(ns, d) && d != c && c != 0
    requires forall k | k in ns.dirs && k.dir == c :: !Named(k)
    ensures UpN(ns, d, n) != c
    decreases n
  {
    if n > 0 {
      if d == 0 {
        NothingBelowEmpty(ns, 0, c, n - 1);
      } else {
        assert Listed(ns, d);
        var k :| SubdirEntry(ns, k) && ns.dirs[k] == d;
        assert Up(ns, d) == k.dir;
        NothingBelowEmpty(ns, Up(ns, d), c, n - 1);
      }
    }
  }
}
