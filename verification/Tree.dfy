/** The shape every reachable namespace has, and what it gives: directories have one path,
    following ".." ends at the root, and every live node is reachable. */
module Tree {
  import opened Wrappers
  import opened Namespace

  /** The directory an entry ".." leads to. */
  function Up(ns: NS, d: Id): Id {
    if Key(d, DotDot) in ns.dirs then ns.dirs[Key(d, DotDot)] else 0
  }

  function UpN(ns: NS, d: Id, n: nat): Id
    decreases n
  {
    if n == 0 then d else UpN(ns, Up(ns, d), n - 1)
  }

  ghost predicate ReachesRoot(ns: NS, d: Id) {
    exists n: nat :: UpN(ns, d, n) == 0
  }

  /** s is d or one of the directories met by following ".." from d. */
  ghost predicate Below(ns: NS, d: Id, s: Id) {
    exists n: nat :: UpN(ns, d, n) == s
  }

  /** No entry dangles, every entry sits in a directory, and "." and ".." lead where they should. */
  ghost predicate EntriesOk(ns: NS) {
    forall k | k in ns.dirs ::
      && IsDirNode(ns, k.dir)
      && ns.dirs[k] in ns.meta
      && k.name != EMPTY_NAME
      && (k.name == Dot ==> ns.dirs[k] == k.dir)
  }

  ghost predicate DotsOk(ns: NS) {
    && (forall d {:trigger Key(d, Dot)} | IsDirNode(ns, d) :: Key(d, Dot) in ns.dirs)
    && (forall d {:trigger Key(d, DotDot)} | IsDirNode(ns, d) :: Key(d, DotDot) in ns.dirs)
    && (forall d {:trigger Up(ns, d)} | IsDirNode(ns, d) :: IsDirNode(ns, Up(ns, d)))
  }

  /** The directory k.dir lists the subdirectory ns.dirs[k] under the name k.name. */
  predicate SubdirEntry(ns: NS, k: Key) {
    k in ns.dirs && Named(k) && IsDirNode(ns, ns.dirs[k])
  }

  /** A directory is listed only by the directory its ".." names, and never the root. */
  ghost predicate ListedByParent(ns: NS) {
    forall k | SubdirEntry(ns, k) :: ns.dirs[k] != 0 && Up(ns, ns.dirs[k]) == k.dir
  }

  ghost predicate ListedOnce(ns: NS) {
    forall k, l | SubdirEntry(ns, k) && SubdirEntry(ns, l) && ns.dirs[k] == ns.dirs[l] :: k == l
  }

  ghost predicate Listed(ns: NS, d: Id) {
    exists k :: SubdirEntry(ns, k) && ns.dirs[k] == d
  }

  ghost predicate EachListed(ns: NS) {
    forall d {:trigger Listed(ns, d)} | IsDirNode(ns, d) && d != 0 :: Listed(ns, d)
  }

  ghost predicate EachReferenced(ns: NS) {
    forall n {:trigger Referenced(ns.dirs, n)} | n in ns.meta :: Referenced(ns.dirs, n)
  }

  ghost predicate RootOk(ns: NS) {
    IsDirNode(ns, 0) && Up(ns, 0) == 0
  }

  ghost predicate Acyclic(ns: NS) {
    forall d {:trigger ReachesRoot(ns, d)} | IsDirNode(ns, d) :: ReachesRoot(ns, d)
  }

  ghost predicate Inv(ns: NS) {
    && RootOk(ns) && EntriesOk(ns) && DotsOk(ns)
    && ListedByParent(ns) && ListedOnce(ns) && EachListed(ns)
    && EachReferenced(ns) && Acyclic(ns)
  }

  /** A directory has one path. */
  lemma {:induction false} DirPathUnique(ns: NS, p: Path, q: Path)
    requires Inv(ns) && ValidPath(p) && ValidPath(q)
    requires Resolve(ns, p).Some? && Resolve(ns, p) == Resolve(ns, q)
    requires IsDirNode(ns, Resolve(ns, p).value)
    ensures p == q
    decreases |p|
  {
    var d := Resolve(ns, p).value;
    if p == [] && q == [] {
    } else if p == [] {
      var k := Key(Resolve(ns, Parent(q)).value, Leaf(q));
      assert SubdirEntry(ns, k);
    } else if q == [] {
      var k := Key(Resolve(ns, Parent(p)).value, Leaf(p));
      assert SubdirEntry(ns, k);
    } else {
      var k := Key(Resolve(ns, Parent(p)).value, Leaf(p));
      var l := Key(Resolve(ns, Parent(q)).value, Leaf(q));
      assert SubdirEntry(ns, k) && SubdirEntry(ns, l);
      DirPathUnique(ns, Parent(p), Parent(q));
      assert p == Parent(p) + [Leaf(p)] && q == Parent(q) + [Leaf(q)];
    }
  }

  lemma ResolveParent(ns: NS, p: Path)
    requires p != [] && Resolve(ns, p).Some?
    ensures Resolve(ns, Parent(p)).Some? && IsDirNode(ns, Resolve(ns, Parent(p)).value)
    ensures Key(Resolve(ns, Parent(p)).value, Leaf(p)) in ns.dirs
    ensures ns.dirs[Key(Resolve(ns, Parent(p)).value, Leaf(p))] == Resolve(ns, p).value
  {
  }

  lemma ResolveExtend(ns: NS, p: Path, x: Name)
    ensures Resolve(ns, p + [x]) == if Resolve(ns, p).None? then None else Child(ns, Resolve(ns, p).value, x)
  {
    assert Parent(p + [x]) == p;
  }

  /** Every directory from which ".." leads to the root has a path. */
  lemma {:induction false} DirHasPath(ns: NS, d: Id, n: nat) returns (p: Path)
    requires Inv(ns) && IsDirNode(ns, d) && UpN(ns, d, n) == 0
    ensures ValidPath(p) && Resolve(ns, p) == Some(d)
    decreases n
  {
    if d == 0 {
      p := [];
    } else {
      assert Listed(ns, d);
      var k :| SubdirEntry(ns, k) && ns.dirs[k] == d;
      var q := DirHasPath(ns, k.dir, n - 1);
      ResolveExtend(ns, q, k.name);
      p := q + [k.name];
    }
  }

  ghost predicate Reachable(ns: NS, n: Id) {
    exists p :: ValidPath(p) && Resolve(ns, p) == Some(n)
  }

  /** Every live node has a path from the root. */
  lemma EveryNodeReachable(ns: NS, n: Id)
    requires Inv(ns) && n in ns.meta
    ensures Reachable(ns, n)
  {
    if IsDirNode(ns, n) {
      assert ReachesRoot(ns, n);
      var m: nat :| UpN(ns, n, m) == 0;
      var p := DirHasPath(ns, n, m);
    } else {
      assert Referenced(ns.dirs, n);
      var k :| k in ns.dirs && ns.dirs[k] == n;
      assert ReachesRoot(ns, k.dir);
      var m: nat :| UpN(ns, k.dir, m) == 0;
      var q := DirHasPath(ns, k.dir, m);
      ResolveExtend(ns, q, k.name);
      assert ValidPath(q + [k.name]);
    }
  }

  lemma {:induction false} UpNRoot(ns: NS, n: nat)
    requires RootOk(ns)
    ensures UpN(ns, 0, n) == 0
    decreases n
  {
    if n > 0 {
      UpNRoot(ns, n - 1);
    }
  }

  /** One step up from a directory other than s keeps the question whether it lies below s. */
  lemma BelowStep(ns: NS, d: Id, s: Id)
    requires d != s
    ensures Below(ns, d, s) <==> Below(ns, Up(ns, d), s)
  {
    if Below(ns, d, s) {
      var n: nat :| UpN(ns, d, n) == s;
      assert UpN(ns, Up(ns, d), n - 1) == s;
    }
    if Below(ns, Up(ns, d), s) {
      var n: nat :| UpN(ns, Up(ns, d), n) == s;
      assert UpN(ns, d, n + 1) == s;
    }
  }

  lemma BelowSelf(ns: NS, s: Id)
    ensures Below(ns, s, s)
  {
    assert UpN(ns, s, 0) == s;
  }

  lemma RootBelow(ns: NS, s: Id)
    requires RootOk(ns)
    ensures Below(ns, 0, s) <==> s == 0
  {
    BelowSelf(ns, 0);
    if Below(ns, 0, s) {
      var n: nat :| UpN(ns, 0, n) == s;
      UpNRoot(ns, n);
    }
  }

  /** Following ".." from p's directory goes through the directories of p's prefixes. */
  lemma {:induction false} BelowIsPrefix(ns: NS, p: Path, q: Path)
    requires Inv(ns) && ValidPath(p) && ValidPath(q)
    requires Resolve(ns, p).Some? && IsDirNode(ns, Resolve(ns, p).value)
    requires Resolve(ns, q).Some? && IsDirNode(ns, Resolve(ns, q).value)
    ensures Below(ns, Resolve(ns, p).value, Resolve(ns, q).value) <==> Under(p, q)
    decreases |p|
  {
    var d, s := Resolve(ns, p).value, Resolve(ns, q).value;
    if d == s {
      BelowSelf(ns, d);
      DirPathUnique(ns, p, q);
    } else if p == [] {
      RootBelow(ns, s);
    } else {
      ResolveParent(ns, p);
      assert SubdirEntry(ns, Key(Resolve(ns, Parent(p)).value, Leaf(p)));
      BelowStep(ns, d, s);
      BelowIsPrefix(ns, Parent(p), q);
      assert Under(p, q) && p != q ==> Under(Parent(p), q);
      assert Under(Parent(p), q) ==> Under(p, q);
    }
  }
}
