/** The namespace as a state machine: requests, what each does, and what every run keeps. */
module Runs {
  import opened Wrappers
  import opened Modes
  import opened Namespace
  import opened Tree
  import opened Ops
  import opened Shape
  import opened Moves
  import opened Effects
  import opened Steps

  datatype Op =
    | GetAttr(p: Path)
    | MkDir(p: Path, mode: Mode)
    | MkNod(p: Path, mode: Mode)
    | SymLink(p: Path)
    | UnLink(p: Path)
    | RmDir(p: Path)
    | ReName(p: Path, q: Path)
    | HardLink(p: Path, q: Path)
    | ChMod(p: Path, mode: Mode)
    | ChOwn(p: Path, owner: nat, group: nat)

  datatype Request = Request(ctx: SContext, op: Op)

  function DirMeta(ctx: SContext, mode: Mode): Meta {
    Meta(S_IFDIR | mode, ctx.uid, ctx.gid)
  }

  /** The tables and the outcome after a request, with uncached path walks. */
  ghost function Apply(ns: NS, r: Request): Effect {
    match r.op
    case GetAttr(p) => Effect(ns, if Walk(ns, r.ctx, p).Ok? then Done else LookupFails)
    case MkDir(p, mode) => Create(ns, r.ctx, p, DirMeta(r.ctx, mode))
    case MkNod(p, mode) => Create(ns, r.ctx, p, Meta(mode, r.ctx.uid, r.ctx.gid))
    case SymLink(p) => Create(ns, r.ctx, p, Meta(S_IFLNK, r.ctx.uid, r.ctx.gid))
    case UnLink(p) => Unlink(ns, r.ctx, p)
    case RmDir(p) => Rmdir(ns, r.ctx, p)
    case ReName(p, q) => Rename(ns, r.ctx, p, q)
    case HardLink(p, q) => Link(ns, r.ctx, p, q)
    case ChMod(p, mode) => Chmod(ns, r.ctx, p, mode)
    case ChOwn(p, owner, group) => Chown(ns, r.ctx, p, owner, group)
  }

  /** What the kernel side of FUSE guarantees of a request by itself. */
  predicate WellFormed(op: Op) {
    match op
    case GetAttr(p) => ValidPath(p)
    case MkDir(p, mode) => ValidPath(p) && p != [] && IsDir(S_IFDIR | mode)
    case MkNod(p, mode) => ValidPath(p) && p != [] && !IsDir(mode)
    case SymLink(p) => ValidPath(p) && p != []
    case UnLink(p) => ValidPath(p)
    case RmDir(p) => ValidPath(p)
    case ReName(p, q) => ValidPath(p) && ValidPath(q) && q != []
    case HardLink(p, q) => ValidPath(p) && ValidPath(q) && q != []
    case ChMod(p, _) => ValidPath(p)
    case ChOwn(p, _, _) => ValidPath(p)
  }

  /** And of its paths: no free new name below the old one, no link to a directory. */
  predicate Admissible(ns: NS, op: Op) {
    WellFormed(op) &&
    match op
    case ReName(p, q) => Resolve(ns, q).None? ==> !StrictlyUnder(q, p)
    case HardLink(p, q) => Resolve(ns, p).Some? ==> !IsDirNode(ns, Resolve(ns, p).value)
    case _ => true
  }

  /** The tables FsDb::rebuild leaves: the root directory alone. */
  function Rebuilt(uid: nat, gid: nat): NS {
    NS(map[0 := Meta(S_IFDIR | 0x1ED, uid, gid)], map[Key(0, Dot) := 0, Key(0, DotDot) := 0])
  }

  lemma RebuiltInv(uid: nat, gid: nat)
    ensures Inv(Rebuilt(uid, gid)) && Resolve(Rebuilt(uid, gid), []) == Some(0)
    ensures Rebuilt(uid, gid).meta == map[0 := Meta(0x41ED, uid, gid)]
  {
    var ns := Rebuilt(uid, gid);
    assert ns.dirs[Key(0, Dot)] == 0;
    assert UpN(ns, 0, 0) == 0;
    assert ReachesRoot(ns, 0);
    assert Referenced(ns.dirs, 0);
    assert forall d | IsDirNode(ns, d) :: d == 0;
  }

  lemma Located(ns: NS, ctx: SContext, p: Path)
    requires ValidPath(p) && LocateDir(ns, ctx, p).Some? && p != []
    ensures HoldsLeaf(ns, p, LocateDir(ns, ctx, p).value)
  {
    WalkResolves(ns, ctx, Parent(p));
  }

  /** The walk along ".." answers whether the new name lies in the subtree to be moved. */
  lemma WalkDecidesSubtree(ns: NS, p: Path, q: Path, sp: Id, src: Id, dp: Id)
    requires Inv(ns) && HoldsLeaf(ns, p, sp) && HoldsLeaf(ns, q, dp)
    requires Child(ns, sp, Leaf(p)) == Some(src) && IsDirNode(ns, src)
    ensures Below(ns, dp, src) <==> StrictlyUnder(q, p)
  {
    ResolveHeld(ns, p, sp);
    BelowIsPrefix(ns, Parent(q), p);
    assert Under(Parent(q), p) <==> StrictlyUnder(q, p);
  }

  lemma KeysDiffer(ns: NS, p: Path, q: Path, sp: Id, dp: Id)
    requires Inv(ns) && HoldsLeaf(ns, p, sp) && HoldsLeaf(ns, q, dp) && p != q
    ensures Key(sp, Leaf(p)) != Key(dp, Leaf(q))
  {
    assert p == Parent(p) + [Leaf(p)] && q == Parent(q) + [Leaf(q)];
    if Key(sp, Leaf(p)) == Key(dp, Leaf(q)) {
      DirPathUnique(ns, Parent(p), Parent(q));
    }
  }

  /** When rename gets as far as writing, the move is one the tree admits. */
  lemma RenameMayMove(ns: NS, ctx: SContext, p: Path, q: Path, sp: Id, src: Id, dp: Id, dst: Option<Id>)
    requires Inv(ns) && HoldsLeaf(ns, p, sp) && HoldsLeaf(ns, q, dp)
    requires Child(ns, sp, Leaf(p)) == Some(src) && Child(ns, dp, Leaf(q)) == dst
    requires p != q
    requires dst.Some? ==> ReplaceCheck(ns, ctx, src, dp, dst.value) == OK
    requires dst.None? ==> !StrictlyUnder(q, p)
    ensures MayMove(ns, sp, Leaf(p), src, dp, Leaf(q), dst)
  {
    hide Inv;
    KeysDiffer(ns, p, q, sp, dp);
    if IsDirNode(ns, src) && dst.None? {
      WalkDecidesSubtree(ns, p, q, sp, src, dp);
    }
    CheckedMayMove(ns, ctx, sp, Leaf(p), src, dp, Leaf(q), dst);
  }

  ghost predicate CreateParts(ns: NS, ns': NS, p: Path, d: Id, n: Id, m: Meta) {
    HoldsLeaf(ns, p, d) && Key(d, Leaf(p)) !in ns.dirs && n !in ns.meta && ns' == AddAt(ns, d, Leaf(p), n, m)
  }

  lemma CreateStep(ns: NS, ctx: SContext, p: Path, m: Meta)
    requires Inv(ns) && IdsLeft(ns) && ValidPath(p) && p != []
    ensures Inv(Create(ns, ctx, p, m).ns)
    ensures Create(ns, ctx, p, m).out != Done ==> Create(ns, ctx, p, m).ns == ns
    ensures Create(ns, ctx, p, m).out == Done ==>
              exists d, n :: CreateParts(ns, Create(ns, ctx, p, m).ns, p, d, n, m)
  {
    if Create(ns, ctx, p, m).out == Done {
      Located(ns, ctx, p);
      NextIdFresh(ns);
      var d := LocateDir(ns, ctx, p).value;
      AddKeepsInv(ns, d, Leaf(p), NextId(ns.meta.Keys), m);
      assert CreateParts(ns, Create(ns, ctx, p, m).ns, p, d, NextId(ns.meta.Keys), m);
    }
  }

  lemma UnlinkStep(ns: NS, ctx: SContext, p: Path)
    requires Inv(ns) && ValidPath(p)
    ensures Inv(Unlink(ns, ctx, p).ns)
    ensures Unlink(ns, ctx, p).out != Done ==> Unlink(ns, ctx, p).ns == ns
  {
    if Unlink(ns, ctx, p).out == Done {
      UnlinkFromStep(ns, ctx, LocateDir(ns, ctx, p).value, Leaf(p));
    }
  }

  lemma RmdirStep(ns: NS, ctx: SContext, p: Path)
    requires Inv(ns) && ValidPath(p)
    ensures Inv(Rmdir(ns, ctx, p).ns)
    ensures Rmdir(ns, ctx, p).out != Done ==> Rmdir(ns, ctx, p).ns == ns
  {
    if Rmdir(ns, ctx, p).out == Done {
      RmdirFromStep(ns, ctx, LocateDir(ns, ctx, p).value, Leaf(p));
    }
  }

  lemma LinkStep(ns: NS, ctx: SContext, p: Path, q: Path)
    requires Inv(ns) && Admissible(ns, HardLink(p, q))
    ensures Inv(Link(ns, ctx, p, q).ns)
    ensures Link(ns, ctx, p, q).out != Done ==> Link(ns, ctx, p, q).ns == ns
  {
    if Link(ns, ctx, p, q).out == Done {
      Located(ns, ctx, q);
      WalkResolves(ns, ctx, p);
      LinkKeepsInv(ns, LocateDir(ns, ctx, q).value, Leaf(q), Walk(ns, ctx, p).value);
    }
  }

  lemma RenameStep(ns: NS, ctx: SContext, p: Path, q: Path)
    requires Inv(ns) && Admissible(ns, ReName(p, q))
    ensures Inv(Rename(ns, ctx, p, q).ns)
    ensures Rename(ns, ctx, p, q).out != Done ==> Rename(ns, ctx, p, q).ns == ns
    ensures Rename(ns, ctx, p, q).out == Done && p != q ==> SubtreeMoved(ns, Rename(ns, ctx, p, q).ns, p, q)
    ensures Rename(ns, ctx, p, q).out == Done && p == q ==> Rename(ns, ctx, p, q).ns == ns
  {
    var lp, lq := LocateDir(ns, ctx, p), LocateDir(ns, ctx, q);
    if lp.Some? && lq.Some? && MoveCheck(ns, ctx, p == q, lp.value, Leaf(p), lq.value, Leaf(q)) == OK {
      hide Inv, RenameAt, SubtreeMoved, MayMove;
      var sp, dp := lp.value, lq.value;
      RenameIsMove(ns, ctx, p, q, sp, dp);
      if p != q {
        var src, dst := Child(ns, sp, Leaf(p)).value, Child(ns, dp, Leaf(q));
        MoveKeepsInv(ns, sp, Leaf(p), src, dp, Leaf(q), dst);
        MoveMovesOneSubtree(ns, p, q, sp, src, dp, dst);
      }
    }
  }

  /** On directories the uncached walk opened, a rename that passes the checks is a move, or of one
      path to itself. */
  lemma RenameIsMove(ns: NS, ctx: SContext, p: Path, q: Path, sp: Id, dp: Id)
    requires Inv(ns) && Admissible(ns, ReName(p, q))
    requires LocateDir(ns, ctx, p) == Some(sp) && LocateDir(ns, ctx, q) == Some(dp)
    requires MoveCheck(ns, ctx, p == q, sp, Leaf(p), dp, Leaf(q)) == OK
    ensures HoldsLeaf(ns, p, sp) && HoldsLeaf(ns, q, dp)
    ensures p != q ==>
              var src, dst := Child(ns, sp, Leaf(p)).value, Child(ns, dp, Leaf(q));
              && MayMove(ns, sp, Leaf(p), src, dp, Leaf(q), dst) && Key(sp, Leaf(p)) != Key(dp, Leaf(q))
              && RenameBetween(ns, ctx, false, sp, Leaf(p), dp, Leaf(q))
                 == Effect(RenameAt(ns, sp, Leaf(p), src, dp, Leaf(q), dst), Done)
    ensures p == q ==> Child(ns, dp, Leaf(q)).Some?
  {
    EmptyNameMissing(ns, sp);
    Located(ns, ctx, p);
    Located(ns, ctx, q);
    ResolveHeld(ns, q, dp);
    if p != q {
      KeysDiffer(ns, p, q, sp, dp);
      RenameMayMove(ns, ctx, p, q, sp, Child(ns, sp, Leaf(p)).value, dp, Child(ns, dp, Leaf(q)));
    }
  }

  lemma ChmodStep(ns: NS, ctx: SContext, p: Path, mode: Mode)
    requires Inv(ns)
    ensures Inv(Chmod(ns, ctx, p, mode).ns)
    ensures Chmod(ns, ctx, p, mode).out != Done ==> Chmod(ns, ctx, p, mode).ns == ns
  {
    if Chmod(ns, ctx, p, mode).out == Done {
      var n := Walk(ns, ctx, p).value;
      SetMetaKeepsInv(ns, n, Chmod(ns, ctx, p, mode).ns.meta[n]);
    }
  }

  lemma ChownStep(ns: NS, ctx: SContext, p: Path, owner: nat, group: nat)
    requires Inv(ns)
    ensures Inv(Chown(ns, ctx, p, owner, group).ns)
    ensures Chown(ns, ctx, p, owner, group).out != Done ==> Chown(ns, ctx, p, owner, group).ns == ns
  {
    if Chown(ns, ctx, p, owner, group).out == Done {
      var n := Walk(ns, ctx, p).value;
      SetMetaKeepsInv(ns, n, Chown(ns, ctx, p, owner, group).ns.meta[n]);
    }
  }

  /** Every request keeps the tree shape, and a request that fails changes nothing. */
  lemma StepKeepsInv(ns: NS, r: Request)
    requires Inv(ns) && IdsLeft(ns) && Admissible(ns, r.op)
    ensures Inv(Apply(ns, r).ns)
    ensures Apply(ns, r).out != Done ==> Apply(ns, r).ns == ns
  {
    match r.op
    case GetAttr(p) =>
    case MkDir(p, mode) => CreateStep(ns, r.ctx, p, DirMeta(r.ctx, mode));
    case MkNod(p, mode) => CreateStep(ns, r.ctx, p, Meta(mode, r.ctx.uid, r.ctx.gid));
    case SymLink(p) => CreateStep(ns, r.ctx, p, Meta(S_IFLNK, r.ctx.uid, r.ctx.gid));
    case UnLink(p) => UnlinkStep(ns, r.ctx, p);
    case RmDir(p) => RmdirStep(ns, r.ctx, p);
    case ReName(p, q) => RenameStep(ns, r.ctx, p, q);
    case HardLink(p, q) => LinkStep(ns, r.ctx, p, q);
    case ChMod(p, mode) => ChmodStep(ns, r.ctx, p, mode);
    case ChOwn(p, owner, group) => ChownStep(ns, r.ctx, p, owner, group);
  }

  /** The tables after a run of requests. */
  ghost function Run(ns: NS, rs: seq<Request>): NS {
    if rs == [] then ns else Apply(Run(ns, rs[..|rs| - 1]), rs[|rs| - 1]).ns
  }

  /** Every request of the run is admissible where it is served, and ids do not run out. */
  ghost predicate AdmissibleRun(ns: NS, rs: seq<Request>) {
    forall i | 0 <= i < |rs| :: IdsLeft(Run(ns, rs[..i])) && Admissible(Run(ns, rs[..i]), rs[i].op)
  }

  /** The tree shape holds after every run from a rebuilt file system. */
  lemma {:induction false} RunKeepsInv(ns: NS, rs: seq<Request>)
    requires Inv(ns) && AdmissibleRun(ns, rs)
    ensures Inv(Run(ns, rs))
    decreases |rs|
  {
    hide Inv, Apply, Admissible, IdsLeft;
    if rs != [] {
      var n := |rs| - 1;
      assert forall i | 0 <= i < n :: rs[..n][..i] == rs[..i];
      RunKeepsInv(ns, rs[..n]);
      StepKeepsInv(Run(ns, rs[..n]), rs[n]);
    }
  }
}
