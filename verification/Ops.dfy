/** What each namespace operation of fs.cxx does to the tables, stated on the tables before and
    after it, with the order in which its checks are made: first once its directories are open, by
    whichever path cache, then with the uncached walk opening them. */
module Ops {
  import opened Wrappers
  import opened Modes
  import opened Namespace
  import opened Tree

  const ID_LIMIT: nat := 0x1_0000_0000_0000_0000

  /** How an operation ends. A path that cannot be walked may be reported as any of
      ENOENT, ENOTDIR and EACCES: the two path caches notice different obstacles first. */
  datatype Outcome = Done | Fails(e: Errno) | LookupFails

  datatype Effect = Effect(ns: NS, out: Outcome)

  predicate Matches(e: Errno, out: Outcome) {
    match out
    case Done => e == OK
    case Fails(f) => e == f
    case LookupFails => e in {ENOENT, ENOTDIR, EACCES}
  }

  ghost function MaxId(ids: set<Id>): (m: Id)
    requires ids != {}
    ensures m in ids && forall i | i in ids :: i <= m
  {
    var x :| x in ids;
    if ids == {x} then x
    else
      var m := MaxId(ids - {x});
      assert forall i | i in ids :: i == x || i in ids - {x};
      if m < x then x else m
  }

  /** The id createregister hands out: one past the last id in use. */
  ghost function NextId(ids: set<Id>): Id {
    if ids == {} then 0 else (MaxId(ids) + 1) % ID_LIMIT
  }

  /** No live id is the last one there is. */
  ghost predicate IdsLeft(ns: NS) {
    forall n | n in ns.meta :: n + 1 < ID_LIMIT
  }

  lemma NextIdFresh(ns: NS)
    requires IdsLeft(ns)
    ensures NextId(ns.meta.Keys) !in ns.meta
    ensures forall n | n in ns.meta :: n < NextId(ns.meta.Keys)
    ensures NextId(ns.meta.Keys) == 0 || NextId(ns.meta.Keys) - 1 in ns.meta
  {
  }

  /** The directory that holds, or would hold, the last token of p. */
  function LocateDir(ns: NS, ctx: SContext, p: Path): Option<Id> {
    match Walk(ns, ctx, Parent(p))
    case Ok(d) => if IsDirNode(ns, d) then Some(d) else None
    case Err(_) => None
  }

  /** A node nothing refers to any more is removed. */
  ghost function Drop(ns: NS, c: Id): NS {
    if Referenced(ns.dirs, c) then ns else NS(ns.meta - {c}, ns.dirs)
  }

  predicate HasEntries(ns: NS, d: Id) {
    exists k :: k in ns.dirs && k.dir == d && Named(k)
  }

  function AddAt(ns: NS, d: Id, x: Name, n: Id, m: Meta): NS {
    NS(ns.meta[n := m],
       if IsDir(m.mode) then ns.dirs[Key(d, x) := n][Key(n, Dot) := n][Key(n, DotDot) := d]
       else ns.dirs[Key(d, x) := n])
  }

  /** Path::create with the attributes mknod, mkdir or symlink then set. */
  ghost function CreateUnder(ns: NS, ctx: SContext, d: Id, x: Name, m: Meta): Effect
    requires d in ns.meta
  {
    if !Access(ctx, ns.meta[d], W_OK | X_OK) then Effect(ns, Fails(EACCES))
    else if Key(d, x) in ns.dirs then Effect(ns, Fails(EEXIST))
    else Effect(AddAt(ns, d, x, NextId(ns.meta.Keys), m), Done)
  }

  ghost function Create(ns: NS, ctx: SContext, p: Path, m: Meta): Effect {
    match LocateDir(ns, ctx, p)
    case None => Effect(ns, LookupFails)
    case Some(d) => CreateUnder(ns, ctx, d, Leaf(p), m)
  }

  ghost function UnlinkAt(ns: NS, d: Id, x: Name, c: Id): NS {
    Drop(NS(ns.meta, ns.dirs - {Key(d, x)}), c)
  }

  ghost function UnlinkFrom(ns: NS, ctx: SContext, d: Id, x: Name): Effect
    requires d in ns.meta
  {
    if !Access(ctx, ns.meta[d], W_OK | X_OK) then Effect(ns, Fails(EACCES))
    else match Child(ns, d, x)
         case None => Effect(ns, Fails(ENOENT))
         case Some(c) =>
           if !StickyOk(ctx, ns.meta[d], ns.meta[c]) then Effect(ns, Fails(EACCES))
           else if IsDir(ns.meta[c].mode) then Effect(ns, Fails(EISDIR))
           else Effect(UnlinkAt(ns, d, x, c), Done)
  }

  ghost function Unlink(ns: NS, ctx: SContext, p: Path): Effect {
    match LocateDir(ns, ctx, p)
    case None => Effect(ns, LookupFails)
    case Some(d) => UnlinkFrom(ns, ctx, d, Leaf(p))
  }

  ghost function RmdirAt(ns: NS, d: Id, x: Name, c: Id): NS {
    NS(ns.meta - {c}, ns.dirs - {Key(c, Dot), Key(c, DotDot), Key(d, x)})
  }

  ghost function RmdirFrom(ns: NS, ctx: SContext, d: Id, x: Name): Effect
    requires d in ns.meta
  {
    if !Access(ctx, ns.meta[d], X_OK | W_OK) then Effect(ns, Fails(EACCES))
    else match Child(ns, d, x)
         case None => Effect(ns, Fails(ENOENT))
         case Some(c) =>
           if !IsDir(ns.meta[c].mode) then Effect(ns, Fails(ENOTDIR))
           else if !StickyOk(ctx, ns.meta[d], ns.meta[c]) then Effect(ns, Fails(EACCES))
           else if HasEntries(ns, c) then Effect(ns, Fails(ENOTEMPTY))
           else Effect(RmdirAt(ns, d, x, c), Done)
  }

  ghost function Rmdir(ns: NS, ctx: SContext, p: Path): Effect {
    match LocateDir(ns, ctx, p)
    case None => Effect(ns, LookupFails)
    case Some(d) => RmdirFrom(ns, ctx, d, Leaf(p))
  }

  function LinkAt(ns: NS, d: Id, x: Name, n: Id): NS {
    NS(ns.meta, ns.dirs[Key(d, x) := n])
  }

  /** addchild of a node under a further name. */
  function LinkUnder(ns: NS, d: Id, x: Name, n: Id): Effect {
    if Key(d, x) in ns.dirs then Effect(ns, Fails(EEXIST)) else Effect(LinkAt(ns, d, x, n), Done)
  }

  ghost function Link(ns: NS, ctx: SContext, p: Path, q: Path): Effect {
    match LocateDir(ns, ctx, q)
    case None => Effect(ns, LookupFails)
    case Some(d) =>
      if !Access(ctx, ns.meta[d], W_OK) then Effect(ns, Fails(EACCES))
      else match Walk(ns, ctx, p)
           case Err(_) => Effect(ns, LookupFails)
           case Ok(n) => LinkUnder(ns, d, Leaf(q), n)
  }

  /** The entries that go with the node a rename replaces. */
  function ReplacedKeys(ns: NS, src: Id, dp: Id, dl: Name, dst: Option<Id>): set<Key> {
    if dst.None? then {}
    else if IsDirNode(ns, src) then {Key(dst.value, Dot), Key(dst.value, DotDot), Key(dp, dl)}
    else {Key(dp, dl)}
  }

  function MovedDirs(ns: NS, sp: Id, sl: Name, src: Id, dp: Id, dl: Name, dst: Option<Id>): map<Key, Id> {
    var kept := ns.dirs - ReplacedKeys(ns, src, dp, dl, dst) - {Key(sp, sl)};
    if IsDirNode(ns, src) then kept[Key(dp, dl) := src][Key(src, DotDot) := dp]
    else kept[Key(dp, dl) := src]
  }

  ghost function RenameAt(ns: NS, sp: Id, sl: Name, src: Id, dp: Id, dl: Name, dst: Option<Id>): NS {
    var moved := NS(ns.meta, MovedDirs(ns, sp, sl, src, dp, dl, dst));
    if dst.Some? then Drop(moved, dst.value) else moved
  }

  /** The checks rename makes on the node it would replace. */
  ghost function ReplaceCheck(ns: NS, ctx: SContext, src: Id, dp: Id, dst: Id): Errno
    requires src in ns.meta && dp in ns.meta && dst in ns.meta
  {
    if !StickyOk(ctx, ns.meta[dp], ns.meta[dst]) then EACCES
    else if IsDir(ns.meta[src].mode) then
      if !IsDir(ns.meta[dst].mode) then ENOTDIR
      else if Below(ns, dp, src) then EINVAL
      else if HasEntries(ns, dst) then ENOTEMPTY
      else OK
    else if IsDir(ns.meta[dst].mode) then EISDIR
    else OK
  }

  /** The checks of rename once both parents are open; same says that both paths are one string. */
  ghost function MoveCheck(ns: NS, ctx: SContext, same: bool, sp: Id, sl: Name, dp: Id, dl: Name): Errno
    requires sp in ns.meta && dp in ns.meta
  {
    match Child(ns, sp, sl)
    case None => ENOENT
    case Some(src) =>
      var dst := Child(ns, dp, dl);
      if dst.Some? && same then OK
      else if !Access(ctx, ns.meta[sp], X_OK | W_OK) || !Access(ctx, ns.meta[dp], X_OK | W_OK) then EACCES
      else if !StickyOk(ctx, ns.meta[sp], ns.meta[src]) then EACCES
      else if dst.Some? then ReplaceCheck(ns, ctx, src, dp, dst.value)
      else OK
  }

  /** rename when different strings led to one entry: replacing the target takes the source away. A
      node that is gone then makes the next getattr throw; a file with other links only loses this one. */
  ghost function RenameOntoItself(ns: NS, d: Id, x: Name, src: Id): Effect {
    if IsDirNode(ns, src) then Effect(RmdirAt(ns, d, x, src), Fails(EIO))
    else
      var ns' := UnlinkAt(ns, d, x, src);
      Effect(ns', if src in ns'.meta then Done else Fails(EIO))
  }

  ghost function RenameBetween(ns: NS, ctx: SContext, same: bool, sp: Id, sl: Name, dp: Id, dl: Name): Effect
    requires sp in ns.meta && dp in ns.meta
  {
    var e := MoveCheck(ns, ctx, same, sp, sl, dp, dl);
    if e != OK then Effect(ns, Fails(e))
    else
      var src, dst := Child(ns, sp, sl).value, Child(ns, dp, dl);
      if dst.Some? && same then Effect(ns, Done)
      else if Key(sp, sl) == Key(dp, dl) then RenameOntoItself(ns, dp, dl, src)
      else Effect(RenameAt(ns, sp, sl, src, dp, dl, dst), Done)
  }

  ghost function Rename(ns: NS, ctx: SContext, p: Path, q: Path): Effect {
    match (LocateDir(ns, ctx, p), LocateDir(ns, ctx, q))
    case (Some(sp), Some(dp)) => RenameBetween(ns, ctx, p == q, sp, Leaf(p), dp, Leaf(q))
    case (_, _) => Effect(ns, LookupFails)
  }

  function SetMeta(ns: NS, n: Id, m: Meta): NS {
    NS(ns.meta[n := m], ns.dirs)
  }

  function ChmodNode(ns: NS, ctx: SContext, n: Id, mode: Mode): Effect
    requires n in ns.meta
  {
    var m := ns.meta[n];
    if ctx.uid != 0 && ctx.uid != m.uid then Effect(ns, Fails(EPERM))
    else
      var wanted := if ctx.uid != 0 && m.gid !in ctx.groups then mode & !S_ISGID else mode;
      Effect(SetMeta(ns, n, m.(mode := ChmodMode(wanted, m.mode))), Done)
  }

  function Chmod(ns: NS, ctx: SContext, p: Path, mode: Mode): Effect {
    match Walk(ns, ctx, p)
    case Err(_) => Effect(ns, LookupFails)
    case Ok(n) => ChmodNode(ns, ctx, n, mode)
  }

  const NO_ID: nat := 0xFFFF_FFFF

  /** chown is for root, but for a user who gives a node of his own to another of his groups. */
  predicate MayChown(ctx: SContext, m: Meta, owner: nat, group: nat) {
    ctx.uid == 0 ||
    ((owner == NO_ID || owner == m.uid) &&
     (group == NO_ID || group == m.gid || (ctx.uid == m.uid && group in ctx.groups)))
  }

  function ChownMeta(ctx: SContext, m: Meta, owner: nat, group: nat): (r: Meta)
    ensures IsDir(r.mode) == IsDir(m.mode)
  {
    Meta(if ctx.uid != 0 && group != NO_ID && group != m.gid then ChownMode(m.mode) else m.mode,
         if owner != NO_ID then owner else m.uid,
         if group != NO_ID then group else m.gid)
  }

  function ChownNode(ns: NS, ctx: SContext, n: Id, owner: nat, group: nat): Effect
    requires n in ns.meta
  {
    if !MayChown(ctx, ns.meta[n], owner, group) then Effect(ns, Fails(EPERM))
    else Effect(SetMeta(ns, n, ChownMeta(ctx, ns.meta[n], owner, group)), Done)
  }

  function Chown(ns: NS, ctx: SContext, p: Path, owner: nat, group: nat): Effect {
    match Walk(ns, ctx, p)
    case Err(_) => Effect(ns, LookupFails)
    case Ok(n) => ChownNode(ns, ctx, n, owner, group)
  }
}
