/** Mode words, callers and the permission tests of Node::access and
    PathCache_hash::checkAccess. */
module Modes {
  type Mode = bv32

  const S_IFMT: Mode := 0xF000
  const S_IFDIR: Mode := 0x4000
  const S_IFREG: Mode := 0x8000
  const S_IFLNK: Mode := 0xA000
  const S_ISUID: Mode := 0x800
  const S_ISGID: Mode := 0x400
  const S_ISVTX: Mode := 0x200
  const S_IXUSR: Mode := 0x40
  const S_IXGRP: Mode := 0x8
  const S_IXOTH: Mode := 0x1

  const W_OK: Mode := 2
  const X_OK: Mode := 1

  /** The caller of an operation: its user and primary group, and every group it belongs to. */
  datatype SContext = SContext(uid: nat, gid: nat, groups: set<nat>)

  /** The attributes of a node that decide permissions; the file type is part of the mode. */
  datatype Meta = Meta(mode: Mode, uid: nat, gid: nat)

  predicate IsDir(m: Mode) {
    m & S_IFMT == S_IFDIR
  }

  /** The three permission bits that apply to the caller. */
  function PermBits(ctx: SContext, m: Meta): Mode {
    if ctx.uid == m.uid then (m.mode >> 6) & 7
    else if m.gid in ctx.groups then (m.mode >> 3) & 7
    else m.mode & 7
  }

  /** Node::access: every wanted bit is granted; user 0 is never refused. */
  predicate Access(ctx: SContext, m: Meta, want: Mode) {
    ctx.uid == 0 || want & !PermBits(ctx, m) == 0
  }

  /** PathCache_hash::checkAccess: tests the one search bit of the caller's class in place. */
  predicate CheckAccess(ctx: SContext, m: Meta) {
    ctx.uid == 0 ||
    (if m.uid == ctx.uid then m.mode & S_IXUSR != 0
     else if m.gid in ctx.groups then m.mode & S_IXGRP != 0
     else m.mode & S_IXOTH != 0)
  }

  /** The cache tests exactly the search permission the uncached walk asks for. */
  lemma CheckAccessIsSearchAccess(ctx: SContext, m: Meta)
    ensures CheckAccess(ctx, m) <==> Access(ctx, m, X_OK)
  {
    SearchBit(m.mode);
  }

  lemma SearchBit(mode: Mode)
    ensures X_OK & !((mode >> 6) & 7) == 0 <==> mode & S_IXUSR != 0
    ensures X_OK & !((mode >> 3) & 7) == 0 <==> mode & S_IXGRP != 0
    ensures X_OK & !(mode & 7) == 0 <==> mode & S_IXOTH != 0
  {
  }

  /** FS::check_sticky_bit: in a sticky directory only root, its owner and the node's owner may unlink. */
  predicate StickyOk(ctx: SContext, parent: Meta, n: Meta) {
    parent.mode & S_ISVTX == 0 || ctx.uid == 0 || ctx.uid == parent.uid || ctx.uid == n.uid
  }

  /** The bit of the caller's class in a mode word: the owner's, else the group's, else everybody's; for
      user 0 there is no need of any. */
  predicate Grants(ctx: SContext, m: Meta, owner: Mode, group: Mode, others: Mode) {
    ctx.uid == 0 ||
    (if ctx.uid == m.uid then m.mode & owner != 0
     else if m.gid in ctx.groups then m.mode & group != 0
     else m.mode & others != 0)
  }

  predicate MayWrite(ctx: SContext, m: Meta) {
    Grants(ctx, m, 0x80, 0x10, 0x2)
  }

  predicate MaySearch(ctx: SContext, m: Meta) {
    Grants(ctx, m, 0x40, 0x8, 0x1)
  }

  /** What it takes to add or take away names in a directory. */
  predicate MayChange(ctx: SContext, m: Meta) {
    MayWrite(ctx, m) && MaySearch(ctx, m)
  }

  /** Node::access on the bits themselves. */
  lemma AccessIsBits(ctx: SContext, m: Meta)
    ensures Access(ctx, m, X_OK) <==> MaySearch(ctx, m)
    ensures Access(ctx, m, W_OK) <==> MayWrite(ctx, m)
    ensures Access(ctx, m, W_OK | X_OK) <==> MayChange(ctx, m)
    ensures Access(ctx, m, X_OK | W_OK) <==> MayChange(ctx, m)
  {
    WriteAndSearchBits(m.mode);
  }

  lemma WriteAndSearchBits(mode: Mode)
    ensures X_OK & !((mode >> 6) & 7) == 0 <==> mode & 0x40 != 0
    ensures X_OK & !((mode >> 3) & 7) == 0 <==> mode & 0x8 != 0
    ensures X_OK & !(mode & 7) == 0 <==> mode & 0x1 != 0
    ensures W_OK & !((mode >> 6) & 7) == 0 <==> mode & 0x80 != 0
    ensures W_OK & !((mode >> 3) & 7) == 0 <==> mode & 0x10 != 0
    ensures W_OK & !(mode & 7) == 0 <==> mode & 0x2 != 0
    ensures (W_OK | X_OK) & !((mode >> 6) & 7) == 0 <==> mode & 0x80 != 0 && mode & 0x40 != 0
    ensures (W_OK | X_OK) & !((mode >> 3) & 7) == 0 <==> mode & 0x10 != 0 && mode & 0x8 != 0
    ensures (W_OK | X_OK) & !(mode & 7) == 0 <==> mode & 0x2 != 0 && mode & 0x1 != 0
    ensures X_OK | W_OK == W_OK | X_OK
  {
  }

  /** In a directory with the sticky bit, everyone is refused but user 0, its owner and the node's. */
  predicate StickyRefuses(ctx: SContext, parent: Meta, n: Meta) {
    parent.mode & 0x200 != 0 && ctx.uid !in {0, parent.uid, n.uid}
  }

  lemma StickyIsBit(ctx: SContext, parent: Meta, n: Meta)
    ensures StickyOk(ctx, parent, n) <==> !StickyRefuses(ctx, parent, n)
  {
  }

  /** The file type is in the four bits above the permissions, and 4 is a directory's. */
  predicate DirType(m: Mode) {
    m & 0xF000 == 0x4000
  }

  lemma IsDirIsType(m: Mode)
    ensures IsDir(m) <==> DirType(m)
  {
  }

  /** The mode chmod writes: the new permission bits below the old type bits. */
  function ChmodMode(mode: Mode, current: Mode): (r: Mode)
    ensures r & 0xF000 == current & 0xF000 && r & !0xF000 == mode & !0xF000
    ensures IsDir(r) <==> IsDir(current)
  {
    (mode & !S_IFMT) | (current & S_IFMT)
  }

  /** The mode chown leaves when an unprivileged owner changes the group. */
  function ChownMode(m: Mode): (r: Mode)
    ensures r & S_IFMT == m & S_IFMT
    ensures IsDir(r) <==> IsDir(m)
  {
    if m & S_IFREG != 0 then
      var m1 := m & !S_ISUID;
      if m1 & S_IXGRP != 0 then m1 & !S_ISGID else m1
    else m
  }

  /** The set-user-id bit goes, and the set-group-id bit of what its group may execute, from a mode with the
      highest type bit, as files and symbolic links have it; all other bits stay. */
  lemma ChownModeBits(m: Mode)
    ensures ChownMode(m) == if m & 0x8000 == 0 then m else if m & 0x8 == 0 then m & 0xFFFFF7FF else m & 0xFFFFF3FF
  {
    ClearedUserBit(m);
    ClearedBothBits(m);
  }

  lemma ClearedUserBit(m: Mode)
    ensures m & !S_ISUID == m & 0xFFFFF7FF && m & !S_ISUID & S_IXGRP == m & 0x8
  {
  }

  lemma ClearedBothBits(m: Mode)
    ensures m & !S_ISUID & !S_ISGID == m & 0xFFFFF3FF
  {
  }
}
