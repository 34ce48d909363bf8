/** The database of nodes and directories with its stored link counts: the methods of Node,
    Directory and FsDb, each a few writes to the two tables. */
module FsDbs {
  import opened Wrappers
  import opened Modes
  import opened Namespace
  import opened Tree
  import opened Ops
  import opened Runs
  import opened Seqs

  const UINT32: nat := 0x1_0000_0000
  const INT32_MAX: nat := 0x7FFF_FFFF

  /** The attributes of a stored node, its 32-bit link count included. */
  datatype Rec = Rec(meta: Meta, nlink: nat)

  /** The value of an unsigned 32-bit word read as a signed one. */
  function AsInt32(x: nat): int {
    if x % UINT32 <= INT32_MAX then x % UINT32 else x % UINT32 - UINT32
  }

  ghost function Refs(dirs: map<Key, Id>, c: Id): set<Key> {
    set k | k in dirs && dirs[k] == c
  }

  /** The number of entries, "." and ".." included, that lead to c. */
  ghost function RefCount(dirs: map<Key, Id>, c: Id): nat {
    |Refs(dirs, c)|
  }

  lemma RefCountAdd(dirs: map<Key, Id>, k: Key, c: Id, e: Id)
    requires k !in dirs
    ensures RefCount(dirs[k := c], e) == RefCount(dirs, e) + if e == c then 1 else 0
  {
    if e == c {
      assert Refs(dirs[k := c], e) == Refs(dirs, e) + {k};
    } else {
      assert Refs(dirs[k := c], e) == Refs(dirs, e);
    }
  }

  lemma RefCountDel(dirs: map<Key, Id>, k: Key, e: Id)
    requires k in dirs
    ensures RefCount(dirs - {k}, e) == RefCount(dirs, e) - if e == dirs[k] then 1 else 0
  {
    if e == dirs[k] {
      assert Refs(dirs - {k}, e) == Refs(dirs, e) - {k};
    } else {
      assert Refs(dirs - {k}, e) == Refs(dirs, e);
    }
  }

  lemma RefCountZero(dirs: map<Key, Id>, c: Id)
    ensures RefCount(dirs, c) == 0 <==> !Referenced(dirs, c)
  {
    if Referenced(dirs, c) {
      var k :| k in dirs && dirs[k] == c;
      assert k in Refs(dirs, c);
    } else {
      assert Refs(dirs, c) == {};
    }
  }

  lemma RefCountBound(dirs: map<Key, Id>, c: Id)
    ensures RefCount(dirs, c) <= |dirs|
  {
    SubsetSize(Refs(dirs, c), dirs.Keys);
    assert |dirs.Keys| == |dirs|;
  }

  function Without(dirs: map<Key, Id>, c: Id): map<Key, Id> {
    map k | k in dirs && k.dir != c :: dirs[k]
  }

  /** Node::remove, and Directory::remove for a directory, which clears its register too. */
  function RemoveNode(ns: NS, c: Id): NS {
    NS(ns.meta - {c}, if IsDirNode(ns, c) then Without(ns.dirs, c) else ns.dirs)
  }

  /** Node::unlink's decision. */
  predicate UnlinkRemoves(nlink: nat) {
    AsInt32((nlink + UINT32 - 1) % UINT32) <= 0
  }

  /** The link count decides removal rightly up to 2^31 links; beyond that a node with entries
      left would be removed. */
  lemma UnlinkRemovesIff(nlink: nat)
    requires nlink < UINT32
    ensures UnlinkRemoves(nlink) <==> nlink <= 1 || nlink > INT32_MAX + 1
  {
  }

  /** The two tables as a value. */
  datatype Tables = Tables(nodes: map<Id, Rec>, dirs: map<Key, Id>)

  /** The tables without the link counts. */
  function ViewOf(t: Tables): NS {
    NS(map n | n in t.nodes :: t.nodes[n].meta, t.dirs)
  }

  ghost predicate Counted(t: Tables) {
    forall n | n in t.nodes :: t.nodes[n].nlink == RefCount(t.dirs, n)
  }

  /** Every stored link count is the number of entries that lead to the node; no entry dangles;
      the counts fit their words. */
  ghost predicate Sound(t: Tables) {
    && Counted(t)
    && (forall k | k in t.dirs :: t.dirs[k] in t.nodes)
    && |t.dirs| <= INT32_MAX
  }

  function LinkT(t: Tables, n: Id): Tables
    requires n in t.nodes
  {
    t.(nodes := t.nodes[n := t.nodes[n].(nlink := (t.nodes[n].nlink + 1) % UINT32)])
  }

  function RemoveT(t: Tables, n: Id): Tables {
    Tables(t.nodes - {n},
           if n in t.nodes && IsDir(t.nodes[n].meta.mode) then Without(t.dirs, n) else t.dirs)
  }

  function UnlinkT(t: Tables, n: Id): Tables
    requires n in t.nodes
  {
    if UnlinkRemoves(t.nodes[n].nlink) then RemoveT(t, n)
    else t.(nodes := t.nodes[n := t.nodes[n].(nlink := t.nodes[n].nlink - 1)])
  }

  ghost predicate OwnsEntries(ns: NS, c: Id) {
    IsDirNode(ns, c) && exists k :: k in ns.dirs && k.dir == c
  }

  function DelKey(ns: NS, k: Key): NS {
    NS(ns.meta, ns.dirs - {k})
  }

  /** An entry goes, and its node with its last entry. */
  ghost function DelAt(ns: NS, k: Key): NS
    requires k in ns.dirs
  {
    if Referenced(ns.dirs - {k}, ns.dirs[k]) then DelKey(ns, k) else RemoveNode(DelKey(ns, k), ns.dirs[k])
  }

  /** Deleting the entry k takes no directory away that still has entries of its own. */
  ghost predicate DelIsClean(ns: NS, k: Key)
    requires k in ns.dirs
  {
    Referenced(ns.dirs - {k}, ns.dirs[k]) || !OwnsEntries(DelKey(ns, k), ns.dirs[k])
  }

  /** A node no entry leads to goes; others stay. */
  ghost function DropNew(ns: NS, c: Id): NS {
    if Referenced(ns.dirs, c) then ns else RemoveNode(ns, c)
  }

  lemma RemoveView(t: Tables, n: Id)
    ensures ViewOf(RemoveT(t, n)) == RemoveNode(ViewOf(t), n)
  {
    assert ViewOf(RemoveT(t, n)).meta == RemoveNode(ViewOf(t), n).meta;
  }

  lemma WithoutSame(dirs: map<Key, Id>, c: Id)
    requires forall k | k in dirs :: k.dir != c
    ensures Without(dirs, c) == dirs
  {
  }

  /** Counting one link for one new entry keeps every count right. */
  lemma AddKeepsSound(t: Tables, k: Key, c: Id)
    requires Sound(t) && c in t.nodes && k !in t.dirs && |t.dirs| < INT32_MAX
    ensures Sound(LinkT(t, c).(dirs := t.dirs[k := c]))
    ensures ViewOf(LinkT(t, c).(dirs := t.dirs[k := c])) == NS(ViewOf(t).meta, t.dirs[k := c])
  {
    hide RefCount;
    var t' := LinkT(t, c).(dirs := t.dirs[k := c]);
    RefCountBound(t.dirs, c);
    forall n | n in t'.nodes
      ensures t'.nodes[n].nlink == RefCount(t'.dirs, n)
    {
      RefCountAdd(t.dirs, k, c, n);
    }
    assert ViewOf(t').meta == ViewOf(t).meta;
  }

  /** A link taken back leaves the node as it was, or removes it when nothing led to it. */
  lemma LinkUnlink(t: Tables, c: Id)
    requires Sound(t) && c in t.nodes
    ensures Referenced(t.dirs, c) ==> UnlinkT(LinkT(t, c), c) == t
    ensures !Referenced(t.dirs, c) ==> UnlinkT(LinkT(t, c), c) == RemoveT(t, c)
    ensures ViewOf(UnlinkT(LinkT(t, c), c)) == DropNew(ViewOf(t), c)
  {
    RefCountBound(t.dirs, c);
    RefCountZero(t.dirs, c);
    RemoveView(t, c);
    assert t.nodes[c].nlink == RefCount(t.dirs, c);
    hide LinkT, UnlinkT, RemoveT, Sound, Referenced, RefCount;
    if Referenced(t.dirs, c) {
      LinkUnlinkLive(t, c);
    } else {
      LinkUnlinkFree(t, c);
    }
  }

  lemma LinkUnlinkLive(t: Tables, c: Id)
    requires c in t.nodes && 0 < t.nodes[c].nlink <= INT32_MAX
    ensures UnlinkT(LinkT(t, c), c) == t
  {
    assert UnlinkT(LinkT(t, c), c).nodes == t.nodes;
  }

  lemma LinkUnlinkFree(t: Tables, c: Id)
    requires c in t.nodes && t.nodes[c].nlink == 0
    ensures UnlinkT(LinkT(t, c), c) == RemoveT(t, c)
  {
    assert UnlinkT(LinkT(t, c), c).nodes == t.nodes - {c};
  }

  lemma RemoveKeepsSound(t: Tables, c: Id)
    requires Sound(t) && !Referenced(t.dirs, c) && !OwnsEntries(ViewOf(t), c)
    ensures Sound(RemoveT(t, c))
  {
    if c in t.nodes && IsDir(t.nodes[c].meta.mode) {
      assert IsDirNode(ViewOf(t), c);
      WithoutSame(t.dirs, c);
    }
  }

  /** Giving up one link for one entry less keeps every count right, and removes the node with its
      last entry. */
  lemma DelKeepsSound(t: Tables, k: Key)
    requires Sound(t) && k in t.dirs
    ensures var c := t.dirs[k]; var t' := UnlinkT(t.(dirs := t.dirs - {k}), c);
            && ViewOf(t') == DelAt(ViewOf(t), k)
            && (DelIsClean(ViewOf(t), k) ==> Sound(t'))
  {
    hide Sound, RefCount, OwnsEntries, RemoveT, RemoveNode, ViewOf;
    var c := t.dirs[k];
    var t1 := t.(dirs := t.dirs - {k});
    DelDecides(t, k);
    ViewIsDirs(t);
    if Referenced(t1.dirs, c) {
      DelOneSound(t, k);
    } else {
      LastLinkRemoves(t1, c);
      DelKeyView(t, k);
      RemoveView(t1, c);
      if !OwnsEntries(DelKey(ViewOf(t), k), c) {
        DelLastSound(t, k);
      }
    }
  }

  lemma ViewIsDirs(t: Tables)
    ensures ViewOf(t).dirs == t.dirs
  {
  }

  lemma DelKeyView(t: Tables, k: Key)
    ensures ViewOf(t.(dirs := t.dirs - {k})) == DelKey(ViewOf(t), k)
  {
  }

  lemma LastLinkRemoves(t: Tables, c: Id)
    requires c in t.nodes && t.nodes[c].nlink == 1
    ensures UnlinkT(t, c) == RemoveT(t, c)
  {
  }

  /** The stored count tells whether an entry is the last one. */
  lemma DelDecides(t: Tables, k: Key)
    requires Sound(t) && k in t.dirs
    ensures var c := t.dirs[k];
            c in t.nodes && t.nodes[c].nlink >= 1 && (t.nodes[c].nlink > 1 <==> Referenced(t.dirs - {k}, c))
  {
    hide RefCount;
    var c := t.dirs[k];
    RefCountDel(t.dirs, k, c);
    RefCountZero(t.dirs - {k}, c);
  }

  lemma DelOneSound(t: Tables, k: Key)
    requires Sound(t) && k in t.dirs && t.nodes[t.dirs[k]].nlink > 1
    ensures var c := t.dirs[k]; var t' := UnlinkT(t.(dirs := t.dirs - {k}), c);
            Sound(t') && ViewOf(t') == DelKey(ViewOf(t), k)
  {
    var c := t.dirs[k];
    RefCountBound(t.dirs, c);
    var t' := UnlinkT(t.(dirs := t.dirs - {k}), c);
    forall n | n in t'.nodes
      ensures t'.nodes[n].nlink == RefCount(t'.dirs, n)
    {
      RefCountDel(t.dirs, k, n);
    }
    assert ViewOf(t').meta == ViewOf(t).meta;
  }

  lemma DelLastSound(t: Tables, k: Key)
    requires Sound(t) && k in t.dirs && !Referenced(t.dirs - {k}, t.dirs[k])
    requires !OwnsEntries(DelKey(ViewOf(t), k), t.dirs[k])
    ensures Sound(RemoveT(t.(dirs := t.dirs - {k}), t.dirs[k]))
  {
    var c := t.dirs[k];
    var t' := RemoveT(t.(dirs := t.dirs - {k}), c);
    assert t'.dirs == t.dirs - {k} by {
      if c in t.nodes && IsDir(t.nodes[c].meta.mode) {
        assert IsDirNode(DelKey(ViewOf(t), k), c);
        WithoutSame(t.dirs - {k}, c);
      }
    }
    forall n | n in t'.nodes
      ensures t'.nodes[n].nlink == RefCount(t'.dirs, n)
    {
      RefCountDel(t.dirs, k, n);
    }
    forall l | l in t'.dirs
      ensures t'.dirs[l] in t'.nodes
    {
      assert Referenced(t'.dirs, t'.dirs[l]);
    }
  }

  /** A node that is just made, with no entry leading to it but its own. */
  ghost predicate OnlyOwn(dirs: map<Key, Id>, n: Id) {
    forall k | k in dirs :: k.dir == n <==> dirs[k] == n
  }

  lemma WithoutCounts(dirs: map<Key, Id>, n: Id, e: Id)
    requires OnlyOwn(dirs, n) && e != n
    ensures RefCount(Without(dirs, n), e) == RefCount(dirs, e)
  {
    assert Refs(Without(dirs, n), e) == Refs(dirs, e);
  }

  /** Undoing a creation keeps every other count right. */
  lemma RemoveOwnKeepsSound(t: Tables, n: Id)
    requires Sound(t) && OnlyOwn(t.dirs, n) && (n in t.nodes ==> IsDir(t.nodes[n].meta.mode))
    requires n in t.nodes
    ensures Sound(RemoveT(t, n))
  {
    var t' := RemoveT(t, n);
    forall e | e in t'.nodes
      ensures t'.nodes[e].nlink == RefCount(t'.dirs, e)
    {
      WithoutCounts(t.dirs, n, e);
    }
    WithoutSize(t.dirs, n);
  }

  lemma WithoutSize(dirs: map<Key, Id>, n: Id)
    ensures |Without(dirs, n)| <= |dirs|
  {
    SubsetSize(Without(dirs, n).Keys, dirs.Keys);
    assert |Without(dirs, n).Keys| == |Without(dirs, n)| && |dirs.Keys| == |dirs|;
  }

  /** A node record without links, made for an id nothing leads to. */
  ghost function Made(t: Tables, n: Id, m: Meta): Tables {
    t.(nodes := t.nodes[n := Rec(m, 0)])
  }

  lemma MakeKeepsSound(t: Tables, n: Id, m: Meta)
    requires Sound(t) && !Referenced(t.dirs, n)
    ensures Sound(Made(t, n, m)) && ViewOf(Made(t, n, m)) == NS(ViewOf(t).meta[n := m], t.dirs)
  {
    RefCountZero(t.dirs, n);
    assert ViewOf(Made(t, n, m)).meta == ViewOf(t).meta[n := m];
  }

  function MetaSet(t: Tables, n: Id, m: Meta): Tables
    requires n in t.nodes
  {
    t.(nodes := t.nodes[n := t.nodes[n].(meta := m)])
  }

  lemma SetMetaKeepsSound(t: Tables, n: Id, m: Meta)
    requires Sound(t) && n in t.nodes
    ensures Sound(MetaSet(t, n, m)) && ViewOf(MetaSet(t, n, m)) == SetMeta(ViewOf(t), n, m)
  {
    assert ViewOf(MetaSet(t, n, m)).meta == ViewOf(t).meta[n := m];
  }

  /** The entries countattrs counts in the register of d. */
  ghost function NamesIn(dirs: map<Key, Id>, d: Id): set<Key> {
    set k | k in dirs && k.dir == d && k.name != EMPTY_NAME
  }

  /** A directory counts more than two entries exactly when it has a named one. */
  lemma CountDecidesEmpty(ns: NS, d: Id)
    requires EntriesOk(ns) && DotsOk(ns) && IsDirNode(ns, d)
    ensures |NamesIn(ns.dirs, d)| > 2 <==> HasEntries(ns, d)
  {
    var own := {Key(d, Dot), Key(d, DotDot)};
    assert own <= NamesIn(ns.dirs, d);
    if HasEntries(ns, d) {
      var k :| k in ns.dirs && k.dir == d && Named(k);
      assert |own + {k}| == 3;
      SubsetSize(own + {k}, NamesIn(ns.dirs, d));
    } else {
      forall k | k in NamesIn(ns.dirs, d)
        ensures k in own
      {
        assert !Named(k);
      }
      assert NamesIn(ns.dirs, d) == own;
    }
  }

  /** The subdirectories a directory lists. */
  ghost function Subdirs(ns: NS, d: Id): set<Id> {
    set c | c in ns.meta && IsDir(ns.meta[c].mode) && c != 0 && Up(ns, c) == d
  }

  ghost function UpKeys(cs: set<Id>): set<Key> {
    set c | c in cs :: Key(c, DotDot)
  }

  lemma UpKeysSize(cs: set<Id>)
    ensures |UpKeys(cs)| == |cs|
  {
    if cs != {} {
      var c :| c in cs;
      UpKeysSize(cs - {c});
      assert UpKeys(cs) == UpKeys(cs - {c}) + {Key(c, DotDot)};
    }
  }

  lemma SubdirsLead(ns: NS, d: Id)
    requires DotsOk(ns)
    ensures UpKeys(Subdirs(ns, d)) <= Refs(ns.dirs, d)
  {
    forall c | c in Subdirs(ns, d)
      ensures Key(c, DotDot) in Refs(ns.dirs, d)
    {
      assert IsDirNode(ns, c);
      assert Key(c, DotDot) in ns.dirs;
    }
  }

  lemma SizeOfParts<T>(a: T, b: T, s: set<T>)
    requires a != b && a !in s && b !in s
    ensures |{a, b} + s| == 2 + |s|
  {
    assert {a, b} + s == ({a} + s) + {b};
  }

  /** In a tree every directory is led to by its own ".", by its listing (for the root, by its own
      ".."), and by the ".." of each subdirectory: its link count is 2 plus their number. */
  lemma DirectoryCount(ns: NS, d: Id)
    requires Inv(ns) && IsDirNode(ns, d)
    ensures RefCount(ns.dirs, d) == 2 + |Subdirs(ns, d)|
  {
    var listing := ListingKey(ns, d);
    SubdirsLead(ns, d);
    forall k | k in Refs(ns.dirs, d)
      ensures k in {Key(d, Dot), listing} + UpKeys(Subdirs(ns, d))
    {
      LeadsTo(ns, d, k, listing);
    }
    assert Key(d, Dot) in ns.dirs;
    ListingApart(ns, d, listing);
    UpKeysSize(Subdirs(ns, d));
    SizeOfParts(Key(d, Dot), listing, UpKeys(Subdirs(ns, d)));
    assert Refs(ns.dirs, d) == {Key(d, Dot), listing} + UpKeys(Subdirs(ns, d));
  }

  lemma ListingApart(ns: NS, d: Id, listing: Key)
    requires if d == 0 then listing == Key(0, DotDot) else Named(listing)
    ensures listing !in UpKeys(Subdirs(ns, d)) && Key(d, Dot) !in UpKeys(Subdirs(ns, d))
    ensures listing != Key(d, Dot)
  {
  }

  lemma ListingKey(ns: NS, d: Id) returns (k: Key)
    requires Inv(ns) && IsDirNode(ns, d)
    ensures k in ns.dirs && ns.dirs[k] == d
    ensures if d == 0 then k == Key(0, DotDot) else SubdirEntry(ns, k)
  {
    if d == 0 {
      k := Key(0, DotDot);
    } else {
      assert Listed(ns, d);
      k :| SubdirEntry(ns, k) && ns.dirs[k] == d;
    }
  }

  lemma LeadsTo(ns: NS, d: Id, k: Key, listing: Key)
    requires Inv(ns) && IsDirNode(ns, d) && k in ns.dirs && ns.dirs[k] == d
    requires listing in ns.dirs && ns.dirs[listing] == d
    requires if d == 0 then listing == Key(0, DotDot) else SubdirEntry(ns, listing)
    ensures k == Key(d, Dot) || k == listing || k in UpKeys(Subdirs(ns, d))
  {
    if k.name.Word? {
      assert SubdirEntry(ns, k);
    } else if k.name.DotDot? {
      assert Up(ns, k.dir) == d;
      if k.dir != 0 {
        assert k.dir in Subdirs(ns, d);
        assert k == Key(k.dir, DotDot);
      }
    }
  }

  lemma DirIsDir()
    ensures IsDir(S_IFDIR) && !IsDir(0) && !IsDir(S_IFLNK) && IsDir(S_IFDIR | 0x1ED)
  {
  }

  /** The tables with a fresh node, and with its "." when it is a directory. */
  ghost function WithNew(ns: NS, n: Id, mode: Mode): NS {
    NS(ns.meta[n := Meta(mode, 0, 0)], if IsDir(mode) then ns.dirs[Key(n, Dot) := n] else ns.dirs)
  }

  /** Taking a fresh node back restores the tables. */
  lemma RemoveNewRestores(ns: NS, n: Id, mode: Mode)
    requires EntriesOk(ns) && n !in ns.meta
    ensures RemoveNode(WithNew(ns, n, mode), n) == ns
    ensures RemoveNode(ns, n) == ns
    ensures IsDir(mode) ==> OnlyOwn(WithNew(ns, n, mode).dirs, n)
  {
    assert ns.meta[n := Meta(mode, 0, 0)] - {n} == ns.meta;
    assert ns.meta - {n} == ns.meta;
    if IsDir(mode) {
      assert Without(ns.dirs[Key(n, Dot) := n], n) == ns.dirs;
    }
  }

  /** A name that is taken makes addchild drop a fresh node without entries, and keep a directory. */
  lemma DropNewOfFresh(ns: NS, n: Id, mode: Mode)
    requires EntriesOk(ns) && n !in ns.meta
    ensures DropNew(WithNew(ns, n, mode), n) == if IsDir(mode) then WithNew(ns, n, mode) else ns
    ensures RemoveNode(DropNew(WithNew(ns, n, mode), n), n) == ns
    ensures IsDir(mode) ==> Referenced(WithNew(ns, n, mode).dirs, n)
    ensures !IsDir(mode) ==> !OwnsEntries(WithNew(ns, n, mode), n)
  {
    RemoveNewRestores(ns, n, mode);
    if IsDir(mode) {
      assert WithNew(ns, n, mode).dirs[Key(n, Dot)] == n;
    }
  }

  lemma RemoveGone(t: Tables, n: Id)
    requires n !in t.nodes
    ensures RemoveT(t, n) == t
  {
    assert t.nodes - {n} == t.nodes;
  }

  class FsDb {
    var nodes: map<Id, Rec>
    var dirs: map<Key, Id>

    constructor ()
      ensures nodes == map[] && dirs == map[]
    {
      nodes, dirs := map[], map[];
    }

    function T(): Tables
      reads this
    {
      Tables(nodes, dirs)
    }

    function View(): NS
      reads this
    {
      ViewOf(T())
    }

    /** Directory::getchild. */
    method GetChild(d: Id, x: Name) returns (c: Option<Id>)
      requires IsDirNode(View(), d)
      ensures c == Child(View(), d, x)
    {
      if Key(d, x) in dirs && dirs[Key(d, x)] in nodes {
        c := Some(dirs[Key(d, x)]);
      } else {
        c := None;
      }
    }

    /** Node::link. */
    method Link(n: Id)
      requires n in nodes
      modifies this`nodes
      ensures T() == LinkT(old(T()), n)
    {
      nodes := nodes[n := nodes[n].(nlink := (nodes[n].nlink + 1) % UINT32)];
    }

    /** Node::remove and Directory::remove; removing a node that is gone changes nothing. */
    method Remove(n: Id)
      modifies this
      ensures T() == RemoveT(old(T()), n)
      ensures View() == RemoveNode(old(View()), n)
    {
      RemoveView(T(), n);
      if n in nodes && IsDir(nodes[n].meta.mode) {
        dirs := Without(dirs, n);
      }
      nodes := nodes - {n};
    }

    /** Node::unlink. */
    method Unlink(n: Id)
      requires n in nodes && nodes[n].nlink < UINT32
      modifies this
      ensures T() == UnlinkT(old(T()), n)
    {
      var nlink := AsInt32((nodes[n].nlink + UINT32 - 1) % UINT32);
      if nlink <= 0 {
        Remove(n);
      } else {
        nodes := nodes[n := nodes[n].(nlink := nlink)];
      }
    }

    /** Directory::addchild: links first, and takes the link back when the name is taken. */
    method AddChild(d: Id, x: Name, c: Id) returns (e: Errno)
      requires Sound(T()) && c in View().meta && |dirs| < INT32_MAX
      modifies this
      ensures Key(d, x) in old(dirs) ==>
                e == EEXIST && View() == DropNew(old(View()), c) &&
                (Referenced(old(dirs), c) || !OwnsEntries(old(View()), c) ==> Sound(T()))
      ensures Key(d, x) !in old(dirs) ==>
                e == OK && View() == NS(old(View()).meta, old(dirs)[Key(d, x) := c]) && Sound(T())
    {
      ghost var t := T();
      RefCountBound(dirs, c);
      Link(c);
      if Key(d, x) in dirs {
        Unlink(c);
        LinkUnlink(t, c);
        if !Referenced(t.dirs, c) && !OwnsEntries(ViewOf(t), c) {
          RemoveKeepsSound(t, c);
        }
        e := EEXIST;
      } else {
        dirs := dirs[Key(d, x) := c];
        AddKeepsSound(t, Key(d, x), c);
        e := OK;
      }
    }

    /** Directory::delchild. */
    method DelChild(d: Id, x: Name) returns (e: Errno)
      requires Sound(T()) && IsDirNode(View(), d)
      modifies this
      ensures Key(d, x) !in old(dirs) ==> e == ENOENT && T() == old(T())
      ensures Key(d, x) in old(dirs) ==>
                e == OK && View() == DelAt(old(View()), Key(d, x)) &&
                (DelIsClean(old(View()), Key(d, x)) ==> Sound(T()))
    {
      var c := GetChild(d, x);
      if c.None? {
        return ENOENT;
      }
      RefCountBound(dirs, c.value);
      DelKeepsSound(T(), Key(d, x));
      dirs := dirs - {Key(d, x)};
      Unlink(c.value);
      e := OK;
    }

    /** Directory::countchildren. */
    method CountChildren(d: Id) returns (n: nat)
      ensures n == |NamesIn(dirs, d)|
    {
      n := |set k | k in dirs && k.dir == d && k.name != EMPTY_NAME|;
    }

    /** createregister: the id after the last one in use. */
    method NextRegister() returns (n: Id)
      ensures n == NextId(nodes.Keys)
    {
      n := 0;
      if nodes.Keys != {} {
        ghost var top := MaxId(nodes.Keys);
        assert top in nodes.Keys && forall i | i in nodes.Keys :: i <= top;
        var last :| last in nodes.Keys && forall i | i in nodes.Keys :: i <= last;
        n := (last + 1) % ID_LIMIT;
      }
    }

    /** Node::create: a register past the last one, with a link count of zero. */
    method CreateNode(mode: Mode) returns (n: Id)
      requires Sound(T()) && IdsLeft(View())
      modifies this`nodes
      ensures n == NextId(old(View()).meta.Keys) && n !in old(nodes)
      ensures View() == NS(old(View()).meta[n := Meta(mode, 0, 0)], old(dirs)) && Sound(T())
    {
      n := NextRegister();
      assert View().meta.Keys == nodes.Keys;
      NextIdFresh(View());
      assert !Referenced(dirs, n);
      MakeKeepsSound(T(), n, Meta(mode, 0, 0));
      nodes := nodes[n := Rec(Meta(mode, 0, 0), 0)];
    }

    /** Setting the mode, owner and group of a node. */
    method SetAttrs(n: Id, m: Meta)
      requires Sound(T()) && n in View().meta
      modifies this`nodes
      ensures Sound(T()) && View() == SetMeta(old(View()), n, m)
      ensures n in nodes && nodes[n].meta == m
    {
      SetMetaKeepsSound(T(), n, m);
      nodes := nodes[n := nodes[n].(meta := m)];
    }

    /** Directory::create: a node of the directory type with its own ".". */
    method CreateDirectory() returns (n: Id)
      requires Sound(T()) && IdsLeft(View()) && EntriesOk(View()) && |dirs| < INT32_MAX
      modifies this
      ensures n == NextId(old(View()).meta.Keys) && n !in old(View()).meta
      ensures View() == WithNew(old(View()), n, S_IFDIR) && Sound(T())
    {
      hide Sound, EntriesOk;
      DirIsDir();
      NextIdFresh(View());
      NoEntryIn(View(), NextId(View().meta.Keys));
      n := CreateNode(S_IFDIR);
      var e := AddChild(n, Dot, n);
    }

    /** Path::create: a fresh node is entered under the name; when the name is taken, link, "." and
        id are all taken back. */
    method CreateIn(d: Id, x: Name, mode: Mode) returns (n: Id, e: Errno)
      requires Sound(T()) && IdsLeft(View()) && EntriesOk(View()) && |dirs| + 1 < INT32_MAX
      requires d in View().meta && (IsDir(mode) ==> mode == S_IFDIR)
      modifies this
      ensures n == NextId(old(View()).meta.Keys) && n !in old(View()).meta && Sound(T())
      ensures Key(d, x) in old(dirs) ==> e == EEXIST && View() == old(View())
      ensures Key(d, x) !in old(dirs) ==>
                e == OK && View() == NS(WithNew(old(View()), n, mode).meta,
                                        WithNew(old(View()), n, mode).dirs[Key(d, x) := n])
    {
      hide Sound, EntriesOk, Referenced, OwnsEntries;
      ghost var ns := View();
      if IsDir(mode) {
        n := CreateDirectory();
      } else {
        n := CreateNode(mode);
      }
      NewSize(ns, n, mode);
      DropNewOfFresh(ns, n, mode);
      RemoveNewRestores(ns, n, mode);
      e := AddChild(d, x, n);
      if e != OK {
        if IsDir(mode) {
          RemoveOwnKeepsSound(T(), n);
        } else {
          RemoveGone(T(), n);
        }
        Remove(n);
      }
    }

    /** FsDb::rebuild: empty tables, then the root directory, which gets id 0 and is its own parent. */
    method Rebuild(uid: nat, gid: nat)
      modifies this
      ensures Sound(T()) && View() == Rebuilt(uid, gid)
    {
      hide Sound, EntriesOk, IdsLeft, NextId, Referenced;
      nodes, dirs := map[], map[];
      DirIsDir();
      NothingThere();
      var root := CreateDirectory();
      SetAttrs(root, Meta(S_IFDIR | 0x1ED, uid, gid));
      var e := AddChild(root, DotDot, root);
    }
  }

  lemma NothingThere()
    ensures var t := Tables(map[], map[]);
            Sound(t) && IdsLeft(ViewOf(t)) && EntriesOk(ViewOf(t)) && NextId(ViewOf(t).meta.Keys) == 0
  {
  }

  lemma NoEntryIn(ns: NS, n: Id)
    requires EntriesOk(ns) && n !in ns.meta
    ensures forall k | k in ns.dirs :: k.dir != n && ns.dirs[k] != n
  {
  }

  lemma NewSize(ns: NS, n: Id, mode: Mode)
    ensures |WithNew(ns, n, mode).dirs| <= |ns.dirs| + 1
  {
    if IsDir(mode) && Key(n, Dot) in ns.dirs {
      assert ns.dirs[Key(n, Dot) := n].Keys == ns.dirs.Keys;
      assert |ns.dirs[Key(n, Dot) := n].Keys| == |ns.dirs[Key(n, Dot) := n]| && |ns.dirs.Keys| == |ns.dirs|;
    }
  }
}
