/** The two path caches: the one that walks from the root every time, and the hash map of
    entries with its LRU queue, its parent links and their lazy repair. */
module PathCaches {
  import opened Wrappers
  import opened Modes
  import opened Namespace
  import opened Coherence
  import opened CacheModel
  import opened CacheState
  import opened Seqs

  /** PathCache_null::getnode: a loop over the tokens from the root. */
  method GetNodeNull(txns: NS, ctx: SContext, toks: Path) returns (r: Result<Id, Errno>)
    ensures r == Walk(txns, ctx, toks)
  {
    if 0 !in txns.meta {
      RootlessWalk(txns, ctx, toks);
      return Err(ENOENT);
    }
    var n: Id := 0;
    var i := 0;
    while i < |toks|
      invariant 0 <= i <= |toks| && n in txns.meta
      invariant Walk(txns, ctx, toks[..i]) == Ok(n)
    {
      assert Parent(toks[..i + 1]) == toks[..i];
      var step := WalkStep(txns, ctx, n, toks[i]);
      if step.Err? {
        WalkFailsBeyond(txns, ctx, toks, i + 1);
        return step;
      }
      n := step.value;
      i := i + 1;
    }
    assert toks[..i] == toks;
    r := Ok(n);
  }

  lemma {:induction false} WalkFailsBeyond(txns: NS, ctx: SContext, p: Path, i: nat)
    requires i <= |p| && Walk(txns, ctx, p[..i]).Err?
    ensures Walk(txns, ctx, p) == Walk(txns, ctx, p[..i])
    decreases |p|
  {
    if i < |p| {
      assert Parent(p)[..i] == p[..i];
      WalkFailsBeyond(txns, ctx, Parent(p), i);
    } else {
      assert p[..i] == p;
    }
  }

  lemma RootlessWalk(txns: NS, ctx: SContext, p: Path)
    requires 0 !in txns.meta
    ensures Walk(txns, ctx, p) == Err(ENOENT)
  {
    WalkFailsBeyond(txns, ctx, p, 0);
  }

  class PathCacheHash {
    var paths: map<Path, CEntry>
    var queue: seq<CEntry>
    var nentries: int
    const maxentries: nat

    /** The contents as a value; its heap holds every entry the cache ever linked. */
    ghost var st: CState

    ghost predicate Linked()
      reads this, st.heap.Keys
    {
      && paths == st.paths && queue == st.queue && nentries == st.nentries
      && forall e | e in st.heap :: e.data == st.heap[e]
    }

    ghost predicate Valid()
      reads this, st.heap.Keys
    {
      Linked() && Consistent(st, {}) && maxentries >= 1
    }

    constructor (maxentries: nat)
      requires maxentries >= 1
      ensures Valid() && Abs(st) == EMPTY && st.heap == map[] && this.maxentries == maxentries
    {
      this.maxentries := maxentries;
      paths := map[];
      queue := [];
      nentries := 0;
      st := CState(map[], [], 0, map[], map[]);
    }

    /** delEntry. */
    method DelEntry(cen: CEntry)
      requires Linked() && LiveEntry(st, cen)
      modifies this, cen
      ensures Linked() && st == Deleted(old(st), cen)
    {
      queue := Erase(queue, cen);
      paths := paths - {cen.data.value.path};
      st := Deleted(st, cen);
      cen.Invalidate();
      nentries := nentries - 1;
    }

    /** initEntry: the entry takes its node from its parent's directory, or from the root. A failing
        call leaves at most the path in the uninitialised entry. */
    method InitEntry(txns: NS, cen: CEntry, parent: CEntry?, toks: Path) returns (e: Errno)
      requires Linked() && LiveEntry(st, cen) && toks in paths && paths[toks] == cen
      requires parent != null <==> toks != []
      requires parent != null ==> LiveEntry(st, parent) && parent != cen
      modifies this, cen
      ensures Linked()
      ensures match EntryFor(txns, old(st), parent, toks)
              case Ok(c) => e == OK && st == Initialised(old(st), toks, Data(toks, c.node, parent, c.meta))
              case Err(f) => e == f && (st == old(st) || st == PathStored(old(st), toks))
    {
      var n: Id := 0;
      if parent != null {
        cen.data := Some(cen.data.value.(path := toks));
        st := PathStored(st, toks);
        var d := parent.data.value.node;
        if d !in txns.meta {
          return ENOENT;
        }
        if !IsDir(txns.meta[d].mode) {
          return ENOTDIR;
        }
        match Child(txns, d, Leaf(toks)) {
          case None => return ENOENT;
          case Some(c) => n := c;
        }
      } else {
        if 0 !in txns.meta {
          return ENOENT;
        }
      }
      cen.data := Some(Data(toks, n, parent, txns.meta[n]));
      queue := queue + [cen];
      nentries := nentries + 1;
      st := Initialised(old(st), toks, Data(toks, n, parent, txns.meta[n]));
      e := OK;
    }

    /** lookup's clean-up: the entries of the branch that are not initialised are erased. */
    method Rollback(toks: Path, j0: int)
      requires -1 <= j0 <= |toks| && Linked()
      modifies this
      ensures Linked() && st == RolledBack(old(st), Branch(toks, j0, |toks|))
    {
      var j := j0;
      while j < |toks|
        invariant j0 <= j <= |toks|
        invariant paths == old(paths) - Branch(toks, j0, j)
        modifies this`paths
      {
        BranchGrow(toks, j0, j);
        paths := paths - {toks[..j + 1]};
        j := j + 1;
      }
      st := RolledBack(st, Branch(toks, j0, |toks|));
    }

    /** paths.insert of a new entry. */
    method Insert(p: Path) returns (cen: CEntry)
      requires Linked()
      modifies this
      ensures Linked() && fresh(cen) && cen !in old(st).heap
      ensures LiveEntry(st, cen)
      ensures st == old(st).(paths := old(st).paths[p := cen], heap := old(st).heap[cen := st.heap[cen]])
    {
      cen := new CEntry();
      paths := paths[p := cen];
      st := st.(paths := paths, heap := st.heap[cen := cen.data]);
    }

    /** withPath's repair of a parent link. */
    method Relink(p: Path, cen: CEntry, parent: CEntry)
      requires Linked() && p in st.paths && cen == st.paths[p] && LiveEntry(st, cen)
      requires Parent(p) in st.paths && parent == st.paths[Parent(p)]
      modifies this, cen
      ensures Linked() && st == Relinked(old(st), p)
    {
      cen.data := Some(cen.data.value.(parent := parent));
      st := Relinked(st, p);
    }

    /** lookup, first loop: going up the branch, insert an entry for every path not cached yet. */
    method InsertBranch(toks: Path) returns (tok: int)
      requires Linked()
      modifies this
      ensures -1 <= tok <= |toks| && Linked()
      ensures Inserted(old(st), st, Branch(toks, tok, |toks|))
      ensures tok >= 0 ==> toks[..tok] in old(paths)
      ensures toks in old(paths) ==> tok == |toks| && st == old(st)
      ensures fresh(st.heap.Keys - old(st).heap.Keys)
    {
      hide Inserted;
      tok := |toks|;
      assert Branch(toks, tok, |toks|) == {} && toks[..tok] == toks;
      InsertedNone(st);
      while tok >= 0 && toks[..tok] !in paths
        invariant -1 <= tok <= |toks| && Linked()
        invariant Inserted(old(st), st, Branch(toks, tok, |toks|))
        invariant fresh(st.heap.Keys - old(st).heap.Keys)
        invariant tok < |toks| ==> toks !in old(paths)
        invariant tok == |toks| ==> st == old(st)
        decreases tok
      {
        BranchStep(toks, tok - 1, |toks|);
        ghost var s, pending := st, Branch(toks, tok, |toks|);
        var cen := Insert(toks[..tok]);
        InsertedStep(old(st), s, pending, toks[..tok], cen, st.heap[cen]);
        tok := tok - 1;
      }
      if tok >= 0 {
        InsertedOld(old(st), st, toks, tok);
      }
    }

    /** lookup, one turn of the second loop: the entry of p is initialised from the one before it. */
    method InitNext(txns: NS, p: Path, ghost pending: set<Path>) returns (e: Errno)
      requires Linked() && Consistent(st, pending) && p in pending
      requires p != [] ==> Parent(p) in st.view
      modifies this, st.heap.Keys
      ensures Linked()
      ensures match EntryOf(txns, old(st).view, p)
              case Ok(d) => e == OK && Consistent(st, pending - {p}) && Completed(old(st), st, p, d)
              case Err(f) => e == f && GivenUp(old(st), st, p)
    {
      hide QueueOk, ParentsOk, Completed;
      ghost var s := st;
      var cen := paths[p];
      var parent: CEntry? := null;
      if p != [] {
        parent := paths[Parent(p)];
      }
      PendingNotMapped(s, pending, p);
      EntryForIsEntryOf(txns, s, pending, parent, p);
      e := InitEntry(txns, cen, parent, p);
      if e == OK {
        CompletedConsistent(s, pending, parent, p, EntryOf(txns, s.view, p).value);
      }
    }

    /** lookup, one turn of the second loop with its clean-up: s0 is the cache lookup was called on,
        pending what it inserted and has not initialised. */
    method InitOrCleanUp(txns: NS, toks: Path, tok: int, ghost pending: set<Path>, ghost s0: CState)
      returns (e: Errno)
      requires -1 <= tok < |toks| && pending == Branch(toks, tok, |toks|)
      requires Linked() && Consistent(st, pending) && Kept(s0, st)
      requires LookedUp(txns, s0, st, toks, tok)
      requires forall q | q in s0.view :: q !in pending
      requires forall q | q in pending && q in st.paths :: st.paths[q] !in s0.heap
      modifies this, st.heap.Keys
      ensures Linked() && Kept(s0, st) && st.heap.Keys == old(st).heap.Keys
      ensures e == OK ==> Consistent(st, pending - {toks[..tok + 1]}) && st.paths == old(st).paths
      ensures e == OK ==> LookedUp(txns, s0, st, toks, tok + 1)
      ensures e != OK ==> Consistent(st, {}) && (Abs(st), e) == Look(txns, Abs(s0), toks)
    {
      hide Consistent, Kept, GivenUp, Completed, EntryOf, Look;
      BranchStep(toks, tok, |toks|);
      ghost var s := st;
      var p := toks[..tok + 1];
      assert p != [] ==> Parent(p) == toks[..tok];
      PendingLive(s, pending, p);
      e := InitNext(txns, p, pending);
      LookTurn(txns, s0, s, toks, tok);
      if e != OK {
        GivenUpRollback(s, st, pending, p);
        KeptRollback(s0, s, st, pending, p);
        GivenUpShape(s, st, p);
        Rollback(toks, tok);
      } else {
        KeptStep(s0, s, st, p, EntryOf(txns, s.view, p).value);
        CompletedShape(s, st, p, EntryOf(txns, s.view, p).value);
      }
    }

    /** lookup, second loop: every inserted entry is initialised, from the top of the branch down. */
    method InitBranch(txns: NS, toks: Path, tok0: int, ghost s0: CState) returns (e: Errno)
      requires -1 <= tok0 <= |toks|
      requires Linked() && Inserted(s0, st, Branch(toks, tok0, |toks|)) && Consistent(s0, {})
      requires tok0 >= 0 ==> toks[..tok0] in s0.view
      modifies this, st.heap.Keys
      ensures Linked() && Consistent(st, {}) && Kept(s0, st) && st.heap.Keys == old(st).heap.Keys
      ensures (Abs(st), e) == Look(txns, Abs(s0), toks)
    {
      hide Consistent, Kept, Inserted, Look;
      var tok := tok0;
      ghost var pending := Branch(toks, tok, |toks|);
      ghost var inserted := pending;
      ghost var mapped := st.paths;
      InsertKeepsConsistent(s0, st, pending);
      InsertedApart(s0, st, pending);
      KeptByInsert(s0, st, pending);
      LookStarts(txns, s0, st, toks, tok0);
      while tok < |toks|
        invariant tok0 <= tok <= |toks| && pending == Branch(toks, tok, |toks|) && pending <= inserted
        invariant Linked() && Consistent(st, pending) && Kept(s0, st)
        invariant st.paths == mapped && st.heap.Keys == old(st).heap.Keys
        invariant LookedUp(txns, s0, st, toks, tok)
      {
        BranchStep(toks, tok, |toks|);
        e := InitOrCleanUp(txns, toks, tok, pending, s0);
        if e != OK {
          return;
        }
        pending := pending - {toks[..tok + 1]};
        tok := tok + 1;
      }
      assert Branch(toks, |toks|, |toks|) == {};
      assert toks[..|toks|] == toks;
      e := OK;
    }

    /** lookup: the entry of toks, with every missing entry above it cached on the way. */
    method Lookup(txns: NS, toks: Path) returns (e: Errno, cen: CEntry?)
      requires Linked() && Consistent(st, {})
      modifies this, st.heap.Keys
      ensures Linked() && Consistent(st, {}) && Kept(old(st), st)
      ensures fresh(st.heap.Keys - old(st).heap.Keys)
      ensures (Abs(st), e) == Look(txns, Abs(old(st)), toks)
      ensures e == OK ==> toks in st.view && toks in st.paths && cen == st.paths[toks]
    {
      hide Consistent, Kept, Inserted, Look;
      MappedIsView(st);
      cen := null;
      var tok := InsertBranch(toks);
      e := InitBranch(txns, toks, tok, old(st));
      MappedIsView(st);
      if e == OK {
        cen := paths[toks];
      }
    }

    /** withPath, the step up: the parent link if it is still valid, otherwise the entry looked up
        afresh and linked. */
    method StepUp(txns: NS, p: Path, cen: CEntry) returns (e: Errno, parent: CEntry?)
      requires Linked() && Consistent(st, {}) && p != [] && p in st.view && p in st.paths
      requires cen == st.paths[p]
      modifies this, st.heap.Keys
      ensures Linked() && Consistent(st, {}) && fresh(st.heap.Keys - old(st).heap.Keys)
      ensures (Abs(st), e) == Look(txns, Abs(old(st)), Parent(p))
      ensures Stays(old(st), st) && old(st).view.Keys <= st.view.Keys
      ensures e == OK ==> Parent(p) in st.view && Parent(p) in st.paths && parent == st.paths[Parent(p)]
    {
      hide Consistent, Kept, OrderOf, Look, Stays;
      StaysItself(st);
      MappedIsView(st);
      ValidParentIsMapped(st, p);
      parent := cen.data.value.parent;
      e := OK;
      if parent.IsValid() {
        LookCached(txns, Abs(st), Parent(p));
      } else {
        e, parent := Lookup(txns, Parent(p));
        KeptEntry(old(st), st, p);
        KeptStays(old(st), st);
        if e == OK {
          RelinkKeepsConsistent(st, p);
          RelinkedSame(st, p);
          MappedIsView(st);
          RelinkedStays(st, p);
          StaysTrans(old(st), st, Relinked(st, p));
          Relink(p, cen, parent);
        }
      }
    }

    /** checkAccess on an entry. */
    method CheckEntry(ctx: SContext, p: Path, cen: CEntry) returns (e: Errno)
      requires Linked() && Consistent(st, {}) && p in st.view && p in st.paths && cen == st.paths[p]
      ensures e == if CheckAccess(ctx, st.view[p].meta) then OK else EACCES
    {
      hide Consistent, CheckAccess;
      MappedIsView(st);
      e := if CheckAccess(ctx, cen.data.value.meta) then OK else EACCES;
    }

    /** withPath applied to checkAccess: the search permission of every directory of toks, from the
        last up to the root. */
    method WithPath(txns: NS, ctx: SContext, toks: Path) returns (e: Errno)
      requires Linked() && Consistent(st, {})
      modifies this, st.heap.Keys
      ensures Linked() && Consistent(st, {}) && fresh(st.heap.Keys - old(st).heap.Keys)
      ensures (Abs(st), e) == SearchUp(txns, ctx, Abs(old(st)), toks)
      ensures Stays(old(st), st) && old(st).view.Keys <= st.view.Keys
    {
      hide Consistent, Kept, CheckAccess, OrderOf, Look, SearchUp, Stays;
      hide PathCacheHash.Linked;
      ghost var c0 := Abs(st);
      var cen: CEntry?;
      var p := toks;
      e, cen := Lookup(txns, p);
      KeptStays(old(st), st);
      SearchTurn(txns, ctx, c0, p);
      if e != OK {
        return;
      }
      e := CheckEntry(ctx, p, cen);
      while e == OK && p != []
        invariant Linked() && Consistent(st, {}) && fresh(st.heap.Keys - old(st).heap.Keys)
        invariant e == OK ==> p in st.view && p in st.paths && cen == st.paths[p]
        invariant Stays(old(st), st) && old(st).view.Keys <= st.view.Keys
        invariant SearchUp(txns, ctx, c0, toks)
                  == if e != OK || p == [] then (Abs(st), e) else SearchUp(txns, ctx, Abs(st), Parent(p))
        decreases |p|
      {
        SearchTurn(txns, ctx, Abs(st), Parent(p));
        ghost var s := st;
        e, cen := StepUp(txns, p, cen);
        StaysTrans(old(st), s, st);
        p := Parent(p);
        if e == OK {
          e := CheckEntry(ctx, p, cen);
        }
      }
    }

    /** getnode's promotion of an entry to the young end of the queue. */
    method Promote(p: Path, cen: CEntry)
      requires Linked() && Consistent(st, {}) && p in st.view && p in st.paths && cen == st.paths[p]
      modifies this
      ensures Linked() && Consistent(st, {}) && Abs(st) == Touch(Abs(old(st)), p)
      ensures st.heap == old(st).heap && st.paths == old(st).paths && st.view == old(st).view
    {
      hide Consistent, OrderOf, Touch;
      EntryStoresPath(st, p);
      PromoteKeepsConsistent(st, cen);
      PromotedIsTouch(st, cen);
      queue := Erase(queue, cen) + [cen];
      st := Promoted(st, cen);
    }

    /** getnode's eviction: entries leave from the old end of the queue until the cache fits. */
    method Evict()
      requires Linked() && Consistent(st, {}) && maxentries >= 1
      modifies this, st.heap.Keys
      ensures Linked() && Consistent(st, {}) && st.heap.Keys == old(st).heap.Keys
      ensures Abs(st) == Fit(Abs(old(st)), maxentries) && nentries <= maxentries
      ensures Stays(old(st), st) && st.view.Keys <= old(st).view.Keys
    {
      hide Consistent, OrderOf, Deleted, Fit, Stays;
      ghost var c0 := Abs(st);
      StaysItself(st);
      while nentries > maxentries
        invariant Linked() && Consistent(st, {}) && st.heap.Keys == old(st).heap.Keys
        invariant Fit(Abs(st), maxentries) == Fit(c0, maxentries)
        invariant Stays(old(st), st) && st.view.Keys <= old(st).view.Keys
        decreases nentries
      {
        CountIsLength(st);
        OldestForgotten(st);
        DeletedStays(st, queue[0]);
        StaysTrans(old(st), st, Deleted(st, queue[0]));
        DeleteKeepsConsistent(st, queue[0]);
        FitTurn(Abs(st), maxentries);
        DelEntry(queue[0]);
      }
      CountIsLength(st);
      FitTurn(Abs(st), maxentries);
    }

    /** getnode, once the entry is found: it becomes the youngest, the oldest leave, and it does not. */
    method MakeYoungest(p: Path, cen: CEntry)
      requires Valid() && p in st.view && p in st.paths && cen == st.paths[p]
      modifies this, st.heap.Keys
      ensures Valid() && st.heap.Keys == old(st).heap.Keys && nentries <= maxentries
      ensures Abs(st) == Fit(Touch(Abs(old(st)), p), maxentries)
      ensures Stays(old(st), st) && st.view.Keys <= old(st).view.Keys
      ensures p in st.view && p in st.paths && st.paths[p] == cen && st.view[p] == old(st).view[p]
      ensures cen.data.Some? && cen.data.value.node == st.view[p].node
    {
      hide Consistent, Fit, Touch, Abs, Stays;
      MappedIsView(st);
      ViewOfAbs(st);
      TouchShape(Abs(st), p);
      Promote(p, cen);
      RemappedStays(old(st), st);
      ghost var s := st;
      ViewOfAbs(st);
      Evict();
      YoungestIsLive(s, st, p, maxentries);
      StaysTrans(old(st), s, st);
    }

    /** getnode under its lock: the entry of toks, searched for, made the youngest, and valid. */
    method Fetch(txns: NS, ctx: SContext, toks: Path) returns (e: Errno, cen: CEntry?)
      requires Valid()
      modifies this, st.heap.Keys
      ensures Valid() && fresh(st.heap.Keys - old(st).heap.Keys) && Stays(old(st), st)
      ensures e == Find(txns, ctx, Abs(old(st)), toks).1
      ensures e == OK ==> toks in st.view && toks in st.paths && cen == st.paths[toks] && nentries <= maxentries
      ensures e == OK ==> cen.IsValid() && cen.data.value.node == st.view[toks].node
      ensures GetNodeIn(txns, ctx, Abs(old(st)), toks, maxentries)
              == (Abs(st), if e != OK then Err(e) else NodeOf(txns, st.view[toks].node))
    {
      hide Consistent, Kept, Look, SearchUp, Fit, Touch, Abs, Stays;
      ViewOfAbs(st);
      e := OK;
      cen := null;
      StaysItself(st);
      if toks != [] {
        e := WithPath(txns, ctx, Parent(toks));
        if e != OK {
          ViewOfAbs(st);
          return;
        }
      }
      ghost var s1 := st;
      e, cen := Lookup(txns, toks);
      KeptStays(s1, st);
      StaysTrans(old(st), s1, st);
      ViewOfAbs(st);
      if e != OK {
        return;
      }
      ghost var s2 := st;
      MakeYoungest(toks, cen);
      StaysTrans(old(st), s2, st);
      ViewOfAbs(st);
    }

    /** PathCache_hash::getnode, with no other call before its last read: contents, order and answer are
        those of the plain cache; so on a cache that agrees with the tables the answer is the uncached
        walk's. */
    method GetNode(txns: NS, ctx: SContext, toks: Path) returns (r: Result<Id, Errno>)
      requires Valid()
      modifies this, st.heap.Keys
      ensures Valid() && fresh(st.heap.Keys - old(st).heap.Keys)
      ensures (Abs(st), r) == GetNodeIn(txns, ctx, Abs(old(st)), toks, maxentries)
      ensures r.Ok? ==> r.value in txns.meta && nentries <= maxentries
      ensures r.Err? ==> r.error in {ENOENT, ENOTDIR, EACCES}
      ensures ValidPath(toks) && Coherent(txns, old(st).view) ==>
                Coherent(txns, st.view) && Agrees(r, Walk(txns, ctx, toks))
      ensures r.Ok? && |old(st).view| + |toks| + 1 <= maxentries ==> KeepsAndHolds(old(st).view, st.view, toks)
    {
      hide Consistent, Coherent, GetNodeIn, Walk, Abs, Stays, WfCache, KeepsAndHolds, Find;
      ViewOfAbs(st);
      ConsistentIsWf(st);
      GetNodeMeans(txns, ctx, Abs(st), toks, maxentries);
      var e, cen := Fetch(txns, ctx, toks);
      ViewOfAbs(st);
      r := if e != OK then Err(e) else NodeOf(txns, cen.data.value.node);
    }

    /** PathCache_hash::invalidate: one entry goes; what is cached below it stays. */
    method Invalidate(toks: Path)
      requires Valid()
      modifies this, st.heap.Keys
      ensures Valid() && st.heap.Keys == old(st).heap.Keys
      ensures Abs(st) == Forget(Abs(old(st)), toks) && st.view == old(st).view - {toks} && Stays(old(st), st)
    {
      hide Consistent, OrderOf, Stays;
      MappedIsView(st);
      StaysItself(st);
      if toks in paths {
        EntryStoresPath(st, toks);
        DeletedStays(st, paths[toks]);
        DeletedIsForget(st, paths[toks]);
        DeleteKeepsConsistent(st, paths[toks]);
        DelEntry(paths[toks]);
      }
    }
  }
}
