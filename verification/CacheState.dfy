/** The contents of the path cache as a value, its structural invariant, and the small steps
    the cache's methods are made of. */
module CacheState {
  import opened Wrappers
  import opened Modes
  import opened Namespace
  import opened Coherence
  import opened CacheModel
  import opened Seqs

  /** The data of a live entry. */
  datatype Data = Data(path: Path, node: Id, parent: CEntry?, meta: Meta)

  /** A cache entry; invalidation takes its data away while others may still link to it. */
  class CEntry {
    var data: Option<Data>

    constructor ()
      ensures data.Some?
    {
      data := Some(Data([], 0, null, Meta(0, 0, 0)));
    }

    predicate IsValid()
      reads this
    {
      data.Some?
    }

    method Invalidate()
      modifies this
      ensures data.None?
    {
      data := None;
    }
  }

  /** The contents of the cache as a value: the fields of PathCacheHash and the data of every
      entry it ever linked. */
  datatype CState = CState(paths: map<Path, CEntry>, queue: seq<CEntry>, nentries: int, view: View,
                           heap: map<CEntry, Option<Data>>)

  predicate LiveEntry(s: CState, e: CEntry) {
    e in s.heap && s.heap[e].Some?
  }

  /** Entries are mapped under the paths they store, one entry to a path. The paths in pending are
      mapped to entries lookup has inserted and not yet initialised. */
  ghost predicate MapOk(s: CState, pending: set<Path>) {
    && (forall p :: p in s.paths <==> p in s.view || p in pending)
    && (forall p | p in pending :: p !in s.view)
    && (forall p | p in s.paths :: LiveEntry(s, s.paths[p]))
    && (forall p, q | p in s.paths && q in s.paths && s.paths[p] == s.paths[q] :: p == q)
    && (forall p | p in s.view ::
          s.heap[s.paths[p]].value.path == p &&
          s.view[p] == CData(s.heap[s.paths[p]].value.node, s.heap[s.paths[p]].value.meta))
  }

  ghost predicate QueuedOk(s: CState, e: CEntry) {
    LiveEntry(s, e) && s.heap[e].value.path in s.view && s.heap[e].value.path in s.paths &&
    s.paths[s.heap[e].value.path] == e
  }

  /** The queue holds every initialised entry once. */
  ghost predicate QueueOk(s: CState) {
    && s.nentries == |s.queue| == |s.view|
    && (forall p | p in s.view && p in s.paths :: s.paths[p] in s.queue)
    && (forall e {:trigger QueuedOk(s, e)} | e in s.queue :: QueuedOk(s, e))
    && Distinct(s.queue)
  }

  ghost predicate ParentOk(s: CState, p: Path) {
    p in s.paths && LiveEntry(s, s.paths[p]) &&
    var parent := s.heap[s.paths[p]].value.parent;
    parent != null && parent in s.heap &&
    (s.heap[parent].Some? ==> Parent(p) in s.view && Parent(p) in s.paths && s.paths[Parent(p)] == parent)
  }

  /** A parent link that is still valid leads to the entry mapped for the parent path. */
  ghost predicate ParentsOk(s: CState) {
    forall p {:trigger ParentOk(s, p)} | p in s.view && p != [] :: ParentOk(s, p)
  }

  ghost predicate Consistent(s: CState, pending: set<Path>) {
    MapOk(s, pending) && QueueOk(s) && ParentsOk(s)
  }

  /** A step that touches no queued entry's path and no mapping of an initialised path. */
  lemma QueueFrame(s: CState, s': CState)
    requires QueueOk(s)
    requires s'.queue == s.queue && s'.nentries == s.nentries && s'.view.Keys == s.view.Keys
    requires forall p | p in s.view && p in s.paths :: p in s'.paths && s'.paths[p] == s.paths[p]
    requires forall p | p in s.view && p in s'.paths :: p in s.paths
    requires forall e | e in s.queue && LiveEntry(s, e) ::
               LiveEntry(s', e) && s'.heap[e].value.path == s.heap[e].value.path
    ensures QueueOk(s')
  {
    assert |s'.view.Keys| == |s.view.Keys|;
    forall e | e in s'.queue
      ensures QueuedOk(s', e)
    {
      assert QueuedOk(s, e);
    }
  }

  /** A step that keeps the parent links of what stays cached, and takes the data away from every
      entry it unmaps. */
  lemma ParentsFrame(s: CState, s': CState)
    requires ParentsOk(s) && s'.view.Keys <= s.view.Keys && s.heap.Keys <= s'.heap.Keys
    requires forall p | p in s'.view && p in s.paths :: p in s'.paths && s'.paths[p] == s.paths[p]
    requires forall p | p in s'.view && p in s.paths && LiveEntry(s, s.paths[p]) ::
               LiveEntry(s', s.paths[p]) &&
               s'.heap[s.paths[p]].value.parent == s.heap[s.paths[p]].value.parent
    requires forall e | e in s.heap && s.heap[e].None? :: s'.heap[e].None?
    requires forall p | p in s.view && p in s.paths && s.paths[p] in s'.heap && s'.heap[s.paths[p]].Some? :: p in s'.view
    ensures ParentsOk(s')
  {
    forall p | p in s'.view && p != []
      ensures ParentOk(s', p)
    {
      assert ParentOk(s, p);
    }
  }

  lemma PendingNotQueued(s: CState, pending: set<Path>, p: Path)
    requires MapOk(s, pending) && QueueOk(s) && p in pending
    ensures s.paths[p] !in s.queue
  {
    assert s.paths[p] in s.queue ==> QueuedOk(s, s.paths[p]);
  }

  lemma PendingNotMapped(s: CState, pending: set<Path>, p: Path)
    requires MapOk(s, pending) && p in pending
    ensures forall q | q in s.view && q in s.paths :: s.paths[q] != s.paths[p]
  {
  }

  /** delEntry. */
  ghost function Deleted(s: CState, e: CEntry): CState
    requires LiveEntry(s, e)
  {
    var p := s.heap[e].value.path;
    CState(s.paths - {p}, Erase(s.queue, e), s.nentries - 1, s.view - {p}, s.heap[e := None])
  }

  lemma QueuedLive(s: CState, e: CEntry)
    requires QueueOk(s) && e in s.queue
    ensures QueuedOk(s, e)
  {
  }

  lemma DeleteKeepsQueue(s: CState, e: CEntry)
    requires QueueOk(s) && e in s.queue && QueuedOk(s, e)
    requires forall q | q in s.view && q in s.paths && q != s.heap[e].value.path :: s.paths[q] != e
    ensures QueueOk(Deleted(s, e))
  {
    var s' := Deleted(s, e);
    EraseMembers(s.queue, e);
    EraseDistinct(s.queue, e);
    assert |s'.view.Keys| == |s.view.Keys| - 1 by {
      assert s'.view.Keys == s.view.Keys - {s.heap[e].value.path};
    }
    forall f | f in s'.queue
      ensures QueuedOk(s', f)
    {
      assert QueuedOk(s, f);
    }
  }

  lemma DeleteKeepsMap(s: CState, e: CEntry)
    requires MapOk(s, {}) && QueuedOk(s, e)
    ensures MapOk(Deleted(s, e), {})
  {
  }

  lemma DeleteKeepsConsistent(s: CState, e: CEntry)
    requires Consistent(s, {}) && e in s.queue
    ensures QueuedOk(s, e) && Consistent(Deleted(s, e), {})
  {
    QueuedLive(s, e);
    DeleteKeepsMap(s, e);
    DeleteKeepsQueue(s, e);
    DeleteKeepsParents(s, e);
  }

  lemma DeleteKeepsParents(s: CState, e: CEntry)
    requires MapOk(s, {}) && ParentsOk(s) && QueuedOk(s, e)
    ensures ParentsOk(Deleted(s, e))
  {
    ParentsFrame(s, Deleted(s, e));
  }

  /** paths.insert of new entries for the paths in pending. */
  ghost predicate Inserted(s: CState, s': CState, pending: set<Path>) {
    && s'.view == s.view && s'.queue == s.queue && s'.nentries == s.nentries
    && (forall e | e in s.heap :: e in s'.heap && s'.heap[e] == s.heap[e])
    && (forall p :: p in s'.paths <==> p in s.paths || p in pending)
    && (forall p | p in s.paths :: p !in pending && s'.paths[p] == s.paths[p])
    && (forall p | p in pending :: s'.paths[p] !in s.heap && LiveEntry(s', s'.paths[p]))
    && (forall p, q | p in pending && q in pending && s'.paths[p] == s'.paths[q] :: p == q)
  }

  lemma InsertKeepsMap(s: CState, s': CState, pending: set<Path>)
    requires MapOk(s, {}) && Inserted(s, s', pending)
    ensures MapOk(s', pending)
  {
  }

  lemma InsertKeepsParents(s: CState, s': CState, pending: set<Path>)
    requires ParentsOk(s) && Inserted(s, s', pending)
    ensures ParentsOk(s')
  {
    forall q | q in s'.view && q != []
      ensures ParentOk(s', q)
    {
      assert ParentOk(s, q);
    }
  }

  lemma InsertKeepsQueue(s: CState, s': CState, pending: set<Path>)
    requires QueueOk(s) && MapOk(s, {}) && Inserted(s, s', pending)
    ensures QueueOk(s')
  {
    QueueFrame(s, s');
  }

  lemma InsertKeepsConsistent(s: CState, s': CState, pending: set<Path>)
    requires Consistent(s, {}) && Inserted(s, s', pending)
    ensures Consistent(s', pending)
  {
    InsertKeepsMap(s, s', pending);
    InsertKeepsQueue(s, s', pending);
    InsertKeepsParents(s, s', pending);
  }

  /** initEntry storing the path of a pending entry before it looks the node up. */
  ghost function PathStored(s: CState, p: Path): CState
    requires p in s.paths && LiveEntry(s, s.paths[p])
  {
    s.(heap := s.heap[s.paths[p] := Some(s.heap[s.paths[p]].value.(path := p))])
  }

  /** initEntry completing a pending entry. */
  ghost function Initialised(s: CState, p: Path, d: Data): CState
    requires p in s.paths
  {
    var e := s.paths[p];
    CState(s.paths, s.queue + [e], s.nentries + 1, s.view[p := CData(d.node, d.meta)], s.heap[e := Some(d)])
  }

  lemma InitialiseKeepsMap(s: CState, pending: set<Path>, p: Path, d: Data)
    requires MapOk(s, pending) && p in pending && d.path == p
    ensures MapOk(Initialised(s, p, d), pending - {p})
  {
  }

  lemma MapAdds(view: View, p: Path, e: CData)
    requires p !in view
    ensures |view[p := e]| == |view| + 1
  {
    assert view[p := e].Keys == view.Keys + {p};
    assert |view[p := e].Keys| == |view[p := e]| && |view.Keys| == |view|;
  }

  lemma InitialiseKeepsQueue(s: CState, p: Path, d: Data)
    requires QueueOk(s) && p in s.paths && p !in s.view && d.path == p && s.paths[p] !in s.queue
    ensures QueueOk(Initialised(s, p, d))
  {
    hide Distinct;
    var s' := Initialised(s, p, d);
    MapAdds(s.view, p, CData(d.node, d.meta));
    AppendDistinct(s.queue, s.paths[p]);
    forall f | f in s'.queue
      ensures QueuedOk(s', f)
    {
      assert f != s.paths[p] ==> QueuedOk(s, f);
    }
  }

  lemma InitialiseKeepsParents(s: CState, p: Path, d: Data)
    requires ParentsOk(s) && p in s.paths && LiveEntry(s, s.paths[p])
    requires forall q | q in s.view && q in s.paths :: s.paths[q] != s.paths[p]
    requires p !in s.view && d.path == p
    requires p != [] ==> Parent(p) in s.view && Parent(p) in s.paths && LiveEntry(s, s.paths[Parent(p)]) &&
                         d.parent == s.paths[Parent(p)]
    ensures ParentsOk(Initialised(s, p, d))
  {
    var s' := Initialised(s, p, d);
    forall q | q in s'.view && q != []
      ensures ParentOk(s', q)
    {
      assert q != p ==> ParentOk(s, q);
    }
  }

  lemma InitialiseKeepsConsistent(s: CState, pending: set<Path>, p: Path, d: Data)
    requires Consistent(s, pending) && p in pending && d.path == p
    requires p != [] ==> Parent(p) in s.view && d.parent == s.paths[Parent(p)]
    ensures Consistent(Initialised(s, p, d), pending - {p})
  {
    PendingNotQueued(s, pending, p);
    PendingNotMapped(s, pending, p);
    InitialiseKeepsMap(s, pending, p, d);
    InitialiseKeepsQueue(s, p, d);
    InitialiseKeepsParents(s, p, d);
  }

  /** lookup's clean-up: every pending entry is erased. */
  ghost function RolledBack(s: CState, pending: set<Path>): CState {
    s.(paths := s.paths - pending)
  }

  /** withPath replacing a parent link by the entry now mapped for the parent path. */
  ghost function Relinked(s: CState, p: Path): CState
    requires p in s.paths && LiveEntry(s, s.paths[p]) && Parent(p) in s.paths
  {
    s.(heap := s.heap[s.paths[p] := Some(s.heap[s.paths[p]].value.(parent := s.paths[Parent(p)]))])
  }

  lemma RelinkKeepsMap(s: CState, p: Path)
    requires MapOk(s, {}) && p in s.view && Parent(p) in s.view
    ensures MapOk(Relinked(s, p), {})
  {
  }

  lemma RelinkKeepsParents(s: CState, p: Path)
    requires MapOk(s, {}) && ParentsOk(s) && p in s.view && p != [] && Parent(p) in s.view
    ensures ParentsOk(Relinked(s, p))
  {
    var s' := Relinked(s, p);
    forall q | q in s'.view && q != []
      ensures ParentOk(s', q)
    {
      assert ParentOk(s, q);
    }
  }

  lemma RelinkKeepsConsistent(s: CState, p: Path)
    requires Consistent(s, {}) && p in s.view && p != [] && Parent(p) in s.view
    ensures Consistent(Relinked(s, p), {})
  {
    RelinkKeepsMap(s, p);
    RelinkKeepsParents(s, p);
    QueueFrame(s, Relinked(s, p));
  }

  /** getnode moving an entry to the young end of the queue. */
  ghost function Promoted(s: CState, e: CEntry): CState {
    s.(queue := Erase(s.queue, e) + [e])
  }

  lemma PromoteKeepsQueue(s: CState, e: CEntry)
    requires QueueOk(s) && e in s.queue
    ensures QueueOk(Promoted(s, e))
  {
    EraseMembers(s.queue, e);
    EraseDistinct(s.queue, e);
    var s' := Promoted(s, e);
    forall f | f in s'.queue
      ensures QueuedOk(s', f)
    {
      assert QueuedOk(s, f);
    }
  }

  lemma PromoteKeepsConsistent(s: CState, e: CEntry)
    requires Consistent(s, {}) && e in s.queue
    ensures Consistent(Promoted(s, e), {})
  {
    PromoteKeepsQueue(s, e);
    ParentsFrame(s, Promoted(s, e));
  }

  /** The paths of toks longer than lo and no longer than hi tokens. */
  ghost function Branch(toks: Path, lo: int, hi: int): set<Path>
    requires hi <= |toks|
  {
    set j | lo < j <= hi && 0 <= j :: toks[..j]
  }

  lemma PrefixesDiffer(toks: Path)
    ensures forall i, j {:trigger toks[..i], toks[..j]} |
              0 <= i <= |toks| && 0 <= j <= |toks| && toks[..i] == toks[..j] :: i == j
  {
    forall i, j {:trigger toks[..i], toks[..j]} | 0 <= i <= |toks| && 0 <= j <= |toks| && toks[..i] == toks[..j]
      ensures i == j
    {
      assert |toks[..i]| == i && |toks[..j]| == j;
    }
  }

  lemma BranchStep(toks: Path, lo: int, hi: int)
    requires -1 <= lo < hi <= |toks|
    ensures Branch(toks, lo, hi) == Branch(toks, lo + 1, hi) + {toks[..lo + 1]}
    ensures toks[..lo + 1] !in Branch(toks, lo + 1, hi)
  {
    PrefixesDiffer(toks);
  }

  lemma BranchGrow(toks: Path, lo: int, hi: int)
    requires -1 <= lo <= hi < |toks|
    ensures Branch(toks, lo, hi + 1) == Branch(toks, lo, hi) + {toks[..hi + 1]}
  {
  }

  /** A lookup leaves what was cached in place. */
  ghost predicate Kept(s: CState, s': CState) {
    && (forall e | e in s.heap :: e in s'.heap && s'.heap[e] == s.heap[e])
    && (forall p | p in s.view :: p in s'.view)
    && (forall p | p in s.view && p in s.paths :: p in s'.paths && s'.paths[p] == s.paths[p])
  }

  /** The entry initEntry makes for toks, given the parent's entry. */
  ghost function EntryFor(txns: NS, s: CState, parent: CEntry?, toks: Path): Result<CData, Errno> {
    if parent == null then
      if 0 in txns.meta then Ok(CData(0, txns.meta[0])) else Err(ENOENT)
    else if !LiveEntry(s, parent) || s.heap[parent].value.node !in txns.meta then Err(ENOENT)
    else
      var d := s.heap[parent].value.node;
      if !IsDir(txns.meta[d].mode) then Err(ENOTDIR)
      else match Child(txns, d, Leaf(toks))
           case None => Err(ENOENT)
           case Some(n) => Ok(CData(n, txns.meta[n]))
  }

  /** parent is what lookup passes to initEntry for toks. */
  ghost predicate ParentFor(s: CState, parent: CEntry?, toks: Path) {
    if toks == [] then parent == null
    else Parent(toks) in s.view && Parent(toks) in s.paths && parent == s.paths[Parent(toks)]
  }

  lemma EntryForIsEntryOf(txns: NS, s: CState, pending: set<Path>, parent: CEntry?, toks: Path)
    requires MapOk(s, pending) && ParentFor(s, parent, toks)
    ensures EntryFor(txns, s, parent, toks) == EntryOf(txns, s.view, toks)
  {
  }

  /** The path an entry stores. */
  ghost function PathAt(s: CState, e: CEntry): Path {
    if LiveEntry(s, e) then s.heap[e].value.path else []
  }

  ghost function OrderOf(s: CState, q: seq<CEntry>): (r: seq<Path>)
    ensures |r| == |q|
  {
    if q == [] then [] else [PathAt(s, q[0])] + OrderOf(s, q[1..])
  }

  /** The cache as a plain map with its order of use. */
  ghost function Abs(s: CState): Cache {
    Cache(s.view, OrderOf(s, s.queue))
  }

  lemma ViewOfAbs(s: CState)
    ensures Abs(s).view == s.view
  {
  }

  lemma {:induction false} OrderFrame(s: CState, s': CState, q: seq<CEntry>)
    requires forall e | e in q :: PathAt(s', e) == PathAt(s, e)
    ensures OrderOf(s', q) == OrderOf(s, q)
    decreases |q|
  {
    if q != [] {
      OrderFrame(s, s', q[1..]);
    }
  }

  lemma {:induction false} OrderAppend(s: CState, q: seq<CEntry>, e: CEntry)
    ensures OrderOf(s, q + [e]) == OrderOf(s, q) + [PathAt(s, e)]
    decreases |q|
  {
    if q == [] {
      assert q + [e] == [e] && OrderOf(s, [e][1..]) == [];
    } else {
      assert (q + [e])[1..] == q[1..] + [e];
      OrderAppend(s, q[1..], e);
    }
  }

  lemma {:induction false} OrderErase(s: CState, q: seq<CEntry>, e: CEntry, p: Path)
    requires forall f | f in q :: PathAt(s, f) == p <==> f == e
    ensures OrderOf(s, Erase(q, e)) == Erase(OrderOf(s, q), p)
    decreases |q|
  {
    if q != [] {
      assert OrderOf(s, q)[1..] == OrderOf(s, q[1..]);
      OrderErase(s, q[1..], e, p);
      if q[0] != e {
        assert ([q[0]] + Erase(q[1..], e))[1..] == Erase(q[1..], e);
      }
    }
  }

  /** A queued entry stores its own path and no other queued entry does. */
  lemma OwnPath(s: CState, e: CEntry)
    requires Consistent(s, {}) && e in s.queue
    ensures LiveEntry(s, e) && PathAt(s, e) in s.view
    ensures forall f | f in s.queue :: PathAt(s, f) == PathAt(s, e) <==> f == e
  {
    QueuedLive(s, e);
    forall f | f in s.queue
      ensures PathAt(s, f) == PathAt(s, e) <==> f == e
    {
      QueuedLive(s, f);
    }
  }

  lemma DeletedIsForget(s: CState, e: CEntry)
    requires Consistent(s, {}) && e in s.queue
    ensures LiveEntry(s, e) && Abs(Deleted(s, e)) == Forget(Abs(s), PathAt(s, e))
  {
    OwnPath(s, e);
    OrderErase(s, s.queue, e, PathAt(s, e));
    EraseMembers(s.queue, e);
    OrderFrame(s, Deleted(s, e), Erase(s.queue, e));
  }

  lemma PromotedIsTouch(s: CState, e: CEntry)
    requires Consistent(s, {}) && e in s.queue
    ensures Abs(Promoted(s, e)) == Touch(Abs(s), PathAt(s, e))
  {
    OwnPath(s, e);
    OrderErase(s, s.queue, e, PathAt(s, e));
    OrderFrame(s, Promoted(s, e), Erase(s.queue, e));
    OrderAppend(Promoted(s, e), Erase(s.queue, e), e);
  }

  lemma InitialisedIsAdd(s: CState, p: Path, d: Data)
    requires p in s.paths && s.paths[p] !in s.queue && d.path == p
    ensures Abs(Initialised(s, p, d)) == Add(Abs(s), p, CData(d.node, d.meta))
  {
    var s' := Initialised(s, p, d);
    OrderFrame(s, s', s.queue);
    OrderAppend(s', s.queue, s.paths[p]);
  }

  /** initEntry completed the pending entry of p. */
  ghost predicate Completed(s: CState, s': CState, p: Path, d: CData) {
    && s'.paths == s.paths && s'.heap.Keys == s.heap.Keys && p in s.paths && p in s'.view
    && Abs(s') == Add(Abs(s), p, d)
    && (forall f | f in s.heap && f != s.paths[p] :: s'.heap[f] == s.heap[f])
  }

  /** initEntry gave up on the pending entry of p. */
  ghost predicate GivenUp(s: CState, s': CState, p: Path) {
    && s'.paths == s.paths && s'.heap.Keys == s.heap.Keys && s'.queue == s.queue && s'.view == s.view
    && s'.nentries == s.nentries && p in s.paths
    && (forall f | f in s.heap && f != s.paths[p] :: s'.heap[f] == s.heap[f])
  }

  lemma CompletedConsistent(s: CState, pending: set<Path>, parent: CEntry?, p: Path, c: CData)
    requires Consistent(s, pending) && p in pending && ParentFor(s, parent, p)
    ensures Consistent(Initialised(s, p, Data(p, c.node, parent, c.meta)), pending - {p})
    ensures Completed(s, Initialised(s, p, Data(p, c.node, parent, c.meta)), p, c)
  {
    hide MapOk, QueueOk, ParentsOk;
    var d := Data(p, c.node, parent, c.meta);
    InitialiseKeepsConsistent(s, pending, p, d);
    PendingNotQueued(s, pending, p);
    PendingLive(s, pending, p);
    InitialisedIsAdd(s, p, d);
  }

  lemma PendingLive(s: CState, pending: set<Path>, p: Path)
    requires Consistent(s, pending) && p in pending
    ensures p in s.paths && LiveEntry(s, s.paths[p]) && p !in s.view
  {
  }

  lemma CompletedShape(s: CState, s': CState, p: Path, d: CData)
    requires Completed(s, s', p, d)
    ensures s'.paths == s.paths && s'.heap.Keys == s.heap.Keys && Abs(s') == Add(Abs(s), p, d)
  {
  }

  lemma GivenUpShape(s: CState, s': CState, p: Path)
    requires GivenUp(s, s', p)
    ensures s'.paths == s.paths && s'.heap.Keys == s.heap.Keys
  {
  }

  /** A clean-up after initEntry gave up leaves a consistent cache with the same contents. */
  lemma GivenUpRollback(s: CState, s': CState, pending: set<Path>, p: Path)
    requires Consistent(s, pending) && p in pending && GivenUp(s, s', p)
    ensures Consistent(RolledBack(s', pending), {}) && Abs(RolledBack(s', pending)) == Abs(s)
  {
    hide QueueOk, ParentsOk, Abs, MapOk;
    PendingNotMapped(s, pending, p);
    GivenUpMap(s, s', pending, p);
    GivenUpQueue(s, s', pending, p);
    GivenUpParents(s, s', pending, p);
  }

  lemma GivenUpQueue(s: CState, s': CState, pending: set<Path>, p: Path)
    requires MapOk(s, pending) && QueueOk(s) && p in pending && GivenUp(s, s', p)
    ensures QueueOk(RolledBack(s', pending)) && Abs(RolledBack(s', pending)) == Abs(s)
  {
    hide QueueOk, OrderOf;
    PendingNotQueued(s, pending, p);
    QueueFrame(s, RolledBack(s', pending));
    QueueInHeap(s);
    OrderFrame(s, RolledBack(s', pending), s.queue);
  }

  lemma GivenUpParents(s: CState, s': CState, pending: set<Path>, p: Path)
    requires MapOk(s, pending) && ParentsOk(s) && p in pending && GivenUp(s, s', p)
    ensures ParentsOk(RolledBack(s', pending))
  {
    hide ParentsOk;
    PendingNotMapped(s, pending, p);
    ParentsFrame(s, RolledBack(s', pending));
  }

  lemma QueueInHeap(s: CState)
    requires QueueOk(s)
    ensures forall e | e in s.queue :: e in s.heap
  {
    forall e | e in s.queue
      ensures e in s.heap
    {
      QueuedLive(s, e);
    }
  }

  lemma GivenUpMap(s: CState, s': CState, pending: set<Path>, p: Path)
    requires MapOk(s, pending) && p in pending && GivenUp(s, s', p)
    requires forall q | q in s.view && q in s.paths :: s.paths[q] != s.paths[p]
    ensures MapOk(RolledBack(s', pending), {})
  {
  }

  lemma KeptRollback(s0: CState, s: CState, s': CState, pending: set<Path>, p: Path)
    requires Kept(s0, s) && GivenUp(s, s', p) && s.paths[p] !in s0.heap
    requires forall q | q in s0.view :: q !in pending
    ensures Kept(s0, RolledBack(s', pending))
  {
  }

  lemma KeptStep(s0: CState, s: CState, s': CState, p: Path, d: CData)
    requires Kept(s0, s) && Completed(s, s', p, d) && s.paths[p] !in s0.heap
    ensures Kept(s0, s')
  {
  }

  lemma KeptByInsert(s0: CState, s: CState, pending: set<Path>)
    requires Inserted(s0, s, pending)
    ensures Kept(s0, s)
  {
  }

  lemma InsertedApart(s0: CState, s: CState, pending: set<Path>)
    requires Consistent(s0, {}) && Inserted(s0, s, pending)
    ensures forall q | q in s0.view :: q !in pending
    ensures forall q | q in pending && q in s.paths :: s.paths[q] !in s0.heap
    ensures Abs(s) == Abs(s0)
  {
    QueueInHeap(s0);
    OrderFrame(s0, s, s0.queue);
  }

  /** Outside lookup the mapped paths are the initialised ones, and their entries are queued. */
  lemma MappedIsView(s: CState)
    requires Consistent(s, {})
    ensures s.paths.Keys == s.view.Keys
    ensures forall p | p in s.view :: LiveEntry(s, s.paths[p]) && s.paths[p] in s.queue &&
                                      s.view[p] == CData(s.heap[s.paths[p]].value.node, s.heap[s.paths[p]].value.meta)
  {
  }

  /** The parent link of a cached path, when still valid, leads to the entry of the parent path; so
      following links shortens the path, and no chain of links is cyclic. */
  lemma ValidParentIsMapped(s: CState, p: Path)
    requires Consistent(s, {}) && p in s.view && p != []
    ensures LiveEntry(s, s.paths[p])
    ensures var parent := s.heap[s.paths[p]].value.parent;
            parent != null && parent in s.heap &&
            (LiveEntry(s, parent) ==>
               Parent(p) in s.view && parent == s.paths[Parent(p)] && s.heap[parent].value.path == Parent(p))
  {
    assert ParentOk(s, p);
  }

  lemma KeptEntry(s: CState, s': CState, p: Path)
    requires Consistent(s, {}) && Kept(s, s') && p in s.view
    ensures p in s'.view && p in s'.paths && s'.paths[p] == s.paths[p] && LiveEntry(s', s.paths[p])
  {
  }

  lemma RelinkedSame(s: CState, p: Path)
    requires Consistent(s, {}) && p in s.view && p != [] && Parent(p) in s.view
    ensures LiveEntry(s, s.paths[p]) && Parent(p) in s.paths && Abs(Relinked(s, p)) == Abs(s)
  {
    OrderFrame(s, Relinked(s, p), s.queue);
  }

  lemma InsertedNone(s: CState)
    ensures Inserted(s, s, {})
  {
  }

  lemma InsertedStep(s0: CState, s: CState, pending: set<Path>, p: Path, e: CEntry, d: Option<Data>)
    requires Inserted(s0, s, pending) && p !in s.paths && e !in s.heap && d.Some?
    ensures Inserted(s0, s.(paths := s.paths[p := e], heap := s.heap[e := d]), pending + {p})
  {
  }

  lemma InsertedOld(s0: CState, s: CState, toks: Path, tok: nat)
    requires tok <= |toks| && Inserted(s0, s, Branch(toks, tok, |toks|)) && toks[..tok] in s.paths
    ensures toks[..tok] in s0.paths
  {
    PrefixesDiffer(toks);
  }

  lemma CountIsLength(s: CState)
    requires Consistent(s, {})
    ensures s.nentries == |s.queue| == |s.view| == |Abs(s).order|
  {
  }

  /** The oldest entry deleted is the oldest path dropped. */
  lemma OldestForgotten(s: CState)
    requires Consistent(s, {}) && s.queue != []
    ensures LiveEntry(s, s.queue[0]) && Deleted(s, s.queue[0]).heap.Keys == s.heap.Keys
    ensures Deleted(s, s.queue[0]).queue == s.queue[1..] && Deleted(s, s.queue[0]).nentries == s.nentries - 1
    ensures var c := Abs(s);
            c.order != [] && Abs(Deleted(s, s.queue[0])) == Cache(c.view - {c.order[0]}, c.order[1..])
  {
    hide QueueOk, MapOk, ParentsOk;
    DeletedIsForget(s, s.queue[0]);
    OwnPath(s, s.queue[0]);
    EraseFirst(s.queue);
    EraseFirst(Abs(s).order);
  }

  lemma EntryStoresPath(s: CState, p: Path)
    requires Consistent(s, {}) && p in s.view
    ensures LiveEntry(s, s.paths[p]) && PathAt(s, s.paths[p]) == p && s.paths[p] in s.queue
  {
  }

  lemma ConsistentIsWf(s: CState)
    requires Consistent(s, {})
    ensures WfCache(Abs(s))
  {
    forall i, j | 0 <= i < j < |s.queue|
      ensures OrderOf(s, s.queue)[i] != OrderOf(s, s.queue)[j]
    {
      OrderAt(s, s.queue, i);
      OrderAt(s, s.queue, j);
      OwnPath(s, s.queue[i]);
    }
    forall p
      ensures p in s.view <==> p in OrderOf(s, s.queue)
    {
      if p in s.view {
        EntryStoresPath(s, p);
        var i :| 0 <= i < |s.queue| && s.queue[i] == s.paths[p];
        OrderAt(s, s.queue, i);
      }
      if p in OrderOf(s, s.queue) {
        var i :| 0 <= i < |s.queue| && OrderOf(s, s.queue)[i] == p;
        OrderAt(s, s.queue, i);
        OwnPath(s, s.queue[i]);
      }
    }
  }

  lemma {:induction false} OrderAt(s: CState, q: seq<CEntry>, i: nat)
    requires i < |q|
    ensures OrderOf(s, q)[i] == PathAt(s, q[i])
    decreases i
  {
    if i > 0 {
      OrderAt(s, q[1..], i - 1);
    }
  }

  /** What the entry of a cached path is after a call: still that path's while it is cached, and invalid
      once it is not. */
  ghost predicate StaysAt(s: CState, s': CState, p: Path)
    requires p in s.paths
  {
    if p in s'.view then p in s'.paths && s'.paths[p] == s.paths[p]
    else s.paths[p] in s'.heap && s'.heap[s.paths[p]].None?
  }

  /** Invalid entries stay invalid. */
  ghost predicate DeadStay(s: CState, s': CState) {
    forall e | e in s.heap :: e in s'.heap && (s.heap[e].None? ==> s'.heap[e].None?)
  }

  ghost predicate Stays(s: CState, s': CState) {
    DeadStay(s, s') && forall p | p in s.view && p in s.paths :: StaysAt(s, s', p)
  }

  lemma StaysItself(s: CState)
    requires Consistent(s, {})
    ensures Stays(s, s)
  {
  }

  /** Of two calls one after the other, when the first drops nothing or the second adds nothing. */
  lemma StaysTrans(s: CState, t: CState, u: CState)
    requires Stays(s, t) && Stays(t, u) && Consistent(t, {})
    requires s.view.Keys <= t.view.Keys || u.view.Keys <= t.view.Keys
    ensures Stays(s, u)
  {
    forall p | p in s.view && p in s.paths
      ensures StaysAt(s, u, p)
    {
      assert StaysAt(s, t, p);
      if p in t.view {
        assert StaysAt(t, u, p);
      }
    }
  }

  lemma KeptStays(s: CState, s': CState)
    requires Kept(s, s')
    ensures Stays(s, s') && s.view.Keys <= s'.view.Keys
  {
  }

  lemma RelinkedStays(s: CState, p: Path)
    requires Consistent(s, {}) && p in s.paths && LiveEntry(s, s.paths[p]) && Parent(p) in s.paths
    ensures Stays(s, Relinked(s, p))
  {
  }

  lemma DeletedStays(s: CState, e: CEntry)
    requires Consistent(s, {}) && e in s.queue
    ensures LiveEntry(s, e) && Stays(s, Deleted(s, e)) && Deleted(s, e).view.Keys <= s.view.Keys
  {
    OwnPath(s, e);
  }

  lemma RemappedStays(s: CState, s': CState)
    requires Consistent(s, {}) && s'.heap == s.heap && s'.paths == s.paths && s'.view == s.view
    ensures Stays(s, s')
  {
  }

  /** The entry just promoted outlives the evictions, with its node. */
  lemma YoungestIsLive(s: CState, s': CState, p: Path, max: nat)
    requires Consistent(s, {}) && Consistent(s', {}) && Stays(s, s') && Abs(s') == Fit(Abs(s), max) && max >= 1
    requires p in s.view && p in s.paths && Abs(s).order != [] && Abs(s).order[|Abs(s).order| - 1] == p
    ensures p in s'.view && s'.view[p] == s.view[p] && p in s'.paths && s'.paths[p] == s.paths[p]
    ensures LiveEntry(s', s.paths[p]) && s'.heap[s.paths[p]].value.node == s.view[p].node
  {
    hide QueueOk, ParentsOk, Fit, OrderOf;
    ConsistentIsWf(s);
    FitKeepsYoungest(Abs(s), max, p);
    assert StaysAt(s, s', p);
  }

  /** lookup's second loop has got as far as the first tok tokens. */
  ghost predicate LookedUp(txns: NS, s0: CState, s: CState, toks: Path, tok: int)
    requires tok <= |toks|
  {
    if tok < 0 then Abs(s) == Abs(s0) else Look(txns, Abs(s0), toks[..tok]) == (Abs(s), OK)
  }

  lemma LookStarts(txns: NS, s0: CState, s: CState, toks: Path, tok: int)
    requires tok <= |toks| && Abs(s) == Abs(s0) && (tok >= 0 ==> toks[..tok] in s0.view)
    ensures LookedUp(txns, s0, s, toks, tok)
  {
  }

  lemma LookTurn(txns: NS, s0: CState, s: CState, toks: Path, tok: int)
    requires -1 <= tok < |toks| && LookedUp(txns, s0, s, toks, tok)
    requires forall q | q in s0.view :: q !in Branch(toks, tok, |toks|)
    ensures var p := toks[..tok + 1];
            && (p != [] ==> Parent(p) in s.view)
            && match EntryOf(txns, s.view, p)
               case Ok(d) => Look(txns, Abs(s0), p) == (Add(Abs(s), p, d), OK)
               case Err(f) => Look(txns, Abs(s0), toks) == (Abs(s), f)
  {
    hide OrderOf, EntryOf;
    var p := toks[..tok + 1];
    assert p != [] ==> Parent(p) == toks[..tok];
    forall j | tok + 1 <= j <= |toks|
      ensures toks[..j] !in s0.view
    {
      assert toks[..j] in Branch(toks, tok, |toks|);
    }
    if EntryOf(txns, s.view, p).Err? {
      LookFailsBeyond(txns, Abs(s0), toks, tok + 1);
    }
  }

  /** A lookup that fails for a prefix of toks with nothing cached from there on fails for toks. */
  lemma {:induction false} LookFailsBeyond(txns: NS, c: Cache, toks: Path, i: nat)
    requires i <= |toks| && Look(txns, c, toks[..i]).1 != OK
    requires forall j | i <= j <= |toks| :: toks[..j] !in c.view
    ensures Look(txns, c, toks) == Look(txns, c, toks[..i])
    decreases |toks|
  {
    assert toks[..|toks|] == toks;
    if i < |toks| {
      var q := Parent(toks);
      forall j | i <= j <= |q|
        ensures q[..j] == toks[..j]
      {
      }
      LookFailsBeyond(txns, c, q, i);
    }
  }
}
