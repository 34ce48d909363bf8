/** Several threads at one path cache. Each call holds the lock until getnode has its entry, but the node id
    is read from the entry after the lock is released. What happens to the entry in between: the read
    is right exactly if the path stays cached all along, and otherwise finds an entry without data. */
module SharedCache {
  import opened Wrappers
  import opened Modes
  import opened Namespace
  import opened Seqs
  import opened CacheModel
  import opened CacheState
  import opened PathCaches

  /** A call of another thread, with the tables as that thread's transaction has them. */
  datatype Call = Get(ns: NS, ctx: SContext, p: Path) | Drop(p: Path)

  function Apply(c: Cache, call: Call, max: nat): Cache {
    match call
    case Get(ns, ctx, p) => GetNodeIn(ns, ctx, c, p, max).0
    case Drop(p) => Forget(c, p)
  }

  /** The cache after these calls, one holding the lock after the other. */
  function After(c: Cache, calls: seq<Call>, max: nat): Cache {
    if calls == [] then c else Apply(After(c, calls[..|calls| - 1], max), calls[|calls| - 1], max)
  }

  /** p is cached now and after every one of the calls. */
  ghost predicate StaysCached(c: Cache, calls: seq<Call>, p: Path, max: nat) {
    forall i | 0 <= i <= |calls| :: p in After(c, calls[..i], max).view
  }

  lemma AfterNext(c: Cache, calls: seq<Call>, i: nat, max: nat)
    requires i < |calls|
    ensures After(c, calls[..i + 1], max) == Apply(After(c, calls[..i], max), calls[i], max)
  {
    assert calls[..i + 1][..i] == calls[..i];
  }

  /** What a call leaves cached of an earlier entry is the entry. */
  lemma ApplyKeepsValue(c: Cache, call: Call, max: nat, p: Path)
    requires p in c.view && p in Apply(c, call, max).view
    ensures Apply(c, call, max).view[p] == c.view[p]
  {
    match call
    case Get(ns, ctx, q) =>
      hide Find, Fit;
      FindExtends(ns, ctx, c, q);
      FitShrinks(Touch(Find(ns, ctx, c, q).0, q), max);
    case Drop(q) =>
      ForgetView(c, q);
  }

  ghost predicate Owns(s: CState, p: Path, cen: CEntry) {
    p in s.view && p in s.paths && s.paths[p] == cen
  }

  ghost predicate Dead(s: CState, cen: CEntry) {
    cen in s.heap && s.heap[cen].None?
  }

  /** The entry of p still is that, or p has not been cached all along and the entry is invalid for good. */
  ghost predicate Fate(s: CState, p: Path, cen: CEntry, stayed: bool) {
    if stayed then Owns(s, p, cen) else Dead(s, cen)
  }

  lemma FateGoesOn(s: CState, s': CState, p: Path, cen: CEntry, stayed: bool)
    requires Consistent(s, {}) && Consistent(s', {}) && Stays(s, s') && Fate(s, p, cen, stayed)
    ensures Fate(s', p, cen, stayed && p in s'.view)
  {
    hide Consistent, Stays;
    if stayed {
      OwnerStays(s, s', p);
    } else {
      DeadStays(s, s', cen);
    }
  }

  lemma OwnerStays(s: CState, s': CState, p: Path)
    requires Stays(s, s') && p in s.view && p in s.paths
    ensures StaysAt(s, s', p)
  {
  }

  lemma DeadStays(s: CState, s': CState, cen: CEntry)
    requires Stays(s, s') && Dead(s, cen)
    ensures Dead(s', cen)
  {
  }

  lemma StaysCachedNext(c: Cache, calls: seq<Call>, i: nat, p: Path, max: nat)
    requires i < |calls|
    ensures StaysCached(c, calls[..i + 1], p, max)
            <==> StaysCached(c, calls[..i], p, max) && p in After(c, calls[..i + 1], max).view
  {
    hide After;
    var longer, shorter := calls[..i + 1], calls[..i];
    assert longer[..i + 1] == longer;
    forall j | 0 <= j <= i
      ensures After(c, longer[..j], max) == After(c, shorter[..j], max)
    {
      assert longer[..j] == shorter[..j];
    }
  }

  /** The other threads' calls. */
  method Others(pcache: PathCacheHash, calls: seq<Call>, ghost p: Path, cen: CEntry)
    requires pcache.Valid() && Owns(pcache.st, p, cen)
    modifies pcache, pcache.st.heap.Keys
    ensures pcache.Valid() && fresh(pcache.st.heap.Keys - old(pcache.st).heap.Keys)
    ensures Abs(pcache.st) == After(Abs(old(pcache.st)), calls, pcache.maxentries)
    ensures cen.IsValid() <==> StaysCached(Abs(old(pcache.st)), calls, p, pcache.maxentries)
    ensures cen.IsValid() ==> cen.data.value.node == old(pcache.st).view[p].node
  {
    hide Consistent, Abs, Stays, After, StaysCached, Apply;
    ghost var c, max := Abs(pcache.st), pcache.maxentries;
    Untouched(pcache.st, p, cen, c, max);
    var i := 0;
    while i < |calls|
      invariant 0 <= i <= |calls| && pcache.Valid() && pcache.maxentries == max
      invariant fresh(pcache.st.heap.Keys - old(pcache.st).heap.Keys)
      invariant Abs(pcache.st) == After(c, calls[..i], max)
      invariant Fate(pcache.st, p, cen, StaysCached(c, calls[..i], p, max))
      invariant p in pcache.st.view && StaysCached(c, calls[..i], p, max) ==>
                  pcache.st.view[p] == old(pcache.st).view[p]
    {
      ghost var s := pcache.st;
      AfterNext(c, calls, i, max);
      StaysCachedNext(c, calls, i, p, max);
      ViewOfAbs(s);
      Serve(pcache, calls[i]);
      ViewOfAbs(pcache.st);
      FateGoesOn(s, pcache.st, p, cen, StaysCached(c, calls[..i], p, max));
      if p in s.view && p in pcache.st.view {
        ApplyKeepsValue(Abs(s), calls[i], max, p);
      }
      i := i + 1;
    }
    assert calls[..|calls|] == calls;
    FateSeen(pcache.st, p, cen, StaysCached(c, calls, p, max));
  }

  lemma Untouched(s: CState, p: Path, cen: CEntry, c: Cache, max: nat)
    requires Owns(s, p, cen) && c == Abs(s)
    ensures forall calls: seq<Call> :: After(c, calls[..0], max) == c && StaysCached(c, calls[..0], p, max)
  {
    ViewOfAbs(s);
  }

  lemma FateSeen(s: CState, p: Path, cen: CEntry, stayed: bool)
    requires Consistent(s, {}) && Fate(s, p, cen, stayed)
    ensures cen in s.heap && (s.heap[cen].Some? <==> stayed)
    ensures stayed ==> s.heap[cen].value.node == s.view[p].node
  {
    MappedIsView(s);
  }

  /** getnode as one thread runs it, other threads' calls coming between the release of the lock and the
      read. None stands for the read of an entry without data. */
  method SharedGetNode(pcache: PathCacheHash, txns: NS, ctx: SContext, toks: Path, others: seq<Call>)
    returns (r: Option<Result<Id, Errno>>)
    requires pcache.Valid()
    modifies pcache, pcache.st.heap.Keys
    ensures pcache.Valid() && fresh(pcache.st.heap.Keys - old(pcache.st).heap.Keys)
    ensures Abs(pcache.st) == After(GetNodeIn(txns, ctx, Abs(old(pcache.st)), toks, pcache.maxentries).0, others,
                                    pcache.maxentries)
    ensures r.Some? ==> r.value == GetNodeIn(txns, ctx, Abs(old(pcache.st)), toks, pcache.maxentries).1
    ensures r.None? <==>
              && Find(txns, ctx, Abs(old(pcache.st)), toks).1 == OK
              && !StaysCached(GetNodeIn(txns, ctx, Abs(old(pcache.st)), toks, pcache.maxentries).0, others, toks,
                              pcache.maxentries)
  {
    hide Consistent, Abs, Stays, After, StaysCached, GetNodeIn, Find;
    var e, cen := pcache.Fetch(txns, ctx, toks);
    if e != OK {
      Rest(pcache, others);
      return Some(Err(e));
    }
    Others(pcache, others, toks, cen);
    if !cen.IsValid() {
      return None;
    }
    r := Some(NodeOf(txns, cen.data.value.node));
  }

  /** The other threads' calls, when no entry waits to be read. */
  method Rest(pcache: PathCacheHash, calls: seq<Call>)
    requires pcache.Valid()
    modifies pcache, pcache.st.heap.Keys
    ensures pcache.Valid() && fresh(pcache.st.heap.Keys - old(pcache.st).heap.Keys)
    ensures Abs(pcache.st) == After(Abs(old(pcache.st)), calls, pcache.maxentries)
  {
    hide Consistent, Abs, Stays, After, GetNodeIn, Forget, Find;
    ghost var c, max := Abs(pcache.st), pcache.maxentries;
    AfterNone(c, calls, max);
    var i := 0;
    while i < |calls|
      invariant 0 <= i <= |calls| && pcache.Valid() && pcache.maxentries == max
      invariant fresh(pcache.st.heap.Keys - old(pcache.st).heap.Keys)
      invariant Abs(pcache.st) == After(c, calls[..i], max)
    {
      AfterNext(c, calls, i, max);
      Serve(pcache, calls[i]);
      i := i + 1;
    }
    assert calls[..|calls|] == calls;
  }

  lemma AfterNone(c: Cache, calls: seq<Call>, max: nat)
    ensures After(c, calls[..0], max) == c
  {
  }

  /** One call of another thread. */
  method Serve(pcache: PathCacheHash, call: Call)
    requires pcache.Valid()
    modifies pcache, pcache.st.heap.Keys
    ensures pcache.Valid() && fresh(pcache.st.heap.Keys - old(pcache.st).heap.Keys)
    ensures Abs(pcache.st) == Apply(Abs(old(pcache.st)), call, pcache.maxentries) && Stays(old(pcache.st), pcache.st)
  {
    hide Consistent, Abs, Stays, GetNodeIn, Forget, Find;
    match call {
      case Get(ns, ctx, q) =>
        var e, cen := pcache.Fetch(ns, ctx, q);
      case Drop(q) => pcache.Invalidate(q);
    }
  }

  /** How many entries these calls can add. */
  function Added(calls: seq<Call>): nat {
    if calls == [] then 0
    else Added(calls[..|calls| - 1]) + match calls[|calls| - 1] case Get(_, _, p) => |p| + 1 case Drop(_) => 0
  }

  lemma {:induction false} AddedGrows(calls: seq<Call>, i: nat)
    requires i <= |calls|
    ensures Added(calls[..i]) <= Added(calls)
    decreases |calls| - i
  {
    if i == |calls| {
      assert calls[..i] == calls;
    } else {
      AddedGrows(calls, i + 1);
      assert calls[..i + 1][..i] == calls[..i];
    }
  }

  lemma GetKeepsAll(ns: NS, ctx: SContext, c: Cache, p: Path, max: nat)
    requires WfCache(c) && |c.view| + |p| + 1 <= max
    ensures forall q | q in c.view :: q in GetNodeIn(ns, ctx, c, p, max).0.view
  {
    hide Find, Fit, WfCache, Touch;
    var (c1, e) := Find(ns, ctx, c, p);
    FindExtends(ns, ctx, c, p);
    FindKeepsWf(ns, ctx, c, p);
    ExtendsSize(c, c1, p);
    OrderSize(c);
    if e == OK {
      TouchShape(c1, p);
      TouchKeepsWf(c1, p);
      FitShrinks(Touch(c1, p), max);
    }
  }

  lemma {:induction false} AfterSize(c: Cache, calls: seq<Call>, max: nat)
    requires WfCache(c)
    ensures WfCache(After(c, calls, max)) && |After(c, calls, max).view| <= |c.view| + Added(calls)
    decreases |calls|
  {
    hide WfCache, GetNodeIn, Forget;
    if calls != [] {
      var c1 := After(c, calls[..|calls| - 1], max);
      AfterSize(c, calls[..|calls| - 1], max);
      match calls[|calls| - 1]
      case Get(ns, ctx, p) =>
        GetNodeKeepsWf(ns, ctx, c1, p, max);
        GetNodeSize(ns, ctx, c1, p, max);
      case Drop(p) =>
        ForgetKeepsWf(c1, p);
        SubsetSize((c1.view - {p}).Keys, c1.view.Keys);
        assert |(c1.view - {p}).Keys| == |c1.view - {p}| && |c1.view.Keys| == |c1.view|;
    }
  }

  /** While there is room for all, the read is safe exactly if none of the calls drops the path. */
  lemma SafeReadIff(c: Cache, calls: seq<Call>, p: Path, max: nat)
    requires WfCache(c) && p in c.view && |c.view| + Added(calls) <= max
    ensures StaysCached(c, calls, p, max) <==> Drop(p) !in calls
  {
    hide After, WfCache, Apply;
    if Drop(p) in calls {
      var i :| 0 <= i < |calls| && calls[i] == Drop(p);
      AfterNext(c, calls, i, max);
      DropDrops(After(c, calls[..i], max), p, max);
    } else {
      forall i | 0 <= i <= |calls|
        ensures p in After(c, calls[..i], max).view
      {
        NotDropped(c, calls, p, max, i);
      }
    }
  }

  lemma DropDrops(c: Cache, p: Path, max: nat)
    ensures p !in Apply(c, Drop(p), max).view
  {
    ForgetView(c, p);
  }

  lemma {:induction false} NotDropped(c: Cache, calls: seq<Call>, p: Path, max: nat, i: nat)
    requires WfCache(c) && p in c.view && |c.view| + Added(calls) <= max && Drop(p) !in calls && i <= |calls|
    ensures p in After(c, calls[..i], max).view
    decreases i
  {
    hide WfCache, GetNodeIn, Forget;
    if i > 0 {
      var c1 := After(c, calls[..i - 1], max);
      NotDropped(c, calls, p, max, i - 1);
      AfterNext(c, calls, i - 1, max);
      AfterSize(c, calls[..i - 1], max);
      AddedGrows(calls, i);
      assert calls[..i][..i - 1] == calls[..i - 1];
      match calls[i - 1]
      case Get(ns, ctx, q) => GetKeepsAll(ns, ctx, c1, q, max);
      case Drop(q) => ForgetView(c1, q);
    }
  }
}
