/** The cache of security contexts as the program keeps it: a map whose elements point into a list
    of keys, a counter, and the time of the last clearing. */
module SContextCaches {
  import opened Wrappers
  import opened Modes
  import opened Recency
  import opened Seqs

  /** A list node: its address, which an iterator is, and its key. */
  datatype QNode = QNode(id: nat, key: CKey)

  datatype CElem = CElem(sctx: SContext, qit: nat)

  function KeysOf(queue: seq<QNode>): (r: seq<CKey>)
    ensures |r| == |queue| && forall i | 0 <= i < |queue| :: r[i] == queue[i].key
  {
    if queue == [] then [] else [queue[0].key] + KeysOf(queue[1..])
  }

  /** list::erase. */
  function EraseAt(queue: seq<QNode>, id: nat): (r: seq<QNode>)
    ensures forall n :: n in r ==> n in queue
    ensures |r| == if (exists n :: n in queue && n.id == id) then |queue| - 1 else |queue|
  {
    if queue == [] then []
    else if queue[0].id == id then
      assert queue[0] in queue;
      queue[1..]
    else
      assert forall n :: n in queue <==> n == queue[0] || n in queue[1..];
      [queue[0]] + EraseAt(queue[1..], id)
  }

  function ValsOf(cache: map<CKey, CElem>): (r: map<CKey, SContext>)
    ensures forall k :: k in r <==> k in cache
    ensures forall k | k in cache :: r[k] == cache[k].sctx
  {
    map k | k in cache :: cache[k].sctx
  }

  /** Each list node is the one its key's element points to; addresses are not shared. */
  ghost predicate Linked(cache: map<CKey, CElem>, queue: seq<QNode>, next: nat) {
    && (forall n | n in queue :: n.key in cache && cache[n.key].qit == n.id && n.id < next)
    && (forall n, m | n in queue && m in queue && n.id == m.id :: n.key == m.key)
  }

  lemma {:induction false} EraseAtIsErase(queue: seq<QNode>, id: nat, k: CKey)
    requires forall n | n in queue :: n.id == id <==> n.key == k
    ensures KeysOf(EraseAt(queue, id)) == Erase(KeysOf(queue), k)
    decreases |queue|
  {
    if queue != [] {
      assert KeysOf(queue)[1..] == KeysOf(queue[1..]);
      EraseAtIsErase(queue[1..], id, k);
    }
  }

  /** The element of a key that is in the queue points at the node of that key, and at no other. */
  lemma PointsHome(cache: map<CKey, CElem>, queue: seq<QNode>, next: nat, k: CKey)
    requires Linked(cache, queue, next) && k in KeysOf(queue)
    ensures k in cache && forall n | n in queue :: n.id == cache[k].qit <==> n.key == k
  {
    var i :| 0 <= i < |queue| && KeysOf(queue)[i] == k;
    assert queue[i] in queue;
  }

  lemma LinkedPart(cache: map<CKey, CElem>, queue: seq<QNode>, cache': map<CKey, CElem>, queue': seq<QNode>,
                   next: nat, next': nat)
    requires Linked(cache, queue, next) && next <= next'
    requires forall n | n in queue' :: n in queue && n.key in cache' && cache'[n.key] == cache[n.key]
    ensures Linked(cache', queue', next')
  {
  }

  lemma NodeKey(queue: seq<QNode>, n: QNode)
    requires n in queue
    ensures n.key in KeysOf(queue)
  {
    var i :| 0 <= i < |queue| && queue[i] == n;
    assert KeysOf(queue)[i] == n.key;
  }

  /** A node in front of the others, for a key that has none. */
  lemma Fronted(cache: map<CKey, CElem>, queue: seq<QNode>, next: nat, k: CKey, c: SContext)
    requires Linked(cache, queue, next) && k !in KeysOf(queue)
    ensures var queue' := [QNode(next, k)] + queue;
            && Linked(cache[k := CElem(c, next)], queue', next + 1)
            && KeysOf(queue') == [k] + KeysOf(queue)
            && ValsOf(cache[k := CElem(c, next)]) == ValsOf(cache)[k := c]
  {
    forall n | n in queue
      ensures n.key != k
    {
      NodeKey(queue, n);
    }
    assert ([QNode(next, k)] + queue)[1..] == queue;
  }

  /** A key's node taken out of the list. */
  lemma Unlinked(cache: map<CKey, CElem>, queue: seq<QNode>, next: nat, k: CKey)
    requires Linked(cache, queue, next) && Distinct(KeysOf(queue)) && k in KeysOf(queue)
    ensures k in cache
    ensures var queue' := EraseAt(queue, cache[k].qit);
            && Linked(cache, queue', next)
            && KeysOf(queue') == Erase(KeysOf(queue), k)
            && k !in KeysOf(queue') && |queue'| == |queue| - 1
  {
    PointsHome(cache, queue, next, k);
    var queue' := EraseAt(queue, cache[k].qit);
    EraseAtIsErase(queue, cache[k].qit, k);
    ErasedFront(KeysOf(queue), k);
    LinkedPart(cache, queue, cache, queue', next, next);
  }

  lemma LinkedLater(cache: map<CKey, CElem>, queue: seq<QNode>, next: nat)
    requires Linked(cache, queue, next)
    ensures Linked(cache, queue, next + 1)
  {
  }

  lemma Queued(st: Abs, k: CKey)
    requires Wf(st)
    ensures k in st.queue <==> k in st.vals
    ensures Distinct(st.queue)
  {
  }

  /** A cached key moved to the front: the same contexts, the element pointing at the new node. */
  lemma Promoted(cache: map<CKey, CElem>, queue: seq<QNode>, next: nat, k: CKey, checktime: int)
    requires Linked(cache, queue, next) && Wf(Abs(KeysOf(queue), ValsOf(cache), checktime)) && k in cache
    ensures var queue' := [QNode(next, k)] + EraseAt(queue, cache[k].qit);
            var cache' := cache[k := cache[k].(qit := next)];
            && Linked(cache', queue', next + 1) && |queue'| == |queue|
            && KeysOf(queue') == [k] + Erase(KeysOf(queue), k) && ValsOf(cache') == ValsOf(cache)
            && k in ValsOf(cache) && ValsOf(cache)[k] == cache[k].sctx
  {
    hide Linked, Wf, Distinct, KeysOf, Erase, EraseAt, ValsOf;
    Queued(Abs(KeysOf(queue), ValsOf(cache), checktime), k);
    Unlinked(cache, queue, next, k);
    Fronted(cache, EraseAt(queue, cache[k].qit), next, k, cache[k].sctx);
    assert ValsOf(cache)[k := cache[k].sctx] == ValsOf(cache);
    assert cache[k].(qit := next) == CElem(cache[k].sctx, next);
  }

  /** The oldest key and its element given up. Nothing is proved by induction on the list here. */
  lemma {:induction false} Shortened(cache: map<CKey, CElem>, queue: seq<QNode>, next: nat, checktime: int)
    requires Linked(cache, queue, next) && Wf(Abs(KeysOf(queue), ValsOf(cache), checktime)) && |queue| == MAX_ELEMS
    ensures var last := |queue| - 1;
            var cache' := cache - {queue[last].key};
            && Linked(cache', queue[..last], next)
            && Abs(KeysOf(queue[..last]), ValsOf(cache'), checktime)
               == Trimmed(Abs(KeysOf(queue), ValsOf(cache), checktime))
  {
    hide Wf;
    var last := |queue| - 1;
    var q := KeysOf(queue);
    Queued(Abs(q, ValsOf(cache), checktime), q[last]);
    assert KeysOf(queue[..last]) == q[..last];
    assert ValsOf(cache - {queue[last].key}) == ValsOf(cache) - {q[last]};
    forall n | n in queue[..last]
      ensures n.key != queue[last].key
    {
      var i :| 0 <= i < last && queue[i] == n;
      assert q[i] != q[last];
    }
    LinkedPart(cache, queue, cache - {queue[last].key}, queue[..last], next, next);
  }

  /** Distinct keys, the same as the map's: as many as the map has. */
  lemma {:induction false} Counted(q: seq<CKey>, ks: set<CKey>)
    requires Distinct(q) && forall k :: k in ks <==> k in q
    ensures |q| == |ks|
    decreases |q|
  {
    if q == [] {
      assert ks == {};
    } else {
      assert q == [q[0]] + q[1..];
      DistinctCons(q[0], q[1..]);
      Counted(q[1..], ks - {q[0]});
    }
  }

  class SContextCache {
    var cache: map<CKey, CElem>
    var queue: seq<QNode>
    var nelems: int
    var checktime: int
    /** Addresses below this one have been given to list nodes. */
    var next: nat

    ghost function View(): Abs
      reads this
    {
      Abs(KeysOf(queue), ValsOf(cache), checktime)
    }

    ghost predicate Valid()
      reads this
    {
      nelems == |queue| && Linked(cache, queue, next) && Wf(View())
    }

    constructor (e: Event)
      ensures Valid() && View() == UpToDate(Abs([], map[], 0), e)
    {
      nelems := 0;
      checktime := 0;
      next := 0;
      cache := map[];
      queue := [];
      new;
      Refresh(e);
    }

    /** uptodate. */
    method Refresh(e: Event)
      requires Valid()
      modifies this
      ensures Valid() && View() == UpToDate(old(View()), e)
      ensures ChangedAfter(e, old(checktime)) ==> nelems == 0 && queue == [] && cache == map[] && checktime == e.now
      ensures !ChangedAfter(e, old(checktime)) ==> View() == old(View())
    {
      if NewerThan(e.passwd, checktime) || NewerThan(e.group, checktime) {
        checktime := e.now;
        nelems := 0;
        cache := map[];
        queue := [];
      }
    }

    /** The answer and the new state are the ones Step gives, throw or not; the counter, the map and
        the list agree. */
    method Get(e: Event) returns (r: Option<SContext>)
      requires Valid()
      modifies this
      ensures Valid() && (View(), r) == Step(old(View()), e)
      ensures nelems == |queue| == |cache| <= MAX_ELEMS
    {
      Refresh(e);
      ServeKeepsWf(View(), e);
      TrimmedWf(View());
      if e.key !in cache {
        r := Insert(e);
      } else {
        r := Promote(e);
      }
      Counted(KeysOf(queue), cache.Keys);
    }

    method Insert(e: Event) returns (r: Option<SContext>)
      requires Valid() && e.key !in cache
      requires Wf(Trimmed(View())) && |Trimmed(View()).queue| < MAX_ELEMS && Wf(Serve(View(), e).0)
      modifies this
      ensures Valid() && (View(), r) == Serve(old(View()), e)
    {
      hide Linked, Wf, Distinct, KeysOf, ValsOf;
      if nelems == MAX_ELEMS {
        Shortened(cache, queue, next, checktime);
        cache := cache - {queue[|queue| - 1].key};
        queue := queue[..|queue| - 1];
      } else {
        nelems := nelems + 1;
      }
      ghost var t := queue;
      assert View() == Trimmed(old(View())) && Linked(cache, queue, next);
      queue := [QNode(next, e.key)] + queue;
      match e.data(e.key)
      case None =>
        queue := queue[1..];
        nelems := nelems - 1;
        assert queue == t;
        LinkedLater(cache, queue, next);
        r := None;
      case Some(c) =>
        Queued(Abs(KeysOf(t), ValsOf(cache), checktime), e.key);
        Fronted(cache, t, next, e.key, c);
        cache := cache[e.key := CElem(c, queue[0].id)];
        r := Some(c);
      next := next + 1;
    }

    method Promote(e: Event) returns (r: Option<SContext>)
      requires Valid() && e.key in cache && Wf(Serve(View(), e).0)
      modifies this
      ensures Valid() && (View(), r) == Serve(old(View()), e)
    {
      hide Linked, Wf, Distinct, KeysOf, ValsOf, Erase, EraseAt;
      Promoted(cache, queue, next, e.key, checktime);
      queue := EraseAt(queue, cache[e.key].qit);
      queue := [QNode(next, e.key)] + queue;
      cache := cache[e.key := cache[e.key].(qit := queue[0].id)];
      next := next + 1;
      r := Some(cache[e.key].sctx);
    }
  }
}
