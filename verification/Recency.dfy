/** The cache of security contexts as values: what one request does to it, and what holds over
    every sequence of requests. */
module Recency {
  import opened Wrappers
  import opened Modes
  import opened Seqs

  datatype CKey = CKey(uid: nat, gid: nat)

  const MAX_ELEMS: nat := 40

  /** One request: its key, the clock, the times stamped on /etc/passwd and /etc/group (None when
      stat fails), and what reading the two files would give (None when that throws). */
  datatype Event = Event(key: CKey, now: int, passwd: Option<int>, group: Option<int>,
                         data: CKey -> Option<SContext>)

  /** The keys, newest first, their contexts, and the time of the last clearing. */
  datatype Abs = Abs(queue: seq<CKey>, vals: map<CKey, SContext>, checktime: int)

  predicate NewerThan(stamp: Option<int>, t: int) {
    stamp.None? || stamp.value > t
  }

  predicate Outdated(st: Abs, e: Event) {
    NewerThan(e.passwd, st.checktime) || NewerThan(e.group, st.checktime)
  }

  /** One of the files has been changed after t, or cannot be examined. */
  predicate ChangedAfter(e: Event, t: int) {
    e.passwd.None? || e.passwd.value > t || e.group.None? || e.group.value > t
  }

  lemma OutdatedIff(st: Abs, e: Event)
    ensures Outdated(st, e) <==> ChangedAfter(e, st.checktime)
  {
  }

  function UpToDate(st: Abs, e: Event): Abs {
    if Outdated(st, e) then Abs([], map[], e.now) else st
  }

  /** Room for one more: a full cache gives up its oldest key. */
  function Trimmed(st: Abs): Abs {
    if |st.queue| == MAX_ELEMS
    then Abs(st.queue[..MAX_ELEMS - 1], st.vals - {st.queue[MAX_ELEMS - 1]}, st.checktime)
    else st
  }

  /** A request on a cache that is up to date: its effect and its answer, None when it throws. */
  function Serve(s: Abs, e: Event): (Abs, Option<SContext>) {
    if e.key in s.vals then
      (Abs([e.key] + Erase(s.queue, e.key), s.vals, s.checktime), Some(s.vals[e.key]))
    else
      var t := Trimmed(s);
      match e.data(e.key)
      case None => (t, None)
      case Some(c) => (Abs([e.key] + t.queue, t.vals[e.key := c], t.checktime), Some(c))
  }

  function Step(st: Abs, e: Event): (Abs, Option<SContext>) {
    Serve(UpToDate(st, e), e)
  }

  ghost predicate Wf(st: Abs) {
    Distinct(st.queue) && |st.queue| <= 40 && forall k :: k in st.vals <==> k in st.queue
  }

  lemma DistinctCons(k: CKey, q: seq<CKey>)
    ensures Distinct([k] + q) <==> Distinct(q) && k !in q
  {
    if Distinct([k] + q) {
      forall j | 0 <= j < |q|
        ensures q[j] != k && forall i | 0 <= i < j :: q[i] != q[j]
      {
        assert ([k] + q)[0] != ([k] + q)[j + 1];
        forall i | 0 <= i < j
          ensures q[i] != q[j]
        {
          assert ([k] + q)[i + 1] != ([k] + q)[j + 1];
        }
      }
    }
  }

  lemma ErasedFront(q: seq<CKey>, k: CKey)
    requires Distinct(q)
    ensures Distinct(Erase(q, k)) && k !in Erase(q, k)
    ensures Distinct([k] + Erase(q, k))
    ensures forall x :: x in Erase(q, k) <==> x in q && x != k
    ensures |Erase(q, k)| == if k in q then |q| - 1 else |q|
  {
    EraseDistinct(q, k);
    EraseMembers(q, k);
    DistinctCons(k, Erase(q, k));
  }

  lemma TrimmedWf(st: Abs)
    requires Wf(st)
    ensures Wf(Trimmed(st)) && |Trimmed(st).queue| < MAX_ELEMS
    ensures Trimmed(st).queue <= st.queue
    ensures forall k | k in Trimmed(st).vals :: k in st.vals && Trimmed(st).vals[k] == st.vals[k]
  {
    var q := st.queue;
    if |q| == MAX_ELEMS {
      assert q == q[..MAX_ELEMS - 1] + [q[MAX_ELEMS - 1]];
    }
  }

  /** No request, throwing or not, breaks the bound or the match between queue and map. */
  lemma StepKeepsWf(st: Abs, e: Event)
    requires Wf(st)
    ensures Wf(Step(st, e).0)
  {
    ServeKeepsWf(UpToDate(st, e), e);
  }

  lemma ServeKeepsWf(s: Abs, e: Event)
    requires Wf(s)
    ensures Wf(Serve(s, e).0)
  {
    if e.key in s.vals {
      ErasedFront(s.queue, e.key);
    } else {
      TrimmedWf(s);
      DistinctCons(e.key, Trimmed(s).queue);
    }
  }

  /** The cache after a sequence of requests, the last one being the last element. */
  function Run(start: int, evs: seq<Event>): Abs {
    if evs == [] then Abs([], map[], start)
    else Step(Run(start, evs[..|evs| - 1]), evs[|evs| - 1]).0
  }

  /** The answer to the last request. */
  function Answer(start: int, evs: seq<Event>): Option<SContext>
    requires evs != []
  {
    Step(Run(start, evs[..|evs| - 1]), evs[|evs| - 1]).1
  }

  /** The keys answered since the last clearing, oldest first. */
  function History(start: int, evs: seq<Event>): seq<CKey> {
    if evs == [] then []
    else
      var n := |evs| - 1;
      (if Outdated(Run(start, evs[..n]), evs[n]) then [] else History(start, evs[..n]))
      + (if Answer(start, evs).Some? then [evs[n].key] else [])
  }

  /** Some request since the last clearing has thrown. */
  predicate Threw(start: int, evs: seq<Event>) {
    evs != []
    && var n := |evs| - 1;
       Answer(start, evs).None? || (!Outdated(Run(start, evs[..n]), evs[n]) && Threw(start, evs[..n]))
  }

  /** The distinct keys of a history, most recent first. */
  function Recent(h: seq<CKey>): seq<CKey> {
    if h == [] then [] else [h[|h| - 1]] + Erase(Recent(h[..|h| - 1]), h[|h| - 1])
  }

  lemma {:induction false} RecentDistinct(h: seq<CKey>)
    ensures Distinct(Recent(h))
    ensures forall k :: k in Recent(h) <==> k in h
    decreases |h|
  {
    if h != [] {
      var n := |h| - 1;
      RecentDistinct(h[..n]);
      ErasedFront(Recent(h[..n]), h[n]);
      assert h == h[..n] + [h[n]];
    }
  }

  /** Moving a key to the front of a prefix and of the whole leaves a prefix. */
  lemma {:induction false} FrontOfPrefix(q: seq<CKey>, r: seq<CKey>, k: CKey)
    requires q <= r && Distinct(r)
    ensures k in q ==> Erase(q, k) <= Erase(r, k)
    ensures k !in q ==> q <= Erase(r, k)
    decreases |q|
  {
    if q != [] && q[0] != k {
      assert r == [r[0]] + r[1..];
      DistinctCons(r[0], r[1..]);
      FrontOfPrefix(q[1..], r[1..], k);
    }
  }

  lemma PrefixOfPrefix(p: seq<CKey>, q: seq<CKey>, r: seq<CKey>)
    requires p <= q <= r
    ensures p <= r
  {
  }

  lemma PrefixDistinct(q: seq<CKey>, r: seq<CKey>)
    requires q <= r && Distinct(r)
    ensures Distinct(q)
  {
  }

  /** The front of a history: all of it unless the cache is full. */
  predicate Newest(q: seq<CKey>, r: seq<CKey>, all: bool) {
    q <= r && (all ==> |q| == |r| || |q| == MAX_ELEMS)
  }

  /** One request on a cache that is the front of a history: again the front of the history. */
  lemma ServeIsLru(s: Abs, e: Event, h: seq<CKey>, all: bool)
    requires Wf(s) && Newest(s.queue, Recent(h), all)
    ensures Serve(s, e).1.None? ==> Newest(Serve(s, e).0.queue, Recent(h), false)
    ensures Serve(s, e).1.Some? ==> Newest(Serve(s, e).0.queue, Recent(h + [e.key]), all)
  {
    hide Distinct, Erase;
    RecentDistinct(h);
    TrimmedWf(s);
    var q := if e.key in s.vals then s.queue else Trimmed(s).queue;
    PrefixOfPrefix(Trimmed(s).queue, s.queue, Recent(h));
    FrontOfPrefix(q, Recent(h), e.key);
    PrefixDistinct(q, Recent(h));
    ErasedFront(q, e.key);
    ErasedFront(Recent(h), e.key);
    assert (h + [e.key])[..|h|] == h;
    assert e.key !in Trimmed(s).queue || e.key in s.vals;
  }

  /** In every run, throwing or not, the queue is the most recently used keys in order, newest
      first; and until something throws, it is all of them or the newest MAX_ELEMS. */
  lemma RunIsLru(start: int, evs: seq<Event>)
    ensures var st := Run(start, evs);
            var r := Recent(History(start, evs));
            && Wf(st) && st.queue <= r
            && (!Threw(start, evs) ==> st.queue == if |r| <= MAX_ELEMS then r else r[..MAX_ELEMS])
  {
    RunIsNewest(start, evs);
    var q := Run(start, evs).queue;
    var r := Recent(History(start, evs));
    assert q == r[..|q|];
  }

  lemma {:induction false} RunIsNewest(start: int, evs: seq<Event>)
    ensures Wf(Run(start, evs))
    ensures Newest(Run(start, evs).queue, Recent(History(start, evs)), !Threw(start, evs))
    decreases |evs|
  {
    hide Recent, Newest, Wf, Serve;
    if evs == [] {
      NothingYet(start);
    } else {
      var n := |evs| - 1;
      var st := Run(start, evs[..n]);
      var e := evs[n];
      RunIsNewest(start, evs[..n]);
      StepKeepsWf(st, e);
      var h := if Outdated(st, e) then [] else History(start, evs[..n]);
      NothingYet(e.now);
      ServeIsLru(UpToDate(st, e), e, h, Outdated(st, e) || !Threw(start, evs[..n]));
      assert h + [] == h;
    }
  }

  lemma NothingYet(now: int)
    ensures Wf(Abs([], map[], now)) && Newest([], Recent([]), true)
  {
  }

  /** Every cached context is what the data gives now. */
  ghost predicate Current(st: Abs, e: Event) {
    forall k | k in st.vals :: e.data(k) == Some(st.vals[k])
  }

  lemma ServeKeepsCurrent(s: Abs, e: Event)
    requires Wf(s) && Current(s, e)
    ensures Current(Serve(s, e).0, e) && Serve(s, e).1 == e.data(e.key)
  {
    TrimmedWf(s);
  }

  /** What the cache would answer is fresh for every key exactly if its contexts are current once it
      has looked at the files. */
  lemma FreshIffCurrent(st: Abs, e: Event)
    requires Wf(st)
    ensures Current(UpToDate(st, e), e) <==> forall k :: Step(st, e.(key := k)).1 == e.data(k)
  {
    var s := UpToDate(st, e);
    forall k
      ensures Step(st, e.(key := k)).1 == if k in s.vals then Some(s.vals[k]) else e.data(k)
    {
      assert UpToDate(st, e.(key := k)) == s;
    }
  }

  /** With the cache current before the files changed under a cached key, that key's answer is fresh
      exactly if the change is stamped, on one of the files, later than the last clearing. */
  lemma ChangeIsNoticedIff(st: Abs, before: Event, e: Event)
    requires Wf(st) && Current(st, before) && e.key in st.vals && e.data(e.key) != before.data(e.key)
    ensures Step(st, e).1 == e.data(e.key) <==>
            e.passwd.None? || e.passwd.value > st.checktime || e.group.None? || e.group.value > st.checktime
  {
    OutdatedIff(st, e);
  }

  /** The time of the last clearing. */
  function LastCleared(start: int, evs: seq<Event>): int {
    if evs == [] then start
    else
      var before := LastCleared(start, evs[..|evs| - 1]);
      var e := evs[|evs| - 1];
      if ChangedAfter(e, before) then e.now else before
  }

  lemma {:induction false} ClearedLast(start: int, evs: seq<Event>)
    ensures Run(start, evs).checktime == LastCleared(start, evs)
    decreases |evs|
  {
    hide Step;
    if evs != [] {
      ClearedLast(start, evs[..|evs| - 1]);
      OutdatedIff(Run(start, evs[..|evs| - 1]), evs[|evs| - 1]);
      ClearedWhen(start, evs, |evs| - 1);
      assert evs[..|evs|] == evs;
    }
  }

  /** Whatever key the i-th request had asked for, it would have been answered, or thrown at, as a
      fresh computation would. */
  ghost predicate FreshAt(start: int, evs: seq<Event>, i: nat)
    requires i < |evs|
  {
    forall k :: Step(Run(start, evs[..i]), evs[i].(key := k)).1 == evs[i].data(k)
  }

  /** If what a cached context was made from has changed since the request before, a stamp shows it. */
  ghost predicate Noticed(start: int, evs: seq<Event>, i: nat)
    requires 0 < i < |evs|
  {
    ChangedAfter(evs[i], LastCleared(start, evs[..i]))
    || forall k | k in Run(start, evs[..i]).vals :: evs[i].data(k) == evs[i - 1].data(k)
  }

  /** A fresh request leaves the cache current. */
  lemma FreshLeavesCurrent(start: int, evs: seq<Event>, i: nat)
    requires i < |evs| && FreshAt(start, evs, i)
    ensures Current(Run(start, evs[..i + 1]), evs[i]) && Wf(Run(start, evs[..i + 1]))
  {
    hide Serve, Wf, Current;
    RunIsNewest(start, evs[..i]);
    RunIsNewest(start, evs[..i + 1]);
    assert evs[..i + 1][..i] == evs[..i];
    FreshIffCurrent(Run(start, evs[..i]), evs[i]);
    UpToDateWf(Run(start, evs[..i]), evs[i]);
    ServeKeepsCurrent(UpToDate(Run(start, evs[..i]), evs[i]), evs[i]);
  }

  lemma UpToDateWf(st: Abs, e: Event)
    requires Wf(st)
    ensures Wf(UpToDate(st, e))
  {
  }

  lemma FreshNextIff(start: int, evs: seq<Event>, i: nat)
    requires 0 < i < |evs| && FreshAt(start, evs, i - 1)
    ensures FreshAt(start, evs, i) <==> Noticed(start, evs, i)
  {
    hide Serve, Step, Run, Wf;
    ClearedLast(start, evs[..i]);
    OutdatedIff(Run(start, evs[..i]), evs[i]);
    FreshLeavesCurrent(start, evs, i - 1);
    FreshIffCurrent(Run(start, evs[..i]), evs[i]);
    NoticedIffCurrent(Run(start, evs[..i]), evs[i - 1], evs[i]);
  }

  lemma NoticedIffCurrent(st: Abs, before: Event, e: Event)
    requires Current(st, before)
    ensures Current(UpToDate(st, e), e) <==> Outdated(st, e) || forall k | k in st.vals :: e.data(k) == before.data(k)
  {
  }

  lemma FreshAtFirst(start: int, evs: seq<Event>)
    requires evs != []
    ensures FreshAt(start, evs, 0)
  {
  }

  lemma {:induction false} FreshSoFar(start: int, evs: seq<Event>, i: nat)
    requires i < |evs| && forall j | 0 < j <= i :: Noticed(start, evs, j)
    ensures FreshAt(start, evs, i)
    decreases i
  {
    hide FreshAt, Noticed;
    if i == 0 {
      FreshAtFirst(start, evs);
    } else {
      FreshSoFar(start, evs, i - 1);
      FreshNextIff(start, evs, i);
    }
  }

  /** A run is fresh all along exactly if at every request every change under a cached key shows in a
      stamp later than the last clearing. */
  lemma RunIsFreshIff(start: int, evs: seq<Event>)
    ensures (forall i | 0 <= i < |evs| :: FreshAt(start, evs, i)) <==> (forall i | 0 < i < |evs| :: Noticed(start, evs, i))
  {
    hide FreshAt, Noticed;
    if forall i | 0 < i < |evs| :: Noticed(start, evs, i) {
      forall i | 0 <= i < |evs|
        ensures FreshAt(start, evs, i)
      {
        FreshSoFar(start, evs, i);
      }
    }
    if forall i | 0 <= i < |evs| :: FreshAt(start, evs, i) {
      forall i | 0 < i < |evs|
        ensures Noticed(start, evs, i)
      {
        FreshNextIff(start, evs, i);
      }
    }
  }

  /** The time of the last clearing: of the last request that found a stamp later than the clearing
      before it. */
  lemma ClearedWhen(start: int, evs: seq<Event>, i: nat)
    requires i < |evs|
    ensures Run(start, evs[..i + 1]).checktime
            == if Outdated(Run(start, evs[..i]), evs[i]) then evs[i].now else Run(start, evs[..i]).checktime
  {
    assert evs[..i + 1][..i] == evs[..i];
  }

  /** The clock never goes back, from the time the cache was made. */
  predicate Monotone(start: int, evs: seq<Event>) {
    forall i | 0 <= i < |evs| :: Before(start, evs, i) <= evs[i].now
  }

  /** The clock at the request before the i-th. */
  function Before(start: int, evs: seq<Event>, i: nat): int
    requires i <= |evs|
  {
    if i == 0 then start else evs[i - 1].now
  }

  lemma MonotoneBefore(start: int, evs: seq<Event>, n: nat)
    requires n <= |evs| && Monotone(start, evs)
    ensures Monotone(start, evs[..n])
  {
    forall i | 0 <= i < n
      ensures Before(start, evs[..n], i) <= evs[..n][i].now
    {
      assert Before(start, evs, i) <= evs[i].now;
    }
  }

  ghost predicate SameData(e: Event, f: Event) {
    forall k :: e.data(k) == f.data(k)
  }

  /** A change between two requests is stamped, on one of the files, later than the first. */
  ghost predicate Stamped(evs: seq<Event>) {
    forall i | 0 < i < |evs| ::
      SameData(evs[i], evs[i - 1]) || ChangedAfter(evs[i], evs[i - 1].now)
  }

  lemma NotBefore(start: int, evs: seq<Event>, i: nat)
    requires i < |evs| && Monotone(start, evs)
    ensures Before(start, evs, i) <= evs[i].now
  {
  }

  lemma {:induction false} ClearedInThePast(start: int, evs: seq<Event>)
    requires Monotone(start, evs)
    ensures Run(start, evs).checktime <= Before(start, evs, |evs|)
    decreases |evs|
  {
    hide Step, Monotone;
    if evs != [] {
      ClearedWhen(start, evs, |evs| - 1);
      assert evs[..|evs|] == evs;
      MonotoneBefore(start, evs, |evs| - 1);
      NotBefore(start, evs, |evs| - 1);
      ClearedInThePast(start, evs[..|evs| - 1]);
    }
  }

  /** With a clock that never goes back, stamps later than the request before the change are enough. */
  lemma StampedIsFresh(start: int, evs: seq<Event>, i: nat)
    requires Monotone(start, evs) && Stamped(evs) && i < |evs|
    ensures FreshAt(start, evs, i)
  {
    hide Run, FreshAt;
    forall j | 0 < j <= i
      ensures Noticed(start, evs, j)
    {
      MonotoneBefore(start, evs, j);
      ClearedInThePast(start, evs[..j]);
      ClearedLast(start, evs[..j]);
    }
    FreshSoFar(start, evs, i);
  }

  /** A change stamped with the second of the last clearing, or earlier, is missed however much later
      the next request comes. */
  lemma EarlyStampIsMissed(k: CKey, c: SContext, d: SContext, now: int, stamp: int, later: int)
    requires c != d && stamp <= now <= later
    ensures var before := Event(k, now, Some(now), Some(now), (_: CKey) => Some(c));
            var edited := Event(k, later, Some(stamp), Some(stamp), (_: CKey) => Some(d));
            Monotone(now - 1, [before, edited]) && Answer(now - 1, [before, edited]) == Some(c) != edited.data(k)
  {
    var before := Event(k, now, Some(now), Some(now), (_: CKey) => Some(c));
    var edited := Event(k, later, Some(stamp), Some(stamp), (_: CKey) => Some(d));
    assert [before, edited][..1] == [before] && [before][..0] == [];
    assert Run(now - 1, []) == Abs([], map[], now - 1);
    assert Run(now - 1, [before]) == Abs([k] + [], map[k := c], now);
    assert forall i | 0 <= i < 2 :: Before(now - 1, [before, edited], i) <= [before, edited][i].now;
  }

  /** A change stamped later than that is noticed at once, whichever of the files it is. */
  lemma LateStampIsNoticed(k: CKey, c: SContext, d: SContext, now: int, stamp: int, later: int)
    requires now < stamp
    ensures var before := Event(k, now, Some(now), Some(now), (_: CKey) => Some(c));
            var passwd := Event(k, later, Some(stamp), Some(now), (_: CKey) => Some(d));
            var group := Event(k, later, Some(now), Some(stamp), (_: CKey) => Some(d));
            Answer(now - 1, [before, passwd]) == Answer(now - 1, [before, group]) == Some(d)
  {
    var before := Event(k, now, Some(now), Some(now), (_: CKey) => Some(c));
    forall e: Event
      ensures [before, e][..1] == [before]
    {
    }
    assert [before][..0] == [] && Run(now - 1, []) == Abs([], map[], now - 1);
    assert Run(now - 1, [before]) == Abs([k] + [], map[k := c], now);
  }

  /** A file that cannot be examined clears the cache, as of now. */
  lemma FailedStatClears(st: Abs, e: Event)
    requires e.passwd.None? || e.group.None?
    ensures Step(st, e).1 == e.data(e.key) && Step(st, e).0.checktime == e.now
    ensures forall k | k in Step(st, e).0.vals :: k == e.key
  {
  }

  /** A request that throws leaves the cache as it was, but that a full one has given up its oldest key. */
  lemma ThrowGivesUpOldest(st: Abs, e: Event)
    requires Wf(st) && !ChangedAfter(e, st.checktime) && e.key !in st.vals && e.data(e.key).None?
    ensures var (st', r) := Step(st, e);
            && r.None? && st'.checktime == st.checktime
            && st'.queue == (if |st.queue| == 40 then st.queue[..39] else st.queue)
            && st'.vals == if |st.queue| == 40 then st.vals - {st.queue[39]} else st.vals
  {
  }
}
