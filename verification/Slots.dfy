/** The table of open files: any number of threads in open, which tests a slot, locks, tests it
    again, stores and unlocks, and in release, which deletes and then clears without the lock.
    Each step below is one access to the shared state; a run is any interleaving of them. */
module Slots {
  import opened Wrappers

  const MAX_OPEN_FILES: nat := 512

  type Tid = nat

  /** An opened source, one per call of open. */
  type Source = nat

  /** Where a thread stands, with its source and the slot it looks at. */
  datatype Pc =
    | Idle
    | Scanning(src: Source, i: nat)
    | Waiting(src: Source, i: nat)
    | Locked(src: Source, i: nat)
    | Storing(src: Source, i: nat)
    | Leaving(src: Source, i: nat, stored: bool)
    | Releasing(src: Source, i: nat)
    | Deleting(src: Source, i: nat)
    | Clearing(src: Source, i: nat)

  /** live maps each open handle's source to its slot (fi->fh). */
  datatype State = State(slots: seq<Option<Source>>, mutex: Option<Tid>, pcs: map<Tid, Pc>,
                         live: map<Source, nat>, deleted: set<Source>, next: Source)

  /** What a thread is asked to do next: call open, release a handle, or go on. */
  datatype Move = Open | Release(src: Source) | Go

  function PcOf(s: State, t: Tid): Pc {
    if t in s.pcs then s.pcs[t] else Idle
  }

  function At(s: State, t: Tid, pc: Pc): State {
    s.(pcs := s.pcs[t := pc])
  }

  /** One step of open, by where the thread stands; a step that cannot be taken changes nothing. */
  function OpenStep(s: State, t: Tid): State
    requires |s.slots| == MAX_OPEN_FILES
  {
    match PcOf(s, t)
    case Scanning(src, i) =>
      if i >= MAX_OPEN_FILES then At(s, t, Idle).(deleted := s.deleted + {src})
      else if s.slots[i].Some? then At(s, t, Scanning(src, i + 1))
      else At(s, t, Waiting(src, i))
    case Waiting(src, i) =>
      if s.mutex.Some? then s else At(s, t, Locked(src, i)).(mutex := Some(t))
    case Locked(src, i) =>
      if i < MAX_OPEN_FILES && s.slots[i].None? then At(s, t, Storing(src, i))
      else At(s, t, Leaving(src, i, false))
    case Storing(src, i) =>
      if i < MAX_OPEN_FILES then At(s, t, Leaving(src, i, true)).(slots := s.slots[i := Some(src)]) else s
    case Leaving(src, i, stored) =>
      if stored then At(s, t, Idle).(mutex := None, live := s.live[src := i])
      else At(s, t, Scanning(src, i + 1)).(mutex := None)
    case _ => s
  }

  function ReleaseStep(s: State, t: Tid): State
    requires |s.slots| == MAX_OPEN_FILES
  {
    match PcOf(s, t)
    case Releasing(src, i) =>
      if i >= MAX_OPEN_FILES || s.slots[i].None? then At(s, t, Idle) else At(s, t, Deleting(src, i))
    case Deleting(src, i) =>
      if i < MAX_OPEN_FILES && s.slots[i].Some?
      then At(s, t, Clearing(src, i)).(deleted := s.deleted + {s.slots[i].value}) else s
    case Clearing(src, i) =>
      if i < MAX_OPEN_FILES then At(s, t, Idle).(slots := s.slots[i := None]) else s
    case _ => s
  }

  function Step(s: State, t: Tid, m: Move): State
    requires |s.slots| == MAX_OPEN_FILES
  {
    match m
    case Open => if PcOf(s, t).Idle? then At(s, t, Scanning(s.next, 0)).(next := s.next + 1) else s
    case Release(src) =>
      if PcOf(s, t).Idle? && src in s.live then At(s, t, Releasing(src, s.live[src])).(live := s.live - {src}) else s
    case Go =>
      var pc := PcOf(s, t);
      if pc.Releasing? || pc.Deleting? || pc.Clearing? then ReleaseStep(s, t) else OpenStep(s, t)
  }

  /** A source that no slot and no handle knows of. */
  ghost predicate Unplaced(s: State, src: Source) {
    src < s.next && src !in s.live && src !in s.deleted && forall i | 0 <= i < |s.slots| :: s.slots[i] != Some(src)
  }

  predicate Holds(s: State, src: Source, i: nat) {
    i < |s.slots| && s.slots[i] == Some(src) && src !in s.live && src < s.next
  }

  /** What is known of a thread by where it stands. */
  ghost predicate ThreadOk(s: State, t: Tid) {
    match PcOf(s, t)
    case Idle => true
    case Scanning(src, i) => Unplaced(s, src) && i <= MAX_OPEN_FILES
    case Waiting(src, i) => Unplaced(s, src) && i < MAX_OPEN_FILES
    case Locked(src, i) => Unplaced(s, src) && i < MAX_OPEN_FILES
    case Storing(src, i) => Unplaced(s, src) && i < |s.slots| && s.slots[i].None?
    case Leaving(src, i, stored) =>
      i < MAX_OPEN_FILES && if stored then Holds(s, src, i) && src !in s.deleted else Unplaced(s, src)
    case Releasing(src, i) => Holds(s, src, i) && src !in s.deleted
    case Deleting(src, i) => Holds(s, src, i) && src !in s.deleted
    case Clearing(src, i) => Holds(s, src, i)
  }

  predicate InSection(pc: Pc) {
    pc.Locked? || pc.Storing? || pc.Leaving?
  }

  ghost predicate HandleOk(s: State, src: Source) {
    src in s.live ==> s.live[src] < |s.slots| && s.slots[s.live[src]] == Some(src) && src !in s.deleted && src < s.next
  }

  ghost predicate ThreadsOk(s: State) {
    forall t: Tid :: ThreadOk(s, t)
  }

  /** The lock is held by the one thread between lock and unlock. */
  ghost predicate MutexOk(s: State) {
    forall t: Tid :: InSection(PcOf(s, t)) <==> s.mutex == Some(t)
  }

  ghost predicate HandlesOk(s: State) {
    forall src: Source :: HandleOk(s, src)
  }

  predicate Differ(p: Pc, q: Pc) {
    p.Idle? || q.Idle? || p.src != q.src
  }

  /** No two threads work for the same source. */
  ghost predicate SourcesDiffer(s: State) {
    forall t: Tid, u: Tid | t != u :: Differ(PcOf(s, t), PcOf(s, u))
  }

  /** No two slots hold the same source. */
  ghost predicate SlotsDiffer(s: State) {
    && (forall i, j | 0 <= i < j < |s.slots| && s.slots[i].Some? :: s.slots[i] != s.slots[j])
    && (forall i | 0 <= i < |s.slots| && s.slots[i].Some? :: s.slots[i].value < s.next)
  }

  ghost predicate Inv(s: State) {
    && |s.slots| == MAX_OPEN_FILES && ThreadsOk(s) && MutexOk(s) && HandlesOk(s) && SourcesDiffer(s)
    && SlotsDiffer(s) && forall x | x in s.deleted :: x < s.next
  }

  /** The source a move concerns: the thread's own, a new one, or the released handle's. */
  function Concerns(s: State, t: Tid, m: Move): Source {
    match m
    case Open => s.next
    case Release(src) => src
    case Go => if PcOf(s, t).Idle? then s.next else PcOf(s, t).src
  }

  /** A step of t leaves the places of every other source alone. */
  ghost predicate Untouched(s: State, s': State, x: Source) {
    && (x in s'.live <==> x in s.live) && (x in s.live ==> s'.live[x] == s.live[x])
    && (x in s'.deleted <==> x in s.deleted) && s.next <= s'.next && |s'.slots| == |s.slots|
    && forall i | 0 <= i < |s.slots| :: s'.slots[i] == Some(x) <==> s.slots[i] == Some(x)
  }

  lemma StepTouchesOwn(s: State, t: Tid, m: Move, x: Source)
    requires Inv(s) && x != Concerns(s, t, m)
    ensures Untouched(s, Step(s, t, m), x)
  {
    ThreadOkOf(s, t);
    hide Inv;
    if m.Go? && (PcOf(s, t).Releasing? || PcOf(s, t).Deleting? || PcOf(s, t).Clearing?) {
      hide OpenStep;
    } else if m.Go? {
      hide ReleaseStep;
    }
  }

  lemma StepMovesOwn(s: State, t: Tid, m: Move, u: Tid)
    requires Inv(s) && u != t
    ensures PcOf(Step(s, t, m), u) == PcOf(s, u)
  {
    hide Inv;
  }

  /** Only a thread in its section fills a slot. */
  lemma StepFills(s: State, t: Tid, m: Move, i: nat)
    requires Inv(s) && i < MAX_OPEN_FILES && s.slots[i].None? && !InSection(PcOf(s, t))
    ensures |Step(s, t, m).slots| == MAX_OPEN_FILES && Step(s, t, m).slots[i].None?
  {
    hide ThreadsOk, MutexOk, HandlesOk, SourcesDiffer, SlotsDiffer;
  }

  /** A thread's own source is not the one a step of another thread concerns. */
  lemma OtherSource(s: State, t: Tid, m: Move, u: Tid)
    requires Inv(s) && u != t && !PcOf(s, u).Idle?
    ensures Step(s, t, m) == s || PcOf(s, u).src != Concerns(s, t, m)
    ensures PcOf(s, u).src < s.next
  {
    hide SlotsDiffer, MutexOk;
    assert ThreadOk(s, u);
    assert Differ(PcOf(s, t), PcOf(s, u));
    if m.Release? {
      assert HandleOk(s, m.src);
    }
  }

  lemma OthersKept(s: State, t: Tid, m: Move, u: Tid)
    requires Inv(s) && u != t
    ensures ThreadOk(Step(s, t, m), u)
  {
    hide SlotsDiffer, HandlesOk, SourcesDiffer, Step;
    var s' := Step(s, t, m);
    assert ThreadOk(s, u);
    StepMovesOwn(s, t, m, u);
    if !PcOf(s, u).Idle? && s' != s {
      OtherSource(s, t, m, u);
      StepTouchesOwn(s, t, m, PcOf(s, u).src);
      if PcOf(s, u).Storing? {
        StepFills(s, t, m, PcOf(s, u).i);
      }
    }
  }

  lemma MoverKept(s: State, t: Tid, m: Move)
    requires Inv(s)
    ensures ThreadOk(Step(s, t, m), t)
  {
    hide ThreadsOk, HandlesOk, SlotsDiffer, SourcesDiffer, MutexOk, Step, ThreadOk, HandleOk;
    ThreadOkOf(s, t);
    match m
    case Open =>
      NextIsUnplaced(s);
      OpenerKept(s, t);
    case Release(src) =>
      HandleOkOf(s, src);
      ReleaserKept(s, t, src);
    case Go => GoerKept(s, t);
  }

  lemma ThreadOkOf(s: State, t: Tid)
    requires Inv(s)
    ensures ThreadOk(s, t)
  {
    hide ThreadOk;
  }

  lemma HandleOkOf(s: State, src: Source)
    requires Inv(s)
    ensures HandleOk(s, src)
  {
    hide HandleOk;
  }

  lemma OpenerKept(s: State, t: Tid)
    requires |s.slots| == MAX_OPEN_FILES && ThreadOk(s, t) && s.next !in s.live && s.next !in s.deleted
    requires forall i | 0 <= i < |s.slots| :: s.slots[i] != Some(s.next)
    ensures ThreadOk(Step(s, t, Open), t)
  {
  }

  lemma ReleaserKept(s: State, t: Tid, src: Source)
    requires |s.slots| == MAX_OPEN_FILES && ThreadOk(s, t) && HandleOk(s, src)
    ensures ThreadOk(Step(s, t, Release(src)), t)
  {
  }

  lemma GoerKept(s: State, t: Tid)
    requires |s.slots| == MAX_OPEN_FILES && ThreadOk(s, t)
    ensures ThreadOk(Step(s, t, Go), t)
  {
    if PcOf(s, t).Releasing? || PcOf(s, t).Deleting? || PcOf(s, t).Clearing? {
      hide OpenStep;
    } else {
      hide ReleaseStep;
    }
  }

  /** A number not yet given out is nowhere. */
  lemma NextIsUnplaced(s: State)
    requires Inv(s)
    ensures s.next !in s.live && s.next !in s.deleted
    ensures forall i | 0 <= i < |s.slots| :: s.slots[i] != Some(s.next)
  {
    assert HandleOk(s, s.next);
  }

  lemma MutexKept(s: State, t: Tid, m: Move)
    requires Inv(s)
    ensures MutexOk(Step(s, t, m))
  {
    hide ThreadsOk, HandlesOk, SourcesDiffer, SlotsDiffer;
    assert InSection(PcOf(s, t)) <==> s.mutex == Some(t);
    forall u: Tid
      ensures InSection(PcOf(Step(s, t, m), u)) <==> Step(s, t, m).mutex == Some(u)
    {
      assert InSection(PcOf(s, u)) <==> s.mutex == Some(u);
    }
  }

  lemma HandleKept(s: State, t: Tid, m: Move, src: Source)
    requires Inv(s)
    ensures HandleOk(Step(s, t, m), src)
  {
    hide MutexOk, SourcesDiffer, SlotsDiffer;
    assert HandleOk(s, src) && ThreadOk(s, t);
    if src != Concerns(s, t, m) {
      StepTouchesOwn(s, t, m, src);
    } else {
      NextIsUnplaced(s);
    }
  }

  lemma SourcesKept(s: State, t: Tid, m: Move)
    requires Inv(s)
    ensures SourcesDiffer(Step(s, t, m))
  {
    hide MutexOk, SlotsDiffer, HandlesOk;
    var s' := Step(s, t, m);
    forall u: Tid, v: Tid | u != v
      ensures Differ(PcOf(s', u), PcOf(s', v))
    {
      assert Differ(PcOf(s, u), PcOf(s, v));
      OwnSource(s, t, m);
      if u != t {
        StepMovesOwn(s, t, m, u);
        if !PcOf(s, u).Idle? {
          OtherSource(s, t, m, u);
        }
      }
      if v != t {
        StepMovesOwn(s, t, m, v);
        if !PcOf(s, v).Idle? {
          OtherSource(s, t, m, v);
        }
      }
    }
  }

  lemma OwnSource(s: State, t: Tid, m: Move)
    requires Inv(s)
    ensures Step(s, t, m) == s || PcOf(Step(s, t, m), t).Idle? || PcOf(Step(s, t, m), t).src == Concerns(s, t, m)
  {
    hide Inv;
  }

  lemma SlotsKept(s: State, t: Tid, m: Move)
    requires Inv(s)
    ensures SlotsDiffer(Step(s, t, m))
    ensures forall x | x in Step(s, t, m).deleted :: x < Step(s, t, m).next
  {
    hide MutexOk, SourcesDiffer, HandlesOk;
    assert ThreadOk(s, t);
  }

  /** Every step of every thread keeps the invariant. */
  lemma StepKeepsInv(s: State, t: Tid, m: Move)
    requires Inv(s)
    ensures Inv(Step(s, t, m))
  {
    hide ThreadOk, HandleOk, Differ, MutexOk, SourcesDiffer, SlotsDiffer;
    forall u: Tid
      ensures ThreadOk(Step(s, t, m), u)
    {
      if u == t {
        MoverKept(s, t, m);
      } else {
        OthersKept(s, t, m, u);
      }
    }
    forall src: Source
      ensures HandleOk(Step(s, t, m), src)
    {
      HandleKept(s, t, m, src);
    }
    MutexKept(s, t, m);
    SourcesKept(s, t, m);
    SlotsKept(s, t, m);
  }

  /** The file system as it starts: no open file. */
  function Start(): State {
    State(seq(MAX_OPEN_FILES, _ => None), None, map[], map[], {}, 0)
  }

  /** The state after an interleaving of steps. */
  function Run(moves: seq<(Tid, Move)>): (s: State)
    ensures |s.slots| == MAX_OPEN_FILES
  {
    if moves == [] then Start()
    else
      var last := moves[|moves| - 1];
      StepKeepsLength(Run(moves[..|moves| - 1]), last.0, last.1);
      Step(Run(moves[..|moves| - 1]), last.0, last.1)
  }

  lemma StepKeepsLength(s: State, t: Tid, m: Move)
    requires |s.slots| == MAX_OPEN_FILES
    ensures |Step(s, t, m).slots| == MAX_OPEN_FILES
  {
  }

  lemma {:induction false} RunKeepsInv(moves: seq<(Tid, Move)>)
    ensures Inv(Run(moves))
    decreases |moves|
  {
    hide Inv, Step;
    if moves == [] {
      StartInv();
    } else {
      var last := moves[|moves| - 1];
      RunKeepsInv(moves[..|moves| - 1]);
      StepKeepsInv(Run(moves[..|moves| - 1]), last.0, last.1);
    }
  }

  lemma StartInv()
    ensures Inv(Start())
  {
  }

  /** In every interleaving: a store finds its slot empty; what release deletes is its own source,
      not deleted before; and a handle's slot holds its source until the handle is released. */
  lemma RunIsSafe(moves: seq<(Tid, Move)>, t: Tid)
    ensures var s := Run(moves);
            var pc := PcOf(s, t);
            && (pc.Storing? ==> pc.i < MAX_OPEN_FILES && s.slots[pc.i].None?)
            && (pc.Releasing? || pc.Deleting? ==>
                  pc.i < MAX_OPEN_FILES && s.slots[pc.i] == Some(pc.src) && pc.src !in s.deleted)
            && (pc.Clearing? ==> pc.i < MAX_OPEN_FILES && s.slots[pc.i] == Some(pc.src))
    ensures forall src: Source | src in Run(moves).live ::
              var s := Run(moves);
              s.live[src] < MAX_OPEN_FILES && s.slots[s.live[src]] == Some(src) && src !in s.deleted
  {
    hide MutexOk, SourcesDiffer, SlotsDiffer;
    RunKeepsInv(moves);
    var s := Run(moves);
    assert ThreadOk(s, t);
    forall src: Source | src in s.live
      ensures s.live[src] < MAX_OPEN_FILES && s.slots[s.live[src]] == Some(src) && src !in s.deleted
    {
      assert HandleOk(s, src);
    }
  }

  /** No two open handles share a slot. */
  lemma HandlesApart(moves: seq<(Tid, Move)>, a: Source, b: Source)
    requires a in Run(moves).live && b in Run(moves).live && a != b
    ensures Run(moves).live[a] != Run(moves).live[b]
  {
    RunIsSafe(moves, 0);
  }

  /** The thread is in the call of open that src was opened for. */
  predicate InOpen(s: State, t: Tid, src: Source) {
    Opening(PcOf(s, t)) && PcOf(s, t).src == src
  }

  predicate Opening(pc: Pc) {
    pc.Scanning? || pc.Waiting? || pc.Locked? || pc.Storing? || pc.Leaving?
  }

  /** The scan has given slot j up. */
  predicate Passed(pc: Pc, j: nat) {
    Opening(pc) && (j < pc.i || (j == pc.i && pc.Leaving? && !pc.stored))
  }

  /** The n-th step was this call's own look at slot j, and the slot was occupied. */
  ghost predicate SawAt(moves: seq<(Tid, Move)>, t: Tid, src: Source, j: nat, n: nat)
    requires j < MAX_OPEN_FILES && n < |moves|
  {
    var s := Run(moves[..n]);
    moves[n].0 == t && InOpen(s, t, src) && Looking(PcOf(s, t), j) && s.slots[j].Some?
  }

  /** The thread's next step looks at slot j, before the lock or under it. */
  predicate Looking(pc: Pc, j: nat) {
    (pc.Scanning? || pc.Locked?) && pc.i == j
  }

  ghost predicate SawOccupied(moves: seq<(Tid, Move)>, t: Tid, src: Source, j: nat)
    requires j < MAX_OPEN_FILES
  {
    exists n :: 0 <= n < |moves| && SawAt(moves, t, src, j, n)
  }

  lemma SawBefore(moves: seq<(Tid, Move)>, t: Tid, src: Source, j: nat)
    requires moves != [] && j < MAX_OPEN_FILES && SawOccupied(moves[..|moves| - 1], t, src, j)
    ensures SawOccupied(moves, t, src, j)
  {
    hide Run, InOpen;
    var before := moves[..|moves| - 1];
    var n :| 0 <= n < |before| && SawAt(before, t, src, j, n);
    assert before[..n] == moves[..n];
    assert SawAt(moves, t, src, j, n);
  }

  /** Every slot a scan has passed was occupied when the scan looked at it. */
  lemma {:induction false} ScanSaw(moves: seq<(Tid, Move)>, t: Tid, j: nat)
    requires j < MAX_OPEN_FILES && Passed(PcOf(Run(moves), t), j)
    ensures SawOccupied(moves, t, PcOf(Run(moves), t).src, j)
    decreases |moves|
  {
    if moves != [] {
      var before := moves[..|moves| - 1];
      var s := Run(before);
      var last := moves[|moves| - 1];
      var pc := PcOf(s, t);
      var pc' := PcOf(Run(moves), t);
      if InOpen(s, t, pc'.src) && Passed(pc, j) {
        ScanSaw(before, t, j);
        SawBefore(moves, t, pc'.src, j);
      } else {
        PassedNow(s, t, last.0, last.1, j);
        assert SawAt(moves, t, pc'.src, j, |moves| - 1);
      }
    }
  }

  /** A scan gets past a slot only by its own look at it, finding it occupied. */
  lemma PassedNow(s: State, t: Tid, u: Tid, m: Move, j: nat)
    requires |s.slots| == MAX_OPEN_FILES && j < MAX_OPEN_FILES
    requires Passed(PcOf(Step(s, u, m), t), j)
    requires !(InOpen(s, t, PcOf(Step(s, u, m), t).src) && Passed(PcOf(s, t), j))
    ensures u == t && InOpen(s, t, PcOf(Step(s, u, m), t).src) && Looking(PcOf(s, t), j) && s.slots[j].Some?
  {
  }

  /** ENFILE is returned only if that call looked at each slot and found it occupied. */
  lemma FullOnlyIfSeen(moves: seq<(Tid, Move)>, t: Tid, j: nat)
    requires PcOf(Run(moves), t).Scanning? && PcOf(Run(moves), t).i >= 512 && j < 512
    ensures SawOccupied(moves, t, PcOf(Run(moves), t).src, j)
  {
    ScanSaw(moves, t, j);
  }

  /** The thread answers for what is in slot i. */
  predicate Keeps(pc: Pc, src: Source, i: nat) {
    ((pc.Leaving? && pc.stored) || pc.Releasing? || pc.Deleting? || pc.Clearing?) && pc.src == src && pc.i == i
  }

  /** What is in slot i belongs to an open handle, or to a thread about to hand it out or clear it. */
  ghost predicate Owned(s: State, i: nat)
    requires i < |s.slots|
  {
    s.slots[i].Some? ==>
      var src := s.slots[i].value;
      (src in s.live && s.live[src] == i) || exists t: Tid :: Keeps(PcOf(s, t), src, i)
  }

  lemma KeepsOn(s: State, t: Tid, m: Move, v: Tid, src: Source, i: nat)
    requires Inv(s) && i < MAX_OPEN_FILES && Keeps(PcOf(s, v), src, i)
    ensures var s' := Step(s, t, m);
            |s'.slots| == MAX_OPEN_FILES
            && (Keeps(PcOf(s', v), src, i) || (src in s'.live && s'.live[src] == i) || s'.slots[i].None?)
  {
    hide MutexOk, SourcesDiffer, SlotsDiffer, HandlesOk;
    assert ThreadOk(s, v);
    StepKeepsLength(s, t, m);
    if v != t {
      StepMovesOwn(s, t, m, v);
    }
  }

  lemma StepKeepsOwned(s: State, t: Tid, m: Move, i: nat)
    requires Inv(s) && i < MAX_OPEN_FILES && Owned(s, i)
    ensures |Step(s, t, m).slots| == MAX_OPEN_FILES && Owned(Step(s, t, m), i)
  {
    var s' := Step(s, t, m);
    StepKeepsLength(s, t, m);
    if s'.slots[i].Some? {
      var src := s'.slots[i].value;
      SlotWrites(s, t, m, i);
      if s'.slots[i] != s.slots[i] {
        assert Keeps(PcOf(s', t), src, i);
      } else if src in s.live && s.live[src] == i {
        HandleGoes(s, t, m, src);
      } else {
        var v: Tid :| Keeps(PcOf(s, v), src, i);
        KeepsOn(s, t, m, v, src, i);
      }
    }
  }

  lemma SlotWrites(s: State, t: Tid, m: Move, i: nat)
    requires |s.slots| == MAX_OPEN_FILES && i < MAX_OPEN_FILES
    ensures var s' := Step(s, t, m);
            |s'.slots| == MAX_OPEN_FILES
            && (s'.slots[i] == s.slots[i] || s'.slots[i].None? || Keeps(PcOf(s', t), s'.slots[i].value, i))
  {
  }

  lemma HandleGoes(s: State, t: Tid, m: Move, src: Source)
    requires Inv(s) && src in s.live
    ensures var s' := Step(s, t, m);
            (src in s'.live && s'.live[src] == s.live[src]) || Keeps(PcOf(s', t), src, s.live[src])
  {
    hide MutexOk, SourcesDiffer, SlotsDiffer;
    assert ThreadOk(s, t) && HandleOk(s, src);
  }

  /** No slot is ever lost: in every interleaving each occupied slot has its owner. */
  lemma {:induction false} RunLosesNoSlot(moves: seq<(Tid, Move)>, i: nat)
    requires i < MAX_OPEN_FILES
    ensures Owned(Run(moves), i)
    decreases |moves|
  {
    if moves != [] {
      var last := moves[|moves| - 1];
      RunLosesNoSlot(moves[..|moves| - 1], i);
      RunKeepsInv(moves[..|moves| - 1]);
      StepKeepsOwned(Run(moves[..|moves| - 1]), last.0, last.1, i);
    }
  }

  /** n steps of one thread, the others standing still. */
  function Lone(s: State, t: Tid, n: nat): (s': State)
    requires |s.slots| == MAX_OPEN_FILES
    ensures |s'.slots| == MAX_OPEN_FILES
    decreases n
  {
    if n == 0 then s
    else
      StepKeepsLength(s, t, Go);
      Lone(Step(s, t, Go), t, n - 1)
  }

  lemma {:induction false} LoneOn(s: State, t: Tid, m: nat, n: nat)
    requires |s.slots| == MAX_OPEN_FILES
    ensures Lone(s, t, m + n) == Lone(Lone(s, t, m), t, n)
    decreases m
  {
    hide Step;
    if m > 0 {
      StepKeepsLength(s, t, Go);
      LoneOn(Step(s, t, Go), t, m - 1, n);
    }
  }

  /** A scan over occupied slots. */
  lemma {:induction false} LoneScan(s: State, t: Tid, src: Source, j: nat, i: nat)
    requires |s.slots| == MAX_OPEN_FILES && j <= i <= MAX_OPEN_FILES && t in s.pcs && s.pcs[t] == Scanning(src, j)
    requires forall k | j <= k < i :: s.slots[k].Some?
    ensures Lone(s, t, i - j) == At(s, t, Scanning(src, i))
    decreases i - j
  {
    if j < i {
      var s1 := At(s, t, Scanning(src, j + 1));
      assert Step(s, t, Go) == s1;
      LoneScan(s1, t, src, j + 1, i);
      assert At(s1, t, Scanning(src, i)) == At(s, t, Scanning(src, i));
    } else {
      assert s.pcs[t := Scanning(src, i)] == s.pcs;
    }
  }

  lemma Opened(s: State, t: Tid)
    requires |s.slots| == MAX_OPEN_FILES && PcOf(s, t) == Idle
    ensures Step(s, t, Open) == At(s, t, Scanning(s.next, 0)).(next := s.next + 1)
  {
  }

  /** From a free slot with the lock free, five more steps: wait, lock, test again, store, unlock. */
  lemma LoneStore(s: State, t: Tid, src: Source, i: nat)
    requires |s.slots| == MAX_OPEN_FILES && i < MAX_OPEN_FILES && PcOf(s, t) == Scanning(src, i)
    requires s.mutex.None? && s.slots[i].None?
    ensures var s' := Lone(s, t, 5);
            && PcOf(s', t) == Idle && s'.mutex.None? && s'.slots == s.slots[i := Some(src)]
            && s'.live == s.live[src := i] && s'.deleted == s.deleted && s'.next == s.next
  {
    var s1 := At(s, t, Waiting(src, i));
    assert Step(s, t, Go) == s1;
    var s2 := At(s1, t, Locked(src, i)).(mutex := Some(t));
    assert Step(s1, t, Go) == s2;
    var s3 := At(s2, t, Storing(src, i));
    assert Step(s2, t, Go) == s3;
    var s4 := At(s3, t, Leaving(src, i, true)).(slots := s3.slots[i := Some(src)]);
    assert Step(s3, t, Go) == s4;
    var s5 := At(s4, t, Idle).(mutex := None, live := s4.live[src := i]);
    assert Step(s4, t, Go) == s5;
    hide Step;
    LoneFive(s, s1, s2, s3, s4, s5, t);
  }

  lemma LoneFive(s: State, s1: State, s2: State, s3: State, s4: State, s5: State, t: Tid)
    requires |s.slots| == |s1.slots| == |s2.slots| == |s3.slots| == |s4.slots| == |s5.slots| == MAX_OPEN_FILES
    requires Step(s, t, Go) == s1 && Step(s1, t, Go) == s2 && Step(s2, t, Go) == s3
    requires Step(s3, t, Go) == s4 && Step(s4, t, Go) == s5
    ensures Lone(s, t, 5) == s5
  {
    hide Step;
    assert Lone(s4, t, 1) == Lone(s5, t, 0) == s5;
    assert Lone(s3, t, 2) == Lone(s4, t, 1);
    assert Lone(s2, t, 3) == Lone(s3, t, 2);
    assert Lone(s1, t, 4) == Lone(s2, t, 3);
    assert Lone(s, t, 5) == Lone(s1, t, 4);
  }

  /** open, run alone with the lock free: a handle to the first free slot. */
  lemma LoneOpenSucceeds(s: State, t: Tid, i: nat)
    requires |s.slots| == MAX_OPEN_FILES && PcOf(s, t) == Idle && s.mutex.None?
    requires i < MAX_OPEN_FILES && s.slots[i].None? && forall k | 0 <= k < i :: s.slots[k].Some?
    ensures var s' := Lone(Step(s, t, Open), t, i + 5);
            && PcOf(s', t) == Idle && s'.mutex.None? && s'.slots == s.slots[i := Some(s.next)]
            && s'.live == s.live[s.next := i] && s'.deleted == s.deleted
  {
    hide Step;
    Opened(s, t);
    var s0 := Step(s, t, Open);
    LoneScan(s0, t, s.next, 0, i);
    LoneStore(At(s0, t, Scanning(s.next, i)), t, s.next, i);
    LoneOn(s0, t, i, 5);
  }

  /** open, run alone on a full table: no handle, and the new source is deleted. */
  lemma LoneOpenFails(s: State, t: Tid)
    requires |s.slots| == MAX_OPEN_FILES && PcOf(s, t) == Idle && forall k | 0 <= k < MAX_OPEN_FILES :: s.slots[k].Some?
    ensures var s' := Lone(Step(s, t, Open), t, 513);
            && PcOf(s', t) == Idle && s'.slots == s.slots && s'.live == s.live && s'.deleted == s.deleted + {s.next}
  {
    hide Step, Lone;
    Opened(s, t);
    var s0 := Step(s, t, Open);
    LoneScan(s0, t, s.next, 0, MAX_OPEN_FILES);
    LoneOn(s0, t, MAX_OPEN_FILES, 1);
    ScanEnds(At(s0, t, Scanning(s.next, MAX_OPEN_FILES)), t, s.next);
  }

  lemma ScanEnds(s: State, t: Tid, src: Source)
    requires |s.slots| == MAX_OPEN_FILES && PcOf(s, t) == Scanning(src, MAX_OPEN_FILES)
    ensures Lone(s, t, 1) == At(s, t, Idle).(deleted := s.deleted + {src})
  {
    assert Lone(s, t, 1) == Lone(Step(s, t, Go), t, 0);
  }

  /** release, run alone: the source is deleted, and its slot free again. */
  lemma LoneReleaseFrees(s: State, t: Tid, src: Source)
    requires Inv(s) && PcOf(s, t) == Idle && src in s.live
    ensures |Step(s, t, Release(src)).slots| == MAX_OPEN_FILES && s.live[src] < MAX_OPEN_FILES
    ensures var s' := Lone(Step(s, t, Release(src)), t, 3);
            && PcOf(s', t) == Idle && s'.slots == s.slots[s.live[src] := None]
            && s'.live == s.live - {src} && s'.deleted == s.deleted + {src}
  {
    HandleOkOf(s, src);
    hide Inv;
    var i := s.live[src];
    var s1 := At(s, t, Releasing(src, i)).(live := s.live - {src});
    assert Step(s, t, Release(src)) == s1;
    var s2 := At(s1, t, Deleting(src, i));
    assert Step(s1, t, Go) == s2;
    var s3 := At(s2, t, Clearing(src, i)).(deleted := s2.deleted + {src});
    assert Step(s2, t, Go) == s3;
    var s4 := At(s3, t, Idle).(slots := s3.slots[i := None]);
    assert Step(s3, t, Go) == s4;
    hide Step;
    assert Lone(s3, t, 1) == Lone(s4, t, 0) == s4;
    assert Lone(s2, t, 2) == Lone(s3, t, 1);
    assert Lone(s1, t, 3) == Lone(s2, t, 2);
  }
}
