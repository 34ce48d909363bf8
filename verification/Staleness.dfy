/** Where the path cache and the tables part. One run, served from a rebuilt file system on, leaves a
    stale entry; with it a path is served that does not exist, a rename breaks the tree, and a failing
    rename loses a file. */
module Staleness {
  import opened Wrappers
  import opened Modes
  import opened Namespace
  import opened Tree
  import opened Ops
  import opened Shape
  import opened Moves
  import opened Effects
  import opened Steps
  import opened Coherence
  import opened Runs
  import opened CacheModel
  import opened CachedSteps
  import opened Agreement
  import opened CachedRuns
  import opened CacheState
  import opened PathCaches
  import opened FsDbs
  import opened FileSystems
  import opened Service

  const A: Name := Word("a")
  const B: Name := Word("b")
  const C: Name := Word("c")
  const F: Name := Word("f")
  const X: Name := Word("x")
  const ROOT: SContext := SContext(0, 0, {})
  const M: Meta := Meta(S_IFDIR | 0x1ED, 0, 0)
  const FILE: Meta := Meta(S_IFREG | 0x1A4, 0, 0)

  function Req(op: Op): Request {
    Request(ROOT, op)
  }

  /** Make /a and /a/x, look /a/x up, rename /a to /b, make /a anew, look /a and /a/x up. */
  const RUN: seq<Request> := [
    Req(MkDir([A], 0x1ED)), Req(MkDir([A, X], 0x1ED)), Req(GetAttr([A, X])), Req(ReName([A], [B])),
    Req(MkDir([A], 0x1ED)), Req(GetAttr([A])), Req(GetAttr([A, X]))
  ]

  /** Then move /b to /a/x/c. */
  const CYCLE: Request := Req(ReName([B], [A, X, C]))

  /** Or look /b and /b/x up, make the file /b/x/f and move it to /a/x/f. */
  const MAKEFILE: seq<Request> := [Req(GetAttr([B])), Req(GetAttr([B, X])), Req(MkNod([B, X, F], FILE.mode))]
  const LOSS: Request := Req(ReName([B, X, F], [A, X, F]))

  function OneDir(): NS {
    AddAt(Rebuilt(0, 0), 0, A, 1, M)
  }

  /** The root, one directory top in it, and the directory "x" in that. */
  function TwoDirs(top: Name): NS {
    AddAt(AddAt(Rebuilt(0, 0), 0, top, 1, M), 1, X, 2, M)
  }

  function ThreeDirs(): NS {
    AddAt(TwoDirs(B), 0, A, 3, M)
  }

  function WithFile(): NS {
    AddAt(ThreeDirs(), 2, F, 4, FILE)
  }

  /** What is cached after /a/x is looked up, what the renaming of /a leaves, and what is cached at
      the end of the run. */
  const BEFORE: View := map[[] := CData(0, M), [A] := CData(1, M), [A, X] := CData(2, M)]
  const AFTER: View := map[[] := CData(0, M), [A, X] := CData(2, M)]
  const STALE: View := AFTER[[A] := CData(3, M)]
  const BOTH: View := STALE[[B] := CData(1, M)][[B, X] := CData(2, M)]

  ghost predicate CacheHolds(c: Cache, view: View) {
    WfCache(c) && c.view == view
  }

  ghost predicate Holds(w: World, ns: NS, view: View) {
    w.ns == ns && CacheHolds(w.cache, view)
  }

  predicate PrefixesIn(view: View, p: Path) {
    p in view && (p == [] || PrefixesIn(view, Parent(p)))
  }

  lemma {:induction false} RootPasses(view: View, p: Path)
    requires PrefixesIn(view, p)
    ensures Passes(view, ROOT, p)
    decreases |p|
  {
    if p != [] {
      RootPasses(view, Parent(p));
    }
    PassesLonger(view, ROOT, p);
  }

  /** A lookup of p by root, whose proper prefixes are cached, leaves view' for view. */
  predicate Grows(ns: NS, view: View, p: Path, view': View) {
    && (p != [] ==> PrefixesIn(view, Parent(p)))
    && (if p in view then view' == view && view[p].node in ns.meta
        else EntryOf(ns, view, p).Ok? && view' == view[p := EntryOf(ns, view, p).value])
  }

  lemma GrowsTo(ns: NS, view: View, p: Path, n: Id)
    requires p != [] && p !in view && PrefixesIn(view, Parent(p))
    requires Child(ns, view[Parent(p)].node, Leaf(p)) == Some(n)
    ensures Grows(ns, view, p, view[p := CData(n, ns.meta[n])])
  {
  }

  lemma LookGrows(ns: NS, c: Cache, view: View, p: Path, view': View, max: nat)
    requires CacheHolds(c, view) && Grows(ns, view, p, view') && |view| < max
    ensures p in view'
    ensures var (c', r) := GetNodeIn(ns, ROOT, c, p, max);
            CacheHolds(c', view') && r == Ok(view'[p].node)
  {
    hide Passes, WfCache, Fit;
    GetNodeKeepsWf(ns, ROOT, c, p, max);
    OrderSize(c);
    if p != [] {
      RootPasses(view, Parent(p));
    }
    if p in view {
      ServedFromCache(ns, ROOT, c, p, max);
    } else {
      ServedAfterOne(ns, ROOT, c, p, max);
    }
  }

  lemma GetStep(w: World, ns: NS, view: View, p: Path, view': View, max: nat)
    requires Holds(w, ns, view) && Grows(ns, view, p, view') && |view| < max
    ensures var rep := Step(w, Req(GetAttr(p)), max);
            rep.e == OK && Holds(rep.w, ns, view')
  {
    hide GetNodeIn, Grows;
    LookGrows(ns, w.cache, view, p, view', max);
  }

  lemma OpenStep(ns: NS, c: Cache, view: View, p: Path, view': View, max: nat)
    requires CacheHolds(c, view) && Grows(ns, view, Parent(p), view') && |view| < max
    requires Parent(p) in view' && IsDirNode(ns, view'[Parent(p)].node)
    ensures var (c', o) := OpenDir(ns, ROOT, c, p, max);
            CacheHolds(c', view') && o == Ok(view'[Parent(p)].node)
  {
    hide GetNodeIn, Grows, WfCache;
    LookGrows(ns, c, view, Parent(p), view', max);
  }

  lemma MakeStep(w: World, ns: NS, view: View, op: Op, m: Meta, view': View, d: Id, n: Id, max: nat)
    requires Holds(w, ns, view) && |view| < max
    requires (op == MkDir(op.p, 0x1ED) && m == M) || (op == MkNod(op.p, FILE.mode) && m == FILE)
    requires Grows(ns, view, Parent(op.p), view') && Parent(op.p) in view' && view'[Parent(op.p)].node == d
    requires IsDirNode(ns, d) && Key(d, Leaf(op.p)) !in ns.dirs && n == NextId(ns.meta.Keys)
    ensures var rep := Step(w, Req(op), max);
            rep.e == OK && Holds(rep.w, AddAt(ns, d, Leaf(op.p), n, m), view')
  {
    hide OpenDir, Grows, WfCache, NextId, AddAt;
    OpenStep(ns, w.cache, view, op.p, view', max);
  }

  lemma OpensStep(w: World, ns: NS, view: View, p: Path, q: Path, max: nat)
    requires Holds(w, ns, view) && |view| < max
    requires PrefixesIn(view, Parent(p)) && PrefixesIn(view, Parent(q))
    requires IsDirNode(ns, view[Parent(p)].node) && IsDirNode(ns, view[Parent(q)].node)
    ensures var (c, o) := RenameOpens(w, ROOT, p, q, max);
            CacheHolds(c, view) && o == Ok((view[Parent(p)].node, view[Parent(q)].node))
  {
    hide OpenDir, WfCache;
    OpenStep(ns, w.cache, view, p, view, max);
    OpenStep(ns, OpenDir(ns, ROOT, w.cache, p, max).0, view, q, view, max);
  }

  lemma NextIs(ids: set<Id>, n: Id)
    requires 0 < n < ID_LIMIT && n - 1 in ids && forall i | i in ids :: i < n
    ensures NextId(ids) == n
  {
  }

  lemma Parents()
    ensures Parent([A]) == [] && Parent([B]) == [] && Parent([A, X]) == [A] && Parent([B, X]) == [B]
    ensures Parent([A, X, C]) == [A, X] && Parent([A, X, F]) == [A, X] && Parent([B, X, F]) == [B, X]
  {
  }

  lemma FirstIsMade(w: World, max: nat)
    requires Holds(w, Rebuilt(0, 0), map[]) && max >= 8
    ensures var rep := Step(w, RUN[0], max);
            rep.e == OK && Holds(rep.w, OneDir(), map[[] := CData(0, M)])
  {
    hide Holds, Step;
    DirIsDir();
    Parents();
    NextIs({0}, 1);
    assert Rebuilt(0, 0).meta.Keys == {0};
    MakeStep(w, Rebuilt(0, 0), map[], MkDir([A], 0x1ED), M, map[[] := CData(0, M)], 0, 1, max);
  }

  lemma OneDirEntries()
    ensures OneDir().meta.Keys == {0, 1} && OneDir().meta[1] == M && IsDirNode(OneDir(), 1)
    ensures Child(OneDir(), 0, A) == Some(1) && Key(1, X) !in OneDir().dirs
    ensures TwoDirs(A) == AddAt(OneDir(), 1, X, 2, M)
  {
    DirIsDir();
  }

  lemma SecondIsMade(w: World, max: nat)
    requires Holds(w, OneDir(), map[[] := CData(0, M)]) && max >= 8
    ensures var rep := Step(w, RUN[1], max);
            rep.e == OK && Holds(rep.w, TwoDirs(A), map[[] := CData(0, M), [A] := CData(1, M)])
  {
    hide Holds, Step, OneDir, Grows;
    Parents();
    NextIs({0, 1}, 2);
    OneDirEntries();
    GrowsTo(OneDir(), map[[] := CData(0, M)], [A], 1);
    MakeStep(w, OneDir(), map[[] := CData(0, M)], MkDir([A, X], 0x1ED), M,
             map[[] := CData(0, M), [A] := CData(1, M)], 1, 2, max);
  }

  lemma ThirdIsFound(w: World, max: nat)
    requires Holds(w, TwoDirs(A), map[[] := CData(0, M), [A] := CData(1, M)]) && max >= 8
    ensures var rep := Step(w, RUN[2], max);
            rep.e == OK && Holds(rep.w, TwoDirs(A), BEFORE)
  {
    hide Holds, Step;
    DirIsDir();
    Parents();
    assert PrefixesIn(map[[] := CData(0, M), [A] := CData(1, M)], []);
    GetStep(w, TwoDirs(A), map[[] := CData(0, M), [A] := CData(1, M)], [A, X], BEFORE, max);
  }

  lemma TwoDirsRenamed()
    ensures 0 in TwoDirs(A).meta && Child(TwoDirs(A), 0, B) == None
    ensures MoveCheck(TwoDirs(A), ROOT, false, 0, A, 0, B) == OK
    ensures RenameBetween(TwoDirs(A), ROOT, false, 0, A, 0, B) == Effect(TwoDirs(B), Done)
  {
    hide RenameAt, MoveCheck;
    DirIsDir();
    TwoDirsMoved();
    TwoDirsChecked();
  }

  lemma TwoDirsChecked()
    ensures 0 in TwoDirs(A).meta && Child(TwoDirs(A), 0, B) == None && Child(TwoDirs(A), 0, A) == Some(1)
    ensures MoveCheck(TwoDirs(A), ROOT, false, 0, A, 0, B) == OK
  {
    DirIsDir();
  }

  lemma TwoDirsMoved()
    ensures RenameAt(TwoDirs(A), 0, A, 1, 0, B, None) == TwoDirs(B)
  {
    hide TwoDirs;
    TwoDirsTable(A);
    TwoDirsTable(B);
    assert RenameAt(TwoDirs(A), 0, A, 1, 0, B, None).dirs == TwoDirs(B).dirs;
  }

  lemma TwoDirsTable(top: Name)
    requires ValidName(top)
    ensures TwoDirs(top).meta == map[0 := M, 1 := M, 2 := M] && IsDir(M.mode)
    ensures TwoDirs(top).dirs
            == map[Key(0, Dot) := 0, Key(0, DotDot) := 0, Key(0, top) := 1, Key(1, Dot) := 1, Key(1, DotDot) := 0,
                   Key(1, X) := 2, Key(2, Dot) := 2, Key(2, DotDot) := 1]
  {
    DirIsDir();
  }

  /** Renaming "/a" to "/b" moves the directory, drops one entry, and leaves "/a/x" cached and cut off. */
  lemma RenameLeavesStaleChild(w: World, max: nat)
    requires Holds(w, TwoDirs(A), BEFORE) && max >= 8
    ensures var rep := Step(w, RUN[3], max);
            rep.e == OK && Holds(rep.w, TwoDirs(B), AFTER)
    ensures CutOff(TwoDirs(B), AFTER, [A, X])
  {
    hide Step, RenameOpens, RenameBetween, WfCache, TwoDirs, Resolve;
    OpensStepAtRoot(w, max);
    TwoDirsRenamed();
    var c := RenameOpens(w, ROOT, [A], [B], max).0;
    RenamedAs(w, [A], [B], c, 0, 0, max);
    ForgetKeepsWf(c, [A]);
    assert BEFORE - {[A]} == AFTER;
    NoAInTwoDirs();
    assert [A, X][..1] == [A];
  }

  lemma OpensStepAtRoot(w: World, max: nat)
    requires Holds(w, TwoDirs(A), BEFORE) && max >= 8
    ensures var (c, o) := RenameOpens(w, ROOT, [A], [B], max);
            CacheHolds(c, BEFORE) && o == Ok((0, 0))
  {
    hide WfCache, RenameOpens;
    DirIsDir();
    Parents();
    OpensStep(w, TwoDirs(A), BEFORE, [A], [B], max);
  }

  lemma NoAInTwoDirs()
    ensures Resolve(TwoDirs(B), [A]) == None
  {
    Parents();
  }

  /** A rename whose checks pass, between different paths. */
  lemma RenamedAs(w: World, p: Path, q: Path, c: Cache, sp: Id, dp: Id, max: nat)
    requires RenameOpens(w, ROOT, p, q, max) == (c, Ok((sp, dp))) && p != q
    requires sp in w.ns.meta && dp in w.ns.meta && MoveCheck(w.ns, ROOT, false, sp, Leaf(p), dp, Leaf(q)) == OK
    ensures var ef := RenameBetween(w.ns, ROOT, false, sp, Leaf(p), dp, Leaf(q));
            var e := ErrnoOf(ef.out);
            Step(w, Req(ReName(p, q)), max)
            == Reply(World(ef.ns, RenameForgets(c, p, q, Child(w.ns, dp, Leaf(q)).Some?, e)), e)
  {
    hide RenameOpens, RenameBetween, MoveCheck, RenameForgets;
  }

  lemma FifthIsMade(w: World, max: nat)
    requires Holds(w, TwoDirs(B), AFTER) && max >= 8
    ensures var rep := Step(w, RUN[4], max);
            rep.e == OK && Holds(rep.w, ThreeDirs(), AFTER)
  {
    hide Holds, Step, TwoDirs;
    Parents();
    NextIs({0, 1, 2}, 3);
    ThirdIsFree();
    MakeStep(w, TwoDirs(B), AFTER, MkDir([A], 0x1ED), M, AFTER, 0, 3, max);
  }

  lemma ThreeDirsEntries()
    ensures Child(ThreeDirs(), 0, B) == Some(1) && Child(ThreeDirs(), 1, X) == Some(2) && Child(ThreeDirs(), 0, A) == Some(3)
    ensures 2 in ThreeDirs().meta && ThreeDirs().meta[1] == ThreeDirs().meta[2] == ThreeDirs().meta[3] == M
  {
    DirIsDir();
  }

  lemma SixthIsFound(w: World, max: nat)
    requires Holds(w, ThreeDirs(), AFTER) && max >= 8
    ensures var rep := Step(w, RUN[5], max);
            rep.e == OK && Holds(rep.w, ThreeDirs(), STALE)
  {
    hide Holds, Step, ThreeDirs, Grows;
    Parents();
    ThreeDirsEntries();
    GrowsTo(ThreeDirs(), AFTER, [A], 3);
    GetStep(w, ThreeDirs(), AFTER, [A], STALE, max);
  }

  /** What is served at the end of the run, and again afterwards, does not exist. */
  lemma StaleIsServed(w: World, max: nat)
    requires Holds(w, ThreeDirs(), STALE) && max >= 8
    ensures var rep := Step(w, RUN[6], max);
            rep.e == OK && Holds(rep.w, ThreeDirs(), STALE)
    ensures Walk(ThreeDirs(), ROOT, [A, X]) == Err(ENOENT) && !Coherent(ThreeDirs(), STALE)
  {
    hide Holds, Step, Walk, Coherent;
    DirIsDir();
    Parents();
    StalePrefixes();
    OutOfStep();
    GetStep(w, ThreeDirs(), STALE, [A, X], STALE, max);
    NothingInA();
  }

  lemma OutOfStep()
    ensures !Coherent(ThreeDirs(), STALE)
  {
    hide Walk, Coherent, ThreeDirs, Resolve;
    if Coherent(ThreeDirs(), STALE) {
      assert [A, X][..0] == [] && [A, X][..1] == [A];
      AllCachedIsRight(ThreeDirs(), STALE, [A, X]);
      WhatIsThere();
      assert false;
    }
  }

  lemma WhatIsThere()
    ensures Resolve(ThreeDirs(), [A, X]) == None
  {
    DirIsDir();
    Parents();
    assert Resolve(ThreeDirs(), [A]) == Some(3);
  }

  lemma NothingInA()
    ensures Walk(ThreeDirs(), ROOT, [A]) == Ok(3) && Walk(ThreeDirs(), ROOT, [A, X]) == Err(ENOENT)
  {
    DirIsDir();
    Parents();
    assert Walk(ThreeDirs(), ROOT, []) == Ok(0);
  }

  lemma RoomToAdd(ns: NS, d: Id, x: Name, n: Id, m: Meta)
    requires IdsLeft(ns) && n + 1 < ID_LIMIT && |ns.dirs| <= 1000
    ensures Room(ns) && IdsLeft(AddAt(ns, d, x, n, m)) && |AddAt(ns, d, x, n, m).dirs| <= |ns.dirs| + 3
  {
    MapGrows(ns.dirs, Key(d, x), n);
    MapGrows(ns.dirs[Key(d, x) := n], Key(n, Dot), n);
    MapGrows(ns.dirs[Key(d, x) := n][Key(n, Dot) := n], Key(n, DotDot), d);
  }

  lemma TwoDirsOk(top: Name)
    requires ValidName(top)
    ensures Inv(Rebuilt(0, 0)) && Room(Rebuilt(0, 0))
    ensures var one := AddAt(Rebuilt(0, 0), 0, top, 1, M); Inv(one) && Room(one)
    ensures Inv(TwoDirs(top)) && Room(TwoDirs(top)) && |TwoDirs(top).dirs| <= 8
  {
    hide Inv, AddAt;
    RebuiltInv(0, 0);
    RootAndOne(top);
    AddKeepsInv(Rebuilt(0, 0), 0, top, 1, M);
    RoomToAdd(Rebuilt(0, 0), 0, top, 1, M);
    var one := AddAt(Rebuilt(0, 0), 0, top, 1, M);
    AddKeepsInv(one, 1, X, 2, M);
    RoomToAdd(one, 1, X, 2, M);
    RoomToAdd(TwoDirs(top), 0, top, 3, M);
  }

  lemma RootAndOne(top: Name)
    requires ValidName(top)
    ensures IsDirNode(Rebuilt(0, 0), 0) && Key(0, top) !in Rebuilt(0, 0).dirs && 1 !in Rebuilt(0, 0).meta
    ensures var one := AddAt(Rebuilt(0, 0), 0, top, 1, M);
            IsDirNode(one, 1) && Key(1, X) !in one.dirs && 2 !in one.meta
    ensures |Rebuilt(0, 0).dirs| == 2
  {
    DirIsDir();
    assert Rebuilt(0, 0).dirs.Keys == {Key(0, Dot), Key(0, DotDot)};
    assert |Rebuilt(0, 0).dirs| == |Rebuilt(0, 0).dirs.Keys|;
  }

  lemma ThreeDirsOk()
    ensures Inv(ThreeDirs()) && Room(ThreeDirs()) && |ThreeDirs().dirs| <= 11
  {
    hide Inv;
    TwoDirsOk(B);
    ThirdIsFree();
    AddKeepsInv(TwoDirs(B), 0, A, 3, M);
    RoomToAdd(TwoDirs(B), 0, A, 3, M);
    RoomToAdd(ThreeDirs(), 0, F, 4, M);
  }

  lemma ThirdIsFree()
    ensures IsDirNode(TwoDirs(B), 0) && Key(0, A) !in TwoDirs(B).dirs && TwoDirs(B).meta.Keys == {0, 1, 2}
  {
    DirIsDir();
  }

  /** The run, from a rebuilt file system with a cold cache: all its requests are answered, the last
      from a stale entry. */
  lemma RunReaches(max: nat)
    requires max >= 8
    ensures var w := NewWorld(0, 0);
            && Holds(RunCached(w, RUN, max), ThreeDirs(), STALE)
            && RoomyRun(w, RUN, max) && TreeBefore(w, RUN, max)
            && forall i | 0 <= i < |RUN| :: Answer(w, RUN, max, i) == OK
  {
    hide Holds, Step, RunCached, Rebuilt, OneDir, TwoDirs, ThreeDirs, BEFORE, AFTER, STALE, RUN, Answer, Before, TreeWithRoom,
         RoomyRun, TreeBefore;
    var w := NewWorld(0, 0);
    RunTables();
    RunStarts(w, max);
    FirstIsMade(Before(w, RUN, max, 0), max);
    Onward(w, max, 0, OneDir(), map[[] := CData(0, M)]);
    SecondIsMade(Before(w, RUN, max, 1), max);
    Onward(w, max, 1, TwoDirs(A), map[[] := CData(0, M), [A] := CData(1, M)]);
    ThirdIsFound(Before(w, RUN, max, 2), max);
    Onward(w, max, 2, TwoDirs(A), BEFORE);
    RenameLeavesStaleChild(Before(w, RUN, max, 3), max);
    Onward(w, max, 3, TwoDirs(B), AFTER);
    FifthIsMade(Before(w, RUN, max, 4), max);
    Onward(w, max, 4, ThreeDirs(), AFTER);
    SixthIsFound(Before(w, RUN, max, 5), max);
    Onward(w, max, 5, ThreeDirs(), STALE);
    StaleIsServed(Before(w, RUN, max, 6), max);
    Onward(w, max, 6, ThreeDirs(), STALE);
    RunSoFar(w, max);
    RunAtEnd(w, max);
  }

  lemma Onward(w: World, max: nat, i: nat, ns: NS, view: View)
    requires i < |RUN|
    requires var rep := Step(Before(w, RUN, max, i), RUN[i], max); rep.e == OK && Holds(rep.w, ns, view)
    ensures Answer(w, RUN, max, i) == OK && Holds(Before(w, RUN, max, i + 1), ns, view)
    ensures Before(w, RUN, max, i + 1).ns == ns
  {
    hide Step, Before, CacheHolds, RUN;
    BeforeNext(w, RUN, max, i);
  }

  lemma RunAtEnd(w: World, max: nat)
    ensures |RUN| == 7 && Before(w, RUN, max, 7) == RunCached(w, RUN, max)
  {
    hide RunCached;
    assert RUN[..7] == RUN;
  }

  lemma RunStarts(w: World, max: nat)
    requires w == NewWorld(0, 0)
    ensures Holds(Before(w, RUN, max, 0), Rebuilt(0, 0), map[])
    ensures |RUN| == 7 && Before(w, RUN, max, 0).ns == Rebuilt(0, 0)
  {
  }

  ghost predicate TreeWithRoom(ns: NS) {
    Inv(ns) && Room(ns)
  }

  lemma RunTables()
    ensures TreeWithRoom(Rebuilt(0, 0)) && TreeWithRoom(OneDir()) && TreeWithRoom(TwoDirs(A))
    ensures TreeWithRoom(TwoDirs(B)) && TreeWithRoom(ThreeDirs())
  {
    hide Inv, Room, TwoDirs;
    TwoDirsOk(A);
    TwoDirsOk(B);
    ThreeDirsOk();
  }

  lemma RunSoFar(w: World, max: nat)
    requires forall i | 0 <= i < 7 :: TreeWithRoom(Before(w, RUN, max, i).ns)
    ensures RoomyRun(w, RUN, max) && TreeBefore(w, RUN, max)
  {
    hide Inv, Room, Before;
    DirIsDir();
  }

  lemma StalePrefixes()
    ensures PrefixesIn(STALE, []) && PrefixesIn(STALE, [A]) && PrefixesIn(STALE, [A, X])
  {
    Parents();
    assert PrefixesIn(STALE, []);
    assert PrefixesIn(STALE, [A]);
  }

  lemma CycleOpens(w: World, max: nat)
    requires Holds(w, ThreeDirs(), STALE) && max >= 8
    ensures RenameOpens(w, ROOT, [B], [A, X, C], max).1 == Ok((0, 2))
  {
    hide RenameOpens, CacheHolds, ThreeDirs;
    Parents();
    StalePrefixes();
    CycleChecks();
    OpensStep(w, ThreeDirs(), STALE, [B], [A, X, C], max);
  }

  lemma CycleChecks()
    ensures IsDirNode(ThreeDirs(), 0) && IsDirNode(ThreeDirs(), 2)
    ensures MovesBelowItself(ThreeDirs(), ROOT, false, 0, B, 2, C)
    ensures MoveCheck(ThreeDirs(), ROOT, false, 0, B, 2, C) == OK
    ensures RenameBetween(ThreeDirs(), ROOT, false, 0, B, 2, C).out == Done
  {
    DirIsDir();
    assert UpN(ThreeDirs(), 2, 1) == 1;
    assert Below(ThreeDirs(), 2, 1);
  }

  /** Moving /b to /a/x/c: no such directory as /a/x, so the tables alone refuse it, but the stale entry
      leads to the directory below the one to be moved. The rename is done and the tree broken. */
  lemma StaleRenameBreaksTree(w: World, max: nat)
    requires Holds(w, ThreeDirs(), STALE) && max >= 8
    ensures Admissible(w.ns, CYCLE.op) && Apply(w.ns, CYCLE).out == LookupFails
    ensures var rep := Step(w, CYCLE, max);
            rep.e == OK && !Inv(rep.w.ns) && !Safe(w, CYCLE, max)
  {
    hide Inv, Step, RenameOpens, MovesBelowItself, IdsLeft, LosesItself, ThreeDirs, WfCache, Walk, LocateDir,
         RenameBetween, MoveCheck;
    CycleOpens(w, max);
    CycleChecks();
    ThreeDirsOk();
    StepIff(w, CYCLE, max);
    RenamedAs(w, [B], [A, X, C], RenameOpens(w, ROOT, [B], [A, X, C], max).0, 0, 2, max);
    NoWayToC();
  }

  lemma NoWayToC()
    ensures LocateDir(ThreeDirs(), ROOT, [A, X, C]) == None
  {
    Parents();
    NothingInA();
  }

  lemma FourthIsFree()
    ensures IsDirNode(ThreeDirs(), 2) && Key(2, F) !in ThreeDirs().dirs && ThreeDirs().meta.Keys == {0, 1, 2, 3}
    ensures !IsDir(FILE.mode)
  {
    DirIsDir();
  }

  lemma BothPrefixes()
    ensures PrefixesIn(BOTH, [A, X]) && PrefixesIn(BOTH, [B, X])
    ensures BOTH[[A, X]].node == 2 && BOTH[[B, X]].node == 2
  {
    Parents();
    assert PrefixesIn(BOTH, []);
    assert PrefixesIn(BOTH, [A]) && PrefixesIn(BOTH, [B]);
  }

  lemma BIsFound(w: World, max: nat)
    requires Holds(w, ThreeDirs(), STALE) && max >= 8
    ensures var rep := Step(w, MAKEFILE[0], max);
            rep.e == OK && Holds(rep.w, ThreeDirs(), STALE[[B] := CData(1, M)])
  {
    hide Holds, Step, ThreeDirs, Grows;
    Parents();
    ThreeDirsEntries();
    StalePrefixes();
    GrowsTo(ThreeDirs(), STALE, [B], 1);
    GetStep(w, ThreeDirs(), STALE, [B], STALE[[B] := CData(1, M)], max);
  }

  lemma XInBIsFound(w: World, max: nat)
    requires Holds(w, ThreeDirs(), STALE[[B] := CData(1, M)]) && max >= 8
    ensures var rep := Step(w, MAKEFILE[1], max);
            rep.e == OK && Holds(rep.w, ThreeDirs(), BOTH)
  {
    hide Holds, Step, ThreeDirs, Grows;
    Parents();
    ThreeDirsEntries();
    var v := STALE[[B] := CData(1, M)];
    assert PrefixesIn(v, []);
    GrowsTo(ThreeDirs(), v, [B, X], 2);
    GetStep(w, ThreeDirs(), v, [B, X], BOTH, max);
  }

  lemma FileIsMade(w: World, max: nat)
    requires Holds(w, ThreeDirs(), BOTH) && max >= 8
    ensures var rep := Step(w, MAKEFILE[2], max);
            rep.e == OK && Holds(rep.w, WithFile(), BOTH)
  {
    hide Holds, Step, ThreeDirs;
    Parents();
    NextIs({0, 1, 2, 3}, 4);
    FourthIsFree();
    BothPrefixes();
    MakeStep(w, ThreeDirs(), BOTH, MkNod([B, X, F], FILE.mode), FILE, BOTH, 2, 4, max);
  }

  lemma WithFileOk()
    ensures Inv(WithFile()) && Room(WithFile()) && IsDirNode(WithFile(), 2)
  {
    hide Inv, ThreeDirs, AddAt;
    ThreeDirsOk();
    FourthIsFree();
    AddKeepsInv(ThreeDirs(), 2, F, 4, FILE);
    RoomToAdd(ThreeDirs(), 2, F, 4, FILE);
    RoomToAdd(WithFile(), 2, F, 5, FILE);
    FileKeepsDirs();
  }

  lemma FileKeepsDirs()
    ensures IsDirNode(WithFile(), 2)
  {
    DirIsDir();
  }

  lemma LossOpens(w: World, max: nat)
    requires Holds(w, WithFile(), BOTH) && max >= 8
    ensures RenameOpens(w, ROOT, [B, X, F], [A, X, F], max).1 == Ok((2, 2))
  {
    hide RenameOpens, CacheHolds, WithFile;
    Parents();
    BothPrefixes();
    FileKeepsDirs();
    OpensStep(w, WithFile(), BOTH, [B, X, F], [A, X, F], max);
  }

  lemma LossChecks()
    ensures IsDirNode(WithFile(), 2) && MoveCheck(WithFile(), ROOT, false, 2, F, 2, F) == OK
    ensures 4 in WithFile().meta && LosesItself(WithFile(), ROOT, false, 2, F, 2, F)
    ensures 4 !in RenameBetween(WithFile(), ROOT, false, 2, F, 2, F).ns.meta
    ensures !MovesBelowItself(WithFile(), ROOT, false, 2, F, 2, F)
  {
    DirIsDir();
    FourthIsFree();
    OnlyEntryOfFile();
  }

  lemma OnlyEntryOfFile()
    ensures Child(WithFile(), 2, F) == Some(4) && !Referenced(WithFile().dirs - {Key(2, F)}, 4)
  {
    DirIsDir();
  }

  /** Moving /b/x/f to /a/x/f opens one directory twice: the file is removed as the node to be replaced,
      and then reported as lost. On the tables alone the lookup of /a/x fails. */
  lemma StaleRenameLosesFile(w: World, max: nat)
    requires Holds(w, WithFile(), BOTH) && max >= 8
    ensures Admissible(w.ns, LOSS.op) && Apply(w.ns, LOSS).out == LookupFails
    ensures var rep := Step(w, LOSS, max);
            rep.e == EIO && 4 in w.ns.meta && 4 !in rep.w.ns.meta && Inv(rep.w.ns) && !Clean(w, LOSS, max)
  {
    hide Inv, Step, RenameOpens, MovesBelowItself, IdsLeft, LosesItself, WithFile, CacheHolds, Walk, LocateDir,
         RenameBetween, MoveCheck;
    LossOpens(w, max);
    LossChecks();
    WithFileOk();
    StepIff(w, LOSS, max);
    RenamedAs(w, [B, X, F], [A, X, F], RenameOpens(w, ROOT, [B, X, F], [A, X, F], max).0, 2, 2, max);
    NoWayToF();
  }

  lemma NoWayToF()
    ensures LocateDir(WithFile(), ROOT, [A, X, F]) == None && Resolve(WithFile(), [A, X, F]) == None
  {
    Parents();
    DirIsDir();
    assert Walk(WithFile(), ROOT, []) == Ok(0);
    assert Walk(WithFile(), ROOT, [A]) == Ok(3);
    assert Resolve(WithFile(), [A]) == Some(3);
  }

  /** The run, served by the file system itself: the last lookup finds what is not there. */
  method ServeStale(maxentries: nat) returns (fs: FS, es: seq<Errno>)
    requires maxentries >= 8
    ensures fs.Valid() && fs.pcache.maxentries == maxentries && fs.db.View() == ThreeDirs()
    ensures fresh(fs.db) && fresh(fs.pcache) && fresh(fs.pcache.st.heap.Keys)
    ensures Holds(fs.W(), ThreeDirs(), STALE)
    ensures es == [OK, OK, OK, OK, OK, OK, OK] && Walk(fs.db.View(), ROOT, [A, X]) == Err(ENOENT)
  {
    hide Inv, Room, RUN, RunCached, RoomyRun, TreeBefore, FittingRun, SafeRun, AdmissibleRun, Sound, Consistent, Run,
         NothingBelowRun, Answer, Walk, Step, Apply, Matches, CacheHolds, Coherent, ThreeDirs, STALE;
    hide PathCacheHash.Linked, PathCacheHash.Valid;
    RunReaches(maxentries);
    NothingInA();
    fs, es := ServeRebuilt(maxentries, 0, 0, RUN);
    ValidIffTree(fs);
    ThreeDirsOk();
    SevenOks(es);
  }

  lemma SevenOks(es: seq<Errno>)
    requires |es| == |RUN| && forall i | 0 <= i < |RUN| :: es[i] == OK
    ensures es == [OK, OK, OK, OK, OK, OK, OK]
  {
  }

  /** The rename that breaks the tree. */
  method BreakTree(maxentries: nat) returns (fs: FS, e: Errno)
    requires maxentries >= 8
    ensures e == OK && fs.Usable() && !Inv(fs.db.View())
  {
    hide Inv, Room, Sound, Consistent, Step, Apply, Safe, Clean, NewNameFits, Admissible, CacheHolds, Coherent,
         ThreeDirs, STALE;
    hide PathCacheHash.Linked, PathCacheHash.Valid;
    var es;
    fs, es := ServeStale(maxentries);
    StaleRenameBreaksTree(fs.W(), maxentries);
    ThreeDirsOk();
    e := Handle(fs, CYCLE);
  }

  /** The file is made, after both names of its directory are looked up. */
  method ServeFile(maxentries: nat) returns (fs: FS)
    requires maxentries >= 8
    ensures fs.Valid() && fs.pcache.maxentries == maxentries && Holds(fs.W(), WithFile(), BOTH)
    ensures fresh(fs.db) && fresh(fs.pcache) && fresh(fs.pcache.st.heap.Keys)
  {
    hide Inv, Room, Sound, Consistent, Step, Apply, Safe, Clean, NewNameFits, Admissible, CacheHolds, Coherent,
         ThreeDirs, WithFile, STALE, BOTH;
    hide PathCacheHash.Linked, PathCacheHash.Valid;
    var es, e;
    fs, es := ServeStale(maxentries);
    ThreeDirsOk();
    WithFileOk();
    BIsFound(fs.W(), maxentries);
    e := Handle(fs, MAKEFILE[0]);
    XInBIsFound(fs.W(), maxentries);
    e := Handle(fs, MAKEFILE[1]);
    FileIsMade(fs.W(), maxentries);
    e := Handle(fs, MAKEFILE[2]);
  }

  /** The rename that fails and loses the file. */
  method LoseFile(maxentries: nat) returns (fs: FS, e: Errno, before: NS)
    requires maxentries >= 8
    ensures e == EIO && fs.Valid() && 4 in before.meta && 4 !in fs.db.View().meta
  {
    hide Inv, Room, Sound, Consistent, Step, Apply, Safe, Clean, NewNameFits, Admissible, CacheHolds, Coherent,
         WithFile, BOTH;
    hide PathCacheHash.Linked, PathCacheHash.Valid;
    fs := ServeFile(maxentries);
    WithFileOk();
    before := fs.db.View();
    StaleRenameLosesFile(fs.W(), maxentries);
    e := Handle(fs, LOSS);
  }

  /** rename checks for a move below itself only when the new name exists. When it does not, the tree
      survives the move of a directory exactly when the new name does not lie below the old one. */
  lemma MoveToFreshNameKeepsTreeIff(ns: NS, p: Path, q: Path, sp: Id, src: Id, dp: Id)
    requires Inv(ns) && HoldsLeaf(ns, p, sp) && HoldsLeaf(ns, q, dp)
    requires Child(ns, sp, Leaf(p)) == Some(src) && IsDirNode(ns, src) && Child(ns, dp, Leaf(q)) == None
    ensures Inv(RenameAt(ns, sp, Leaf(p), src, dp, Leaf(q), None)) <==> !StrictlyUnder(q, p)
  {
    ResolveHeld(ns, p, sp);
    ResolveHeld(ns, q, dp);
    WalkDecidesSubtree(ns, p, q, sp, src, dp);
    if StrictlyUnder(q, p) {
      MoveBelowItselfBreaksTree(ns, sp, Leaf(p), src, dp, Leaf(q));
    } else {
      FreshNameMayMove(ns, p, q, sp, src, dp);
      MoveKeepsInv(ns, sp, Leaf(p), src, dp, Leaf(q), None);
    }
  }

  lemma FreshNameMayMove(ns: NS, p: Path, q: Path, sp: Id, src: Id, dp: Id)
    requires HoldsLeaf(ns, p, sp) && HoldsLeaf(ns, q, dp) && !Below(ns, dp, src)
    requires Child(ns, sp, Leaf(p)) == Some(src) && Child(ns, dp, Leaf(q)) == None
    ensures MayMove(ns, sp, Leaf(p), src, dp, Leaf(q), None)
  {
  }

  /** So moving /a to /a/b, with a cache in step, makes /a its own parent. */
  lemma MoveIntoItself()
    ensures Inv(TwoDirs(A)) && Rename(TwoDirs(A), ROOT, [A], [A, B]).out == Done
    ensures var ns' := Rename(TwoDirs(A), ROOT, [A], [A, B]).ns;
            !Inv(ns') && Up(ns', 1) == 1
    ensures !Admissible(TwoDirs(A), ReName([A], [A, B]))
  {
    hide Inv, RenameAt, TwoDirs, Walk, Resolve, RenameBetween;
    TwoDirsOk(A);
    TwoDirsWalks();
    IntoItselfPasses();
    assert Parent([A, B]) == [A] && Parent([A]) == [];
    MoveToFreshNameKeepsTreeIff(TwoDirs(A), [A], [A, B], 0, 1, 1);
  }

  lemma TwoDirsWalks()
    ensures Walk(TwoDirs(A), ROOT, []) == Ok(0) && Walk(TwoDirs(A), ROOT, [A]) == Ok(1)
    ensures Resolve(TwoDirs(A), []) == Some(0) && Resolve(TwoDirs(A), [A]) == Some(1)
    ensures Resolve(TwoDirs(A), [A, B]) == None
  {
    DirIsDir();
    assert Parent([A, B]) == [A] && Parent([A]) == [];
  }

  lemma IntoItselfPasses()
    ensures IsDirNode(TwoDirs(A), 0) && IsDirNode(TwoDirs(A), 1)
    ensures Child(TwoDirs(A), 0, A) == Some(1) && Child(TwoDirs(A), 1, B) == None
    ensures RenameBetween(TwoDirs(A), ROOT, false, 0, A, 1, B) == Effect(RenameAt(TwoDirs(A), 0, A, 1, 1, B, None), Done)
    ensures Up(RenameAt(TwoDirs(A), 0, A, 1, 1, B, None), 1) == 1
  {
    DirIsDir();
  }

  /** One file under two names of the root. */
  function TwoNames(): NS {
    LinkAt(AddAt(Rebuilt(0, 0), 0, A, 1, FILE), 0, B, 1)
  }

  /** rename of /a to /b, both of them links to one file, takes /a away. */
  lemma LinkedNamesAtRoot()
    ensures Inv(TwoNames()) && Rename(TwoNames(), ROOT, [A], [B]).out == Done
    ensures var ns' := Rename(TwoNames(), ROOT, [A], [B]).ns;
            Resolve(ns', [A]) == None && Resolve(ns', [B]) == Some(1)
  {
    hide Inv, RenameAt;
    DirIsDir();
    FourthIsFree();
    RebuiltInv(0, 0);
    AddKeepsInv(Rebuilt(0, 0), 0, A, 1, FILE);
    LinkKeepsInv(AddAt(Rebuilt(0, 0), 0, A, 1, FILE), 0, B, 1);
    assert Parent([A]) == [] && Parent([B]) == [];
    assert Walk(TwoNames(), ROOT, []) == Ok(0) && Resolve(TwoNames(), []) == Some(0);
    LinkedNamesRename(TwoNames(), [A], [B], 0, 1, 0);
  }
}
