/** Whole runs of the file system: it serves every run of requests as CachedRuns says, keeps its tables
    sound, and while the cache is in step answers as the tables alone with uncached walks would. */
module Service {
  import opened Namespace
  import opened Tree
  import opened Ops
  import opened Coherence
  import opened Runs
  import opened CacheModel
  import opened CachedSteps
  import opened Agreement
  import opened Verdicts
  import opened Performed
  import opened CachedRuns
  import opened CacheState
  import opened PathCaches
  import opened FsDbs
  import opened FileSystems

  ghost predicate RoomyRun(w: World, rs: seq<Request>, max: nat) {
    forall i | 0 <= i < |rs| :: WellFormed(rs[i].op) && Room(Before(w, rs, max, i).ns)
  }

  /** Every request of the run finds a tree; the last may break it. */
  ghost predicate TreeBefore(w: World, rs: seq<Request>, max: nat) {
    forall i | 0 <= i < |rs| :: Inv(Before(w, rs, max, i).ns)
  }

  /** One request, whatever the cache holds. */
  method Handle(fs: FS, r: Request) returns (e: Errno)
    requires fs.Valid() && WellFormed(r.op) && Room(fs.db.View())
    modifies fs.db, fs.pcache, fs.pcache.st.heap.Keys
    ensures fs.Usable() && fresh(fs.pcache.st.heap.Keys - old(fs.pcache.st).heap.Keys)
    ensures Reply(fs.W(), e) == Step(old(fs.W()), r, fs.pcache.maxentries)
    ensures fs.Valid() <==> Safe(old(fs.W()), r, fs.pcache.maxentries)
    ensures (e != OK ==> fs.db.View() == old(fs.db.View())) <==> Clean(old(fs.W()), r, fs.pcache.maxentries)
    ensures e == EIO <==> !Clean(old(fs.W()), r, fs.pcache.maxentries)
    ensures InStep(old(fs.W())) && Admissible(old(fs.db.View()), r.op) ==>
              && fs.Valid() && Mirrors(Reply(fs.W(), e), Apply(old(fs.db.View()), r))
              && (InStep(fs.W()) <==> NewNameFits(old(fs.W()), r, fs.pcache.maxentries))
              && Matches(e, Verdict(old(fs.db.View()), r))
              && (e == OK ==> IsDone(old(fs.db.View()), fs.db.View(), r))
  {
    hide Sound, Consistent, Coherent, Inv, Safe, Clean, Admissible, NewNameFits, Mirrors, Verdict, IsDone, StepCreate, StepUnlink,
         StepRmdir, StepRename, StepLink, StepSet, GetNodeIn, Abs, Apply;
    ghost var w := fs.W();
    HandleSteps(w, r, fs.pcache.maxentries);
    e := Dispatch(fs, r);
  }

  lemma HandleSteps(w: World, r: Request, max: nat)
    requires Inv(w.ns) && WellFormed(r.op) && IdsLeft(w.ns)
    ensures var rep := Step(w, r, max);
            && (Inv(rep.w.ns) <==> Safe(w, r, max))
            && ((rep.e != OK ==> rep.w.ns == w.ns) <==> Clean(w, r, max))
            && (rep.e == EIO <==> !Clean(w, r, max))
            && (InStep(w) && Admissible(w.ns, r.op) ==>
                  && Inv(rep.w.ns) && Mirrors(rep, Apply(w.ns, r))
                  && (InStep(rep.w) <==> NewNameFits(w, r, max))
                  && Matches(rep.e, Verdict(w.ns, r)) && (rep.e == OK ==> IsDone(w.ns, rep.w.ns, r)))
  {
    hide Inv, IdsLeft, Step, Safe, Clean, Coherent, Apply, NewNameFits, Admissible, WellFormed, Verdict, IsDone;
    StepIff(w, r, max);
    if InStep(w) && Admissible(w.ns, r.op) {
      StepAgrees(w, r, max);
      StepMeans(w, r, max);
    }
  }

  method Dispatch(fs: FS, r: Request) returns (e: Errno)
    requires fs.Valid() && WellFormed(r.op) && Room(fs.db.View())
    modifies fs.db, fs.pcache, fs.pcache.st.heap.Keys
    ensures fs.Usable() && fresh(fs.pcache.st.heap.Keys - old(fs.pcache.st).heap.Keys)
    ensures Reply(fs.W(), e) == Step(old(fs.W()), r, fs.pcache.maxentries)
  {
    hide Sound, Consistent, Coherent, Inv, Safe, Clean, NewNameFits, Mirrors, StepCreate, StepUnlink,
         StepRmdir, StepRename, StepLink, StepSet, GetNodeIn, Abs, FS.W, FS.Usable, Room;
    hide PathCacheHash.Linked, PathCacheHash.Valid;
    match r.op {
      case MkDir(p, mode) => e := fs.MkDir(r.ctx, p, mode);
      case MkNod(p, mode) => e := fs.MkNod(r.ctx, p, mode);
      case SymLink(p) => e := fs.SymLink(r.ctx, p);
      case ReName(p, q) => e := fs.ReName(r.ctx, p, q);
      case HardLink(p, q) => e := fs.HardLink(r.ctx, p, q);
      case _ => e := DispatchOld(fs, r);
    }
  }

  /** The requests that make no name appear. */
  method DispatchOld(fs: FS, r: Request) returns (e: Errno)
    requires fs.Valid() && WellFormed(r.op) && Appearing(r.op) == {}
    modifies fs.db, fs.pcache, fs.pcache.st.heap.Keys
    ensures fs.Usable() && fresh(fs.pcache.st.heap.Keys - old(fs.pcache.st).heap.Keys)
    ensures Reply(fs.W(), e) == Step(old(fs.W()), r, fs.pcache.maxentries)
  {
    hide Sound, Consistent, Coherent, Inv, Mirrors, StepUnlink, StepRmdir, StepSet, GetNodeIn, Abs, FS.W, FS.Usable;
    hide PathCacheHash.Linked, PathCacheHash.Valid;
    match r.op {
      case GetAttr(p) =>
        var n;
        e, n := fs.GetAttr(r.ctx, p);
      case UnLink(p) => e := fs.UnLink(r.ctx, p);
      case RmDir(p) => e := fs.RmDir(r.ctx, p);
      case ChMod(p, mode) => e := fs.ChMod(r.ctx, p, mode);
      case ChOwn(p, owner, group) => e := fs.ChOwn(r.ctx, p, owner, group);
    }
  }

  /** A run of requests served one after the other, from any contents of the cache. The tables are a
      tree at the end exactly if every request was safe. In a run that keeps the cache in step, each
      request ends as on the tables alone, and so do the tables. */
  method Serve(fs: FS, rs: seq<Request>) returns (es: seq<Errno>)
    requires fs.Valid() && RoomyRun(fs.W(), rs, fs.pcache.maxentries) && TreeBefore(fs.W(), rs, fs.pcache.maxentries)
    modifies fs.db, fs.pcache, fs.pcache.st.heap.Keys
    ensures fs.Usable() && fresh(fs.pcache.st.heap.Keys - old(fs.pcache.st).heap.Keys)
    ensures fs.Valid() <==> SafeRun(old(fs.W()), rs, fs.pcache.maxentries)
    ensures fs.W() == RunCached(old(fs.W()), rs, fs.pcache.maxentries)
    ensures |es| == |rs| && forall i | 0 <= i < |rs| :: es[i] == Answer(old(fs.W()), rs, fs.pcache.maxentries, i)
    ensures InStep(old(fs.W())) && AdmissibleRun(old(fs.db.View()), rs) &&
            FittingRun(old(fs.W()), rs, fs.pcache.maxentries) ==>
              && fs.Valid() && InStep(fs.W()) && fs.db.View() == Run(old(fs.db.View()), rs)
              && forall i | 0 <= i < |rs| :: Matches(es[i], Apply(Run(old(fs.db.View()), rs[..i]), rs[i]).out)
  {
    hide Consistent, Coherent, Inv, Sound, Apply, Matches, Run, Room, Step, FS.W, Safe, Clean, Admissible, NewNameFits,
         AdmissibleRun, FittingRun, SafeRun, Before, WellFormed;
    hide PathCacheHash.Valid, PathCacheHash.Linked;
    ValidIffTree(fs);
    ghost var w, max := fs.W(), fs.pcache.maxentries;
    es := [];
    var i := 0;
    assert rs[..0] == [] && rs[..|rs|] == rs;
    NoneServed(w, max);
    while i < |rs|
      invariant 0 <= i <= |rs| && |es| == i
      invariant fs.Usable() && fs.W() == RunCached(w, rs[..i], max)
      invariant fresh(fs.pcache.st.heap.Keys - old(fs.pcache.st).heap.Keys)
      invariant forall j | 0 <= j < i :: es[j] == Answer(w, rs, max, j)
    {
      ServedNext(w, rs, max, i);
      ValidIffTree(fs);
      var e := Handle(fs, rs[i]);
      es := es + [e];
      i := i + 1;
    }
    ServedAll(w, rs, max);
    ValidIffTree(fs);
  }

  lemma ValidIffTree(fs: FS)
    requires fs.Usable()
    ensures fs.Valid() <==> Inv(fs.W().ns)
    ensures fs.W().ns == fs.db.View()
  {
  }

  lemma NoneServed(w: World, max: nat)
    ensures RunCached(w, [], max) == w
  {
  }

  lemma ServedNext(w: World, rs: seq<Request>, max: nat, i: nat)
    requires i < |rs| && RoomyRun(w, rs, max) && TreeBefore(w, rs, max)
    ensures var b := RunCached(w, rs[..i], max);
            && Inv(b.ns) && Room(b.ns) && WellFormed(rs[i].op)
            && RunCached(w, rs[..i + 1], max) == Step(b, rs[i], max).w
            && Answer(w, rs, max, i) == Step(b, rs[i], max).e
  {
    hide Inv, Room, WellFormed, Step, RunCached;
    BeforeNext(w, rs, max, i);
  }

  /** What the answers and the end of a run whose requests all found a tree amount to. */
  lemma ServedAll(w: World, rs: seq<Request>, max: nat)
    requires Inv(w.ns) && RoomyRun(w, rs, max) && TreeBefore(w, rs, max)
    ensures Inv(RunCached(w, rs, max).ns) <==> SafeRun(w, rs, max)
    ensures InStep(w) && AdmissibleRun(w.ns, rs) && FittingRun(w, rs, max) ==>
              && SafeRun(w, rs, max) && InStep(RunCached(w, rs, max)) && RunCached(w, rs, max).ns == Run(w.ns, rs)
              && forall i | 0 <= i < |rs| :: Matches(Answer(w, rs, max, i), Apply(Run(w.ns, rs[..i]), rs[i]).out)
  {
    hide Inv, Room, Step, RunCached, Coherent, Safe, Clean, WellFormed, NewNameFits, Answer, Apply, Matches, Run;
    assert rs[..|rs|] == rs;
    assert Before(w, rs, max, |rs|) == RunCached(w, rs, max);
    ServableWhenRoomy(w, rs, max);
    TreeKeptIff(w, rs, max);
    if InStep(w) && AdmissibleRun(w.ns, rs) && FittingRun(w, rs, max) {
      InStepIff(w, rs, max);
      RunAgrees(w, rs, max);
    }
  }

  lemma ServableWhenRoomy(w: World, rs: seq<Request>, max: nat)
    requires RoomyRun(w, rs, max)
    ensures Servable(w, rs, max)
  {
    hide WellFormed, Before;
  }

  /** A run admissible on the tables alone whose new names fit the cache can be served as Serve asks. */
  lemma FittingIsServed(w: World, rs: seq<Request>, max: nat)
    requires Inv(w.ns) && InStep(w) && AdmissibleRun(w.ns, rs) && FittingRun(w, rs, max)
    requires forall i | 0 <= i < |rs| :: Room(Run(w.ns, rs[..i]))
    ensures RoomyRun(w, rs, max) && TreeBefore(w, rs, max)
  {
    hide Inv, Room, Before, InStep, FittingRun, Run, SafeRun, Apply, Matches, Answer, WellFormed;
    RunAgrees(w, rs, max);
    TreeKeptIff(w, rs, max);
  }

  function NewWorld(uid: nat, gid: nat): World {
    World(Rebuilt(uid, gid), EMPTY)
  }

  /** From rebuild on, with a cold cache. Nothing cached below a name when it appears is enough for
      every request to end as on the rebuilt tables alone. */
  method ServeRebuilt(maxentries: nat, uid: nat, gid: nat, rs: seq<Request>) returns (fs: FS, es: seq<Errno>)
    requires maxentries >= 1
    requires RoomyRun(NewWorld(uid, gid), rs, maxentries) && TreeBefore(NewWorld(uid, gid), rs, maxentries)
    ensures fs.Usable() && (fs.Valid() <==> SafeRun(NewWorld(uid, gid), rs, maxentries))
    ensures fs.pcache.maxentries == maxentries && fresh(fs.db) && fresh(fs.pcache) && fresh(fs.pcache.st.heap.Keys)
    ensures fs.W() == RunCached(NewWorld(uid, gid), rs, maxentries)
    ensures |es| == |rs| && forall i | 0 <= i < |rs| :: es[i] == Answer(NewWorld(uid, gid), rs, maxentries, i)
    ensures AdmissibleRun(Rebuilt(uid, gid), rs) && NothingBelowRun(NewWorld(uid, gid), rs, maxentries) ==>
              && fs.Valid() && InStep(fs.W()) && fs.db.View() == Run(Rebuilt(uid, gid), rs)
              && forall i | 0 <= i < |rs| :: Matches(es[i], Apply(Run(Rebuilt(uid, gid), rs[..i]), rs[i]).out)
  {
    hide Consistent, Coherent, Sound, Inv, Apply, Matches, Run, RunCached, AdmissibleRun, RoomyRun, TreeBefore, SafeRun,
         FittingRun, NothingBelowRun, Rebuilt, Answer;
    hide PathCacheHash.Valid, PathCacheHash.Linked;
    fs := new FS(maxentries, uid, gid);
    ghost var w := fs.W();
    ValidIffTree(fs);
    if AdmissibleRun(w.ns, rs) && NothingBelowRun(w, rs, maxentries) {
      NothingBelowIsFitting(w, rs, maxentries);
    }
    es := Serve(fs, rs);
  }
}
