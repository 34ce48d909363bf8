/** Whole runs through the cache: exactly which keep the tree, exactly which keep the cache in step, and
    that those end, request by request, as they do with uncached walks. */
module CachedRuns {
  import opened Namespace
  import opened Tree
  import opened Ops
  import opened Coherence
  import opened Runs
  import opened CacheModel
  import opened CachedSteps
  import opened Agreement

  /** Tables and cache after a run of requests. */
  ghost function RunCached(w: World, rs: seq<Request>, max: nat): World {
    if rs == [] then w else Step(RunCached(w, rs[..|rs| - 1], max), rs[|rs| - 1], max).w
  }

  /** What the i-th request of the run finds, and what it answers. */
  ghost function Before(w: World, rs: seq<Request>, max: nat, i: nat): World
    requires i <= |rs|
  {
    RunCached(w, rs[..i], max)
  }

  ghost function Answer(w: World, rs: seq<Request>, max: nat, i: nat): Errno
    requires i < |rs|
  {
    Step(Before(w, rs, max, i), rs[i], max).e
  }

  lemma BeforeNext(w: World, rs: seq<Request>, max: nat, i: nat)
    requires i < |rs|
    ensures Before(w, rs, max, i + 1) == Step(Before(w, rs, max, i), rs[i], max).w
  {
    assert rs[..i + 1][..i] == rs[..i];
  }

  /** Ids do not run out, and the requests are well-formed. */
  ghost predicate Servable(w: World, rs: seq<Request>, max: nat) {
    forall i | 0 <= i < |rs| :: WellFormed(rs[i].op) && IdsLeft(Before(w, rs, max, i).ns)
  }

  ghost predicate SafeRun(w: World, rs: seq<Request>, max: nat) {
    forall i | 0 <= i < |rs| :: Safe(Before(w, rs, max, i), rs[i], max)
  }

  lemma {:induction false} TreeSoFar(w: World, rs: seq<Request>, max: nat, n: nat)
    requires Inv(w.ns) && Servable(w, rs, max) && n <= |rs|
    requires forall i | 0 <= i < n :: Safe(Before(w, rs, max, i), rs[i], max)
    ensures Inv(Before(w, rs, max, n).ns)
  {
    hide Inv, Step, Safe, Clean, IdsLeft;
    if n > 0 {
      TreeSoFar(w, rs, max, n - 1);
      BeforeNext(w, rs, max, n - 1);
      StepIff(Before(w, rs, max, n - 1), rs[n - 1], max);
    }
  }

  /** A run keeps the tree at every moment exactly if every request is safe where it is served, whatever
      the cache holds at the start. */
  lemma TreeKeptIff(w: World, rs: seq<Request>, max: nat)
    requires Inv(w.ns) && Servable(w, rs, max)
    ensures (forall n | 0 <= n <= |rs| :: Inv(Before(w, rs, max, n).ns)) <==> SafeRun(w, rs, max)
  {
    hide Inv, Step, Safe, Clean, Before, IdsLeft;
    if SafeRun(w, rs, max) {
      forall n | 0 <= n <= |rs|
        ensures Inv(Before(w, rs, max, n).ns)
      {
        TreeSoFar(w, rs, max, n);
      }
    } else {
      var i :| 0 <= i < |rs| && !Safe(Before(w, rs, max, i), rs[i], max);
      if Inv(Before(w, rs, max, i).ns) {
        StepIff(Before(w, rs, max, i), rs[i], max);
        BeforeNext(w, rs, max, i);
      }
    }
  }

  /** A request of a safe run that fails changes no table, unless a rename replaced a node by itself. */
  lemma FailureChangesNothingIff(w: World, rs: seq<Request>, max: nat, i: nat)
    requires Inv(w.ns) && Servable(w, rs, max) && SafeRun(w, rs, max) && i < |rs|
    ensures (Answer(w, rs, max, i) != OK ==> Before(w, rs, max, i + 1).ns == Before(w, rs, max, i).ns)
            <==> Clean(Before(w, rs, max, i), rs[i], max)
  {
    hide Inv, Step, Safe, Clean, IdsLeft;
    TreeSoFar(w, rs, max, i);
    StepIff(Before(w, rs, max, i), rs[i], max);
    BeforeNext(w, rs, max, i);
  }

  /** The names that appear fit the cache, all along the run. */
  ghost predicate FittingRun(w: World, rs: seq<Request>, max: nat) {
    forall i | 0 <= i < |rs| :: NewNameFits(Before(w, rs, max, i), rs[i], max)
  }

  ghost predicate InStepUpTo(w: World, rs: seq<Request>, max: nat, n: nat)
    requires n <= |rs|
  {
    forall i | 0 <= i <= n :: InStep(Before(w, rs, max, i))
  }

  /** As long as the cache is in step, the tables are those of the run with uncached walks. */
  lemma {:induction false} SameTables(w: World, rs: seq<Request>, max: nat, n: nat)
    requires Inv(w.ns) && AdmissibleRun(w.ns, rs) && n <= |rs|
    requires forall i | 0 <= i < n :: InStep(Before(w, rs, max, i))
    ensures Before(w, rs, max, n).ns == Run(w.ns, rs[..n]) && Inv(Run(w.ns, rs[..n]))
  {
    hide Inv, Step, Apply, Safe, Clean, IdsLeft, Admissible, NewNameFits, InStep;
    if n > 0 {
      SameTables(w, rs, max, n - 1);
      BeforeNext(w, rs, max, n - 1);
      assert rs[..n][..n - 1] == rs[..n - 1];
      StepAgrees(Before(w, rs, max, n - 1), rs[n - 1], max);
      StepKeepsInv(Run(w.ns, rs[..n - 1]), rs[n - 1]);
    }
  }

  lemma {:induction false} FittingSoFar(w: World, rs: seq<Request>, max: nat, n: nat)
    requires Inv(w.ns) && InStep(w) && AdmissibleRun(w.ns, rs) && n <= |rs|
    requires forall i | 0 <= i < n :: NewNameFits(Before(w, rs, max, i), rs[i], max)
    ensures InStepUpTo(w, rs, max, n)
  {
    hide Inv, Step, Apply, Safe, Clean, IdsLeft, Admissible, NewNameFits, InStep, Run;
    if n > 0 {
      FittingSoFar(w, rs, max, n - 1);
      SameTables(w, rs, max, n - 1);
      StepAgrees(Before(w, rs, max, n - 1), rs[n - 1], max);
      BeforeNext(w, rs, max, n - 1);
    }
  }

  /** A run keeps the cache in step at every moment exactly if every name that appears fits it. */
  lemma InStepIff(w: World, rs: seq<Request>, max: nat)
    requires Inv(w.ns) && InStep(w) && AdmissibleRun(w.ns, rs)
    ensures InStepUpTo(w, rs, max, |rs|) <==> FittingRun(w, rs, max)
  {
    hide Inv, Step, Apply, Safe, Clean, IdsLeft, Admissible, NewNameFits, InStep, Before, Run;
    if FittingRun(w, rs, max) {
      FittingSoFar(w, rs, max, |rs|);
    } else if InStepUpTo(w, rs, max, |rs|) {
      var i :| 0 <= i < |rs| && !NewNameFits(Before(w, rs, max, i), rs[i], max);
      SameTables(w, rs, max, i);
      StepAgrees(Before(w, rs, max, i), rs[i], max);
      BeforeNext(w, rs, max, i);
    }
  }

  /** Such a run ends, request by request, as it does with uncached walks, and is safe. */
  lemma RunAgrees(w: World, rs: seq<Request>, max: nat)
    requires Inv(w.ns) && InStep(w) && AdmissibleRun(w.ns, rs) && FittingRun(w, rs, max)
    ensures forall i | 0 <= i <= |rs| :: Before(w, rs, max, i).ns == Run(w.ns, rs[..i])
    ensures forall i | 0 <= i < |rs| :: Matches(Answer(w, rs, max, i), Apply(Run(w.ns, rs[..i]), rs[i]).out)
    ensures Servable(w, rs, max) && SafeRun(w, rs, max)
  {
    hide Inv, Step, Apply, Safe, Clean, IdsLeft, WellFormed, NewNameFits, InStep, Before, Run, Matches;
    FittingSoFar(w, rs, max, |rs|);
    forall i | 0 <= i <= |rs|
      ensures Before(w, rs, max, i).ns == Run(w.ns, rs[..i])
    {
      SameTables(w, rs, max, i);
    }
    forall i | 0 <= i < |rs|
      ensures Matches(Answer(w, rs, max, i), Apply(Run(w.ns, rs[..i]), rs[i]).out)
      ensures WellFormed(rs[i].op) && IdsLeft(Before(w, rs, max, i).ns) && Safe(Before(w, rs, max, i), rs[i], max)
    {
      SameTables(w, rs, max, i);
      StepAgrees(Before(w, rs, max, i), rs[i], max);
    }
  }

  /** The path cache holds nothing below a name that appears, all along the run. */
  ghost predicate NothingBelowRun(w: World, rs: seq<Request>, max: nat) {
    forall i | 0 <= i < |rs| :: NothingCachedBelowNew(Before(w, rs, max, i).cache.view, rs[i].op)
  }

  lemma {:induction false} NothingBelowSoFar(w: World, rs: seq<Request>, max: nat, n: nat)
    requires Inv(w.ns) && InStep(w) && AdmissibleRun(w.ns, rs) && NothingBelowRun(w, rs, max) && n <= |rs|
    ensures forall i | 0 <= i < n :: NewNameFits(Before(w, rs, max, i), rs[i], max)
  {
    hide Inv, Step, Apply, Safe, Clean, IdsLeft, Admissible, NewNameFits, InStep, Before, Run, NothingCachedBelowNew;
    if n > 0 {
      NothingBelowSoFar(w, rs, max, n - 1);
      FittingSoFar(w, rs, max, n - 1);
      SameTables(w, rs, max, n - 1);
      NothingBelowFitsNew(Before(w, rs, max, n - 1), rs[n - 1], max);
    }
  }

  /** Nothing cached below a name when it appears is enough. */
  lemma NothingBelowIsFitting(w: World, rs: seq<Request>, max: nat)
    requires Inv(w.ns) && InStep(w) && AdmissibleRun(w.ns, rs) && NothingBelowRun(w, rs, max)
    ensures FittingRun(w, rs, max)
  {
    hide Inv, NewNameFits, InStep, Before, AdmissibleRun, NothingBelowRun;
    NothingBelowSoFar(w, rs, max, |rs|);
  }

  /** No name appears above a path that an earlier request of the run mentioned. */
  ghost predicate Quiet(rs: seq<Request>) {
    forall i, j, q, r | 0 <= j < i < |rs| && q in Appearing(rs[i].op) && r in Paths(rs[j].op) :: !StrictlyUnder(r, q)
  }

  ghost predicate Mentioned(rs: seq<Request>, n: nat, k: Path)
    requires n <= |rs|
  {
    exists j, r :: 0 <= j < n && r in Paths(rs[j].op) && k <= r
  }

  lemma {:induction false} CachedIsMentioned(w: World, rs: seq<Request>, max: nat, n: nat)
    requires w.cache.view == map[] && n <= |rs|
    ensures forall k | k in Before(w, rs, max, n).cache.view :: Mentioned(rs, n, k)
  {
    hide Step;
    if n > 0 {
      CachedIsMentioned(w, rs, max, n - 1);
      BeforeNext(w, rs, max, n - 1);
      StepCaches(Before(w, rs, max, n - 1), rs[n - 1], max);
      MentionedStep(rs, n - 1, Before(w, rs, max, n - 1).cache.view, Before(w, rs, max, n).cache.view);
    }
  }

  lemma MentionedStep(rs: seq<Request>, n: nat, v: View, v': View)
    requires n < |rs| && CachedAlong(v, v', Paths(rs[n].op))
    requires forall k | k in v :: Mentioned(rs, n, k)
    ensures forall k | k in v' :: Mentioned(rs, n + 1, k)
  {
    forall k | k in v'
      ensures Mentioned(rs, n + 1, k)
    {
      if k in v {
        var j, r :| 0 <= j < n && r in Paths(rs[j].op) && k <= r;
      }
    }
  }

  /** A quiet run from a cold cache has nothing cached below a name when it appears. */
  lemma QuietMeansNoneBelow(w: World, rs: seq<Request>, max: nat)
    requires w.cache.view == map[] && Quiet(rs)
    ensures NothingBelowRun(w, rs, max)
  {
    hide Before;
    forall n, q, k | 0 <= n < |rs| && q in Appearing(rs[n].op) && k in Before(w, rs, max, n).cache.view
      ensures !StrictlyUnder(k, q)
    {
      CachedIsMentioned(w, rs, max, n);
      assert Mentioned(rs, n, k);
      var j, r :| 0 <= j < n && r in Paths(rs[j].op) && k <= r;
      assert !StrictlyUnder(r, q);
      PrefixTrans(k, r, q);
    }
  }

  lemma {:induction false} WfSoFar(w: World, rs: seq<Request>, max: nat, n: nat)
    requires WfCache(w.cache) && n <= |rs|
    ensures WfCache(Before(w, rs, max, n).cache)
  {
    hide Step, WfCache;
    if n > 0 {
      WfSoFar(w, rs, max, n - 1);
      BeforeNext(w, rs, max, n - 1);
      StepKeepsWf(Before(w, rs, max, n - 1), rs[n - 1], max);
    }
  }

  ghost predicate RoomAlong(w: World, rs: seq<Request>, max: nat) {
    forall i | 0 <= i < |rs| :: RoomFor(Before(w, rs, max, i).cache.view, rs[i].op, max)
  }

  lemma FitsIffAt(w: World, rs: seq<Request>, max: nat, i: nat)
    requires Inv(w.ns) && AdmissibleRun(w.ns, rs) && WfCache(w.cache) && RoomAlong(w, rs, max) && i < |rs|
    requires forall j | 0 <= j <= i :: InStep(Before(w, rs, max, j))
    ensures NewNameFits(Before(w, rs, max, i), rs[i], max) <==> FitsBeforehand(Before(w, rs, max, i), rs[i])
  {
    hide Inv, Step, Apply, Safe, Clean, IdsLeft, Admissible, NewNameFits, InStep, Before, Run, FitsBeforehand, RoomFor,
         WfCache;
    SameTables(w, rs, max, i);
    WfSoFar(w, rs, max, i);
    FitsIff(Before(w, rs, max, i), rs[i], max);
  }

  lemma {:induction false} BeforehandSoFar(w: World, rs: seq<Request>, max: nat, n: nat)
    requires Inv(w.ns) && InStep(w) && AdmissibleRun(w.ns, rs) && WfCache(w.cache) && RoomAlong(w, rs, max) && n <= |rs|
    requires forall i | 0 <= i < n :: FitsBeforehand(Before(w, rs, max, i), rs[i])
    ensures forall i | 0 <= i < n :: NewNameFits(Before(w, rs, max, i), rs[i], max)
  {
    hide Inv, AdmissibleRun, NewNameFits, InStep, Before, FitsBeforehand, RoomAlong, WfCache;
    if n > 0 {
      BeforehandSoFar(w, rs, max, n - 1);
      FittingSoFar(w, rs, max, n - 1);
      FitsIffAt(w, rs, max, n - 1);
    }
  }

  /** With room all along, a run keeps the cache in step at every moment exactly if before every request
      what is cached below its new name fits. */
  lemma InStepIffBeforehand(w: World, rs: seq<Request>, max: nat)
    requires Inv(w.ns) && InStep(w) && AdmissibleRun(w.ns, rs) && WfCache(w.cache) && RoomAlong(w, rs, max)
    ensures InStepUpTo(w, rs, max, |rs|) <==>
            forall i | 0 <= i < |rs| :: FitsBeforehand(Before(w, rs, max, i), rs[i])
  {
    hide Inv, AdmissibleRun, NewNameFits, InStep, Before, FitsBeforehand, RoomAlong, WfCache;
    InStepIff(w, rs, max);
    if InStepUpTo(w, rs, max, |rs|) {
      forall i | 0 <= i < |rs|
        ensures FitsBeforehand(Before(w, rs, max, i), rs[i])
      {
        FitsIffAt(w, rs, max, i);
      }
    }
    if forall i | 0 <= i < |rs| :: FitsBeforehand(Before(w, rs, max, i), rs[i]) {
      BeforehandSoFar(w, rs, max, |rs|);
    }
  }
}
