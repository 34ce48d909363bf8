/** What every operation keeps once its directories are open, whatever cache opened them: the tree
    shape, and the tables of a request that fails. Two operations can break this, link and rename, and
    for both the condition is exact. */
module Steps {
  import opened Wrappers
  import opened Modes
  import opened Namespace
  import opened Tree
  import opened Ops
  import opened Shape
  import opened Moves

  lemma CreateUnderStep(ns: NS, ctx: SContext, d: Id, x: Name, m: Meta)
    requires Inv(ns) && IdsLeft(ns) && IsDirNode(ns, d) && ValidName(x)
    ensures var ef := CreateUnder(ns, ctx, d, x, m);
            Inv(ef.ns) && (ef.out != Done ==> ef.ns == ns)
  {
    if CreateUnder(ns, ctx, d, x, m).out == Done {
      NextIdFresh(ns);
      AddKeepsInv(ns, d, x, NextId(ns.meta.Keys), m);
    }
  }

  lemma EmptyNameMissing(ns: NS, d: Id)
    requires EntriesOk(ns)
    ensures Child(ns, d, EMPTY_NAME).None?
  {
  }

  lemma UnlinkFromStep(ns: NS, ctx: SContext, d: Id, x: Name)
    requires Inv(ns) && IsDirNode(ns, d) && x.Word?
    ensures var ef := UnlinkFrom(ns, ctx, d, x);
            Inv(ef.ns) && (ef.out != Done ==> ef.ns == ns)
  {
    if UnlinkFrom(ns, ctx, d, x).out == Done {
      UnlinkKeepsInv(ns, d, x, Child(ns, d, x).value);
    }
  }

  lemma RmdirFromStep(ns: NS, ctx: SContext, d: Id, x: Name)
    requires Inv(ns) && IsDirNode(ns, d) && x.Word?
    ensures var ef := RmdirFrom(ns, ctx, d, x);
            Inv(ef.ns) && (ef.out != Done ==> ef.ns == ns)
  {
    if RmdirFrom(ns, ctx, d, x).out == Done {
      RmdirKeepsInv(ns, d, x, Child(ns, d, x).value);
    }
  }

  /** A further link keeps the tree shape exactly if it is not to a directory. */
  lemma LinkUnderStepIff(ns: NS, d: Id, x: Name, n: Id)
    requires Inv(ns) && IsDirNode(ns, d) && ValidName(x) && n in ns.meta
    ensures var ef := LinkUnder(ns, d, x, n);
            && (Inv(ef.ns) <==> ef.out != Done || !IsDirNode(ns, n))
            && (ef.out != Done ==> ef.ns == ns)
  {
    if Key(d, x) !in ns.dirs {
      if IsDirNode(ns, n) {
        LinkToDirBreaksTree(ns, d, x, n);
      } else {
        LinkKeepsInv(ns, d, x, n);
      }
    }
  }

  lemma LinkToDirBreaksTree(ns: NS, d: Id, x: Name, n: Id)
    requires Inv(ns) && x.Word? && Key(d, x) !in ns.dirs && IsDirNode(ns, n)
    ensures !Inv(LinkAt(ns, d, x, n))
  {
    var ns' := LinkAt(ns, d, x, n);
    assert SubdirEntry(ns', Key(d, x)) && ns'.dirs[Key(d, x)] == n;
    if n != 0 {
      assert Listed(ns, n);
      var k :| SubdirEntry(ns, k) && ns.dirs[k] == n;
      assert SubdirEntry(ns', k) && ns'.dirs[k] == n && k != Key(d, x);
    }
  }

  /** rename puts a directory under a free name at or below itself. */
  ghost predicate MovesBelowItself(ns: NS, ctx: SContext, same: bool, sp: Id, sl: Name, dp: Id, dl: Name)
    requires sp in ns.meta && dp in ns.meta
  {
    MoveCheck(ns, ctx, same, sp, sl, dp, dl) == OK && Child(ns, dp, dl).None? &&
    IsDirNode(ns, Child(ns, sp, sl).value) && Below(ns, dp, Child(ns, sp, sl).value)
  }

  /** rename reports EIO for a node it has just removed. */
  ghost predicate LosesItself(ns: NS, ctx: SContext, same: bool, sp: Id, sl: Name, dp: Id, dl: Name)
    requires sp in ns.meta && dp in ns.meta
  {
    MoveCheck(ns, ctx, same, sp, sl, dp, dl) == OK && !same && Key(sp, sl) == Key(dp, dl) &&
    (IsDirNode(ns, Child(ns, sp, sl).value) || !Referenced(ns.dirs - {Key(dp, dl)}, Child(ns, sp, sl).value))
  }

  /** rename keeps the tree shape exactly if it does not move a directory below itself, and a failing
      one leaves the tables alone exactly if it did not replace the node by itself. */
  lemma RenameBetweenStepIff(ns: NS, ctx: SContext, same: bool, sp: Id, sl: Name, dp: Id, dl: Name)
    requires Inv(ns) && IsDirNode(ns, sp) && IsDirNode(ns, dp) && sl.Word? && ValidName(dl)
    ensures var ef := RenameBetween(ns, ctx, same, sp, sl, dp, dl);
            && (Inv(ef.ns) <==> !MovesBelowItself(ns, ctx, same, sp, sl, dp, dl))
            && ((ef.out != Done ==> ef.ns == ns) <==> !LosesItself(ns, ctx, same, sp, sl, dp, dl))
            && (LosesItself(ns, ctx, same, sp, sl, dp, dl) <==> ef.out == Fails(EIO))
  {
    hide Inv, RenameAt, RmdirAt, UnlinkAt, Below, HasEntries, Access, StickyOk;
    if MoveCheck(ns, ctx, same, sp, sl, dp, dl) == OK {
      var src, dst := Child(ns, sp, sl).value, Child(ns, dp, dl);
      if dst.Some? && same {
      } else if Key(sp, sl) == Key(dp, dl) {
        OntoItselfStep(ns, dp, dl, src);
      } else if dst.None? && IsDirNode(ns, src) && Below(ns, dp, src) {
        MoveBelowItselfBreaksTree(ns, sp, sl, src, dp, dl);
      } else {
        CheckedMayMove(ns, ctx, sp, sl, src, dp, dl, dst);
        MoveKeepsInv(ns, sp, sl, src, dp, dl, dst);
      }
    }
  }

  lemma CheckedMayMove(ns: NS, ctx: SContext, sp: Id, sl: Name, src: Id, dp: Id, dl: Name, dst: Option<Id>)
    requires IsDirNode(ns, sp) && IsDirNode(ns, dp) && sl.Word? && ValidName(dl) && Key(sp, sl) != Key(dp, dl)
    requires Child(ns, sp, sl) == Some(src) && Child(ns, dp, dl) == dst
    requires dst.Some? ==> ReplaceCheck(ns, ctx, src, dp, dst.value) == OK
    requires dst.None? && IsDirNode(ns, src) ==> !Below(ns, dp, src)
    ensures MayMove(ns, sp, sl, src, dp, dl, dst)
  {
  }

  lemma OntoItselfStep(ns: NS, d: Id, x: Name, src: Id)
    requires Inv(ns) && Child(ns, d, x) == Some(src) && x.Word?
    requires IsDirNode(ns, src) ==> !HasEntries(ns, src)
    ensures var ef := RenameOntoItself(ns, d, x, src);
            && Inv(ef.ns)
            && (ef.out == Fails(EIO) <==> IsDirNode(ns, src) || !Referenced(ns.dirs - {Key(d, x)}, src))
            && (ef.out != Done ==> ef.out == Fails(EIO) && ef.ns != ns)
  {
    if IsDirNode(ns, src) {
      RmdirKeepsInv(ns, d, x, src);
    } else {
      UnlinkKeepsInv(ns, d, x, src);
    }
    assert src in ns.meta;
  }

  lemma {:induction false} TrappedBelow(ns: NS, ns': NS, src: Id, dp: Id, e: Id, n: nat)
    requires RootOk(ns) && src != 0 && Below(ns, dp, src) && Below(ns, e, src)
    requires forall d {:trigger Up(ns', d)} :: Up(ns', d) == if d == src then dp else Up(ns, d)
    ensures UpN(ns', e, n) != 0
    decreases n
  {
    RootBelow(ns, src);
    if n > 0 {
      if e != src {
        BelowStep(ns, e, src);
      }
      TrappedBelow(ns, ns', src, dp, Up(ns', e), n - 1);
    }
  }

  /** Moved below itself, a directory no longer reaches the root. */
  lemma MoveBelowItselfBreaksTree(ns: NS, sp: Id, sl: Name, src: Id, dp: Id, dl: Name)
    requires Inv(ns) && IsDirNode(ns, dp) && sl.Word? && dl.Word? && Below(ns, dp, src)
    requires Child(ns, sp, sl) == Some(src) && IsDirNode(ns, src) && Child(ns, dp, dl) == None
    ensures var ns' := RenameAt(ns, sp, sl, src, dp, dl, None);
            !Inv(ns') && IsDirNode(ns', src) && Up(ns', src) == dp && !ReachesRoot(ns', src)
  {
    var ns' := RenameAt(ns, sp, sl, src, dp, dl, None);
    assert SubdirEntry(ns, Key(sp, sl));
    BelowSelf(ns, src);
    forall n: nat
      ensures UpN(ns', src, n) != 0
    {
      TrappedBelow(ns, ns', src, dp, src, n);
    }
    assert IsDirNode(ns', src) && !ReachesRoot(ns', src);
  }

  lemma ChmodNodeStep(ns: NS, ctx: SContext, n: Id, mode: Mode)
    requires Inv(ns) && n in ns.meta
    ensures var ef := ChmodNode(ns, ctx, n, mode);
            Inv(ef.ns) && (ef.out != Done ==> ef.ns == ns)
  {
    if ChmodNode(ns, ctx, n, mode).out == Done {
      SetMetaKeepsInv(ns, n, ChmodNode(ns, ctx, n, mode).ns.meta[n]);
    }
  }

  lemma ChownNodeStep(ns: NS, ctx: SContext, n: Id, owner: nat, group: nat)
    requires Inv(ns) && n in ns.meta
    ensures var ef := ChownNode(ns, ctx, n, owner, group);
            Inv(ef.ns) && (ef.out != Done ==> ef.ns == ns)
  {
    if ChownNode(ns, ctx, n, owner, group).out == Done {
      SetMetaKeepsInv(ns, n, ChownNode(ns, ctx, n, owner, group).ns.meta[n]);
    }
  }
}
