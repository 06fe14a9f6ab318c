/** Exactly which crashes the next sweep makes fatal. */
module GcRerun {
  import opened Bytes
  import opened Codecs
  import opened Disks
  import opened GcConverge
  import opened GcEvict
  import opened GcModel
  import opened GcOutcome
  import opened GcReplan
  import opened GcRewrite
  import opened GcSafety
  import opened Inventory
  import opened PackFormat

  /* The crash between the two files of a pack */

  /** What a crash between (or within) the two writes of replacement `i` leaves
      when no index was there: the replacements before it, and a bare pack. */
  ghost predicate BareAt(c: Codec, g: Contents, f: Files, rs: seq<Rewrite>, i: nat, f': Files) {
    && i < |rs|
    && var f1 := ApplyAll(f, ReplacementSteps(c, g, rs[..i]));
       && Idx(NewName(c, g, rs[i])) !in f1
       && Pack(NewName(c, g, rs[i])) in f'
       && f' == f1[Pack(NewName(c, g, rs[i])) := f'[Pack(NewName(c, g, rs[i]))]]
  }

  /** Every crash that leaves a bare pack has this shape. */
  lemma BareShape(c: Codec, g: Contents, f: Files, live: set<Digest>, a: Attempt) returns (i: nat)
    requires Truthful(c, g, f, live) && !LeavesNoBarePack(c, f, live, a)
    ensures !PlanFails(f, live)
    ensures i < |PlanOf(f, live).packsToRewrite|
    ensures BareAt(c, g, f, PlanOf(f, live).packsToRewrite, i, Stopped(c, f, live, a))
  {
    hide ParseIndex, ReadBlob, PlanOf, WellFormed, NewName, SweepSteps, Truthful, ReplacementSteps, NewSteps, ApplyAll, PackBytes, CreatedIndex, Objects, PlanFails;
    var steps, k := SweepSteps(c, f, live, a.options), StopOf(c, f, live, a);
    if PlanFails(f, live) { NeverStarts(c, f, live, a); }
    if Tears(c, f, live, a) {
      i := WriteOfReplacement(c, g, f, live, a.options, k);
      NewStepsShape(c, g, PlanOf(f, live).packsToRewrite[i]);
    } else {
      i := WriteOfReplacement(c, g, f, live, a.options, k - 1);
      NewStepsShape(c, g, PlanOf(f, live).packsToRewrite[i]);
      AfterFirstWrite(f, steps, k, 2 * i);
    }
  }

  /** After such a crash the next plan has the interrupted replacement still to
      come, and the bare pack as an orphan under its name. */
  lemma BareReplan(c: Codec, g: Contents, f: Files, live: set<Digest>, i: nat, f': Files)
    requires Sweepable(c, g, f, live) && BareAt(c, g, f, PlanOf(f, live).packsToRewrite, i, f')
    ensures PlanOf(f', live).packsToRewrite == PlanOf(f, live).packsToRewrite[i..]
    ensures Orphan(f', Pack(NewName(c, g, PlanOf(f, live).packsToRewrite[i])))
    ensures !PlanFails(f', live)
  {
    hide ParseIndex, ReadBlob, PlanOf, WellFormed, NewName, Sweepable, ReplacementSteps, SameHoldings;
    var rs := PlanOf(f, live).packsToRewrite;
    var q, f1 := NewName(c, g, rs[i]), ApplyAll(f, ReplacementSteps(c, g, rs[..i]));
    UnreadHoldings(f1, f', q);
    Replan(c, g, f, live, i, f');
  }

  /** After a crash that leaves a bare pack, the next complete rewriting sweep
      loses live objects: it writes the pair again, deletes the pack it took for
      an orphan, and deletes the pack being replaced. */
  lemma BarePackLoses(c: Codec, g: Contents, f: Files, live: set<Digest>, a: Attempt, o: Options)
    requires Truthful(c, g, f, live) && NamesFree(c, g, f, live) && NoShadow(f, live)
    requires !LeavesNoBarePack(c, f, live, a)
    requires !o.mode.DryRun? && o.rewritePartialPacks
    ensures !(live * Present(f) <= Present(After(c, Stopped(c, f, live, a), live, o)))
  {
    hide ParseIndex, ReadBlob, PlanOf, WellFormed, NewName, Stopped, LeavesNoBarePack, Present, After, BareAt, NamesFree, NoShadow, PlanFails, SameAliases;
    var f', rs := Stopped(c, f, live, a), PlanOf(f, live).packsToRewrite;
    var i := BareShape(c, g, f, live, a);
    BareReplan(c, g, f, live, i, f');
    StoppedSafe(c, g, f, live, a);
    assert rs[i] == rs[i..][0];
    CollisionLoses(c, g, f', live, o, Pack(NewName(c, g, rs[i])), rs[i]);
  }

  /** Running the sweep again after a crash is safe if and only if the crash did
      not leave a new `.pack` without its `.idx`; if that sweep runs to its end it
      then leaves exactly the live objects. Holds for every truthful tree in which
      no live object is shadowed and no orphan has a replacement's name, every live
      set, every crash point, whole or torn, and both modes. */
  lemma RerunSafeExactly(c: Codec, g: Contents, f: Files, live: set<Digest>, a: Attempt, o: Options)
    requires Truthful(c, g, f, live) && NamesFree(c, g, f, live) && NoShadow(f, live)
    requires !o.mode.DryRun? && o.rewritePartialPacks
    ensures var f' := Stopped(c, f, live, a);
            var f'' := After(c, f', live, o);
            && (live * Present(f) <= Present(f'') <==> LeavesNoBarePack(c, f, live, a))
            && (LeavesNoBarePack(c, f, live, a) && SweepOutcome(c, f', live, o).ok ==> Present(f'') == live * Present(f))
            && (AliasesLive(f, live) ==> SweepOutcome(c, f', live, o).ok)
  {
    hide ParseIndex, ReadBlob, PlanOf, WellFormed, NewName, Stopped, LeavesNoBarePack, Present, After, NamesFree, Truthful, NoShadow, SameAliases, SweepOutcome, AliasesLive;
    var f' := Stopped(c, f, live, a);
    SecondOutcome(c, g, f, live, a, o);
    if LeavesNoBarePack(c, f, live, a) {
      SecondSweep(c, g, f, live, a, o);
    } else {
      BarePackLoses(c, g, f, live, a, o);
    }
  }

  /** The second sweep ends unless its plan fails. */
  lemma SecondOutcome(c: Codec, g: Contents, f: Files, live: set<Digest>, a: Attempt, o: Options)
    requires Truthful(c, g, f, live) && NamesFree(c, g, f, live) && NoShadow(f, live)
    requires !o.mode.DryRun?
    ensures SweepOutcome(c, Stopped(c, f, live, a), live, o).ok <==> !PlanFails(Stopped(c, f, live, a), live)
    ensures AliasesLive(f, live) ==> !PlanFails(Stopped(c, f, live, a), live)
  {
    hide ParseIndex, ReadBlob, PlanOf, WellFormed, NewName, Stopped, Present, NamesFree, NoShadow, PlanFails, SweepOutcome;
    var f' := Stopped(c, f, live, a);
    StoppedSafe(c, g, f, live, a);
    StoppedTruthful(c, g, f, live, a);
    if PlanFails(f', live) {
      PlanFailsIdle(c, f', live, o);
    } else {
      SweepShape(c, g, f', live, o);
    }
    if AliasesLive(f, live) {
      assert AliasesLive(f', live) by {
        forall p | p in f' && p.Alias? ensures p.h in live { assert SameAt(f, f', p); }
      }
      AliasesLivePlans(f', live);
    }
  }

  lemma SecondSweep(c: Codec, g: Contents, f: Files, live: set<Digest>, a: Attempt, o: Options)
    requires Truthful(c, g, f, live) && NamesFree(c, g, f, live) && NoShadow(f, live)
    requires !o.mode.DryRun? && o.rewritePartialPacks && LeavesNoBarePack(c, f, live, a)
    ensures var f'' := After(c, Stopped(c, f, live, a), live, o);
            && live * Present(f'') == live * Present(f)
            && (!PlanFails(Stopped(c, f, live, a), live) ==> Present(f'') == live * Present(f))
  {
    hide ParseIndex, ReadBlob, PlanOf, WellFormed, NewName, Stopped, LeavesNoBarePack, Present, After, NamesFree, NoShadow, SameAliases, PlanFails, Unshadowed;
    var f' := Stopped(c, f, live, a);
    AttemptKeeps(c, g, f, live, a);
    if PlanFails(f', live) {
      PlanFailsIdle(c, f', live, o);
      AfterNothing(c, f', live, o);
    } else {
      NoShadowHarmless(c, g, f', live, o);
      SweepLeaves(c, g, f', live, o);
    }
  }

  /* The crash inside an index write */

  ghost predicate TearsIndex(c: Codec, f: Files, live: set<Digest>, a: Attempt) {
    Tears(c, f, live, a) && SweepSteps(c, f, live, a.options)[StopOf(c, f, live, a)].path.Idx?
  }

  /** What it leaves: the replacements before it, and a pair whose index does not
      load. */
  ghost predicate TornAt(c: Codec, g: Contents, f: Files, rs: seq<Rewrite>, i: nat, f': Files) {
    && i < |rs|
    && var f1, q := ApplyAll(f, ReplacementSteps(c, g, rs[..i])), NewName(c, g, rs[i]);
       && Paired(f', q) && !Indexed(f', q) && !Indexed(f1, q)
       && f' == f1[Pack(q) := f'[Pack(q)]][Idx(q) := f'[Idx(q)]]
  }

  lemma TornShape(c: Codec, g: Contents, f: Files, live: set<Digest>, a: Attempt) returns (i: nat)
    requires Sweepable(c, g, f, live) && TearsIndex(c, f, live, a)
    ensures i < |PlanOf(f, live).packsToRewrite|
    ensures TornAt(c, g, f, PlanOf(f, live).packsToRewrite, i, Stopped(c, f, live, a))
  {
    hide ParseIndex, ReadBlob, PlanOf, WellFormed, NewName, SweepSteps, Sweepable, ReplacementSteps, NewSteps, ApplyAll, CreatedIndex;
    var steps, k := SweepSteps(c, f, live, a.options), StopOf(c, f, live, a);
    i := WriteOfReplacement(c, g, f, live, a.options, k);
    var rs := PlanOf(f, live).packsToRewrite;
    NewStepsShape(c, g, rs[i]);
    AfterFirstWrite(f, steps, k, 2 * i);
    TornNameUnread(c, g, f, live, i, a.torn.value);
  }

  lemma TornHoldings(c: Codec, g: Contents, f: Files, rs: seq<Rewrite>, i: nat, f': Files)
    requires TornAt(c, g, f, rs, i, f')
    ensures SameHoldings(ApplyAll(f, ReplacementSteps(c, g, rs[..i])), f')
  {
    hide ParseIndex, NewName, ReplacementSteps, Indexed, SameHoldings;
    UnreadHoldings(ApplyAll(f, ReplacementSteps(c, g, rs[..i])), f', NewName(c, g, rs[i]));
  }

  /** The next sweep writes the torn pair again: all indexes load before it
      deletes anything. */
  lemma TornMidway(c: Codec, g: Contents, f: Files, live: set<Digest>, i: nat, f': Files, o: Options)
    requires Sweepable(c, g, f, live) && AllIndexed(f)
    requires TornAt(c, g, f, PlanOf(f, live).packsToRewrite, i, f')
    requires Sweepable(c, g, f', live) && !o.mode.DryRun? && o.rewritePartialPacks
    ensures AllIndexed(Midway(c, f', live, o))
  {
    hide ParseIndex, ReadBlob, PlanOf, WellFormed, NewName, ReplacementSteps, Sweepable, Present, HasReplacement, HashesOf, SameHoldings, FirstPhase, Ready;
    var rs := PlanOf(f, live).packsToRewrite;
    var q, f1, f2 := NewName(c, g, rs[i]), ApplyAll(f, ReplacementSteps(c, g, rs[..i])), Midway(c, f', live, o);
    TornHoldings(c, g, f, rs, i, f');
    Replan(c, g, f, live, i, f');
    FirstReplacements(c, g, f, live, i);
    MidwayRewritten(c, g, f', live, o);
    assert rs[i..][0] == rs[i] && rs[i] in rs[i..];
    forall s | Paired(f2, s) ensures Indexed(f2, s) {
      if !exists r :: r in rs[i..] && s == NewName(c, g, r) {
        assert s != q;
        assert !IsNewPath(c, g, rs[i..], Pack(s)) && !IsNewPath(c, g, rs[i..], Idx(s));
        assert SamePack(f', f2, s) && SamePack(f1, f', s);
        assert Paired(f1, s);
      }
    }
  }

  /** A crash that tears a write: nothing is gone. */
  lemma TornUnharmed(c: Codec, g: Contents, f: Files, live: set<Digest>, a: Attempt)
    requires Truthful(c, g, f, live) && NamesFree(c, g, f, live) && Tears(c, f, live, a)
    ensures Unharmed(c, g, f, Stopped(c, f, live, a)) && !PlanFails(f, live)
    ensures AllIndexed(f) && !TearsIndex(c, f, live, a) ==> AllIndexed(Stopped(c, f, live, a))
  {
    hide ParseIndex, ReadBlob, PlanOf, NewName, WellFormed, SweepSteps, NamesFree, PlanFails, Unharmed, AllIndexed, ReplacementSteps, Ready, ApplyAll, Midway, Rewritten;
    var o, k, rs := a.options, StopOf(c, f, live, a), PlanOf(f, live).packsToRewrite;
    var first, steps := ReplacementSteps(c, g, rs), SweepSteps(c, f, live, o);
    DryRunIdleOr(c, f, live, o, k);
    WriteInPhaseOne(c, g, f, live, o, k);
    MidwayRewritten(c, g, f, live, o);
    NamesFreeNoStray(c, g, f, live, o);
    assert steps[..k] == first[..k] && steps[k] == first[k];
    ReplacementPath(c, g, rs, k);
    PhaseOneTornSafe(c, g, f, rs, k, a.torn.value);
  }

  /** What a crash that tears a write does to readers, exactly, when all indexes
      loaded before: if it is a pack, every read is as before; if it is an index,
      that index does not load, and so no packed read of a fresh store succeeds. */
  lemma TornReadsExactly(c: Codec, g: Contents, f: Files, live: set<Digest>, a: Attempt, h: Digest, d: Bytes)
    requires Truthful(c, g, f, live) && NamesFree(c, g, f, live) && AllIndexed(f) && Tears(c, f, live, a)
    ensures var f' := Stopped(c, f, live, a);
            && (AllIndexed(f') <==> !TearsIndex(c, f, live, a))
            && (Loose(h) in f || !TearsIndex(c, f, live, a) ==> (ReadsAs(c, f', h, d) <==> ReadsAs(c, f, h, d)))
            && (Loose(h) !in f && TearsIndex(c, f, live, a) ==> !ReadsAs(c, f', h, d))
  {
    hide ParseIndex, ReadBlob, PlanOf, WellFormed, NewName, Stopped, NamesFree, Tears, PlanFails, TornAt, Present;
    var f' := Stopped(c, f, live, a);
    TornUnharmed(c, g, f, live, a);
    if TearsIndex(c, f, live, a) {
      var i := TornShape(c, g, f, live, a);
      TornUnindexed(c, g, f, PlanOf(f, live).packsToRewrite, i, f');
    } else {
      SamePresentReads(c, g, f, f', h, d);
    }
    assert SameAt(f, f', Loose(h));
  }

  lemma TornUnindexed(c: Codec, g: Contents, f: Files, rs: seq<Rewrite>, i: nat, f': Files)
    requires TornAt(c, g, f, rs, i, f')
    ensures !AllIndexed(f')
  {
    hide ParseIndex;
  }

  /** Running the sweep again to its end makes every live object readable as
      before. */
  lemma TornIndexHeals(c: Codec, g: Contents, f: Files, live: set<Digest>, a: Attempt, o: Options, h: Digest)
    requires Truthful(c, g, f, live) && NamesFree(c, g, f, live) && NoShadow(f, live) && AllIndexed(f)
    requires TearsIndex(c, f, live, a)
    requires !o.mode.DryRun? && o.rewritePartialPacks
    requires h in live * Present(f)
    ensures ReadsAs(c, After(c, Stopped(c, f, live, a), live, o), h, g(h))
  {
    hide ParseIndex, ReadBlob, PlanOf, WellFormed, NewName, Present, Stopped, After, ReplacementSteps, TornAt, NamesFree, NoShadow, PlanFails, LeavesNoBarePack, Unharmed, Unshadowed, SameAliases;
    var f', f'' := Stopped(c, f, live, a), After(c, Stopped(c, f, live, a), live, o);
    TornUnharmed(c, g, f, live, a);
    var i := TornShape(c, g, f, live, a);
    TornNotBare(c, f, live, a);
    SecondSweep(c, g, f, live, a, o);
    AttemptKeeps(c, g, f, live, a);
    NoShadowHarmless(c, g, f', live, o);
    TornAfter(c, g, f, live, i, f', o);
    WellFormedReads(c, g, f'', h);
  }

  lemma TornNotBare(c: Codec, f: Files, live: set<Digest>, a: Attempt)
    requires TearsIndex(c, f, live, a)
    ensures LeavesNoBarePack(c, f, live, a)
  {
  }

  lemma TornAfter(c: Codec, g: Contents, f: Files, live: set<Digest>, i: nat, f': Files, o: Options)
    requires Sweepable(c, g, f, live) && AllIndexed(f)
    requires TornAt(c, g, f, PlanOf(f, live).packsToRewrite, i, f')
    requires Truthful(c, g, f', live) && Harmless(c, g, f', live, o)
    requires !o.mode.DryRun? && o.rewritePartialPacks
    ensures WellFormed(c, g, After(c, f', live, o)) && AllIndexed(After(c, f', live, o))
  {
    hide ParseIndex, ReadBlob, PlanOf, WellFormed, NewName, After, ReplacementSteps, TornAt, Harmless, Truthful, Indexed, Evicted, Midway, PlanFails;
    var f1, f2 := Midway(c, f', live, o), After(c, f', live, o);
    TornReplan(c, g, f, live, i, f');
    SweepLeaves(c, g, f', live, o);
    TornMidway(c, g, f, live, i, f', o);
    AfterEvicted(c, g, f', live, o);
    EvictedWithin(f1, f2, o.mode, VictimsOf(f', live, o));
    WithinAllIndexed(f2, f1);
  }

  lemma TornReplan(c: Codec, g: Contents, f: Files, live: set<Digest>, i: nat, f': Files)
    requires Sweepable(c, g, f, live) && TornAt(c, g, f, PlanOf(f, live).packsToRewrite, i, f')
    ensures PlanOf(f', live).packsToRewrite == PlanOf(f, live).packsToRewrite[i..]
    ensures !PlanFails(f', live)
  {
    hide ParseIndex, PlanOf, NewName, ReplacementSteps, Sweepable, SameHoldings;
    TornHoldings(c, g, f, PlanOf(f, live).packsToRewrite, i, f');
    Replan(c, g, f, live, i, f');
  }

  /** An unreadable pack that the next sweep overwrites: the one whose index the
      crash has torn. */
  lemma TornPackIsTouched(c: Codec, g: Contents, f: Files, live: set<Digest>, a: Attempt, o: Options) returns (s: Name)
    requires Truthful(c, g, f, live) && NamesFree(c, g, f, live) && NoShadow(f, live)
    requires TearsIndex(c, f, live, a)
    requires !o.mode.DryRun? && o.rewritePartialPacks
    ensures var f' := Stopped(c, f, live, a);
            Paired(f', s) && !Indexed(f', s) && !SamePack(f', After(c, f', live, o), s)
  {
    hide ParseIndex, ReadBlob, PlanOf, WellFormed, NewName, Present, Stopped, After, ReplacementSteps, NamesFree, NoShadow, PlanFails, LeavesNoBarePack, Unharmed, SamePack, Indexed, Paired, ApplyAll, SameAliases;
    var f', rs := Stopped(c, f, live, a), PlanOf(f, live).packsToRewrite;
    TornUnharmed(c, g, f, live, a);
    TornNotBare(c, f, live, a);
    AttemptKeeps(c, g, f, live, a);
    var i := TornShape(c, g, f, live, a);
    TornReplan(c, g, f, live, i, f');
    s := NewName(c, g, rs[i]);
    assert rs[i..][0] == rs[i] && rs[i] in rs[i..];
    UnreadablePackTouchedExactly(c, g, f', live, o, s);
  }

  lemma EvictedWithin(f: Files, f': Files, mode: SweepMode, ps: seq<Path>)
    requires Evicted(f, f', mode, ps)
    ensures Within(f', f)
  {
    forall p | p in f' && !p.Trash? ensures p in f && f[p] == f'[p] {
      assert p !in ps && SameAt(f, f', p);
    }
  }
}
