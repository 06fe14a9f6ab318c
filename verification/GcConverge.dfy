/** Crashing and running again. */
module GcConverge {
  import opened Bytes
  import opened Codecs
  import opened Disks
  import opened GcEvict
  import opened GcModel
  import opened GcOutcome
  import opened GcPlanning
  import opened GcReplan
  import opened GcRewrite
  import opened GcSafety
  import opened Inventory
  import opened PackFormat

  /** A sweep that stops after `stop` effects; if the next effect is a write,
      `torn` may say how many of its bytes still reach the disk. */
  datatype Attempt = Attempt(options: Options, stop: nat, torn: Option<nat>)

  ghost function StopOf(c: Codec, f: Files, live: set<Digest>, a: Attempt): (k: nat)
    ensures k <= |SweepSteps(c, f, live, a.options)|
  {
    var n := |SweepSteps(c, f, live, a.options)|;
    if a.stop < n then a.stop else n
  }

  /** The crash interrupts a write in the middle. */
  ghost predicate Tears(c: Codec, f: Files, live: set<Digest>, a: Attempt) {
    var steps, k := SweepSteps(c, f, live, a.options), StopOf(c, f, live, a);
    k < |steps| && steps[k].Write? && a.torn.Some? && a.torn.value < |steps[k].data|
  }

  ghost function Stopped(c: Codec, f: Files, live: set<Digest>, a: Attempt): Files {
    var steps, k := SweepSteps(c, f, live, a.options), StopOf(c, f, live, a);
    if Tears(c, f, live, a) then Torn(ApplyAll(f, steps[..k]), steps[k], a.torn.value)
    else ApplyAll(f, steps[..k])
  }

  ghost predicate WritesPack(s: Step) {
    s.Write? && s.path.Pack?
  }

  /** A step that wrote a pack, whole or torn, found its index there. */
  ghost predicate NotBare(f: Files, s: Step) {
    WritesPack(s) ==> Idx(s.path.stem) in f
  }

  /** The crash does not leave a new `.pack`, whole or torn, without its `.idx`. */
  ghost predicate LeavesNoBarePack(c: Codec, f: Files, live: set<Digest>, a: Attempt) {
    var steps, k := SweepSteps(c, f, live, a.options), StopOf(c, f, live, a);
    if Tears(c, f, live, a) then NotBare(ApplyAll(f, steps[..k]), steps[k])
    else k == 0 || NotBare(ApplyAll(f, steps[..k]), steps[k - 1])
  }

  /* What is listed after a crash */

  /** No live object is shadowed by an alias. */
  ghost predicate NoShadow(f: Files, live: set<Digest>) {
    forall h :: !Shadowed(f, live, h)
  }

  /** Every alias names a live digest. */
  ghost predicate AliasesLive(f: Files, live: set<Digest>) {
    forall p | p in f && p.Alias? :: p.h in live
  }

  lemma NoShadowHarmless(c: Codec, g: Contents, f: Files, live: set<Digest>, o: Options)
    requires NoShadow(f, live)
    ensures Unshadowed(f, live, o)
    ensures NamesFree(c, g, f, live) ==> Harmless(c, g, f, live, o)
  {
    hide PlanOf, Shadowed, NamesFree;
  }

  lemma AliasesLivePlans(f: Files, live: set<Digest>)
    requires AliasesLive(f, live)
    ensures !PlanFails(f, live)
  {
    ListedHashesExact(f);
    LooseHashesExact(f);
    forall h | h in ListedHashes(f) - live ensures h in LooseHashes(f) {
      var p :| p in f && Names(p, h);
    }
  }

  ghost predicate SameAliases(f: Files, f': Files) {
    forall p: Path | p.Alias? :: SameAt(f, f', p)
  }

  /** What no sweep touches: aliases, live loose files, packs without garbage. */
  ghost predicate LeavesAlone(f: Files, f': Files, live: set<Digest>) {
    && SameAliases(f, f')
    && (forall h | h in live :: SameAt(f, f', Loose(h)))
    && (forall s | Healthy(f, live, s) :: SamePack(f, f', s))
  }

  lemma UnharmedLeavesAlone(c: Codec, g: Contents, f: Files, f': Files, live: set<Digest>)
    requires Unharmed(c, g, f, f')
    ensures LeavesAlone(f, f', live)
  {
    hide ParseIndex, WellFormed, Present;
    forall h | h in live ensures SameAt(f, f', Loose(h)) {
      assert Loose(h).Loose?;
    }
  }

  lemma EvictingLeavesAlone(c: Codec, g: Contents, f: Files, live: set<Digest>, o: Options, f': Files)
    requires Sweepable(c, g, f, live) && !o.mode.DryRun?
    requires o.rewritePartialPacks ==> NamesFree(c, g, f, live)
    requires Pruned(Midway(c, f, live, o), f', VictimsOf(f, live, o))
    ensures LeavesAlone(f, f', live)
  {
    hide ParseIndex, ReadBlob, PlanOf, NewName, Victims, WellFormed, FirstPhase, NamesFree, Truthful, PlanFails, HasReplacement;
    var f1 := Midway(c, f, live, o);
    MidwayRewritten(c, g, f, live, o);
    forall p: Path | p.Alias? || (p.Loose? && p.h in live) ensures SameAt(f, f', p) {
      VictimsExact(f, live, o.rewritePartialPacks, p);
      assert SameAt(f, f1, p);
    }
    forall h | h in live ensures SameAt(f, f', Loose(h)) {
    }
    forall s | Healthy(f, live, s) ensures SamePack(f, f', s) {
      assert Survivor(c, g, f, live, o, s);
      SurvivorSpared(c, g, f, live, o, s);
      assert SamePack(f, f1, s);
    }
  }

  /** So nothing comes to be shadowed. */
  lemma StaysUnshadowed(f: Files, f': Files, live: set<Digest>)
    requires NoShadow(f, live) && LeavesAlone(f, f', live)
    requires live * Present(f') <= Present(f)
    ensures NoShadow(f', live)
  {
    hide ParseIndex, Indexed, HashesOf, Present, PlanOf;
    forall h ensures !Shadowed(f', live, h) {
      if h in live && h in ListedHashes(f') && Loose(h) !in f' && h in Present(f') {
        NoShadowFalls(f, f', live, h);
      }
      PresentExact(f');
    }
  }

  lemma NoShadowFalls(f: Files, f': Files, live: set<Digest>, h: Digest)
    requires NoShadow(f, live) && LeavesAlone(f, f', live)
    requires h in live && h in ListedHashes(f') && Loose(h) !in f' && h in Present(f)
    ensures exists s :: Healthy(f', live, s) && h in HashesOf(f', s)
  {
    hide ParseIndex, Present, PlanOf;
    ListedHashesExact(f);
    ListedHashesExact(f');
    var p :| p in f' && Names(p, h);
    assert SameAt(f, f', p) && SameAt(f, f', Loose(h));
    PresentExact(f);
    var t :| Indexed(f, t) && h in HashesOf(f, t);
    assert !Shadowed(f, live, h);
    assert Healthy(f, live, t) || Partial(f, live, t);
    var s :| Healthy(f, live, s) && h in HashesOf(f, s);
    SamePackHashes(f, f', s);
    assert Healthy(f', live, s);
  }

  /* Orphans after a crash */

  ghost predicate NoNewOrphans(f: Files, f': Files) {
    forall p | Orphan(f', p) :: Orphan(f, p)
  }

  lemma PairAddsNoOrphan(f: Files, q: Name, a: Bytes, b: Bytes)
    ensures NoNewOrphans(f, f[Pack(q) := a][Idx(q) := b])
  {
  }

  lemma {:induction false} PhaseOneOrphans(c: Codec, g: Contents, f: Files, rs: seq<Rewrite>, k: nat)
    requires k <= |ReplacementSteps(c, g, rs)|
    requires k == 0 || NotBare(ApplyAll(f, ReplacementSteps(c, g, rs)[..k]), ReplacementSteps(c, g, rs)[k - 1])
    ensures NoNewOrphans(f, ApplyAll(f, ReplacementSteps(c, g, rs)[..k]))
    decreases |rs|
  {
    hide PackBytes, CreatedIndex, Objects, NewName, NewSteps;
    var steps := ReplacementSteps(c, g, rs);
    if k == 0 {
      assert ApplyAll(f, steps[..k]) == f;
    } else if k == 1 {
      NewStepsShape(c, g, rs[0]);
      assert steps[..k] == [steps[0]];
      ApplyOne(f, steps[0]);
    } else {
      var w := NewSteps(c, g, rs[0]);
      NewStepsShape(c, g, rs[0]);
      ApplyTwo(f, w[0], w[1]);
      assert w == [w[0], w[1]];
      PairAddsNoOrphan(f, w[0].path.stem, w[0].data, w[1].data);
      ApplyPrefix(f, w, ReplacementSteps(c, g, rs[1..]), k);
      assert w[..2] == w && ReplacementSteps(c, g, rs[1..])[..0] == [];
      PhaseOneOrphans(c, g, ApplyAll(f, w), rs[1..], k - 2);
    }
  }

  lemma {:induction false} PhaseOneTornOrphans(c: Codec, g: Contents, f: Files, rs: seq<Rewrite>, k: nat, n: nat)
    requires k < |ReplacementSteps(c, g, rs)| && ReplacementSteps(c, g, rs)[k].Write?
    requires NotBare(ApplyAll(f, ReplacementSteps(c, g, rs)[..k]), ReplacementSteps(c, g, rs)[k])
    requires n < |ReplacementSteps(c, g, rs)[k].data|
    ensures NoNewOrphans(f, Torn(ApplyAll(f, ReplacementSteps(c, g, rs)[..k]), ReplacementSteps(c, g, rs)[k], n))
    decreases |rs|
  {
    hide PackBytes, CreatedIndex, Objects, NewName, NewSteps;
    var steps, w := ReplacementSteps(c, g, rs), NewSteps(c, g, rs[0]);
    NewStepsShape(c, g, rs[0]);
    assert w == [w[0], w[1]];
    if k == 0 {
      assert steps[..k] == [];
    } else if k == 1 {
      assert steps[..k] == [w[0]];
      ApplyOne(f, w[0]);
      PairAddsNoOrphan(f, w[0].path.stem, w[0].data, w[1].data[..n]);
    } else {
      ApplyTwo(f, w[0], w[1]);
      PairAddsNoOrphan(f, w[0].path.stem, w[0].data, w[1].data);
      ApplyPrefix(f, w, ReplacementSteps(c, g, rs[1..]), k);
      assert w[..2] == w && ReplacementSteps(c, g, rs[1..])[..0] == [];
      PhaseOneTornOrphans(c, g, ApplyAll(f, w), rs[1..], k - 2, n);
    }
  }

  /** A finished phase 1 adds complete pairs only. */
  lemma {:induction false} AllPairsNoOrphans(c: Codec, g: Contents, f: Files, rs: seq<Rewrite>)
    ensures NoNewOrphans(f, ApplyAll(f, ReplacementSteps(c, g, rs)))
    decreases |rs|
  {
    hide PackBytes, CreatedIndex, Objects, NewName, NewSteps;
    if rs != [] {
      var w := NewSteps(c, g, rs[0]);
      NewStepsShape(c, g, rs[0]);
      assert w == [w[0], w[1]];
      ApplyTwo(f, w[0], w[1]);
      PairAddsNoOrphan(f, w[0].path.stem, w[0].data, w[1].data);
      AllPairsNoOrphans(c, g, ApplyAll(f, w), rs[1..]);
      ApplyAllConcat(f, w, ReplacementSteps(c, g, rs[1..]));
    }
  }

  /** The other file of a pair. */
  function Partner(p: Path): Path
    requires p.Pack? || p.Idx?
  {
    if p.Pack? then Idx(p.stem) else Pack(p.stem)
  }

  /** Orphans that were there, or files of packs with garbage. */
  ghost predicate OldOrPartial(f: Files, f': Files, live: set<Digest>) {
    forall p | Orphan(f', p) :: Orphan(f, p) || Partial(f, live, p.stem)
  }

  /** The evictions orphan only files of packs with garbage. */
  lemma EvictedOrphans(c: Codec, g: Contents, f: Files, live: set<Digest>, o: Options, f': Files)
    requires Sweepable(c, g, f, live) && !o.mode.DryRun? && NamesFree(c, g, f, live)
    requires Pruned(Midway(c, f, live, o), f', VictimsOf(f, live, o))
    ensures OldOrPartial(f, f', live)
  {
    hide ReadBlob, ParseIndex, PlanOf, NewName, Victims, WellFormed, FirstPhase, Rewritten, Ready, PlanFails;
    var f1 := Midway(c, f, live, o);
    MidwayRewritten(c, g, f, live, o);
    AllPairsNoOrphans(c, g, f, Executed(f, live, o));
    forall p | Orphan(f', p) ensures Orphan(f, p) || Partial(f, live, p.stem) {
      var q := Partner(p);
      if q in f1 {
        VictimsExact(f, live, o.rewritePartialPacks, q);
        if p.stem in Removals(PlanOf(f, live), o.rewritePartialPacks) {
          RemovalIsPartial(f, live, o.rewritePartialPacks, p.stem);
        } else {
          assert Orphan(f, q);
          NoPartnerAppears(c, g, f, live, o, q);
        }
      } else {
        assert Orphan(f1, p);
      }
    }
  }

  /** Phase 1 gives no orphan its missing half. */
  lemma NoPartnerAppears(c: Codec, g: Contents, f: Files, live: set<Digest>, o: Options, p: Path)
    requires Sweepable(c, g, f, live) && Orphan(f, p)
    requires o.rewritePartialPacks ==> NamesFree(c, g, f, live)
    ensures Partner(p) !in Midway(c, f, live, o)
  {
    hide ParseIndex, ReadBlob, PlanOf, NewName, WellFormed, FirstPhase, Ready;
    MidwayRewritten(c, g, f, live, o);
    assert !IsNewPath(c, g, Executed(f, live, o), Partner(p));
    assert SameAt(f, Midway(c, f, live, o), Partner(p));
  }

  /** Wherever an attempt stops, the tree is truthful, its live objects are the
      same, and none of them is shadowed. */
  lemma StoppedSafe(c: Codec, g: Contents, f: Files, live: set<Digest>, a: Attempt)
    requires Truthful(c, g, f, live) && NoShadow(f, live) && NamesFree(c, g, f, live)
    ensures Safe(c, g, f, live, Stopped(c, f, live, a))
    ensures NoShadow(Stopped(c, f, live, a), live) && SameAliases(f, Stopped(c, f, live, a))
  {
    hide ReadBlob, ParseIndex, PlanOf, NewName, WellFormed, SweepSteps, Truthful, NamesFree, Present, NoShadow, SameAliases;
    NoShadowHarmless(c, g, f, live, a.options);
    if Tears(c, f, live, a) {
      TornSafe(c, g, f, live, a.options, StopOf(c, f, live, a), a.torn.value);
    } else {
      CrashSafe(c, g, f, live, a.options, StopOf(c, f, live, a));
    }
    StoppedLeavesAlone(c, g, f, live, a);
    StaysUnshadowed(f, Stopped(c, f, live, a), live);
  }

  lemma NeverStarts(c: Codec, f: Files, live: set<Digest>, a: Attempt)
    requires a.options.mode.DryRun? || PlanFails(f, live)
    ensures Stopped(c, f, live, a) == f && LeavesNoBarePack(c, f, live, a)
  {
    hide PlanFails, SweepSteps, PlanOf;
    if PlanFails(f, live) {
      PlanFailsIdle(c, f, live, a.options);
    } else {
      DryRunIdle(c, f, live, a.options);
    }
  }

  lemma StoppedLeavesAlone(c: Codec, g: Contents, f: Files, live: set<Digest>, a: Attempt)
    requires Truthful(c, g, f, live) && NamesFree(c, g, f, live)
    ensures LeavesAlone(f, Stopped(c, f, live, a), live)
  {
    hide ReadBlob, ParseIndex, PlanOf, NewName, WellFormed, FirstPhase, SweepSteps, NamesFree, Unharmed, Midway, VictimsOf, PlanFails, LeavesAlone;
    var o, k, f' := a.options, StopOf(c, f, live, a), Stopped(c, f, live, a);
    var rs := Executed(f, live, o);
    if o.mode.DryRun? || PlanFails(f, live) {
      NeverStarts(c, f, live, a);
      UnharmedAtOnce(c, g, f);
      UnharmedLeavesAlone(c, g, f, f', live);
    } else if Tears(c, f, live, a) {
      SweepShape(c, g, f, live, o);
      MidwayRewritten(c, g, f, live, o);
      EvictWritesNothing(Midway(c, f, live, o), o.mode, VictimsOf(f, live, o));
      StopsRewriting(c, g, f, live, o, k);
      NamesFreeNoStray(c, g, f, live, o);
      PhaseOneTornSafe(c, g, f, rs, k, a.torn.value);
      UnharmedLeavesAlone(c, g, f, f', live);
    } else if k <= |ReplacementSteps(c, g, rs)| {
      StopsRewriting(c, g, f, live, o, k);
      MidwayRewritten(c, g, f, live, o);
      NamesFreeNoStray(c, g, f, live, o);
      PhaseOneSafe(c, g, f, rs, k);
      UnharmedLeavesAlone(c, g, f, f', live);
    } else {
      StopsEvicting(c, g, f, live, o, k);
      EvictingLeavesAlone(c, g, f, live, o, f');
    }
  }

  lemma StoppedOrphans(c: Codec, g: Contents, f: Files, live: set<Digest>, a: Attempt)
    requires Truthful(c, g, f, live) && NamesFree(c, g, f, live) && LeavesNoBarePack(c, f, live, a)
    ensures OldOrPartial(f, Stopped(c, f, live, a), live)
  {
    hide ReadBlob, ParseIndex, PlanOf, NewName, WellFormed, SweepSteps, NamesFree, PlanFails, Stopped, Partial;
    if a.options.mode.DryRun? || PlanFails(f, live) {
      NeverStarts(c, f, live, a);
    } else if Tears(c, f, live, a) {
      TornOrphans(c, g, f, live, a);
    } else {
      WholeOrphans(c, g, f, live, a);
    }
  }

  lemma TornOrphans(c: Codec, g: Contents, f: Files, live: set<Digest>, a: Attempt)
    requires Sweepable(c, g, f, live) && !a.options.mode.DryRun?
    requires LeavesNoBarePack(c, f, live, a) && Tears(c, f, live, a)
    ensures NoNewOrphans(f, Stopped(c, f, live, a))
  {
    hide ReadBlob, ParseIndex, PlanOf, NewName, WellFormed, FirstPhase, SweepSteps, SweepOutcome, Sweepable, Midway, VictimsOf;
    var o, steps, k := a.options, SweepSteps(c, f, live, a.options), StopOf(c, f, live, a);
    var first := ReplacementSteps(c, g, Executed(f, live, o));
    SweepShape(c, g, f, live, o);
    EvictWritesNothing(Midway(c, f, live, o), o.mode, VictimsOf(f, live, o));
    assert k < |first| && steps[..k] == first[..k];
    PhaseOneTornOrphans(c, g, f, Executed(f, live, o), k, a.torn.value);
  }

  lemma WholeOrphans(c: Codec, g: Contents, f: Files, live: set<Digest>, a: Attempt)
    requires Sweepable(c, g, f, live) && NamesFree(c, g, f, live) && !a.options.mode.DryRun?
    requires LeavesNoBarePack(c, f, live, a) && !Tears(c, f, live, a)
    ensures OldOrPartial(f, Stopped(c, f, live, a), live)
  {
    hide ReadBlob, ParseIndex, PlanOf, NewName, WellFormed, FirstPhase, SweepSteps, SweepOutcome, Sweepable, VictimsOf, NamesFree;
    var o, k := a.options, StopOf(c, f, live, a);
    var first := ReplacementSteps(c, g, Executed(f, live, o));
    if k <= |first| {
      StopsRewriting(c, g, f, live, o, k);
      assert k > 0 ==> SweepSteps(c, f, live, o)[..k][k - 1] == first[..k][k - 1];
      PhaseOneOrphans(c, g, f, Executed(f, live, o), k);
    } else {
      StopsEvicting(c, g, f, live, o, k);
      EvictedOrphans(c, g, f, live, o, Stopped(c, f, live, a));
    }
  }

  /* The next plan */

  /** The tree of a crash in phase 1 holds what the replacements before it made,
      if the interrupted pair does not load. */
  lemma InterruptedHoldings(c: Codec, g: Contents, f: Files, live: set<Digest>, i: nat, f': Files)
    requires Sweepable(c, g, f, live) && NamesFree(c, g, f, live) && i < |PlanOf(f, live).packsToRewrite|
    requires var rs := PlanOf(f, live).packsToRewrite;
             var f1, q := ApplyAll(f, ReplacementSteps(c, g, rs[..i])), NewName(c, g, rs[i]);
             && (forall p | p != Pack(q) && p != Idx(q) :: SameAt(f1, f', p))
             && (SameAt(f1, f', Idx(q)) || (Idx(q) in f' && ParseIndex(f'[Idx(q)]).Err?))
    ensures SameHoldings(ApplyAll(f, ReplacementSteps(c, g, PlanOf(f, live).packsToRewrite[..i])), f')
  {
    hide ParseIndex, ReadBlob, PlanOf, NewName, WellFormed, ReplacementSteps, Rewritten, SameHoldings, Ready, PlanFails;
    var rs := PlanOf(f, live).packsToRewrite;
    var f1, q := ApplyAll(f, ReplacementSteps(c, g, rs[..i])), NewName(c, g, rs[i]);
    PlanReady(c, g, f, live);
    FirstReplacements(c, g, f, live, i);
    NameStaysUnread(c, g, f, rs, i, f1);
    FilesUnderLaterName(c, g, f, rs, i, f1);
    assert rs[i] in rs;
    assert !Orphan(f, Idx(q));
    UnreadHoldings(f1, f', q);
  }

  lemma EvenStop(c: Codec, g: Contents, rs: seq<Rewrite>, i: nat)
    requires 2 * i <= |ReplacementSteps(c, g, rs)|
    ensures i <= |rs| && ReplacementSteps(c, g, rs)[..2 * i] == ReplacementSteps(c, g, rs[..i])
  {
    hide ReplacementSteps, NewSteps;
    PhaseOneLength(c, g, rs);
    if i < |rs| {
      ReplacementStepsAt(c, g, rs, i);
    } else {
      assert rs[..i] == rs;
      assert ReplacementSteps(c, g, rs)[..2 * i] == ReplacementSteps(c, g, rs);
    }
  }

  lemma OddStop(c: Codec, g: Contents, f: Files, live: set<Digest>, i: nat)
    requires Sweepable(c, g, f, live) && NamesFree(c, g, f, live)
    requires 2 * i + 1 <= |ReplacementSteps(c, g, PlanOf(f, live).packsToRewrite)|
    ensures var rs := PlanOf(f, live).packsToRewrite;
            && i < |rs|
            && SameHoldings(ApplyAll(f, ReplacementSteps(c, g, rs[..i])), ApplyAll(f, ReplacementSteps(c, g, rs)[..2 * i + 1]))
  {
    hide ParseIndex, ReadBlob, PlanOf, NewName, Truthful, ReplacementSteps, SameHoldings, PlanFails, NamesFree, NewSteps, ApplyAll, PackBytes, CreatedIndex;
    var rs := PlanOf(f, live).packsToRewrite;
    var steps := ReplacementSteps(c, g, rs);
    PhaseOneLength(c, g, rs);
    ReplacementStepsAt(c, g, rs, i);
    NewStepsShape(c, g, rs[i]);
    AfterFirstWrite(f, steps, 2 * i + 1, 2 * i);
    InterruptedHoldings(c, g, f, live, i, ApplyAll(f, steps[..2 * i + 1]));
  }

  lemma StopReplans(c: Codec, g: Contents, f: Files, live: set<Digest>, k: nat)
    requires Sweepable(c, g, f, live) && NamesFree(c, g, f, live)
    requires k <= |ReplacementSteps(c, g, PlanOf(f, live).packsToRewrite)|
    ensures var f' := ApplyAll(f, ReplacementSteps(c, g, PlanOf(f, live).packsToRewrite)[..k]);
            k / 2 <= |PlanOf(f, live).packsToRewrite| && PlanOf(f', live).packsToRewrite == PlanOf(f, live).packsToRewrite[k / 2..]
  {
    hide ParseIndex, ReadBlob, PlanOf, NewName, Sweepable, ReplacementSteps, SameHoldings, NamesFree, ApplyAll;
    var i, f' := k / 2, ApplyAll(f, ReplacementSteps(c, g, PlanOf(f, live).packsToRewrite)[..k]);
    EvenStop(c, g, PlanOf(f, live).packsToRewrite, i);
    if k == 2 * i {
      HoldsItself(f');
    } else {
      assert k == 2 * i + 1;
      OddStop(c, g, f, live, i);
    }
    Replan(c, g, f, live, i, f');
  }

  lemma HoldsItself(f: Files)
    ensures SameHoldings(f, f)
  {
  }

  lemma TornReplans(c: Codec, g: Contents, f: Files, live: set<Digest>, k: nat, n: nat)
    requires Sweepable(c, g, f, live) && NamesFree(c, g, f, live)
    requires k < |ReplacementSteps(c, g, PlanOf(f, live).packsToRewrite)|
    requires var s := ReplacementSteps(c, g, PlanOf(f, live).packsToRewrite)[k]; s.Write? && n < |s.data|
    ensures var steps := ReplacementSteps(c, g, PlanOf(f, live).packsToRewrite);
            var f' := Torn(ApplyAll(f, steps[..k]), steps[k], n);
            k / 2 <= |PlanOf(f, live).packsToRewrite| && PlanOf(f', live).packsToRewrite == PlanOf(f, live).packsToRewrite[k / 2..]
  {
    hide ParseIndex, ReadBlob, PlanOf, NewName, Truthful, ReplacementSteps, SameHoldings, PlanFails, NamesFree, NewSteps, ApplyAll, CreatedIndex;
    var rs := PlanOf(f, live).packsToRewrite;
    var steps, i := ReplacementSteps(c, g, rs), k / 2;
    var f' := Torn(ApplyAll(f, steps[..k]), steps[k], n);
    PhaseOneLength(c, g, rs);
    ReplacementStepsAt(c, g, rs, i);
    NewStepsShape(c, g, rs[i]);
    if k == 2 * i {
      InterruptedHoldings(c, g, f, live, i, f');
    } else {
      AfterFirstWrite(f, steps, k, 2 * i);
      TornNameUnread(c, g, f, live, i, n);
      InterruptedHoldings(c, g, f, live, i, f');
    }
    Replan(c, g, f, live, i, f');
  }

  /** After a crash in phases 2 to 4 nothing is left to rewrite, or with rewriting
      off exactly what there was. */
  lemma EvictedReplans(c: Codec, g: Contents, f: Files, live: set<Digest>, o: Options, f': Files)
    requires Sweepable(c, g, f, live) && NamesFree(c, g, f, live) && !o.mode.DryRun?
    requires Pruned(Midway(c, f, live, o), f', VictimsOf(f, live, o))
    ensures PlanOf(f', live).packsToRewrite == if o.rewritePartialPacks then [] else PlanOf(f, live).packsToRewrite
  {
    hide ParseIndex, ReadBlob, PlanOf, NewName, WellFormed, Rewritten, FirstPhase, Midway, VictimsOf, Pruned, HealthyIn, ListedHashes, Kept, Truthful, PlanFails, NamesFree, LeavesAlone, RewrittenPacks, Partial;
    var rs, f1 := PlanOf(f, live).packsToRewrite, Midway(c, f, live, o);
    var i := |Executed(f, live, o)|;
    assert rs[..i] == Executed(f, live, o) && rs[i..] == if o.rewritePartialPacks then [] else rs;
    MidwayRewritten(c, g, f, live, o);
    PlanFacts(f, live);
    RewrittenInventory(c, g, f, f1, live, rs[..i]);
    EvictedPartials(c, g, f, live, o, f');
    EvictedHealthy(c, g, f, live, o, f');
    EvictingLeavesAlone(c, g, f, live, o, f');
    SameLiveListed(f, f', live);
    ReplanAfter(f, f', live, i);
  }

  lemma SameLiveListed(f: Files, f': Files, live: set<Digest>)
    requires LeavesAlone(f, f', live)
    ensures ListedHashes(f') * live == ListedHashes(f) * live
  {
    hide SamePack, Healthy;
    ListedHashesExact(f);
    ListedHashesExact(f');
    forall h: Digest | h in live ensures h in ListedHashes(f) <==> h in ListedHashes(f') {
      assert SameAt(f, f', Loose(h));
      if p :| p in f && Names(p, h) { assert SameAt(f, f', p) && p in f' && Names(p, h); }
      if p :| p in f' && Names(p, h) { assert SameAt(f, f', p) && p in f && Names(p, h); }
    }
  }

  /** Of the packs with garbage only those are gone that were to be deleted. */
  lemma EvictedPartials(c: Codec, g: Contents, f: Files, live: set<Digest>, o: Options, f': Files)
    requires Sweepable(c, g, f, live) && !o.mode.DryRun?
    requires SamePartials(f, Midway(c, f, live, o), live)
    requires Pruned(Midway(c, f, live, o), f', VictimsOf(f, live, o))
    ensures FewerPartials(f, f', live)
    ensures forall s | Partial(f, live, s) && !Partial(f', live, s) ::
              o.rewritePartialPacks || s !in RewrittenPacks(PlanOf(f, live).packsToRewrite)
  {
    hide ParseIndex, ReadBlob, PlanOf, Victims, Truthful, FirstPhase, RewrittenPacks, PlanFails;
    var f1 := Midway(c, f, live, o);
    forall s | Partial(f', live, s) ensures Partial(f, live, s) && HashesOf(f, s) == HashesOf(f', s) {
      WithinPack(f', f1, s);
    }
    forall s | Partial(f, live, s) && !Partial(f', live, s) && !o.rewritePartialPacks
      ensures s !in RewrittenPacks(PlanOf(f, live).packsToRewrite)
    {
      VictimsExact(f, live, o.rewritePartialPacks, Pack(s));
      VictimsExact(f, live, o.rewritePartialPacks, Idx(s));
      KeptPartial(f1, f', live, VictimsOf(f, live, o), s);
      RemovedNotRewritten(f, live, s);
      RewrittenNames(PlanOf(f, live).packsToRewrite, s);
    }
  }

  lemma RewrittenNames(rs: seq<Rewrite>, s: Name)
    requires forall r | r in rs :: r.pack != s
    ensures s !in RewrittenPacks(rs)
  {
    forall i | 0 <= i < |RewrittenPacks(rs)| ensures RewrittenPacks(rs)[i] != s {
      assert rs[i] in rs;
    }
  }

  /** A pack of which no file was to be deleted is still there. */
  lemma KeptPartial(f1: Files, f': Files, live: set<Digest>, victims: seq<Path>, s: Name)
    requires Pruned(f1, f', victims) && Partial(f1, live, s) && !Partial(f', live, s)
    ensures Pack(s) in victims || Idx(s) in victims
  {
    hide ParseIndex;
    if Pack(s) !in victims && Idx(s) !in victims {
      SamePackHashes(f1, f', s);
    }
  }

  /** The packs without garbage are as they were after phase 1. */
  lemma EvictedHealthy(c: Codec, g: Contents, f: Files, live: set<Digest>, o: Options, f': Files)
    requires Sweepable(c, g, f, live) && NamesFree(c, g, f, live) && !o.mode.DryRun?
    requires Pruned(Midway(c, f, live, o), f', VictimsOf(f, live, o))
    ensures HealthyIn(f', live) == HealthyIn(Midway(c, f, live, o), live)
  {
    hide ParseIndex, ReadBlob, PlanOf, NewName, Victims, WellFormed, FirstPhase, NamesFree, Truthful, HealthyIn, Midway, Present, PlanFails;
    var f1 := Midway(c, f, live, o);
    MidwayRewritten(c, g, f, live, o);
    forall h: Digest ensures h in HealthyIn(f', live) <==> h in HealthyIn(f1, live) {
      HealthyInMeans(f', live, h);
      HealthyInMeans(f1, live, h);
      if s :| Healthy(f', live, s) && h in HashesOf(f', s) {
        WithinPack(f', f1, s);
        assert Healthy(f1, live, s);
      }
      if s :| Healthy(f1, live, s) && h in HashesOf(f1, s) {
        HealthySurvives(c, g, f, live, o, s);
        SamePackHashes(f1, f', s);
        assert Healthy(f', live, s);
      }
    }
  }

  lemma HealthySurvives(c: Codec, g: Contents, f: Files, live: set<Digest>, o: Options, s: Name)
    requires Sweepable(c, g, f, live) && NamesFree(c, g, f, live) && !o.mode.DryRun?
    requires Healthy(Midway(c, f, live, o), live, s)
    ensures Pack(s) !in VictimsOf(f, live, o) && Idx(s) !in VictimsOf(f, live, o)
  {
    hide ParseIndex, ReadBlob, PlanOf, NewName, Victims, WellFormed, FirstPhase, NamesFree, Truthful, Midway, Present, PlanFails, Rewritten, VictimsOf;
    MidwayRewritten(c, g, f, live, o);
    PackAfterRewriting(c, g, f, Midway(c, f, live, o), Executed(f, live, o), s);
    assert Survivor(c, g, f, live, o, s);
    SurvivorSpared(c, g, f, live, o, s);
  }

  /** The next plan rewrites nothing that this one did not. */
  lemma StoppedReplans(c: Codec, g: Contents, f: Files, live: set<Digest>, a: Attempt)
    requires Truthful(c, g, f, live) && NamesFree(c, g, f, live)
    ensures forall r | r in PlanOf(Stopped(c, f, live, a), live).packsToRewrite :: r in PlanOf(f, live).packsToRewrite
  {
    hide ParseIndex, ReadBlob, PlanOf, NewName, WellFormed, NamesFree, FirstPhase, SweepSteps, Midway, VictimsOf, PlanFails, ReplacementSteps, Truthful, ApplyAll;
    var o, k := a.options, StopOf(c, f, live, a);
    if o.mode.DryRun? || PlanFails(f, live) {
      NeverStarts(c, f, live, a);
    } else if Tears(c, f, live, a) {
      WriteInPhaseOne(c, g, f, live, o, k);
      TearsInPhaseOne(c, g, f, live, a);
      TornReplans(c, g, f, live, k, a.torn.value);
    } else if k <= |ReplacementSteps(c, g, Executed(f, live, o))| {
      StopsRewriting(c, g, f, live, o, k);
      if o.rewritePartialPacks {
        StopReplans(c, g, f, live, k);
      } else {
        NothingToReplace(c, g);
        NoSteps(f);
      }
    } else {
      StopsEvicting(c, g, f, live, o, k);
      EvictedReplans(c, g, f, live, o, Stopped(c, f, live, a));
    }
  }

  /** So it is a tree the theorems speak of. */
  lemma StoppedTruthful(c: Codec, g: Contents, f: Files, live: set<Digest>, a: Attempt)
    requires Truthful(c, g, f, live) && NoShadow(f, live) && NamesFree(c, g, f, live)
    ensures Truthful(c, g, Stopped(c, f, live, a), live)
  {
    hide ReadBlob, ParseIndex, PlanOf, NewName, WellFormed, NamesFree, Present, NoShadow, SameAliases, Stopped, CreatedIndex;
    StoppedSafe(c, g, f, live, a);
    StoppedReplans(c, g, f, live, a);
  }

  lemma NoSteps(f: Files)
    ensures ApplyAll(f, []) == f
  {
  }

  lemma TearsInPhaseOne(c: Codec, g: Contents, f: Files, live: set<Digest>, a: Attempt)
    requires Sweepable(c, g, f, live) && Tears(c, f, live, a)
    ensures var first, k := ReplacementSteps(c, g, PlanOf(f, live).packsToRewrite), StopOf(c, f, live, a);
            && k < |first| && first[k].Write? && a.torn.value < |first[k].data|
            && Stopped(c, f, live, a) == Torn(ApplyAll(f, first[..k]), first[k], a.torn.value)
  {
    hide PlanOf, SweepSteps, ReplacementSteps, Sweepable, ApplyAll;
    var k, steps := StopOf(c, f, live, a), SweepSteps(c, f, live, a.options);
    var first := ReplacementSteps(c, g, PlanOf(f, live).packsToRewrite);
    WriteInPhaseOne(c, g, f, live, a.options, k);
    assert steps[k] == first[k] && steps[..k] == first[..k];
  }

  /** If it leaves no bare pack, the orphans still leave the replacement names
      free: a new one is a file of a pack that readers used, and the plan rewrites
      nothing new. */
  lemma StaysNamesFree(c: Codec, g: Contents, f: Files, live: set<Digest>, a: Attempt)
    requires Truthful(c, g, f, live) && NamesFree(c, g, f, live) && LeavesNoBarePack(c, f, live, a)
    ensures NamesFree(c, g, Stopped(c, f, live, a), live)
  {
    hide ParseIndex, ReadBlob, PlanOf, NewName, WellFormed, Stopped, LeavesNoBarePack;
    var f' := Stopped(c, f, live, a);
    StoppedReplans(c, g, f, live, a);
    StoppedOrphans(c, g, f, live, a);
    PlanReady(c, g, f, live);
    forall p, r | Orphan(f', p) && r in PlanOf(f', live).packsToRewrite ensures p.stem != NewName(c, g, r) {
      ReadyUnread(c, g, f, r);
    }
  }

  /** If it leaves no bare pack, the next sweep can count on the same. */
  lemma AttemptKeeps(c: Codec, g: Contents, f: Files, live: set<Digest>, a: Attempt)
    requires Truthful(c, g, f, live) && NoShadow(f, live) && NamesFree(c, g, f, live)
    requires LeavesNoBarePack(c, f, live, a)
    ensures var f' := Stopped(c, f, live, a);
            && Truthful(c, g, f', live)
            && live * Present(f') == live * Present(f)
            && NamesFree(c, g, f', live)
            && NoShadow(f', live)
            && SameAliases(f, f')
  {
    hide ReadBlob, ParseIndex, PlanOf, NewName, WellFormed, SweepSteps, NamesFree, Present, NoShadow, PlanFails, SameAliases, Stopped, LeavesNoBarePack, Truthful;
    StoppedSafe(c, g, f, live, a);
    StaysNamesFree(c, g, f, live, a);
    StoppedTruthful(c, g, f, live, a);
  }

  /* Series of attempts */

  ghost function AfterAttempts(c: Codec, f: Files, live: set<Digest>, attempts: seq<Attempt>): Files
    decreases |attempts|
  {
    if attempts == [] then f else AfterAttempts(c, Stopped(c, f, live, attempts[0]), live, attempts[1..])
  }

  /** No attempt leaves a bare pack. */
  ghost predicate Restartable(c: Codec, f: Files, live: set<Digest>, attempts: seq<Attempt>)
    decreases |attempts|
  {
    attempts != [] ==>
      && LeavesNoBarePack(c, f, live, attempts[0])
      && Restartable(c, Stopped(c, f, live, attempts[0]), live, attempts[1..])
  }

  lemma {:induction false} AttemptsKeep(c: Codec, g: Contents, f: Files, live: set<Digest>, attempts: seq<Attempt>)
    requires Truthful(c, g, f, live) && NamesFree(c, g, f, live) && NoShadow(f, live)
    requires Restartable(c, f, live, attempts)
    ensures var f' := AfterAttempts(c, f, live, attempts);
            && Truthful(c, g, f', live)
            && live * Present(f') == live * Present(f)
            && NamesFree(c, g, f', live)
            && NoShadow(f', live)
            && SameAliases(f, f')
    decreases |attempts|
  {
    hide ReadBlob, ParseIndex, PlanOf, NewName, Truthful, Stopped, LeavesNoBarePack, Present, NamesFree, NoShadow;
    if attempts != [] {
      AttemptKeeps(c, g, f, live, attempts[0]);
      AttemptsKeep(c, g, Stopped(c, f, live, attempts[0]), live, attempts[1..]);
    }
  }

  /** Convergence: any finite series of sweeps against one live set, in any modes
      and options, each crashing anywhere except between the two files of a new
      pack, followed by one rewriting sweep that runs to its end, leaves exactly
      the live objects that were present at the start. Only the plan of that sweep
      can fail, and not if every alias names a live digest. All that is asked of
      the start is what the first sweep needs. */
  lemma Converges(c: Codec, g: Contents, f: Files, live: set<Digest>, attempts: seq<Attempt>, o: Options)
    requires Truthful(c, g, f, live) && NamesFree(c, g, f, live) && NoShadow(f, live)
    requires Restartable(c, f, live, attempts)
    requires !o.mode.DryRun? && o.rewritePartialPacks
    ensures var f1 := AfterAttempts(c, f, live, attempts);
            var f' := After(c, f1, live, o);
            && WellFormed(c, g, f')
            && live * Present(f') == live * Present(f)
            && (SweepOutcome(c, f1, live, o).ok ==> Present(f') == live * Present(f))
            && (AliasesLive(f, live) ==> SweepOutcome(c, f1, live, o).ok)
  {
    hide ReadBlob, ParseIndex, PlanOf, NewName, WellFormed, Present, NamesFree, After, NoShadow, PlanFails, Unshadowed, SweepOutcome;
    var f1 := AfterAttempts(c, f, live, attempts);
    AttemptsKeep(c, g, f, live, attempts);
    if AliasesLive(f, live) {
      assert AliasesLive(f1, live) by {
        forall p | p in f1 && p.Alias? ensures p.h in live { assert SameAt(f, f1, p); }
      }
      AliasesLivePlans(f1, live);
    }
    if PlanFails(f1, live) {
      PlanFailsIdle(c, f1, live, o);
      assert After(c, f1, live, o) == f1 by { AfterNothing(c, f1, live, o); }
    } else {
      NoShadowHarmless(c, g, f1, live, o);
      SweepLeaves(c, g, f1, live, o);
      SweepShape(c, g, f1, live, o);
    }
  }

  lemma AfterNothing(c: Codec, f: Files, live: set<Digest>, o: Options)
    requires SweepSteps(c, f, live, o) == []
    ensures After(c, f, live, o) == f
  {
  }
}
