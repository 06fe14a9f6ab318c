/** Crash safety: a sweep can lose reclamation, never live data. */
module GcSafety {
  import opened Bytes
  import opened Codecs
  import opened Disks
  import opened GcEvict
  import opened GcModel
  import opened GcPlanning
  import opened GcRewrite
  import opened Inventory
  import opened PackFormat
  import opened Sorting

  /** The trees the theorems speak of: truthful ones, in which the indexes the
      sweep would write do not collide with another string in play. */
  ghost predicate Truthful(c: Codec, g: Contents, f: Files, live: set<Digest>) {
    Lawful(c) && WellFormed(c, g, f) && ReplacementsInPlay(c, g, PlanOf(f, live).packsToRewrite)
  }

  /** Those in which planning succeeds. */
  ghost predicate Sweepable(c: Codec, g: Contents, f: Files, live: set<Digest>) {
    Truthful(c, g, f, live) && !PlanFails(f, live)
  }

  /** Every shadowed object stays in a pack that rewriting, switched off, spares. */
  ghost predicate Unshadowed(f: Files, live: set<Digest>, o: Options) {
    forall h | Shadowed(f, live, h) ::
      !o.rewritePartialPacks && exists r :: r in PlanOf(f, live).packsToRewrite && h in HashesOf(f, r.pack)
  }

  /** No orphan file carries the name of a replacement pack. */
  ghost predicate NamesFree(c: Codec, g: Contents, f: Files, live: set<Digest>) {
    forall p, r | Orphan(f, p) && r in PlanOf(f, live).packsToRewrite :: p.stem != NewName(c, g, r)
  }

  /** The rewrites a sweep with these options carries out. */
  ghost function Executed(f: Files, live: set<Digest>, o: Options): seq<Rewrite> {
    if o.mode.DryRun? || !o.rewritePartialPacks then [] else PlanOf(f, live).packsToRewrite
  }

  /** The tree between phase 1 and phase 2. */
  ghost function Midway(c: Codec, f: Files, live: set<Digest>, o: Options): Files {
    ApplyAll(f, FirstPhase(c, f, live, o).steps)
  }

  ghost function VictimsOf(f: Files, live: set<Digest>, o: Options): seq<Path> {
    Victims(PlanOf(f, live), o.rewritePartialPacks)
  }

  lemma MidwayRewritten(c: Codec, g: Contents, f: Files, live: set<Digest>, o: Options)
    requires Sweepable(c, g, f, live)
    ensures FirstPhase(c, f, live, o).ok
    ensures FirstPhase(c, f, live, o).steps == ReplacementSteps(c, g, Executed(f, live, o))
    ensures AllReady(c, g, f, Executed(f, live, o))
    ensures Rewritten(c, g, f, Midway(c, f, live, o), Executed(f, live, o))
  {
    hide RewritePhase, PlanOf, Rewritten, WellFormed, Ready, PlanFails;
    RewrittenNone(c, g, f);
    PlanReady(c, g, f, live);
    RewriteAll(c, g, f, PlanOf(f, live).packsToRewrite);
  }

  /** A sweep's effects: phase 1, then the evictions. */
  lemma SweepShape(c: Codec, g: Contents, f: Files, live: set<Digest>, o: Options)
    requires Sweepable(c, g, f, live) && !o.mode.DryRun?
    ensures SweepSteps(c, f, live, o) ==
            ReplacementSteps(c, g, Executed(f, live, o)) + EvictPhase(Midway(c, f, live, o), o.mode, VictimsOf(f, live, o))
    ensures SweepOutcome(c, f, live, o).ok
  {
    hide RewritePhase, PlanOf, Rewritten, WellFormed, Ready, PlanFails;
    MidwayRewritten(c, g, f, live, o);
  }

  /* What the evictions never touch */

  /** Packs that hold live objects after a sweep: packs without garbage, and
      either the replacements or the packs they would have replaced. */
  ghost predicate Survivor(c: Codec, g: Contents, f: Files, live: set<Digest>, o: Options, s: Name) {
    || Healthy(f, live, s)
    || (exists r :: r in PlanOf(f, live).packsToRewrite && s == if o.rewritePartialPacks then NewName(c, g, r) else r.pack)
  }

  lemma SurvivorSpared(c: Codec, g: Contents, f: Files, live: set<Digest>, o: Options, s: Name)
    requires Sweepable(c, g, f, live) && Survivor(c, g, f, live, o, s)
    requires o.rewritePartialPacks ==> NamesFree(c, g, f, live)
    ensures Pack(s) !in VictimsOf(f, live, o) && Idx(s) !in VictimsOf(f, live, o)
  {
    hide ParseIndex, ReadBlob, PlanOf, WellFormed, NewName, Victims;
    var plan := PlanOf(f, live);
    VictimsExact(f, live, o.rewritePartialPacks, Pack(s));
    VictimsExact(f, live, o.rewritePartialPacks, Idx(s));
    PlanFacts(f, live);
    PlanReady(c, g, f, live);
    forall t | t in Removals(plan, o.rewritePartialPacks) ensures t != s {
      RemovalIsPartial(f, live, o.rewritePartialPacks, t);
      if !o.rewritePartialPacks && t == s {
        RemovedNotRewritten(f, live, s);
      }
    }
  }

  lemma RemovalIsPartial(f: Files, live: set<Digest>, rewrite: bool, t: Name)
    requires t in Removals(PlanOf(f, live), rewrite)
    ensures Partial(f, live, t)
  {
    PlanFacts(f, live);
    var plan := PlanOf(f, live);
    if t !in plan.packsToRemove {
      var i :| 0 <= i < |plan.packsToRewrite| && plan.packsToRewrite[i].pack == t;
    }
  }

  lemma RemovedNotRewritten(f: Files, live: set<Digest>, s: Name)
    requires s in PlanOf(f, live).packsToRemove
    ensures forall r | r in PlanOf(f, live).packsToRewrite :: r.pack != s
  {
    hide PlanOf, Partial, HashesOf, LooseHashes, HealthyIn, Kept;
    PlanFacts(f, live);
    var plan := PlanOf(f, live);
    DistinctApart(plan.packsToRemove, RewrittenPacks(plan.packsToRewrite));
    forall r | r in plan.packsToRewrite ensures r.pack in RewrittenPacks(plan.packsToRewrite) {
      var j :| 0 <= j < |plan.packsToRewrite| && plan.packsToRewrite[j] == r;
      assert RewrittenPacks(plan.packsToRewrite)[j] == r.pack;
    }
  }

  lemma DistinctApart<T>(a: seq<T>, b: seq<T>)
    requires Distinct(a + b)
    ensures forall x | x in a :: x !in b
  {
    forall i, j | 0 <= i < |a| && 0 <= j < |b| ensures a[i] != b[j] {
      assert (a + b)[i] == a[i] && (a + b)[|a| + j] == b[j];
    }
  }

  /** Every live packed object is in a pack without garbage, is kept, or is
      shadowed. */
  lemma LiveCovered(f: Files, live: set<Digest>, h: Digest)
    requires h in live && h in Present(f) && Loose(h) !in f
    ensures || (exists s :: Healthy(f, live, s) && h in HashesOf(f, s))
            || (exists r :: r in PlanOf(f, live).packsToRewrite && h in r.keep)
            || Shadowed(f, live, h)
  {
    hide ParseIndex, PlanOf;
    PresentExact(f);
    var t :| Indexed(f, t) && h in HashesOf(f, t);
    if !Healthy(f, live, t) {
      assert Partial(f, live, t);
      HealthyInExact(f, live, PackStates(f, Listing(f)));
      PlanFacts(f, live);
      assert h in HashesOf(f, t) * live;
    }
  }

  /** Every live present object is loose, or in a surviving pack that phase 1
      has completed. */
  lemma LiveHasSurvivor(c: Codec, g: Contents, f: Files, live: set<Digest>, o: Options, h: Digest)
    requires Sweepable(c, g, f, live) && !o.mode.DryRun? && Unshadowed(f, live, o)
    requires h in live && h in Present(f) && Loose(h) !in f
    ensures exists s :: Survivor(c, g, f, live, o, s) && Indexed(Midway(c, f, live, o), s) && h in HashesOf(Midway(c, f, live, o), s)
  {
    hide ParseIndex, ReadBlob, PlanOf, WellFormed, NewName, FirstPhase, Midway, Present;
    var f1 := Midway(c, f, live, o);
    MidwayRewritten(c, g, f, live, o);
    LiveCovered(f, live, h);
    if s :| Healthy(f, live, s) && h in HashesOf(f, s) {
      SamePackHashes(f, f1, s);
      assert Survivor(c, g, f, live, o, s);
    } else if Shadowed(f, live, h) {
      var r :| r in PlanOf(f, live).packsToRewrite && h in HashesOf(f, r.pack);
      PlanFacts(f, live);
      SamePackHashes(f, f1, r.pack);
      assert Survivor(c, g, f, live, o, r.pack);
    } else {
      var r :| r in PlanOf(f, live).packsToRewrite && h in r.keep;
      var s := if o.rewritePartialPacks then NewName(c, g, r) else r.pack;
      assert Survivor(c, g, f, live, o, s);
      assert h in Elements(r.keep);
      if !o.rewritePartialPacks {
        PlanFacts(f, live);
        SamePackHashes(f, f1, s);
      }
    }
  }

  /** However far the evictions get, live objects stay present. */
  lemma LiveStays(c: Codec, g: Contents, f: Files, live: set<Digest>, o: Options, f': Files)
    requires Sweepable(c, g, f, live) && !o.mode.DryRun? && Unshadowed(f, live, o)
    requires o.rewritePartialPacks ==> NamesFree(c, g, f, live)
    requires Pruned(Midway(c, f, live, o), f', VictimsOf(f, live, o))
    ensures live * Present(f) <= Present(f')
  {
    hide ParseIndex, ReadBlob, PlanOf, WellFormed, NewName, Victims, Truthful, NamesFree, Survivor, PlanFails, Unshadowed;
    var f1 := Midway(c, f, live, o);
    MidwayRewritten(c, g, f, live, o);
    forall h | h in live * Present(f) ensures h in Present(f') {
      PresentExact(f');
      if Loose(h) in f {
        VictimsExact(f, live, o.rewritePartialPacks, Loose(h));
        assert SameAt(f, f1, Loose(h));
      } else {
        LiveHasSurvivor(c, g, f, live, o, h);
        var s :| Survivor(c, g, f, live, o, s) && Indexed(f1, s) && h in HashesOf(f1, s);
        SurvivorSpared(c, g, f, live, o, s);
        SamePackHashes(f1, f', s);
      }
    }
  }

  /** What a crashed sweep may leave: a truthful tree that lacks no live object
      and has gained none. */
  ghost predicate Safe(c: Codec, g: Contents, f: Files, live: set<Digest>, f': Files) {
    WellFormed(c, g, f') && live * Present(f) <= Present(f') <= Present(f)
  }

  lemma WithinAllIndexed(f': Files, f: Files)
    requires Within(f', f) && AllIndexed(f)
    ensures AllIndexed(f')
  {
    hide ParseIndex;
    forall s | Paired(f', s) ensures Indexed(f', s) {
      assert Paired(f, s);
    }
  }

  lemma PrunedSafe(c: Codec, g: Contents, f: Files, live: set<Digest>, o: Options, f': Files)
    requires Sweepable(c, g, f, live) && !o.mode.DryRun? && Unshadowed(f, live, o)
    requires o.rewritePartialPacks ==> NamesFree(c, g, f, live)
    requires Pruned(Midway(c, f, live, o), f', VictimsOf(f, live, o))
    ensures Safe(c, g, f, live, f')
    ensures AllIndexed(f) ==> AllIndexed(f')
  {
    hide ParseIndex, ReadBlob, PlanOf, NewName, Victims, NamesFree;
    var f1 := Midway(c, f, live, o);
    MidwayRewritten(c, g, f, live, o);
    LiveStays(c, g, f, live, o, f');
    WithinWellFormed(c, g, f', f1);
    if AllIndexed(f) { WithinAllIndexed(f', f1); }
  }

  lemma NamesFreeNoStray(c: Codec, g: Contents, f: Files, live: set<Digest>, o: Options)
    requires o.rewritePartialPacks ==> NamesFree(c, g, f, live)
    ensures NoStrayIndex(c, g, f, Executed(f, live, o))
  {
    hide PlanOf, NewName;
    forall r | r in Executed(f, live, o) && Idx(NewName(c, g, r)) in f ensures Pack(NewName(c, g, r)) in f {
      assert !Orphan(f, Idx(NewName(c, g, r)));
    }
  }

  lemma DryRunIdle(c: Codec, f: Files, live: set<Digest>, o: Options)
    requires o.mode.DryRun?
    ensures SweepSteps(c, f, live, o) == []
  {
  }

  lemma DryRunIdleOr(c: Codec, f: Files, live: set<Digest>, o: Options, k: nat)
    requires k < |SweepSteps(c, f, live, o)|
    ensures !o.mode.DryRun? && !PlanFails(f, live)
  {
  }

  /** Stopping in phase 1. */
  lemma StopsRewriting(c: Codec, g: Contents, f: Files, live: set<Digest>, o: Options, k: nat)
    requires Sweepable(c, g, f, live) && !o.mode.DryRun?
    requires k <= |ReplacementSteps(c, g, Executed(f, live, o))|
    ensures k <= |SweepSteps(c, f, live, o)|
    ensures SweepSteps(c, f, live, o)[..k] == ReplacementSteps(c, g, Executed(f, live, o))[..k]
  {
    hide Sweepable, Executed, Midway, VictimsOf, SweepSteps, EvictPhase, ReplacementSteps;
    SweepShape(c, g, f, live, o);
  }

  /** Stopping in phases 2 to 4. */
  lemma StopsEvicting(c: Codec, g: Contents, f: Files, live: set<Digest>, o: Options, k: nat)
    requires Sweepable(c, g, f, live) && !o.mode.DryRun?
    requires |ReplacementSteps(c, g, Executed(f, live, o))| < k <= |SweepSteps(c, f, live, o)|
    ensures Pruned(Midway(c, f, live, o), ApplyAll(f, SweepSteps(c, f, live, o)[..k]), VictimsOf(f, live, o))
  {
    hide Sweepable, PlanOf, Victims, Executed, SweepSteps, FirstPhase, ReplacementSteps, Pruned;
    var first, f1, victims := ReplacementSteps(c, g, Executed(f, live, o)), Midway(c, f, live, o), VictimsOf(f, live, o);
    SweepShape(c, g, f, live, o);
    MidwayRewritten(c, g, f, live, o);
    ApplyPrefix(f, first, EvictPhase(f1, o.mode, victims), k);
    VictimsNoTrash(f, live, o.rewritePartialPacks);
    EvictPrefix(f1, o.mode, victims, k - |first|);
  }

  /** What crash safety asks of a sweep that changes anything: that no live
      object is shadowed, and no orphan carries a replacement's name. */
  ghost predicate Harmless(c: Codec, g: Contents, f: Files, live: set<Digest>, o: Options) {
    || o.mode.DryRun?
    || PlanFails(f, live)
    || (Unshadowed(f, live, o) && (o.rewritePartialPacks ==> NamesFree(c, g, f, live)))
  }

  lemma PlanFailsIdle(c: Codec, f: Files, live: set<Digest>, o: Options)
    requires PlanFails(f, live)
    ensures SweepSteps(c, f, live, o) == [] && !SweepOutcome(c, f, live, o).ok
  {
  }

  lemma NothingDoneSafe(c: Codec, g: Contents, f: Files, live: set<Digest>)
    requires WellFormed(c, g, f)
    ensures Safe(c, g, f, live, f) && ApplyAll(f, [][..0]) == f
  {
  }

  /** The sweep stopped after any number of its single-file effects, in trash or
      delete mode, rewriting or not: the tree is truthful and every live object
      that was present still is. */
  lemma CrashSafe(c: Codec, g: Contents, f: Files, live: set<Digest>, o: Options, k: nat)
    requires Truthful(c, g, f, live) && Harmless(c, g, f, live, o)
    requires k <= |SweepSteps(c, f, live, o)|
    ensures var f' := ApplyAll(f, SweepSteps(c, f, live, o)[..k]);
            Safe(c, g, f, live, f') && (AllIndexed(f) ==> AllIndexed(f'))
  {
    hide ParseIndex, ReadBlob, PlanOf, NewName, Victims, NamesFree, WellFormed, Ready, FirstPhase, EvictPhase, Present, AllIndexed, PlanFails, Unshadowed, SweepOutcome;
    var rs := Executed(f, live, o);
    if o.mode.DryRun? {
      DryRunIdle(c, f, live, o);
      NothingDoneSafe(c, g, f, live);
    } else if PlanFails(f, live) {
      PlanFailsIdle(c, f, live, o);
      NothingDoneSafe(c, g, f, live);
    } else if k <= |ReplacementSteps(c, g, rs)| {
      StopsRewriting(c, g, f, live, o, k);
      MidwayRewritten(c, g, f, live, o);
      NamesFreeNoStray(c, g, f, live, o);
      PhaseOneSafe(c, g, f, rs, k);
    } else {
      StopsEvicting(c, g, f, live, o, k);
      PrunedSafe(c, g, f, live, o, ApplyAll(f, SweepSteps(c, f, live, o)[..k]));
    }
  }

  /** The same for a crash that tears the write it interrupts: if that is a pack,
      all indexes still load as well. */
  lemma TornSafe(c: Codec, g: Contents, f: Files, live: set<Digest>, o: Options, k: nat, n: nat)
    requires Truthful(c, g, f, live)
    requires o.rewritePartialPacks ==> NamesFree(c, g, f, live)
    requires k < |SweepSteps(c, f, live, o)| && SweepSteps(c, f, live, o)[k].Write?
    requires n < |SweepSteps(c, f, live, o)[k].data|
    ensures var f' := Torn(ApplyAll(f, SweepSteps(c, f, live, o)[..k]), SweepSteps(c, f, live, o)[k], n);
            Safe(c, g, f, live, f') && (AllIndexed(f) && SweepSteps(c, f, live, o)[k].path.Pack? ==> AllIndexed(f'))
  {
    hide ParseIndex, ReadBlob, PlanOf, NewName, Victims, NamesFree, WellFormed, Ready, FirstPhase, AllIndexed;
    var rs := Executed(f, live, o);
    DryRunIdleOr(c, f, live, o, k);
    SweepShape(c, g, f, live, o);
    MidwayRewritten(c, g, f, live, o);
    EvictWritesNothing(Midway(c, f, live, o), o.mode, VictimsOf(f, live, o));
    assert k < |ReplacementSteps(c, g, rs)|;
    StopsRewriting(c, g, f, live, o, k);
    NamesFreeNoStray(c, g, f, live, o);
    PhaseOneTornSafe(c, g, f, rs, k, n);
  }

  lemma {:induction false} EvictWritesNothing(f: Files, mode: SweepMode, ps: seq<Path>)
    ensures forall i | 0 <= i < |EvictPhase(f, mode, ps)| :: !EvictPhase(f, mode, ps)[i].Write?
    decreases |ps|
  {
    if ps != [] {
      EvictShape(f, mode, ps[0]);
      EvictWritesNothing(ApplyAll(f, EvictSteps(f, mode, ps[0])), mode, ps[1..]);
    }
  }

  /** In terms of reads: in a tree whose indexes all load, whatever a store with
      empty caches reads for a live digest before the sweep, it reads, byte for
      byte, wherever the sweep stops. */
  lemma LiveReadsUnchanged(c: Codec, g: Contents, f: Files, live: set<Digest>, o: Options, k: nat, h: Digest, d: Bytes)
    requires Truthful(c, g, f, live) && Harmless(c, g, f, live, o) && AllIndexed(f)
    requires k <= |SweepSteps(c, f, live, o)|
    requires h in live && ReadsAs(c, f, h, d)
    ensures ReadsAs(c, ApplyAll(f, SweepSteps(c, f, live, o)[..k]), h, d)
  {
    hide ParseIndex, ReadBlob, PlanOf, Harmless;
    var f' := ApplyAll(f, SweepSteps(c, f, live, o)[..k]);
    CrashSafe(c, g, f, live, o, k);
    WellFormedReads(c, g, f, h);
    WellFormedReads(c, g, f', h);
    assert h in Present(f);
    assert d == g(h) by { ReadsOnce(c, f, h, d, g(h)); }
  }

  lemma ReadsOnce(c: Codec, f: Files, h: Digest, d: Bytes, e: Bytes)
    requires ReadsAs(c, f, h, d) && ReadsAs(c, f, h, e)
    ensures d == e
  {
    hide ParseIndex, ReadBlob;
  }

  /** Truthful trees with the same digests, all of whose indexes load, read alike. */
  lemma SamePresentReads(c: Codec, g: Contents, f: Files, f': Files, h: Digest, d: Bytes)
    requires WellFormed(c, g, f) && AllIndexed(f) && WellFormed(c, g, f') && AllIndexed(f')
    requires Present(f') == Present(f)
    ensures ReadsAs(c, f', h, d) <==> ReadsAs(c, f, h, d)
  {
    hide ParseIndex, ReadBlob, WellFormed, AllIndexed, Present, ReadsAs;
    WellFormedReads(c, g, f, h);
    WellFormedReads(c, g, f', h);
    if h in Present(f) {
      if ReadsAs(c, f, h, d) { ReadsOnce(c, f, h, d, g(h)); }
      if ReadsAs(c, f', h, d) { ReadsOnce(c, f', h, d, g(h)); }
    }
  }
}
