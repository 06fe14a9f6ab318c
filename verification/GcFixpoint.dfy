/** Sweeping again finds nothing new to do. */
module GcFixpoint {
  import opened Bytes
  import opened Codecs
  import opened Disks
  import opened GcConverge
  import opened GcEvict
  import opened GcModel
  import opened GcOutcome
  import opened GcPlanning
  import opened GcReplan
  import opened GcRewrite
  import opened GcSafety
  import opened Inventory
  import opened PackFormat
  import opened Sorting

  /* The inventory of the swept tree, when nothing is rewritten */

  lemma HealthyUnchanged(c: Codec, g: Contents, f: Files, live: set<Digest>, o: Options)
    requires Sweepable(c, g, f, live) && !o.mode.DryRun? && !o.rewritePartialPacks
    ensures HealthyIn(After(c, f, live, o), live) == HealthyIn(f, live)
  {
    hide ParseIndex, ReadBlob, PlanOf, NewName, WellFormed, After, Sweepable;
    var f2 := After(c, f, live, o);
    HealthyInExact(f, live, PackStates(f, Listing(f)));
    HealthyInExact(f2, live, PackStates(f2, Listing(f2)));
    forall h | h in HealthyIn(f, live) ensures h in HealthyIn(f2, live) {
      var s :| Healthy(f, live, s) && h in HashesOf(f, s);
      SpareStays(c, g, f, live, o, s);
    }
    forall h | h in HealthyIn(f2, live) ensures h in HealthyIn(f, live) {
      var s :| Healthy(f2, live, s) && h in HashesOf(f2, s);
      AfterPack(c, g, f, live, o, s);
    }
  }

  lemma SurvivingPacks(c: Codec, g: Contents, f: Files, live: set<Digest>, o: Options, s: Name)
    requires Sweepable(c, g, f, live) && !o.mode.DryRun? && !o.rewritePartialPacks
    ensures Indexed(After(c, f, live, o), s) <==> Indexed(f, s) && s !in PlanOf(f, live).packsToRemove
    ensures Indexed(After(c, f, live, o), s) ==> HashesOf(After(c, f, live, o), s) == HashesOf(f, s)
  {
    hide ParseIndex, ReadBlob, PlanOf, NewName, WellFormed, After, Sweepable;
    var f2, plan := After(c, f, live, o), PlanOf(f, live);
    PlanFacts(f, live);
    if Indexed(f2, s) {
      AfterPack(c, g, f, live, o, s);
      if s in plan.packsToRemove { RemovedNotRewritten(f, live, s); }
    }
    if Indexed(f, s) && s !in plan.packsToRemove {
      if !Healthy(f, live, s) {
        assert Partial(f, live, s);
        var i :| 0 <= i < |plan.packsToRewrite| && plan.packsToRewrite[i].pack == s;
        assert plan.packsToRewrite[i] in plan.packsToRewrite;
      }
      SpareStays(c, g, f, live, o, s);
    }
  }

  lemma SamePlan(c: Codec, g: Contents, f: Files, live: set<Digest>, o: Options)
    requires Sweepable(c, g, f, live) && !o.mode.DryRun? && !o.rewritePartialPacks
    ensures DecisionOf(After(c, f, live, o), live) == Decision([], DecisionOf(f, live).rewrite)
  {
    hide ParseIndex, ReadBlob, NewName, WellFormed, After, Sweepable, Indexed, HashesOf, Decide, PackStates;
    var f2 := After(c, f, live, o);
    var packs, packs2 := PackStates(f, Listing(f)), PackStates(f2, Listing(f2));
    var covered := ListedHashes(f) * live + HealthyHashes(packs, live);
    var removed := Decide(packs, live, covered).remove;
    var kept := set p | p in packs && p.stem !in removed;
    StrictDistinct(Listing(f), StemKey);
    StrictDistinct(Listing(f2), StemKey);
    PackStatesExact(f, Listing(f));
    PackStatesExact(f2, Listing(f2));
    PackStatesSorted(f, Listing(f));
    PackStatesSorted(f2, Listing(f2));
    FilterStrict(packs, kept, PackKey);
    forall p: PackState ensures p in Filter(packs, kept) <==> p in packs2 {
      SurvivingPacks(c, g, f, live, o, p.stem);
      IndexedListed(f, p.stem);
      IndexedListed(f2, p.stem);
    }
    StrictUnique(Filter(packs, kept), packs2, PackKey);
    DecideWithoutRemoved(packs, kept, live, covered);
    assert forall s :: s !in Decide(Filter(packs, kept), live, covered).remove;
    FirstIn(Decide(Filter(packs, kept), live, covered).remove);
    SameCovered(c, g, f, live, o);
  }

  lemma SameCovered(c: Codec, g: Contents, f: Files, live: set<Digest>, o: Options)
    requires Sweepable(c, g, f, live) && !o.mode.DryRun? && !o.rewritePartialPacks
    ensures var f2 := After(c, f, live, o);
            ListedHashes(f2) * live + HealthyHashes(PackStates(f2, Listing(f2)), live) ==
            ListedHashes(f) * live + HealthyHashes(PackStates(f, Listing(f)), live)
  {
    hide ParseIndex, ReadBlob, NewName, WellFormed, After, Sweepable, Indexed, HashesOf, PackStates, HealthyIn, HealthyHashes, PlanOf;
    var f2 := After(c, f, live, o);
    HealthyUnchanged(c, g, f, live, o);
    HealthyInExact(f, live, PackStates(f, Listing(f)));
    HealthyInExact(f2, live, PackStates(f2, Listing(f2)));
    SameListed(c, g, f, live, o);
  }

  lemma SameListed(c: Codec, g: Contents, f: Files, live: set<Digest>, o: Options)
    requires Sweepable(c, g, f, live) && !o.mode.DryRun?
    ensures ListedHashes(After(c, f, live, o)) * live == ListedHashes(f) * live
  {
    hide ParseIndex, ReadBlob, NewName, WellFormed, After, Sweepable, PlanOf;
    var f2 := After(c, f, live, o);
    ListedHashesExact(f);
    ListedHashesExact(f2);
    forall h: Digest | h in live ensures h in ListedHashes(f2) <==> h in ListedHashes(f) {
      if p :| p in f && Names(p, h) {
        AfterListed(c, g, f, live, o, p);
        assert p in f2 && Names(p, h);
      }
      if p :| p in f2 && Names(p, h) {
        AfterListed(c, g, f, live, o, p);
        assert p in f && Names(p, h);
      }
    }
  }

  /** A completed sweep leaves no orphan. */
  lemma AfterNoOrphans(c: Codec, g: Contents, f: Files, live: set<Digest>, o: Options, p: Path)
    requires Sweepable(c, g, f, live) && !o.mode.DryRun?
    requires o.rewritePartialPacks ==> NamesFree(c, g, f, live)
    ensures !Orphan(After(c, f, live, o), p)
  {
    hide ParseIndex, ReadBlob, PlanOf, NewName, WellFormed, SweepSteps, FirstPhase, Victims, Ready, Rewritten, After;
    var f1, f2 := Midway(c, f, live, o), After(c, f, live, o);
    AfterEvicted(c, g, f, live, o);
    MidwayRewritten(c, g, f, live, o);
    AllPairsNoOrphans(c, g, f, Executed(f, live, o));
    if Orphan(f2, p) {
      var q := Partner(p);
      VictimsExact(f, live, o.rewritePartialPacks, p);
      VictimsExact(f, live, o.rewritePartialPacks, q);
      assert SameAt(f1, f2, p);
      if q in f1 {
        assert q !in VictimsOf(f, live, o) ==> SameAt(f1, f2, q);
        assert Orphan(f, q);
        NoPartnerAppears(c, g, f, live, o, q);
      }
    }
  }

  /** After a completed sweep planning fails if and only if some alias names a
      digest that is not live: its loose file, which the first plan could ask
      for, is swept, and the alias is not. */
  lemma PlanFailsAgainExactly(c: Codec, g: Contents, f: Files, live: set<Digest>, o: Options)
    requires Sweepable(c, g, f, live) && !o.mode.DryRun?
    ensures PlanFails(After(c, f, live, o), live) <==> exists p :: p in f && p.Alias? && p.h !in live
  {
    hide ParseIndex, ReadBlob, NewName, WellFormed, After, Sweepable, PlanOf;
    var f2 := After(c, f, live, o);
    ListedHashesExact(f2);
    LooseHashesExact(f2);
    if p :| p in f && p.Alias? && p.h !in live {
      AfterListed(c, g, f, live, o, p);
      AfterLoose(c, g, f, live, o, p.h);
      assert p in f2 && Names(p, p.h);
    }
    if PlanFails(f2, live) {
      var h :| h in ListedHashes(f2) - live && h !in LooseHashes(f2);
      var p :| p in f2 && Names(p, h);
      AfterListed(c, g, f, live, o, p);
    }
  }

  /** Planning again after a completed sweep, with the same live set: no loose
      garbage, no pack to remove, no orphan. With rewriting on there is also no
      garbage at all and no pack to rewrite; with rewriting off the packs to
      rewrite, and what to keep of each, are the same as before. */
  lemma SweepIsFixpoint(c: Codec, g: Contents, f: Files, live: set<Digest>, o: Options)
    requires Sweepable(c, g, f, live) && !o.mode.DryRun? && Harmless(c, g, f, live, o)
    requires forall p | p in f && p.Alias? :: p.h in live
    ensures var again := PlanOf(After(c, f, live, o), live);
            && again.looseGarbage == []
            && again.packsToRemove == []
            && again.orphanFiles == []
            && (o.rewritePartialPacks ==> again.packsToRewrite == [] && CensusOf(After(c, f, live, o), live).garbage == 0)
            && (!o.rewritePartialPacks ==> again.packsToRewrite == PlanOf(f, live).packsToRewrite)
  {
    hide ParseIndex, ReadBlob, NewName, WellFormed, After, Truthful, Indexed, HashesOf, DecisionOf, NamesFree, PackedHashes, SumSizes, Unreadable, Unshadowed, PlanFails;
    var f2 := After(c, f, live, o);
    var again := PlanOf(f2, live);
    NoLooseGarbage(c, g, f, live, o);
    if |again.orphanFiles| > 0 {
      assert again.orphanFiles[0] in again.orphanFiles;
      AfterNoOrphans(c, g, f, live, o, again.orphanFiles[0]);
    }
    if o.rewritePartialPacks {
      SweepLeaves(c, g, f, live, o);
      SweepableTwice(c, g, f, live, o);
      assert Scanned(f2) - live == {};
      NothingPartial(c, g, f, live, o);
    } else {
      SamePlan(c, g, f, live, o);
    }
  }

  /** Then nothing that is not live is listed. */
  lemma SweepableTwice(c: Codec, g: Contents, f: Files, live: set<Digest>, o: Options)
    requires Sweepable(c, g, f, live) && !o.mode.DryRun?
    requires forall p | p in f && p.Alias? :: p.h in live
    ensures ListedHashes(After(c, f, live, o)) <= live
  {
    hide ParseIndex, ReadBlob, NewName, WellFormed, After, Sweepable, PlanOf;
    var f2 := After(c, f, live, o);
    ListedHashesExact(f2);
    forall h | h in ListedHashes(f2) ensures h in live {
      var p :| p in f2 && Names(p, h);
      AfterListed(c, g, f, live, o, p);
      AfterLoose(c, g, f, live, o, h);
    }
  }

  lemma NoLooseGarbage(c: Codec, g: Contents, f: Files, live: set<Digest>, o: Options)
    requires Sweepable(c, g, f, live) && !o.mode.DryRun?
    requires forall p | p in f && p.Alias? :: p.h in live
    ensures LooseGarbage(After(c, f, live, o), live) == []
  {
    hide ParseIndex, ReadBlob, NewName, WellFormed, After, Sweepable, PlanOf;
    var hs := LooseGarbage(After(c, f, live, o), live);
    SweepableTwice(c, g, f, live, o);
    FirstIn(hs);
  }

  lemma NothingPartial(c: Codec, g: Contents, f: Files, live: set<Digest>, o: Options)
    requires Sweepable(c, g, f, live) && !o.mode.DryRun? && o.rewritePartialPacks && Harmless(c, g, f, live, o)
    ensures DecisionOf(After(c, f, live, o), live) == Decision([], [])
  {
    hide ParseIndex, ReadBlob, NewName, WellFormed, After, Sweepable, Harmless, DecisionOf;
    var f2 := After(c, f, live, o);
    var d := DecisionOf(f2, live);
    SweepLeaves(c, g, f, live, o);
    PlanFacts(f2, live);
    if |d.remove| > 0 {
      assert d.remove[0] in d.remove;
      HashesPresent(f2, d.remove[0]);
    }
    if |d.rewrite| > 0 {
      assert d.rewrite[0] in d.rewrite;
      HashesPresent(f2, d.rewrite[0].pack);
    }
  }
}
