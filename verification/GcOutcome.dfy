/** What a completed sweep leaves, and when crashes are safe. */
module GcOutcome {
  import opened Bytes
  import opened Codecs
  import opened Disks
  import opened GcEvict
  import opened GcModel
  import opened GcPlanning
  import opened GcRewrite
  import opened GcSafety
  import opened Inventory
  import opened PackFormat
  import opened Sorting

  ghost function After(c: Codec, f: Files, live: set<Digest>, o: Options): Files {
    ApplyAll(f, SweepSteps(c, f, live, o))
  }

  lemma AfterEvicted(c: Codec, g: Contents, f: Files, live: set<Digest>, o: Options)
    requires Sweepable(c, g, f, live) && !o.mode.DryRun?
    ensures Evicted(Midway(c, f, live, o), After(c, f, live, o), o.mode, VictimsOf(f, live, o))
    ensures Rewritten(c, g, f, Midway(c, f, live, o), Executed(f, live, o))
  {
    hide ParseIndex, ReadBlob, PlanOf, NewName, Victims, WellFormed, Ready, Rewritten, Evicted, SweepOutcome;
    SweepShape(c, g, f, live, o);
    MidwayRewritten(c, g, f, live, o);
    VictimsNoTrash(f, live, o.rewritePartialPacks);
    var f1 := Midway(c, f, live, o);
    EvictAll(f1, o.mode, VictimsOf(f, live, o));
    ApplyAllConcat(f, ReplacementSteps(c, g, Executed(f, live, o)), EvictPhase(f1, o.mode, VictimsOf(f, live, o)));
  }

  /** The packs a completed sweep leaves: replacements, packs without garbage,
      and with rewriting off the packs that were to be rewritten. */
  lemma AfterPack(c: Codec, g: Contents, f: Files, live: set<Digest>, o: Options, s: Name)
    requires Sweepable(c, g, f, live) && !o.mode.DryRun?
    requires Indexed(After(c, f, live, o), s)
    ensures Pack(s) !in VictimsOf(f, live, o) && Idx(s) !in VictimsOf(f, live, o)
    ensures (exists r :: r in Executed(f, live, o) && s == NewName(c, g, r) && HashesOf(After(c, f, live, o), s) == Elements(r.keep))
         || (&& Indexed(f, s) && HashesOf(After(c, f, live, o), s) == HashesOf(f, s)
             && (Healthy(f, live, s) || (!o.rewritePartialPacks && s in RewrittenPacks(PlanOf(f, live).packsToRewrite))))
  {
    hide ParseIndex, ReadBlob, PlanOf, NewName, Victims, WellFormed, SweepSteps, FirstPhase, Removals;
    var f1, f2 := Midway(c, f, live, o), After(c, f, live, o);
    AfterEvicted(c, g, f, live, o);
    assert SameAt(f1, f2, Pack(s)) && SameAt(f1, f2, Idx(s));
    SamePackHashes(f1, f2, s);
    if r :| r in Executed(f, live, o) && s == NewName(c, g, r) {
      assert HashesOf(f1, s) == Elements(r.keep);
    } else {
      assert SameAt(f, f1, Pack(s)) && SameAt(f, f1, Idx(s));
      SamePackHashes(f, f1, s);
      if !Healthy(f, live, s) {
        PlanFacts(f, live);
        assert Partial(f, live, s);
        VictimsExact(f, live, o.rewritePartialPacks, Pack(s));
        RemovalsExact(PlanOf(f, live), o.rewritePartialPacks, s);
      }
    }
  }

  lemma RemovalsExact(plan: SweepPlan, rewrite: bool, s: Name)
    ensures s in Removals(plan, rewrite) <==> s in plan.packsToRemove || (rewrite && s in RewrittenPacks(plan.packsToRewrite))
  {
  }

  lemma AfterLoose(c: Codec, g: Contents, f: Files, live: set<Digest>, o: Options, h: Digest)
    requires Sweepable(c, g, f, live) && !o.mode.DryRun?
    ensures Loose(h) in After(c, f, live, o) <==> Loose(h) in f && h in live
  {
    hide ParseIndex, ReadBlob, PlanOf, NewName, Victims, WellFormed, SweepSteps, FirstPhase, Removals;
    var f1, f2 := Midway(c, f, live, o), After(c, f, live, o);
    AfterEvicted(c, g, f, live, o);
    VictimsExact(f, live, o.rewritePartialPacks, Loose(h));
    assert SameAt(f, f1, Loose(h));
    if Loose(h) !in VictimsOf(f, live, o) {
      assert SameAt(f1, f2, Loose(h));
    }
  }

  /** A complete sweep touches no listed file but loose garbage. */
  lemma AfterListed(c: Codec, g: Contents, f: Files, live: set<Digest>, o: Options, p: Path)
    requires Sweepable(c, g, f, live) && !o.mode.DryRun?
    ensures p.Alias? || (p.Loose? && p.h in live) ==> SameAt(f, After(c, f, live, o), p)
  {
    hide ParseIndex, ReadBlob, PlanOf, NewName, Victims, WellFormed, SweepSteps, FirstPhase, Removals;
    AfterEvicted(c, g, f, live, o);
    VictimsExact(f, live, o.rewritePartialPacks, p);
    assert p.Alias? || p.Loose? ==> SameAt(f, Midway(c, f, live, o), p);
  }

  /* The hypothesis on orphan names is exactly what crash safety needs */

  /** An orphan under a replacement's name makes the sweep lose the objects of
      that replacement: phase 3 deletes one of its files, phase 4 the pack it
      replaced, and no other copy exists. */
  lemma CollisionLoses(c: Codec, g: Contents, f: Files, live: set<Digest>, o: Options, p: Path, r: Rewrite)
    requires Sweepable(c, g, f, live) && !o.mode.DryRun? && o.rewritePartialPacks
    requires Orphan(f, p) && r in PlanOf(f, live).packsToRewrite && p.stem == NewName(c, g, r)
    ensures r.keep != [] && r.keep[0] in live * Present(f) && r.keep[0] !in Present(After(c, f, live, o))
  {
    hide ParseIndex, ReadBlob, PlanOf, NewName, Victims, WellFormed, SweepSteps, FirstPhase, After;
    var f2 := After(c, f, live, o);
    PlanFacts(f, live);
    HealthyInExact(f, live, PackStates(f, Listing(f)));
    ListedHashesExact(f);
    LooseHashesExact(f);
    var h := r.keep[0];
    assert h in Elements(r.keep);
    HashesPresent(f, r.pack);
    PresentExact(f2);
    AfterLoose(c, g, f, live, o, h);
    if s :| Indexed(f2, s) && h in HashesOf(f2, s) {
      AfterPack(c, g, f, live, o, s);
      VictimsExact(f, live, o.rewritePartialPacks, p);
      if q :| q in Executed(f, live, o) && s == NewName(c, g, q) && HashesOf(f2, s) == Elements(q.keep) {
        SameRewrite(f, live, r, q, h);
        assert false;
      }
    }
  }

  lemma SameRewrite(f: Files, live: set<Digest>, r: Rewrite, q: Rewrite, h: Digest)
    requires r in PlanOf(f, live).packsToRewrite && q in PlanOf(f, live).packsToRewrite
    requires h in Elements(r.keep) && h in Elements(q.keep)
    ensures r == q
  {
    hide PlanOf;
    PlanFacts(f, live);
    var rs := PlanOf(f, live).packsToRewrite;
    var i :| 0 <= i < |rs| && rs[i] == r;
    var j :| 0 <= j < |rs| && rs[j] == q;
    DisjointOnce(rs, i, j, h);
  }

  lemma DisjointOnce(rs: seq<Rewrite>, i: nat, j: nat, h: Digest)
    requires PairwiseDisjoint(rs) && i < |rs| && j < |rs|
    requires h in Elements(rs[i].keep) && h in Elements(rs[j].keep)
    ensures i == j
  {
  }

  /** A shadowed object is lost with the last pack that holds it: the file that
      made it count as covered is none that a read of it finds. */
  lemma ShadowLoses(c: Codec, g: Contents, f: Files, live: set<Digest>, o: Options, h: Digest)
    requires Sweepable(c, g, f, live) && !o.mode.DryRun? && Shadowed(f, live, h)
    requires o.rewritePartialPacks || forall r | r in PlanOf(f, live).packsToRewrite :: h !in HashesOf(f, r.pack)
    ensures h in live * Present(f) && h !in Present(After(c, f, live, o))
  {
    hide ParseIndex, ReadBlob, PlanOf, NewName, Victims, WellFormed, SweepSteps, After, PlanFails, Indexed, HashesOf, Sweepable;
    var f2 := After(c, f, live, o);
    PresentExact(f);
    PresentExact(f2);
    AfterLoose(c, g, f, live, o, h);
    forall s | Indexed(f2, s) ensures h !in HashesOf(f2, s) {
      ShadowLeavesPack(c, g, f, live, o, h, s);
    }
    assert h in Present(f) by { assert exists s :: Indexed(f, s) && h in HashesOf(f, s); }
  }

  lemma ShadowLeavesPack(c: Codec, g: Contents, f: Files, live: set<Digest>, o: Options, h: Digest, s: Name)
    requires Sweepable(c, g, f, live) && !o.mode.DryRun? && Shadowed(f, live, h)
    requires o.rewritePartialPacks || forall r | r in PlanOf(f, live).packsToRewrite :: h !in HashesOf(f, r.pack)
    requires Indexed(After(c, f, live, o), s)
    ensures h !in HashesOf(After(c, f, live, o), s)
  {
    hide ParseIndex, ReadBlob, PlanOf, NewName, Victims, WellFormed, SweepSteps, After, PlanFails, Indexed, HashesOf, Sweepable;
    var f2, rs := After(c, f, live, o), PlanOf(f, live).packsToRewrite;
    PlanFacts(f, live);
    AfterPack(c, g, f, live, o, s);
    if r :| r in Executed(f, live, o) && s == NewName(c, g, r) && HashesOf(f2, s) == Elements(r.keep) {
      assert h !in Elements(r.keep);
    } else if !Healthy(f, live, s) {
      var i :| 0 <= i < |rs| && rs[i].pack == s;
      assert rs[i] in rs;
    }
  }

  /** No crash point of the sweep loses a live object. */
  ghost predicate SafeThroughout(c: Codec, f: Files, live: set<Digest>, o: Options) {
    forall k | 0 <= k <= |SweepSteps(c, f, live, o)| ::
      live * Present(f) <= Present(ApplyAll(f, SweepSteps(c, f, live, o)[..k]))
  }

  /** Crash safety, exactly: a sweep loses no live object at any crash point if
      and only if it is a dry run, or its plan fails, or no live object is
      shadowed (with rewriting off: unless a spared pack holds it) and, with
      rewriting on, no orphan carries a replacement's name. For every truthful
      tree, live set and options. */
  lemma CrashSafeExactly(c: Codec, g: Contents, f: Files, live: set<Digest>, o: Options)
    requires Truthful(c, g, f, live)
    ensures SafeThroughout(c, f, live, o) <==> Harmless(c, g, f, live, o)
  {
    hide ParseIndex, ReadBlob, PlanOf, NewName, WellFormed, SweepSteps, Present, ApplyAll, Executed, Truthful, Shadowed, PlanFails;
    var steps := SweepSteps(c, f, live, o);
    if Harmless(c, g, f, live, o) {
      forall k | 0 <= k <= |steps| ensures live * Present(f) <= Present(ApplyAll(f, steps[..k])) {
        CrashSafe(c, g, f, live, o, k);
      }
    } else {
      var h := SomethingLost(c, g, f, live, o);
      assert steps[..|steps|] == steps;
      assert h in live * Present(f);
    }
  }

  lemma SomethingLost(c: Codec, g: Contents, f: Files, live: set<Digest>, o: Options) returns (h: Digest)
    requires Truthful(c, g, f, live) && !Harmless(c, g, f, live, o)
    ensures h in live * Present(f) && h !in Present(After(c, f, live, o))
  {
    hide ParseIndex, ReadBlob, PlanOf, NewName, WellFormed, SweepSteps, Present, After, Truthful, Shadowed, PlanFails, HashesOf;
    if !Unshadowed(f, live, o) {
      h :| Shadowed(f, live, h) && (o.rewritePartialPacks || forall r | r in PlanOf(f, live).packsToRewrite :: h !in HashesOf(f, r.pack));
      ShadowLoses(c, g, f, live, o, h);
    } else {
      var p, r :| Orphan(f, p) && r in PlanOf(f, live).packsToRewrite && p.stem == NewName(c, g, r);
      CollisionLoses(c, g, f, live, o, p, r);
      h := r.keep[0];
    }
  }

  /* The objects a completed sweep leaves */

  ghost function RetainedHashes(f: Files, live: set<Digest>): set<Digest> {
    set r, h | r in PlanOf(f, live).packsToRewrite && h in HashesOf(f, r.pack) :: h
  }

  /** A completed sweep that rewrites leaves exactly the live objects that were
      present; one that does not leaves these and what the partial packs it
      spares hold. */
  lemma SweepLeaves(c: Codec, g: Contents, f: Files, live: set<Digest>, o: Options)
    requires Sweepable(c, g, f, live) && !o.mode.DryRun? && Harmless(c, g, f, live, o)
    ensures WellFormed(c, g, After(c, f, live, o))
    ensures AllIndexed(f) ==> AllIndexed(After(c, f, live, o))
    ensures o.rewritePartialPacks ==> Present(After(c, f, live, o)) == live * Present(f)
    ensures !o.rewritePartialPacks ==> Present(After(c, f, live, o)) == live * Present(f) + RetainedHashes(f, live)
  {
    hide ParseIndex, ReadBlob, PlanOf, NewName, WellFormed, SweepSteps, After, Present;
    var steps, f2 := SweepSteps(c, f, live, o), After(c, f, live, o);
    assert f2 == ApplyAll(f, steps[..|steps|]) by { AfterIsAll(c, f, live, o); }
    CrashSafe(c, g, f, live, o, |steps|);
    forall h | h in Present(f2)
      ensures h in live || (!o.rewritePartialPacks && h in RetainedHashes(f, live))
    {
      AfterHolds(c, g, f, live, o, h);
    }
    if !o.rewritePartialPacks {
      forall r | r in PlanOf(f, live).packsToRewrite ensures HashesOf(f, r.pack) <= Present(f2) {
        RetainedStays(c, g, f, live, o, r);
      }
    }
  }

  lemma AfterIsAll(c: Codec, f: Files, live: set<Digest>, o: Options)
    ensures After(c, f, live, o) == ApplyAll(f, SweepSteps(c, f, live, o)[..|SweepSteps(c, f, live, o)|])
  {
    var steps := SweepSteps(c, f, live, o);
    assert steps[..|steps|] == steps;
  }

  lemma AfterHolds(c: Codec, g: Contents, f: Files, live: set<Digest>, o: Options, h: Digest)
    requires Sweepable(c, g, f, live) && !o.mode.DryRun?
    requires h in Present(After(c, f, live, o))
    ensures h in live || (!o.rewritePartialPacks && h in RetainedHashes(f, live))
  {
    hide ParseIndex, ReadBlob, PlanOf, NewName, WellFormed, SweepSteps, After, HashesOf, Indexed, Sweepable, Present;
    var f2 := After(c, f, live, o);
    PresentExact(f2);
    PlanFacts(f, live);
    if Loose(h) in f2 {
      AfterLoose(c, g, f, live, o, h);
    } else {
      var s :| Indexed(f2, s) && h in HashesOf(f2, s);
      AfterPack(c, g, f, live, o, s);
      if r :| r in Executed(f, live, o) && s == NewName(c, g, r) && HashesOf(f2, s) == Elements(r.keep) {
        assert h in Elements(r.keep);
      } else if !Healthy(f, live, s) {
        var rs := PlanOf(f, live).packsToRewrite;
        var i :| 0 <= i < |rs| && rs[i].pack == s;
        assert rs[i] in rs;
      }
    }
  }

  lemma RetainedStays(c: Codec, g: Contents, f: Files, live: set<Digest>, o: Options, r: Rewrite)
    requires Sweepable(c, g, f, live) && !o.mode.DryRun? && !o.rewritePartialPacks
    requires r in PlanOf(f, live).packsToRewrite
    ensures Indexed(After(c, f, live, o), r.pack)
    ensures HashesOf(After(c, f, live, o), r.pack) == HashesOf(f, r.pack) <= Present(After(c, f, live, o))
  {
    hide ParseIndex, ReadBlob, PlanOf, NewName, WellFormed, SweepSteps, Victims;
    PlanFacts(f, live);
    assert Survivor(c, g, f, live, o, r.pack);
    SpareStays(c, g, f, live, o, r.pack);
    HashesPresent(After(c, f, live, o), r.pack);
  }

  /** A pack of the original tree that is no victim comes through unchanged. */
  lemma SpareStays(c: Codec, g: Contents, f: Files, live: set<Digest>, o: Options, s: Name)
    requires Sweepable(c, g, f, live) && !o.mode.DryRun?
    requires o.rewritePartialPacks ==> NamesFree(c, g, f, live)
    requires Indexed(f, s) && Survivor(c, g, f, live, o, s)
    ensures SamePack(f, After(c, f, live, o), s)
    ensures Indexed(After(c, f, live, o), s)
    ensures HashesOf(After(c, f, live, o), s) == HashesOf(f, s)
  {
    hide ParseIndex, ReadBlob, PlanOf, NewName, WellFormed, SweepSteps, Victims, Survivor, NamesFree, FirstPhase;
    var f1, f2 := Midway(c, f, live, o), After(c, f, live, o);
    SurvivorSpared(c, g, f, live, o, s);
    AfterEvicted(c, g, f, live, o);
    assert SamePack(f, f1, s);
    assert SameAt(f1, f2, Pack(s)) && SameAt(f1, f2, Idx(s));
    SamePackHashes(f, f2, s);
  }

  /* Packs whose index does not load */

  /** Such a pack comes through a sweep untouched, whatever it holds, unless it
      bears the name of a replacement: then its two files are overwritten by the
      new pair. */
  lemma UnreadablePackTouchedExactly(c: Codec, g: Contents, f: Files, live: set<Digest>, o: Options, s: Name)
    requires Sweepable(c, g, f, live) && !o.mode.DryRun?
    requires Paired(f, s) && !Indexed(f, s)
    ensures SamePack(f, After(c, f, live, o), s) <==> forall r | r in Executed(f, live, o) :: NewName(c, g, r) != s
  {
    hide ParseIndex, ReadBlob, PlanOf, NewName, WellFormed, SweepSteps, Victims, FirstPhase, After, Midway, Executed;
    var f1, f2 := Midway(c, f, live, o), After(c, f, live, o);
    AfterEvicted(c, g, f, live, o);
    VictimsExact(f, live, o.rewritePartialPacks, Pack(s));
    VictimsExact(f, live, o.rewritePartialPacks, Idx(s));
    if s in Removals(PlanOf(f, live), o.rewritePartialPacks) {
      RemovalIsPartial(f, live, o.rewritePartialPacks, s);
    }
    assert SameAt(f1, f2, Pack(s)) && SameAt(f1, f2, Idx(s));
    if forall r | r in Executed(f, live, o) :: NewName(c, g, r) != s {
      assert SameAt(f, f1, Pack(s)) && SameAt(f, f1, Idx(s));
    }
  }

  /** So all indexes load after a complete sweep exactly when those that did not
      bore the names of replacements. */
  lemma SweepLoadsExactly(c: Codec, g: Contents, f: Files, live: set<Digest>, o: Options)
    requires Sweepable(c, g, f, live) && !o.mode.DryRun?
    ensures AllIndexed(After(c, f, live, o)) <==>
            forall s | Paired(f, s) && !Indexed(f, s) :: exists r :: r in Executed(f, live, o) && NewName(c, g, r) == s
  {
    hide ParseIndex, ReadBlob, PlanOf, NewName, WellFormed, SweepSteps, Victims, FirstPhase, After, Midway, Executed, HashesOf;
    var rs, f1, f2 := Executed(f, live, o), Midway(c, f, live, o), After(c, f, live, o);
    AfterEvicted(c, g, f, live, o);
    if AllIndexed(f2) {
      forall s | Paired(f, s) && !Indexed(f, s) ensures exists r :: r in rs && NewName(c, g, r) == s {
        UnreadablePackTouchedExactly(c, g, f, live, o, s);
        if SamePack(f, f2, s) { SamePackHashes(f, f2, s); }
      }
    }
    if forall s | Paired(f, s) && !Indexed(f, s) :: exists r :: r in rs && NewName(c, g, r) == s {
      forall s | Paired(f2, s) ensures Indexed(f2, s) {
        assert SameAt(f1, f2, Pack(s)) && SameAt(f1, f2, Idx(s));
        SamePackHashes(f1, f2, s);
        if !exists r :: r in rs && NewName(c, g, r) == s {
          assert SameAt(f, f1, Pack(s)) && SameAt(f, f1, Idx(s));
          SamePackHashes(f, f1, s);
        }
      }
    }
  }
}
