/** Where a sweep of a damaged tree finds the content of a live digest. */
module DamagedCopies {
  import opened Bytes
  import opened Codecs
  import opened Damage
  import opened Disks
  import opened GcEvict
  import opened GcModel
  import opened GcOutcome
  import opened GcPlanning
  import opened GcRewrite
  import opened GcSafety
  import opened Inventory
  import opened PackFormat
  import opened Sorting
  import opened SweepFailure

  ghost predicate GoodFile(c: Codec, g: Contents, f: Files, h: Digest) {
    Loose(h) in f && Decode(c, f[Loose(h)]) == Ok(g(h))
  }

  /** The content is somewhere: reads need not find it while other files are in the
      way. */
  ghost predicate HasCopy(c: Codec, g: Contents, f: Files, h: Digest) {
    GoodFile(c, g, f, h) || exists s :: GoodRecord(c, g, f, s, h)
  }

  /** There is a good copy where a sweep of live digests leaves it: in a loose file,
      in a pack without garbage, or in a pack that is to be rewritten, and there it is
      copied, or with rewriting off spared. */
  ghost predicate CopyStays(c: Codec, g: Contents, f: Files, live: set<Digest>, o: Options, h: Digest) {
    || GoodFile(c, g, f, h)
    || (exists s :: Healthy(f, live, s) && GoodRecord(c, g, f, s, h))
    || (exists r :: r in PlanOf(f, live).packsToRewrite && if o.rewritePartialPacks then h in r.keep else GoodRecord(c, g, f, r.pack, h))
  }

  lemma FollowedRecord(c: Codec, g: Contents, f: Files, f': Files, e: Files, e': Files, s: Name, h: Digest)
    requires Follows(f, f', e, e') && WellFormed(c, g, e) && Indexed(e, s) && h in HashesOf(e, s)
    requires SamePack(f, e, s) ==> GoodRecord(c, g, f', s, h)
    ensures GoodRecord(c, g, e', s, h)
  {
    hide ParseIndex, ReadBlob, WellFormed;
    FollowedPacks(f, f', e, e');
    SameKeys(e, e');
    PackContent(c, g, e, s, h);
    if e'[Pack(s)] != e[Pack(s)] {
      SamePackHashes(f', e', s);
    }
  }

  lemma FollowedFile(c: Codec, g: Contents, f: Files, f': Files, e: Files, e': Files, h: Digest)
    requires Damaged(f, f') && Follows(f, f', e, e')
    ensures GoodFile(c, g, e', h) ==> GoodFile(c, g, f', h)
    ensures GoodFile(c, g, f', h) && Loose(h) in e ==> GoodFile(c, g, e', h)
  {
    SameKeys(f, f');
    SameKeys(e, e');
  }

  /** Wherever phase 1 stops, a good copy is where it was. */
  lemma PhaseOneCopy(c: Codec, g: Contents, f: Files, f': Files, e: Files, e': Files, h: Digest)
    requires Damaged(f, f') && Follows(f, f', e, e') && Unharmed(c, g, f, e) && HasCopy(c, g, f', h)
    ensures HasCopy(c, g, e', h)
  {
    hide ParseIndex, ReadBlob, Decode, Damaged, Follows, WellFormed, Present;
    DamagedKeys(f, f');
    SameKeys(f, f');
    if GoodFile(c, g, f', h) {
      assert SameAt(f, e, Loose(h));
      FollowedFile(c, g, f, f', e, e', h);
    } else {
      var s :| GoodRecord(c, g, f', s, h);
      DamagedPacks(f, f');
      SamePackHashes(f, e, s);
      FollowedRecord(c, g, f, f', e, e', s, h);
    }
  }

  /** A pack that phases 2 to 4 spare. */
  lemma SparedRecord(c: Codec, g: Contents, f: Files, f': Files, f1: Files, e: Files, e': Files, victims: seq<Path>, s: Name, h: Digest)
    requires Follows(f, f', e, e') && WellFormed(c, g, e) && Pruned(f1, e, victims)
    requires Pack(s) !in victims && Idx(s) !in victims && Indexed(f1, s) && h in HashesOf(f1, s)
    requires SamePack(f, f1, s) ==> GoodRecord(c, g, f', s, h)
    ensures HasCopy(c, g, e', h)
  {
    hide ParseIndex, ReadBlob, Decode, WellFormed, Follows, GoodRecord;
    assert SamePack(f1, e, s);
    SamePackHashes(f1, e, s);
    FollowedRecord(c, g, f, f', e, e', s, h);
  }

  /** Where a sweep finds its copy when it starts to delete. */
  lemma CopyPlace(c: Codec, g: Contents, f: Files, f': Files, live: set<Digest>, o: Options, h: Digest) returns (s: Name)
    requires Sweepable(c, g, f, live) && !o.mode.DryRun? && Damaged(f, f')
    requires CopyStays(c, g, f', live, o, h) && !GoodFile(c, g, f', h)
    ensures var f1 := Midway(c, f, live, o);
            && Survivor(c, g, f, live, o, s) && Indexed(f1, s) && h in HashesOf(f1, s)
            && (SamePack(f, f1, s) ==> GoodRecord(c, g, f', s, h))
  {
    hide ParseIndex, ReadBlob, PlanOf, NewName, WellFormed, FirstPhase, Midway, Damaged, HashesOf, Indexed, Ready, Present;
    var f1, rs := Midway(c, f, live, o), PlanOf(f, live).packsToRewrite;
    MidwayRewritten(c, g, f, live, o);
    DamagedPlan(f, f', live);
    DamagedPacks(f, f');
    if s0 :| Healthy(f', live, s0) && GoodRecord(c, g, f', s0, h) {
      s := s0;
      SamePackHashes(f, f1, s);
    } else {
      var r :| r in rs && if o.rewritePartialPacks then h in r.keep else GoodRecord(c, g, f', r.pack, h);
      if o.rewritePartialPacks {
        s := NewName(c, g, r);
        NewIsUnread(c, g, f, live, r);
        assert h in Elements(r.keep);
        if SamePack(f, f1, s) { SamePackHashes(f, f1, s); }
      } else {
        s := r.pack;
        PlanFacts(f, live);
        SamePackHashes(f, f1, s);
      }
    }
  }

  lemma NewIsUnread(c: Codec, g: Contents, f: Files, live: set<Digest>, r: Rewrite)
    requires Sweepable(c, g, f, live) && r in PlanOf(f, live).packsToRewrite
    ensures !Indexed(f, NewName(c, g, r))
  {
    hide PlanOf, NewName;
    PlanReady(c, g, f, live);
  }

  /** A crash point is in phase 1, where nothing that was readable has changed, or
      after it. */
  lemma CutEarlyOrLate(c: Codec, g: Contents, f: Files, live: set<Digest>, o: Options, k: nat, torn: Option<nat>)
    requires Sweepable(c, g, f, live) && (o.rewritePartialPacks ==> NamesFree(c, g, f, live)) && k <= |SweepSteps(c, f, live, o)|
    ensures var steps := SweepSteps(c, f, live, o); var e := ApplyAll(f, Cut(steps, k, torn));
            if k <= |ReplacementSteps(c, g, Executed(f, live, o))| then Unharmed(c, g, f, e)
            else WellFormed(c, g, e) && !o.mode.DryRun? && Pruned(Midway(c, f, live, o), e, VictimsOf(f, live, o))
  {
    hide Sweepable, SweepSteps, PlanOf, Safe, NamesFree, AllIndexed, Cut, ReplacementSteps, Executed, EvictPhase, Pruned, Unharmed, WellFormed;
    var steps := SweepSteps(c, f, live, o);
    CutTree(f, steps, k, torn);
    SweepableTruthful(c, g, f, live);
    if o.mode.DryRun? {
      DryRunIdle(c, f, live, o);
      UnharmedAtOnce(c, g, f);
    } else {
      SweepShape(c, g, f, live, o);
      MidwayRewritten(c, g, f, live, o);
      NamesFreeNoStray(c, g, f, live, o);
      EvictWritesNothing(Midway(c, f, live, o), o.mode, VictimsOf(f, live, o));
      if k <= |ReplacementSteps(c, g, Executed(f, live, o))| {
        StopsRewriting(c, g, f, live, o, k);
        PhaseOneSafe(c, g, f, Executed(f, live, o), k);
        if TearsAt(steps, k, torn) {
          PhaseOneTornSafe(c, g, f, Executed(f, live, o), k, torn.value);
        }
      } else {
        StopsEvicting(c, g, f, live, o, k);
        PrunedTruthful(c, g, f, live, o, ApplyAll(f, steps[..k]));
      }
    }
  }

  lemma PrunedTruthful(c: Codec, g: Contents, f: Files, live: set<Digest>, o: Options, e: Files)
    requires Sweepable(c, g, f, live) && Pruned(Midway(c, f, live, o), e, VictimsOf(f, live, o))
    ensures WellFormed(c, g, e)
  {
    hide Sweepable, PlanOf, Executed, VictimsOf, Midway, WellFormed;
    MidwayRewritten(c, g, f, live, o);
    WithinWellFormed(c, g, e, Midway(c, f, live, o));
  }

  /** A live digest with a copy that the sweep leaves has one wherever the sweep
      stops. */
  lemma DamagedCopyKept(c: Codec, g: Contents, f: Files, f': Files, live: set<Digest>, o: Options, k: nat, torn: Option<nat>, h: Digest)
    requires Truthful(c, g, f, live) && (o.rewritePartialPacks ==> NamesFree(c, g, f, live))
    requires Damaged(f, f') && ReadsTruthfully(c, g, f')
    requires k <= |SweepSteps(c, f', live, o)| && h in live && HasCopy(c, g, f', h) && CopyStays(c, g, f', live, o, h)
    ensures HasCopy(c, g, ApplyAll(f', Cut(SweepSteps(c, f', live, o), k, torn)), h)
  {
    hide Damaged, ReadsTruthfully, PlanFails, NamesFree, SweepSteps, Follows, PackFirst, Cut, AllIndexed, WellFormed, TearsAt, Truthful, CopyStays, HasCopy, Survivor, Indexed, HashesOf;
    DamagedPlan(f, f', live);
    if PlanFails(f, live) {
      PlanFailsIdle(c, f', live, o);
      NothingCut(f', SweepSteps(c, f', live, o), k, torn);
    } else {
      IsSweepable(c, g, f, live);
      DamagedSteps(c, g, f, f', live, o);
      var t := CutOfPrefix(SweepSteps(c, f, live, o), SweepSteps(c, f', live, o), k, torn);
      var cut := Cut(SweepSteps(c, f, live, o), k, t);
      var e, e' := ApplyAll(f, cut), ApplyAll(f', cut);
      CutFollows(c, g, f, f', live, o, k, t);
      CutEarlyOrLate(c, g, f, live, o, k, t);
      if k <= |ReplacementSteps(c, g, Executed(f, live, o))| {
        PhaseOneCopy(c, g, f, f', e, e', h);
      } else if GoodFile(c, g, f', h) {
        DamagedKeys(f, f');
        SameKeys(f, f');
        SpareLoose(c, g, f, live, o, e, h);
        FollowedFile(c, g, f, f', e, e', h);
        assert HasCopy(c, g, e', h) by { FileIsCopy(c, g, e', h); }
      } else {
        var s := CopyPlace(c, g, f, f', live, o, h);
        SurvivorSpared(c, g, f, live, o, s);
        SparedRecord(c, g, f, f', Midway(c, f, live, o), e, e', VictimsOf(f, live, o), s, h);
      }
    }
  }

  lemma FileIsCopy(c: Codec, g: Contents, f: Files, h: Digest)
    requires GoodFile(c, g, f, h)
    ensures HasCopy(c, g, f, h)
  {
  }

  lemma SpareLoose(c: Codec, g: Contents, f: Files, live: set<Digest>, o: Options, e: Files, h: Digest)
    requires Sweepable(c, g, f, live) && Pruned(Midway(c, f, live, o), e, VictimsOf(f, live, o)) && h in live && Loose(h) in f
    ensures Loose(h) in e
  {
    hide PlanOf, Victims, WellFormed, FirstPhase, Midway, NewName;
    MidwayRewritten(c, g, f, live, o);
    VictimsExact(f, live, o.rewritePartialPacks, Loose(h));
    assert SameAt(f, Midway(c, f, live, o), Loose(h));
  }

  lemma CutFollows(c: Codec, g: Contents, f: Files, f': Files, live: set<Digest>, o: Options, k: nat, torn: Option<nat>)
    requires Sweepable(c, g, f, live) && Damaged(f, f') && k <= |SweepSteps(c, f, live, o)|
    ensures var cut := Cut(SweepSteps(c, f, live, o), k, torn);
            PackFirst(cut) && Follows(f, f', ApplyAll(f, cut), ApplyAll(f', cut))
  {
    hide Sweepable, SweepSteps, PackFirst, Cut, Damaged, Follows;
    var steps := SweepSteps(c, f, live, o);
    SweepPackFirst(c, g, f, live, o, k);
    if k < |steps| { SweepPackFirst(c, g, f, live, o, k + 1); }
    CutPackFirst(steps, k, torn);
    FollowAll(f, f', Cut(steps, k, torn));
  }

  /* After a complete sweep */

  lemma {:induction false} ReplacementsWriteNew(c: Codec, g: Contents, rs: seq<Rewrite>, s: Name)
    requires Writes(ReplacementSteps(c, g, rs), Pack(s))
    ensures exists r :: r in rs && s == NewName(c, g, r)
    decreases |rs|
  {
    hide NewName, PackBytes, CreatedIndex;
    if rs != [] {
      var x: Step :| x in ReplacementSteps(c, g, rs) && x.Write? && x.path == Pack(s);
      NewStepsShape(c, g, rs[0]);
      if x in ReplacementSteps(c, g, rs[1..]) {
        assert Writes(ReplacementSteps(c, g, rs[1..]), Pack(s));
        ReplacementsWriteNew(c, g, rs[1..], s);
      }
    }
  }

  lemma SweepWritesNew(c: Codec, g: Contents, f: Files, live: set<Digest>, o: Options, s: Name)
    requires Sweepable(c, g, f, live) && !o.mode.DryRun? && Writes(SweepSteps(c, f, live, o), Pack(s))
    ensures !Indexed(f, s)
  {
    hide Sweepable, SweepSteps, PlanOf, EvictPhase, ReplacementSteps, NewName, Victims;
    SweepShape(c, g, f, live, o);
    var first, last := ReplacementSteps(c, g, Executed(f, live, o)), EvictPhase(Midway(c, f, live, o), o.mode, VictimsOf(f, live, o));
    EvictWritesNothing(Midway(c, f, live, o), o.mode, VictimsOf(f, live, o));
    var x: Step :| x in first + last && x.Write? && x.path == Pack(s);
    assert x in first;
    assert Writes(first, Pack(s));
    ReplacementsWriteNew(c, g, Executed(f, live, o), s);
    var r :| r in Executed(f, live, o) && s == NewName(c, g, r);
    NewIsUnread(c, g, f, live, r);
  }

  /** A pack of the damaged tree that a complete sweep leaves is unchanged. */
  lemma OldRecord(c: Codec, g: Contents, f: Files, f': Files, live: set<Digest>, o: Options, s: Name, h: Digest)
    requires Sweepable(c, g, f, live) && !o.mode.DryRun? && Damaged(f, f') && Indexed(f, s)
    requires GoodRecord(c, g, ApplyAll(f', SweepSteps(c, f, live, o)), s, h)
    ensures GoodRecord(c, g, f', s, h)
  {
    hide Sweepable, SweepSteps, PackFirst, Damaged, ParseIndex, ReadBlob, Follows;
    var steps := SweepSteps(c, f, live, o);
    var e, e' := ApplyAll(f, steps), ApplyAll(f', steps);
    if Writes(steps, Pack(s)) { SweepWritesNew(c, g, f, live, o, s); }
    SweepPackFirst(c, g, f, live, o, |steps|);
    assert steps[..|steps|] == steps;
    DamagedKeys(f, f');
    SameKeys(f, f');
    PackFirstMeans(steps, s);
    FollowFile(f, f', steps, Pack(s));
    FollowFile(f, f', steps, Idx(s));
    SameKeys(e, e');
    SamePackHashes(f', e', s);
  }

  lemma PackFirstMeans(steps: seq<Step>, s: Name)
    requires PackFirst(steps)
    ensures RenamesToTrash(steps) && (Writes(steps, Idx(s)) ==> Writes(steps, Pack(s)))
  {
  }

  /** Whether the content of a live digest survives a complete sweep of a damaged
      tree, exactly. A pack without garbage counts as a copy whatever its records
      hold, and so does a loose file: if the good copy is elsewhere, the sweep drops
      it. */
  lemma DamagedCopyExactly(c: Codec, g: Contents, f: Files, f': Files, live: set<Digest>, o: Options, h: Digest)
    requires Sweepable(c, g, f, live) && (o.rewritePartialPacks ==> NamesFree(c, g, f, live)) && !o.mode.DryRun?
    requires Damaged(f, f') && ReadsTruthfully(c, g, f') && SweepOutcome(c, f', live, o).ok
    requires h in live && HasCopy(c, g, f', h)
    ensures HasCopy(c, g, After(c, f', live, o), h) <==> CopyStays(c, g, f', live, o, h)
  {
    hide Damaged, ReadsTruthfully, NamesFree, SweepOutcome, Follows, PackFirst, Cut, WellFormed, Truthful, GoodRecord, GoodFile, PlanOf, PlanFails, Indexed, HashesOf, NewName, Partial;
    var steps, rs := SweepSteps(c, f, live, o), PlanOf(f, live).packsToRewrite;
    var e, e' := After(c, f, live, o), After(c, f', live, o);
    DamagedSteps(c, g, f, f', live, o);
    CutWhole(steps);
    if CopyStays(c, g, f', live, o, h) {
      DamagedCopyKept(c, g, f, f', live, o, |steps|, None, h);
    }
    if HasCopy(c, g, e', h) {
      CutFollows(c, g, f, f', live, o, |steps|, None);
      DamagedPlan(f, f', live);
      FollowedFile(c, g, f, f', e, e', h);
      if !GoodFile(c, g, e', h) {
        var s :| GoodRecord(c, g, e', s, h);
        FollowedPacks(f, f', e, e');
        RecordListed(c, g, e', s, h);
        DamagedPacks(f, f');
        LeftPlace(c, g, f, f', live, o, s, h);
      }
    }
  }

  lemma CutWhole(steps: seq<Step>)
    ensures Cut(steps, |steps|, None) == steps
  {
  }

  lemma RecordListed(c: Codec, g: Contents, f: Files, s: Name, h: Digest)
    requires GoodRecord(c, g, f, s, h)
    ensures Indexed(f, s) && h in HashesOf(f, s)
  {
  }

  lemma LeftPlace(c: Codec, g: Contents, f: Files, f': Files, live: set<Digest>, o: Options, s: Name, h: Digest)
    requires Sweepable(c, g, f, live) && !o.mode.DryRun? && Damaged(f, f')
    requires Indexed(After(c, f, live, o), s) && h in HashesOf(After(c, f, live, o), s)
    requires GoodRecord(c, g, ApplyAll(f', SweepSteps(c, f, live, o)), s, h)
    ensures CopyStays(c, g, f', live, o, h)
  {
    hide Damaged, Sweepable, GoodRecord, GoodFile, PlanOf, Indexed, HashesOf, NewName, SweepSteps, After, ApplyAll;
    var rs := PlanOf(f, live).packsToRewrite;
    DamagedPlan(f, f', live);
    DamagedPacks(f, f');
    AfterPack(c, g, f, live, o, s);
    if r :| r in Executed(f, live, o) && s == NewName(c, g, r) && HashesOf(After(c, f, live, o), s) == Elements(r.keep) {
      assert h in Elements(r.keep);
    } else {
      OldRecord(c, g, f, f', live, o, s, h);
      if !Healthy(f, live, s) {
        var i :| 0 <= i < |rs| && rs[i].pack == s;
        assert rs[i] in rs;
      }
    }
  }

  /** A live digest that reads, in a tree without aliases, has a copy that the sweep
      leaves: only what does not read for sure is at risk. */
  lemma ReadableStays(c: Codec, g: Contents, f: Files, live: set<Digest>, o: Options, h: Digest)
    requires Unaliased(f) && h in live && ReadsAs(c, f, h, g(h))
    ensures HasCopy(c, g, f, h) && CopyStays(c, g, f, live, o, h)
  {
    hide ParseIndex, ReadBlob, Decode, PlanOf, Indexed, HashesOf, AllIndexed, HealthyIn;
    if Loose(h) !in f {
      PresentExact(f);
      var t :| Indexed(f, t) && h in HashesOf(f, t);
      assert GoodRecord(c, g, f, t, h);
      ListedHashesExact(f);
      LiveCovered(f, live, h);
      if s :| Healthy(f, live, s) && h in HashesOf(f, s) {
        assert GoodRecord(c, g, f, s, h);
      } else {
        var r :| r in PlanOf(f, live).packsToRewrite && h in r.keep;
        PlanFacts(f, live);
        assert h in Elements(r.keep);
        assert GoodRecord(c, g, f, r.pack, h);
      }
    }
  }
}
