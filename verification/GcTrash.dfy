/** Trash mode: the same `objects/` tree as delete mode, and reversible. */
module GcTrash {
  import opened Bytes
  import opened Codecs
  import opened Disks
  import opened GcEvict
  import opened GcModel
  import opened GcOutcome
  import opened GcPlanning
  import opened GcRewrite
  import opened GcSafety
  import opened Inventory
  import opened PackFormat
  import opened Sorting

  /* No file is swept twice */

  lemma {:induction false} PairPathsDistinct(stems: seq<Name>)
    requires Distinct(stems)
    ensures Distinct(PairPaths(stems))
    ensures |PairPaths(stems)| == 2 * |stems|
  {
    if stems != [] {
      var n := |stems| - 1;
      PairPathsDistinct(stems[..n]);
      forall i | 0 <= i < |PairPaths(stems[..n])|
        ensures PairPaths(stems[..n])[i] != Pack(stems[n]) && PairPaths(stems[..n])[i] != Idx(stems[n])
      {
        PairPathsExact(stems[..n], PairPaths(stems[..n])[i]);
      }
    }
  }

  lemma DistinctConcat<T>(a: seq<T>, b: seq<T>)
    requires Distinct(a) && Distinct(b)
    requires forall x | x in a :: x !in b
    ensures Distinct(a + b)
  {
    forall i, j | 0 <= i < j < |a + b| ensures (a + b)[i] != (a + b)[j] {
      if i < |a| <= j {
        assert a[i] in a && b[j - |a|] in b;
      }
    }
  }

  lemma RemovalsDistinct(f: Files, live: set<Digest>, rewrite: bool)
    ensures Distinct(Removals(PlanOf(f, live), rewrite))
  {
    hide PlanOf;
    PlanFacts(f, live);
    var plan := PlanOf(f, live);
    var all := plan.packsToRemove + RewrittenPacks(plan.packsToRewrite);
    if !rewrite {
      assert forall i | 0 <= i < |plan.packsToRemove| :: plan.packsToRemove[i] == all[i];
    }
  }

  lemma VictimsDistinct(f: Files, live: set<Digest>, rewrite: bool)
    ensures Distinct(Victims(PlanOf(f, live), rewrite))
  {
    hide ParseIndex, PlanOf, Removals, LooseGarbage, OrphanList, Listing;
    var plan := PlanOf(f, live);
    var stems := Removals(plan, rewrite);
    var loose, pairs := LoosePaths(plan.looseGarbage), PairPaths(stems);
    PlanLists(f, live);
    LooseDistinct(f, live);
    StrictDistinct(plan.orphanFiles, PathKey);
    DistinctConcat(loose, plan.orphanFiles);
    RemovalsDistinct(f, live, rewrite);
    PairPathsDistinct(stems);
    forall p | p in loose + plan.orphanFiles ensures p !in pairs {
      OutsidePairs(f, live, rewrite, p);
    }
    DistinctConcat(loose + plan.orphanFiles, pairs);
  }

  lemma PlanLists(f: Files, live: set<Digest>)
    ensures PlanOf(f, live).looseGarbage == LooseGarbage(f, live)
    ensures PlanOf(f, live).orphanFiles == OrphanList(f)
  {
  }

  lemma OutsidePairs(f: Files, live: set<Digest>, rewrite: bool, p: Path)
    requires p.Loose? || Orphan(f, p)
    ensures p !in PairPaths(Removals(PlanOf(f, live), rewrite))
  {
    hide ParseIndex, PlanOf, Removals;
    var stems := Removals(PlanOf(f, live), rewrite);
    PairPathsExact(stems, p);
    if !p.Loose? && p.stem in stems {
      RemovalIsPartial(f, live, rewrite, p.stem);
    }
  }

  lemma LooseDistinct(f: Files, live: set<Digest>)
    ensures Distinct(LoosePaths(LooseGarbage(f, live)))
  {
    hide ListedHashes, SortedDigests, Filter;
    FilterStrict(SortedDigests(ListedHashes(f)), ListedHashes(f) - live, DigestKey);
    StrictDistinct(LooseGarbage(f, live), DigestKey);
  }

  /* Trash and delete */

  /** Both modes leave the same tree outside the trash, from any truthful tree,
      even when names collide; and nothing outside `objects/` and `trash/`
      changes in either. */
  lemma TrashEqualsDelete(c: Codec, g: Contents, f: Files, live: set<Digest>, rewrite: bool, p: Path)
    requires Sweepable(c, g, f, live) && !p.Trash?
    ensures SameAt(After(c, f, live, Options(TrashMode, rewrite)), After(c, f, live, Options(DeleteMode, rewrite)), p)
    ensures p.Outside? ==> SameAt(f, After(c, f, live, Options(TrashMode, rewrite)), p)
  {
    hide ParseIndex, ReadBlob, PlanOf, NewName, WellFormed, After, Sweepable, Victims;
    var t, d := Options(TrashMode, rewrite), Options(DeleteMode, rewrite);
    AfterEvicted(c, g, f, live, t);
    AfterEvicted(c, g, f, live, d);
    assert Midway(c, f, live, t) == Midway(c, f, live, d);
    VictimsExact(f, live, rewrite, p);
    if p !in VictimsOf(f, live, t) {
      assert SameAt(Midway(c, f, live, t), After(c, f, live, t), p);
      assert SameAt(Midway(c, f, live, t), After(c, f, live, d), p);
    }
    if p.Outside? {
      assert SameAt(f, Midway(c, f, live, t), p);
    }
  }

  /* Restoring */

  /** Renaming every swept file back. */
  function RestoreSteps(ps: seq<Path>): seq<Step> {
    if ps == [] then [] else [Rename(Trash(ps[0]), ps[0])] + RestoreSteps(ps[1..])
  }

  lemma {:induction false} RestoreAll(f: Files, ps: seq<Path>)
    requires NoTrash(ps) && Distinct(ps)
    requires forall p | p in ps :: Trash(p) in f && p !in f
    ensures var f' := ApplyAll(f, RestoreSteps(ps));
            && (forall p | p in ps :: p in f' && f'[p] == f[Trash(p)])
            && (forall p: Path | !p.Trash? && p !in ps :: SameAt(f, f', p))
    decreases |ps|
  {
    if ps != [] {
      var p, rest := ps[0], ps[1..];
      var f1 := Apply(f, Rename(Trash(p), p));
      forall q | q in rest ensures q != p && Trash(q) in f1 && q !in f1 && f1[Trash(q)] == f[Trash(q)] {
        var i :| 0 <= i < |rest| && rest[i] == q;
        assert ps[i + 1] == q;
        assert q in ps;
      }
      forall i, j | 0 <= i < j < |rest| ensures rest[i] != rest[j] {
        assert rest[i] == ps[i + 1] && rest[j] == ps[j + 1];
      }
      RestoreAll(f1, rest);
      assert RestoreSteps(ps)[0] == Rename(Trash(p), p) && RestoreSteps(ps)[1..] == RestoreSteps(rest);
      var f2 := ApplyAll(f1, RestoreSteps(rest));
      assert SameAt(f1, f2, p);
      forall q: Path | !q.Trash? && q !in ps ensures SameAt(f, f2, q) {
        assert q !in rest;
        assert SameAt(f1, f2, q);
      }
      forall q | q in ps ensures q in f2 && f2[q] == f[Trash(q)] {
        if q != p { assert q in rest; }
      }
    }
  }

  /** No file exists yet under a replacement's name. */
  ghost predicate FreshNames(c: Codec, g: Contents, f: Files, rs: seq<Rewrite>) {
    forall r | r in rs :: Pack(NewName(c, g, r)) !in f && Idx(NewName(c, g, r)) !in f
  }

  lemma VictimsPresent(c: Codec, g: Contents, f: Files, live: set<Digest>, o: Options, p: Path)
    requires Sweepable(c, g, f, live) && p in VictimsOf(f, live, o)
    ensures p in f && p in Midway(c, f, live, o)
    ensures o.rewritePartialPacks && FreshNames(c, g, f, PlanOf(f, live).packsToRewrite) ==> SameAt(f, Midway(c, f, live, o), p)
  {
    hide ParseIndex, ReadBlob, PlanOf, NewName, WellFormed, Truthful, PlanFails, Victims;
    var f1 := Midway(c, f, live, o);
    MidwayRewritten(c, g, f, live, o);
    VictimsExact(f, live, o.rewritePartialPacks, p);
    if p.Loose? {
      assert SameAt(f, f1, p);
    } else if Orphan(f, p) {
      StillThere(c, g, f, f1, Executed(f, live, o), p);
    } else {
      RemovalIsPartial(f, live, o.rewritePartialPacks, p.stem);
      assert SamePack(f, f1, p.stem);
    }
  }

  lemma StillThere(c: Codec, g: Contents, f: Files, f1: Files, rs: seq<Rewrite>, p: Path)
    requires Rewritten(c, g, f, f1, rs) && p in f && (p.Pack? || p.Idx?)
    ensures p in f1
  {
    hide NewName, WellFormed, Indexed, HashesOf, AllIndexed, Present;
    if r :| r in rs && p.stem == NewName(c, g, r) {
      assert HasReplacement(c, g, f1, r);
    } else {
      assert SameAt(f, f1, p);
    }
  }

  /** Renaming every file a trash sweep has swept back out of the trash gives
      the tree the sweep had after writing its replacements. If no file existed
      under a replacement's name, this is the original tree, every file byte for
      byte, plus the replacement packs. */
  lemma TrashIsReversible(c: Codec, g: Contents, f: Files, live: set<Digest>, rewrite: bool, p: Path)
    requires Sweepable(c, g, f, live) && !p.Trash?
    ensures var o := Options(TrashMode, rewrite);
            var restored := ApplyAll(After(c, f, live, o), RestoreSteps(VictimsOf(f, live, o)));
            && SameAt(Midway(c, f, live, o), restored, p)
            && (FreshNames(c, g, f, Executed(f, live, o)) ==>
                  && (p in f ==> SameAt(f, restored, p))
                  && (p in restored && p !in f ==> IsNewPath(c, g, Executed(f, live, o), p)))
  {
    hide ParseIndex, ReadBlob, PlanOf, NewName, WellFormed, After, Sweepable, Victims, VictimsOf, FirstPhase, Midway, Executed, RestoreSteps, ApplyAll, PackBytes;
    var o := Options(TrashMode, rewrite);
    var f1, f2, victims := Midway(c, f, live, o), After(c, f, live, o), VictimsOf(f, live, o);
    AfterEvicted(c, g, f, live, o);
    TrashVictims(c, g, f, live, o);
    RestoreAll(f2, victims);
    if p !in victims {
      assert SameAt(f1, f2, p);
    }
    if FreshNames(c, g, f, Executed(f, live, o)) && !IsNewPath(c, g, Executed(f, live, o), p) {
      assert SameAt(f, f1, p);
    }
  }

  lemma TrashVictims(c: Codec, g: Contents, f: Files, live: set<Digest>, o: Options)
    requires Sweepable(c, g, f, live) && o.mode.TrashMode?
    ensures NoTrash(VictimsOf(f, live, o)) && Distinct(VictimsOf(f, live, o))
    ensures forall p | p in VictimsOf(f, live, o) ::
              && p in Midway(c, f, live, o)
              && p !in After(c, f, live, o)
              && Trash(p) in After(c, f, live, o)
              && After(c, f, live, o)[Trash(p)] == Midway(c, f, live, o)[p]
  {
    hide ParseIndex, ReadBlob, PlanOf, NewName, WellFormed, After, Sweepable, Victims, FirstPhase, Midway, Executed;
    AfterEvicted(c, g, f, live, o);
    VictimsNoTrash(f, live, o.rewritePartialPacks);
    VictimsDistinct(f, live, o.rewritePartialPacks);
    forall p | p in VictimsOf(f, live, o) ensures p in Midway(c, f, live, o) {
      VictimsPresent(c, g, f, live, o, p);
    }
  }
}
