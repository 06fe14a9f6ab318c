/** Sweeps of damaged trees: what packs and loose files hold makes no difference to
    a plan, and a replacement that does not read ends the sweep before it deletes
    anything. */
module Damage {
  import opened Bytes
  import opened Codecs
  import opened Disks
  import opened GcEvict
  import opened GcModel
  import opened GcPlanning
  import opened GcReplan
  import opened GcRewrite
  import opened GcSafety
  import opened Inventory
  import opened PackFormat
  import opened PackTheorems
  import opened SweepFailure

  /** The first tree with anything in any file but the indexes. */
  ghost predicate Damaged(f: Files, f': Files) {
    f.Keys == f'.Keys && forall p | p in f && p.Idx? :: f'[p] == f[p]
  }

  lemma SameKeys(f: Files, f': Files)
    requires f.Keys == f'.Keys
    ensures forall p :: p in f <==> p in f'
  {
    assert forall p :: p in f.Keys <==> p in f'.Keys;
  }

  lemma DamagedPacks(f: Files, f': Files)
    requires Damaged(f, f')
    ensures forall s :: Paired(f, s) == Paired(f', s) && Indexed(f, s) == Indexed(f', s) && HashesOf(f, s) == HashesOf(f', s)
    ensures forall s | Paired(f, s) :: f[Idx(s)] == f'[Idx(s)]
    ensures AllIndexed(f) == AllIndexed(f')
  {
    hide ParseIndex;
    SameKeys(f, f');
  }

  /* The plan */

  lemma {:induction false} DamagedStates(f: Files, f': Files, stems: seq<Name>)
    requires Damaged(f, f')
    ensures PackStates(f, stems) == PackStates(f', stems) && Unreadable(f, stems) == Unreadable(f', stems)
  {
    hide Indexed, HashesOf, Paired, SortedDigests, Damaged;
    if stems != [] {
      DamagedPacks(f, f');
      DamagedStates(f, f', stems[..|stems| - 1]);
    }
  }

  lemma DamagedLists(f: Files, f': Files)
    requires Damaged(f, f')
    ensures ListedHashes(f) == ListedHashes(f') && LooseHashes(f) == LooseHashes(f')
    ensures PackStems(f) == PackStems(f') && Orphans(f) == Orphans(f')
  {
    SameKeys(f, f');
  }

  /** The two plans differ in their byte counts at most. */
  ghost predicate PlansAlike(p: SweepPlan, q: SweepPlan) {
    && p.looseGarbage == q.looseGarbage && p.packsToRemove == q.packsToRemove && p.packsToRewrite == q.packsToRewrite
    && p.orphanFiles == q.orphanFiles && p.unreadablePacks == q.unreadablePacks
  }

  /** A plan looks at names and indexes only. */
  lemma DamagedPlan(f: Files, f': Files, live: set<Digest>)
    requires Damaged(f, f')
    ensures PlansAlike(PlanOf(f, live), PlanOf(f', live)) && PlanFails(f, live) == PlanFails(f', live)
    ensures forall rewrite :: Victims(PlanOf(f, live), rewrite) == Victims(PlanOf(f', live), rewrite)
  {
    hide Decide, SortedDigests, PackStates, Unreadable, HealthyHashes, SumSizes, Damaged, PairPaths, RewrittenPacks;
    DamagedLists(f, f');
    assert Listing(f) == Listing(f') && OrphanList(f) == OrphanList(f');
    DamagedStates(f, f', Listing(f));
    assert LooseGarbage(f, live) == LooseGarbage(f', live) && DecisionOf(f, live) == DecisionOf(f', live);
  }

  /* The effects */

  /** Every record that a rewrite is to copy reads as its content. */
  ghost predicate KeepIsGood(c: Codec, g: Contents, f: Files, r: Rewrite) {
    forall h | h in r.keep :: GoodRecord(c, g, f, r.pack, h)
  }

  /** A pack from which the digest reads as its content. */
  ghost predicate GoodRecord(c: Codec, g: Contents, f: Files, s: Name, h: Digest) {
    && Indexed(f, s) && h in HashesOf(f, s)
    && ReadBlob(c, f[Pack(s)], ParseIndex(f[Idx(s)]).value, h) == Ok(g(h))
  }

  lemma {:induction false} GoodKeepReads(c: Codec, g: Contents, f: Files, s: Name, keep: seq<Digest>)
    requires Indexed(f, s) && forall h | h in keep :: GoodRecord(c, g, f, s, h)
    ensures ReadEach(c, f[Pack(s)], ParseIndex(f[Idx(s)]).value, keep) == Some(Objects(g, keep))
  {
    hide ParseIndex, ReadBlob;
    if keep != [] {
      var n := |keep| - 1;
      assert keep[n] in keep && forall h | h in keep[..n] :: h in keep;
      GoodKeepReads(c, g, f, s, keep[..n]);
      assert GoodRecord(c, g, f, s, keep[n]);
    }
  }

  ghost predicate NoneIsNew(c: Codec, g: Contents, rs: seq<Rewrite>) {
    forall r, q | r in rs && q in rs :: r.pack != NewName(c, g, q)
  }

  /** Phase 1 writes the planned replacements up to the first that does not read. */
  lemma {:induction false} PhaseOneSteps(c: Codec, g: Contents, f: Files, rs: seq<Rewrite>) returns (i: nat)
    requires Lawful(c) && ReadsTruthfully(c, g, f) && ReplacementsInPlay(c, g, rs)
    requires forall r | r in rs :: SoundKeep(r)
    ensures i <= |rs| && RewritePhase(c, f, rs).steps == ReplacementSteps(c, g, rs[..i])
    ensures RewritePhase(c, f, rs).ok <==> i == |rs|
    ensures NoneIsNew(c, g, rs) && (forall r | r in rs :: Indexed(f, r.pack) && KeepIsGood(c, g, f, r)) ==> i == |rs|
    decreases |rs|
  {
    hide ParseIndex, ReadBlob, PackBytes, CreatedIndex, NewName, ReadKeep, ReadsTruthfully, Objects, Packable, SoundKeep, NewSteps, KeepIsGood, Indexed;
    if rs == [] {
      i := 0;
    } else {
      var r, w := rs[0], NewSteps(c, g, rs[0]);
      assert r in rs;
      if NoneIsNew(c, g, rs) && forall q | q in rs :: Indexed(f, q.pack) && KeepIsGood(c, g, f, q) { GoodKeepIsRead(c, g, f, r); }
      if ReadKeep(c, f, r).None? {
        i := 0;
      } else {
        KeepReads(c, g, f, r);
        PairTruthful(c, g, f, r);
        KeepIsSome(c, g, r);
        var f1 := ApplyAll(f, w);
        var j := PhaseOneSteps(c, g, f1, rs[1..]);
        i := j + 1;
        assert rs[..i] == [r] + rs[1..][..j];
        if NoneIsNew(c, g, rs) && forall q | q in rs :: Indexed(f, q.pack) && KeepIsGood(c, g, f, q) {
          forall q | q in rs[1..] ensures Indexed(f1, q.pack) && KeepIsGood(c, g, f1, q) {
            OtherKeepStays(c, g, f, r, q);
          }
        }
      }
    }
  }

  lemma GoodKeepIsRead(c: Codec, g: Contents, f: Files, r: Rewrite)
    requires Indexed(f, r.pack) && KeepIsGood(c, g, f, r)
    ensures ReadKeep(c, f, r).Some?
  {
    hide ParseIndex, ReadBlob;
    GoodKeepReads(c, g, f, r.pack, r.keep);
  }

  lemma KeepIsSome(c: Codec, g: Contents, r: Rewrite)
    requires SoundKeep(r)
    ensures Objects(g, r.keep) != [] && NewSteps(c, g, r) == CreateSteps(c, Objects(g, r.keep))
  {
  }

  lemma OtherKeepStays(c: Codec, g: Contents, f: Files, r: Rewrite, q: Rewrite)
    requires Indexed(f, q.pack) && KeepIsGood(c, g, f, q) && q.pack != NewName(c, g, r)
    ensures Indexed(ApplyAll(f, NewSteps(c, g, r)), q.pack) && KeepIsGood(c, g, ApplyAll(f, NewSteps(c, g, r)), q)
  {
    hide ParseIndex, ReadBlob, PackBytes, CreatedIndex;
    var f1 := ApplyAll(f, NewSteps(c, g, r));
    NewStepsShape(c, g, r);
    ApplyTwo(f, NewSteps(c, g, r)[0], NewSteps(c, g, r)[1]);
    assert SamePack(f, f1, q.pack);
    forall h | h in q.keep ensures GoodRecord(c, g, f1, q.pack, h) {
      assert GoodRecord(c, g, f, q.pack, h);
    }
  }

  lemma {:induction false} SameKeysApply(f: Files, f': Files, steps: seq<Step>)
    requires f.Keys == f'.Keys
    ensures ApplyAll(f, steps).Keys == ApplyAll(f', steps).Keys
    decreases |steps|
  {
    if steps != [] {
      SameKeys(f, f');
      SameKeysApply(Apply(f, steps[0]), Apply(f', steps[0]), steps[1..]);
    }
  }

  lemma {:induction false} SameKeysEvict(f: Files, f': Files, mode: SweepMode, ps: seq<Path>)
    requires f.Keys == f'.Keys
    ensures EvictPhase(f, mode, ps) == EvictPhase(f', mode, ps)
    decreases |ps|
  {
    if ps != [] {
      SameKeys(f, f');
      var steps := EvictSteps(f, mode, ps[0]);
      assert steps == EvictSteps(f', mode, ps[0]);
      SameKeysApply(f, f', steps);
      SameKeysEvict(ApplyAll(f, steps), ApplyAll(f', steps), mode, ps[1..]);
    }
  }

  lemma PlannedSound(f: Files, live: set<Digest>)
    ensures forall r | r in PlanOf(f, live).packsToRewrite :: SoundKeep(r)
  {
    hide PlanOf;
    PlanFacts(f, live);
  }

  lemma ReplacementsPrefix(c: Codec, g: Contents, rs: seq<Rewrite>, i: nat)
    requires i <= |rs|
    ensures ReplacementSteps(c, g, rs[..i]) <= ReplacementSteps(c, g, rs)
  {
    if i == |rs| {
      assert rs[..i] == rs;
    } else {
      ReplacementStepsAt(c, g, rs, i);
    }
  }

  /** A sweep of a damaged tree does what it would have done on the sound one, to its
      end or up to the first replacement that does not read, and in this case it
      deletes nothing. */
  lemma DamagedSteps(c: Codec, g: Contents, f: Files, f': Files, live: set<Digest>, o: Options)
    requires Sweepable(c, g, f, live) && Damaged(f, f') && ReadsTruthfully(c, g, f')
    ensures SweepSteps(c, f', live, o) <= SweepSteps(c, f, live, o)
    ensures if SweepOutcome(c, f', live, o).ok then SweepSteps(c, f', live, o) == SweepSteps(c, f, live, o)
            else SweepSteps(c, f', live, o) <= ReplacementSteps(c, g, Executed(f, live, o))
    ensures (forall r | r in PlanOf(f, live).packsToRewrite :: KeepIsGood(c, g, f', r)) ==> SweepOutcome(c, f', live, o).ok
  {
    hide PlanOf, EvictPhase, Victims, Damaged, ReadsTruthfully, ReplacementSteps, WellFormed, RewritePhase, KeepIsGood, SumSizes, PlanFails;
    var rs, victims := PlanOf(f, live).packsToRewrite, VictimsOf(f, live, o);
    DamagedPlan(f, f', live);
    PlannedSound(f, live);
    FirstPhaseAlike(c, g, f, f', live, o);
    if o.mode.DryRun? {
      DryRunIdle(c, f, live, o);
      DryRunIdle(c, f', live, o);
    } else {
      SweepShape(c, g, f, live, o);
      MidwayRewritten(c, g, f, live, o);
      if FirstPhase(c, f', live, o).ok {
        var f1, f1' := Midway(c, f, live, o), Midway(c, f', live, o);
        DamagedKeys(f, f');
        SameKeysApply(f, f', FirstPhase(c, f, live, o).steps);
        SameKeysEvict(f1, f1', o.mode, victims);
      }
    }
  }

  lemma DamagedKeys(f: Files, f': Files)
    requires Damaged(f, f')
    ensures f.Keys == f'.Keys
  {
  }

  lemma FirstPhaseAlike(c: Codec, g: Contents, f: Files, f': Files, live: set<Digest>, o: Options)
    requires Sweepable(c, g, f, live) && Damaged(f, f') && ReadsTruthfully(c, g, f')
    ensures FirstPhase(c, f', live, o).steps <= ReplacementSteps(c, g, Executed(f, live, o))
    ensures FirstPhase(c, f', live, o).ok ==> FirstPhase(c, f', live, o).steps == ReplacementSteps(c, g, Executed(f, live, o))
    ensures (forall r | r in PlanOf(f, live).packsToRewrite :: KeepIsGood(c, g, f', r)) ==> FirstPhase(c, f', live, o).ok
  {
    hide PlanOf, Damaged, ReadsTruthfully, ReplacementSteps, RewritePhase, KeepIsGood, PlanFails;
    var rs := PlanOf(f, live).packsToRewrite;
    DamagedPlan(f, f', live);
    PlannedSound(f, live);
    PlannedOld(c, g, f, f', live);
    if !o.mode.DryRun? && o.rewritePartialPacks {
      var i := PhaseOneSteps(c, g, f', rs);
      ReplacementsPrefix(c, g, rs, i);
      assert i == |rs| ==> rs[..i] == rs;
    } else {
      NothingToReplace(c, g);
    }
  }

  lemma PlannedOld(c: Codec, g: Contents, f: Files, f': Files, live: set<Digest>)
    requires Sweepable(c, g, f, live) && Damaged(f, f')
    ensures NoneIsNew(c, g, PlanOf(f, live).packsToRewrite)
    ensures forall r | r in PlanOf(f, live).packsToRewrite :: Indexed(f', r.pack)
  {
    hide PlanOf, Damaged, ParseIndex, NewName;
    PlanReady(c, g, f, live);
    DamagedPacks(f, f');
  }

  /** No effect touches the file. */
  ghost predicate Avoids(steps: seq<Step>, p: Path) {
    forall s | s in steps ::
      match s
      case Write(q, _) => q != p
      case Remove(q) => q != p
      case Rename(q, r) => q != p && r != p
  }

  lemma {:induction false} Untouched(f: Files, steps: seq<Step>, p: Path)
    requires Avoids(steps, p)
    ensures SameAt(f, ApplyAll(f, steps), p)
    decreases |steps|
  {
    if steps != [] {
      assert steps[0] in steps && forall s | s in steps[1..] :: s in steps;
      Untouched(Apply(f, steps[0]), steps[1..], p);
    }
  }

  /* Following the two trees */

  /** Files are renamed into the trash only. */
  ghost predicate RenamesToTrash(steps: seq<Step>) {
    forall s | s in steps && s.Rename? :: s.to.Trash?
  }

  ghost predicate Writes(steps: seq<Step>, p: Path) {
    exists s :: s in steps && s.Write? && s.path == p
  }

  /** The same effects on two trees with the same names: a file that was written is
      the same in both, another is what it was in each. */
  lemma {:induction false} FollowFile(f: Files, f': Files, steps: seq<Step>, p: Path)
    requires f.Keys == f'.Keys && RenamesToTrash(steps) && !p.Trash?
    ensures ApplyAll(f, steps).Keys == ApplyAll(f', steps).Keys
    ensures p in ApplyAll(f, steps) && p in ApplyAll(f', steps) ==>
              if Writes(steps, p) then ApplyAll(f', steps)[p] == ApplyAll(f, steps)[p]
              else p in f && p in f' && ApplyAll(f, steps)[p] == f[p] && ApplyAll(f', steps)[p] == f'[p]
    decreases |steps|
  {
    if steps != [] {
      var s, rest := steps[0], steps[1..];
      var f1, f1' := Apply(f, s), Apply(f', s);
      SameKeys(f, f');
      assert steps == [s] + rest && s in steps && forall t | t in rest :: t in steps;
      FollowFile(f1, f1', rest, p);
      assert Writes(steps, p) <==> (s.Write? && s.path == p) || Writes(rest, p);
      SameKeys(ApplyAll(f1, rest), ApplyAll(f1', rest));
    }
  }

  /** Packs are the same in both trees, or what they were in each; loose files are
      what they were. */
  ghost predicate Follows(f: Files, f': Files, e: Files, e': Files) {
    && e.Keys == e'.Keys
    && (forall p | p in e && p in e' && p.Idx? :: e'[p] == e[p])
    && (forall s | Paired(e, s) && Pack(s) in e' :: e'[Pack(s)] == e[Pack(s)] || (SamePack(f, e, s) && SamePack(f', e', s)))
    && (forall h: Digest | Loose(h) in e :: SameAt(f, e, Loose(h)) && SameAt(f', e', Loose(h)))
  }

  /** An index is written after its pack, and no loose file is written. */
  ghost predicate PackFirst(steps: seq<Step>) {
    && RenamesToTrash(steps)
    && (forall p | Writes(steps, p) :: p.Pack? || p.Idx?)
    && (forall s | Writes(steps, Idx(s)) :: Writes(steps, Pack(s)))
  }

  lemma FollowAll(f: Files, f': Files, steps: seq<Step>)
    requires Damaged(f, f') && PackFirst(steps)
    ensures Follows(f, f', ApplyAll(f, steps), ApplyAll(f', steps))
  {
    hide Writes, RenamesToTrash;
    var e, e' := ApplyAll(f, steps), ApplyAll(f', steps);
    SameKeys(f, f');
    SameKeysApply(f, f', steps);
    SameKeys(e, e');
    forall p | p in e && p.Idx? ensures e'[p] == e[p] {
      FollowFile(f, f', steps, p);
    }
    forall s | Paired(e, s) ensures e'[Pack(s)] == e[Pack(s)] || (SamePack(f, e, s) && SamePack(f', e', s)) {
      FollowFile(f, f', steps, Pack(s));
      FollowFile(f, f', steps, Idx(s));
    }
    forall h: Digest | Loose(h) in e ensures SameAt(f, e, Loose(h)) && SameAt(f', e', Loose(h)) {
      FollowFile(f, f', steps, Loose(h));
      assert !Writes(steps, Loose(h));
    }
  }

  lemma {:induction false} ReplacementsPackFirst(c: Codec, g: Contents, rs: seq<Rewrite>, k: nat)
    requires k <= |ReplacementSteps(c, g, rs)|
    ensures PackFirst(ReplacementSteps(c, g, rs)[..k])
    decreases |rs|
  {
    hide NewName, PackBytes, CreatedIndex;
    var steps := ReplacementSteps(c, g, rs);
    if k > 0 {
      var w, rest := NewSteps(c, g, rs[0]), ReplacementSteps(c, g, rs[1..]);
      NewStepsShape(c, g, rs[0]);
      if k == 1 {
        assert steps[..k] == [w[0]];
      } else {
        ReplacementsPackFirst(c, g, rs[1..], k - 2);
        assert steps[..k] == w + rest[..k - 2];
        PairPackFirst(NewName(c, g, rs[0]), w[0].data, w[1].data);
        PackFirstConcat(w, rest[..k - 2]);
      }
    }
  }

  lemma PairPackFirst(q: Name, a: Bytes, b: Bytes)
    ensures PackFirst([Write(Pack(q), a), Write(Idx(q), b)])
  {
    var w := [Write(Pack(q), a), Write(Idx(q), b)];
    assert w[0] in w && w[1] in w;
    assert Writes(w, Pack(q));
  }

  lemma PackFirstConcat(a: seq<Step>, b: seq<Step>)
    requires PackFirst(a) && PackFirst(b)
    ensures PackFirst(a + b)
  {
    forall p ensures Writes(a + b, p) <==> Writes(a, p) || Writes(b, p) {
      if s :| s in a && s.Write? && s.path == p { assert s in a + b; }
      if s :| s in b && s.Write? && s.path == p { assert s in a + b; }
    }
  }

  lemma {:induction false} EvictPackFirst(f: Files, mode: SweepMode, ps: seq<Path>, k: nat)
    requires k <= |EvictPhase(f, mode, ps)|
    ensures PackFirst(EvictPhase(f, mode, ps)[..k])
  {
    EvictWritesNothing(f, mode, ps);
    EvictRenames(f, mode, ps);
    var w := EvictPhase(f, mode, ps);
    forall s | s in w[..k] ensures !s.Write? && (s.Rename? ==> s.to.Trash?) {
      var i :| 0 <= i < k && w[i] == s;
    }
  }

  lemma {:induction false} EvictRenames(f: Files, mode: SweepMode, ps: seq<Path>)
    ensures forall i | 0 <= i < |EvictPhase(f, mode, ps)| && EvictPhase(f, mode, ps)[i].Rename? :: EvictPhase(f, mode, ps)[i].to.Trash?
    decreases |ps|
  {
    if ps != [] {
      EvictShape(f, mode, ps[0]);
      EvictRenames(ApplyAll(f, EvictSteps(f, mode, ps[0])), mode, ps[1..]);
    }
  }

  lemma SweepPackFirst(c: Codec, g: Contents, f: Files, live: set<Digest>, o: Options, k: nat)
    requires Sweepable(c, g, f, live) && k <= |SweepSteps(c, f, live, o)|
    ensures PackFirst(SweepSteps(c, f, live, o)[..k])
  {
    hide Sweepable, SweepSteps, EvictPhase, ReplacementSteps, PackFirst, PlanOf, Victims, Executed;
    if o.mode.DryRun? {
      DryRunIdle(c, f, live, o);
      ReplacementsPackFirst(c, g, [], 0);
      NothingToReplace(c, g);
      assert SweepSteps(c, f, live, o)[..k] == [];
    } else {
      SweepShape(c, g, f, live, o);
      var first, last := ReplacementSteps(c, g, Executed(f, live, o)), EvictPhase(Midway(c, f, live, o), o.mode, VictimsOf(f, live, o));
      if k <= |first| {
        assert (first + last)[..k] == first[..k];
        ReplacementsPackFirst(c, g, Executed(f, live, o), k);
      } else {
        assert (first + last)[..k] == first[..|first|] + last[..k - |first|];
        ReplacementsPackFirst(c, g, Executed(f, live, o), |first|);
        EvictPackFirst(Midway(c, f, live, o), o.mode, VictimsOf(f, live, o), k - |first|);
        PackFirstConcat(first[..|first|], last[..k - |first|]);
      }
    }
  }

  /* Reads */

  /** What read in the damaged tree still reads, when the sound tree has lost nothing
      of it. */
  lemma FollowedReads(c: Codec, g: Contents, f: Files, f': Files, e: Files, e': Files, h: Digest, d: Bytes)
    requires Damaged(f, f') && ReadsTruthfully(c, g, f') && Follows(f, f', e, e') && WellFormed(c, g, e)
    requires Loose(h) in f ==> Loose(h) in e
    requires h in Present(f) ==> h in Present(e)
    requires Loose(h) !in f && AllIndexed(f) ==> AllIndexed(e)
    requires ReadsAs(c, f', h, d)
    ensures ReadsAs(c, e', h, d)
  {
    hide ParseIndex, ReadBlob, Decode, Indexed, HashesOf, AllIndexed, WellFormed, ReadsTruthfully, Present, Damaged;
    DamagedKeys(f, f');
    SameKeys(f, f');
    SameKeys(e, e');
    if Loose(h) !in f {
      DamagedPacks(f, f');
      FollowedPacks(f, f', e, e');
      PresentExact(f);
      PresentExact(e);
      forall s | Indexed(e', s) && h in HashesOf(e', s) ensures PackReads(c, e', s, h, d) {
        FollowedPackReads(c, g, f, f', e, e', s, h, d);
      }
      assert Loose(h) !in e;
      ReadsByPacks(c, e', h, d);
    }
  }

  ghost predicate PackReads(c: Codec, f: Files, s: Name, h: Digest, d: Bytes) {
    Indexed(f, s) && ReadBlob(c, f[Pack(s)], ParseIndex(f[Idx(s)]).value, h) == Ok(d)
  }

  lemma ReadsByPacks(c: Codec, f: Files, h: Digest, d: Bytes)
    requires Loose(h) !in f && AllIndexed(f) && exists s :: Indexed(f, s) && h in HashesOf(f, s)
    requires forall s | Indexed(f, s) && h in HashesOf(f, s) :: PackReads(c, f, s, h, d)
    ensures ReadsAs(c, f, h, d)
  {
    hide ParseIndex, ReadBlob, HashesOf;
  }

  lemma FollowedPackReads(c: Codec, g: Contents, f: Files, f': Files, e: Files, e': Files, s: Name, h: Digest, d: Bytes)
    requires Damaged(f, f') && ReadsTruthfully(c, g, f') && Follows(f, f', e, e') && WellFormed(c, g, e)
    requires Loose(h) !in f && ReadsAs(c, f', h, d) && Indexed(e', s) && h in HashesOf(e', s)
    ensures PackReads(c, e', s, h, d)
  {
    hide ParseIndex, ReadBlob, Damaged, WellFormed, ReadsTruthfully, HashesOf, AllIndexed;
    DamagedKeys(f, f');
    SameKeys(f, f');
    SameKeys(e, e');
    FollowedPacks(f, f', e, e');
    var t :| Indexed(f', t) && h in HashesOf(f', t);
    ReadsContent(c, g, f', t, h, d);
    if e'[Pack(s)] == e[Pack(s)] {
      PackContent(c, g, e, s, h);
    } else {
      SamePackHashes(f', e', s);
    }
  }

  lemma ReadsContent(c: Codec, g: Contents, f: Files, s: Name, h: Digest, d: Bytes)
    requires ReadsTruthfully(c, g, f) && Indexed(f, s) && ReadBlob(c, f[Pack(s)], ParseIndex(f[Idx(s)]).value, h) == Ok(d)
    ensures d == g(h)
  {
    hide ParseIndex, ReadBlob;
    assert TruthfulPack(c, g, f[Pack(s)], f[Idx(s)]);
  }

  lemma FollowedPacks(f: Files, f': Files, e: Files, e': Files)
    requires Follows(f, f', e, e')
    ensures forall s :: Paired(e, s) == Paired(e', s) && Indexed(e, s) == Indexed(e', s) && HashesOf(e, s) == HashesOf(e', s)
    ensures forall s | Paired(e, s) :: e[Idx(s)] == e'[Idx(s)]
    ensures AllIndexed(e) == AllIndexed(e')
  {
    hide ParseIndex;
    SameKeys(e, e');
  }

  /* Crash points */

  ghost predicate TearsAt(steps: seq<Step>, k: nat, torn: Option<nat>) {
    k < |steps| && steps[k].Write? && torn.Some? && torn.value < |steps[k].data|
  }

  ghost predicate TearsIndexAt(steps: seq<Step>, k: nat, torn: Option<nat>) {
    TearsAt(steps, k, torn) && steps[k].path.Idx?
  }

  /** The effects up to a crash, the last of which may be a torn write. */
  ghost function Cut(steps: seq<Step>, k: nat, torn: Option<nat>): seq<Step>
    requires k <= |steps|
  {
    steps[..k] + if TearsAt(steps, k, torn) then [Write(steps[k].path, steps[k].data[..torn.value])] else []
  }

  lemma CutTree(f: Files, steps: seq<Step>, k: nat, torn: Option<nat>)
    requires k <= |steps|
    ensures ApplyAll(f, Cut(steps, k, torn)) ==
            if TearsAt(steps, k, torn) then Torn(ApplyAll(f, steps[..k]), steps[k], torn.value) else ApplyAll(f, steps[..k])
  {
    if TearsAt(steps, k, torn) {
      var w := Write(steps[k].path, steps[k].data[..torn.value]);
      ApplyAllConcat(f, steps[..k], [w]);
      ApplyOne(ApplyAll(f, steps[..k]), w);
    } else {
      assert Cut(steps, k, torn) == steps[..k];
    }
  }

  lemma CutPackFirst(steps: seq<Step>, k: nat, torn: Option<nat>)
    requires k <= |steps| && PackFirst(steps[..k]) && (k < |steps| ==> PackFirst(steps[..k + 1]))
    ensures PackFirst(Cut(steps, k, torn))
  {
    var cut := Cut(steps, k, torn);
    if TearsAt(steps, k, torn) {
      var whole := steps[..k + 1];
      assert whole == steps[..k] + [steps[k]];
      forall p ensures Writes(cut, p) <==> Writes(whole, p) {
        SameWrites(steps[..k], steps[k], cut[k], p);
      }
    } else {
      assert cut == steps[..k];
    }
  }

  lemma SameWrites(w: seq<Step>, s: Step, t: Step, p: Path)
    requires s.Write? && t.Write? && s.path == t.path
    ensures Writes(w + [s], p) <==> Writes(w + [t], p)
  {
    if x :| x in w + [s] && x.Write? && x.path == p { assert (if x in w then x else t) in w + [t]; }
    if x :| x in w + [t] && x.Write? && x.path == p { assert (if x in w then x else s) in w + [s]; }
  }

  /** What a crash point of a sweep of the sound tree is like. */
  ghost predicate Sustained(c: Codec, g: Contents, f: Files, live: set<Digest>, e: Files) {
    Safe(c, g, f, live, e) && forall h | h in live && Loose(h) in f :: Loose(h) in e
  }

  lemma SweepCut(c: Codec, g: Contents, f: Files, live: set<Digest>, o: Options, k: nat, torn: Option<nat>)
    requires Sweepable(c, g, f, live) && Harmless(c, g, f, live, o) && k <= |SweepSteps(c, f, live, o)|
    ensures var steps := SweepSteps(c, f, live, o); var e := ApplyAll(f, Cut(steps, k, torn));
            && Sustained(c, g, f, live, e) && PackFirst(Cut(steps, k, torn))
            && (AllIndexed(f) && !TearsIndexAt(steps, k, torn) ==> AllIndexed(e))
  {
    hide Sweepable, SweepSteps, PackFirst, PlanOf, Safe, NamesFree, AllIndexed, Unshadowed, Cut, Writes;
    var steps := SweepSteps(c, f, live, o);
    CutTree(f, steps, k, torn);
    SweepPackFirst(c, g, f, live, o, k);
    if k < |steps| { SweepPackFirst(c, g, f, live, o, k + 1); }
    CutPackFirst(steps, k, torn);
    SweepableTruthful(c, g, f, live);
    LiveLooseStays(c, g, f, live, o, k);
    if TearsAt(steps, k, torn) {
      DryRunIdleOr(c, f, live, o, k);
      TornSafe(c, g, f, live, o, k, torn.value);
      TornIsPair(c, g, f, live, o, k);
    } else {
      CrashSafe(c, g, f, live, o, k);
    }
  }

  lemma SweepableTruthful(c: Codec, g: Contents, f: Files, live: set<Digest>)
    requires Sweepable(c, g, f, live)
    ensures Truthful(c, g, f, live) && !PlanFails(f, live)
  {
  }

  /** A sweep writes packs and indexes only. */
  lemma TornIsPair(c: Codec, g: Contents, f: Files, live: set<Digest>, o: Options, k: nat)
    requires Sweepable(c, g, f, live) && k < |SweepSteps(c, f, live, o)| && SweepSteps(c, f, live, o)[k].Write?
    ensures SweepSteps(c, f, live, o)[k].path.Pack? || SweepSteps(c, f, live, o)[k].path.Idx?
  {
    hide Sweepable, SweepSteps;
    var steps := SweepSteps(c, f, live, o);
    SweepPackFirst(c, g, f, live, o, |steps|);
    assert steps[..|steps|] == steps && steps[k] in steps;
    assert Writes(steps, steps[k].path);
  }

  lemma {:induction false} WritesGrow(f: Files, steps: seq<Step>, p: Path)
    requires p in f && forall i | 0 <= i < |steps| :: steps[i].Write?
    ensures p in ApplyAll(f, steps)
    decreases |steps|
  {
    if steps != [] {
      WritesGrow(Apply(f, steps[0]), steps[1..], p);
    }
  }

  lemma {:induction false} ReplacementsWrite(c: Codec, g: Contents, rs: seq<Rewrite>)
    ensures forall i | 0 <= i < |ReplacementSteps(c, g, rs)| :: ReplacementSteps(c, g, rs)[i].Write?
    decreases |rs|
  {
    if rs != [] {
      NewStepsShape(c, g, rs[0]);
      ReplacementsWrite(c, g, rs[1..]);
    }
  }

  lemma LiveLooseStays(c: Codec, g: Contents, f: Files, live: set<Digest>, o: Options, k: nat)
    requires Sweepable(c, g, f, live) && k <= |SweepSteps(c, f, live, o)|
    ensures forall h | h in live && Loose(h) in f :: Loose(h) in ApplyAll(f, SweepSteps(c, f, live, o)[..k])
  {
    hide Sweepable, SweepSteps, PlanOf, Victims, Executed, ReplacementSteps, ApplyAll, WellFormed;
    var steps := SweepSteps(c, f, live, o);
    SweepableTruthful(c, g, f, live);
    forall h | h in live && Loose(h) in f ensures Loose(h) in ApplyAll(f, steps[..k]) {
      if o.mode.DryRun? {
        DryRunIdle(c, f, live, o);
        WritesGrow(f, steps[..k], Loose(h));
      } else if k <= |ReplacementSteps(c, g, Executed(f, live, o))| {
        StopsRewriting(c, g, f, live, o, k);
        ReplacementsWrite(c, g, Executed(f, live, o));
        WritesGrow(f, steps[..k], Loose(h));
      } else {
        StopsEvicting(c, g, f, live, o, k);
        MidwayRewritten(c, g, f, live, o);
        VictimsExact(f, live, o.rewritePartialPacks, Loose(h));
        assert SameAt(f, Midway(c, f, live, o), Loose(h));
      }
    }
  }

  /** A crash point of a shorter sequence is one of a longer one. */
  lemma CutOfPrefix(steps: seq<Step>, steps': seq<Step>, k: nat, torn: Option<nat>) returns (t: Option<nat>)
    requires steps' <= steps && k <= |steps'|
    ensures Cut(steps', k, torn) == Cut(steps, k, t)
    ensures TearsAt(steps, k, t) ==> TearsAt(steps', k, torn) && k < |steps'| && steps[k] == steps'[k]
  {
    t := if k < |steps'| then torn else None;
    assert steps'[..k] == steps[..k];
  }

  /** Damage does not spread: whatever a store with empty caches reads for a live
      digest in a damaged tree, it reads, byte for byte, wherever a sweep of that
      tree stops, even inside the write of a pack; inside the write of an index, if
      the blob is loose. Other damage, of packs or loose files, is no danger to what
      reads. */
  lemma DamagedLiveReads(c: Codec, g: Contents, f: Files, f': Files, live: set<Digest>, o: Options, k: nat, torn: Option<nat>, h: Digest, d: Bytes)
    requires Truthful(c, g, f, live) && Harmless(c, g, f, live, o) && Damaged(f, f') && ReadsTruthfully(c, g, f')
    requires k <= |SweepSteps(c, f', live, o)| && h in live && ReadsAs(c, f', h, d)
    requires TearsIndexAt(SweepSteps(c, f', live, o), k, torn) ==> Loose(h) in f'
    ensures ReadsAs(c, ApplyAll(f', Cut(SweepSteps(c, f', live, o), k, torn)), h, d)
  {
    hide Damaged, ReadsTruthfully, PlanFails, Harmless, SweepSteps, ReadsAs, Follows, PackFirst, Cut, AllIndexed, WellFormed, Present, TearsAt, Truthful;
    DamagedPlan(f, f', live);
    if PlanFails(f, live) {
      PlanFailsIdle(c, f', live, o);
      NothingCut(f', SweepSteps(c, f', live, o), k, torn);
    } else {
      IsSweepable(c, g, f, live);
      DamagedSteps(c, g, f, f', live, o);
      var t := CutOfPrefix(SweepSteps(c, f, live, o), SweepSteps(c, f', live, o), k, torn);
      var cut := Cut(SweepSteps(c, f, live, o), k, t);
      SweepCut(c, g, f, live, o, k, t);
      FollowAll(f, f', cut);
      DamagedKeys(f, f');
      SameKeys(f, f');
      if h in Present(f) { assert h in live * Present(f); }
      FollowedReads(c, g, f, f', ApplyAll(f, cut), ApplyAll(f', cut), h, d);
    }
  }

  lemma IsSweepable(c: Codec, g: Contents, f: Files, live: set<Digest>)
    requires Truthful(c, g, f, live) && !PlanFails(f, live)
    ensures Sweepable(c, g, f, live)
  {
  }

  lemma NothingCut(f: Files, steps: seq<Step>, k: nat, torn: Option<nat>)
    requires steps == [] && k == 0
    ensures ApplyAll(f, Cut(steps, k, torn)) == f
  {
  }
}
