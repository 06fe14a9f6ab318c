/** The byte counter of a sweep. */
module GcBytes {
  import opened Bytes
  import opened Codecs
  import opened Disks
  import opened GcEvict
  import opened GcModel
  import opened GcOutcome
  import opened GcPlanning
  import opened GcRewrite
  import opened GcSafety
  import opened GcTrash
  import opened Inventory
  import opened PackFormat

  /** A file's share of the bytes under `objects/`. */
  function Weight(f: Files, p: Path): nat {
    if p in f && !p.Trash? && !p.Outside? then |f[p]| else 0
  }

  /** The bytes under `objects/`. */
  ghost function Total(f: Files): nat {
    if f == map[] then 0 else
      var p :| p in f;
      Total(f - {p}) + Weight(f, p)
  }

  lemma {:induction false} TotalRemove(f: Files, p: Path)
    requires p in f
    ensures Total(f) == Total(f - {p}) + Weight(f, p)
    decreases |f|
  {
    var q :| q in f && Total(f) == Total(f - {q}) + Weight(f, q);
    if q != p {
      TotalRemove(f - {q}, p);
      TotalRemove(f - {p}, q);
      assert (f - {q}) - {p} == (f - {p}) - {q};
      assert Weight(f - {q}, p) == Weight(f, p) && Weight(f - {p}, q) == Weight(f, q);
      assert Total(f) == Total(f - {q}) + Weight(f, q);
    }
  }

  lemma TotalPut(f: Files, p: Path, b: Bytes)
    ensures Total(f[p := b]) == Total(f) - Weight(f, p) + if p.Trash? || p.Outside? then 0 else |b|
  {
    var f1 := f[p := b];
    TotalRemove(f1, p);
    assert f1 - {p} == f - {p};
    if p in f {
      TotalRemove(f, p);
    } else {
      assert f - {p} == f;
    }
  }

  lemma {:induction false} SumSizesConcat(f: Files, a: seq<Path>, b: seq<Path>)
    ensures SumSizes(f, a + b) == SumSizes(f, a) + SumSizes(f, b)
    decreases |b|
  {
    if b == [] {
      assert a + b == a;
    } else {
      var n := |b| - 1;
      SumSizesConcat(f, a, b[..n]);
      assert (a + b)[..|a + b| - 1] == a + b[..n];
    }
  }

  lemma {:induction false} SumSizesSame(f: Files, f1: Files, ps: seq<Path>)
    requires forall p | p in ps :: SameAt(f, f1, p)
    ensures SumSizes(f, ps) == SumSizes(f1, ps)
  {
    if ps != [] {
      var n := |ps| - 1;
      assert ps[n] in ps;
      SumSizesSame(f, f1, ps[..n]);
    }
  }

  ghost predicate InObjects(ps: seq<Path>) {
    forall p | p in ps :: !p.Trash? && !p.Outside?
  }

  /** Evicting distinct files takes exactly their sizes off the total. */
  lemma {:induction false} EvictTotal(f: Files, mode: SweepMode, ps: seq<Path>)
    requires InObjects(ps) && Distinct(ps)
    ensures Total(f) == Total(ApplyAll(f, EvictPhase(f, mode, ps))) + SumSizes(f, ps)
    decreases |ps|
  {
    if ps != [] {
      var p, rest := ps[0], ps[1..];
      var w := EvictSteps(f, mode, p);
      var f1 := ApplyAll(f, w);
      assert ps == [p] + rest && p in ps;
      EvictOne(f, mode, p);
      if p in f {
        TotalRemove(f, p);
        TotalPut(f - {p}, Trash(p), f[p]);
      }
      forall q | q in rest ensures SameAt(f, f1, q) {
        var i :| 0 <= i < |rest| && rest[i] == q;
        assert ps[i + 1] == q && q in ps;
      }
      forall i, j | 0 <= i < j < |rest| ensures rest[i] != rest[j] {
        assert rest[i] == ps[i + 1] && rest[j] == ps[j + 1];
      }
      EvictTotal(f1, mode, rest);
      ApplyAllConcat(f, w, EvictPhase(f1, mode, rest));
      SumSizesSame(f, f1, rest);
      SumSizesConcat(f, [p], rest);
      SumOne(f, p);
    }
  }

  lemma SumOne(f: Files, p: Path)
    ensures SumSizes(f, [p]) == Size(f, p)
  {
    assert [p][..0] == [];
  }

  /* Phase 1 */

  function NewSize(c: Codec, g: Contents, r: Rewrite): nat {
    |PackBytes(c, Objects(g, r.keep))| + |CreatedIndex(c, Objects(g, r.keep))|
  }

  function Max(a: nat, b: nat): nat {
    if a < b then b else a
  }

  /** Sums over the rewrites: the old pairs, the new pairs, what the counter
      books in phase 1, and the larger of each two pairs. */
  function SumOld(f: Files, rs: seq<Rewrite>): nat {
    if rs == [] then 0 else PairSize(f, rs[0].pack) + SumOld(f, rs[1..])
  }

  function SumNew(c: Codec, g: Contents, rs: seq<Rewrite>): nat {
    if rs == [] then 0 else NewSize(c, g, rs[0]) + SumNew(c, g, rs[1..])
  }

  function SumBooked(c: Codec, g: Contents, f: Files, rs: seq<Rewrite>): nat {
    if rs == [] then 0 else SaturatingSub(PairSize(f, rs[0].pack), NewSize(c, g, rs[0])) + SumBooked(c, g, f, rs[1..])
  }

  function SumLarger(c: Codec, g: Contents, f: Files, rs: seq<Rewrite>): nat {
    if rs == [] then 0 else Max(PairSize(f, rs[0].pack), NewSize(c, g, rs[0])) + SumLarger(c, g, f, rs[1..])
  }

  /** What was there before under the names of the replacements. */
  function SumOverwritten(c: Codec, g: Contents, f: Files, rs: seq<Rewrite>): nat {
    if rs == [] then 0 else PairSize(f, NewName(c, g, rs[0])) + SumOverwritten(c, g, f, rs[1..])
  }

  lemma {:induction false} FreshOverwritesNothing(c: Codec, g: Contents, f: Files, rs: seq<Rewrite>)
    requires FreshNames(c, g, f, rs)
    ensures SumOverwritten(c, g, f, rs) == 0
  {
    hide NewName;
    if rs != [] {
      assert rs[0] in rs;
      FreshOverwritesNothing(c, g, f, rs[1..]);
    }
  }

  lemma {:induction false} OverwrittenSame(c: Codec, g: Contents, f: Files, f1: Files, rs: seq<Rewrite>)
    requires forall r | r in rs :: SamePack(f, f1, NewName(c, g, r))
    ensures SumOverwritten(c, g, f, rs) == SumOverwritten(c, g, f1, rs)
  {
    hide NewName;
    if rs != [] {
      assert rs[0] in rs;
      assert SamePack(f, f1, NewName(c, g, rs[0]));
      OverwrittenSame(c, g, f, f1, rs[1..]);
    }
  }

  lemma {:induction false} BookedPlusNew(c: Codec, g: Contents, f: Files, rs: seq<Rewrite>)
    ensures SumBooked(c, g, f, rs) + SumNew(c, g, rs) == SumLarger(c, g, f, rs)
    ensures rs != [] ==> SumLarger(c, g, f, rs) > 0
  {
    if rs != [] {
      BookedPlusNew(c, g, f, rs[1..]);
    }
  }

  lemma {:induction false} BookedSame(c: Codec, g: Contents, f: Files, f1: Files, rs: seq<Rewrite>)
    requires forall r | r in rs :: SamePack(f, f1, r.pack)
    ensures SumBooked(c, g, f, rs) == SumBooked(c, g, f1, rs)
  {
    if rs != [] {
      assert rs[0] in rs;
      assert SamePack(f, f1, rs[0].pack);
      BookedSame(c, g, f, f1, rs[1..]);
    }
  }

  /** What phase 1 books and what it adds. */
  lemma {:induction false} PhaseOneBytes(c: Codec, g: Contents, f: Files, rs: seq<Rewrite>)
    requires Lawful(c) && WellFormed(c, g, f) && AllReady(c, g, f, rs)
    ensures RewritePhase(c, f, rs).gain == SumBooked(c, g, f, rs)
    ensures Total(ApplyAll(f, ReplacementSteps(c, g, rs))) + SumOverwritten(c, g, f, rs) == Total(f) + SumNew(c, g, rs)
    decreases |rs|
  {
    hide ReadBlob, ParseIndex, WellFormed, PackBytes, CreatedIndex, Objects, ReadEach, Total;
    if rs != [] {
      var r, w := rs[0], NewSteps(c, g, rs[0]);
      var f1 := ApplyAll(f, w);
      assert r in rs;
      ReadEachGood(c, g, f, r.pack, r.keep);
      RewriteOne(c, g, f, r);
      StaysReady(c, g, f, rs);
      PhaseOneBytes(c, g, f1, rs[1..]);
      ApplyAllConcat(f, w, ReplacementSteps(c, g, rs[1..]));
      OneRewriteBytes(c, g, f, f1, rs);
    }
  }

  /** One replacement changes neither the packs nor the names of the others. */
  lemma OthersUntouched(c: Codec, g: Contents, f: Files, f1: Files, rs: seq<Rewrite>)
    requires Lawful(c) && WellFormed(c, g, f) && AllReady(c, g, f, rs) && rs != []
    requires f1 == ApplyAll(f, NewSteps(c, g, rs[0]))
    ensures SamePack(f, f1, rs[0].pack)
    ensures forall p | p in rs[1..] :: SamePack(f, f1, p.pack) && SamePack(f, f1, NewName(c, g, p))
  {
    hide ReadBlob, ParseIndex, WellFormed, PackBytes, CreatedIndex, Objects, NewName, NewSteps, Present, Indexed, HashesOf;
    assert rs[0] in rs;
    RewriteOne(c, g, f, rs[0]);
    StaysReady(c, g, f, rs);
    forall p | p in rs[1..] ensures SamePack(f, f1, p.pack) && SamePack(f, f1, NewName(c, g, p)) {
      assert p in rs && Ready(c, g, f, p);
    }
  }

  lemma OneRewriteBytes(c: Codec, g: Contents, f: Files, f1: Files, rs: seq<Rewrite>)
    requires Lawful(c) && WellFormed(c, g, f) && AllReady(c, g, f, rs) && rs != []
    requires f1 == ApplyAll(f, NewSteps(c, g, rs[0]))
    ensures PairSize(f1, rs[0].pack) == PairSize(f, rs[0].pack)
    ensures PairSize(f1, NewName(c, g, rs[0])) == NewSize(c, g, rs[0])
    ensures SumBooked(c, g, f1, rs[1..]) == SumBooked(c, g, f, rs[1..])
    ensures SumOverwritten(c, g, f1, rs[1..]) == SumOverwritten(c, g, f, rs[1..])
    ensures Total(f1) + PairSize(f, NewName(c, g, rs[0])) == Total(f) + NewSize(c, g, rs[0])
  {
    hide ReadBlob, ParseIndex, WellFormed, PackBytes, CreatedIndex, Objects, Total, NewName, NewSteps, Ready, KeepsReadable, Unharmed, Present;
    var r, q := rs[0], NewName(c, g, rs[0]);
    assert r in rs;
    RewriteOne(c, g, f, r);
    OthersUntouched(c, g, f, f1, rs);
    BookedSame(c, g, f, f1, rs[1..]);
    OverwrittenSame(c, g, f, f1, rs[1..]);
    PairPut(f, q, PackBytes(c, Objects(g, r.keep)), CreatedIndex(c, Objects(g, r.keep)));
  }

  lemma PairPut(f: Files, q: Name, pack: Bytes, idx: Bytes)
    ensures Total(f[Pack(q) := pack][Idx(q) := idx]) + PairSize(f, q) == Total(f) + |pack| + |idx|
  {
    hide Total;
    TotalPut(f, Pack(q), pack);
    TotalPut(f[Pack(q) := pack], Idx(q), idx);
  }

  /* The whole sweep */

  lemma VictimsInObjects(f: Files, live: set<Digest>, rewrite: bool)
    ensures InObjects(Victims(PlanOf(f, live), rewrite))
  {
    forall p | p in Victims(PlanOf(f, live), rewrite) ensures !p.Trash? && !p.Outside? {
      VictimsExact(f, live, rewrite, p);
    }
  }

  /** The counter and the tree, phase by phase. */
  lemma SweepBytes(c: Codec, g: Contents, f: Files, live: set<Digest>, o: Options)
    requires Sweepable(c, g, f, live) && !o.mode.DryRun?
    ensures var f1 := Midway(c, f, live, o);
            && SweepOutcome(c, f, live, o).gain ==
                 SumBooked(c, g, f, Executed(f, live, o)) + SumSizes(f1, VictimsOf(f, live, o))
            && Total(f1) == Total(After(c, f, live, o)) + SumSizes(f1, VictimsOf(f, live, o))
  {
    hide ReadBlob, ParseIndex, WellFormed, PlanOf, Victims, Total, RewritePhase, Sweepable;
    var f1, victims := Midway(c, f, live, o), VictimsOf(f, live, o);
    MidwayRewritten(c, g, f, live, o);
    SweepShape(c, g, f, live, o);
    ApplyAllConcat(f, ReplacementSteps(c, g, Executed(f, live, o)), EvictPhase(f1, o.mode, victims));
    VictimsInObjects(f, live, o.rewritePartialPacks);
    VictimsDistinct(f, live, o.rewritePartialPacks);
    EvictTotal(f1, o.mode, victims);
    FirstPhaseBooks(c, g, f, live, o);
  }

  lemma FirstPhaseBooks(c: Codec, g: Contents, f: Files, live: set<Digest>, o: Options)
    requires Sweepable(c, g, f, live)
    ensures FirstPhase(c, f, live, o).gain == SumBooked(c, g, f, Executed(f, live, o))
  {
    hide ReadBlob, ParseIndex, WellFormed, PlanOf, RewritePhase, Ready;
    PlanReady(c, g, f, live);
    PhaseOneBytes(c, g, f, PlanOf(f, live).packsToRewrite);
  }

  ghost function OrphanBytes(f: Files, live: set<Digest>): nat {
    SumSizes(f, PlanOf(f, live).orphanFiles)
  }

  lemma {:induction false} SumRemovals(f: Files, a: seq<Name>, rs: seq<Rewrite>)
    ensures SumSizes(f, PairPaths(a + RewrittenPacks(rs))) == SumSizes(f, PairPaths(a)) + SumOld(f, rs)
    decreases |rs|
  {
    if rs == [] {
      assert a + RewrittenPacks(rs) == a;
    } else {
      var s := rs[0].pack;
      hide RewrittenPacks, PairPaths, SumSizes;
      RewrittenPacksCons(rs[0], rs[1..]);
      assert [rs[0]] + rs[1..] == rs;
      assert a + RewrittenPacks(rs) == (a + [s]) + RewrittenPacks(rs[1..]);
      SumRemovals(f, a + [s], rs[1..]);
      SumPairsAppend(f, a, s);
    }
  }

  lemma SumPairsAppend(f: Files, a: seq<Name>, s: Name)
    ensures SumSizes(f, PairPaths(a + [s])) == SumSizes(f, PairPaths(a)) + PairSize(f, s)
  {
    assert PairPaths(a + [s]) == PairPaths(a) + [Idx(s), Pack(s)] by {
      assert (a + [s])[..|a|] == a;
    }
    hide PairPaths, SumSizes;
    SumSizesConcat(f, PairPaths(a), [Idx(s), Pack(s)]);
    SumSizesConcat(f, [Idx(s)], [Pack(s)]);
    assert [Idx(s)] + [Pack(s)] == [Idx(s), Pack(s)];
    SumOne(f, Idx(s));
    SumOne(f, Pack(s));
  }

  lemma VictimBytes(f: Files, live: set<Digest>, o: Options)
    requires !o.mode.DryRun?
    ensures SumSizes(f, VictimsOf(f, live, o)) ==
            PlanOf(f, live).bytesReclaimable + OrphanBytes(f, live) + SumOld(f, Executed(f, live, o))
  {
    var plan := PlanOf(f, live);
    var loose, pairs := LoosePaths(plan.looseGarbage), PairPaths(Removals(plan, o.rewritePartialPacks));
    SumSizesConcat(f, loose + plan.orphanFiles, pairs);
    SumSizesConcat(f, loose, plan.orphanFiles);
    SumRemovals(f, plan.packsToRemove, plan.packsToRewrite);
    assert plan.packsToRemove + [] == plan.packsToRemove;
  }

  /** When no rewrite is carried out, the counter is exact: it is the drop in
      bytes under `objects/`, and what the plan promised plus the orphans. */
  lemma BytesExactWithoutRewrites(c: Codec, g: Contents, f: Files, live: set<Digest>, o: Options)
    requires Sweepable(c, g, f, live) && !o.mode.DryRun? && Executed(f, live, o) == []
    ensures SweepOutcome(c, f, live, o).gain == Total(f) - Total(After(c, f, live, o))
    ensures SweepOutcome(c, f, live, o).gain == PlanOf(f, live).bytesReclaimable + OrphanBytes(f, live)
  {
    hide ReadBlob, ParseIndex, WellFormed, PlanOf, Victims, Total, RewritePhase, Sweepable, VictimsOf, SweepOutcome, OrphanBytes;
    SweepBytes(c, g, f, live, o);
    VictimBytes(f, live, o);
    MidwayRewritten(c, g, f, live, o);
    assert Midway(c, f, live, o) == f;
  }

  /** The counter in general: it exceeds the drop by the larger of the old and
      the new pair, summed over the rewrites, less what the replacements overwrite,
      since the old pair is counted in phase 1 and again in phase 4. So it is
      exact if and only if these sums agree, and when no file bears a
      replacement's name, if and only if nothing is rewritten. */
  lemma BytesWithRewrites(c: Codec, g: Contents, f: Files, live: set<Digest>, o: Options)
    requires Sweepable(c, g, f, live) && !o.mode.DryRun? && o.rewritePartialPacks
    ensures var rs, gain, f' := PlanOf(f, live).packsToRewrite, SweepOutcome(c, f, live, o).gain, After(c, f, live, o);
            && gain + Total(f') + SumOverwritten(c, g, f, rs) == Total(f) + SumLarger(c, g, f, rs)
            && (gain == Total(f) - Total(f') <==> SumOverwritten(c, g, f, rs) == SumLarger(c, g, f, rs))
            && (FreshNames(c, g, f, rs) ==> (gain == Total(f) - Total(f') <==> rs == []))
  {
    hide ReadBlob, ParseIndex, WellFormed, PlanOf, Victims, Total, RewritePhase, VictimsOf, SweepOutcome, OrphanBytes, After, Midway, Ready, NewName, PlanFails;
    var rs, f1 := PlanOf(f, live).packsToRewrite, Midway(c, f, live, o);
    SweepBytes(c, g, f, live, o);
    PlanReady(c, g, f, live);
    PhaseOneBytes(c, g, f, rs);
    MidwayIs(c, g, f, live, o);
    BookedPlusNew(c, g, f, rs);
    if FreshNames(c, g, f, rs) { FreshOverwritesNothing(c, g, f, rs); }
  }

  lemma MidwayIs(c: Codec, g: Contents, f: Files, live: set<Digest>, o: Options)
    requires Sweepable(c, g, f, live)
    ensures Midway(c, f, live, o) == ApplyAll(f, ReplacementSteps(c, g, Executed(f, live, o)))
  {
    hide ReadBlob, ParseIndex, WellFormed, PlanOf, RewritePhase, Sweepable, Rewritten, FirstPhase, Executed;
    MidwayRewritten(c, g, f, live, o);
  }
}
