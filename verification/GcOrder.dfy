/** In which order a sweep takes files away. */
module GcOrder {
  import opened Bytes
  import opened Codecs
  import opened Damage
  import opened Disks
  import opened GcEvict
  import opened GcModel
  import opened GcRewrite
  import opened GcSafety
  import opened Inventory

  /** Exactly the first `i` of these files are gone. */
  ghost predicate GoneUpTo(f: Files, e: Files, ps: seq<Path>, i: nat) {
    i <= |ps| && forall p: Path | !p.Trash? :: p in e <==> p in f && p !in ps[..i]
  }

  /** Evictions go through their list from the front. */
  lemma {:induction false} EvictedUpTo(f: Files, mode: SweepMode, ps: seq<Path>, k: nat) returns (i: nat)
    requires NoTrash(ps) && k <= |EvictPhase(f, mode, ps)|
    ensures GoneUpTo(f, ApplyAll(f, EvictPhase(f, mode, ps)[..k]), ps, i)
    decreases |ps|
  {
    if ps == [] {
      i := 0;
      assert EvictPhase(f, mode, ps)[..k] == [];
    } else {
      var p, w := ps[0], EvictSteps(f, mode, ps[0]);
      var f1 := ApplyAll(f, w);
      var rest := EvictPhase(f1, mode, ps[1..]);
      hide GoneUpTo, EvictSteps, NoTrash;
      NoTrashAhead(ps);
      ApplyPrefix(f, w, rest, k);
      if k < |w| {
        i := 0;
        EvictStarts(f, mode, p, k);
        NoneGone(f, ApplyAll(f, EvictPhase(f, mode, ps)[..k]), ps);
      } else {
        EvictedGone(f, mode, p);
        assert w[..|w|] == w && rest[..0] == [];
        var j := EvictedUpTo(f1, mode, ps[1..], k - |w|);
        i := j + 1;
        assert ps == [p] + ps[1..];
        GoneNext(f, f1, ApplyAll(f, EvictPhase(f, mode, ps)[..k]), p, ps[1..], j);
      }
    }
  }

  lemma NoTrashAhead(ps: seq<Path>)
    requires ps != [] && NoTrash(ps)
    ensures !ps[0].Trash? && NoTrash(ps[1..])
  {
    assert ps[0] in ps;
  }

  lemma EvictedGone(f: Files, mode: SweepMode, p: Path)
    requires !p.Trash?
    ensures forall q: Path | !q.Trash? :: q in ApplyAll(f, EvictSteps(f, mode, p)) <==> q in f && q != p
  {
    EvictOne(f, mode, p);
  }

  lemma NoneGone(f: Files, e: Files, ps: seq<Path>)
    requires forall q: Path | !q.Trash? :: q in e <==> q in f
    ensures GoneUpTo(f, e, ps, 0)
  {
  }

  lemma GoneNext(f: Files, f1: Files, e: Files, p: Path, rest: seq<Path>, j: nat)
    requires GoneUpTo(f1, e, rest, j) && forall q: Path | !q.Trash? :: q in f1 <==> q in f && q != p
    ensures GoneUpTo(f, e, [p] + rest, j + 1)
  {
    assert ([p] + rest)[..j + 1] == [p] + rest[..j];
  }

  /** Before its last effect the file is still there. */
  lemma EvictStarts(f: Files, mode: SweepMode, p: Path, k: nat)
    requires !p.Trash? && k < |EvictSteps(f, mode, p)|
    ensures forall q: Path | !q.Trash? :: q in ApplyAll(f, EvictSteps(f, mode, p)[..k]) <==> q in f
  {
    var w := EvictSteps(f, mode, p);
    EvictShape(f, mode, p);
    if k == 0 {
      assert w[..k] == [];
    } else {
      assert w[..k] == [w[0]];
      ApplyOne(f, w[0]);
    }
  }

  lemma {:induction false} PairPathsAt(stems: seq<Name>, k: nat)
    requires k < |stems|
    ensures |PairPaths(stems)| == 2 * |stems|
    ensures PairPaths(stems)[2 * k] == Idx(stems[k]) && PairPaths(stems)[2 * k + 1] == Pack(stems[k])
  {
    var n := |stems| - 1;
    if k < n {
      PairPathsAt(stems[..n], k);
    } else if n > 0 {
      PairPathsAt(stems[..n], 0);
    }
  }

  /** A pack that is to be removed comes right after its index. */
  lemma IndexListedFirst(a: seq<Path>, stems: seq<Name>, s: Name, i: nat)
    requires i <= |a + PairPaths(stems)| && Pack(s) in (a + PairPaths(stems))[..i] && Pack(s) !in a
    ensures Idx(s) in (a + PairPaths(stems))[..i]
  {
    hide PairPaths;
    var pairs := PairPaths(stems);
    var all := a + pairs;
    assert forall n | 0 <= n < |a| :: all[n] in a;
    var j :| 0 <= j < i && all[j] == Pack(s);
    var n := j - |a|;
    if stems != [] { PairPathsAt(stems, 0); } else { NoPairs(); }
    PairPathsAt(stems, n / 2);
    assert n == 2 * (n / 2) + 1;
    assert all[..i][j - 1] == pairs[n - 1] == Idx(s);
  }

  lemma NoPairs()
    ensures PairPaths([]) == []
  {
  }

  /** Every index has its pack. */
  ghost predicate IndexesBacked(f: Files) {
    forall s | Idx(s) in f :: Pack(s) in f
  }

  lemma {:induction false} WritesBack(f: Files, steps: seq<Step>)
    requires IndexesBacked(f) && PackFirst(steps) && forall i | 0 <= i < |steps| :: steps[i].Write?
    ensures IndexesBacked(ApplyAll(f, steps))
  {
    hide Writes, RenamesToTrash;
    var e := ApplyAll(f, steps);
    forall s | Idx(s) in e ensures Pack(s) in e {
      FollowFile(f, f, steps, Idx(s));
      if Writes(steps, Idx(s)) {
        WrittenStays(f, steps, Pack(s));
      } else {
        WritesGrow(f, steps, Pack(s));
      }
    }
  }

  lemma {:induction false} WrittenStays(f: Files, steps: seq<Step>, p: Path)
    requires Writes(steps, p) && forall i | 0 <= i < |steps| :: steps[i].Write?
    ensures p in ApplyAll(f, steps)
    decreases |steps|
  {
    var f1 := Apply(f, steps[0]);
    if steps[0].path == p {
      WritesGrow(f1, steps[1..], p);
    } else {
      var s: Step :| s in steps && s.Write? && s.path == p;
      assert s in steps[1..];
      WrittenStays(f1, steps[1..], p);
    }
  }

  /** Wherever a sweep stops, even inside a write, no index is left whose pack is gone,
      if there was none before. */
  lemma IndexGoesFirst(c: Codec, g: Contents, f: Files, live: set<Digest>, o: Options, k: nat, torn: Option<nat>)
    requires Sweepable(c, g, f, live) && (o.rewritePartialPacks ==> NamesFree(c, g, f, live))
    requires IndexesBacked(f) && k <= |SweepSteps(c, f, live, o)|
    ensures IndexesBacked(ApplyAll(f, Cut(SweepSteps(c, f, live, o), k, torn)))
  {
    hide Sweepable, SweepSteps, NamesFree, IndexesBacked, Cut, PackFirst, PlanOf, Executed, ReplacementSteps, Midway, VictimsOf, EvictPhase, TearsAt;
    var steps, first := SweepSteps(c, f, live, o), ReplacementSteps(c, g, Executed(f, live, o));
    if o.mode.DryRun? {
      DryRunIdle(c, f, live, o);
      NothingCut(f, steps, k, torn);
    } else {
      SweepShape(c, g, f, live, o);
      MidwayRewritten(c, g, f, live, o);
      if k < |first| || (k == |first| && !TearsAt(steps, k, torn)) {
        CutWrites(c, g, f, live, o, k, torn);
        WritesBack(f, Cut(steps, k, torn));
      } else {
        EvictWritesNothing(Midway(c, f, live, o), o.mode, VictimsOf(f, live, o));
        NotTornLater(steps, first, k, torn);
        CutUntornTree(f, steps, k, torn);
        BackedLater(c, g, f, live, o, k);
      }
    }
  }

  lemma NotTornLater(steps: seq<Step>, first: seq<Step>, k: nat, torn: Option<nat>)
    requires first <= steps && |first| <= k && forall i | |first| <= i < |steps| :: !steps[i].Write?
    ensures !TearsAt(steps, k, torn)
  {
  }

  lemma CutUntornTree(f: Files, steps: seq<Step>, k: nat, torn: Option<nat>)
    requires k <= |steps| && !TearsAt(steps, k, torn)
    ensures ApplyAll(f, Cut(steps, k, torn)) == ApplyAll(f, steps[..k])
  {
    CutTree(f, steps, k, torn);
  }

  /** Up to the end of phase 1 there are writes only. */
  lemma CutWrites(c: Codec, g: Contents, f: Files, live: set<Digest>, o: Options, k: nat, torn: Option<nat>)
    requires Sweepable(c, g, f, live) && !o.mode.DryRun?
    requires k <= |ReplacementSteps(c, g, Executed(f, live, o))| && k <= |SweepSteps(c, f, live, o)|
    ensures var cut := Cut(SweepSteps(c, f, live, o), k, torn);
            PackFirst(cut) && forall i | 0 <= i < |cut| :: cut[i].Write?
  {
    hide Sweepable, SweepSteps, PackFirst, PlanOf, Executed, ReplacementSteps;
    var steps, rs := SweepSteps(c, f, live, o), Executed(f, live, o);
    StopsRewriting(c, g, f, live, o, k);
    ReplacementsWrite(c, g, rs);
    SweepPackFirst(c, g, f, live, o, k);
    if k < |steps| { SweepPackFirst(c, g, f, live, o, k + 1); }
    CutPackFirst(steps, k, torn);
    forall i | 0 <= i < k ensures steps[..k][i].Write? {
      assert ReplacementSteps(c, g, rs)[..k][i] == ReplacementSteps(c, g, rs)[i];
    }
  }

  /** In phases 2 to 4. */
  lemma BackedLater(c: Codec, g: Contents, f: Files, live: set<Digest>, o: Options, k: nat)
    requires Sweepable(c, g, f, live) && (o.rewritePartialPacks ==> NamesFree(c, g, f, live)) && !o.mode.DryRun?
    requires IndexesBacked(f) && |ReplacementSteps(c, g, Executed(f, live, o))| <= k <= |SweepSteps(c, f, live, o)|
    ensures IndexesBacked(ApplyAll(f, SweepSteps(c, f, live, o)[..k]))
  {
    hide Sweepable, SweepSteps, NamesFree, PlanOf, Executed, ReplacementSteps, EvictPhase, Midway, Victims, GoneUpTo;
    var f1, victims := Midway(c, f, live, o), VictimsOf(f, live, o);
    var e := ApplyAll(f, SweepSteps(c, f, live, o)[..k]);
    MidwayBacked(c, g, f, live, o);
    var i := StoppedUpTo(c, g, f, live, o, k);
    forall s | Idx(s) in e ensures Pack(s) in e {
      VictimOrder(c, g, f, live, o, e, s, i);
    }
  }

  lemma MidwayBacked(c: Codec, g: Contents, f: Files, live: set<Digest>, o: Options)
    requires Sweepable(c, g, f, live) && !o.mode.DryRun? && IndexesBacked(f)
    ensures IndexesBacked(Midway(c, f, live, o))
  {
    hide Sweepable, PlanOf, Executed, ReplacementSteps, IndexesBacked, PackFirst, Rewritten, AllReady, RewritePhase;
    var first := ReplacementSteps(c, g, Executed(f, live, o));
    MidwayRewritten(c, g, f, live, o);
    ReplacementsPackFirst(c, g, Executed(f, live, o), |first|);
    ReplacementsWrite(c, g, Executed(f, live, o));
    assert first[..|first|] == first;
    WritesBack(f, first);
  }

  /** Whenever phase 1 is done, exactly the first of the victims are gone. */
  lemma StoppedUpTo(c: Codec, g: Contents, f: Files, live: set<Digest>, o: Options, k: nat) returns (i: nat)
    requires Sweepable(c, g, f, live) && !o.mode.DryRun?
    requires |ReplacementSteps(c, g, Executed(f, live, o))| <= k <= |SweepSteps(c, f, live, o)|
    ensures GoneUpTo(Midway(c, f, live, o), ApplyAll(f, SweepSteps(c, f, live, o)[..k]), VictimsOf(f, live, o), i)
  {
    hide Sweepable, SweepSteps, PlanOf, Executed, ReplacementSteps, EvictPhase, FirstPhase, Victims, GoneUpTo;
    var first, f1, victims := ReplacementSteps(c, g, Executed(f, live, o)), Midway(c, f, live, o), VictimsOf(f, live, o);
    SweepShape(c, g, f, live, o);
    MidwayRewritten(c, g, f, live, o);
    ApplyPrefix(f, first, EvictPhase(f1, o.mode, victims), k);
    VictimsNoTrash(f, live, o.rewritePartialPacks);
    i := EvictedUpTo(f1, o.mode, victims, k - |first|);
    assert first[..|first|] == first && EvictPhase(f1, o.mode, victims)[..0] == [];
  }

  lemma VictimOrder(c: Codec, g: Contents, f: Files, live: set<Digest>, o: Options, e: Files, s: Name, i: nat)
    requires Sweepable(c, g, f, live) && (o.rewritePartialPacks ==> NamesFree(c, g, f, live)) && !o.mode.DryRun?
    requires IndexesBacked(f) && IndexesBacked(Midway(c, f, live, o))
    requires GoneUpTo(Midway(c, f, live, o), e, VictimsOf(f, live, o), i) && Idx(s) in e
    ensures Pack(s) in e
  {
    hide Sweepable, PlanOf, Executed, Midway, NamesFree, PairPaths, NewName, WellFormed;
    var f1, plan, victims := Midway(c, f, live, o), PlanOf(f, live), VictimsOf(f, live, o);
    var a, stems := LoosePaths(plan.looseGarbage) + plan.orphanFiles, Removals(plan, o.rewritePartialPacks);
    if Pack(s) in victims[..i] {
      if Pack(s) in a {
        OrphanNotBacked(c, g, f, live, o, s);
      } else {
        IndexListedFirst(a, stems, s, i);
      }
    }
  }

  /** The index of an orphaned pack is not written by phase 1. */
  lemma OrphanNotBacked(c: Codec, g: Contents, f: Files, live: set<Digest>, o: Options, s: Name)
    requires Sweepable(c, g, f, live) && (o.rewritePartialPacks ==> NamesFree(c, g, f, live)) && !o.mode.DryRun?
    requires Pack(s) in LoosePaths(PlanOf(f, live).looseGarbage) + PlanOf(f, live).orphanFiles
    ensures Idx(s) !in Midway(c, f, live, o)
  {
    hide Sweepable, Midway, NewName, WellFormed, DecisionOf, LooseGarbage, FirstPhase, HasReplacement;
    MidwayRewritten(c, g, f, live, o);
    assert Orphan(f, Pack(s));
    assert !IsNewPath(c, g, Executed(f, live, o), Idx(s));
  }

  /** Nothing is deleted before all replacements are written, and no pack that is to
      be removed before all loose garbage and all orphans are gone. */
  lemma PhasesInOrder(c: Codec, g: Contents, f: Files, live: set<Digest>, o: Options, k: nat, p: Path)
    requires Sweepable(c, g, f, live) && !o.mode.DryRun? && k <= |SweepSteps(c, f, live, o)|
    requires p in f && !p.Trash? && p !in ApplyAll(f, SweepSteps(c, f, live, o)[..k])
    ensures k > |ReplacementSteps(c, g, Executed(f, live, o))|
    ensures var plan, e := PlanOf(f, live), ApplyAll(f, SweepSteps(c, f, live, o)[..k]);
            && (p.Pack? || p.Idx? ==> forall q | q in LoosePaths(plan.looseGarbage) :: q !in e)
            && (p in PairPaths(Removals(plan, o.rewritePartialPacks)) ==> forall q | q in plan.orphanFiles :: q !in e)
  {
    hide Sweepable, SweepSteps, PlanOf, Executed, ReplacementSteps, EvictPhase, Midway, PairPaths, RewrittenPacks, WellFormed, Removals;
    var plan, e, f1 := PlanOf(f, live), ApplyAll(f, SweepSteps(c, f, live, o)[..k]), Midway(c, f, live, o);
    SweepableHere(c, g, f, live);
    if k <= |ReplacementSteps(c, g, Executed(f, live, o))| {
      StopsRewriting(c, g, f, live, o, k);
      ReplacementsWrite(c, g, Executed(f, live, o));
      WritesGrow(f, SweepSteps(c, f, live, o)[..k], p);
    }
    var i := StoppedUpTo(c, g, f, live, o, k);
    MidwayGrows(c, g, f, live, o, p);
    VictimsNoTrash(f, live, o.rewritePartialPacks);
    var a, b, d := LoosePaths(plan.looseGarbage), plan.orphanFiles, PairPaths(Removals(plan, o.rewritePartialPacks));
    KindsApart(f, live, o.rewritePartialPacks);
    FrontGone(f1, e, a, b, d, i, p);
  }

  lemma SweepableHere(c: Codec, g: Contents, f: Files, live: set<Digest>)
    requires Sweepable(c, g, f, live)
    ensures Lawful(c) && WellFormed(c, g, f)
  {
  }

  lemma MidwayGrows(c: Codec, g: Contents, f: Files, live: set<Digest>, o: Options, p: Path)
    requires Sweepable(c, g, f, live) && !o.mode.DryRun? && p in f
    ensures p in Midway(c, f, live, o)
  {
    hide Sweepable, PlanOf, Executed, ReplacementSteps;
    MidwayRewritten(c, g, f, live, o);
    ReplacementsWrite(c, g, Executed(f, live, o));
    WritesGrow(f, ReplacementSteps(c, g, Executed(f, live, o)), p);
  }

  /** Loose garbage, orphans and removed packs are different files. */
  lemma KindsApart(f: Files, live: set<Digest>, rewrite: bool)
    ensures var plan := PlanOf(f, live);
            && (forall q | q in LoosePaths(plan.looseGarbage) :: q.Loose?)
            && (forall q | q in plan.orphanFiles :: Orphan(f, q))
            && forall q | q in PairPaths(Removals(plan, rewrite)) :: q !in plan.orphanFiles && (q.Pack? || q.Idx?)
  {
    hide DecisionOf, LooseGarbage, PairPaths;
    var plan := PlanOf(f, live);
    forall q | q in PairPaths(Removals(plan, rewrite)) ensures q !in plan.orphanFiles && (q.Pack? || q.Idx?) {
      PairPathsExact(Removals(plan, rewrite), q);
      RemovalIsPartial(f, live, rewrite, q.stem);
    }
  }

  /** What comes before a file that is gone is gone. */
  lemma FrontGone(f1: Files, e: Files, a: seq<Path>, b: seq<Path>, d: seq<Path>, i: nat, p: Path)
    requires NoTrash(a + b + d) && GoneUpTo(f1, e, a + b + d, i) && p in f1 && p !in e && !p.Trash?
    requires (forall q | q in a :: q.Loose?) && forall q | q in d :: q !in b && (q.Pack? || q.Idx?)
    ensures p.Pack? || p.Idx? ==> forall q | q in a :: q !in e
    ensures p in d ==> forall q | q in b :: q !in e
  {
    var all := a + b + d;
    forall n | 0 <= n < |a| ensures all[n].Loose? { assert all[n] in a; }
    forall n | |a| <= n < |a + b| ensures all[n] in b { assert all[n] == b[n - |a|]; }
    var j :| 0 <= j < i && all[..i][j] == p;
    if p.Pack? || p.Idx? {
      forall q | q in a ensures q !in e {
        var n :| 0 <= n < |a| && a[n] == q;
        assert all[..i][n] == q && q in all;
      }
    }
    if p in d {
      forall q | q in b ensures q !in e {
        var n :| 0 <= n < |b| && b[n] == q;
        assert all[..i][|a| + n] == q && q in all;
      }
    }
  }
}
