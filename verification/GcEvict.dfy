/** Phases 2 to 4 of a sweep: deleting or trashing files. */
module GcEvict {
  import opened Bytes
  import opened Disks
  import opened GcModel
  import opened Inventory

  /** Only files in `ps` can have gone, and none has changed or appeared
      outside the trash. */
  ghost predicate Pruned(f: Files, f': Files, ps: seq<Path>) {
    && Within(f', f)
    && forall p | p in f && !p.Trash? && p !in ps :: p in f'
  }

  ghost predicate NoTrash(ps: seq<Path>) {
    forall p | p in ps :: !p.Trash?
  }

  lemma PrunedTransitive(f: Files, f1: Files, f2: Files, p: Path, ps: seq<Path>)
    requires Pruned(f, f1, [p]) && Pruned(f1, f2, ps)
    ensures Pruned(f, f2, [p] + ps)
  {
    forall q | q in f && !q.Trash? && q !in [p] + ps ensures q in f2 {
      assert q !in [p] && q !in ps;
    }
  }

  /** The effects of evicting one file. */
  lemma EvictShape(f: Files, mode: SweepMode, p: Path)
    ensures var w := EvictSteps(f, mode, p);
            && (p !in f ==> w == [])
            && (p in f && mode.DeleteMode? ==> w == [Remove(p)])
            && (p in f && !mode.DeleteMode? && Trash(p) in f ==> w == [Remove(Trash(p)), Rename(p, Trash(p))])
            && (p in f && !mode.DeleteMode? && Trash(p) !in f ==> w == [Rename(p, Trash(p))])
  {
    if p in f && !mode.DeleteMode? && Trash(p) !in f {
      assert [] + [Rename(p, Trash(p))] == [Rename(p, Trash(p))];
    }
  }

  lemma EvictOnePrefix(f: Files, mode: SweepMode, p: Path, k: nat)
    requires !p.Trash? && k <= |EvictSteps(f, mode, p)|
    ensures Pruned(f, ApplyAll(f, EvictSteps(f, mode, p)[..k]), [p])
  {
    var w := EvictSteps(f, mode, p);
    EvictShape(f, mode, p);
    if k == 0 {
      assert w[..k] == [];
    } else if k == 1 {
      assert w[..k] == [w[0]];
      ApplyOne(f, w[0]);
    } else {
      assert w[..k] == [w[0], w[1]];
      ApplyTwo(f, w[0], w[1]);
    }
  }

  /** The tree after one file has been evicted. */
  lemma EvictOne(f: Files, mode: SweepMode, p: Path)
    requires !p.Trash?
    ensures ApplyAll(f, EvictSteps(f, mode, p)) ==
            if p !in f then f
            else if mode.DeleteMode? then f - {p}
            else (f - {p})[Trash(p) := f[p]]
  {
    var w := EvictSteps(f, mode, p);
    EvictShape(f, mode, p);
    if p in f {
      if |w| == 1 {
        ApplyOne(f, w[0]);
      } else {
        ApplyTwo(f, w[0], w[1]);
        assert ((f - {Trash(p)}) - {p})[Trash(p) := f[p]] == (f - {p})[Trash(p) := f[p]];
      }
    }
  }

  /** After any number of effects of phases 2 to 4. */
  lemma {:induction false} EvictPrefix(f: Files, mode: SweepMode, ps: seq<Path>, k: nat)
    requires NoTrash(ps) && k <= |EvictPhase(f, mode, ps)|
    ensures Pruned(f, ApplyAll(f, EvictPhase(f, mode, ps)[..k]), ps)
    decreases |ps|
  {
    if ps != [] {
      var p, w := ps[0], EvictSteps(f, mode, ps[0]);
      var f1 := ApplyAll(f, w);
      var rest := EvictPhase(f1, mode, ps[1..]);
      assert ps == [p] + ps[1..];
      ApplyPrefix(f, w, rest, k);
      if k <= |w| {
        EvictOnePrefix(f, mode, p, k);
      } else {
        EvictOnePrefix(f, mode, p, |w|);
        assert w[..|w|] == w;
        EvictPrefix(f1, mode, ps[1..], k - |w|);
        PrunedTransitive(f, f1, ApplyAll(f, (w + rest)[..k]), p, ps[1..]);
      }
    }
  }

  /** What the phases leave when they run to their end: the victims are gone,
      every other file is as it was, and in trash mode each victim that existed
      is in the trash, byte for byte, while other trash is untouched. */
  ghost predicate Evicted(f: Files, f': Files, mode: SweepMode, ps: seq<Path>) {
    && (forall p | p in ps :: p !in f')
    && (forall p: Path | !p.Trash? && p !in ps :: SameAt(f, f', p))
    && (forall p | p !in ps || p !in f || mode.DeleteMode? :: SameAt(f, f', Trash(p)))
    && (!mode.DeleteMode? ==> forall p | p in ps && p in f :: Trash(p) in f' && f'[Trash(p)] == f[p])
  }

  lemma EvictedOne(f: Files, mode: SweepMode, p: Path)
    requires !p.Trash?
    ensures Evicted(f, ApplyAll(f, EvictSteps(f, mode, p)), mode, [p])
  {
    EvictOne(f, mode, p);
  }

  lemma EvictedCons(f: Files, f1: Files, f2: Files, mode: SweepMode, p: Path, ps: seq<Path>)
    requires !p.Trash? && NoTrash(ps)
    requires Evicted(f, f1, mode, [p]) && Evicted(f1, f2, mode, ps)
    ensures Evicted(f, f2, mode, [p] + ps)
  {
    var all := [p] + ps;
    forall q | q in all ensures q !in f2 {
      if q !in ps { assert q == p && SameAt(f1, f2, p) && p in [p]; }
    }
    forall q: Path | !q.Trash? && q !in all ensures SameAt(f, f2, q) {
      assert q !in [p] && q !in ps;
      assert SameAt(f, f1, q) && SameAt(f1, f2, q);
    }
    forall q | q !in all || q !in f || mode.DeleteMode? ensures SameAt(f, f2, Trash(q)) {
      if q in ps && q != p {
        assert SameAt(f, f1, q);
      }
      assert SameAt(f, f1, Trash(q)) && SameAt(f1, f2, Trash(q));
    }
    if !mode.DeleteMode? {
      forall q | q in all && q in f ensures Trash(q) in f2 && f2[Trash(q)] == f[q] {
        if q == p {
          assert q in [p] && q !in f1;
          assert SameAt(f1, f2, Trash(q));
        } else {
          assert q in ps && q !in [p];
          assert SameAt(f, f1, q);
        }
      }
    }
  }

  lemma {:induction false} EvictAll(f: Files, mode: SweepMode, ps: seq<Path>)
    requires NoTrash(ps)
    ensures Evicted(f, ApplyAll(f, EvictPhase(f, mode, ps)), mode, ps)
    decreases |ps|
  {
    if ps != [] {
      var w := EvictSteps(f, mode, ps[0]);
      var f1 := ApplyAll(f, w);
      assert ps == [ps[0]] + ps[1..];
      EvictedOne(f, mode, ps[0]);
      EvictAll(f1, mode, ps[1..]);
      ApplyAllConcat(f, w, EvictPhase(f1, mode, ps[1..]));
      EvictedCons(f, f1, ApplyAll(f, EvictPhase(f, mode, ps)), mode, ps[0], ps[1..]);
    }
  }

  /* The victims of a plan */

  lemma {:induction false} PairPathsExact(stems: seq<Name>, p: Path)
    ensures p in PairPaths(stems) <==> (p.Pack? || p.Idx?) && p.stem in stems
  {
    if stems != [] {
      PairPathsExact(stems[..|stems| - 1], p);
      assert stems == stems[..|stems| - 1] + [stems[|stems| - 1]];
    }
  }

  lemma VictimsExact(f: Files, live: set<Digest>, rewrite: bool, p: Path)
    ensures var plan := PlanOf(f, live);
            p in Victims(plan, rewrite) <==>
              || (p.Loose? && p.h in ListedHashes(f) - live)
              || Orphan(f, p)
              || ((p.Pack? || p.Idx?) && p.stem in Removals(plan, rewrite))
    ensures p.Loose? && !PlanFails(f, live) ==> (p in Victims(PlanOf(f, live), rewrite) <==> p in f && p.h !in live)
  {
    var plan := PlanOf(f, live);
    PairPathsExact(Removals(plan, rewrite), p);
    LooseHashesExact(f);
    ListedHashesExact(f);
    assert p in LoosePaths(plan.looseGarbage) <==> p.Loose? && p.h in ListedHashes(f) - live by {
      if p.Loose? && p.h in plan.looseGarbage {
        var i :| 0 <= i < |plan.looseGarbage| && plan.looseGarbage[i] == p.h;
        assert LoosePaths(plan.looseGarbage)[i] == p;
      }
    }
  }

  lemma VictimsNoTrash(f: Files, live: set<Digest>, rewrite: bool)
    ensures NoTrash(Victims(PlanOf(f, live), rewrite))
  {
    forall p | p in Victims(PlanOf(f, live), rewrite) ensures !p.Trash? {
      VictimsExact(f, live, rewrite, p);
    }
  }
}
