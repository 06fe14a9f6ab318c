/** Runs of a store that starts without orphans. */
module StoreRuns {
  import opened Bytes
  import opened Codecs
  import opened Disks
  import opened Errors
  import opened GcConverge
  import opened GcFixpoint
  import opened GcModel
  import opened GcOutcome
  import opened GcRewrite
  import opened GcSafety
  import opened Inventory
  import opened PackFiles
  import opened PackFormat
  import opened RingCache
  import opened Store
  import opened StoreModel
  import opened StoreRefinement

  ghost predicate Tidy(f: Files) {
    forall p :: !Orphan(f, p)
  }

  lemma TidyNamesFree(c: Codec, g: Contents, f: Files, live: set<Digest>)
    requires Tidy(f)
    ensures NamesFree(c, g, f, live)
  {
    hide PlanOf, NewName, Orphan;
  }

  /** Files outside the pack directory make no orphans. */
  lemma SamePacksTidy(f: Files, f': Files)
    requires Tidy(f) && forall p: Path | p.Pack? || p.Idx? :: SameAt(f, f', p)
    ensures Tidy(f')
  {
    forall p ensures !Orphan(f', p) {
      assert !Orphan(f, p);
      if p.Pack? || p.Idx? {
        assert SameAt(f, f', p) && SameAt(f, f', Partner(p));
      }
    }
  }

  /** Nor does a written pack. */
  lemma CreateTidy(c: Codec, f: Files, got: seq<Blob>)
    requires Tidy(f)
    ensures Tidy(ApplyAll(f, CreateSteps(c, got)))
  {
    hide PackBytes, CreatedIndex, PackName;
    var q := PackName(c, got);
    ApplyTwo(f, Write(Pack(q), PackBytes(c, got)), Write(Idx(q), CreatedIndex(c, got)));
    PairAddsNoOrphan(f, q, PackBytes(c, got), CreatedIndex(c, got));
  }

  lemma RepackRunTidy(cfg: Config, s: State, threshold: nat, r: Result<nat, CasError>, got: seq<Blob>, steps: seq<Step>, s': State)
    requires RepackRun(cfg, s, threshold, r, got, steps, s') && Tidy(s.files)
    ensures Tidy(s'.files)
  {
    hide GetNext, CreateSteps, Tidy, IsListing, GetsNext, Happened;
    var listed :| IsListing(s.files, listed) && RepackListed(cfg, s, listed, threshold, r, got, steps, s');
    if |listed| > threshold {
      var error: Option<CasError>, s1 :| GetsNext(cfg, s, listed, got, error, s1) && RepackWrites(cfg, s, listed, error, s1, r, got, steps, s');
      if error.None? {
        var f1 := ApplyAll(s.files, CreateSteps(cfg.c, got));
        var denied :| |denied| == |listed| && steps == CreateSteps(cfg.c, got) + Happened(f1, listed, denied);
        CreateTidy(cfg.c, s.files, got);
        ApplyAllConcat(s.files, CreateSteps(cfg.c, got), Happened(f1, listed, denied));
        HappenedEffect(f1, listed, denied);
        SamePacksTidy(f1, s'.files);
      } else {
        GetsKeepFiles(cfg, s, listed, got, error, s1);
      }
    }
  }

  lemma {:induction false} GetsKeepFiles(cfg: Config, s: State, hs: seq<Digest>, got: seq<Blob>, error: Option<CasError>, s': State)
    requires GetsNext(cfg, s, hs, got, error, s')
    ensures s'.files == s.files
    decreases |hs|
  {
    hide GetNext;
    if hs != [] {
      var n := |hs| - 1;
      var before, e, s1 :| GetsNext(cfg, s, hs[..n], before, e, s1) && ReadNext(cfg, hs[n], before, e, s1, got, error, s');
      GetsKeepFiles(cfg, s, hs[..n], before, e, s1);
      forall r | GetNext(cfg, s1, hs[n], r, s') ensures s'.files == s1.files {
        GetKeepsFiles(cfg, s1, hs[n], r, s');
      }
    }
  }

  lemma GetKeepsFiles(cfg: Config, s: State, h: Digest, r: Result<Bytes, CasError>, s': State)
    requires GetNext(cfg, s, h, r, s')
    ensures s'.files == s.files
  {
    hide ReadLoose, ReadPacked, Position, AllIndexed, Indexed, HashesOf;
  }

  /** Completed calls leave no orphan. */
  lemma NextTidy(cfg: Config, g: Contents, s: State, op: Op, reply: Reply, s': State)
    requires Lawful(cfg.c) && Good(cfg.c, g, s) && Reasonable(cfg, g, s, op)
    requires Next(cfg, s, op, reply, s') && Tidy(s.files)
    ensures Tidy(s'.files)
  {
    hide ParseIndex, ReadBlob, WellFormed, Present, PlanOf, NamesFree, SweepOutcome, After, GetNext, RepackRun, HasNext, MarkNext, Good, Orphan, Tidy;
    match op {
      case Repack(threshold) =>
        var steps :| RepackRun(cfg, s, threshold, reply.count, reply.got, steps, s');
        RepackRunTidy(cfg, s, threshold, reply.count, reply.got, steps, s');
      case Sweep(live, o) =>
        if o.mode.DryRun? {
          DryRunIdle(cfg.c, s.files, live, o);
        } else {
          SweepTidy(cfg.c, g, s, live, o);
        }
      case Get(h) =>
        GetKeepsFiles(cfg, s, h, reply.data, s');
      case Has(h) =>
        HasKeepsFiles(s, h, reply.present, s');
      case Mark(roots) =>
        MarkKeepsFiles(s, roots, reply.marked, s');
      case _ =>
        SamePacksTidy(s.files, s'.files);
    }
  }

  lemma HasKeepsFiles(s: State, h: Digest, present: bool, s': State)
    requires HasNext(s, h, present, s')
    ensures s'.files == s.files && s'.blobCache == s.blobCache
  {
    hide AllIndexed;
  }

  lemma MarkKeepsFiles(s: State, roots: set<Digest>, r: Result<LiveSet, CasError>, s': State)
    requires MarkNext(s, roots, r, s')
    ensures s'.files == s.files && s'.blobCache == s.blobCache
  {
    hide AllIndexed, Seen, SortedDigests;
  }

  lemma SweepTidy(c: Codec, g: Contents, s: State, live: set<Digest>, o: Options)
    requires Lawful(c) && Good(c, g, s) && ReplacementsInPlay(c, g, PlanOf(s.files, live).packsToRewrite)
    requires Tidy(s.files) && !o.mode.DryRun?
    ensures Tidy(ApplyAll(s.files, SweepOutcome(c, s.files, live, o).steps))
  {
    hide NamesFree, SweepOutcome, Orphan, ApplyAll, WellFormed, PlanOf;
    var f := s.files;
    TidyNamesFree(c, g, f, live);
    assert After(c, f, live, o) == ApplyAll(f, SweepOutcome(c, f, live, o).steps);
    forall p ensures !Orphan(After(c, f, live, o), p) {
      AfterNoOrphans(c, g, f, live, o, p);
    }
  }

  /** The refinement without a condition on names: a good store that starts
      without orphans refines the map over every run of reasonable calls. */
  lemma {:induction false} TidyRunRefines(cfg: Config, g: Contents, states: seq<State>, ops: seq<Op>, replies: seq<Reply>, i: nat)
    requires Lawful(cfg.c) && IsRun(cfg, states, ops, replies)
    requires Good(cfg.c, g, states[0]) && Tidy(states[0].files)
    requires forall j | 0 <= j < |ops| :: Reasonable(cfg, g, states[j], ops[j])
    requires i <= |ops|
    ensures Good(cfg.c, g, states[i]) && Tidy(states[i].files)
    ensures i < |ops| ==> AbstractNext(cfg.c, Abstract(g, states[i].files), ops[i], replies[i], Abstract(g, states[i + 1].files))
  {
    hide Next, AbstractNext, Good, Reasonable, NamesFree, Tidy;
    if i > 0 {
      TidyRunRefines(cfg, g, states, ops, replies, i - 1);
      assert Next(cfg, states[i - 1], ops[i - 1], replies[i - 1], states[i]);
      StepOfRun(cfg, g, states[i - 1], ops[i - 1]);
      NextRefines(cfg, g, states[i - 1], ops[i - 1], replies[i - 1], states[i]);
      NextTidy(cfg, g, states[i - 1], ops[i - 1], replies[i - 1], states[i]);
    }
    if i < |ops| {
      assert Next(cfg, states[i], ops[i], replies[i], states[i + 1]);
      StepOfRun(cfg, g, states[i], ops[i]);
      NextRefines(cfg, g, states[i], ops[i], replies[i], states[i + 1]);
    }
  }

  lemma StepOfRun(cfg: Config, g: Contents, s: State, op: Op)
    requires Tidy(s.files) && Reasonable(cfg, g, s, op)
    ensures Admissible(cfg, g, s, op)
  {
    hide Tidy, Reasonable, NamesFree;
    if op.Sweep? {
      TidyNamesFree(cfg.c, g, s.files, op.live);
    }
  }

  /* Marking and sweeping */

  /** The full cycle: marking some roots and then sweeping against what was marked
      leaves exactly the roots that were there, each with its bytes. */
  lemma MarkThenSweep(cfg: Config, g: Contents, s: State, roots: set<Digest>, live: LiveSet, s1: State, o: Options, reply: Reply, s2: State)
    requires Lawful(cfg.c) && Good(cfg.c, g, s) && Tidy(s.files)
    requires Next(cfg, s, Mark(roots), Marked(Ok(live)), s1)
    requires Next(cfg, s1, Sweep(live.live, o), reply, s2) && Reasonable(cfg, g, s1, Sweep(live.live, o))
    requires !o.mode.DryRun? && o.rewritePartialPacks
    ensures reply == Swept(true)
    ensures live.live == roots * Blobs(Abstract(g, s.files)).Keys
    ensures var m := Blobs(Abstract(g, s.files)); Blobs(Abstract(g, s2.files)) == map h | h in roots && h in m :: m[h]
  {
    hide Next, Good, Tidy, Reasonable, NamesFree, SortedDigests, Abstract, Blobs, Admissible, AbstractNext, Lawful;
    var m, m1, m2 := Abstract(g, s.files), Abstract(g, s1.files), Abstract(g, s2.files);
    MarkReasonable(cfg, g, s, roots);
    StepOfRun(cfg, g, s, Mark(roots));
    NextRefines(cfg, g, s, Mark(roots), Marked(Ok(live)), s1);
    NextTidy(cfg, g, s, Mark(roots), Marked(Ok(live)), s1);
    StepOfRun(cfg, g, s1, Sweep(live.live, o));
    NextRefines(cfg, g, s1, Sweep(live.live, o), reply, s2);
    MarkOnMap(cfg.c, m, roots, live, m1);
    SweepOnMap(cfg.c, m, live.live, o, reply, m2);
    Restricted(Blobs(m), Blobs(m2), roots);
  }

  lemma MarkReasonable(cfg: Config, g: Contents, s: State, roots: set<Digest>)
    ensures Reasonable(cfg, g, s, Mark(roots))
  {
  }

  lemma MarkOnMap(c: Codec, m: Model, roots: set<Digest>, live: LiveSet, m': Model)
    requires AbstractNext(c, m, Mark(roots), Marked(Ok(live)), m')
    ensures m' == m && live.live == roots * Blobs(m).Keys
  {
    hide SortedDigests;
  }

  lemma SweepOnMap(c: Codec, m: Model, live: set<Digest>, o: Options, reply: Reply, m': Model)
    requires AbstractNext(c, m, Sweep(live, o), reply, m') && !o.mode.DryRun? && o.rewritePartialPacks
    ensures reply == Swept(true)
    ensures Blobs(m').Keys == Blobs(m).Keys * live && forall h | h in Blobs(m') :: Blobs(m')[h] == Blobs(m)[h]
  {
    hide Blobs;
    SweptValues(m, m', live);
  }

  lemma SweptValues(m: Model, m': Model, live: set<Digest>)
    requires m'.loose == (map h | h in m.loose && h in live :: m.loose[h]) && Submap(m'.packed, m.packed)
    requires Blobs(m').Keys == Blobs(m).Keys * live
    ensures forall h | h in Blobs(m') :: h in Blobs(m) && Blobs(m')[h] == Blobs(m)[h]
  {
    forall h | h in Blobs(m') ensures h in Blobs(m) && Blobs(m')[h] == Blobs(m)[h] {
      assert h in Blobs(m').Keys;
      assert h in Blobs(m).Keys && h in live;
      assert h in m.loose <==> h in m'.loose;
    }
  }

  lemma Restricted(m: map<Digest, Bytes>, m': map<Digest, Bytes>, roots: set<Digest>)
    requires m'.Keys == m.Keys * (roots * m.Keys) && forall h | h in m' :: m'[h] == m[h]
    ensures m' == map h | h in roots && h in m :: m[h]
  {
    assert forall h :: h in m' <==> h in m'.Keys;
  }

  /** Marking takes a root for live although no store with empty caches reads it
      exactly when it has no loose file, an alias lists it or the pack cache holds it,
      and no pack does or some index on disk does not load. */
  lemma MarkedUnreadableExactly(c: Codec, g: Contents, s: State, roots: set<Digest>, live: LiveSet, s': State, h: Digest)
    requires WellFormed(c, g, s.files) && MarkNext(s, roots, Ok(live), s')
    ensures (h in live.live && forall d :: !ReadsAs(c, s.files, h, d)) <==>
            && h in roots && Loose(h) !in s.files
            && ((exists p :: p in s.files && p.Alias? && p.h == h) || h in CachedHashes(CacheAsked(s).value))
            && (h !in Present(s.files) || !AllIndexed(s.files))
  {
    hide ParseIndex, ReadBlob, WellFormed, CachedHashes, SortedDigests, ReadsAs, AllIndexed;
    ReadsAtAll(c, g, s.files, h);
    PresentExact(s.files);
    ListedHashesExact(s.files);
    if p :| p in s.files && p.Alias? && p.h == h { assert Names(p, h); }
    if p :| p in s.files && Names(p, h) { assert p.Loose? ==> p == Loose(h); }
  }

  /** In a truthful tree a digest reads exactly when it is loose, or packed and all
      indexes load. */
  lemma ReadsAtAll(c: Codec, g: Contents, f: Files, h: Digest)
    requires WellFormed(c, g, f)
    ensures (exists d :: ReadsAs(c, f, h, d)) <==> Loose(h) in f || (h in Present(f) && AllIndexed(f))
  {
    hide ParseIndex, ReadBlob;
    if Loose(h) in f {
      assert GoodLoose(c, g, h, f[Loose(h)]);
      assert ReadsAs(c, f, h, g(h));
    } else if AllIndexed(f) {
      WellFormedReads(c, g, f, h);
    }
  }
}
