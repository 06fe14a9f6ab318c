/** Runs in which any call may crash, and the store is opened again. */
module CrashRuns {
  import opened Bytes
  import opened Codecs
  import opened Damage
  import opened DamagedCopies
  import opened Disks
  import opened Errors
  import opened GcModel
  import opened GcRewrite
  import opened GcSafety
  import opened Inventory
  import opened PackFormat
  import opened RepackCrash
  import opened RepackReads
  import opened RingCache
  import opened StoreModel
  import opened StoreRefinement
  import opened StoreRuns
  import opened SweepFailure

  /** A call that ran to its end, or one that stopped after some of its effects,
      the last of which may be a torn write. */
  datatype Event =
    | Call(op: Op, reply: Reply)
    | Crash(op: Op, steps: seq<Step>, stop: nat, torn: Option<nat>)

  function PutSteps(cfg: Config, f: Files, data: Bytes): seq<Step> {
    var h := cfg.c.hash(data);
    if Loose(h) in f then [] else [Write(Loose(h), Encode(cfg.c, cfg.compress, data))]
  }

  /** The effects, in order, that a call may have. */
  ghost predicate MayDo(cfg: Config, s: State, op: Op, steps: seq<Step>) {
    match op
    case Put(data) => steps == PutSteps(cfg, s.files, data)
    case PutNew(data) => steps == PutSteps(cfg, s.files, data)
    case PutWithHash(data, h) => steps == if cfg.c.hash(data) == h then PutSteps(cfg, s.files, data) else []
    case Delete(h) => steps == if Loose(h) in s.files then [Remove(Loose(h))] else []
    case Repack(threshold) => exists r, got, s' :: RepackRun(cfg, s, threshold, r, got, steps, s')
    case Sweep(live, o) => steps == SweepSteps(cfg.c, s.files, live, o)
    case External(_) => false
    case _ => steps == []
  }

  /** After a crash the store is opened again: its caches are empty. */
  ghost predicate EventNext(cfg: Config, s: State, e: Event, s': State) {
    match e
    case Call(op, reply) =>
      Next(cfg, s, op, reply, s')
    case Crash(op, steps, k, torn) =>
      && MayDo(cfg, s, op, steps) && k <= |steps|
      && s' == State(ApplyAll(s.files, Cut(steps, k, torn)), None, [], true)
  }

  ghost predicate IsCrashRun(cfg: Config, states: seq<State>, events: seq<Event>) {
    && |states| == |events| + 1
    && forall i | 0 <= i < |events| :: EventNext(cfg, states[i], events[i], states[i + 1])
  }

  /** A call that ran to its end has had all of its effects. */
  lemma CallDoes(cfg: Config, s: State, op: Op, reply: Reply, s': State) returns (steps: seq<Step>)
    requires Next(cfg, s, op, reply, s') && !op.External?
    ensures MayDo(cfg, s, op, steps) && s'.files == ApplyAll(s.files, steps)
  {
    hide GetNext, HasNext, MarkNext, SweepOutcome, Encode, RepackRun;
    match op {
      case Put(data) =>
        steps := PutSteps(cfg, s.files, data);
        PutApplies(cfg, s.files, data);
      case PutNew(data) =>
        steps := PutSteps(cfg, s.files, data);
        PutApplies(cfg, s.files, data);
      case PutWithHash(data, h) =>
        steps := if cfg.c.hash(data) == h then PutSteps(cfg, s.files, data) else [];
        PutApplies(cfg, s.files, data);
      case Delete(h) =>
        steps := if Loose(h) in s.files then [Remove(Loose(h))] else [];
        if Loose(h) in s.files { ApplyOne(s.files, Remove(Loose(h))); }
      case Repack(threshold) =>
        var w :| RepackRun(cfg, s, threshold, reply.count, reply.got, w, s');
        steps := w;
        RepackApplies(cfg, s, threshold, reply.count, reply.got, steps, s');
      case Sweep(live, o) =>
        steps := SweepSteps(cfg.c, s.files, live, o);
      case Get(h) =>
        steps := [];
        GetKeepsFiles(cfg, s, h, reply.data, s');
      case Has(h) =>
        steps := [];
        HasKeepsFiles(s, h, reply.present, s');
      case Mark(roots) =>
        steps := [];
        MarkKeepsFiles(s, roots, reply.marked, s');
      case _ =>
        steps := [];
    }
  }

  lemma PutApplies(cfg: Config, f: Files, data: Bytes)
    ensures var h := cfg.c.hash(data);
            ApplyAll(f, PutSteps(cfg, f, data)) == if Loose(h) in f then f else f[Loose(h) := Encode(cfg.c, cfg.compress, data)]
  {
    var h := cfg.c.hash(data);
    if Loose(h) !in f { ApplyOne(f, Write(Loose(h), Encode(cfg.c, cfg.compress, data))); }
  }

  lemma RepackApplies(cfg: Config, s: State, threshold: nat, r: Result<nat, CasError>, got: seq<Blob>, steps: seq<Step>, s': State)
    requires RepackRun(cfg, s, threshold, r, got, steps, s')
    ensures s'.files == ApplyAll(s.files, steps)
  {
    hide GetsNext, IsListing, CreateSteps, Happened;
    var listed :| IsListing(s.files, listed) && RepackListed(cfg, s, listed, threshold, r, got, steps, s');
    if |listed| > threshold {
      var error: Option<CasError>, s1 :| GetsNext(cfg, s, listed, got, error, s1) && RepackWrites(cfg, s, listed, error, s1, r, got, steps, s');
      GetsKeepFiles(cfg, s, listed, got, error, s1);
    }
  }

  /* What such runs keep */

  /** A loose file that reads under verification holds its content: no hash
      collision among the strings at hand. */
  ghost predicate LooseReadsTruthfully(c: Codec, g: Contents, f: Files) {
    forall h: Digest | Loose(h) in f && Decode(c, f[Loose(h)]).Ok? && c.hash(Decode(c, f[Loose(h)]).value) == h ::
      GoodFile(c, g, f, h)
  }

  /** What the ring cache holds is right, and so is the loose file beside it. */
  ghost predicate RingAgrees(c: Codec, g: Contents, s: State) {
    forall b | b in s.blobCache ::
      b.data == g(b.hash) && c.hash(b.data) == b.hash && (Loose(b.hash) in s.files ==> GoodFile(c, g, s.files, b.hash))
  }

  /** A sound tree from which the tree differs by damage only. */
  ghost predicate SoundBehind(c: Codec, g: Contents, f: Files, f': Files) {
    && Behind(c, g, f, f') && Unaliased(f)
    && forall h: Digest | Loose(h) in f :: |g(h)| <= MAX_DECOMPRESSED
  }

  ghost predicate Repairable(c: Codec, g: Contents, s: State) {
    && (exists f :: SoundBehind(c, g, f, s.files))
    && LooseReadsTruthfully(c, g, s.files) && RingAgrees(c, g, s) && s.verify
  }

  /** What is asked of a call, completed or not, for a blob's sake: data in play,
      within the cap and storable; no deletion of the blob; no index without a pack
      under the name of a repack's pack; of a sweep, that no orphan has a
      replacement's name, that the blob is live, and that it leaves a copy of it. */
  ghost predicate Permitted(cfg: Config, g: Contents, s: State, op: Op, h: Digest) {
    match op
    case Put(data) => Acceptable(cfg, g, data)
    case PutNew(data) => Acceptable(cfg, g, data)
    case PutWithHash(data, k) => cfg.c.hash(data) == k ==> Acceptable(cfg, g, data)
    case Delete(k) => k != h
    case Repack(_) =>
      && |LooseList(s.files)| < U32_SIZE && NoStrayName(cfg.c, g, s.files)
      && InPlay(cfg.c, g, CreatedIndex(cfg.c, Objects(g, LooseList(s.files))))
    case Sweep(live, o) =>
      || o.mode.DryRun?
      || (&& ReplacementsInPlay(cfg.c, g, PlanOf(s.files, live).packsToRewrite)
          && (o.rewritePartialPacks ==> NamesFree(cfg.c, g, s.files, live))
          && h in live && CopyStays(cfg.c, g, s.files, live, o, h))
    case SetVerifyOnRead(on) => on
    case External(_) => false
    case _ => true
  }

  /* Reads */

  lemma PackedReadRight(c: Codec, g: Contents, f: Files, t: Name, h: Digest)
    requires ReadsTruthfully(c, g, f)
    ensures ReadPacked(c, f, t, h).Ok? ==> ReadPacked(c, f, t, h) == Ok(g(h)) && c.hash(g(h)) == h
  {
    hide ParseIndex, ReadBlob, Find;
    if Paired(f, t) && ParseIndex(f[Idx(t)]).Ok? {
      assert TruthfulPack(c, g, f[Pack(t)], f[Idx(t)]);
      ReadBlobFacts(c, f[Pack(t)], ParseIndex(f[Idx(t)]).value, h);
    }
  }

  /** A read returns the content or fails, and leaves a ring cache that is right. */
  lemma GetIsRight(cfg: Config, g: Contents, s: State, h: Digest, r: Result<Bytes, CasError>, s': State)
    requires ReadsTruthfully(cfg.c, g, s.files) && LooseReadsTruthfully(cfg.c, g, s.files) && RingAgrees(cfg.c, g, s) && s.verify
    requires GetNext(cfg, s, h, r, s')
    ensures s'.files == s.files && s'.verify && RingAgrees(cfg.c, g, s')
    ensures r.Ok? ==> r.value == g(h) && (Loose(h) in s.files ==> GoodFile(cfg.c, g, s.files, h))
  {
    hide ParseIndex, ReadBlob, Find, ReadPacked, Position, AllIndexed, ReadsTruthfully, Decode;
    match Position(s.blobCache, h) {
      case Some(i) =>
        PositionHit(s.blobCache, h);
      case None =>
        forall t ensures ReadPacked(cfg.c, s.files, t, h).Ok? ==> ReadPacked(cfg.c, s.files, t, h) == Ok(g(h)) && cfg.c.hash(g(h)) == h {
          PackedReadRight(cfg.c, g, s.files, t, h);
        }
    }
  }

  /** So a repack that writes anything has found every loose file good. */
  lemma {:induction false} GetsAreRight(cfg: Config, g: Contents, s: State, hs: seq<Digest>, got: seq<Blob>, error: Option<CasError>, s': State)
    requires ReadsTruthfully(cfg.c, g, s.files) && LooseReadsTruthfully(cfg.c, g, s.files) && RingAgrees(cfg.c, g, s) && s.verify
    requires GetsNext(cfg, s, hs, got, error, s')
    ensures s'.files == s.files && s'.verify && RingAgrees(cfg.c, g, s')
    ensures error.None? ==> forall h | h in hs && Loose(h) in s.files :: GoodFile(cfg.c, g, s.files, h)
    decreases |hs|
  {
    hide GetNext, RingAgrees, LooseReadsTruthfully, ReadsTruthfully, GoodFile;
    if hs != [] {
      var n := |hs| - 1;
      assert hs == hs[..n] + [hs[n]];
      var before, e, s1 :| GetsNext(cfg, s, hs[..n], before, e, s1) && ReadNext(cfg, hs[n], before, e, s1, got, error, s');
      GetsAreRight(cfg, g, s, hs[..n], before, e, s1);
      if e.None? {
        var r :| GetNext(cfg, s1, hs[n], r, s') && ReadAdds(before, hs[n], r, got, error);
        GetIsRight(cfg, g, s1, hs[n], r, s');
      }
    }
  }

  /* Effects */

  lemma NothingNew(f: Files, steps: seq<Step>, p: Path)
    requires PackFirst(steps) && p in ApplyAll(f, steps) && !p.Trash? && !p.Pack? && !p.Idx?
    ensures p in f
  {
    hide Writes;
    FollowFile(f, f, steps, p);
  }

  /** Effects on packs, and deletions, leave a tree with a sound one behind it, if
      the sound tree stays sound. */
  lemma FollowsBehind(c: Codec, g: Contents, f: Files, f': Files, e1: Files, e: Files, e': Files)
    requires Behind(c, g, f, f') && Follows(f, f', e1, e') && Behind(c, g, e, e1)
    ensures Behind(c, g, e, e')
  {
    hide WellFormed, TruthfulPack;
    SameKeys(e1, e');
    SameKeys(e, e1);
    SameKeys(f, f');
    forall s | Paired(e', s) ensures TruthfulPack(c, g, e'[Pack(s)], e'[Idx(s)]) {
      assert TruthfulPack(c, g, e1[Pack(s)], e1[Idx(s)]);
      if e'[Pack(s)] != e1[Pack(s)] {
        assert TruthfulPack(c, g, f'[Pack(s)], f'[Idx(s)]);
      }
    }
  }

  lemma StepsBehind(c: Codec, g: Contents, f: Files, f': Files, cut: seq<Step>, e: Files, whole: seq<Step>)
    requires SoundBehind(c, g, f, f') && PackFirst(cut) && PackFirst(whole)
    requires e == ApplyAll(f, whole) && Behind(c, g, e, ApplyAll(f, cut))
    ensures SoundBehind(c, g, e, ApplyAll(f', cut))
    ensures LooseReadsTruthfully(c, g, f') ==> LooseReadsTruthfully(c, g, ApplyAll(f', cut))
    ensures forall h: Digest | Loose(h) in ApplyAll(f', cut) :: SameAt(f', ApplyAll(f', cut), Loose(h))
  {
    hide Behind, PackFirst, Follows;
    var e' := ApplyAll(f', cut);
    assert Damaged(f, f') by { BehindDamaged(c, g, f, f'); }
    FollowAll(f, f', cut);
    FollowsBehind(c, g, f, f', ApplyAll(f, cut), e, e');
    FollowsLoose(f, f', ApplyAll(f, cut), e');
    forall p | p in e && (p.Loose? || p.Alias?) ensures p in f {
      NothingNew(f, whole, p);
    }
    assert forall h: Digest | Loose(h) in e' :: SameAt(f', e', Loose(h));
  }

  lemma BehindDamaged(c: Codec, g: Contents, f: Files, f': Files)
    requires Behind(c, g, f, f')
    ensures Damaged(f, f') && WellFormed(c, g, f) && ReadsTruthfully(c, g, f') && f.Keys == f'.Keys
  {
  }

  lemma FollowsLoose(f: Files, f': Files, e: Files, e': Files)
    requires Follows(f, f', e, e')
    ensures forall h: Digest | Loose(h) in e' :: SameAt(f', e', Loose(h))
  {
    SameKeys(e, e');
  }

  /* Puts and deletions */

  /** Writing anything under a loose name that is free. */
  lemma LooseWritten(c: Codec, g: Contents, f: Files, f': Files, k: Digest, raw: Bytes, h: Digest)
    requires Lawful(c) && SoundBehind(c, g, f, f') && Loose(k) !in f' && c.hash(g(k)) == k && |g(k)| <= MAX_DECOMPRESSED
    ensures SoundBehind(c, g, f[Loose(k) := c.compress(g(k))], f'[Loose(k) := raw])
    ensures HasCopy(c, g, f', h) ==> HasCopy(c, g, f'[Loose(k) := raw], h)
  {
    hide ParseIndex, ReadBlob;
    var e, e' := f[Loose(k) := c.compress(g(k))], f'[Loose(k) := raw];
    SameKeys(f, f');
    assert c.inflate(c.compress(g(k))) == Some(g(k));
    forall s ensures SamePack(f, e, s) && SamePack(f', e', s) {
    }
    forall s | Indexed(e, s) ensures GoodPack(c, g, s, e[Pack(s)], e[Idx(s)]) {
      assert GoodPack(c, g, s, f[Pack(s)], f[Idx(s)]);
    }
    forall x: Digest | Loose(x) in e ensures GoodLoose(c, g, x, e[Loose(x)]) {
      if x != k { assert GoodLoose(c, g, x, f[Loose(x)]); }
    }
    forall s | Paired(e', s) ensures TruthfulPack(c, g, e'[Pack(s)], e'[Idx(s)]) {
      assert TruthfulPack(c, g, f'[Pack(s)], f'[Idx(s)]);
    }
    CopyElsewhere(c, g, f', e', h);
  }

  lemma LooseDeleted(c: Codec, g: Contents, f: Files, f': Files, k: Digest, h: Digest)
    requires SoundBehind(c, g, f, f') && k != h
    ensures SoundBehind(c, g, f - {Loose(k)}, f' - {Loose(k)})
    ensures HasCopy(c, g, f', h) ==> HasCopy(c, g, f' - {Loose(k)}, h)
  {
    hide ParseIndex, ReadBlob, WellFormed, TruthfulPack, Indexed, HashesOf;
    var e, e' := f - {Loose(k)}, f' - {Loose(k)};
    SameKeys(f, f');
    WithinWellFormed(c, g, e, f);
    forall s | Paired(e', s) ensures TruthfulPack(c, g, e'[Pack(s)], e'[Idx(s)]) {
      assert TruthfulPack(c, g, f'[Pack(s)], f'[Idx(s)]);
    }
    CopyElsewhere(c, g, f', e', h);
  }

  lemma CopyElsewhere(c: Codec, g: Contents, f: Files, f': Files, h: Digest)
    requires Loose(h) in f ==> SameAt(f, f', Loose(h))
    requires forall s :: SamePack(f, f', s)
    ensures HasCopy(c, g, f, h) ==> HasCopy(c, g, f', h)
  {
    hide ParseIndex, ReadBlob, Decode, Indexed, HashesOf;
    if HasCopy(c, g, f, h) && !GoodFile(c, g, f, h) {
      var s :| GoodRecord(c, g, f, s, h);
      SameRecord(c, g, f, f', s, h);
    }
  }

  lemma SameRecord(c: Codec, g: Contents, f: Files, f': Files, s: Name, h: Digest)
    requires SamePack(f, f', s) && GoodRecord(c, g, f, s, h)
    ensures GoodRecord(c, g, f', s, h)
  {
    hide ParseIndex, ReadBlob;
    SamePackHashes(f, f', s);
  }

  /* Repacks */

  /** A repack that has effects has read every loose file, and found it good. */
  lemma RepackFindsGood(cfg: Config, g: Contents, s: State, threshold: nat, r: Result<nat, CasError>, got: seq<Blob>, steps: seq<Step>, s': State)
    requires ReadsTruthfully(cfg.c, g, s.files) && LooseReadsTruthfully(cfg.c, g, s.files) && RingAgrees(cfg.c, g, s) && s.verify
    requires Unaliased(s.files) && RepackRun(cfg, s, threshold, r, got, steps, s')
    ensures s'.verify && RingAgrees(cfg.c, g, s'.(files := s.files))
    ensures steps != [] ==> LooseList(s.files) != [] && forall h: Digest | Loose(h) in s.files :: GoodFile(cfg.c, g, s.files, h)
  {
    hide GetsNext, IsListing, CreateSteps, Happened, RingAgrees, LooseReadsTruthfully, ReadsTruthfully, GoodFile, LooseList, ApplyAll;
    var listed :| IsListing(s.files, listed) && RepackListed(cfg, s, listed, threshold, r, got, steps, s');
    ListsLoose(s.files, listed);
    LooseHashesExact(s.files);
    if |listed| > threshold {
      var error: Option<CasError>, s1 :| GetsNext(cfg, s, listed, got, error, s1) && RepackWrites(cfg, s, listed, error, s1, r, got, steps, s');
      GetsAreRight(cfg, g, s, listed, got, error, s1);
      SameRing(cfg.c, g, s1, s'.(files := s.files));
    } else {
      SameRing(cfg.c, g, s, s'.(files := s.files));
    }
  }

  lemma SameRing(c: Codec, g: Contents, s: State, s': State)
    requires RingAgrees(c, g, s) && s'.blobCache == s.blobCache
    requires forall h: Digest | Loose(h) in s'.files :: SameAt(s.files, s'.files, Loose(h))
    ensures RingAgrees(c, g, s')
  {
  }

  /** The effects of a repack up to a crash: its pack, its index, deletions. */
  lemma CutEffect(c: Codec, g: Contents, f: Files, failed: set<Digest>, k: nat, torn: Option<nat>, i: nat)
    requires k <= |RepackEffects(c, g, f, failed)| && i < |Cut(RepackEffects(c, g, f, failed), k, torn)|
    ensures var s, q := Cut(RepackEffects(c, g, f, failed), k, torn)[i], RepackName(c, g, f);
            if i == 0 then s.Write? && s.path == Pack(q)
            else if i == 1 then s.Write? && s.path == Idx(q)
            else s.Remove? && s.path.Loose?
  {
    hide PackBytes, CreatedIndex, PackName, LooseList, Objects, Deletions, Cut;
    var effects, dels := RepackEffects(c, g, f, failed), Deletions(LooseList(f), failed);
    OnlyRemoves(LooseList(f), failed);
    CutAt(effects, k, torn, i);
    if i > 1 { assert effects[i] == dels[i - 2] && dels[i - 2] in dels; }
  }

  lemma RepackPackFirst(c: Codec, g: Contents, f: Files, failed: set<Digest>, k: nat, torn: Option<nat>)
    requires k <= |RepackEffects(c, g, f, failed)|
    ensures var cut := Cut(RepackEffects(c, g, f, failed), k, torn);
            PackFirst(cut) && forall p: Path | !p.Loose? && p != Pack(RepackName(c, g, f)) && p != Idx(RepackName(c, g, f)) :: Avoids(cut, p)
  {
    hide RepackEffects, RepackName, Cut;
    var q, cut := RepackName(c, g, f), Cut(RepackEffects(c, g, f, failed), k, torn);
    forall i | 0 <= i < |cut|
      ensures if i == 0 then cut[i].Write? && cut[i].path == Pack(q)
              else if i == 1 then cut[i].Write? && cut[i].path == Idx(q)
              else cut[i].Remove? && cut[i].path.Loose?
    {
      CutEffect(c, g, f, failed, k, torn, i);
    }
    if cut != [] { assert cut[0] in cut; }
  }

  lemma CutAt(steps: seq<Step>, k: nat, torn: Option<nat>, i: nat)
    requires k <= |steps| && i < |Cut(steps, k, torn)|
    ensures i < |steps|
    ensures steps[i].Remove? ==> Cut(steps, k, torn)[i] == steps[i]
    ensures steps[i].Write? ==> Cut(steps, k, torn)[i].Write? && Cut(steps, k, torn)[i].path == steps[i].path
  {
  }

  lemma {:induction false} OnlyRemoves(hs: seq<Digest>, failed: set<Digest>)
    ensures forall s | s in Deletions(hs, failed) :: s.Remove? && s.path.Loose?
  {
    if hs != [] {
      OnlyRemoves(hs[..|hs| - 1], failed);
    }
  }

  lemma SoundRepackable(c: Codec, g: Contents, f: Files, f': Files)
    requires Lawful(c) && SoundBehind(c, g, f, f')
    requires LooseList(f') != [] && |LooseList(f')| < U32_SIZE && NoStrayName(c, g, f')
    requires InPlay(c, g, CreatedIndex(c, Objects(g, LooseList(f'))))
    ensures LooseList(f) == LooseList(f') && Repackable(c, g, f) && NoStrayName(c, g, f)
    ensures forall failed :: RepackEffects(c, g, f', failed) == RepackEffects(c, g, f, failed)
    ensures Unaliased(f')
  {
    hide ParseIndex, ReadBlob, CreatedIndex, Objects, PackName;
    BehindDamaged(c, g, f, f');
    SameKeys(f, f');
    DamagedLists(f, f');
    PresentExact(f);
    forall h | h in Present(f) ensures |g(h)| <= MAX_DECOMPRESSED {
      if Loose(h) !in f {
        var s :| Indexed(f, s) && h in HashesOf(f, s);
        PackContent(c, g, f, s, h);
      }
    }
  }

  /** A crash point of a repack. */
  lemma RepackCut(cfg: Config, g: Contents, s: State, f: Files, threshold: nat, r: Result<nat, CasError>, got: seq<Blob>,
                  steps: seq<Step>, s': State, k: nat, torn: Option<nat>, h: Digest) returns (e: Files)
    requires Lawful(cfg.c) && SoundBehind(cfg.c, g, f, s.files) && LooseReadsTruthfully(cfg.c, g, s.files) && RingAgrees(cfg.c, g, s) && s.verify
    requires Permitted(cfg, g, s, Repack(threshold), h)
    requires RepackRun(cfg, s, threshold, r, got, steps, s') && k <= |steps|
    ensures var e' := ApplyAll(s.files, Cut(steps, k, torn));
            && SoundBehind(cfg.c, g, e, e') && LooseReadsTruthfully(cfg.c, g, e')
            && (forall x: Digest | Loose(x) in e' :: SameAt(s.files, e', Loose(x)))
            && (HasCopy(cfg.c, g, s.files, h) ==> HasCopy(cfg.c, g, e', h))
  {
    hide RepackRun, RingAgrees, LooseReadsTruthfully, RepackEffects, Cut, PackFirst, Behind, Repackable, CreatedIndex, Objects, LooseList, NoStrayName, HasCopy, LooseTruthful, TrueFor, ReadsTruthfully, Damaged, GoodFile;
    var c, f' := cfg.c, s.files;
    BehindDamaged(c, g, f, f');
    SameKeys(f, f');
    RepackFindsGood(cfg, g, s, threshold, r, got, steps, s');
    if steps == [] {
      NothingCut(f', steps, k, torn);
      e := f;
    } else {
      SoundRepackable(c, g, f, f');
      GoodFilesTruthful(c, g, f, f');
      RingIsTrue(c, g, s);
      var failed := RepackRunEffects(cfg, g, s, threshold, r, got, steps, s');
      var effects, cut := RepackEffects(c, g, f, failed), Cut(steps, k, torn);
      FirstIsPack(c, g, f, failed);
      e := BehindCrash(c, g, f, failed, k, torn);
      RepackPackFirst(c, g, f, failed, k, torn);
      RepackPackFirst(c, g, f, failed, 1, None);
      assert Cut(effects, 1, None) == effects[..1] by { CutTree(f, effects, 1, None); CutNone(effects, 1); }
      StepsBehind(c, g, f, f', cut, e, if TearsAt(effects, k, torn) && k == 0 then effects[..1] else cut);
      if HasCopy(c, g, f', h) { RepackCopy(c, g, f, f', failed, k, torn, h); }
    }
  }

  lemma CutNone(steps: seq<Step>, k: nat)
    requires k <= |steps|
    ensures Cut(steps, k, None) == steps[..k]
  {
  }

  lemma GoodFilesTruthful(c: Codec, g: Contents, f: Files, f': Files)
    requires WellFormed(c, g, f) && f.Keys == f'.Keys
    requires forall h: Digest | Loose(h) in f' :: GoodFile(c, g, f', h)
    ensures LooseTruthful(c, g, f')
  {
    hide ParseIndex, ReadBlob, Decode;
    SameKeys(f, f');
    forall h: Digest | Loose(h) in f' ensures GoodLoose(c, g, h, f'[Loose(h)]) {
      assert GoodFile(c, g, f', h) && GoodLoose(c, g, h, f[Loose(h)]);
    }
  }

  lemma RingIsTrue(c: Codec, g: Contents, s: State)
    requires RingAgrees(c, g, s)
    ensures forall hs :: TrueFor(g, s.blobCache, hs)
  {
  }

  /** A blob with a copy keeps one: its loose file, or the new pack, or a pack of
      another name. */
  lemma RepackCopy(c: Codec, g: Contents, f: Files, f': Files, failed: set<Digest>, k: nat, torn: Option<nat>, h: Digest)
    requires Repackable(c, g, f) && NoStrayName(c, g, f) && Damaged(f, f') && LooseTruthful(c, g, f') && HasCopy(c, g, f', h)
    requires k <= |RepackEffects(c, g, f, failed)|
    ensures HasCopy(c, g, ApplyAll(f', Cut(RepackEffects(c, g, f, failed), k, torn)), h)
  {
    hide ParseIndex, ReadBlob, RepackEffects, RepackName, Cut, PackFirst, Repackable, Damaged, LooseTruthful, NoStrayName, Avoids, HashesOf;
    var q, cut := RepackName(c, g, f), Cut(RepackEffects(c, g, f, failed), k, torn);
    var e' := ApplyAll(f', cut);
    DamagedKeys(f, f');
    SameKeys(f, f');
    RepackPackFirst(c, g, f, failed, k, torn);
    if Loose(h) in e' {
      FollowAll(f, f', cut);
      FollowsLoose(f, f', ApplyAll(f, cut), e');
      LooseIsGood(c, g, f', h);
    } else if Loose(h) in f' {
      assert k > 2 by { if k <= 2 { EarlyKeepsLoose(c, g, f, f', failed, k, torn, h); } }
      DeletedIsPacked(c, g, f, f', failed, k, torn, h);
    } else {
      var t :| GoodRecord(c, g, f', t, h);
      DamagedPacks(f, f');
      if t == q { OldPackHoldsLoose(c, g, f); LooseHashesExact(f); }
      Untouched(f', cut, Pack(t));
      Untouched(f', cut, Idx(t));
      SameRecord(c, g, f', e', t, h);
    }
  }

  lemma LooseIsGood(c: Codec, g: Contents, f: Files, h: Digest)
    requires LooseTruthful(c, g, f) && Loose(h) in f
    ensures GoodFile(c, g, f, h)
  {
    assert GoodLoose(c, g, h, f[Loose(h)]);
  }

  lemma EarlyKeepsLoose(c: Codec, g: Contents, f: Files, f': Files, failed: set<Digest>, k: nat, torn: Option<nat>, h: Digest)
    requires k <= 2 && k <= |RepackEffects(c, g, f, failed)| && Loose(h) in f'
    ensures Loose(h) in ApplyAll(f', Cut(RepackEffects(c, g, f, failed), k, torn))
  {
    hide RepackEffects;
    var cut := Cut(RepackEffects(c, g, f, failed), k, torn);
    forall i | 0 <= i < |cut| ensures cut[i].Write? {
      if i > 1 { CutEffect(c, g, f, failed, k, torn, i); }
      if i <= 1 { CutEffect(c, g, f, failed, k, torn, i); }
    }
    WritesGrow(f', cut, Loose(h));
  }

  lemma DeletedIsPacked(c: Codec, g: Contents, f: Files, f': Files, failed: set<Digest>, k: nat, torn: Option<nat>, h: Digest)
    requires Repackable(c, g, f) && NoStrayName(c, g, f) && Damaged(f, f') && Loose(h) in f
    requires 2 < k <= |RepackEffects(c, g, f, failed)|
    ensures GoodRecord(c, g, ApplyAll(f', Cut(RepackEffects(c, g, f, failed), k, torn)), RepackName(c, g, f), h)
  {
    hide ParseIndex, ReadBlob, PackBytes, CreatedIndex, PackName, Objects, LooseList, Cut, Damaged, PackFirst, WellFormed, Present, LooseHashes, AllIndexed;
    var effects, q, cut := RepackEffects(c, g, f, failed), RepackName(c, g, f), Cut(RepackEffects(c, g, f, failed), k, torn);
    var e, e' := ApplyAll(f, cut), ApplyAll(f', cut);
    var dels := Deletions(LooseList(f), failed);
    if TearsAt(effects, k, torn) { TornAtPair(c, g, f, failed, k); }
    CutTree(f, effects, k, torn);
    assert cut == effects[..k] by { CutUntorn(effects, k, torn); }
    RepackPrefix(c, g, f, failed, k);
    PackedFacts(c, g, f);
    ApplyPrefix(f, CreateSteps(c, Objects(g, LooseList(f))), dels, k);
    var j := DeletionsPrefix(LooseList(f), failed, k - 2);
    DeletionsEffect(Packed(c, g, f), LooseList(f)[..j], failed);
    LooseHashesExact(f);
    assert SamePack(Packed(c, g, f), e, q);
    SamePackHashes(Packed(c, g, f), e, q);
    PackContent(c, g, e, q, h);
    RepackPackFirst(c, g, f, failed, k, torn);
    DamagedKeys(f, f');
    assert Writes(cut, Pack(q)) && Writes(cut, Idx(q)) by { BothWritten(c, g, f, failed, k, torn); }
    PackFirstMeans(cut, q);
    FollowFile(f, f', cut, Pack(q));
    FollowFile(f, f', cut, Idx(q));
    SameKeys(e, e');
    SamePackHashes(e, e', q);
  }

  lemma CutUntorn(steps: seq<Step>, k: nat, torn: Option<nat>)
    requires k <= |steps| && !TearsAt(steps, k, torn)
    ensures Cut(steps, k, torn) == steps[..k]
  {
  }

  lemma BothWritten(c: Codec, g: Contents, f: Files, failed: set<Digest>, k: nat, torn: Option<nat>)
    requires 2 <= k <= |RepackEffects(c, g, f, failed)|
    ensures var cut := Cut(RepackEffects(c, g, f, failed), k, torn);
            Writes(cut, Pack(RepackName(c, g, f))) && Writes(cut, Idx(RepackName(c, g, f)))
  {
    hide RepackEffects, RepackName, Cut;
    var cut := Cut(RepackEffects(c, g, f, failed), k, torn);
    CutLength(RepackEffects(c, g, f, failed), k, torn);
    CutEffect(c, g, f, failed, k, torn, 0);
    CutEffect(c, g, f, failed, k, torn, 1);
    assert cut[0] in cut && cut[1] in cut;
  }

  lemma CutLength(steps: seq<Step>, k: nat, torn: Option<nat>)
    requires k <= |steps|
    ensures |Cut(steps, k, torn)| >= k
  {
  }

  /* Sweeps */

  lemma SweepBehind(c: Codec, g: Contents, f: Files, f': Files, live: set<Digest>, o: Options, k: nat, torn: Option<nat>, h: Digest) returns (e: Files)
    requires Lawful(c) && SoundBehind(c, g, f, f') && LooseReadsTruthfully(c, g, f')
    requires ReplacementsInPlay(c, g, PlanOf(f', live).packsToRewrite) && (o.rewritePartialPacks ==> NamesFree(c, g, f', live))
    requires h in live && CopyStays(c, g, f', live, o, h)
    requires k <= |SweepSteps(c, f', live, o)|
    ensures var e' := ApplyAll(f', Cut(SweepSteps(c, f', live, o), k, torn));
            && SoundBehind(c, g, e, e') && LooseReadsTruthfully(c, g, e')
            && (forall x: Digest | Loose(x) in e' :: SameAt(f', e', Loose(x)))
            && (HasCopy(c, g, f', h) ==> HasCopy(c, g, e', h))
  {
    hide LooseReadsTruthfully, SweepSteps, Cut, PackFirst, Behind, HasCopy, Damaged, PlanFails, NamesFree, PlanOf, ReadsTruthfully, WellFormed, CopyStays;
    BehindDamaged(c, g, f, f');
    DamagedPlan(f, f', live);
    NamesFreeAlike(c, g, f, f', live);
    if HasCopy(c, g, f', h) { DamagedCopyKept(c, g, f, f', live, o, k, torn, h); }
    if PlanFails(f, live) {
      PlanFailsIdle(c, f', live, o);
      NothingCut(f', SweepSteps(c, f', live, o), k, torn);
      e := f;
    } else {
      IsSweepable(c, g, f, live);
      DamagedSteps(c, g, f, f', live, o);
      var t := CutOfPrefix(SweepSteps(c, f, live, o), SweepSteps(c, f', live, o), k, torn);
      var cut := Cut(SweepSteps(c, f, live, o), k, t);
      CutFollows(c, g, f, f', live, o, k, t);
      CutEarlyOrLate(c, g, f, live, o, k, t);
      e := ApplyAll(f, cut);
      BehindItself(c, g, e);
      StepsBehind(c, g, f, f', cut, e, cut);
    }
  }

  lemma NamesFreeAlike(c: Codec, g: Contents, f: Files, f': Files, live: set<Digest>)
    requires Damaged(f, f')
    ensures NamesFree(c, g, f, live) == NamesFree(c, g, f', live)
  {
    hide PlanOf, NewName;
    DamagedPlan(f, f', live);
    SameKeys(f, f');
    assert forall p :: Orphan(f, p) == Orphan(f', p);
  }

  /* Calls and crashes */

  /** Loose files are as they were, or hold their contents. */
  ghost predicate LooseKept(c: Codec, g: Contents, f: Files, f': Files) {
    forall x: Digest | Loose(x) in f' :: SameAt(f, f', Loose(x)) || GoodFile(c, g, f', x)
  }

  lemma PutCut(cfg: Config, g: Contents, s: State, f: Files, data: Bytes, k: nat, torn: Option<nat>, h: Digest) returns (e: Files)
    requires Lawful(cfg.c) && SoundBehind(cfg.c, g, f, s.files) && Acceptable(cfg, g, data)
    requires k <= |PutSteps(cfg, s.files, data)|
    ensures var steps := PutSteps(cfg, s.files, data); var e' := ApplyAll(s.files, Cut(steps, k, torn));
            && SoundBehind(cfg.c, g, e, e')
            && (HasCopy(cfg.c, g, s.files, h) ==> HasCopy(cfg.c, g, e', h))
            && (k == |steps| ==> LooseKept(cfg.c, g, s.files, e'))
  {
    hide SoundBehind, Storable, HasCopy, Decode, Encode;
    var steps, x := PutSteps(cfg, s.files, data), cfg.c.hash(data);
    CutTree(s.files, steps, k, torn);
    var e' := ApplyAll(s.files, Cut(steps, k, torn));
    if e' == s.files {
      e := f;
    } else {
      PutWrites(cfg, s.files, data, k, torn);
      e := f[Loose(x) := cfg.c.compress(data)];
      LooseWritten(cfg.c, g, f, s.files, x, e'[Loose(x)], h);
      DecodeInvertsEncode(cfg.c, cfg.compress, data);
    }
  }

  lemma PutWrites(cfg: Config, f: Files, data: Bytes, k: nat, torn: Option<nat>)
    requires k <= |PutSteps(cfg, f, data)|
    ensures var x := cfg.c.hash(data); var f' := ApplyAll(f, Cut(PutSteps(cfg, f, data), k, torn));
            || f' == f
            || (Loose(x) !in f && Loose(x) in f' && f' == f[Loose(x) := f'[Loose(x)]] &&
                (k == |PutSteps(cfg, f, data)| ==> f'[Loose(x)] == Encode(cfg.c, cfg.compress, data)))
  {
    hide Encode;
    var steps := PutSteps(cfg, f, data);
    CutTree(f, steps, k, torn);
    if steps != [] {
      if k == 0 { assert steps[..0] == []; } else { assert steps[..k] == steps; ApplyOne(f, steps[0]); }
    } else {
      assert steps[..k] == [];
    }
  }

  lemma DeleteCut(cfg: Config, g: Contents, s: State, f: Files, x: Digest, k: nat, torn: Option<nat>, h: Digest) returns (e: Files)
    requires SoundBehind(cfg.c, g, f, s.files) && x != h
    requires k <= |if Loose(x) in s.files then [Remove(Loose(x))] else []|
    ensures var e' := ApplyAll(s.files, Cut(if Loose(x) in s.files then [Remove(Loose(x))] else [], k, torn));
            && SoundBehind(cfg.c, g, e, e') && LooseKept(cfg.c, g, s.files, e')
            && (HasCopy(cfg.c, g, s.files, h) ==> HasCopy(cfg.c, g, e', h))
  {
    hide SoundBehind, HasCopy, GoodFile;
    var steps: seq<Step> := if Loose(x) in s.files then [Remove(Loose(x))] else [];
    CutTree(s.files, steps, k, torn);
    if k == 0 {
      assert steps[..k] == [];
      e := f;
    } else {
      assert steps[..k] == steps;
      ApplyOne(s.files, steps[0]);
      LooseDeleted(cfg.c, g, f, s.files, x, h);
      e := f - {Loose(x)};
    }
  }

  /** However far a permitted call gets. */
  lemma EffectsKeep(cfg: Config, g: Contents, s: State, op: Op, steps: seq<Step>, k: nat, torn: Option<nat>, h: Digest)
    requires Lawful(cfg.c) && Repairable(cfg.c, g, s) && Permitted(cfg, g, s, op, h)
    requires MayDo(cfg, s, op, steps) && k <= |steps|
    ensures var e' := ApplyAll(s.files, Cut(steps, k, torn));
            && (exists e :: SoundBehind(cfg.c, g, e, e'))
            && (HasCopy(cfg.c, g, s.files, h) ==> HasCopy(cfg.c, g, e', h))
            && (k == |steps| ==> LooseKept(cfg.c, g, s.files, e'))
  {
    hide SoundBehind, HasCopy, GoodFile, RingAgrees, LooseReadsTruthfully, RepackRun, Cut, PutSteps, SweepSteps, CopyStays, Acceptable, NamesFree, PlanOf;
    var f :| SoundBehind(cfg.c, g, f, s.files);
    match op {
      case Put(data) =>
        var e := PutCut(cfg, g, s, f, data, k, torn, h);
      case PutNew(data) =>
        var e := PutCut(cfg, g, s, f, data, k, torn, h);
      case PutWithHash(data, x) =>
        if cfg.c.hash(data) == x {
          var e := PutCut(cfg, g, s, f, data, k, torn, h);
        } else {
          NothingCut(s.files, steps, k, torn);
        }
      case Delete(x) =>
        var e := DeleteCut(cfg, g, s, f, x, k, torn, h);
      case Repack(threshold) =>
        var r, got, s' :| RepackRun(cfg, s, threshold, r, got, steps, s');
        var e := RepackCut(cfg, g, s, f, threshold, r, got, steps, s', k, torn, h);
      case Sweep(live, o) =>
        if o.mode.DryRun? {
          DryRunIdle(cfg.c, s.files, live, o);
          NothingCut(s.files, steps, k, torn);
        } else {
          var e := SweepBehind(cfg.c, g, f, s.files, live, o, k, torn, h);
        }
      case _ =>
        NothingCut(s.files, steps, k, torn);
    }
  }

  lemma RingKept(c: Codec, g: Contents, s: State, f: Files)
    requires RingAgrees(c, g, s.(files := f)) && LooseKept(c, g, f, s.files)
    ensures RingAgrees(c, g, s)
  {
    hide Decode;
  }

  /** The ring cache that a completed call leaves, judged by the files before it. */
  lemma CallRing(cfg: Config, g: Contents, s: State, op: Op, reply: Reply, s': State, h: Digest)
    requires Repairable(cfg.c, g, s) && Permitted(cfg, g, s, op, h) && Next(cfg, s, op, reply, s')
    ensures s'.verify && RingAgrees(cfg.c, g, s'.(files := s.files))
  {
    hide SoundBehind, RingAgrees, LooseReadsTruthfully, GetNext, RepackRun, HasNext, MarkNext, SweepOutcome, CopyStays, Acceptable, NamesFree, PlanOf, ReadsTruthfully;
    var f :| SoundBehind(cfg.c, g, f, s.files);
    SoundTruthful(cfg.c, g, f, s.files);
    match op {
      case Get(x) =>
        GetIsRight(cfg, g, s, x, reply.data, s');
      case Repack(threshold) =>
        var steps :| RepackRun(cfg, s, threshold, reply.count, reply.got, steps, s');
        RepackFindsGood(cfg, g, s, threshold, reply.count, reply.got, steps, s');
      case Has(x) =>
        HasKeepsFiles(s, x, reply.present, s');
        HasKeepsVerify(s, x, reply.present, s');
        SameRing(cfg.c, g, s, s'.(files := s.files));
      case Mark(roots) =>
        MarkKeepsFiles(s, roots, reply.marked, s');
        MarkKeepsVerify(s, roots, reply.marked, s');
        SameRing(cfg.c, g, s, s'.(files := s.files));
      case _ =>
        SameRing(cfg.c, g, s, s'.(files := s.files));
    }
  }

  lemma SoundTruthful(c: Codec, g: Contents, f: Files, f': Files)
    requires SoundBehind(c, g, f, f')
    ensures ReadsTruthfully(c, g, f') && Unaliased(f')
  {
    hide WellFormed, ReadsTruthfully;
    SameKeys(f, f');
  }

  lemma HasKeepsVerify(s: State, h: Digest, present: bool, s': State)
    requires HasNext(s, h, present, s')
    ensures s'.verify == s.verify
  {
    hide AllIndexed;
  }

  lemma MarkKeepsVerify(s: State, roots: set<Digest>, r: Result<LiveSet, CasError>, s': State)
    requires MarkNext(s, roots, r, s')
    ensures s'.verify == s.verify
  {
    hide AllIndexed, Seen, SortedDigests;
  }

  ghost predicate EventPermitted(cfg: Config, g: Contents, s: State, e: Event, h: Digest) {
    Permitted(cfg, g, s, e.op, h)
  }

  lemma EventKeeps(cfg: Config, g: Contents, s: State, e: Event, s': State, h: Digest)
    requires Lawful(cfg.c) && Repairable(cfg.c, g, s) && EventPermitted(cfg, g, s, e, h) && EventNext(cfg, s, e, s')
    requires LooseReadsTruthfully(cfg.c, g, s'.files)
    ensures Repairable(cfg.c, g, s')
    ensures HasCopy(cfg.c, g, s.files, h) ==> HasCopy(cfg.c, g, s'.files, h)
  {
    hide SoundBehind, HasCopy, RingAgrees, LooseReadsTruthfully, Next, MayDo, Cut, LooseKept, Permitted;
    match e {
      case Call(op, reply) =>
        assert !op.External? by { NotExternal(cfg, g, s, op, h); }
        var steps := CallDoes(cfg, s, op, reply, s');
        EffectsKeep(cfg, g, s, op, steps, |steps|, None, h);
        CutWhole(steps);
        CallRing(cfg, g, s, op, reply, s', h);
        RingKept(cfg.c, g, s', s.files);
      case Crash(op, steps, k, torn) =>
        EffectsKeep(cfg, g, s, op, steps, k, torn, h);
        EmptyRing(cfg.c, g, s');
    }
  }

  lemma NotExternal(cfg: Config, g: Contents, s: State, op: Op, h: Digest)
    requires Permitted(cfg, g, s, op, h)
    ensures !op.External?
  {
    hide CopyStays, Acceptable, NamesFree, PlanOf;
  }

  lemma EmptyRing(c: Codec, g: Contents, s: State)
    requires s.blobCache == []
    ensures RingAgrees(c, g, s)
  {
  }

  /** Durability over runs with crashes: from a repairable store, over any run of
      puts, reads, deletions, repacks and sweeps of which each may stop after any of
      its effects, whole or torn, and the store is opened again, a blob that has a
      good copy has one in every state, if every call is permitted for its sake and
      no strings at hand collide. */
  lemma {:induction false} CopiesLast(cfg: Config, g: Contents, states: seq<State>, events: seq<Event>, h: Digest, i: nat)
    requires Lawful(cfg.c) && IsCrashRun(cfg, states, events) && i <= |events|
    requires Repairable(cfg.c, g, states[0]) && HasCopy(cfg.c, g, states[0].files, h)
    requires forall j | 0 <= j < |events| :: EventPermitted(cfg, g, states[j], events[j], h)
    requires forall j | 0 <= j <= |events| :: LooseReadsTruthfully(cfg.c, g, states[j].files)
    ensures Repairable(cfg.c, g, states[i]) && HasCopy(cfg.c, g, states[i].files, h)
  {
    hide Repairable, HasCopy, EventPermitted, EventNext, LooseReadsTruthfully;
    if i > 0 {
      CopiesLast(cfg, g, states, events, h, i - 1);
      EventKeeps(cfg, g, states[i - 1], events[i - 1], states[i], h);
    }
  }

  /* What is in the way */

  /** A damaged loose file, or an index that does not load, or another pack that
      lists the digest and does not read it. */
  ghost predicate InTheWay(c: Codec, g: Contents, f: Files, h: Digest) {
    if Loose(h) in f then !GoodFile(c, g, f, h)
    else !AllIndexed(f) || exists s :: Indexed(f, s) && h in HashesOf(f, s) && !GoodRecord(c, g, f, s, h)
  }

  /** In such a store a blob with a copy reads exactly when nothing is in the way. */
  lemma CopyReadsExactly(c: Codec, g: Contents, s: State, h: Digest)
    requires Repairable(c, g, s) && HasCopy(c, g, s.files, h)
    ensures ReadsAs(c, s.files, h, g(h)) <==> !InTheWay(c, g, s.files, h)
  {
    hide ParseIndex, ReadBlob, Decode, Indexed, HashesOf, WellFormed;
    var f :| SoundBehind(c, g, f, s.files);
    BehindDamaged(c, g, f, s.files);
    CopyHashes(c, g, f, s.files, h);
  }

  lemma CopyHashes(c: Codec, g: Contents, f: Files, f': Files, h: Digest)
    requires WellFormed(c, g, f) && Damaged(f, f') && HasCopy(c, g, f', h)
    ensures c.hash(g(h)) == h
  {
    hide ParseIndex, ReadBlob, Decode;
    SameKeys(f, f');
    DamagedPacks(f, f');
    if GoodFile(c, g, f', h) {
      assert GoodLoose(c, g, h, f[Loose(h)]);
    } else {
      var s :| GoodRecord(c, g, f', s, h);
      PackContent(c, g, f, s, h);
    }
  }

  /** A good store that verifies is repairable, in particular a fresh one. */
  lemma GoodIsRepairable(c: Codec, g: Contents, s: State)
    requires Good(c, g, s) && s.verify
    ensures Repairable(c, g, s)
    ensures forall h | h in Present(s.files) :: HasCopy(c, g, s.files, h)
  {
    hide ParseIndex, ReadBlob, Decode, AllIndexed, Coherent, HashesOf, Indexed;
    var f := s.files;
    BehindItself(c, g, f);
    LoosePresent(f);
    LooseHashesExact(f);
    assert SoundBehind(c, g, f, f);
    forall h: Digest | Loose(h) in f ensures GoodFile(c, g, f, h) {
      assert GoodLoose(c, g, h, f[Loose(h)]);
    }
    forall h | h in Present(f) ensures HasCopy(c, g, f, h) {
      PresentExact(f);
      if Loose(h) !in f {
        var t :| Indexed(f, t) && h in HashesOf(f, t);
        PackContent(c, g, f, t, h);
        assert GoodRecord(c, g, f, t, h);
      }
    }
  }
}
