/** Phase 1 of a sweep: writing the replacement packs. */
module GcRewrite {
  import opened Bytes
  import opened Codecs
  import opened Disks
  import opened GcModel
  import opened GcPlanning
  import opened Inventory
  import opened PackFormat
  import opened PackTheorems
  import opened Sorting

  /** The name of the pack a rewrite creates. */
  function NewName(c: Codec, g: Contents, r: Rewrite): Name {
    PackName(c, Objects(g, r.keep))
  }

  function NewSteps(c: Codec, g: Contents, r: Rewrite): seq<Step> {
    CreateSteps(c, Objects(g, r.keep))
  }

  /** The effects of phase 1 when every object reads as its content. */
  function ReplacementSteps(c: Codec, g: Contents, rs: seq<Rewrite>): seq<Step> {
    if rs == [] then [] else NewSteps(c, g, rs[0]) + ReplacementSteps(c, g, rs[1..])
  }

  /** A rewrite that can be carried out on a tree without touching a pack that
      readers use. */
  ghost predicate Ready(c: Codec, g: Contents, f: Files, r: Rewrite) {
    && r.keep != []
    && StrictlySorted(r.keep, DigestKey)
    && Indexed(f, r.pack)
    && Elements(r.keep) <= HashesOf(f, r.pack)
    && InPlay(c, g, CreatedIndex(c, Objects(g, r.keep)))
    && !Indexed(f, NewName(c, g, r))
  }

  ghost predicate AllReady(c: Codec, g: Contents, f: Files, rs: seq<Rewrite>) {
    (forall r | r in rs :: Ready(c, g, f, r)) && PairwiseDisjoint(rs)
  }

  /** The index files of the replacement packs are free of hash collisions with
      every other string in play. */
  ghost predicate ReplacementsInPlay(c: Codec, g: Contents, rs: seq<Rewrite>) {
    forall r | r in rs :: InPlay(c, g, CreatedIndex(c, Objects(g, r.keep)))
  }

  lemma {:induction false} ElementsSize(keep: seq<Digest>)
    requires StrictlySorted(keep, DigestKey)
    ensures |Elements(keep)| == |keep|
  {
    if keep != [] {
      var n := |keep| - 1;
      ElementsSize(keep[..n]);
      StrictDistinct(keep, DigestKey);
      assert Elements(keep) == Elements(keep[..n]) + {keep[n]};
    }
  }

  lemma KeepPackable(c: Codec, g: Contents, f: Files, s: Name, keep: seq<Digest>)
    requires WellFormed(c, g, f)
    requires keep != [] && StrictlySorted(keep, DigestKey) && Elements(keep) <= HashesOf(f, s)
    ensures Packable(c, Objects(g, keep))
  {
    hide ParseIndex, ReadBlob;
    var objects := Objects(g, keep);
    ElementsSize(keep);
    SubsetSize(Elements(keep), HashesOf(f, s));
    HashesOfBelow(f, s);
    StrictDistinct(keep, DigestKey);
    forall o | o in objects ensures |o.data| <= MAX_DECOMPRESSED && c.hash(o.data) == o.hash {
      var i :| 0 <= i < |objects| && objects[i] == o;
      assert keep[i] in Elements(keep);
      PackContent(c, g, f, s, keep[i]);
    }
  }

  lemma {:induction false} ReadEachGood(c: Codec, g: Contents, f: Files, s: Name, keep: seq<Digest>)
    requires WellFormed(c, g, f) && Indexed(f, s) && Elements(keep) <= HashesOf(f, s)
    ensures ReadEach(c, f[Pack(s)], ParseIndex(f[Idx(s)]).value, keep) == Some(Objects(g, keep))
  {
    hide ParseIndex, ReadBlob;
    if keep != [] {
      var n := |keep| - 1;
      assert Elements(keep[..n]) <= Elements(keep);
      ReadEachGood(c, g, f, s, keep[..n]);
      assert keep[n] in Elements(keep);
      PackContent(c, g, f, s, keep[n]);
    }
  }

  /** What is known of the pack a ready rewrite creates. */
  lemma NewPackGood(c: Codec, g: Contents, f: Files, r: Rewrite)
    requires Lawful(c) && WellFormed(c, g, f) && Ready(c, g, f, r)
    ensures var objects := Objects(g, r.keep);
            && GoodPack(c, g, NewName(c, g, r), PackBytes(c, objects), CreatedIndex(c, objects))
            && Hashes(ParseIndex(CreatedIndex(c, objects)).value) == Elements(r.keep)
  {
    KeepPackable(c, g, f, r.pack, r.keep);
    CreatedPackGood(c, g, r.keep);
  }

  lemma NewNamesDiffer(c: Codec, g: Contents, f: Files, r: Rewrite, q: Rewrite)
    requires Lawful(c) && WellFormed(c, g, f) && Ready(c, g, f, r) && Ready(c, g, f, q)
    requires Elements(r.keep) !! Elements(q.keep)
    ensures NewName(c, g, r) != NewName(c, g, q)
  {
    NewPackGood(c, g, f, r);
    NewPackGood(c, g, f, q);
    assert r.keep[0] in Elements(r.keep);
    if NewName(c, g, r) == NewName(c, g, q) {
      StemOfInjective(c.hash(CreatedIndex(c, Objects(g, r.keep))), c.hash(CreatedIndex(c, Objects(g, q.keep))));
    }
  }

  /** A planned replacement never carries the name of a pack that readers use:
      such a pack would have the same index, so hold the same live objects, so
      be a pack without garbage that already covers them. */
  lemma ReplacementIsFresh(c: Codec, g: Contents, f: Files, live: set<Digest>, r: Rewrite)
    requires Lawful(c) && WellFormed(c, g, f)
    requires r in PlanOf(f, live).packsToRewrite
    requires InPlay(c, g, CreatedIndex(c, Objects(g, r.keep)))
    ensures !Indexed(f, NewName(c, g, r))
    ensures Ready(c, g, f, r)
  {
    PlanFacts(f, live);
    HealthyInExact(f, live, PackStates(f, Listing(f)));
    var q := NewName(c, g, r);
    assert r.keep[0] in Elements(r.keep);
    if Indexed(f, q) {
      assert GoodPack(c, g, q, f[Pack(q)], f[Idx(q)]);
      StemOfInjective(c.hash(f[Idx(q)]), c.hash(CreatedIndex(c, Objects(g, r.keep))));
      KeepPackable(c, g, f, r.pack, r.keep);
      CreatedPackGood(c, g, r.keep);
      assert HashesOf(f, q) == Elements(r.keep);
      assert Healthy(f, live, q);
    }
  }

  lemma PlanReady(c: Codec, g: Contents, f: Files, live: set<Digest>)
    requires Lawful(c) && WellFormed(c, g, f)
    requires ReplacementsInPlay(c, g, PlanOf(f, live).packsToRewrite)
    ensures AllReady(c, g, f, PlanOf(f, live).packsToRewrite)
  {
    PlanFacts(f, live);
    forall r | r in PlanOf(f, live).packsToRewrite ensures Ready(c, g, f, r) {
      ReplacementIsFresh(c, g, f, live, r);
    }
  }

  /** Files that a tree change leaves alone: listed files, and packs that
      readers use. */
  ghost predicate KeepsReadable(f: Files, f': Files) {
    && (forall p: Path | p.Loose? || p.Alias? :: SameAt(f, f', p))
    && (forall s | Indexed(f, s) :: SamePack(f, f', s))
  }

  /** A good pack written under a name no reader uses, or over a pack with the
      same index, keeps the tree well-formed and its digests the same. */
  lemma PutPack(c: Codec, g: Contents, f: Files, q: Name, pack: Bytes, idx: Bytes)
    requires WellFormed(c, g, f) && GoodPack(c, g, q, pack, idx)
    requires Hashes(ParseIndex(idx).value) <= Present(f)
    requires Indexed(f, q) ==> f[Idx(q)] == idx
    ensures var f1 := f[Pack(q) := pack][Idx(q) := idx];
            && WellFormed(c, g, f1)
            && Present(f1) == Present(f)
            && Indexed(f1, q) && HashesOf(f1, q) == Hashes(ParseIndex(idx).value)
            && (!Indexed(f, q) ==> KeepsReadable(f, f1))
            && (AllIndexed(f) ==> AllIndexed(f1))
  {
    hide ParseIndex, ReadBlob;
    var f1 := f[Pack(q) := pack][Idx(q) := idx];
    forall s | Indexed(f1, s) ensures GoodPack(c, g, s, f1[Pack(s)], f1[Idx(s)]) {
      if s != q {
        SamePackHashes(f, f1, s);
        assert GoodPack(c, g, s, f[Pack(s)], f[Idx(s)]);
      }
    }
    if AllIndexed(f) {
      forall s | Paired(f1, s) ensures Indexed(f1, s) {
        if s != q { SamePackHashes(f, f1, s); }
      }
    }
    assert HashesOf(f1, q) == Hashes(ParseIndex(idx).value);
    if Indexed(f, q) {
      assert HashesOf(f, q) == HashesOf(f1, q);
    } else {
      assert HashesOf(f, q) == {};
    }
    SamePresent(f, f1, q);
  }

  /** One finished replacement. */
  lemma RewriteOne(c: Codec, g: Contents, f: Files, r: Rewrite)
    requires Lawful(c) && WellFormed(c, g, f) && Ready(c, g, f, r)
    ensures var f1 := ApplyAll(f, NewSteps(c, g, r));
            && f1 == f[Pack(NewName(c, g, r)) := PackBytes(c, Objects(g, r.keep))]
                      [Idx(NewName(c, g, r)) := CreatedIndex(c, Objects(g, r.keep))]
            && WellFormed(c, g, f1)
            && Present(f1) == Present(f)
            && Indexed(f1, NewName(c, g, r)) && HashesOf(f1, NewName(c, g, r)) == Elements(r.keep)
            && KeepsReadable(f, f1)
            && Unharmed(c, g, f, f1)
            && (AllIndexed(f) ==> AllIndexed(f1))
  {
    var q, objects := NewName(c, g, r), Objects(g, r.keep);
    ApplyTwo(f, Write(Pack(q), PackBytes(c, objects)), Write(Idx(q), CreatedIndex(c, objects)));
    NewPackGood(c, g, f, r);
    HashesPresent(f, r.pack);
    PutPack(c, g, f, q, PackBytes(c, objects), CreatedIndex(c, objects));
  }

  lemma SamePresent(f: Files, f1: Files, q: Name)
    requires forall h: Digest :: SameAt(f, f1, Loose(h))
    requires forall s | s != q :: SamePack(f, f1, s)
    requires HashesOf(f, q) <= HashesOf(f1, q) <= Present(f)
    ensures Present(f1) == Present(f)
  {
    PresentExact(f);
    PresentExact(f1);
    forall h: Digest ensures h in Present(f1) <==> h in Present(f) {
      assert SameAt(f, f1, Loose(h));
      if s :| Indexed(f, s) && h in HashesOf(f, s) {
        if s != q { SamePackHashes(f, f1, s); }
        assert h in HashesOf(f1, s);
      }
      if s :| Indexed(f1, s) && h in HashesOf(f1, s) {
        if s != q { SamePackHashes(f, f1, s); }
      }
    }
  }

  /** A tree in which the replacements have been written. */
  ghost predicate HasReplacement(c: Codec, g: Contents, f: Files, r: Rewrite) {
    && Pack(NewName(c, g, r)) in f && f[Pack(NewName(c, g, r))] == PackBytes(c, Objects(g, r.keep))
    && Idx(NewName(c, g, r)) in f && f[Idx(NewName(c, g, r))] == CreatedIndex(c, Objects(g, r.keep))
  }

  ghost predicate IsNewPath(c: Codec, g: Contents, rs: seq<Rewrite>, p: Path) {
    (p.Pack? || p.Idx?) && exists r :: r in rs && p.stem == NewName(c, g, r)
  }

  /** What phase 1 leaves of a well-formed tree. */
  ghost predicate Rewritten(c: Codec, g: Contents, f: Files, f1: Files, rs: seq<Rewrite>) {
    && WellFormed(c, g, f1)
    && Present(f1) == Present(f)
    && KeepsReadable(f, f1)
    && (forall p | !IsNewPath(c, g, rs, p) :: SameAt(f, f1, p))
    && (forall r | r in rs :: HasReplacement(c, g, f1, r) && Indexed(f1, NewName(c, g, r)) && HashesOf(f1, NewName(c, g, r)) == Elements(r.keep))
    && (AllIndexed(f) ==> AllIndexed(f1))
  }

  /** A written replacement leaves the other rewrites ready. */
  lemma StaysReady(c: Codec, g: Contents, f: Files, rs: seq<Rewrite>)
    requires Lawful(c) && WellFormed(c, g, f) && rs != [] && AllReady(c, g, f, rs)
    ensures AllReady(c, g, ApplyAll(f, NewSteps(c, g, rs[0])), rs[1..])
    ensures forall r | r in rs[1..] :: NewName(c, g, r) != NewName(c, g, rs[0])
  {
    hide ParseIndex, ReadBlob, PackBytes, CreatedIndex, Objects, PackName, NewName;
    var f1 := ApplyAll(f, NewSteps(c, g, rs[0]));
    RewriteOne(c, g, f, rs[0]);
    forall r | r in rs[1..]
      ensures NewName(c, g, r) != NewName(c, g, rs[0]) && Ready(c, g, f1, r)
    {
      var i :| 0 <= i < |rs[1..]| && rs[1..][i] == r;
      assert r == rs[i + 1] && r in rs && rs[0] in rs;
      NewNamesDiffer(c, g, f, rs[0], r);
      SamePackHashes(f, f1, r.pack);
      SamePackHashes(f, f1, NewName(c, g, r));
    }
  }

  /** Phase 1 on a well-formed tree runs to its end, performs exactly the
      replacement steps, and adds the replacement packs. */
  lemma {:induction false} RewriteAll(c: Codec, g: Contents, f: Files, rs: seq<Rewrite>)
    requires Lawful(c) && WellFormed(c, g, f) && AllReady(c, g, f, rs)
    ensures RewritePhase(c, f, rs).ok
    ensures RewritePhase(c, f, rs).steps == ReplacementSteps(c, g, rs)
    ensures Rewritten(c, g, f, ApplyAll(f, ReplacementSteps(c, g, rs)), rs)
    decreases |rs|
  {
    hide Rewritten, WellFormed, ReadEach, ReadBlob, ParseIndex, SamePack;
    RewrittenNone(c, g, f);
    if rs != [] {
      var r, w := rs[0], NewSteps(c, g, rs[0]);
      var f1 := ApplyAll(f, w);
      assert r in rs;
      ReadEachGood(c, g, f, r.pack, r.keep);
      RewriteOne(c, g, f, r);
      StaysReady(c, g, f, rs);
      RewriteAll(c, g, f1, rs[1..]);
      ApplyAllConcat(f, w, ReplacementSteps(c, g, rs[1..]));
      RewrittenCons(c, g, f, f1, ApplyAll(f, ReplacementSteps(c, g, rs)), rs);
    }
  }

  lemma RewrittenNone(c: Codec, g: Contents, f: Files)
    requires WellFormed(c, g, f)
    ensures Rewritten(c, g, f, f, [])
  {
  }

  lemma RewrittenCons(c: Codec, g: Contents, f: Files, f1: Files, f2: Files, rs: seq<Rewrite>)
    requires rs != [] && !Indexed(f, NewName(c, g, rs[0]))
    requires f1 == f[Pack(NewName(c, g, rs[0])) := PackBytes(c, Objects(g, rs[0].keep))]
                    [Idx(NewName(c, g, rs[0])) := CreatedIndex(c, Objects(g, rs[0].keep))]
    requires Present(f1) == Present(f) && KeepsReadable(f, f1)
    requires Indexed(f1, NewName(c, g, rs[0])) && HashesOf(f1, NewName(c, g, rs[0])) == Elements(rs[0].keep)
    requires AllIndexed(f) ==> AllIndexed(f1)
    requires forall r | r in rs[1..] :: NewName(c, g, r) != NewName(c, g, rs[0])
    requires Rewritten(c, g, f1, f2, rs[1..])
    ensures Rewritten(c, g, f, f2, rs)
  {
    hide ParseIndex, ReadBlob, PackBytes, CreatedIndex, Objects, PackName, NewName;
    var q := NewName(c, g, rs[0]);
    assert !IsNewPath(c, g, rs[1..], Pack(q)) && !IsNewPath(c, g, rs[1..], Idx(q));
    assert SameAt(f1, f2, Pack(q)) && SameAt(f1, f2, Idx(q));
    SamePackHashes(f1, f2, q);
    forall p | !IsNewPath(c, g, rs, p) ensures SameAt(f, f2, p) {
      assert rs[0] in rs;
      assert !IsNewPath(c, g, rs[1..], p);
      assert SameAt(f1, f2, p);
    }
    forall s | Indexed(f, s) ensures SamePack(f, f2, s) {
      SamePackHashes(f, f1, s);
      assert SamePack(f1, f2, s);
    }
    forall p: Path | p.Loose? || p.Alias? ensures SameAt(f, f2, p) {
      assert SameAt(f, f1, p) && SameAt(f1, f2, p);
    }
    forall r | r in rs
      ensures HasReplacement(c, g, f2, r) && Indexed(f2, NewName(c, g, r)) && HashesOf(f2, NewName(c, g, r)) == Elements(r.keep)
    {
      if r != rs[0] { assert r in rs[1..]; }
    }
  }

  /* Crashes inside phase 1 */

  /** No index file waits for its pack under a replacement's name. */
  ghost predicate NoStrayIndex(c: Codec, g: Contents, f: Files, rs: seq<Rewrite>) {
    forall r | r in rs :: Idx(NewName(c, g, r)) in f ==> Pack(NewName(c, g, r)) in f
  }

  /** The tree reads as before, except that indexes may fail to load. */
  ghost predicate Unharmed(c: Codec, g: Contents, f: Files, f': Files) {
    && WellFormed(c, g, f')
    && Present(f') == Present(f)
    && KeepsReadable(f, f')
  }

  /** Writing anything at all to the files of a pack whose index does not load
      afterwards, under a name no reader uses, is invisible to readers. */
  lemma UnreadableWrite(c: Codec, g: Contents, f: Files, f': Files, q: Name)
    requires WellFormed(c, g, f) && !Indexed(f, q) && !Indexed(f', q)
    requires forall p | p != Pack(q) && p != Idx(q) :: SameAt(f, f', p)
    ensures Unharmed(c, g, f, f')
    ensures AllIndexed(f) && !Paired(f', q) ==> AllIndexed(f')
  {
    hide ParseIndex, ReadBlob;
    forall s | s != q ensures SamePack(f, f', s) {
    }
    forall s | Indexed(f', s) ensures GoodPack(c, g, s, f'[Pack(s)], f'[Idx(s)]) {
      assert SamePack(f, f', s);
      SamePackHashes(f, f', s);
      assert GoodPack(c, g, s, f[Pack(s)], f[Idx(s)]);
    }
    forall p: Path | p.Loose? || p.Alias? ensures SameAt(f, f', p) {
    }
    SamePresent(f, f', q);
    if AllIndexed(f) && !Paired(f', q) {
      forall s | Paired(f', s) ensures Indexed(f', s) {
        assert SamePack(f, f', s);
        SamePackHashes(f, f', s);
      }
    }
  }

  lemma UnharmedTransitive(c: Codec, g: Contents, f: Files, f1: Files, f2: Files)
    requires Unharmed(c, g, f, f1) && Unharmed(c, g, f1, f2)
    ensures Unharmed(c, g, f, f2)
  {
    hide ParseIndex, ReadBlob;
    forall p: Path | p.Loose? || p.Alias? ensures SameAt(f, f2, p) {
      assert SameAt(f, f1, p) && SameAt(f1, f2, p);
    }
    forall s | Indexed(f, s) ensures SamePack(f, f2, s) {
      SamePackHashes(f, f1, s);
      assert SamePack(f1, f2, s);
    }
  }

  /** A write that stopped after `n` bytes. */
  function Torn(f: Files, s: Step, n: nat): Files
    requires s.Write? && n <= |s.data|
  {
    f[s.path := s.data[..n]]
  }

  lemma StaysUnstrayed(c: Codec, g: Contents, f: Files, rs: seq<Rewrite>)
    requires Lawful(c) && WellFormed(c, g, f) && rs != [] && AllReady(c, g, f, rs) && NoStrayIndex(c, g, f, rs)
    ensures NoStrayIndex(c, g, ApplyAll(f, NewSteps(c, g, rs[0])), rs[1..])
  {
    hide ParseIndex, ReadBlob, PackBytes, CreatedIndex, Objects, PackName, NewName, WellFormed;
    assert rs[0] in rs;
    RewriteOne(c, g, f, rs[0]);
    StaysReady(c, g, f, rs);
    forall r | r in rs[1..] ensures r in rs {
    }
  }

  /** Stopping between the two writes of one replacement, or within one. */
  lemma HalfWritten(c: Codec, g: Contents, f: Files, r: Rewrite, pack: Bytes)
    requires WellFormed(c, g, f) && !Indexed(f, NewName(c, g, r))
    requires NoStrayIndex(c, g, f, [r])
    ensures Unharmed(c, g, f, f[Pack(NewName(c, g, r)) := pack])
    ensures AllIndexed(f) ==> AllIndexed(f[Pack(NewName(c, g, r)) := pack])
  {
    hide ParseIndex, ReadBlob, PackBytes, CreatedIndex, Objects, PackName, NewName, WellFormed;
    var q := NewName(c, g, r);
    assert r in [r];
    UnreadableWrite(c, g, f, f[Pack(q) := pack], q);
    if AllIndexed(f) {
      assert !Paired(f, q);
    }
  }

  lemma NewStepsShape(c: Codec, g: Contents, r: Rewrite)
    ensures var objects := Objects(g, r.keep);
            NewSteps(c, g, r) == [Write(Pack(NewName(c, g, r)), PackBytes(c, objects)),
                                  Write(Idx(NewName(c, g, r)), CreatedIndex(c, objects))]
  {
  }

  lemma UnharmedAtOnce(c: Codec, g: Contents, f: Files)
    requires WellFormed(c, g, f)
    ensures Unharmed(c, g, f, f)
  {
  }

  /** Every crash point of phase 1: after any number of finished writes, all
      that was readable still is, from the same files. */
  lemma {:induction false} PhaseOneSafe(c: Codec, g: Contents, f: Files, rs: seq<Rewrite>, k: nat)
    requires Lawful(c) && WellFormed(c, g, f) && AllReady(c, g, f, rs) && NoStrayIndex(c, g, f, rs)
    requires k <= |ReplacementSteps(c, g, rs)|
    ensures var f' := ApplyAll(f, ReplacementSteps(c, g, rs)[..k]);
            Unharmed(c, g, f, f') && (AllIndexed(f) ==> AllIndexed(f'))
    decreases |rs|
  {
    hide ParseIndex, ReadBlob, PackBytes, CreatedIndex, Objects, NewName, NewSteps, Unharmed, AllIndexed, WellFormed, Indexed, SamePack;
    var steps := ReplacementSteps(c, g, rs);
    if k == 0 {
      assert ApplyAll(f, steps[..k]) == f;
      UnharmedAtOnce(c, g, f);
    } else {
      var w := NewSteps(c, g, rs[0]);
      var f1 := ApplyAll(f, w);
      NewStepsShape(c, g, rs[0]);
      assert rs[0] in rs;
      if k == 1 {
        assert steps[..k] == [w[0]];
        ApplyOne(f, w[0]);
        HalfWritten(c, g, f, rs[0], w[0].data);
      } else {
        RewriteOne(c, g, f, rs[0]);
        StaysReady(c, g, f, rs);
        StaysUnstrayed(c, g, f, rs);
        PhaseOneSafe(c, g, f1, rs[1..], k - 2);
        ApplyPrefix(f, w, ReplacementSteps(c, g, rs[1..]), k);
        assert w[..2] == w && ReplacementSteps(c, g, rs[1..])[..0] == [];
        UnharmedTransitive(c, g, f, f1, ApplyAll(f, steps[..k]));
      }
    }
  }

  /** The same when the crash tears the write after the finished ones: a torn
      pack has no index yet, so all indexes still load; a torn index does not. */
  lemma {:induction false} PhaseOneTornSafe(c: Codec, g: Contents, f: Files, rs: seq<Rewrite>, k: nat, n: nat)
    requires Lawful(c) && WellFormed(c, g, f) && AllReady(c, g, f, rs) && NoStrayIndex(c, g, f, rs)
    requires k < |ReplacementSteps(c, g, rs)| && ReplacementSteps(c, g, rs)[k].Write?
    requires n < |ReplacementSteps(c, g, rs)[k].data|
    ensures var f' := Torn(ApplyAll(f, ReplacementSteps(c, g, rs)[..k]), ReplacementSteps(c, g, rs)[k], n);
            Unharmed(c, g, f, f') && (AllIndexed(f) && ReplacementSteps(c, g, rs)[k].path.Pack? ==> AllIndexed(f'))
    decreases |rs|
  {
    hide ParseIndex, ReadBlob, PackBytes, CreatedIndex, Objects, NewName, NewSteps, Unharmed, AllIndexed, WellFormed, Indexed, SamePack;
    var steps, w := ReplacementSteps(c, g, rs), NewSteps(c, g, rs[0]);
    var f1 := ApplyAll(f, w);
    NewStepsShape(c, g, rs[0]);
    assert rs[0] in rs;
    if k == 0 {
      assert ApplyAll(f, steps[..k]) == f;
      HalfWritten(c, g, f, rs[0], w[0].data[..n]);
    } else if k == 1 {
      assert steps[..k] == [w[0]];
      ApplyOne(f, w[0]);
      TornReplacement(c, g, f, rs[0], n);
    } else {
      RewriteOne(c, g, f, rs[0]);
      StaysReady(c, g, f, rs);
      StaysUnstrayed(c, g, f, rs);
      PhaseOneTornSafe(c, g, f1, rs[1..], k - 2, n);
      ApplyPrefix(f, w, ReplacementSteps(c, g, rs[1..]), k);
      assert w[..2] == w && ReplacementSteps(c, g, rs[1..])[..0] == [];
      UnharmedTransitive(c, g, f, f1, Torn(ApplyAll(f, steps[..k]), steps[k], n));
    }
  }

  lemma TornReplacement(c: Codec, g: Contents, f: Files, r: Rewrite, n: nat)
    requires Lawful(c) && WellFormed(c, g, f) && Ready(c, g, f, r)
    requires n < |CreatedIndex(c, Objects(g, r.keep))|
    ensures var q := NewName(c, g, r);
            Unharmed(c, g, f, f[Pack(q) := PackBytes(c, Objects(g, r.keep))][Idx(q) := CreatedIndex(c, Objects(g, r.keep))[..n]])
  {
    hide ParseIndex, ReadBlob, PackBytes, Objects, PackName, NewName, WellFormed;
    var q, objects := NewName(c, g, r), Objects(g, r.keep);
    var f' := f[Pack(q) := PackBytes(c, objects)][Idx(q) := CreatedIndex(c, objects)[..n]];
    KeepPackable(c, g, f, r.pack, r.keep);
    TornIndexRejected(EntriesOf(c, objects), n);
    UnreadableWrite(c, g, f, f', q);
  }
}
