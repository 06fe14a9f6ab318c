/** The ring cache is an exact most-recently-used cache. */
module RingCache {
  import opened Bytes
  import opened Disks
  import opened Errors
  import opened GcModel
  import opened Inventory
  import opened PackFiles
  import opened PackFormat
  import opened Sorting
  import opened StoreModel

  function Without(bs: seq<Blob>, h: Digest): seq<Blob> {
    if bs == [] then []
    else if bs[0].hash == h then Without(bs[1..], h)
    else [bs[0]] + Without(bs[1..], h)
  }

  /** The last result for each digest of a history, latest first. */
  function Recent(history: seq<Blob>): seq<Blob> {
    if history == [] then [] else
      var b := history[|history| - 1];
      [b] + Without(Recent(history[..|history| - 1]), b.hash)
  }

  function FirstOf(bs: seq<Blob>, n: nat): seq<Blob> {
    if |bs| <= n then bs else bs[..n]
  }

  /** What an ideal cache of the store's capacity holds after a history. */
  function Ring(history: seq<Blob>): seq<Blob> {
    FirstOf(Recent(history), BLOB_CACHE_CAPACITY)
  }

  ghost predicate DistinctHashes(bs: seq<Blob>) {
    forall i, j | 0 <= i < j < |bs| :: bs[i].hash != bs[j].hash
  }

  lemma {:induction false} WithoutAbsent(bs: seq<Blob>, h: Digest)
    requires forall i | 0 <= i < |bs| :: bs[i].hash != h
    ensures Without(bs, h) == bs
  {
    if bs != [] {
      WithoutAbsent(bs[1..], h);
    }
  }

  /** Without an entry of a list with distinct digests. */
  lemma {:induction false} WithoutAt(bs: seq<Blob>, i: nat)
    requires DistinctHashes(bs) && i < |bs|
    ensures Without(bs, bs[i].hash) == bs[..i] + bs[i + 1..]
  {
    var h := bs[i].hash;
    if i == 0 {
      WithoutAbsent(bs[1..], h);
      assert Without(bs, h) == bs[1..];
    } else {
      assert bs[1..][i - 1] == bs[i];
      WithoutAt(bs[1..], i - 1);
      assert bs[1..][..i - 1] == bs[1..i] && bs[1..][i..] == bs[i + 1..];
      assert bs[..i] == [bs[0]] + bs[1..i];
    }
  }

  lemma {:induction false} WithoutElements(bs: seq<Blob>, h: Digest)
    ensures forall b :: b in Without(bs, h) <==> b in bs && b.hash != h
  {
    if bs != [] {
      WithoutElements(bs[1..], h);
    }
  }

  lemma {:induction false} WithoutDistinct(bs: seq<Blob>, h: Digest)
    requires DistinctHashes(bs)
    ensures DistinctHashes(Without(bs, h))
    ensures forall b | b in Without(bs, h) :: b in bs && b.hash != h
  {
    WithoutElements(bs, h);
    if bs != [] {
      var rest := Without(bs[1..], h);
      WithoutDistinct(bs[1..], h);
      FirstDiffers(bs);
      forall i | 0 <= i < |rest| ensures rest[i].hash != bs[0].hash {
        assert rest[i] in rest;
      }
    }
  }

  lemma FirstDiffers(bs: seq<Blob>)
    requires bs != [] && DistinctHashes(bs)
    ensures DistinctHashes(bs[1..])
    ensures forall b | b in bs[1..] :: b.hash != bs[0].hash
  {
    assert forall j | 0 <= j < |bs[1..]| :: bs[1..][j] == bs[j + 1];
  }

  lemma {:induction false} RecentDistinct(history: seq<Blob>)
    ensures DistinctHashes(Recent(history))
  {
    if history != [] {
      var n := |history| - 1;
      RecentDistinct(history[..n]);
      WithoutDistinct(Recent(history[..n]), history[n].hash);
      var rest := Without(Recent(history[..n]), history[n].hash);
      assert forall i | 0 <= i < |rest| :: rest[i] in rest;
    }
  }

  lemma RecentNext(history: seq<Blob>, b: Blob)
    ensures Recent(history + [b]) == [b] + Without(Recent(history), b.hash)
  {
    assert (history + [b])[..|history|] == history;
  }

  /** A hit: moving the entry to the front is what the ideal cache does. */
  lemma HitKeepsRing(history: seq<Blob>, i: nat)
    requires i < |Ring(history)|
    ensures Promote(Ring(history), i) == Ring(history + [Ring(history)[i]])
  {
    hide Recent;
    var all, n := Recent(history), BLOB_CACHE_CAPACITY;
    var b := all[i];
    RecentDistinct(history);
    RecentNext(history, b);
    WithoutAt(all, i);
    var next := [b] + (all[..i] + all[i + 1..]);
    assert Recent(history + [b]) == next && |next| == |all|;
    if |all| > n {
      assert all[..n][..i] == all[..i] && all[..n][i + 1..] == all[i + 1..n];
      assert next[..n] == [b] + (all[..i] + all[i + 1..n]);
    }
  }

  /** A miss: inserting, and dropping the last entry of a full cache, is what
      the ideal cache does, even if the digest had been read long before. */
  lemma MissKeepsRing(history: seq<Blob>, b: Blob)
    requires Position(Ring(history), b.hash).None?
    ensures CacheInsert(Ring(history), b) == Ring(history + [b])
  {
    hide Recent, Position;
    var all, n := Recent(history), BLOB_CACHE_CAPACITY;
    RecentDistinct(history);
    RecentNext(history, b);
    PositionNone(Ring(history), b.hash);
    if i :| 0 <= i < |all| && all[i].hash == b.hash {
      WithoutAt(all, i);
      if i < n { FirstOfAt(all, n, i); }
      var next := [b] + (all[..i] + all[i + 1..]);
      assert next[..n] == [b] + all[..n - 1];
      assert |all| > n ==> all[..n][..n - 1] == all[..n - 1];
    } else {
      WithoutAbsent(all, b.hash);
      if |all| >= n {
        assert ([b] + all)[..n] == [b] + all[..n - 1];
      }
    }
  }

  lemma FirstOfAt(bs: seq<Blob>, n: nat, i: nat)
    requires i < |bs| && i < n
    ensures i < |FirstOf(bs, n)| && FirstOf(bs, n)[i] == bs[i]
  {
  }

  lemma PositionNone(cache: seq<Blob>, h: Digest)
    requires Position(cache, h).None?
    ensures forall i | 0 <= i < |cache| :: cache[i].hash != h
  {
  }

  /* `Recent` in terms of positions in the history */

  /** The last position of a digest in a history. */
  function LastIndex(history: seq<Blob>, h: Digest): (r: Option<nat>)
    ensures r.Some? ==> r.value < |history| && history[r.value].hash == h
    ensures r.None? ==> forall i | 0 <= i < |history| :: history[i].hash != h
  {
    if history == [] then None
    else if history[|history| - 1].hash == h then Some(|history| - 1)
    else LastIndex(history[..|history| - 1], h)
  }

  /** The entry is the last result for its digest. */
  ghost predicate Latest(history: seq<Blob>, b: Blob) {
    LastIndex(history, b.hash).Some? && history[LastIndex(history, b.hash).value] == b
  }

  function Rank(history: seq<Blob>, b: Blob): int {
    match LastIndex(history, b.hash)
    case Some(i) => i
    case None => -1
  }

  ghost predicate Descending(history: seq<Blob>, bs: seq<Blob>) {
    forall i, j | 0 <= i < j < |bs| :: Rank(history, bs[i]) > Rank(history, bs[j])
  }

  lemma {:induction false} WithoutDescending(history: seq<Blob>, bs: seq<Blob>, h: Digest)
    requires Descending(history, bs)
    ensures Descending(history, Without(bs, h))
  {
    hide Rank;
    if bs != [] {
      assert forall i, j | 0 <= i < j < |bs[1..]| :: bs[1..][i] == bs[i + 1] && bs[1..][j] == bs[j + 1];
      WithoutDescending(history, bs[1..], h);
      WithoutElements(bs[1..], h);
      if bs[0].hash != h {
        DescendingCons(history, bs, Without(bs[1..], h));
      }
    }
  }

  lemma DescendingCons(history: seq<Blob>, bs: seq<Blob>, rest: seq<Blob>)
    requires bs != [] && Descending(history, bs) && Descending(history, rest)
    requires forall b | b in rest :: b in bs[1..]
    ensures Descending(history, [bs[0]] + rest)
  {
    hide Rank;
    forall j | 0 <= j < |rest| ensures Rank(history, bs[0]) > Rank(history, rest[j]) {
      assert rest[j] in rest;
      var k :| 0 <= k < |bs[1..]| && bs[1..][k] == rest[j];
      assert bs[k + 1] == rest[j];
    }
  }

  lemma OtherDigestsKeepRank(history: seq<Blob>, b: Blob, x: Blob)
    requires x.hash != b.hash
    ensures LastIndex(history + [b], x.hash) == LastIndex(history, x.hash)
    ensures Latest(history + [b], x) <==> Latest(history, x)
  {
    assert (history + [b])[..|history|] == history;
  }

  /** Every entry of `Recent` is the last result for its digest, entries are in
      decreasing order of those positions, and every digest of the history has
      an entry. */
  lemma {:induction false} RecentExact(history: seq<Blob>)
    ensures forall b | b in Recent(history) :: Latest(history, b)
    ensures Descending(history, Recent(history))
    ensures forall x | x in history :: exists b :: b in Recent(history) && b.hash == x.hash
  {
    if history != [] {
      var n := |history| - 1;
      var front, b := history[..n], history[n];
      assert history == front + [b];
      RecentExact(front);
      RecentNext(front, b);
      var rest := Without(Recent(front), b.hash);
      WithoutElements(Recent(front), b.hash);
      WithoutDescending(front, Recent(front), b.hash);
      NewestFirst(front, b, rest);
      forall x | x in history ensures exists y :: y in [b] + rest && y.hash == x.hash {
        if x.hash == b.hash {
          assert b in [b] + rest;
        } else {
          assert x in front;
          var y :| y in Recent(front) && y.hash == x.hash;
          assert y in [b] + rest;
        }
      }
    }
  }

  lemma NewestFirst(history: seq<Blob>, b: Blob, rest: seq<Blob>)
    requires Descending(history, rest)
    requires forall x | x in rest :: x.hash != b.hash && Latest(history, x)
    ensures Descending(history + [b], [b] + rest)
    ensures forall x | x in [b] + rest :: Latest(history + [b], x)
  {
    hide LastIndex;
    assert LastIndex(history + [b], b.hash) == Some(|history|) by { NewestIsLast(history, b); }
    forall x | x in rest ensures Latest(history + [b], x) && Rank(history + [b], x) == Rank(history, x) {
      OtherDigestsKeepRank(history, b, x);
    }
    forall j | 0 <= j < |rest| ensures Rank(history + [b], b) > Rank(history + [b], rest[j]) {
      assert rest[j] in rest;
      OtherDigestsKeepRank(history, b, rest[j]);
    }
    assert forall j | 0 <= j < |rest| :: rest[j] in rest;
  }

  lemma NewestIsLast(history: seq<Blob>, b: Blob)
    ensures LastIndex(history + [b], b.hash) == Some(|history|)
  {
  }

  /* Runs */

  /** The successful reads a call answers with. */
  function Gained(op: Op, reply: Reply): seq<Blob> {
    match (op, reply)
    case (Get(h), Data(Ok(d))) => [Blob(h, d)]
    case (Repack(_), Repacked(_, got)) => got
    case (_, _) => []
  }

  /** A sequential run: a state before and after each call. */
  ghost predicate IsRun(cfg: Config, states: seq<State>, ops: seq<Op>, replies: seq<Reply>) {
    && |states| == |ops| + 1 && |replies| == |ops|
    && forall i | 0 <= i < |ops| :: Next(cfg, states[i], ops[i], replies[i], states[i + 1])
  }

  lemma {:induction false} GetsKeepRing(cfg: Config, s: State, hs: seq<Digest>, got: seq<Blob>, error: Option<CasError>, s': State, history: seq<Blob>)
    requires GetsNext(cfg, s, hs, got, error, s') && s.blobCache == Ring(history)
    ensures s'.blobCache == Ring(history + got)
    decreases |hs|
  {
    hide GetNext, Recent, Ring;
    if hs == [] {
      assert history + [] == history;
    } else {
      var n := |hs| - 1;
      var before, e, s1 :| GetsNext(cfg, s, hs[..n], before, e, s1) && ReadNext(cfg, hs[n], before, e, s1, got, error, s');
      GetsKeepRing(cfg, s, hs[..n], before, e, s1, history);
      if e.None? {
        var r :| GetNext(cfg, s1, hs[n], r, s') && ReadAdds(before, hs[n], r, got, error);
        GetKeepsRing(cfg, s1, hs[n], r, s', history + before);
        if r.Ok? {
          ConcatAssociative(history, before, [Blob(hs[n], r.value)]);
        } else {
          assert (history + before) + [] == history + before;
        }
      }
    }
  }

  lemma PositionHit(cache: seq<Blob>, h: Digest)
    requires Position(cache, h).Some?
    ensures Position(cache, h).value < |cache| && cache[Position(cache, h).value] == Blob(h, cache[Position(cache, h).value].data)
  {
  }

  lemma NextKeepsRing(cfg: Config, s: State, op: Op, reply: Reply, s': State, history: seq<Blob>)
    requires Next(cfg, s, op, reply, s') && s.blobCache == Ring(history)
    ensures s'.blobCache == Ring(history + Gained(op, reply))
  {
    hide ParseIndex, ReadBlob, Find, ReadLoose, ReadPacked, Recent, Ring, Position, SweepOutcome, GetNext, RepackNext, CacheOf;
    assert history + [] == history;
    if op.Get? {
      GetKeepsRing(cfg, s, op.hash, reply.data, s', history);
    } else if op.Repack? {
      RepackKeepsRing(cfg, s, op.threshold, reply.count, reply.got, s', history);
    }
  }

  lemma RepackKeepsRing(cfg: Config, s: State, threshold: nat, r: Result<nat, CasError>, got: seq<Blob>, s': State, history: seq<Blob>)
    requires RepackNext(cfg, s, threshold, r, got, s') && s.blobCache == Ring(history)
    ensures s'.blobCache == Ring(history + got)
  {
    hide GetsNext, Ring, IsListing, ApplyAll, CreateSteps, Happened;
    assert history + [] == history;
    var steps :| RepackRun(cfg, s, threshold, r, got, steps, s');
    var listed :| IsListing(s.files, listed) && RepackListed(cfg, s, listed, threshold, r, got, steps, s');
    if |listed| > threshold {
      var error: Option<CasError>, s1 :| GetsNext(cfg, s, listed, got, error, s1) && RepackWrites(cfg, s, listed, error, s1, r, got, steps, s');
      GetsKeepRing(cfg, s, listed, got, error, s1, history);
    }
  }

  lemma GetKeepsRing(cfg: Config, s: State, h: Digest, r: Result<Bytes, CasError>, s': State, history: seq<Blob>)
    requires GetNext(cfg, s, h, r, s') && s.blobCache == Ring(history)
    ensures s'.blobCache == Ring(history + if r.Ok? then [Blob(h, r.value)] else [])
  {
    hide ParseIndex, ReadBlob, Find, ReadLoose, ReadPacked, Recent, Ring, Position, CacheOf;
    assert history + [] == history;
    match Position(s.blobCache, h) {
      case Some(i) =>
        PositionHit(s.blobCache, h);
        HitKeepsRing(history, i);
      case None =>
        if r.Ok? { MissKeepsRing(history, Blob(h, r.value)); }
    }
  }

  function HistoryOf(ops: seq<Op>, replies: seq<Reply>): seq<Blob>
    requires |ops| == |replies|
  {
    if ops == [] then [] else
      var n := |ops| - 1;
      HistoryOf(ops[..n], replies[..n]) + Gained(ops[n], replies[n])
  }

  /** After any run that starts with an empty cache, the cache is, in order, the
      first 1024 digests of the reversed history of successful reads, each with
      the bytes last returned for it, whatever else the run did. */
  lemma {:induction false} CacheIsMostRecent(cfg: Config, states: seq<State>, ops: seq<Op>, replies: seq<Reply>)
    requires IsRun(cfg, states, ops, replies) && states[0].blobCache == []
    ensures states[|ops|].blobCache == FirstOf(Recent(HistoryOf(ops, replies)), BLOB_CACHE_CAPACITY)
    decreases |ops|
  {
    hide Next, Gained;
    if ops != [] {
      var n := |ops| - 1;
      RunPrefix(cfg, states, ops, replies, n);
      CacheIsMostRecent(cfg, states[..n + 1], ops[..n], replies[..n]);
      NextKeepsRing(cfg, states[n], ops[n], replies[n], states[n + 1], HistoryOf(ops[..n], replies[..n]));
    }
  }

  lemma RunPrefix(cfg: Config, states: seq<State>, ops: seq<Op>, replies: seq<Reply>, n: nat)
    requires IsRun(cfg, states, ops, replies) && n <= |ops|
    ensures IsRun(cfg, states[..n + 1], ops[..n], replies[..n])
    ensures n < |ops| ==> Next(cfg, states[n], ops[n], replies[n], states[n + 1])
  {
    hide Next;
    forall i | 0 <= i < n ensures Next(cfg, states[..n + 1][i], ops[..n][i], replies[..n][i], states[..n + 1][i + 1]) {
      assert Next(cfg, states[i], ops[i], replies[i], states[i + 1]);
    }
  }
}

/** Reads are truthful whatever happens to the files. */
module StoreIntegrity {
  import opened Bytes
  import opened Codecs
  import opened Disks
  import opened Errors
  import opened GcModel
  import opened Inventory
  import opened PackFiles
  import opened PackFormat
  import opened RingCache
  import opened StoreModel

  /** Everything in the ring cache is addressed by its own hash. */
  ghost predicate CacheSound(c: Codec, cache: seq<Blob>) {
    forall i | 0 <= i < |cache| :: c.hash(cache[i].data) == cache[i].hash
  }

  lemma ReadLooseSound(c: Codec, raw: Bytes, h: Digest)
    ensures ReadLoose(c, true, raw, h).Ok? ==> c.hash(ReadLoose(c, true, raw, h).value) == h
  {
  }

  lemma ReadPackedSound(c: Codec, f: Files, s: Name, h: Digest)
    ensures ReadPacked(c, f, s, h).Ok? ==> c.hash(ReadPacked(c, f, s, h).value) == h
  {
    hide ParseIndex, Find;
  }

  lemma GetSound(cfg: Config, s: State, h: Digest, r: Result<Bytes, CasError>, s': State)
    requires GetNext(cfg, s, h, r, s') && s.verify && CacheSound(cfg.c, s.blobCache)
    ensures r.Ok? ==> cfg.c.hash(r.value) == h
    ensures s'.verify && CacheSound(cfg.c, s'.blobCache)
  {
    hide ParseIndex, ReadBlob, Find, ReadLoose, ReadPacked, Position, CacheOf;
    match Position(s.blobCache, h) {
      case Some(i) =>
        PositionHit(s.blobCache, h);
      case None =>
        if Loose(h) in s.files {
          ReadLooseSound(cfg.c, s.files[Loose(h)], h);
        }
        forall t ensures ReadPacked(cfg.c, s.files, t, h).Ok? ==> cfg.c.hash(ReadPacked(cfg.c, s.files, t, h).value) == h {
          ReadPackedSound(cfg.c, s.files, t, h);
        }
    }
  }

  lemma {:induction false} GetsSound(cfg: Config, s: State, hs: seq<Digest>, got: seq<Blob>, error: Option<CasError>, s': State)
    requires GetsNext(cfg, s, hs, got, error, s') && s.verify && CacheSound(cfg.c, s.blobCache)
    ensures s'.verify && CacheSound(cfg.c, s'.blobCache) && CacheSound(cfg.c, got)
    decreases |hs|
  {
    hide GetNext;
    if hs != [] {
      var n := |hs| - 1;
      var before, e, s1 :| GetsNext(cfg, s, hs[..n], before, e, s1) && ReadNext(cfg, hs[n], before, e, s1, got, error, s');
      GetsSound(cfg, s, hs[..n], before, e, s1);
      if e.None? {
        var r :| GetNext(cfg, s1, hs[n], r, s') && ReadAdds(before, hs[n], r, got, error);
        GetSound(cfg, s1, hs[n], r, s');
      }
    }
  }

  lemma RepackSound(cfg: Config, s: State, threshold: nat, r: Result<nat, CasError>, got: seq<Blob>, s': State)
    requires RepackNext(cfg, s, threshold, r, got, s') && s.verify && CacheSound(cfg.c, s.blobCache)
    ensures s'.verify && CacheSound(cfg.c, s'.blobCache) && CacheSound(cfg.c, got)
  {
    hide GetsNext, IsListing, ApplyAll, CreateSteps, Happened;
    var steps :| RepackRun(cfg, s, threshold, r, got, steps, s');
    var listed :| IsListing(s.files, listed) && RepackListed(cfg, s, listed, threshold, r, got, steps, s');
    if |listed| > threshold {
      var error: Option<CasError>, s1 :| GetsNext(cfg, s, listed, got, error, s1) && RepackWrites(cfg, s, listed, error, s1, r, got, steps, s');
      GetsSound(cfg, s, listed, got, error, s1);
    }
  }

  /** The reads a call answers with carry their own hashes, and the cache stays
      sound, as long as verification is not switched off. */
  lemma NextSound(cfg: Config, s: State, op: Op, reply: Reply, s': State)
    requires Next(cfg, s, op, reply, s') && s.verify && CacheSound(cfg.c, s.blobCache)
    requires op != SetVerifyOnRead(false)
    ensures s'.verify && CacheSound(cfg.c, s'.blobCache)
    ensures CacheSound(cfg.c, Gained(op, reply))
  {
    hide ParseIndex, ReadBlob, Find, ReadLoose, ReadPacked, Position, CacheOf, SweepOutcome, GetNext, RepackNext;
    if op.Get? {
      GetSound(cfg, s, op.hash, reply.data, s');
    } else if op.Repack? {
      RepackSound(cfg, s, op.threshold, reply.count, reply.got, s');
    }
  }

  lemma {:induction false} RunSound(cfg: Config, states: seq<State>, ops: seq<Op>, replies: seq<Reply>)
    requires IsRun(cfg, states, ops, replies)
    requires states[0].verify && states[0].blobCache == []
    requires forall i | 0 <= i < |ops| :: ops[i] != SetVerifyOnRead(false)
    ensures states[|ops|].verify && CacheSound(cfg.c, states[|ops|].blobCache)
    ensures forall i | 0 <= i < |ops| :: CacheSound(cfg.c, Gained(ops[i], replies[i]))
    decreases |ops|
  {
    hide Next, Gained;
    if ops != [] {
      var n := |ops| - 1;
      RunPrefix(cfg, states, ops, replies, n);
      RunSound(cfg, states[..n + 1], ops[..n], replies[..n]);
      NextSound(cfg, states[n], ops[n], replies[n], states[n + 1]);
      forall i | 0 <= i < |ops| ensures CacheSound(cfg.c, Gained(ops[i], replies[i])) {
        if i < n { assert ops[..n][i] == ops[i] && replies[..n][i] == replies[i]; }
      }
    }
  }

  /** Integrity: from a fresh store, over any run of calls interleaved with
      arbitrary changes of the files by others, every successful read of a
      digest returns bytes that hash to it, unless the host switches
      verification off. */
  lemma ReadsHashToAddress(cfg: Config, states: seq<State>, ops: seq<Op>, replies: seq<Reply>, i: nat, h: Digest, d: Bytes)
    requires IsRun(cfg, states, ops, replies)
    requires states[0].verify && states[0].blobCache == []
    requires forall j | 0 <= j < |ops| :: ops[j] != SetVerifyOnRead(false)
    requires i < |ops| && ops[i] == Get(h) && replies[i] == Data(Ok(d))
    ensures cfg.c.hash(d) == h
  {
    hide Next;
    RunSound(cfg, states, ops, replies);
    assert Gained(ops[i], replies[i])[0] == Blob(h, d);
  }

  /* Switching verification off and on */

  ghost predicate Unsound(c: Codec, b: Blob) {
    c.hash(b.data) != b.hash
  }

  /** With verification on, a successful read returns bytes that do not hash to
      the address exactly when the ring cache holds such an entry for it: a hit is
      never hashed again. */
  lemma VerifiedReadUnsoundExactly(cfg: Config, s: State, h: Digest, d: Bytes, s': State)
    requires GetNext(cfg, s, h, Ok(d), s') && s.verify
    ensures cfg.c.hash(d) != h <==>
            Position(s.blobCache, h).Some? && Unsound(cfg.c, s.blobCache[Position(s.blobCache, h).value])
    ensures cfg.c.hash(d) != h ==> Blob(h, d) in s.blobCache
    ensures forall b | b in s'.blobCache && Unsound(cfg.c, b) :: b in s.blobCache
  {
    hide ParseIndex, ReadBlob, Find, ReadLoose, ReadPacked, Position, CacheOf, AllIndexed;
    match Position(s.blobCache, h) {
      case Some(i) =>
        PositionHit(s.blobCache, h);
      case None =>
        if Loose(h) in s.files {
          ReadLooseSound(cfg.c, s.files[Loose(h)], h);
        }
        forall t ensures ReadPacked(cfg.c, s.files, t, h).Ok? ==> cfg.c.hash(ReadPacked(cfg.c, s.files, t, h).value) == h {
          ReadPackedSound(cfg.c, s.files, t, h);
        }
    }
  }

  lemma {:induction false} GetsUnsound(cfg: Config, s: State, hs: seq<Digest>, got: seq<Blob>, error: Option<CasError>, s': State)
    requires GetsNext(cfg, s, hs, got, error, s') && s.verify
    ensures s'.verify
    ensures forall b | b in got + s'.blobCache && Unsound(cfg.c, b) :: b in s.blobCache
    decreases |hs|
  {
    hide GetNext, Unsound;
    if hs != [] {
      var n := |hs| - 1;
      var before, e, s1 :| GetsNext(cfg, s, hs[..n], before, e, s1) && ReadNext(cfg, hs[n], before, e, s1, got, error, s');
      GetsUnsound(cfg, s, hs[..n], before, e, s1);
      assert forall b | b in before || b in s1.blobCache :: b in before + s1.blobCache;
      if e.None? {
        var r :| GetNext(cfg, s1, hs[n], r, s') && ReadAdds(before, hs[n], r, got, error);
        OneGetUnsound(cfg, s1, hs[n], r, s');
      }
    }
  }

  lemma OneGetUnsound(cfg: Config, s: State, h: Digest, r: Result<Bytes, CasError>, s': State)
    requires GetNext(cfg, s, h, r, s') && s.verify
    ensures s'.verify
    ensures r.Ok? && Unsound(cfg.c, Blob(h, r.value)) ==> Blob(h, r.value) in s.blobCache
    ensures forall b | b in s'.blobCache && Unsound(cfg.c, b) :: b in s.blobCache
  {
    if r.Ok? {
      VerifiedReadUnsoundExactly(cfg, s, h, r.value, s');
    }
    hide ParseIndex, ReadBlob, Find, ReadLoose, ReadPacked, Position, CacheOf, AllIndexed;
    assert r.Err? ==> s'.blobCache == s.blobCache;
  }

  lemma NextUnsound(cfg: Config, s: State, op: Op, reply: Reply, s': State)
    requires Next(cfg, s, op, reply, s') && s.verify
    ensures forall b | b in Gained(op, reply) && Unsound(cfg.c, b) :: b in s.blobCache
  {
    hide GetNext, RepackNext, SweepOutcome, HasNext, MarkNext, Unsound;
    if op.Get? {
      OneGetUnsound(cfg, s, op.hash, reply.data, s');
    } else if op.Repack? {
      RepackUnsound(cfg, s, op.threshold, reply.count, reply.got, s');
    }
  }

  lemma RepackUnsound(cfg: Config, s: State, threshold: nat, r: Result<nat, CasError>, got: seq<Blob>, s': State)
    requires RepackNext(cfg, s, threshold, r, got, s') && s.verify
    ensures forall b | b in got && Unsound(cfg.c, b) :: b in s.blobCache
  {
    hide GetsNext, IsListing, RepackWrites, Unsound;
    var steps :| RepackRun(cfg, s, threshold, r, got, steps, s');
    var listed :| IsListing(s.files, listed) && RepackListed(cfg, s, listed, threshold, r, got, steps, s');
    if |listed| > threshold {
      var error: Option<CasError>, s1 :| GetsNext(cfg, s, listed, got, error, s1) && RepackWrites(cfg, s, listed, error, s1, r, got, steps, s');
      GetsUnsound(cfg, s, listed, got, error, s1);
      assert forall b | b in got :: b in got + s1.blobCache;
    }
  }

  /** Every entry of the ring cache was returned by some call before. */
  lemma CacheFromHistory(cfg: Config, states: seq<State>, ops: seq<Op>, replies: seq<Reply>, b: Blob) returns (j: nat)
    requires IsRun(cfg, states, ops, replies) && states[0].blobCache == []
    requires b in states[|ops|].blobCache
    ensures j < |ops| && b in Gained(ops[j], replies[j])
  {
    hide Next, Gained, Recent, HistoryOf;
    var history := HistoryOf(ops, replies);
    CacheIsMostRecent(cfg, states, ops, replies);
    RecentExact(history);
    assert b in Recent(history);
    assert Latest(history, b);
    j := GainedSomewhere(ops, replies, b);
  }

  lemma {:induction false} GainedSomewhere(ops: seq<Op>, replies: seq<Reply>, b: Blob) returns (j: nat)
    requires |ops| == |replies| && b in HistoryOf(ops, replies)
    ensures j < |ops| && b in Gained(ops[j], replies[j])
    decreases |ops|
  {
    hide Gained;
    var n := |ops| - 1;
    if b in Gained(ops[n], replies[n]) {
      j := n;
    } else {
      j := GainedSomewhere(ops[..n], replies[..n], b);
    }
  }

  /** Whenever a call answers with bytes that do not hash to their address, the
      same bytes were read while verification was off: then, or by an earlier call
      from which the ring cache has kept them. */
  lemma {:induction false} UnsoundOrigin(cfg: Config, states: seq<State>, ops: seq<Op>, replies: seq<Reply>, i: nat, b: Blob) returns (j: nat)
    requires IsRun(cfg, states, ops, replies) && states[0].blobCache == []
    requires i < |ops| && b in Gained(ops[i], replies[i]) && Unsound(cfg.c, b)
    ensures j <= i && !states[j].verify && b in Gained(ops[j], replies[j])
    decreases i
  {
    hide Next, Gained, Unsound;
    if !states[i].verify {
      j := i;
    } else {
      RunPrefix(cfg, states, ops, replies, i);
      NextUnsound(cfg, states[i], ops[i], replies[i], states[i + 1]);
      var k := CacheFromHistory(cfg, states[..i + 1], ops[..i], replies[..i], b);
      j := UnsoundOrigin(cfg, states, ops, replies, k, b);
    }
  }
}
