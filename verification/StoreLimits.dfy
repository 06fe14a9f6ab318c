/** Where the store parts from a plain map, and exactly when. */
module StoreLimits {
  import opened Bytes
  import opened Codecs
  import opened Disks
  import opened Errors
  import opened GcModel
  import opened Inventory
  import opened PackFormat
  import opened RingCache
  import opened StoreModel
  import opened StoreRuns

  /* Putting and getting */

  /** A blob that has been put and is read comes back as it was put, in both modes
      and with verification on or off, if and only if what the store already had
      under its digest is right, or it had nothing there and the data is storable:
      a put changes neither the ring cache, which answers first, nor a file that is
      already there, whatever that file holds. */
  lemma PutThenGet(cfg: Config, s: State, data: Bytes, s1: State, r: Result<Bytes, CasError>, s2: State)
    requires Lawful(cfg.c)
    requires Next(cfg, s, Put(data), Stored(Ok(cfg.c.hash(data))), s1)
    requires Next(cfg, s1, Get(cfg.c.hash(data)), Data(r), s2)
    ensures var h := cfg.c.hash(data);
            r == Ok(data) <==>
            match Held(s.blobCache, h)
            case Some(b) => b.data == data
            case None =>
              if Loose(h) in s.files then Decode(cfg.c, s.files[Loose(h)]) == Ok(data)
              else Storable(cfg.c, cfg.compress, data)
  {
    hide ParseIndex, ReadBlob, Storable, Position, PackedNext;
    DecodeInvertsEncode(cfg.c, cfg.compress, data);
  }

  /** Calls that leave a loose file alone if it is there. */
  predicate Spares(op: Op, h: Digest) {
    match op
    case Delete(k) => k != h
    case Repack(_) => false
    case Sweep(_, _) => false
    case External(_) => false
    case _ => true
  }

  /** A torn or damaged loose file is repaired by no put: until a call deletes it,
      its bytes stay as they are and no read answers with the data, however often
      the data is put, and although every put answers Ok. */
  lemma {:induction false} PutsNeverRepair(cfg: Config, states: seq<State>, ops: seq<Op>, replies: seq<Reply>, h: Digest, data: Bytes, i: nat)
    requires IsRun(cfg, states, ops, replies) && i <= |ops|
    requires forall j | 0 <= j < |ops| :: Spares(ops[j], h)
    requires Loose(h) in states[0].files && Decode(cfg.c, states[0].files[Loose(h)]) != Ok(data)
    requires Blob(h, data) !in states[0].blobCache
    ensures SameAt(states[0].files, states[i].files, Loose(h)) && Blob(h, data) !in states[i].blobCache
    ensures i < |ops| && ops[i] == Get(h) ==> replies[i] != Data(Ok(data))
    ensures i < |ops| && ops[i] == Put(data) && cfg.c.hash(data) == h ==> replies[i] == Stored(Ok(h))
  {
    hide Next, Decode;
    if i > 0 {
      PutsNeverRepair(cfg, states, ops, replies, h, data, i - 1);
      assert Next(cfg, states[i - 1], ops[i - 1], replies[i - 1], states[i]);
      SparesFile(cfg, states[i - 1], ops[i - 1], replies[i - 1], states[i], h, data);
    }
    if i < |ops| {
      assert Next(cfg, states[i], ops[i], replies[i], states[i + 1]);
      SparesFile(cfg, states[i], ops[i], replies[i], states[i + 1], h, data);
    }
  }

  lemma SparesFile(cfg: Config, s: State, op: Op, reply: Reply, s': State, h: Digest, data: Bytes)
    requires Next(cfg, s, op, reply, s') && Spares(op, h)
    requires Loose(h) in s.files && Decode(cfg.c, s.files[Loose(h)]) != Ok(data) && Blob(h, data) !in s.blobCache
    ensures SameAt(s.files, s'.files, Loose(h)) && Blob(h, data) !in s'.blobCache
    ensures op == Get(h) ==> reply != Data(Ok(data))
    ensures op == Put(data) && cfg.c.hash(data) == h ==> reply == Stored(Ok(h))
  {
    hide GetNext, HasNext, MarkNext, SweepOutcome, Decode, Encode;
    match op {
      case Get(k) => GetSpares(cfg, s, k, reply.data, s', h, data);
      case Has(k) => HasKeepsFiles(s, k, reply.present, s');
      case Mark(roots) => MarkKeepsFiles(s, roots, reply.marked, s');
      case _ =>
    }
  }

  lemma GetSpares(cfg: Config, s: State, k: Digest, r: Result<Bytes, CasError>, s': State, h: Digest, data: Bytes)
    requires GetNext(cfg, s, k, r, s')
    requires Loose(h) in s.files && Decode(cfg.c, s.files[Loose(h)]) != Ok(data) && Blob(h, data) !in s.blobCache
    ensures s'.files == s.files && Blob(h, data) !in s'.blobCache
    ensures k == h ==> r != Ok(data)
  {
    hide Decode, ReadPacked, Position, AllIndexed;
    if Position(s.blobCache, k).Some? {
      PositionHit(s.blobCache, k);
    }
  }

  /** A store without compression that is given a Zstandard frame reads it as
      what the frame inflates to: an error under verification, and the wrong
      bytes without. */
  lemma PlainStoreInflatesFrames(cfg: Config, s: State, x: Bytes, s1: State, r: Result<Bytes, CasError>, s2: State)
    requires Lawful(cfg.c) && !cfg.compress && |x| <= MAX_DECOMPRESSED
    requires var h := cfg.c.hash(cfg.c.compress(x)); Loose(h) !in s.files && Position(s.blobCache, h).None?
    requires Next(cfg, s, Put(cfg.c.compress(x)), Stored(Ok(cfg.c.hash(cfg.c.compress(x)))), s1)
    requires Next(cfg, s1, Get(cfg.c.hash(cfg.c.compress(x))), Data(r), s2)
    ensures var h := cfg.c.hash(cfg.c.compress(x));
            r == if s.verify && cfg.c.hash(x) != h then Err(HashMismatch(h, cfg.c.hash(x))) else Ok(x)
  {
    hide ParseIndex, ReadBlob;
    assert cfg.c.inflate(cfg.c.compress(x)) == Some(x);
  }

  /* Repacking what is too large */

  /** No pack ever yields data above the decompression cap. */
  lemma OversizedNeverReadsPacked(c: Codec, f: Files, t: Name, h: Digest, data: Bytes)
    requires |data| > MAX_DECOMPRESSED
    ensures ReadPacked(c, f, t, h) != Ok(data)
  {
    hide ParseIndex, Find;
  }

  /** A store without compression keeps and reads a blob above the cap, but once
      a repack has moved it into a pack, no store opened afterwards reads it. */
  lemma RepackBuriesOversized(cfg: Config, s: State, threshold: nat, n: nat, got: seq<Blob>, s1: State,
                              h: Digest, data: Bytes, before: Result<Bytes, CasError>, s0: State,
                              after: Result<Bytes, CasError>, s2: State)
    requires Loose(h) in s.files && s.files[Loose(h)] == data && !IsZstdCompressed(data)
    requires cfg.c.hash(data) == h && |data| > MAX_DECOMPRESSED && Position(s.blobCache, h).None?
    requires Next(cfg, s, Get(h), Data(before), s0)
    requires Next(cfg, s, Repack(threshold), Repacked(Ok(n), got), s1) && Loose(h) !in s1.files
    requires Next(cfg, State(s1.files, None, [], s.verify), Get(h), Data(after), s2)
    ensures before == Ok(data) && after != Ok(data)
  {
    hide ParseIndex, ReadBlob, Find, ReadPacked, RepackNext;
    forall t ensures ReadPacked(cfg.c, s1.files, t, h) != Ok(data) {
      OversizedNeverReadsPacked(cfg.c, s1.files, t, h, data);
    }
  }
}
