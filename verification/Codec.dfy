/** Error values (src/error.rs and the pack errors of src/pack.rs). */
module Errors {
  import opened Bytes

  datatype PackError =
    | InvalidIndexMagic(magic: Bytes)
    | UnsupportedVersion(version: nat)
    | MissingFromPack(hash: Digest)
    | PackIo
    | PackDecompression
    | EmptyPack
    | UnexpectedObjectType(kind: byte)
    | PackHashMismatch(expected: Digest, actual: Digest)

  datatype CasError =
    | BlobNotFound(hash: Digest)
    | HashMismatch(expected: Digest, actual: Digest)
    | AlreadyExists(hash: Digest)
    | DecompressionError
    | DecompressionTooLarge
    | Io
    | InPack(error: PackError)
}

/** The foreign functions the store is built on: BLAKE3 and Zstandard. */
module Codecs {
  import opened Bytes
  import opened Errors

  /** `inflate` is the decoder read to its end, `None` on a malformed frame. */
  datatype Codec = Codec(
    hash: Bytes -> Digest,
    compress: Bytes -> Bytes,
    inflate: Bytes -> Option<Bytes>)

  /** The cap on decompressed data: 1 GiB. */
  const MAX_DECOMPRESSED := 1024 * 1024 * 1024

  const ZSTD_MAGIC: Bytes := [0x28, 0xB5, 0x2F, 0xFD]

  predicate IsZstdCompressed(data: Bytes) {
    |data| >= 4 && data[..4] == ZSTD_MAGIC
  }

  /** What the model assumes of Zstandard: frames start with the magic and
      inflate to what was compressed, and data within the cap at most doubles. */
  ghost predicate Lawful(c: Codec) {
    forall d {:trigger c.compress(d)} ::
      && c.inflate(c.compress(d)) == Some(d)
      && IsZstdCompressed(c.compress(d))
      && (|d| <= MAX_DECOMPRESSED ==> |c.compress(d)| <= 2 * MAX_DECOMPRESSED)
  }

  /** A choice of one byte string per digest. The strings a choice picks for
      their own digest are free of hash collisions among each other, and every
      collision-free set of strings is picked by some choice; so "in play" is
      how the model says that BLAKE3 does not collide on the strings at hand. */
  type Contents = Digest -> Bytes

  ghost predicate InPlay(c: Codec, g: Contents, b: Bytes) {
    g(c.hash(b)) == b
  }

  function Decompress(c: Codec, data: Bytes): Result<Bytes, CasError> {
    match c.inflate(data)
    case None => Err(DecompressionError)
    case Some(d) => if |d| > MAX_DECOMPRESSED then Err(DecompressionTooLarge) else Ok(d)
  }

  /** What `put_blob` writes. */
  function Encode(c: Codec, compress: bool, data: Bytes): Bytes {
    if compress then c.compress(data) else data
  }

  /** How `get_blob` decodes a loose file: the magic decides, not the mode the
      file was written in. */
  function Decode(c: Codec, raw: Bytes): Result<Bytes, CasError> {
    if IsZstdCompressed(raw) then Decompress(c, raw) else Ok(raw)
  }

  /** Data a store reads back as it was put. */
  predicate Storable(c: Codec, compress: bool, data: Bytes) {
    if compress then |data| <= MAX_DECOMPRESSED
    else IsZstdCompressed(data) ==> Decompress(c, data) == Ok(data)
  }

  /** Decoding undoes encoding exactly for storable data: a compressing store
      loses data above the cap, and a plain store misreads data that happens to
      start with the Zstandard magic (unless it is a frame of itself). Only the
      compressing half rests on a law; for a plain store `Storable` spells out the
      branch of the decoder. */
  lemma DecodeInvertsEncode(c: Codec, compress: bool, data: Bytes)
    requires Lawful(c)
    ensures Decode(c, Encode(c, compress, data)) == Ok(data) <==> Storable(c, compress, data)
  {
    if compress {
      assert c.inflate(c.compress(data)) == Some(data);
    }
  }

  /** A file that starts with the magic is refused exactly when it is no frame, or one
      of more than the cap, with an error that says which; any other file reads as it
      is. */
  lemma DecodeFailsExactly(c: Codec, raw: Bytes)
    ensures Decode(c, raw) == Err(DecompressionError) <==> IsZstdCompressed(raw) && c.inflate(raw).None?
    ensures Decode(c, raw) == Err(DecompressionTooLarge) <==>
            IsZstdCompressed(raw) && c.inflate(raw).Some? && |c.inflate(raw).value| > MAX_DECOMPRESSED
    ensures !IsZstdCompressed(raw) ==> Decode(c, raw) == Ok(raw)
    ensures Decode(c, raw).Err? ==> Decode(c, raw).error.DecompressionError? || Decode(c, raw).error.DecompressionTooLarge?
  {
  }

  /** A codec that frames data with the magic and compresses nothing. */
  function Framing(hash: Bytes -> Digest): Codec {
    Codec(hash, d => ZSTD_MAGIC + d, b => if |b| >= 4 then Some(b[4..]) else None)
  }

  /** The laws can be met, with any hash. */
  lemma FramingLawful(hash: Bytes -> Digest)
    ensures Lawful(Framing(hash))
  {
    forall d: Bytes ensures Framing(hash).inflate(Framing(hash).compress(d)) == Some(d) {
      assert (ZSTD_MAGIC + d)[4..] == d;
    }
  }
}
