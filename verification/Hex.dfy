/** The text form of a digest (src/hash.rs). */
module Hex {
  import opened Bytes

  datatype HashError = InvalidLength(n: nat) | InvalidHex

  /** The entry of the table `0123456789abcdef`. */
  function HexDigit(n: nat): (b: byte)
    requires n < 16
  {
    if n < 10 then 48 + n else 87 + n
  }

  /** `char::to_digit(16)`: both letter cases are digits. */
  function DigitValue(b: byte): (v: Option<nat>)
    ensures v.Some? ==> v.value < 16
  {
    if 48 <= b <= 57 then Some(b - 48)
    else if 97 <= b <= 102 then Some(b - 87)
    else if 65 <= b <= 70 then Some(b - 55)
    else None
  }

  const PLUS: byte := 43

  /** `u8::from_str_radix(chunk, 16)` on a two-byte chunk. A leading plus sign
      is accepted in front of a digit; bytes that are not UTF-8 are no digits. */
  function ParseByte(hi: byte, lo: byte): Option<byte> {
    if hi == PLUS then
      match DigitValue(lo)
      case Some(v) => Some(v)
      case None => None
    else
      match (DigitValue(hi), DigitValue(lo))
      case (Some(h), Some(l)) => Some(16 * h + l)
      case (_, _) => None
  }

  /** What `to_hex` computes: two digits a byte, high nibble first. */
  function HexOf(d: Bytes): (t: Bytes)
    ensures |t| == 2 * |d|
  {
    if d == [] then [] else
      HexOf(d[..|d| - 1]) + [HexDigit(d[|d| - 1] / 16), HexDigit(d[|d| - 1] % 16)]
  }

  /** What `from_hex` computes. */
  function HexParse(t: Bytes): Result<Digest, HashError> {
    if |t| != 64 then
      Err(InvalidLength(|t|))
    else if forall i | 0 <= i < 32 :: ParseByte(t[2 * i], t[2 * i + 1]).Some? then
      Ok(seq(32, i requires 0 <= i < 32 && ParseByte(t[2 * i], t[2 * i + 1]).Some? =>
        ParseByte(t[2 * i], t[2 * i + 1]).value))
    else
      Err(InvalidHex)
  }

  /** Text in the digits `to_hex` writes. */
  predicate LowercaseHex(t: Bytes) {
    forall i | 0 <= i < |t| :: 48 <= t[i] <= 57 || 97 <= t[i] <= 102
  }

  lemma {:induction false} HexAt(d: Bytes, i: nat)
    requires i < |d|
    ensures HexOf(d)[2 * i] == HexDigit(d[i] / 16)
    ensures HexOf(d)[2 * i + 1] == HexDigit(d[i] % 16)
  {
    if i < |d| - 1 {
      HexAt(d[..|d| - 1], i);
    }
  }

  lemma HexOfIsLowercase(d: Bytes)
    ensures LowercaseHex(HexOf(d))
  {
    forall i | 0 <= i < |HexOf(d)| ensures 48 <= HexOf(d)[i] <= 57 || 97 <= HexOf(d)[i] <= 102 {
      HexAt(d, i / 2);
      assert i == 2 * (i / 2) || i == 2 * (i / 2) + 1;
    }
  }

  /** Parsing what was printed gives the digest back. */
  lemma HexRoundTrip(d: Digest)
    ensures HexParse(HexOf(d)) == Ok(d)
  {
    var t := HexOf(d);
    forall i | 0 <= i < 32 ensures ParseByte(t[2 * i], t[2 * i + 1]) == Some(d[i]) {
      HexAt(d, i);
    }
    assert HexParse(t).value == d;
  }

  lemma DigitsBack(hi: byte, lo: byte)
    requires 48 <= hi <= 57 || 97 <= hi <= 102
    requires 48 <= lo <= 57 || 97 <= lo <= 102
    ensures ParseByte(hi, lo).Some?
    ensures HexDigit(ParseByte(hi, lo).value / 16) == hi
    ensures HexDigit(ParseByte(hi, lo).value % 16) == lo
  {
  }

  /** Two 64-byte texts of lowercase digits that parse alike are equal, so
      printing what was parsed gives the text back exactly on lowercase text. */
  lemma HexPrintsBack(t: Bytes)
    requires HexParse(t).Ok?
    ensures HexOf(HexParse(t).value) == t <==> LowercaseHex(t)
  {
    var d := HexParse(t).value;
    HexOfIsLowercase(d);
    if LowercaseHex(t) {
      forall k | 0 <= k < 64 ensures HexOf(d)[k] == t[k] {
        var i := k / 2;
        HexAt(d, i);
        DigitsBack(t[2 * i], t[2 * i + 1]);
        assert d[i] == ParseByte(t[2 * i], t[2 * i + 1]).value;
        assert k == 2 * i || k == 2 * i + 1;
      }
    }
  }

  /** Every lowercase text of the right length names a digest. */
  lemma LowercaseParses(t: Bytes)
    requires |t| == 64 && LowercaseHex(t)
    ensures HexParse(t).Ok?
  {
    forall i | 0 <= i < 32 ensures ParseByte(t[2 * i], t[2 * i + 1]).Some? {
      assert DigitValue(t[2 * i]).Some? && DigitValue(t[2 * i + 1]).Some?;
    }
  }

  /** Printing keeps the order: paths are ordered as their digests are. */
  lemma HexOrder(d: Digest, e: Digest)
    ensures Precedes(HexOf(d), HexOf(e)) <==> Precedes(d, e)
  {
    hide Precedes, HexOf;
    LessExactly(d, e);
    LessExactly(e, d);
    LessTotal(d, e);
    LessIrreflexive(d);
    if Less(d, e) {
      HexPrecedes(d, e);
    } else if Less(e, d) {
      HexPrecedes(e, d);
      LessExactly(HexOf(e), HexOf(d));
      LessExactly(HexOf(d), HexOf(e));
      if Less(HexOf(d), HexOf(e)) { LessTransitive(HexOf(d), HexOf(e), HexOf(d)); }
      LessIrreflexive(HexOf(d));
    } else {
      LessExactly(HexOf(d), HexOf(e));
      LessIrreflexive(HexOf(d));
    }
  }

  lemma HexPrecedes(d: Digest, e: Digest)
    requires Precedes(d, e)
    ensures Precedes(HexOf(d), HexOf(e))
  {
    hide HexOf;
    var k :| 0 <= k <= |d| && k < |e| && d[..k] == e[..k] && (k == |d| || d[k] < e[k]);
    var a, b := HexOf(d), HexOf(e);
    HexAt(d, k);
    HexAt(e, k);
    forall i | 0 <= i < 2 * k ensures a[i] == b[i] {
      HexAt(d, i / 2);
      HexAt(e, i / 2);
      assert d[..k][i / 2] == e[..k][i / 2];
      assert i == 2 * (i / 2) || i == 2 * (i / 2) + 1;
    }
    var j := if d[k] / 16 == e[k] / 16 then 2 * k + 1 else 2 * k;
    assert a[j] < b[j];
    assert a[..j] == b[..j];
  }

  /* Other spellings */

  function LowerByte(b: byte): byte {
    if 65 <= b <= 90 then b + 32 else b
  }

  function Lower(t: Bytes): (r: Bytes)
    ensures |r| == |t| && forall i | 0 <= i < |t| :: r[i] == LowerByte(t[i])
  {
    seq(|t|, i requires 0 <= i < |t| => LowerByte(t[i]))
  }

  lemma LowerDigits(hi: byte, lo: byte)
    ensures ParseByte(LowerByte(hi), LowerByte(lo)) == ParseByte(hi, lo)
    ensures ParseByte(PLUS, lo) == ParseByte(48, lo)
  {
  }

  lemma SameParse(t: Bytes, u: Bytes)
    requires |t| == |u|
    requires |t| == 64 ==> forall i | 0 <= i < 32 :: ParseByte(t[2 * i], t[2 * i + 1]) == ParseByte(u[2 * i], u[2 * i + 1])
    ensures HexParse(t) == HexParse(u)
  {
    hide ParseByte;
    if HexParse(t).Ok? {
      var d, e := HexParse(t).value, HexParse(u).value;
      forall i | 0 <= i < 32 ensures d[i] == e[i] {
        assert ParseByte(t[2 * i], t[2 * i + 1]) == ParseByte(u[2 * i], u[2 * i + 1]);
      }
      assert d == e;
    }
  }

  /** The length is looked at first, and reported. */
  lemma ParseErrors(t: Bytes)
    ensures HexParse(t) == Err(InvalidLength(|t|)) <==> |t| != 64
    ensures HexParse(t) == Err(InvalidHex) <==> |t| == 64 && exists i :: 0 <= i < 32 && ParseByte(t[2 * i], t[2 * i + 1]).None?
  {
    hide ParseByte;
  }

  /** A text and its lowercase form parse alike, also when neither does. */
  lemma CaseIgnored(t: Bytes)
    ensures HexParse(Lower(t)) == HexParse(t)
  {
    hide ParseByte;
    if |t| == 64 {
      forall i | 0 <= i < 32 ensures ParseByte(Lower(t)[2 * i], Lower(t)[2 * i + 1]) == ParseByte(t[2 * i], t[2 * i + 1]) {
        LowerDigits(t[2 * i], t[2 * i + 1]);
      }
    }
    SameParse(Lower(t), t);
  }

  /** A plus sign in the place of a high digit counts as a zero. */
  lemma PlusIsZero(t: Bytes, k: nat)
    requires |t| == 64 && k < 32 && t[2 * k] == PLUS
    ensures HexParse(t) == HexParse(t[2 * k := 48])
  {
    hide ParseByte;
    var u := t[2 * k := 48];
    forall i | 0 <= i < 32 ensures ParseByte(t[2 * i], t[2 * i + 1]) == ParseByte(u[2 * i], u[2 * i + 1]) {
      if i == k { LowerDigits(48, t[2 * k + 1]); }
    }
    SameParse(t, u);
  }

  lemma HexInjective(d: Digest, e: Digest)
    requires HexOf(d) == HexOf(e)
    ensures d == e
  {
    HexRoundTrip(d);
    HexRoundTrip(e);
  }

  method ToHex(d: Digest) returns (s: Bytes)
    ensures s == HexOf(d)
  {
    s := [];
    for i := 0 to 32
      invariant s == HexOf(d[..i])
    {
      s := s + [HexDigit(d[i] / 16)];
      s := s + [HexDigit(d[i] % 16)];
      assert d[..i + 1][..i] == d[..i];
    }
    assert d[..32] == d;
  }

  method FromHex(hex: Bytes) returns (r: Result<Digest, HashError>)
    ensures r == HexParse(hex)
  {
    if |hex| != 64 {
      return Err(InvalidLength(|hex|));
    }
    var bytes := new byte[32];
    for i := 0 to 32
      invariant forall j | 0 <= j < i :: ParseByte(hex[2 * j], hex[2 * j + 1]) == Some(bytes[j])
    {
      var value := ParseByte(hex[2 * i], hex[2 * i + 1]);
      if value.None? {
        return Err(InvalidHex);
      }
      bytes[i] := value.value;
    }
    assert bytes[..] == HexParse(hex).value;
    return Ok(bytes[..]);
  }

  /** The bucket directory of a digest is its first byte in hex, and parsing
      keeps it. */
  lemma BucketMatchesPrefix(d: Digest)
    ensures ParseByte(HexOf(d)[0], HexOf(d)[1]) == Some(d[0])
    ensures HexParse(HexOf(d)).Ok? && HexParse(HexOf(d)).value[0] == d[0]
  {
    HexAt(d, 0);
    HexRoundTrip(d);
  }
}

/** Where loose objects live and how they are listed (src/store.rs). */
module Layout {
  import opened Bytes
  import opened Sorting
  import opened Hex

  /** A regular file `objects/<dir>/<file>`. */
  datatype Entry = Entry(dir: Name, file: Name)

  /** The name of the pack directory, which listing skips. */
  const PACK_DIR: Name := [112, 97, 99, 107]

  /** `blob_path`, relative to `objects/`. */
  function BlobPath(h: Digest): Entry {
    Entry(HexOf(h)[..2], HexOf(h)[2..])
  }

  /** The digest that listing reads off a file, if any. */
  function NamedBy(e: Entry): Option<Digest> {
    if e.dir == PACK_DIR then None else
      match HexParse(e.dir + e.file)
      case Ok(h) => Some(h)
      case Err(_) => None
  }

  ghost function Namers(tree: set<Entry>, h: Digest): set<Entry> {
    set e | e in tree && NamedBy(e) == Some(h)
  }

  /** A file that listing reports under a digest it is not the address of. */
  ghost predicate Alias(e: Entry) {
    NamedBy(e).Some? && e != BlobPath(NamedBy(e).value)
  }

  ghost function Addressed(tree: set<Entry>): iset<Digest> {
    iset h: Digest | BlobPath(h) in tree
  }

  lemma BlobPathNamed(h: Digest)
    ensures NamedBy(BlobPath(h)) == Some(h)
  {
    HexRoundTrip(h);
    assert HexOf(h)[..2] + HexOf(h)[2..] == HexOf(h);
  }

  lemma BlobPathInjective(h: Digest, k: Digest)
    requires BlobPath(h) == BlobPath(k)
    ensures h == k
  {
    BlobPathNamed(h);
    BlobPathNamed(k);
  }

  /** A file named in lowercase digits, two for the directory, is no alias:
      splitting the name after two digits undoes joining it. */
  lemma LowercaseIsNoAlias(e: Entry)
    requires |e.dir| == 2 && |e.file| == 62 && LowercaseHex(e.dir + e.file)
    ensures NamedBy(e).Some? && !Alias(e)
  {
    var t := e.dir + e.file;
    LowercaseParses(t);
    HexPrintsBack(t);
    assert t[..2] == e.dir && t[2..] == e.file;
  }

  /** The names a store writes: two and 62 lowercase digits. */
  predicate Canonical(e: Entry) {
    |e.dir| == 2 && |e.file| == 62 && LowercaseHex(e.dir + e.file)
  }

  /** What makes an alias is the spelling of the name alone: uppercase digits, a
      plus sign, or a split anywhere but after the second digit. */
  lemma AliasExactly(e: Entry)
    requires NamedBy(e).Some?
    ensures Alias(e) <==> !Canonical(e)
  {
    BlobPathCanonical(NamedBy(e).value);
    if Canonical(e) {
      LowercaseIsNoAlias(e);
    }
  }

  lemma BlobPathCanonical(h: Digest)
    ensures Canonical(BlobPath(h))
  {
    HexOfIsLowercase(h);
    assert BlobPath(h).dir + BlobPath(h).file == HexOf(h);
  }

  /** One alias of each kind. */
  lemma AliasesExist()
    ensures var zeros := seq(62, _ => 48);
            && Alias(Entry([65, 65], zeros))
            && Alias(Entry([PLUS, 48], zeros))
            && Alias(Entry([48], [48] + zeros))
  {
    var zeros: Bytes := seq(62, _ => 48);
    forall dir: Bytes | dir in {[65, 65], [PLUS, 48], [48, 48]} ensures HexParse(dir + zeros).Ok? {
      forall i | 0 <= i < 32 ensures ParseByte((dir + zeros)[2 * i], (dir + zeros)[2 * i + 1]).Some? {
        if i > 0 {
          assert (dir + zeros)[2 * i] == 48 && (dir + zeros)[2 * i + 1] == 48;
        }
      }
    }
    assert [48] + ([48] + zeros) == [48, 48] + zeros;
    assert ([65, 65] + zeros)[0] == 65 && ([PLUS, 48] + zeros)[0] == PLUS;
    AliasExactly(Entry([65, 65], zeros));
    AliasExactly(Entry([PLUS, 48], zeros));
    AliasExactly(Entry([48], [48] + zeros));
  }

  lemma NamersStep(tree: set<Entry>, e: Entry, h: Digest)
    requires e !in tree
    ensures |Namers(tree + {e}, h)| == |Namers(tree, h)| + if NamedBy(e) == Some(h) then 1 else 0
  {
    if NamedBy(e) == Some(h) {
      assert Namers(tree + {e}, h) == Namers(tree, h) + {e};
    } else {
      assert Namers(tree + {e}, h) == Namers(tree, h);
    }
  }

  method ReadName(e: Entry) returns (name: Option<Digest>)
    ensures name == NamedBy(e)
  {
    if e.dir == PACK_DIR {
      return None;
    }
    var parsed := FromHex(e.dir + e.file);
    match parsed
    case Ok(h) => return Some(h);
    case Err(_) => return None;
  }

  /** Listing: visit the entries in any order, keep what parses, sort. */
  method ListBlobs(tree: set<Entry>) returns (hashes: seq<Digest>)
    ensures Sorted(hashes, DigestKey) && InOrder(hashes, DigestKey)
    ensures forall h: Digest :: multiset(hashes)[h] == |Namers(tree, h)|
  {
    var found: seq<Digest> := [];
    var rest := tree;
    ghost var seen: set<Entry> := {};
    while rest != {}
      invariant seen !! rest && seen + rest == tree
      invariant forall h: Digest :: multiset(found)[h] == |Namers(seen, h)|
      decreases rest
    {
      var e :| e in rest;
      rest := rest - {e};
      var name := ReadName(e);
      forall h: Digest ensures |Namers(seen + {e}, h)| == |Namers(seen, h)| + if name == Some(h) then 1 else 0 {
        NamersStep(seen, e, h);
      }
      if name.Some? {
        found := found + [name.value];
      }
      seen := seen + {e};
    }
    assert seen == tree;
    hashes := Sort(found, DigestKey);
    SortSorted(found, DigestKey);
    SortedInOrder(hashes, DigestKey);
  }

  /** Listing inverts addressing exactly when every file whose name parses is
      named by two and 62 lowercase digits: then, and only then, the listing is
      the strictly increasing sequence of the digests whose address exists. */
  lemma ListingInvertsAddressing(tree: set<Entry>, hashes: seq<Digest>)
    requires Sorted(hashes, DigestKey)
    requires forall h: Digest :: multiset(hashes)[h] == |Namers(tree, h)|
    ensures (forall e | e in tree && NamedBy(e).Some? :: Canonical(e)) <==>
            (StrictlySorted(hashes, DigestKey) && forall h: Digest :: h in hashes <==> h in Addressed(tree))
  {
    forall h: Digest ensures h in hashes <==> Namers(tree, h) != {} {
      assert h in hashes <==> multiset(hashes)[h] > 0;
    }
    forall e | e in tree && NamedBy(e).Some? ensures Alias(e) <==> !Canonical(e) {
      AliasExactly(e);
    }
    if e :| e in tree && Alias(e) {
      AliasSpoilsListing(tree, hashes, e);
    } else {
      NoAliasListsExactly(tree, hashes);
    }
  }

  lemma AliasSpoilsListing(tree: set<Entry>, hashes: seq<Digest>, e: Entry)
    requires forall h: Digest :: multiset(hashes)[h] == |Namers(tree, h)|
    requires e in tree && Alias(e)
    ensures StrictlySorted(hashes, DigestKey) ==>
              NamedBy(e).value in hashes && NamedBy(e).value !in Addressed(tree)
  {
    var h := NamedBy(e).value;
    assert e in Namers(tree, h);
    if StrictlySorted(hashes, DigestKey) {
      StrictDistinct(hashes, DigestKey);
      CountAtMostOnce(hashes, h);
      if h in Addressed(tree) {
        BlobPathNamed(h);
        SubsetSize({e, BlobPath(h)}, Namers(tree, h));
      }
      assert multiset(hashes)[h] > 0;
    }
  }

  lemma NoAliasListsExactly(tree: set<Entry>, hashes: seq<Digest>)
    requires Sorted(hashes, DigestKey)
    requires forall h: Digest :: multiset(hashes)[h] == |Namers(tree, h)|
    requires forall h: Digest :: h in hashes <==> Namers(tree, h) != {}
    requires forall e | e in tree :: !Alias(e)
    ensures StrictlySorted(hashes, DigestKey)
    ensures forall h: Digest :: h in hashes <==> h in Addressed(tree)
  {
    forall i, j | 0 <= i < j < |hashes| ensures hashes[i] != hashes[j] {
      if hashes[i] == hashes[j] {
        TwiceInMultiset(hashes, i, j);
        SubsetSize(Namers(tree, hashes[i]), {BlobPath(hashes[i])});
      }
    }
    SortedDistinct(hashes, DigestKey);
    forall h: Digest ensures h in hashes <==> h in Addressed(tree) {
      if h in hashes {
        var e :| e in Namers(tree, h);
      }
      if h in Addressed(tree) {
        BlobPathNamed(h);
        assert BlobPath(h) in Namers(tree, h);
      }
    }
  }
}
