/** Byte strings, digests, little-endian integers, and the bytewise order that
    digests and file names are sorted by. */
module Bytes {

  type byte = x: int | 0 <= x < 256
  type Bytes = seq<byte>

  /** A BLAKE3 digest: 32 bytes. */
  type Digest = d: Bytes | |d| == 32 witness seq(32, _ => 0)

  /** A file-name stem or extension, as the bytes the file system stores. */
  type Name = Bytes

  datatype Option<+T> = None | Some(value: T)

  datatype Result<+T, +E> = Ok(value: T) | Err(error: E)

  /** Content addressed by its digest. */
  datatype Blob = Blob(hash: Digest, data: Bytes)

  const U32_SIZE := 0x1_0000_0000
  const U64_SIZE := 0x1_0000_0000_0000_0000

  type u32 = x: int | 0 <= x < U32_SIZE
  type u64 = x: int | 0 <= x < U64_SIZE

  /** The `as u32` cast: keep the low 32 bits. */
  function AsU32(n: nat): (r: u32)
    ensures r <= n
    ensures n < U32_SIZE ==> r == n
  {
    n % U32_SIZE
  }

  /** The `as u64` cast. */
  function AsU64(n: nat): (r: u64)
    ensures r <= n
    ensures n < U64_SIZE ==> r == n
  {
    n % U64_SIZE
  }

  /* Little-endian integers */

  function Pow256(w: nat): nat {
    if w == 0 then 1 else 256 * Pow256(w - 1)
  }

  /** `to_le_bytes` of a `w`-byte integer. */
  function ToLe(n: nat, w: nat): (b: Bytes)
    ensures |b| == w
  {
    if w == 0 then [] else [n % 256] + ToLe(n / 256, w - 1)
  }

  /** `from_le_bytes`. */
  function FromLe(b: Bytes): nat {
    if b == [] then 0 else b[0] + 256 * FromLe(b[1..])
  }

  lemma {:induction false} LeRoundTrip(n: nat, w: nat)
    requires n < Pow256(w)
    ensures FromLe(ToLe(n, w)) == n
  {
    if w > 0 {
      LeRoundTrip(n / 256, w - 1);
      assert ToLe(n, w)[1..] == ToLe(n / 256, w - 1);
    }
  }

  lemma {:induction false} FromLeBound(b: Bytes)
    ensures FromLe(b) < Pow256(|b|)
  {
    if b != [] {
      FromLeBound(b[1..]);
    }
  }

  lemma Pow256Values()
    ensures Pow256(4) == U32_SIZE
    ensures Pow256(8) == U64_SIZE
  {
    assert Pow256(2) == 65536;
    assert Pow256(4) == 256 * (256 * Pow256(2));
    assert Pow256(6) == 256 * (256 * Pow256(4));
    assert Pow256(8) == 256 * (256 * Pow256(6));
  }

  /** `u32::from_le_bytes`. */
  function U32FromLe(b: Bytes): u32
    requires |b| == 4
  {
    FromLeBound(b);
    Pow256Values();
    FromLe(b)
  }

  /** `u64::from_le_bytes`. */
  function U64FromLe(b: Bytes): u64
    requires |b| == 8
  {
    FromLeBound(b);
    Pow256Values();
    FromLe(b)
  }

  lemma U32RoundTrip(n: u32)
    ensures U32FromLe(ToLe(n, 4)) == n
  {
    Pow256Values();
    LeRoundTrip(n, 4);
  }

  lemma U64RoundTrip(n: u64)
    ensures U64FromLe(ToLe(n, 8)) == n
  {
    Pow256Values();
    LeRoundTrip(n, 8);
  }

  /* Bytewise order */

  /** Strict lexicographic order, the derived `Ord` of digests and paths. */
  predicate Less(a: Bytes, b: Bytes)
    decreases |a|
  {
    b != [] && (a == [] || a[0] < b[0] || (a[0] == b[0] && Less(a[1..], b[1..])))
  }

  /** The order in plain words: at the first place where they differ the smaller
      byte decides, and a proper prefix comes first. */
  ghost predicate Precedes(a: Bytes, b: Bytes) {
    exists k :: 0 <= k <= |a| && k < |b| && a[..k] == b[..k] && (k == |a| || a[k] < b[k])
  }

  lemma {:induction false} LessExactly(a: Bytes, b: Bytes)
    ensures Less(a, b) <==> Precedes(a, b)
    decreases |a|
  {
    if b == [] {
    } else if a == [] {
      assert a[..0] == b[..0];
    } else if a[0] != b[0] {
      assert a[..0] == b[..0];
      forall k | 0 < k <= |a| && k < |b| ensures a[..k] != b[..k] {
        assert a[..k][0] != b[..k][0];
      }
    } else {
      LessExactly(a[1..], b[1..]);
      if Precedes(a[1..], b[1..]) {
        var k :| 0 <= k <= |a[1..]| && k < |b[1..]| && a[1..][..k] == b[1..][..k] && (k == |a[1..]| || a[1..][k] < b[1..][k]);
        assert a[..k + 1] == [a[0]] + a[1..][..k] && b[..k + 1] == [b[0]] + b[1..][..k];
      }
      if k :| 0 <= k <= |a| && k < |b| && a[..k] == b[..k] && (k == |a| || a[k] < b[k]) {
        assert k > 0;
        assert a[1..][..k - 1] == a[..k][1..] && b[1..][..k - 1] == b[..k][1..];
      }
    }
  }

  lemma {:induction false} LessIrreflexive(a: Bytes)
    ensures !Less(a, a)
  {
    if a != [] {
      LessIrreflexive(a[1..]);
    }
  }

  lemma {:induction false} LessTransitive(a: Bytes, b: Bytes, c: Bytes)
    requires Less(a, b) && Less(b, c)
    ensures Less(a, c)
    decreases |a|
  {
    if a != [] && a[0] == b[0] == c[0] {
      LessTransitive(a[1..], b[1..], c[1..]);
    }
  }

  lemma {:induction false} LessTotal(a: Bytes, b: Bytes)
    ensures Less(a, b) || a == b || Less(b, a)
    decreases |a|
  {
    if a != [] && b != [] && a[0] == b[0] {
      LessTotal(a[1..], b[1..]);
      if a[1..] == b[1..] {
        assert a == [a[0]] + a[1..];
        assert b == [b[0]] + b[1..];
      }
    }
  }
}

/** Sorting by a byte-string key, and the sorted sequence of a finite set. */
module Sorting {
  import opened Bytes

  ghost predicate Sorted<T>(xs: seq<T>, key: T -> Bytes) {
    forall i, j | 0 <= i < j < |xs| :: !Less(key(xs[j]), key(xs[i]))
  }

  ghost predicate StrictlySorted<T>(xs: seq<T>, key: T -> Bytes) {
    forall i, j | 0 <= i < j < |xs| :: Less(key(xs[i]), key(xs[j]))
  }

  /** In the order of the keys, equal keys side by side. */
  ghost predicate InOrder<T>(xs: seq<T>, key: T -> Bytes) {
    forall i, j | 0 <= i < j < |xs| :: key(xs[i]) == key(xs[j]) || Precedes(key(xs[i]), key(xs[j]))
  }

  ghost predicate StrictlyInOrder<T>(xs: seq<T>, key: T -> Bytes) {
    forall i, j | 0 <= i < j < |xs| :: Precedes(key(xs[i]), key(xs[j]))
  }

  lemma SortedInOrder<T>(xs: seq<T>, key: T -> Bytes)
    ensures Sorted(xs, key) <==> InOrder(xs, key)
  {
    hide Less, Precedes;
    forall i, j | 0 <= i < j < |xs|
      ensures !Less(key(xs[j]), key(xs[i])) <==> key(xs[i]) == key(xs[j]) || Precedes(key(xs[i]), key(xs[j]))
    {
      LessExactly(key(xs[i]), key(xs[j]));
      LessTotal(key(xs[i]), key(xs[j]));
      LessIrreflexive(key(xs[i]));
      if Less(key(xs[i]), key(xs[j])) && Less(key(xs[j]), key(xs[i])) {
        LessTransitive(key(xs[i]), key(xs[j]), key(xs[i]));
      }
    }
  }

  lemma StrictInOrder<T>(xs: seq<T>, key: T -> Bytes)
    ensures StrictlySorted(xs, key) <==> StrictlyInOrder(xs, key)
  {
    hide Less, Precedes;
    forall i, j | 0 <= i < j < |xs| ensures Less(key(xs[i]), key(xs[j])) <==> Precedes(key(xs[i]), key(xs[j])) {
      LessExactly(key(xs[i]), key(xs[j]));
    }
  }

  function Elements<T>(xs: seq<T>): set<T> {
    set x | x in xs
  }

  /** The key of a digest is the digest itself. */
  function DigestKey(d: Digest): Bytes {
    d
  }

  /** Insert after every element with a key that is not larger. */
  function Insert<T>(x: T, xs: seq<T>, key: T -> Bytes): (ys: seq<T>)
    ensures multiset(ys) == multiset([x] + xs)
    ensures |ys| == |xs| + 1
  {
    if xs == [] || Less(key(x), key(xs[0])) then
      [x] + xs
    else
      assert xs == [xs[0]] + xs[1..];
      [xs[0]] + Insert(x, xs[1..], key)
  }

  /** `sort_by_key`: stable, because elements are inserted front to back. */
  function Sort<T>(xs: seq<T>, key: T -> Bytes): (ys: seq<T>)
    ensures multiset(ys) == multiset(xs)
    ensures |ys| == |xs|
  {
    if xs == [] then [] else
      var n := |xs| - 1;
      assert xs == xs[..n] + [xs[n]];
      Insert(xs[n], Sort(xs[..n], key), key)
  }

  lemma SameElements<T>(xs: seq<T>, ys: seq<T>)
    requires multiset(xs) == multiset(ys)
    ensures forall x :: x in xs <==> x in ys
  {
    forall x ensures x in xs <==> x in ys {
      assert x in xs <==> x in multiset(xs);
      assert x in ys <==> x in multiset(ys);
    }
  }

  lemma ElementMoves<T>(xs: seq<T>, ys: seq<T>, i: nat) returns (k: nat)
    requires multiset(xs) == multiset(ys) && i < |xs|
    ensures k < |ys| && ys[k] == xs[i]
  {
    assert xs[i] in multiset(xs);
    k :| 0 <= k < |ys| && ys[k] == xs[i];
  }

  lemma {:induction false} InsertSorted<T>(x: T, xs: seq<T>, key: T -> Bytes)
    requires Sorted(xs, key)
    ensures Sorted(Insert(x, xs, key), key)
  {
    var ys := Insert(x, xs, key);
    if xs == [] {
    } else if Less(key(x), key(xs[0])) {
      LessIrreflexive(key(x));
      forall j | 0 <= j < |xs| ensures !Less(key(xs[j]), key(x)) {
        if Less(key(xs[j]), key(x)) {
          LessTransitive(key(xs[j]), key(x), key(xs[0]));
          LessIrreflexive(key(xs[j]));
        }
      }
    } else {
      var rest := Insert(x, xs[1..], key);
      InsertSorted(x, xs[1..], key);
      forall j | 0 <= j < |rest| ensures !Less(key(rest[j]), key(xs[0])) {
        var k := ElementMoves(rest, [x] + xs[1..], j);
        if k > 0 {
          assert rest[j] == xs[k];
        }
      }
    }
  }

  lemma {:induction false} SortSorted<T>(xs: seq<T>, key: T -> Bytes)
    ensures Sorted(Sort(xs, key), key)
  {
    if xs != [] {
      SortSorted(xs[..|xs| - 1], key);
      InsertSorted(xs[|xs| - 1], Sort(xs[..|xs| - 1], key), key);
    }
  }

  /** Distinct keys make a sorted sequence strictly sorted. */
  lemma SortedDistinct<T>(xs: seq<T>, key: T -> Bytes)
    requires Sorted(xs, key)
    requires forall i, j | 0 <= i < j < |xs| :: key(xs[i]) != key(xs[j])
    ensures StrictlySorted(xs, key)
  {
    forall i, j | 0 <= i < j < |xs| ensures Less(key(xs[i]), key(xs[j])) {
      LessTotal(key(xs[i]), key(xs[j]));
    }
  }

  lemma StrictIsSorted<T>(xs: seq<T>, key: T -> Bytes)
    requires StrictlySorted(xs, key)
    ensures Sorted(xs, key)
  {
    forall i, j | 0 <= i < j < |xs| ensures !Less(key(xs[j]), key(xs[i])) {
      if Less(key(xs[j]), key(xs[i])) {
        LessTransitive(key(xs[i]), key(xs[j]), key(xs[i]));
        LessIrreflexive(key(xs[i]));
      }
    }
  }

  lemma StrictDistinct<T>(xs: seq<T>, key: T -> Bytes)
    requires StrictlySorted(xs, key)
    ensures forall i, j | 0 <= i < j < |xs| :: xs[i] != xs[j] && key(xs[i]) != key(xs[j])
  {
    forall i, j | 0 <= i < j < |xs| ensures xs[i] != xs[j] && key(xs[i]) != key(xs[j]) {
      LessIrreflexive(key(xs[i]));
    }
  }

  /** A strictly sorted sequence is determined by its set of elements. */
  lemma {:induction false} StrictUnique<T>(xs: seq<T>, ys: seq<T>, key: T -> Bytes)
    requires StrictlySorted(xs, key) && StrictlySorted(ys, key)
    requires forall x :: x in xs <==> x in ys
    ensures xs == ys
  {
    if ys != [] {
      assert ys[0] in ys;
    }
    if xs != [] {
      assert xs[0] in xs;
      var i :| 0 <= i < |ys| && ys[i] == xs[0];
      var j :| 0 <= j < |xs| && xs[j] == ys[0];
      if i > 0 {
        assert Less(key(ys[0]), key(xs[0]));
        if j > 0 { LessTransitive(key(ys[0]), key(xs[0]), key(ys[0])); }
        LessIrreflexive(key(ys[0]));
      }
      StrictDistinct(xs, key);
      StrictDistinct(ys, key);
      forall x ensures x in xs[1..] <==> x in ys[1..] {
        assert x in xs <==> x == xs[0] || x in xs[1..];
        assert x in ys <==> x == ys[0] || x in ys[1..];
      }
      StrictUnique(xs[1..], ys[1..], key);
      assert xs == [xs[0]] + xs[1..];
      assert ys == [ys[0]] + ys[1..];
    }
  }

  ghost predicate Injective<T>(s: set<T>, key: T -> Bytes) {
    forall x, y | x in s && y in s && key(x) == key(y) :: x == y
  }

  /** The elements of a set in increasing key order: what iterating a
      `BTreeSet`, or sorting a directory listing, visits. */
  ghost function SortedSeq<T(!new)>(s: set<T>, key: T -> Bytes): (xs: seq<T>)
    requires Injective(s, key)
    ensures StrictlySorted(xs, key)
    ensures forall x :: x in xs <==> x in s
    ensures |xs| == |s|
  {
    if s == {} then [] else
      var x :| x in s;
      var rest := SortedSeq(s - {x}, key);
      InsertStrict(x, rest, key);
      Insert(x, rest, key)
  }

  lemma InsertStrict<T>(x: T, xs: seq<T>, key: T -> Bytes)
    requires StrictlySorted(xs, key)
    requires forall y | y in xs :: key(x) != key(y)
    ensures StrictlySorted(Insert(x, xs, key), key)
    ensures forall y :: y in Insert(x, xs, key) <==> y == x || y in xs
  {
    var ys := Insert(x, xs, key);
    SameElements(ys, [x] + xs);
    forall i, j | 0 <= i < j < |xs| ensures !Less(key(xs[j]), key(xs[i])) {
      if Less(key(xs[j]), key(xs[i])) {
        LessTransitive(key(xs[i]), key(xs[j]), key(xs[i]));
        LessIrreflexive(key(xs[i]));
      }
    }
    InsertSorted(x, xs, key);
    StrictDistinct(xs, key);
    forall i, j | 0 <= i < j < |ys| ensures key(ys[i]) != key(ys[j]) {
      if key(ys[i]) == key(ys[j]) {
        var k := ElementMoves(ys, [x] + xs, i);
        var l := ElementMoves(ys, [x] + xs, j);
        assert ys[i] == ys[j] by { SameKeySame(xs, key); }
        TwiceInMultiset(ys, i, j);
        CountAtMostOnce([x] + xs, ys[i]);
      }
    }
    SortedDistinct(ys, key);
  }

  lemma SameKeySame<T>(xs: seq<T>, key: T -> Bytes)
    requires StrictlySorted(xs, key)
    ensures forall a, b | a in xs && b in xs && key(a) == key(b) :: a == b
  {
    forall a, b | a in xs && b in xs && key(a) == key(b) ensures a == b {
      var i :| 0 <= i < |xs| && xs[i] == a;
      var j :| 0 <= j < |xs| && xs[j] == b;
      LessIrreflexive(key(a));
    }
  }

  lemma TwiceInMultiset<T>(xs: seq<T>, i: nat, j: nat)
    requires i < j < |xs| && xs[i] == xs[j]
    ensures multiset(xs)[xs[i]] >= 2
  {
    assert xs == xs[..j] + [xs[j]] + xs[j + 1..];
    assert xs[i] in xs[..j];
    assert xs[i] in multiset(xs[..j]);
  }

  lemma {:induction false} CountAtMostOnce<T>(xs: seq<T>, x: T)
    requires forall i, j | 0 <= i < j < |xs| :: xs[i] != xs[j]
    ensures multiset(xs)[x] <= 1
  {
    if xs != [] {
      assert xs == [xs[0]] + xs[1..];
      CountAtMostOnce(xs[1..], x);
      if x == xs[0] {
        assert x !in xs[1..];
        assert x !in multiset(xs[1..]);
      }
    }
  }

  /* Prefixes */

  lemma PrefixNext<T>(xs: seq<T>, i: nat)
    requires i < |xs|
    ensures xs[..i + 1] == xs[..i] + [xs[i]] && xs[..i + 1][..i] == xs[..i] && xs[i] in xs
    ensures (forall j | 0 <= j < i :: xs[j] != xs[i]) ==> xs[i] !in xs[..i]
  {
  }

  lemma ConcatAssociative<T>(a: seq<T>, b: seq<T>, c: seq<T>)
    ensures a + (b + c) == (a + b) + c
  {
  }

  /* Removing adjacent duplicates (`Vec::dedup`, and collecting a sorted
     vector into a `BTreeSet`) */

  function Dedup(xs: seq<Digest>): (ys: seq<Digest>)
    ensures forall x :: x in ys <==> x in xs
    ensures xs != [] ==> ys != [] && ys[0] == xs[0]
  {
    if |xs| <= 1 then xs
    else if xs[0] == xs[1] then Dedup(xs[1..])
    else [xs[0]] + Dedup(xs[1..])
  }

  lemma {:induction false} DedupStrict(xs: seq<Digest>)
    requires Sorted(xs, DigestKey)
    ensures StrictlySorted(Dedup(xs), DigestKey)
  {
    if |xs| > 1 {
      DedupStrict(xs[1..]);
      var rest := Dedup(xs[1..]);
      if xs[0] != xs[1] {
        LessTotal(xs[0], xs[1]);
        forall j | 0 <= j < |rest| ensures Less(xs[0], rest[j]) {
          if j > 0 {
            assert Less(DigestKey(rest[0]), DigestKey(rest[j]));
            LessTransitive(xs[0], xs[1], rest[j]);
          }
        }
      }
    }
  }

  lemma DedupSorted(xs: seq<Digest>, s: set<Digest>)
    requires Sorted(xs, DigestKey)
    requires forall x :: x in xs <==> x in s
    ensures Dedup(xs) == SortedSeq(s, DigestKey)
  {
    DedupStrict(xs);
    StrictUnique(Dedup(xs), SortedSeq(s, DigestKey), DigestKey);
  }

  lemma SubsetSize<T>(a: set<T>, b: set<T>)
    requires a <= b
    ensures |a| <= |b|
  {
    if a != {} {
      var x :| x in a;
      SubsetSize(a - {x}, b - {x});
    }
  }

  lemma FirstIn<T>(xs: seq<T>)
    ensures xs == [] || xs[0] in xs
  {
  }

  /* Filtering */

  /** The elements of `xs` that lie in `s`, in order. */
  function Filter<T(==, !new)>(xs: seq<T>, s: set<T>): (ys: seq<T>)
    ensures forall x :: x in ys <==> x in xs && x in s
    ensures |ys| <= |xs|
  {
    if xs == [] then []
    else if xs[0] in s then [xs[0]] + Filter(xs[1..], s)
    else Filter(xs[1..], s)
  }

  lemma {:induction false} FilterStrict<T(!new)>(xs: seq<T>, s: set<T>, key: T -> Bytes)
    requires StrictlySorted(xs, key)
    ensures StrictlySorted(Filter(xs, s), key)
  {
    if xs != [] {
      FilterStrict(xs[1..], s, key);
      var rest := Filter(xs[1..], s);
      forall y | y in rest ensures Less(key(xs[0]), key(y)) {
        assert y in xs[1..];
        var i :| 0 <= i < |xs[1..]| && xs[1..][i] == y;
        assert y == xs[i + 1];
      }
    }
  }

  lemma {:induction false} FilterAppend<T(!new)>(xs: seq<T>, x: T, s: set<T>)
    ensures Filter(xs + [x], s) == Filter(xs, s) + (if x in s then [x] else [])
  {
    if xs != [] {
      FilterAppend(xs[1..], x, s);
      assert (xs + [x])[1..] == xs[1..] + [x];
    }
  }
}
