/** Symbol lookup through the GNU hash section of an ELF file (`DT_GNU_HASH`). */
module GnuHash {

  const TWO32: nat := 0x1_0000_0000

  datatype Option<T> = None | Some(value: T)

  /** Names are byte strings. */
  type Name = seq<nat>

  /** An ELF symbol with its name resolved: value, section index and type. */
  datatype Sym = Sym(name: Name, value: nat, shndx: nat, kind: nat)

  const SHN_ABS: nat := 0xfff1
  const STT_TLS: nat := 6

  /** `check`: defined (or absolute, or thread-local), of a type that can be linked to, and named so. */
  predicate Check(sym: Sym, name: Name) {
    && !(sym.value == 0 && sym.shndx != SHN_ABS && sym.kind != STT_TLS)
    && sym.kind in {0, 1, 2, 5, 6, 10}
    && sym.name == name
  }

  // ----- hashes -----

  /** The hash of the section format: bytes are unsigned. */
  function StdHash(name: Name): (h: nat)
    ensures h < TWO32
  {
    if name == [] then 5381
    else (StdHash(name[..|name| - 1]) * 33 + name[|name| - 1]) % TWO32
  }

  predicate Ascii(name: Name) { forall i :: 0 <= i < |name| ==> name[i] < 128 }

  /** The value of a byte read through the code's signed character type. */
  function Signed(c: nat): int { if c < 128 then c else c - 256 }

  /** What the code's loop computes. */
  function CodeHash(name: Name): (h: nat)
    ensures h < TWO32
  {
    if name == [] then 5381
    else (CodeHash(name[..|name| - 1]) * 33 + Signed(name[|name| - 1])) % TWO32
  }

  /** `gnu_hash`. */
  method Hash(name: Name) returns (h: nat)
    ensures h == CodeHash(name)
  {
    h := 5381;
    for i := 0 to |name|
      invariant h == CodeHash(name[..i])
    {
      assert name[..i + 1][..i] == name[..i];
      h := (h * 33 + Signed(name[i])) % TWO32;
    }
    assert name[..|name|] == name;
  }

  /** How far the code's hash is off before it is cut to 32 bits; it depends only on where the
      non-ASCII bytes are. */
  function Gap(name: Name): (g: nat) {
    if name == [] then 0
    else Gap(name[..|name| - 1]) * 33 + (if name[|name| - 1] < 128 then 0 else 256)
  }

  predicate SameHash(name: Name) { Gap(name) % TWO32 == 0 }

  lemma {:induction false} HashGap(name: Name) returns (k: int)
    ensures StdHash(name) == CodeHash(name) + Gap(name) + k * TWO32
  {
    if name == [] {
      k := 0;
    } else {
      var rest, c := name[..|name| - 1], name[|name| - 1];
      var k0 := HashGap(rest);
      k := 33 * k0 - (StdHash(rest) * 33 + c) / TWO32 + (CodeHash(rest) * 33 + Signed(c)) / TWO32;
    }
  }

  function NonAscii(name: Name): nat {
    if name == [] then 0
    else NonAscii(name[..|name| - 1]) + (if name[|name| - 1] < 128 then 0 else 1)
  }

  lemma {:induction false} GapParity(name: Name) returns (k: nat)
    ensures Gap(name) == 512 * k + 256 * (NonAscii(name) % 2)
  {
    if name == [] {
      k := 0;
    } else {
      var rest := name[..|name| - 1];
      var k0 := GapParity(rest);
      var odd := NonAscii(rest) % 2;
      assert Gap(rest) * 33 == 512 * (33 * k0 + 16 * odd) + 256 * odd;
      k := 33 * k0 + 16 * odd + (if NonAscii(name) % 2 < odd then 1 else 0);
    }
  }

  /** The code's hash is the format's exactly for the names without gap, and otherwise differs in more
      than the last bit, the only one that lookups ignore. */
  lemma HashAgrees(name: Name)
    ensures CodeHash(name) == StdHash(name) <==> SameHash(name)
    ensures CodeHash(name) / 2 == StdHash(name) / 2 <==> SameHash(name)
  {
    hide StdHash, CodeHash, Gap, NonAscii;
    var k := HashGap(name);
    var j := GapParity(name);
  }

  lemma {:induction false} AsciiAgrees(name: Name)
    requires Ascii(name)
    ensures Gap(name) == 0 && SameHash(name)
  {
    if name != [] { AsciiAgrees(name[..|name| - 1]); }
  }

  /** Every name with an odd number of non-ASCII bytes is hashed differently from the format. */
  lemma OddNamesDiffer(name: Name)
    requires NonAscii(name) % 2 == 1
    ensures CodeHash(name) != StdHash(name)
  {
    hide StdHash, CodeHash, Gap, NonAscii;
    HashAgrees(name);
    var k := GapParity(name);
  }

  // ----- the section -----

  /** The section is an array of 32-bit words: four header words, the bloom filter (two words per
      64-bit entry), the buckets, and one hash word per hashed symbol. */
  datatype Section = Section(words: seq<nat>, symtab: seq<Sym>) {
    ghost predicate Shaped() {
      && |words| >= 4 && Bias() <= |symtab|
      && |words| == 4 + 2 * BloomSize() + Buckets() + (|symtab| - Bias())
    }
    function Buckets(): nat requires |words| >= 4 { words[0] }
    function Bias(): nat requires |words| >= 4 { words[1] }
    function BloomSize(): nat requires |words| >= 4 { words[2] }
    function Shift(): nat requires |words| >= 4 { words[3] }

    function Bloom(i: nat): nat
      requires Shaped() && i < BloomSize()
    {
      words[4 + 2 * i] + TWO32 * words[4 + 2 * i + 1]
    }

    function Bucket(b: nat): nat
      requires Shaped() && b < Buckets()
    {
      words[4 + 2 * BloomSize() + b]
    }

    /** Hash word of symbol `i`; symbols below the bias are not hashed. */
    function Chain(i: nat): nat
      requires Shaped() && Bias() <= i < |symtab|
    {
      words[4 + 2 * BloomSize() + Buckets() + i - Bias()]
    }

    ghost predicate Hashed(i: nat)
      requires |words| >= 4
    {
      Bias() <= i < |symtab|
    }

    function BucketOf(i: nat): nat
      requires |words| >= 4 && Buckets() > 0 && i < |symtab|
    {
      StdHash(symtab[i].name) % Buckets()
    }
  }

  /** 64-bit entries as pairs of 32-bit words, the low half first. */
  function Halves(bloom: seq<nat>): (ws: seq<nat>)
    ensures |ws| == 2 * |bloom|
  {
    if bloom == [] then []
    else Halves(bloom[..|bloom| - 1]) + [bloom[|bloom| - 1] % TWO32, bloom[|bloom| - 1] / TWO32]
  }

  lemma {:induction false} HalvesAt(bloom: seq<nat>, i: nat)
    requires i < |bloom|
    ensures Halves(bloom)[2 * i] == bloom[i] % TWO32 && Halves(bloom)[2 * i + 1] == bloom[i] / TWO32
  {
    if i < |bloom| - 1 { HalvesAt(bloom[..|bloom| - 1], i); }
  }

  /** A section laid out as the format says. */
  function Laid(bias: nat, shift: nat, bloom: seq<nat>, buckets: seq<nat>, chain: seq<nat>, symtab: seq<Sym>): (s: Section)
    requires |symtab| == bias + |chain|
    ensures s.Shaped() && s.Buckets() == |buckets| && s.Bias() == bias && s.BloomSize() == |bloom| && s.Shift() == shift
    ensures s.symtab == symtab
  {
    Section([|buckets|, bias, |bloom|, shift] + (Halves(bloom) + (buckets + chain)), symtab)
  }

  lemma PartsAt(head: seq<nat>, x: seq<nat>, y: seq<nat>, z: seq<nat>)
    ensures forall i :: 0 <= i < |x| ==> (head + (x + (y + z)))[|head| + i] == x[i]
    ensures forall i :: 0 <= i < |y| ==> (head + (x + (y + z)))[|head| + |x| + i] == y[i]
    ensures forall i :: 0 <= i < |z| ==> (head + (x + (y + z)))[|head| + |x| + |y| + i] == z[i]
  {
  }

  /** It is read back: filter, buckets and hash words are where they were put. */
  lemma SectionReads(bias: nat, shift: nat, bloom: seq<nat>, buckets: seq<nat>, chain: seq<nat>, symtab: seq<Sym>)
    requires |symtab| == bias + |chain|
    ensures var s := Laid(bias, shift, bloom, buckets, chain, symtab);
            && (forall i :: 0 <= i < |bloom| ==> s.Bloom(i) == bloom[i])
            && (forall b :: 0 <= b < |buckets| ==> s.Bucket(b) == buckets[b])
            && (forall i :: bias <= i < |symtab| ==> s.Chain(i) == chain[i - bias])
  {
    var s := Laid(bias, shift, bloom, buckets, chain, symtab);
    var head := [|buckets|, bias, |bloom|, shift];
    var words := head + (Halves(bloom) + (buckets + chain));
    assert s.words == words;
    PartsAt(head, Halves(bloom), buckets, chain);
    hide Laid, Halves;
    forall i | 0 <= i < |bloom| ensures s.Bloom(i) == bloom[i] {
      HalvesAt(bloom, i);
      assert words[|head| + 2 * i] == Halves(bloom)[2 * i];
      assert words[|head| + (2 * i + 1)] == Halves(bloom)[2 * i + 1];
    }
    forall b | 0 <= b < |buckets| ensures s.Bucket(b) == buckets[b] {
      assert words[|head| + |Halves(bloom)| + b] == buckets[b];
    }
    forall i | bias <= i < |symtab| ensures s.Chain(i) == chain[i - bias] {
      assert words[|head| + |Halves(bloom)| + |buckets| + (i - bias)] == chain[i - bias];
    }
  }

  function Pow2(n: nat): nat
    ensures Pow2(n) > 0
  {
    if n == 0 then 1 else 2 * Pow2(n - 1)
  }

  function ShiftRight(x: nat, n: nat): nat { if n == 0 then x else ShiftRight(x / 2, n - 1) }

  predicate Bit(w: nat, b: nat) { ShiftRight(w, b) % 2 == 1 }

  /** Bitwise and. */
  function And(x: nat, y: nat): (r: nat)
    ensures r <= y
  {
    if x == 0 || y == 0 then 0 else (if x % 2 == 1 && y % 2 == 1 then 1 else 0) + 2 * And(x / 2, y / 2)
  }

  lemma {:induction false} AtLeast(d: nat, m: nat)
    requires d >= 1
    ensures d * m >= m
  {
    if d > 1 {
      AtLeast(d - 1, m);
      assert d * m == (d - 1) * m + m;
    }
  }

  lemma SameQuotient(a: nat, r: nat, b: nat, t: nat, m: nat)
    requires a * m + r == b * m + t && r < m && t < m
    ensures r == t
  {
    if a > b {
      assert (a - b) * m == a * m - b * m;
      AtLeast(a - b, m);
    } else if b > a {
      assert (b - a) * m == b * m - a * m;
      AtLeast(b - a, m);
    }
  }

  function Low(x: nat, m: nat): (r: nat)
    requires m > 0
    ensures r < m
  {
    x % m
  }

  lemma LowIs(x: nat, m: nat)
    requires m > 0
    ensures x == x / m * m + Low(x, m)
  {
  }

  lemma Remainder(x: nat, q: nat, m: nat, r: nat)
    requires m > 0 && x == q * m + r && r < m
    ensures Low(x, m) == r
  {
    hide Low;
    LowIs(x, m);
    SameQuotient(x / m, Low(x, m), q, r, m);
  }

  lemma Doubled(x: nat, half: nat, q: nat, r: nat)
    requires x / 2 == q * half + r
    ensures x == q * (2 * half) + (2 * r + x % 2)
  {
    assert q * (2 * half) == 2 * (q * half);
  }

  lemma LowStep(x: nat, half: nat)
    requires half > 0
    ensures Low(x, 2 * half) == 2 * Low(x / 2, half) + x % 2
  {
    hide Low;
    var q, r := x / 2 / half, Low(x / 2, half);
    LowIs(x / 2, half);
    Doubled(x, half, q, r);
    Remainder(x, q, 2 * half, 2 * r + x % 2);
  }

  /** Masking with a power of two less one gives the remainder. */
  lemma {:induction false} MaskIsRemainder(x: nat, n: nat)
    ensures And(x, Pow2(n) - 1) == Low(x, Pow2(n))
  {
    hide Low, And;
    if n == 0 {
      MaskNothing(x);
    } else {
      MaskIsRemainder(x / 2, n - 1);
      LowStep(x, Pow2(n - 1));
      MaskStep(x, Pow2(n - 1));
    }
  }

  lemma MaskNothing(x: nat)
    ensures And(x, 0) == Low(x, 1)
  {
  }

  lemma MaskStep(x: nat, half: nat)
    requires half > 0
    ensures And(x, 2 * half - 1) == x % 2 + 2 * And(x / 2, half - 1)
  {
    assert (2 * half - 1) / 2 == half - 1 && (2 * half - 1) % 2 == 1;
  }

  /** The code's test of the bloom filter: indices are masked. */
  predicate PassesBloom(s: Section, h: nat)
    requires s.Shaped() && s.BloomSize() > 0
  {
    var w := s.Bloom(And(h / 64, s.BloomSize() - 1));
    Bit(w, And(h, 63)) && Bit(w, And(ShiftRight(h, s.Shift()), 63))
  }

  /** It is the format's test, whose indices are remainders. */
  lemma PassesIsIn(s: Section, h: nat)
    requires s.Shaped() && s.BloomSize() > 0 && PowerOfTwo(s.BloomSize())
    ensures PassesBloom(s, h) <==> InBloom(s, h)
  {
    hide Bit, And;
    var n :| s.BloomSize() == Pow2(n);
    MaskIsRemainder(h / 64, n);
    assert Pow2(6) == 64 by { assert Pow2(3) == 8; }
    MaskIsRemainder(h, 6);
    MaskIsRemainder(ShiftRight(h, s.Shift()), 6);
  }

  ghost predicate PowerOfTwo(x: nat) { exists n :: x == Pow2(n) }

  predicate InBloom(s: Section, h: nat)
    requires s.Shaped() && s.BloomSize() > 0
  {
    var w := s.Bloom(h / 64 % s.BloomSize());
    Bit(w, h % 64) && Bit(w, ShiftRight(h, s.Shift()) % 64)
  }

  /** Hashed symbols are grouped by bucket, in bucket order. */
  ghost predicate Grouped(s: Section)
    requires s.Shaped()
  {
    s.Buckets() > 0 ==>
      && (forall i, j :: s.Bias() <= i < j < |s.symtab| ==> s.BucketOf(i) <= s.BucketOf(j))
      && (forall i :: s.Bias() <= i < |s.symtab| ==> s.Chain(i) / 2 == StdHash(s.symtab[i].name) / 2)
      && (forall i, j :: s.Bias() <= i < j < |s.symtab| && s.Chain(i) % 2 == 1 ==> s.BucketOf(i) != s.BucketOf(j))
      && (forall i, j :: s.Bias() <= i < j < |s.symtab| && j == i + 1 && s.Chain(i) % 2 != 1 ==>
            s.BucketOf(i) == s.BucketOf(j))
      && (s.Bias() < |s.symtab| ==> s.Chain(|s.symtab| - 1) % 2 == 1)
  }

  /** A bucket names its first symbol, or 0 if it has none. */
  ghost predicate BucketsOk(s: Section)
    requires s.Shaped()
  {
    forall b :: 0 <= b < s.Buckets() ==>
      if s.Bucket(b) == 0 then forall i :: s.Bias() <= i < |s.symtab| ==> s.BucketOf(i) != b
      else && s.Bias() <= s.Bucket(b) < |s.symtab| && s.BucketOf(s.Bucket(b)) == b
           && forall i :: s.Bias() <= i < s.Bucket(b) ==> s.BucketOf(i) != b
  }

  ghost predicate BloomOk(s: Section)
    requires s.Shaped()
  {
    && s.BloomSize() > 0 && PowerOfTwo(s.BloomSize())
    && forall i :: s.Bias() <= i < |s.symtab| ==> InBloom(s, StdHash(s.symtab[i].name))
  }

  ghost predicate WellFormed(s: Section) {
    && s.Shaped() && Grouped(s) && BucketsOk(s)
    && s.Bias() > 0 && (s.Buckets() == 0 ==> s.Bias() == |s.symtab|)
    && (s.Buckets() > 0 ==> BloomOk(s))
  }

  ghost predicate Matches(s: Section, i: nat, name: Name)
    requires s.Shaped()
  {
    s.Hashed(i) && Check(s.symtab[i], name)
  }

  /** A hashed symbol of that name that can be linked to: not undefined, unless absolute or thread-local, and
      of type none, object, function, common, thread-local or indirect function. */
  ghost predicate Linkable(s: Section, i: nat, name: Name)
    requires |s.words| >= 4
  {
    && s.words[1] <= i < |s.symtab|
    && var sym := s.symtab[i];
    && sym.name == name
    && (sym.value != 0 || sym.shndx == 0xfff1 || sym.kind == 6)
    && (sym.kind == 0 || sym.kind == 1 || sym.kind == 2 || sym.kind == 5 || sym.kind == 6 || sym.kind == 10)
  }

  lemma MatchesIs(s: Section, name: Name)
    requires s.Shaped()
    ensures forall i :: Matches(s, i, name) <==> Linkable(s, i, name)
  {
  }

  /** `gnu_hash_lookup`: finds a hashed symbol exactly when one has the name and can be linked to, and
      the code hashes the name as the format does. All ASCII names are hashed so. */
  method Lookup(s: Section, name: Name) returns (r: Option<nat>)
    requires WellFormed(s)
    ensures r.Some? ==> Linkable(s, r.value, name)
    ensures r.Some? <==> SameHash(name) && exists i :: Linkable(s, i, name)
    ensures Ascii(name) ==> (r.Some? <==> exists i :: Linkable(s, i, name))
  {
    MatchesIs(s, name);
    hide Linkable;
    hide InBloom, PassesBloom, StdHash, CodeHash, Gap, SameHash, Check, Ascii;
    if Ascii(name) { AsciiAgrees(name); }
    if s.Buckets() == 0 { return None; }
    var hash := Hash(name);
    HashAgrees(name);
    MatchHash(s, name);
    PassesIsIn(s, hash);
    if !PassesBloom(s, hash) { return None; }
    var symidx := s.Bucket(hash % s.Buckets());
    if symidx == 0 { return None; }
    while true
      invariant s.Bias() <= symidx < |s.symtab| && s.BucketOf(symidx) == hash % s.Buckets()
      invariant SameHash(name) ==> forall i :: s.Bias() <= i < symidx ==> !Matches(s, i, name)
      decreases |s.symtab| - symidx
    {
      var h := s.Chain(symidx);
      if h / 2 == hash / 2 {
        if Check(s.symtab[symidx], name) { return Some(symidx); }
      }
      if h % 2 == 1 { break; }
      symidx := symidx + 1;
    }
    return None;
  }

  /** A symbol with the name has its hash: the bloom filter and the bucket never turn it away. */
  lemma MatchHash(s: Section, name: Name)
    requires WellFormed(s) && s.Buckets() > 0
    ensures forall i :: Matches(s, i, name) ==>
              && InBloom(s, StdHash(name)) && s.BucketOf(i) == StdHash(name) % s.Buckets()
              && s.Chain(i) / 2 == StdHash(name) / 2
  {
    hide InBloom;
  }

  /** `gnu_hash_symbol_count`: one past the last symbol, if some bucket is not empty. */
  method SymbolCount(s: Section) returns (n: nat)
    requires WellFormed(s)
    requires s.Buckets() > 0 ==> exists b :: 0 <= b < s.Buckets() && s.Bucket(b) != 0
    ensures s.Buckets() == 0 ==> n == 0
    ensures s.Buckets() > 0 ==> n == |s.symtab|
  {
    hide StdHash, BloomOk, BucketsOk;
    if s.Buckets() == 0 { return 0; }
    var idx := MaxBucket(s);
    LastBucket(s, idx);
    while s.Chain(idx) % 2 != 1
      invariant s.Bias() <= idx < |s.symtab|
      invariant forall j :: idx <= j < |s.symtab| ==> s.BucketOf(j) == s.BucketOf(idx)
      decreases |s.symtab| - idx
    {
      idx := idx + 1;
    }
    assert s.BucketOf(|s.symtab| - 1) == s.BucketOf(idx);
    return idx + 1;
  }

  method MaxBucket(s: Section) returns (idx: nat)
    requires s.Shaped() && s.Buckets() > 0
    ensures forall b :: 0 <= b < s.Buckets() ==> s.Bucket(b) <= idx
    ensures exists b :: 0 <= b < s.Buckets() && s.Bucket(b) == idx
  {
    idx := s.Bucket(0);
    for b := 1 to s.Buckets()
      invariant forall k :: 0 <= k < b ==> s.Bucket(k) <= idx
      invariant exists k :: 0 <= k < b && s.Bucket(k) == idx
    {
      if s.Bucket(b) > idx { idx := s.Bucket(b); }
    }
  }

  lemma LastBucket(s: Section, idx: nat)
    requires WellFormed(s) && s.Buckets() > 0
    requires exists b :: 0 <= b < s.Buckets() && s.Bucket(b) != 0
    requires forall b :: 0 <= b < s.Buckets() ==> s.Bucket(b) <= idx
    requires exists b :: 0 <= b < s.Buckets() && s.Bucket(b) == idx
    ensures s.Bias() <= idx < |s.symtab|
    ensures forall j :: idx <= j < |s.symtab| ==> s.BucketOf(j) == s.BucketOf(idx)
  {
    hide StdHash, BloomOk;
    forall j | idx <= j < |s.symtab|
      ensures s.BucketOf(j) == s.BucketOf(idx)
    {
      var b := s.BucketOf(j);
      assert s.Bucket(b) <= idx;
      assert s.BucketOf(s.Bucket(b)) == b;
    }
  }
}
