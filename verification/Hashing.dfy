/** The stable content hash: FNV-1a over 64-bit words, and the separated hex digest of a
    list of texts. Words are integers in [0, 2^64); xor and the wrapping product are spelled
    out on them. */
module Hashing {
  import opened Common

  const FNV_OFFSET_BASIS: int := 0xcbf2_9ce4_8422_2325
  const FNV_PRIME: int := 0x0000_0100_0000_01b3
  const TWO_TO_THE_64: int := 0x1_0000_0000_0000_0000
  const SEPARATOR: Byte := 0x1f

  type Word = w: int | 0 <= w < 0x1_0000_0000_0000_0000

  /** Bitwise exclusive or. */
  function Xor(x: nat, y: nat): nat
    decreases x + y
  {
    if x == 0 && y == 0 then 0 else 2 * Xor(x / 2, y / 2) + (x + y) % 2
  }

  function Pow(base: nat, n: nat): nat {
    if n == 0 then 1 else base * Pow(base, n - 1)
  }

  lemma PowByBytes(n: nat)
    ensures Pow(2, n + 8) == 256 * Pow(2, n)
    ensures Pow(16, n + 2) == 256 * Pow(16, n)
  {
    assert Pow(2, n + 2) == 4 * Pow(2, n);
    assert Pow(2, n + 4) == 4 * Pow(2, n + 2);
    assert Pow(2, n + 6) == 4 * Pow(2, n + 4);
    assert Pow(2, n + 8) == 4 * Pow(2, n + 6);
  }

  lemma WordIs64Bits()
    ensures Pow(2, 64) == Pow(16, 16) == TWO_TO_THE_64
  {
    for k := 0 to 8
      invariant Pow(2, 8 * k) == Pow(16, 2 * k)
      invariant Pow(2, 8 * k) == [1, 0x100, 0x1_0000, 0x100_0000, 0x1_0000_0000, 0x100_0000_0000,
                                  0x1_0000_0000_0000, 0x100_0000_0000_0000, TWO_TO_THE_64][k]
    {
      PowByBytes(8 * k);
      PowByBytes(2 * k);
    }
  }

  lemma {:induction false} XorFits(x: nat, y: nat, n: nat)
    requires x < Pow(2, n) && y < Pow(2, n)
    ensures Xor(x, y) < Pow(2, n)
  {
    if n > 0 && (x != 0 || y != 0) {
      XorFits(x / 2, y / 2, n - 1);
    }
  }

  lemma XorBits(x: nat, y: nat)
    ensures Xor(x, y) / 2 == Xor(x / 2, y / 2)
    ensures Xor(x, y) % 2 == (x + y) % 2
  {
  }

  /** A number whose half and last bit are those of the result undoes the xor. */
  lemma XorUndoneFromHalves(x: nat, y: nat, z: nat, r: nat)
    requires z % 2 == (x + y) % 2 && r % 2 == (z + y) % 2 && r / 2 == x / 2
    ensures r == x
  {
    assert (z + y) % 2 == (x + y + y) % 2 == x % 2;
  }

  lemma {:induction false} XorUndoesItself(x: nat, y: nat)
    ensures Xor(Xor(x, y), y) == x
    decreases x + y
  {
    if x != 0 || y != 0 {
      var z := Xor(x, y);
      XorUndoesItself(x / 2, y / 2);
      XorBits(x, y);
      XorBits(z, y);
      XorUndoneFromHalves(x, y, z, Xor(z, y));
    }
  }

  lemma {:induction false} XorCommutes(x: nat, y: nat)
    ensures Xor(x, y) == Xor(y, x)
    decreases x + y
  {
    if x != 0 || y != 0 {
      XorCommutes(x / 2, y / 2);
    }
  }

  lemma WordXorFits(h: Word, b: Byte)
    ensures 0 <= Xor(h, b) < TWO_TO_THE_64
  {
    WordIs64Bits();
    XorFits(h, b, 64);
  }

  /** One fold step of the hash: xor the byte in, then multiply modulo 2^64. */
  function Step(h: Word, b: Byte): Word {
    Xor(h, b) * FNV_PRIME % TWO_TO_THE_64
  }

  /** The inverse of the prime modulo 2^64. */
  const FNV_PRIME_INVERSE: int := 0xce96_5057_aff6_957b

  /** Runs a fold step backwards. */
  function Unstep(h: Word, b: Byte): Word {
    WordXorFits(h * FNV_PRIME_INVERSE % TWO_TO_THE_64, b);
    Xor(h * FNV_PRIME_INVERSE % TWO_TO_THE_64, b)
  }

  /** Multiplying by one inverse undoes multiplying by the other. */
  lemma ProductUndone(x: Word, p: int, q: int, k: int)
    requires p * q == k * TWO_TO_THE_64 + 1
    ensures (x * p % TWO_TO_THE_64) * q % TWO_TO_THE_64 == x
  {
    var m := x * p / TWO_TO_THE_64;
    assert x * p % TWO_TO_THE_64 == x * p - m * TWO_TO_THE_64;
    calc {
      (x * p - m * TWO_TO_THE_64) * q;
      x * (p * q) - m * q * TWO_TO_THE_64;
      x * (k * TWO_TO_THE_64 + 1) - m * q * TWO_TO_THE_64;
      x + (x * k - m * q) * TWO_TO_THE_64;
    }
    RemainderOf(x, x * k - m * q);
  }

  lemma RemainderOf(x: Word, multiple: int)
    ensures (x + multiple * TWO_TO_THE_64) % TWO_TO_THE_64 == x
  {
  }

  /** Every fold step is a bijection on words: it can be run backwards, and every word is
      the image of one. */
  lemma StepIsBijective(h: Word, b: Byte)
    ensures Unstep(Step(h, b), b) == h
    ensures Step(Unstep(h, b), b) == h
  {
    var k := FNV_PRIME * FNV_PRIME_INVERSE / TWO_TO_THE_64;
    assert FNV_PRIME * FNV_PRIME_INVERSE == k * TWO_TO_THE_64 + 1;
    WordXorFits(h, b);
    ProductUndone(Xor(h, b), FNV_PRIME, FNV_PRIME_INVERSE, k);
    XorUndoesItself(h, b);
    ProductUndone(h, FNV_PRIME_INVERSE, FNV_PRIME, k);
    XorUndoesItself(h * FNV_PRIME_INVERSE % TWO_TO_THE_64, b);
  }

  /** Two bytes folded into one word give two words. */
  lemma StepSeparatesBytes(h: Word, b: Byte, c: Byte)
    requires b != c
    ensures Step(h, b) != Step(h, c)
  {
    if Step(h, b) == Step(h, c) {
      var u: Word := Step(h, b) * FNV_PRIME_INVERSE % TWO_TO_THE_64;
      StepIsBijective(h, b);
      StepIsBijective(h, c);
      XorUndoesItself(b, u);
      XorUndoesItself(c, u);
      XorCommutes(b, u);
      XorCommutes(c, u);
      assert false;
    }
  }

  /** The fold from a given word over the bytes, first byte first. */
  function Fold(h: Word, bytes: seq<Byte>): Word
    decreases |bytes|
  {
    if bytes == [] then h else Fold(Step(h, bytes[0]), bytes[1..])
  }

  function Digest(bytes: seq<Byte>): Word {
    Fold(FNV_OFFSET_BASIS, bytes)
  }

  lemma {:induction false} FoldAppend(h: Word, a: seq<Byte>, b: seq<Byte>)
    ensures Fold(h, a + b) == Fold(Fold(h, a), b)
    decreases |a|
  {
    if a == [] {
      assert a + b == b;
    } else {
      FoldAppend(Step(h, a[0]), a[1..], b);
      assert (a + b)[1..] == a[1..] + b;
    }
  }

  lemma FoldSnoc(h: Word, a: seq<Byte>, b: Byte)
    ensures Fold(h, a + [b]) == Step(Fold(h, a), b)
  {
    FoldAppend(h, a, [b]);
    assert Fold(Fold(h, a), [b]) == Fold(Step(Fold(h, a), b), []);
  }

  /** Distinct words stay distinct under the same bytes. */
  lemma {:induction false} FoldSeparatesWords(g: Word, h: Word, bytes: seq<Byte>)
    requires g != h
    ensures Fold(g, bytes) != Fold(h, bytes)
    decreases |bytes|
  {
    if bytes != [] {
      StepIsBijective(g, bytes[0]);
      StepIsBijective(h, bytes[0]);
      FoldSeparatesWords(Step(g, bytes[0]), Step(h, bytes[0]), bytes[1..]);
    }
  }

  lemma FoldAround(before: seq<Byte>, b: Byte, after: seq<Byte>)
    ensures Digest(before + [b] + after) == Fold(Step(Digest(before), b), after)
  {
    FoldAppend(FNV_OFFSET_BASIS, before + [b], after);
    FoldSnoc(FNV_OFFSET_BASIS, before, b);
  }

  /** Changing exactly one byte always changes the digest. */
  lemma OneByteChangesDigest(bytes: seq<Byte>, i: nat, b: Byte)
    requires i < |bytes| && b != bytes[i]
    ensures Digest(bytes[i := b]) != Digest(bytes)
  {
    var before, after := bytes[..i], bytes[i + 1..];
    assert bytes == before + [bytes[i]] + after;
    assert bytes[i := b] == before + [b] + after;
    FoldAround(before, b, after);
    FoldAround(before, bytes[i], after);
    StepSeparatesBytes(Digest(before), b, bytes[i]);
    FoldSeparatesWords(Step(Digest(before), b), Step(Digest(before), bytes[i]), after);
  }

  /** The FNV-1a 64-bit digest. */
  method Fnv1a64(bytes: seq<Byte>) returns (hash: Word)
    ensures hash == Digest(bytes)
  {
    hash := FNV_OFFSET_BASIS;
    for k := 0 to |bytes|
      invariant hash == Digest(bytes[..k])
    {
      FoldSnoc(FNV_OFFSET_BASIS, bytes[..k], bytes[k]);
      assert bytes[..k + 1] == bytes[..k] + [bytes[k]];
      WordXorFits(hash, bytes[k]);
      hash := Xor(hash, bytes[k]);
      hash := hash * FNV_PRIME % TWO_TO_THE_64;
    }
    assert bytes[..|bytes|] == bytes;
  }

  /** Every part followed by the unit separator: the bytes the list digest folds. */
  function Flatten(parts: seq<seq<Byte>>): seq<Byte> {
    if parts == [] then [] else parts[0] + [SEPARATOR] + Flatten(parts[1..])
  }

  lemma {:induction false} FlattenAppend(a: seq<seq<Byte>>, b: seq<seq<Byte>>)
    ensures Flatten(a + b) == Flatten(a) + Flatten(b)
  {
    if a == [] {
      assert a + b == b;
    } else {
      FlattenAppend(a[1..], b);
      assert (a + b)[1..] == a[1..] + b;
    }
  }

  ghost predicate SeparatorFree(parts: seq<seq<Byte>>) {
    forall p :: p in parts ==> SEPARATOR !in p
  }

  /** Among lists whose parts hold no separator, flattening loses nothing. */
  lemma {:induction false} FlattenInjective(a: seq<seq<Byte>>, b: seq<seq<Byte>>)
    requires SeparatorFree(a) && SeparatorFree(b)
    requires Flatten(a) == Flatten(b)
    ensures a == b
  {
    if a != [] && b != [] {
      var x, y := a[0], b[0];
      assert x in a && y in b;
      var f := Flatten(a);
      assert f == x + ([SEPARATOR] + Flatten(a[1..])) && f == y + ([SEPARATOR] + Flatten(b[1..]));
      assert f[|x|] == SEPARATOR && f[|y|] == SEPARATOR;
      assert forall k :: 0 <= k < |x| ==> f[k] == x[k];
      assert forall k :: 0 <= k < |y| ==> f[k] == y[k];
      assert |x| == |y|;
      assert x == f[..|x|] == y;
      assert Flatten(a[1..]) == f[|x| + 1..] && Flatten(b[1..]) == f[|y| + 1..];
      FlattenInjective(a[1..], b[1..]);
      assert a == [x] + a[1..] && b == [y] + b[1..];
    }
  }

  function Count(bytes: seq<Byte>): nat {
    multiset(bytes)[SEPARATOR]
  }

  /** A flattening holds one separator per part, plus those inside the parts. */
  lemma {:induction false} SeparatorCount(parts: seq<seq<Byte>>)
    ensures Count(Flatten(parts)) >= |parts|
    ensures SeparatorFree(parts) ==> Count(Flatten(parts)) == |parts|
  {
    if parts != [] {
      SeparatorCount(parts[1..]);
      if SeparatorFree(parts) {
        assert parts[0] in parts && SeparatorFree(parts[1..]);
        assert multiset(parts[0])[SEPARATOR] == 0;
      }
    }
  }

  lemma SplitPart(a: seq<seq<Byte>>, i: nat, j: nat)
    requires i < |a| && j < |a[i]| && a[i][j] == SEPARATOR
    ensures Flatten(a[..i] + [a[i][..j], a[i][j + 1..]] + a[i + 1..]) == Flatten(a)
  {
    var left, right := a[i][..j], a[i][j + 1..];
    assert a[i] == left + [SEPARATOR] + right;
    assert a == a[..i] + [a[i]] + a[i + 1..];
    FlattenAppend(a[..i] + [a[i]], a[i + 1..]);
    FlattenAppend(a[..i], [a[i]]);
    FlattenAppend(a[..i] + [left, right], a[i + 1..]);
    FlattenAppend(a[..i], [left, right]);
    assert Flatten([a[i]]) == a[i] + [SEPARATOR] + Flatten([a[i]][1..]);
    assert [left, right][1..] == [right];
    assert Flatten([right]) == right + [SEPARATOR] + Flatten([right][1..]);
    assert Flatten([left, right]) == left + [SEPARATOR] + (right + [SEPARATOR]);
  }

  /** A longer list flattens to the same bytes. */
  ghost predicate HasLongerTwin(a: seq<seq<Byte>>) {
    exists b :: |b| > |a| && Flatten(b) == Flatten(a)
  }

  /** The separator keeps a list apart from every longer one exactly when no part holds it. */
  lemma LongerTwinNeedsSeparator(a: seq<seq<Byte>>)
    ensures HasLongerTwin(a) <==> !SeparatorFree(a)
  {
    if SeparatorFree(a) {
      forall b | Flatten(b) == Flatten(a)
        ensures |b| <= |a|
      {
        SeparatorCount(a);
        SeparatorCount(b);
      }
    } else {
      var p :| p in a && SEPARATOR in p;
      var i :| 0 <= i < |a| && a[i] == p;
      var j :| 0 <= j < |p| && p[j] == SEPARATOR;
      SplitPart(a, i, j);
      assert |a[..i] + [a[i][..j], a[i][j + 1..]] + a[i + 1..]| > |a|;
    }
  }

  /** Some other list flattens to the same bytes. */
  ghost predicate HasTwin(a: seq<seq<Byte>>) {
    exists b :: b != a && Flatten(b) == Flatten(a)
  }

  lemma MergeTwoParts(x: seq<Byte>, y: seq<Byte>, rest: seq<seq<Byte>>)
    ensures Flatten([x + [SEPARATOR] + y] + rest) == Flatten([x, y] + rest)
  {
    var merged := x + [SEPARATOR] + y;
    assert ([merged] + rest)[1..] == rest;
    assert ([x, y] + rest)[1..] == [y] + rest && ([y] + rest)[1..] == rest;
    assert Flatten([y] + rest) == y + [SEPARATOR] + Flatten(rest);
    assert Flatten([x, y] + rest) == x + [SEPARATOR] + (y + [SEPARATOR] + Flatten(rest));
    assert x + [SEPARATOR] + (y + [SEPARATOR] + Flatten(rest)) == merged + [SEPARATOR] + Flatten(rest);
  }

  lemma SinglePart(x: seq<Byte>)
    ensures Flatten([x]) == x + [SEPARATOR]
  {
    assert [x][1..] == [];
    assert x + [SEPARATOR] + [] == x + [SEPARATOR];
  }

  lemma OnePartIsAlone(a: seq<seq<Byte>>, b: seq<seq<Byte>>)
    requires |a| <= 1 && SeparatorFree(a) && Flatten(b) == Flatten(a)
    ensures b == a
  {
    SeparatorCount(a);
    SeparatorCount(b);
    if |b| == 1 {
      SinglePart(b[0]);
      assert |Flatten(a)| > 0;
      SinglePart(a[0]);
      assert a[0] == Flatten(a)[..|a[0]|] == b[0];
      assert a == [a[0]] && b == [b[0]];
    }
  }

  /** The bytes determine the list only when it has at most one part and that holds no
      separator: two parts can always be read as one. */
  lemma TwinIff(a: seq<seq<Byte>>)
    ensures HasTwin(a) <==> |a| >= 2 || !SeparatorFree(a)
  {
    if !SeparatorFree(a) {
      LongerTwinNeedsSeparator(a);
    } else if |a| >= 2 {
      MergeTwoParts(a[0], a[1], a[2..]);
      assert a == [a[0], a[1]] + a[2..];
    } else {
      forall b | Flatten(b) == Flatten(a)
        ensures b == a
      {
        OnePartIsAlone(a, b);
      }
    }
  }

  const HEX_DIGITS: string := "0123456789abcdef"

  /** The low `width` hex digits of a number, most significant first. */
  function Hex(n: nat, width: nat): (s: string)
    ensures |s| == width
  {
    if width == 0 then "" else Hex(n / 16, width - 1) + [HEX_DIGITS[n % 16]]
  }

  lemma HexDigitsDiffer(a: nat, b: nat)
    requires a < b < 16
    ensures HEX_DIGITS[a] != HEX_DIGITS[b]
  {
  }

  /** Fixed-width hex determines the number. */
  lemma {:induction false} HexInjective(m: nat, n: nat, width: nat)
    requires m < Pow(16, width) && n < Pow(16, width)
    requires Hex(m, width) == Hex(n, width)
    ensures m == n
  {
    if width > 0 {
      HexSplit(m, width);
      HexSplit(n, width);
      HexInjective(m / 16, n / 16, width - 1);
      if m % 16 < n % 16 {
        HexDigitsDiffer(m % 16, n % 16);
      } else if n % 16 < m % 16 {
        HexDigitsDiffer(n % 16, m % 16);
      }
    }
  }

  lemma HexSplit(n: nat, width: nat)
    requires width > 0 && n < Pow(16, width)
    ensures Hex(n, width)[..width - 1] == Hex(n / 16, width - 1)
    ensures Hex(n, width)[width - 1] == HEX_DIGITS[n % 16]
    ensures n / 16 < Pow(16, width - 1)
  {
  }

  function HexDigest(parts: seq<seq<Byte>>): string {
    Hex(Digest(Flatten(parts)), 16)
  }

  lemma FlattenOneMore(parts: seq<seq<Byte>>, i: nat)
    requires i < |parts|
    ensures Flatten(parts[..i + 1]) == Flatten(parts[..i]) + parts[i] + [SEPARATOR]
  {
    assert parts[..i + 1] == parts[..i] + [parts[i]];
    FlattenAppend(parts[..i], [parts[i]]);
    SinglePart(parts[i]);
    hide Flatten;
  }

  lemma NothingFlattened(parts: seq<seq<Byte>>)
    ensures Flatten(parts[..0]) == []
  {
  }

  /** The 16-hex-digit digest of an ordered list of texts, given by their bytes. */
  method StableHashHex(parts: seq<seq<Byte>>) returns (hex: string)
    ensures |hex| == 16
    ensures hex == HexDigest(parts)
  {
    hide Flatten;
    var hash: Word := FNV_OFFSET_BASIS;
    NothingFlattened(parts);
    for i := 0 to |parts|
      invariant hash == Digest(Flatten(parts[..i]))
    {
      ghost var before := Flatten(parts[..i]);
      var part := parts[i];
      assert before + part[..0] == before;
      for k := 0 to |part|
        invariant hash == Digest(before + part[..k])
      {
        FoldSnoc(FNV_OFFSET_BASIS, before + part[..k], part[k]);
        assert before + part[..k + 1] == before + part[..k] + [part[k]];
        WordXorFits(hash, part[k]);
        hash := Xor(hash, part[k]);
        hash := hash * FNV_PRIME % TWO_TO_THE_64;
      }
      assert part[..|part|] == part;
      FoldSnoc(FNV_OFFSET_BASIS, before + part, SEPARATOR);
      WordXorFits(hash, SEPARATOR);
      hash := Xor(hash, SEPARATOR);
      hash := hash * FNV_PRIME % TWO_TO_THE_64;
      FlattenOneMore(parts, i);
    }
    assert parts[..|parts|] == parts;
    hex := Hex(hash, 16);
  }

  function WithByte(part: seq<Byte>, j: nat, b: Byte): seq<Byte>
    requires j < |part|
  {
    part[j := b]
  }

  /** Changing one byte of one part always changes the hex digest. */
  lemma OneByteChangesHexDigest(parts: seq<seq<Byte>>, i: nat, j: nat, b: Byte)
    requires i < |parts| && j < |parts[i]| && b != parts[i][j]
    ensures HexDigest(parts[i := WithByte(parts[i], j, b)]) != HexDigest(parts)
  {
    var changed := parts[i := WithByte(parts[i], j, b)];
    var before, part, after := Flatten(parts[..i]), parts[i], Flatten(parts[i + 1..]);
    FlattenAround(parts, i);
    FlattenAround(changed, i);
    assert changed[..i] == parts[..i] && changed[i + 1..] == parts[i + 1..];
    var flat := Flatten(parts);
    assert flat[|before| + j] == part[j];
    assert Flatten(changed) == flat[|before| + j := b];
    OneByteChangesDigest(flat, |before| + j, b);
    WordIs64Bits();
    if HexDigest(changed) == HexDigest(parts) {
      HexInjective(Digest(Flatten(changed)), Digest(flat), 16);
    }
  }

  lemma FlattenAround(parts: seq<seq<Byte>>, i: nat)
    requires i < |parts|
    ensures Flatten(parts) == Flatten(parts[..i]) + parts[i] + [SEPARATOR] + Flatten(parts[i + 1..])
  {
    var front, back := parts[..i], parts[i..];
    assert parts == front + back;
    FlattenAppend(front, back);
    assert back[1..] == parts[i + 1..];
    assert Flatten(back) == parts[i] + [SEPARATOR] + Flatten(parts[i + 1..]);
    hide Flatten;
    Regroup(Flatten(front), parts[i], [SEPARATOR], Flatten(parts[i + 1..]));
  }

  lemma Regroup(a: seq<Byte>, b: seq<Byte>, c: seq<Byte>, d: seq<Byte>)
    ensures a + (b + c + d) == a + b + c + d
  {
  }

  // ---- known values -----------------------------------------------------------------------------

  lemma XorStep(x: nat, y: nat, a: nat, b: nat)
    requires a < 2 && b < 2
    ensures Xor(2 * x + a, 2 * y + b) == 2 * Xor(x, y) + (a + b) % 2
  {
    XorBits(2 * x + a, 2 * y + b);
    assert (2 * x + a) / 2 == x && (2 * y + b) / 2 == y;
    assert (2 * x + a + (2 * y + b)) % 2 == (a + b) % 2;
  }

  lemma {:induction false} XorWithNothing(x: nat)
    ensures Xor(x, 0) == x
  {
    if x > 0 {
      XorWithNothing(x / 2);
    }
  }

  /** A word that ends in 0x25, with the letter a. */
  lemma XorWithA(high: nat)
    ensures Xor(256 * high + 0x25, 97) == 256 * high + 0x44
  {
    hide Xor;
    XorWithNothing(2 * high);
    XorStep(2 * high, 0, 0, 1);
    XorStep(4 * high, 1, 1, 1);
    XorStep(8 * high + 1, 3, 0, 0);
    XorStep(16 * high + 2, 6, 0, 0);
    XorStep(32 * high + 4, 12, 1, 0);
    XorStep(64 * high + 9, 24, 0, 0);
    XorStep(128 * high + 18, 48, 1, 1);
  }

  /** The reference digests of the empty text and of "a". */
  lemma KnownDigests()
    ensures Digest([]) == 0xcbf2_9ce4_8422_2325
    ensures Digest([97]) == 0xaf63_dc4c_8601_ec8c
  {
    hide Xor;
    XorWithA(0xcb_f29c_e484_2223);
    FoldSnoc(FNV_OFFSET_BASIS, [], 97);
    assert [] + [97 as Byte] == [97];
    assert Digest([]) == FNV_OFFSET_BASIS;
  }

  /** The sixteen digits. */
  lemma HexDigits(d: nat)
    requires d < 16
    ensures Hex(d, 1) == [if d < 10 then ('0' as int + d) as char else ('a' as int + d - 10) as char]
  {
    assert Hex(d / 16, 0) == "";
  }
}
