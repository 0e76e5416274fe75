/** The document identity hash (src/hash.ts): 32-bit FNV-1a, section 2 of
    the IETF draft draft-eastlake-fnv, over the first UTF-16 code unit of
    each code point, computed with JavaScript's 32-bit integer operators. */
module Hash {
  import opened Js
  import Uri

  /** FNV offset basis for 32 bits. */
  const OffsetBasis: nat := 2166136261
  /** FNV prime for 32 bits; written as the literal 16777619 in arithmetic
      below, so that the solver sees products by a constant. */
  const Prime: nat := 16777619

  /** What `fnv1a` throws when handed something other than a string, such
      as `undefined` or `NaN`: `for...of` needs an iterable. */
  const NotIterable: Exception := TypeError("str is not iterable")

  type Uint32 = x: int | 0 <= x < 0x1_0000_0000

  /** `x >>> 0`: the ToUint32 conversion. */
  function ToUint32(x: int): Uint32 {
    x % 0x1_0000_0000
  }

  /** The ToInt32 conversion every bitwise operator applies to its operands. */
  function ToInt32(x: int): int {
    var u := ToUint32(x);
    if u >= 0x8000_0000 then u - 0x1_0000_0000 else u
  }

  function BitXor(a: Uint32, b: Uint32): Uint32 {
    ((a as bv32) ^ (b as bv32)) as int
  }

  /** `a ^ b` */
  function JsXor(a: int, b: int): int {
    ToInt32(BitXor(ToUint32(a), ToUint32(b)))
  }

  function Pow2(k: nat): nat {
    if k == 0 then 1 else 2 * Pow2(k - 1)
  }

  /** `a << k` for a shift count below 32. */
  function JsShl(a: int, k: nat): int
    requires k < 32
  {
    ToInt32(ToInt32(a) * Pow2(k))
  }

  /** The sum at lines 22-27, in exact (double) arithmetic: every term is a
      32-bit integer, so the sum is far from the 53-bit limit. */
  function ShiftSum(h: int): int {
    h + JsShl(h, 1) + JsShl(h, 4) + JsShl(h, 7) + JsShl(h, 8) + JsShl(h, 24)
  }

  /** What `c.charCodeAt(0)` gives for one code point: the code point itself
      in the Basic Multilingual Plane, its high surrogate above it. */
  function FirstCodeUnit(c: char): (u: Uint32)
    ensures u < 0x1_0000
  {
    var n := c as int;
    if n < 0x1_0000 then n else 0xD800 + (n - 0x1_0000) / 0x400
  }

  /** One FNV-1a round: xor in the code unit, multiply by the prime mod 2^32. */
  function Step(h: Uint32, c: char): Uint32 {
    (BitXor(h, FirstCodeUnit(c)) * 16777619) % 0x1_0000_0000
  }

  /** The hash from a running state: the left fold of `Step` over `s`. */
  function FoldFrom(h: Uint32, s: string): Uint32
    decreases |s|
  {
    if s == [] then h else Step(FoldFrom(h, s[..|s| - 1]), s[|s| - 1])
  }

  /** The specification of `fnv1a`. */
  function HashOf(s: string): Uint32 {
    FoldFrom(OffsetBasis, s)
  }

  lemma ModAddMultiple(x: int, q: int)
    ensures (x + q * 0x1_0000_0000) % 0x1_0000_0000 == x % 0x1_0000_0000
  {
  }

  lemma ToInt32Congruent(x: int)
    ensures ToInt32(x) % 0x1_0000_0000 == x % 0x1_0000_0000
  {
  }

  lemma CongruentMul(a: int, b: int, c: int)
    requires a % 0x1_0000_0000 == b % 0x1_0000_0000
    ensures (a * c) % 0x1_0000_0000 == (b * c) % 0x1_0000_0000
  {
    var q := a / 0x1_0000_0000 - b / 0x1_0000_0000;
    assert a == b + q * 0x1_0000_0000;
    assert a * c == b * c + (q * c) * 0x1_0000_0000;
    ModAddMultiple(b * c, q * c);
  }

  lemma CongruentAdd(a1: int, b1: int, a2: int, b2: int)
    requires a1 % 0x1_0000_0000 == b1 % 0x1_0000_0000
    requires a2 % 0x1_0000_0000 == b2 % 0x1_0000_0000
    ensures (a1 + a2) % 0x1_0000_0000 == (b1 + b2) % 0x1_0000_0000
  {
    var q1 := a1 / 0x1_0000_0000 - b1 / 0x1_0000_0000;
    var q2 := a2 / 0x1_0000_0000 - b2 / 0x1_0000_0000;
    assert a1 + a2 == b1 + b2 + (q1 + q2) * 0x1_0000_0000;
    ModAddMultiple(b1 + b2, q1 + q2);
  }

  /** `x << k` is `x * 2^k` modulo 2^32, whatever the int32 wrap-arounds. */
  lemma ShlCongruent(x: int, k: nat)
    requires k < 32
    ensures JsShl(x, k) % 0x1_0000_0000 == (x * Pow2(k)) % 0x1_0000_0000
  {
    ToInt32Congruent(x);
    ToInt32Congruent(ToInt32(x) * Pow2(k));
    CongruentMul(ToInt32(x), x, Pow2(k));
  }

  lemma Pow2Values()
    ensures Pow2(1) == 2 && Pow2(4) == 16 && Pow2(7) == 128 && Pow2(8) == 256
    ensures Pow2(24) == 16777216
  {
    assert Pow2(2) == 4;
    assert Pow2(3) == 8;
    assert Pow2(4) == 16;
    assert Pow2(5) == 32;
    assert Pow2(6) == 64;
    assert Pow2(7) == 128;
    assert Pow2(8) == 256;
    assert Pow2(9) == 512;
    assert Pow2(10) == 1024;
    assert Pow2(11) == 2048;
    assert Pow2(12) == 4096;
    assert Pow2(13) == 8192;
    assert Pow2(14) == 16384;
    assert Pow2(15) == 32768;
    assert Pow2(16) == 65536;
    assert Pow2(17) == 131072;
    assert Pow2(18) == 262144;
    assert Pow2(19) == 524288;
    assert Pow2(20) == 1048576;
    assert Pow2(21) == 2097152;
    assert Pow2(22) == 4194304;
    assert Pow2(23) == 8388608;
  }

  /** The shift-sum is multiplication by the prime modulo 2^32: the terms
      weigh 1 + 2 + 16 + 128 + 256 + 2^24 = 16777619, and the int32
      wrap-arounds of the individual shifts change nothing modulo 2^32. */
  lemma ShiftSumIsPrimeProduct(x: int)
    ensures ToUint32(ShiftSum(x)) == (ToUint32(x) * 16777619) % 0x1_0000_0000
  {
    var a1, a4, a7, a8, a24 := ShlTerms(x);
    SumOfTerms(x, ShiftSum(x), a1, a4, a7, a8, a24);
  }

  /** The five shifted terms of the shift-sum, each congruent to a product. */
  lemma ShlTerms(x: int) returns (a1: int, a4: int, a7: int, a8: int, a24: int)
    ensures ShiftSum(x) == x + a1 + a4 + a7 + a8 + a24
    ensures a1 % 0x1_0000_0000 == (x * 2) % 0x1_0000_0000
    ensures a4 % 0x1_0000_0000 == (x * 16) % 0x1_0000_0000
    ensures a7 % 0x1_0000_0000 == (x * 128) % 0x1_0000_0000
    ensures a8 % 0x1_0000_0000 == (x * 256) % 0x1_0000_0000
    ensures a24 % 0x1_0000_0000 == (x * 16777216) % 0x1_0000_0000
  {
    Pow2Values();
    ShlCongruent(x, 1);
    ShlCongruent(x, 4);
    ShlCongruent(x, 7);
    ShlCongruent(x, 8);
    ShlCongruent(x, 24);
    a1, a4, a7, a8, a24 := JsShl(x, 1), JsShl(x, 4), JsShl(x, 7), JsShl(x, 8), JsShl(x, 24);
  }

  /** Adding up terms congruent to x times 1, 2, 16, 128, 256 and 2^24. */
  lemma SumOfTerms(x: int, sum: int, a1: int, a4: int, a7: int, a8: int, a24: int)
    requires sum == x + a1 + a4 + a7 + a8 + a24
    requires a1 % 0x1_0000_0000 == (x * 2) % 0x1_0000_0000
    requires a4 % 0x1_0000_0000 == (x * 16) % 0x1_0000_0000
    requires a7 % 0x1_0000_0000 == (x * 128) % 0x1_0000_0000
    requires a8 % 0x1_0000_0000 == (x * 256) % 0x1_0000_0000
    requires a24 % 0x1_0000_0000 == (x * 16777216) % 0x1_0000_0000
    ensures sum % 0x1_0000_0000 == ((x % 0x1_0000_0000) * 16777619) % 0x1_0000_0000
  {
    CongruentAdd(x, x, a1, x * 2);
    CongruentAdd(x + a1, x * 3, a4, x * 16);
    CongruentAdd(x + a1 + a4, x * 19, a7, x * 128);
    CongruentAdd(x + a1 + a4 + a7, x * 147, a8, x * 256);
    CongruentAdd(x + a1 + a4 + a7 + a8, x * 403, a24, x * 16777216);
    CongruentMul(x % 0x1_0000_0000, x, 16777619);
  }

  lemma Uint32Fixed(u: Uint32)
    ensures ToUint32(u) == u
  {
  }

  lemma Int32RoundTrip(b: Uint32)
    ensures ToUint32(ToInt32(b)) == b
  {
  }

  /** The xor of the loop keeps the low 32 bits exact. */
  lemma XorLow(hash: int, u: Uint32)
    ensures ToUint32(JsXor(hash, u)) == BitXor(ToUint32(hash), u)
  {
    Uint32Fixed(u);
    Int32RoundTrip(BitXor(ToUint32(hash), u));
  }

  /** One iteration of the loop body at lines 16-27 performs one `Step`. */
  lemma RoundIsStep(hash: int, c: char)
    ensures ToUint32(ShiftSum(JsXor(hash, FirstCodeUnit(c)))) == Step(ToUint32(hash), c)
  {
    var x := JsXor(hash, FirstCodeUnit(c));
    XorLow(hash, FirstCodeUnit(c));
    ShiftSumIsPrimeProduct(x);
  }

  /** `unescape(encodeURIComponent(charcode))` for a number: the number
      becomes its decimal text, and the round trip gives back that text's
      code units, the digits being unreserved ASCII. */
  method ReEncode(code: nat) returns (s: seq<Uri.CodeUnit>)
    ensures s == Uri.Utf16(DecimalString(code))
    ensures |s| == |DecimalString(code)| >= 1
    ensures forall k :: 0 <= k < |s| ==> s[k] == DecimalString(code)[k] as int && '0' as int <= s[k] <= '9' as int
  {
    var text := DecimalString(code);
    s := Uri.Unescape(Uri.EncodeURIComponent(text));
    Uri.EncodeRoundTrip(text);
    Uri.AsciiUtf8(text);
  }

  /** Lines 21-27 of the loop body: xor in the code unit, then the
      shift-sum; together one FNV-1a round on the low 32 bits. */
  method Mix(hash: int, charcode: Uint32, ghost c: char) returns (h: int)
    requires charcode == FirstCodeUnit(c)
    ensures ToUint32(h) == Step(ToUint32(hash), c)
  {
    RoundIsStep(hash, c);
    h := JsXor(hash, charcode);
    h := h + JsShl(h, 1) + JsShl(h, 4) + JsShl(h, 7) + JsShl(h, 8) + JsShl(h, 24);
    assert h == ShiftSum(JsXor(hash, charcode));
  }

  /** `fnv1a` as written: a `for...of` loop over the code points of the
      string it was called with, updating `hash`; the first code unit above
      0x7F also reassigns `str` to `unescape(encodeURIComponent(charcode))`,
      the decimal digits of the code, and sets `unicode`. The result is the
      FNV-1a fold whatever the flag does: the iteration already holds the
      original string. */
  method Fnv1a(input: string) returns (r: Uint32)
    ensures r == HashOf(input)
  {
    var str := Uri.Utf16(input);
    var hash: int := OffsetBasis;
    var unicode := false;
    var i := 0;
    while i < |input|
      invariant 0 <= i <= |input|
      invariant ToUint32(hash) == HashOf(input[..i])
    {
      var c := input[i];
      var charcode := FirstCodeUnit(c);
      if charcode > 0x7F && !unicode {
        str := ReEncode(charcode);
        unicode := true;
      }
      hash := Mix(hash, charcode, c);
      assert input[..i + 1] == input[..i] + [c];
      HashSnoc(input[..i], c);
      i := i + 1;
    }
    assert input[..i] == input;
    r := ToUint32(hash);
  }

  // ---------------------------------------------------------------------------
  // Properties of the identity hash.

  /** The empty title hashes to the offset basis. */
  lemma EmptyHash()
    ensures HashOf("") == 2166136261
  {
  }

  /** Appending one character performs one further round. */
  lemma HashSnoc(s: string, c: char)
    ensures HashOf(s + [c]) == Step(HashOf(s), c)
  {
    assert (s + [c])[..|s|] == s;
  }

  /** The hash of a concatenation continues from the hash of its prefix. */
  lemma {:induction false} FoldConcat(h: Uint32, s: string, t: string)
    ensures FoldFrom(h, s + t) == FoldFrom(FoldFrom(h, s), t)
    decreases |t|
  {
    if t == [] {
      assert s + t == s;
    } else {
      var n := |t| - 1;
      assert (s + t)[..|s + t| - 1] == s + t[..n];
      FoldConcat(h, s, t[..n]);
    }
  }

  /** Below U+10000 the code unit is the code point; above it only the high
      surrogate takes part. */
  lemma CodeUnitRange(c: char)
    ensures c as int < 0x1_0000 ==> FirstCodeUnit(c) == c as int
    ensures c as int >= 0x1_0000 ==> 0xD800 <= FirstCodeUnit(c) <= 0xDBFF
  {
  }

  /** Two astral characters sharing a high surrogate are not told apart:
      U+1F600 and U+1F601 give the same hash. */
  lemma AstralCollision()
    ensures HashOf("\U{1F600}") == HashOf("\U{1F601}")
  {
    assert FirstCodeUnit('\U{1F600}') == 0xD83D == FirstCodeUnit('\U{1F601}');
  }

  /** The test vector of the FNV draft: FNV-1a 32 of "a" is 0xE40C292C. */
  lemma KnownVector()
    ensures HashOf("a") == 0xE40C292C
  {
    assert BitXor(OffsetBasis, 0x61) == 0x811C9DA4;
  }
}
