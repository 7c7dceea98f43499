/** The bit-accumulating decoder of `vmtest/src/util.cpp` against the bit stream it is meant to unpack. */
module Base64 {
  import opened Bytes

  type Sextet = x: nat | x < 64 witness 0

  /** The alphabet `kChars`: position `v` of "A..Za..z0..9+/", as in table 1 of RFC 4648. */
  function CharOf(v: Sextet): char {
    if v < 26 then 'A' + v as char
    else if v < 52 then 'a' + (v - 26) as char
    else if v < 62 then '0' + (v - 52) as char
    else if v == 62 then '+'
    else '/'
  }

  /** It is the string of the source, position by position. */
  lemma AlphabetIs(v: Sextet)
    ensures "ABCDEFGHIJKLMNOPQRSTUVWXYZabcdefghijklmnopqrstuvwxyz0123456789+/"[v] == CharOf(v)
  {
    if v < 26 {
      UpperIs(v);
    } else if v < 52 {
      LowerIs(v - 26);
    } else if v < 62 {
      DigitIs(v - 52);
    }
    Segments();
  }

  lemma Segments()
    ensures "ABCDEFGHIJKLMNOPQRSTUVWXYZabcdefghijklmnopqrstuvwxyz0123456789+/" ==
      "ABCDEFGHIJKLMNOPQRSTUVWXYZ" + "abcdefghijklmnopqrstuvwxyz" + "0123456789" + "+/"
  {
  }

  lemma UpperIs(v: nat)
    requires v < 26
    ensures "ABCDEFGHIJKLMNOPQRSTUVWXYZ"[v] == 'A' + v as char
  {
  }

  lemma LowerIs(v: nat)
    requires v < 26
    ensures "abcdefghijklmnopqrstuvwxyz"[v] == 'a' + v as char
  {
  }

  lemma DigitIs(v: nat)
    requires v < 10
    ensures "0123456789"[v] == '0' + v as char
  {
  }

  /** `kChars.find(c)`: the first position at or after `from` that holds `c`, or 64 for npos. */
  function Find(c: char, from: nat): (r: nat)
    requires from <= 64
    ensures from <= r <= 64
    ensures r < 64 ==> CharOf(r) == c
    ensures forall i :: from <= i < r ==> CharOf(i) != c
    decreases 64 - from
  {
    if from == 64 || CharOf(from) == c then from else Find(c, from + 1)
  }

  lemma FindCharOf(v: Sextet)
    ensures CharOf(v) != '=' && Find(CharOf(v), 0) == v
  {
    var r := Find(CharOf(v), 0);
    assert CharOf(r) == CharOf(v);
  }

  /** What the decoder looks at: the alphabet characters before the first '='. */
  function Sextets(s: string): seq<Sextet> {
    if s == "" || s[0] == '=' then []
    else if Find(s[0], 0) < 64 then [Find(s[0], 0)] + Sextets(s[1..])
    else Sextets(s[1..])
  }

  // ----- bit strings

  function Pow2(n: nat): (r: nat)
    ensures r > 0
  {
    if n == 0 then 1 else 2 * Pow2(n - 1)
  }

  /** The low `n` bits of `v`, most significant first. */
  function Bits(v: nat, n: nat): (r: seq<bool>)
    ensures |r| == n
  {
    if n == 0 then [] else Bits(v / 2, n - 1) + [v % 2 == 1]
  }

  function Value(bits: seq<bool>): nat {
    if |bits| == 0 then 0 else 2 * Value(bits[..|bits| - 1]) + (if bits[|bits| - 1] then 1 else 0)
  }

  function SextetBits(xs: seq<Sextet>): (r: seq<bool>)
    ensures |r| == 6 * |xs|
  {
    if |xs| == 0 then [] else SextetBits(xs[..|xs| - 1]) + Bits(xs[|xs| - 1], 6)
  }

  function ByteBits(bs: seq<Byte>): (r: seq<bool>)
    ensures |r| == 8 * |bs|
  {
    if |bs| == 0 then [] else ByteBits(bs[..|bs| - 1]) + Bits(bs[|bs| - 1], 8)
  }

  lemma {:induction false} ValueBound(bits: seq<bool>)
    ensures Value(bits) < Pow2(|bits|)
  {
    if |bits| == 0 {
    } else {
      ValueBound(bits[..|bits| - 1]);
    }
  }

  /** Reading a bit string eight at a time; an incomplete last group is dropped. */
  function BytesOf(bits: seq<bool>): (r: seq<Byte>)
    ensures |r| == |bits| / 8
  {
    if |bits| < 8 then []
    else
      ValueBound(bits[..8]);
      assert Pow2(8) == 256;
      [Value(bits[..8])] + BytesOf(bits[8..])
  }

  /** The specification: concatenate the sextets' bits, and cut the stream into bytes, floor(6k/8) of them. */
  function Decode(s: string): (out: seq<Byte>)
    ensures |out| == 6 * |Sextets(s)| / 8
  {
    BytesOf(SextetBits(Sextets(s)))
  }

  lemma {:induction false} BitsConcat(a: nat, n: nat, b: nat, m: nat)
    requires b < Pow2(m)
    ensures Bits(a, n) + Bits(b, m) == Bits(a * Pow2(m) + b, n + m)
  {
    if m == 0 {
      assert Bits(a, n) + Bits(b, 0) == Bits(a, n);
    } else {
      var x := a * Pow2(m) + b;
      var h := a * Pow2(m - 1);
      assert x == 2 * h + b;
      assert x / 2 == h + b / 2 && x % 2 == b % 2;
      BitsConcat(a, n, b / 2, m - 1);
      assert Bits(a, n) + Bits(b, m) == (Bits(a, n) + Bits(b / 2, m - 1)) + [b % 2 == 1];
    }
  }

  lemma HalfOfMod(x: nat, p: nat)
    requires p > 0
    ensures (x % (2 * p)) / 2 == (x / 2) % p && (x % (2 * p)) % 2 == x % 2
  {
    var q, r := x / (2 * p), x % (2 * p);
    assert x == 2 * (q * p) + r;
    assert x / 2 == q * p + r / 2;
    DivMod(x / 2, p, q, r / 2);
  }

  lemma DivMod(x: nat, m: nat, q: int, r: nat)
    requires r < m && x == q * m + r
    ensures x / m == q && x % m == r
  {
    DivDef(x, m);
    SameQuotient(m, x / m, x % m, q, r);
  }

  lemma DivDef(x: nat, m: nat)
    requires m > 0
    ensures x == x / m * m + x % m && 0 <= x % m < m
  {
  }

  lemma SameQuotient(m: nat, d: int, e: nat, q: int, r: nat)
    requires e < m && r < m && d * m + e == q * m + r
    ensures d == q && e == r
  {
    if d > q {
      MulGrows(d, q + 1, m);
    } else if d < q {
      MulGrows(q, d + 1, m);
    }
  }

  lemma MulGrows(d: int, q: int, m: nat)
    requires d >= q
    ensures d * m >= q * m && q * m == (q - 1) * m + m
  {
  }

  /** Masking away higher bits changes nothing. */
  lemma {:induction false} BitsMask(x: nat, n: nat, m: nat)
    requires n <= m
    ensures Bits(x % Pow2(m), n) == Bits(x, n)
  {
    if n == 0 {
    } else {
      HalfOfMod(x, Pow2(m - 1));
      BitsMask(x / 2, n - 1, m - 1);
    }
  }

  /** `x >> n` for a non-negative `x`. */
  function Shr(x: nat, n: nat): nat {
    if n == 0 then x else Shr(x / 2, n - 1)
  }

  lemma {:induction false} BitsSplit(x: nat, n: nat, m: nat)
    ensures Bits(x, n + m) == Bits(Shr(x, m), n) + Bits(x, m)
  {
    if m == 0 {
      assert Bits(x, n) == Bits(x, n) + Bits(x, 0);
    } else {
      BitsSplit(x / 2, n, m - 1);
      assert Bits(x, n + m) == (Bits(Shr(x, m), n) + Bits(x / 2, m - 1)) + [x % 2 == 1];
    }
  }

  lemma {:induction false} ValueOfBits(v: nat, n: nat)
    requires v < Pow2(n)
    ensures Value(Bits(v, n)) == v
  {
    if n == 0 {
    } else {
      ValueOfBits(v / 2, n - 1);
      assert Bits(v, n)[..n - 1] == Bits(v / 2, n - 1);
    }
  }

  lemma {:induction false} ByteBitsFront(b: Byte, bs: seq<Byte>)
    ensures ByteBits([b] + bs) == Bits(b, 8) + ByteBits(bs)
  {
    if |bs| == 0 {
      assert [b] + bs == [b] && [b][..0] == [];
      assert ByteBits([b]) == ByteBits([]) + Bits(b, 8);
    } else {
      var n := |bs| - 1;
      ByteBitsFront(b, bs[..n]);
      assert ([b] + bs)[..n + 1] == [b] + bs[..n];
      Assoc(Bits(b, 8), ByteBits(bs[..n]), Bits(bs[n], 8));
    }
  }

  /** Cutting a stream that starts with whole bytes gives those bytes back. */
  lemma {:induction false} CutBytes(bs: seq<Byte>, rest: seq<bool>)
    requires |rest| < 8
    ensures BytesOf(ByteBits(bs) + rest) == bs
  {
    if |bs| == 0 {
    } else {
      ByteBitsFront(bs[0], bs[1..]);
      assert [bs[0]] + bs[1..] == bs;
      var bits := ByteBits(bs) + rest;
      assert bits[..8] == Bits(bs[0], 8);
      assert bits[8..] == ByteBits(bs[1..]) + rest;
      assert Pow2(8) == 256;
      ValueOfBits(bs[0], 8);
      CutBytes(bs[1..], rest);
    }
  }

  // ----- the loop

  /** The low `bits + 8` bits of `val` are received but not yet output. */
  ghost predicate Pending(val: nat, bits: int, out: seq<Byte>, xs: seq<Sextet>) {
    && bits in {-8, -6, -4, -2} && val < 0x100_0000
    && SextetBits(xs) == ByteBits(out) + Bits(val, bits + 8)
  }

  lemma SmallPowers()
    ensures Pow2(2) == 4 && Pow2(4) == 16 && Pow2(6) == 64 && Pow2(8) == 256
  {
    assert Pow2(3) == 8 && Pow2(5) == 32 && Pow2(7) == 128;
  }

  lemma {:induction false} PowSum(n: nat, m: nat)
    ensures Pow2(n + m) == Pow2(n) * Pow2(m)
  {
    if n == 0 {
    } else {
      PowSum(n - 1, m);
    }
  }

  /** The accumulator's mask `0xFFFFFF` keeps 24 bits. */
  lemma MaskIsPower()
    ensures Pow2(24) == 0x100_0000
  {
    SmallPowers();
    PowSum(8, 8);
    PowSum(16, 8);
  }

  lemma ShiftIn(val: nat, v: Sextet, n: nat)
    requires n <= 18
    ensures Bits((val * 64 + v) % 0x100_0000, n + 6) == Bits(val, n) + Bits(v, 6)
  {
    SmallPowers();
    MaskIsPower();
    BitsConcat(val, n, v, 6);
    BitsMask(val * 64 + v, n + 6, 24);
  }

  lemma PendingGrows(val: nat, v: Sextet, n: nat, out: seq<Byte>, xs: seq<Sextet>)
    requires n <= 18 && SextetBits(xs) == ByteBits(out) + Bits(val, n)
    ensures SextetBits(xs + [v]) == ByteBits(out) + Bits((val * 64 + v) % 0x100_0000, n + 6)
  {
    ShiftIn(val, v, n);
    assert (xs + [v])[..|xs|] == xs;
    Assoc(ByteBits(out), Bits(val, n), Bits(v, 6));
  }

  /** Splitting off the top byte of what is pending. */
  lemma Emit(next: nat, n: nat, out: seq<Byte>, all: seq<bool>)
    requires all == ByteBits(out) + Bits(next, n + 8)
    ensures all == ByteBits(out + [Shr(next, n) % 256]) + Bits(next, n)
  {
    var b: Byte := Shr(next, n) % 256;
    SmallPowers();
    assert 8 + n == n + 8;
    BitsSplit(next, 8, n);
    BitsMask(Shr(next, n), 8, 8);
    assert (out + [b])[..|out|] == out;
    Assoc(ByteBits(out), Bits(b, 8), Bits(next, n));
  }

  lemma {:induction false} SextetsAppend(p: string, q: string)
    requires '=' !in p
    ensures Sextets(p + q) == Sextets(p) + Sextets(q)
  {
    if p == "" {
      assert p + q == q;
    } else {
      SextetsAppend(p[1..], q);
      assert (p + q)[1..] == p[1..] + q;
      if Find(p[0], 0) < 64 {
        Assoc([Find(p[0], 0)], Sextets(p[1..]), Sextets(q));
      }
    }
  }

  /** Consuming the next character. */
  lemma SextetsSnoc(s: string, i: nat)
    requires i < |s| && '=' !in s[..i] && s[i] != '='
    ensures '=' !in s[..i + 1]
    ensures Find(s[i], 0) < 64 ==> Sextets(s[..i + 1]) == Sextets(s[..i]) + [Find(s[i], 0)]
    ensures Find(s[i], 0) == 64 ==> Sextets(s[..i + 1]) == Sextets(s[..i])
  {
    assert s[..i + 1] == s[..i] + [s[i]];
    SextetsAppend(s[..i], [s[i]]);
    assert [s[i]][1..] == "";
  }

  /** The loop may stop at the first '=' or at the end. */
  lemma SextetsStop(s: string, i: nat)
    requires i <= |s| && '=' !in s[..i] && (i < |s| ==> s[i] == '=')
    ensures Sextets(s) == Sextets(s[..i])
  {
    assert s == s[..i] + s[i..];
    SextetsAppend(s[..i], s[i..]);
  }

  method Base64Decode(s: string) returns (out: seq<Byte>)
    ensures out == Decode(s)
  {
    out := [];
    var val: nat, bits := 0, -8;
    ghost var xs: seq<Sextet> := [];
    var i := 0;
    while i < |s| && s[i] != '='
      invariant 0 <= i <= |s| && '=' !in s[..i]
      invariant xs == Sextets(s[..i])
      invariant Pending(val, bits, out, xs)
    {
      var pos := Find(s[i], 0);
      SextetsSnoc(s, i);
      if pos < 64 {
        val, bits, out := Take(val, bits, out, pos, xs);
        xs := xs + [pos];
      }
      i := i + 1;
    }
    SextetsStop(s, i);
    CutBytes(out, Bits(val, bits + 8));
  }

  /** One alphabet character: shift it in, and output a byte once eight bits are there. */
  method Take(val: nat, bits: int, out: seq<Byte>, pos: Sextet, ghost xs: seq<Sextet>)
    returns (val': nat, bits': int, out': seq<Byte>)
    requires Pending(val, bits, out, xs)
    ensures Pending(val', bits', out', xs + [pos])
  {
    assert val * 64 + pos < 0x8000_0000;  // no signed overflow in `(val << 6) + pos`
    PendingGrows(val, pos, bits + 8, out, xs);
    val', bits', out' := (val * 64 + pos) % 0x100_0000, bits + 6, out;
    if bits' >= 0 {
      Emit(val', bits', out, SextetBits(xs + [pos]));
      out' := out + [Shr(val', bits') % 256];
      bits' := bits' - 8;
    }
  }

  // ----- what the decoder is for

  /** Section 4 of RFC 4648: three bytes become four sextets; a short last group is filled with zero bits. */
  function EncodeSextets(bs: seq<Byte>): seq<Sextet> {
    if |bs| == 0 then []
    else if |bs| == 1 then [bs[0] / 4, Second(bs[0], 0)]
    else if |bs| == 2 then [bs[0] / 4, Second(bs[0], bs[1]), Third(bs[1], 0)]
    else Quad(bs[0], bs[1], bs[2]) + EncodeSextets(bs[3..])
  }

  function Quad(x: Byte, y: Byte, z: Byte): seq<Sextet> {
    [x / 4, Second(x, y), Third(y, z), z % 64]
  }

  function Pad(n: nat): string {
    if n % 3 == 0 then "" else if n % 3 == 1 then "==" else "="
  }

  function Chars(xs: seq<Sextet>): string {
    if |xs| == 0 then "" else [CharOf(xs[0])] + Chars(xs[1..])
  }

  function Encode(bs: seq<Byte>): string {
    Chars(EncodeSextets(bs)) + Pad(|bs|)
  }

  /** The decoder sees through the alphabet and the padding. */
  lemma {:induction false} SextetsOfChars(xs: seq<Sextet>, n: nat)
    ensures Sextets(Chars(xs) + Pad(n)) == xs
  {
    if |xs| > 0 {
      FindCharOf(xs[0]);
      SextetsOfChars(xs[1..], n);
      assert (Chars(xs) + Pad(n))[1..] == Chars(xs[1..]) + Pad(n);
    } else {
      assert Chars(xs) + Pad(n) == Pad(n);
    }
  }

  lemma {:induction false} SextetBitsFront(xs: seq<Sextet>, ys: seq<Sextet>)
    ensures SextetBits(xs + ys) == SextetBits(xs) + SextetBits(ys)
  {
    if |ys| == 0 {
      assert xs + ys == xs;
    } else {
      var n := |ys| - 1;
      SextetBitsFront(xs, ys[..n]);
      assert (xs + ys)[..|xs| + n] == xs + ys[..n];
      Assoc(SextetBits(xs), SextetBits(ys[..n]), Bits(ys[n], 6));
    }
  }

  lemma {:induction false} ByteBitsConcat(xs: seq<Byte>, ys: seq<Byte>)
    ensures ByteBits(xs + ys) == ByteBits(xs) + ByteBits(ys)
  {
    if |ys| == 0 {
      assert xs + ys == xs;
    } else {
      var n := |ys| - 1;
      ByteBitsConcat(xs, ys[..n]);
      assert (xs + ys)[..|xs| + n] == xs + ys[..n];
      Assoc(ByteBits(xs), ByteBits(ys[..n]), Bits(ys[n], 8));
    }
  }

  lemma Split62(x: Byte)
    ensures Bits(x, 8) == Bits(x / 4, 6) + Bits(x, 2)
  {
    BitsSplit(x, 6, 2);
    ShrByTwo(x);
  }

  lemma Split44(x: Byte)
    ensures Bits(x, 8) == Bits(x / 16, 4) + Bits(x, 4)
  {
    BitsSplit(x, 4, 4);
    ShrByFour(x);
  }

  lemma ShrByTwo(x: nat)
    ensures Shr(x, 2) == x / 4
  {
    assert Shr(x, 2) == Shr(x / 2, 1) == Shr(x / 2 / 2, 0);
  }

  lemma ShrByMore(x: nat, n: nat)
    ensures Shr(x, n + 2) == Shr(x / 4, n)
  {
    assert Shr(x, n + 2) == Shr(x / 2, n + 1) == Shr(x / 2 / 2, n);
  }

  lemma ShrByFour(x: nat)
    ensures Shr(x, 4) == x / 16
  {
    ShrByMore(x, 2);
    ShrByTwo(x / 4);
  }

  lemma ShrBySix(x: nat)
    ensures Shr(x, 6) == x / 64
  {
    ShrByMore(x, 4);
    ShrByFour(x / 4);
  }

  lemma Split26(x: Byte)
    ensures Bits(x, 8) == Bits(x / 64, 2) + Bits(x % 64, 6)
  {
    BitsSplit(x, 2, 6);
    ShrBySix(x);
    SmallPowers();
    BitsMask(x, 6, 6);
  }

  lemma ConcatLow(a: nat, n: nat, b: nat, m: nat)
    requires b < Pow2(m)
    ensures Bits(a % Pow2(n) * Pow2(m) + b, n + m) == Bits(a, n) + Bits(b, m)
  {
    BitsConcat(a % Pow2(n), n, b, m);
    BitsMask(a, n, n);
  }

  /** The two sextets that straddle a byte boundary. */
  lemma SecondBits(x: Byte, y: Byte)
    ensures Bits(Second(x, y), 6) == Bits(x, 2) + Bits(y / 16, 4)
  {
    SmallPowers();
    ConcatLow(x, 2, y / 16, 4);
  }

  lemma ThirdBits(y: Byte, z: Byte)
    ensures Bits(Third(y, z), 6) == Bits(y, 4) + Bits(z / 64, 2)
  {
    SmallPowers();
    ConcatLow(y, 4, z / 64, 2);
  }

  lemma Stream3(a: Sextet, b: Sextet, c: Sextet)
    ensures SextetBits([a]) == Bits(a, 6)
    ensures SextetBits([a, b]) == Bits(a, 6) + Bits(b, 6)
    ensures SextetBits([a, b, c]) == Bits(a, 6) + Bits(b, 6) + Bits(c, 6)
  {
    assert [a][..0] == [] && [a, b][..1] == [a] && [a, b, c][..2] == [a, b];
  }

  lemma Bytes2(x: Byte, y: Byte)
    ensures ByteBits([x]) == Bits(x, 8)
    ensures ByteBits([x, y]) == Bits(x, 8) + Bits(y, 8)
  {
    assert [x][..0] == [] && [x, y][..1] == [x];
  }

  lemma Stream4(a: Sextet, b: Sextet, c: Sextet, d: Sextet)
    ensures SextetBits([a, b, c, d]) == Bits(a, 6) + Bits(b, 6) + Bits(c, 6) + Bits(d, 6)
  {
    Stream3(a, b, c);
    assert [a, b, c, d][..3] == [a, b, c];
  }

  lemma Bytes3(x: Byte, y: Byte, z: Byte)
    ensures ByteBits([x, y, z]) == Bits(x, 8) + Bits(y, 8) + Bits(z, 8)
  {
    Bytes2(x, y);
    assert [x, y, z][..2] == [x, y];
  }

  /** Regrouping 24 bits: from 6-2 | 4-4 | 2-6 to 6 | 2-4 | 4-2 | 6. */
  lemma Regroup(a: seq<bool>, b: seq<bool>, c: seq<bool>, d: seq<bool>, e: seq<bool>, g: seq<bool>)
    ensures (a + b) + (c + d) + (e + g) == a + (b + c) + (d + e) + g
  {
  }

  lemma Assoc<T>(a: seq<T>, b: seq<T>, c: seq<T>)
    ensures (a + b) + c == a + (b + c)
  {
  }

  function Second(x: Byte, y: Byte): Sextet {
    x % 4 * 16 + y / 16
  }

  function Third(y: Byte, z: Byte): Sextet {
    y % 16 * 4 + z / 64
  }

  /** Three bytes and their four sextets are the same 24 bits. */
  lemma GroupBits(x: Byte, y: Byte, z: Byte)
    ensures ByteBits([x, y, z]) == SextetBits(Quad(x, y, z))
  {
    var a, b, c, d := x / 4, Second(x, y), Third(y, z), z % 64;
    Split62(x);
    Split44(y);
    Split26(z);
    SecondBits(x, y);
    ThirdBits(y, z);
    Bytes3(x, y, z);
    Stream4(a, b, c, d);
    Regroup(Bits(a, 6), Bits(x, 2), Bits(y / 16, 4), Bits(y, 4), Bits(z / 64, 2), Bits(d, 6));
  }

  lemma RegroupShort(a: seq<bool>, b: seq<bool>, c: seq<bool>, d: seq<bool>, e: seq<bool>)
    ensures (a + b) + (c + d) + e == a + (b + c) + (d + e)
  {
  }

  lemma LastOne(x: Byte)
    ensures SextetBits([x / 4, Second(x, 0)]) == ByteBits([x]) + Bits(0, 4)
  {
    OneByteBits(x);
    SecondBits(x, 0);
    Stream3(x / 4, Second(x, 0), 0);
    Assoc(Bits(x / 4, 6), Bits(x, 2), Bits(0, 4));
  }

  lemma OneByteBits(x: Byte)
    ensures ByteBits([x]) == Bits(x / 4, 6) + Bits(x, 2)
  {
    Split62(x);
    Bytes2(x, 0);
  }

  lemma LastTwo(x: Byte, y: Byte)
    ensures SextetBits([x / 4, Second(x, y), Third(y, 0)]) == ByteBits([x, y]) + Bits(0, 2)
  {
    Split62(x);
    Split44(y);
    SecondBits(x, y);
    ThirdBits(y, 0);
    Stream3(x / 4, Second(x, y), Third(y, 0));
    Bytes2(x, y);
    RegroupShort(Bits(x / 4, 6), Bits(x, 2), Bits(y / 16, 4), Bits(y, 4), Bits(0, 2));
  }

  /** A short last group carries its bytes and fewer than eight zero bits. */
  lemma LastGroup(bs: seq<Byte>) returns (zeros: seq<bool>)
    requires |bs| < 3
    ensures |zeros| < 8 && SextetBits(EncodeSextets(bs)) == ByteBits(bs) + zeros
  {
    if |bs| == 0 {
      zeros := [];
    } else if |bs| == 1 {
      LastOne(bs[0]);
      assert bs == [bs[0]];
      zeros := Bits(0, 4);
    } else {
      LastTwo(bs[0], bs[1]);
      assert bs == [bs[0], bs[1]];
      zeros := Bits(0, 2);
    }
  }

  lemma {:induction false} EncodeStream(bs: seq<Byte>) returns (zeros: seq<bool>)
    ensures |zeros| < 8 && SextetBits(EncodeSextets(bs)) == ByteBits(bs) + zeros
  {
    if |bs| < 3 {
      zeros := LastGroup(bs);
    } else {
      zeros := EncodeStream(bs[3..]);
      GroupBits(bs[0], bs[1], bs[2]);
      var b := [bs[0], bs[1], bs[2]];
      assert bs == b + bs[3..];
      GroupStep(b, bs[3..], Quad(bs[0], bs[1], bs[2]), EncodeSextets(bs[3..]), zeros);
    }
  }

  lemma GroupStep(b: seq<Byte>, bs: seq<Byte>, x: seq<Sextet>, xs: seq<Sextet>, zeros: seq<bool>)
    requires SextetBits(x) == ByteBits(b) && SextetBits(xs) == ByteBits(bs) + zeros
    ensures SextetBits(x + xs) == ByteBits(b + bs) + zeros
  {
    SextetBitsFront(x, xs);
    ByteBitsConcat(b, bs);
    Assoc(ByteBits(b), ByteBits(bs), zeros);
  }

  /** Round trip: decoding the RFC 4648 encoding of any byte string gives it back. */
  lemma RoundTrip(bs: seq<Byte>)
    ensures Decode(Encode(bs)) == bs
  {
    var zeros := EncodeStream(bs);
    SextetsOfChars(EncodeSextets(bs), |bs|);
    CutBytes(bs, zeros);
  }

  lemma {:induction false} SextetsUpToPad(p: string, q: string)
    ensures Sextets(p + ['='] + q) == Sextets(p)
  {
    if p == "" {
      assert p + ['='] + q == ['='] + q;
    } else if p[0] != '=' {
      SextetsUpToPad(p[1..], q);
      assert (p + ['='] + q)[1..] == p[1..] + ['='] + q;
    }
  }

  /** Everything from the first '=' on is ignored. */
  lemma StopsAtPad(p: string, q: string)
    ensures Decode(p + ['='] + q) == Decode(p)
  {
    SextetsUpToPad(p, q);
  }

  lemma {:induction false} NoSextet(p: string, c: char, q: string)
    requires c != '=' && Find(c, 0) == 64
    ensures Sextets(p + [c] + q) == Sextets(p + q)
  {
    if p == "" {
      assert p + [c] + q == [c] + q && p + q == q && ([c] + q)[1..] == q;
    } else if p[0] != '=' {
      NoSextet(p[1..], c, q);
      assert (p + [c] + q)[1..] == p[1..] + [c] + q;
      assert (p + q)[1..] == p[1..] + q;
    }
  }

  /** Characters outside the alphabet, such as line breaks, may appear anywhere. */
  lemma GarbageIsSkipped(p: string, c: char, q: string)
    requires c != '=' && Find(c, 0) == 64
    ensures Decode(p + [c] + q) == Decode(p + q)
  {
    NoSextet(p, c, q);
  }

  /** Test vectors of section 10 of RFC 4648, and the two characters past the digits. */
  lemma KnownEncodings()
    ensures Encode([]) == "" && Encode([0x66]) == "Zg==" && Encode([0x66, 0x6F]) == "Zm8="
    ensures Encode([0x66, 0x6F, 0x6F]) == "Zm9v"
    ensures Encode([0xF8]) == "+A==" && Encode([0xFF, 0xFF, 0xFF]) == "////"
  {
    OneByte(0x66);
    TwoBytes(0x66, 0x6F);
    ThreeBytes(0x66, 0x6F, 0x6F);
    OneByte(0xF8);
    ThreeBytes(0xFF, 0xFF, 0xFF);
  }

  lemma OneByte(x: Byte)
    ensures Encode([x]) == [CharOf(x / 4), CharOf(Second(x, 0)), '=', '=']
  {
    Chars2(x / 4, Second(x, 0));
  }

  lemma TwoBytes(x: Byte, y: Byte)
    ensures Encode([x, y]) == [CharOf(x / 4), CharOf(Second(x, y)), CharOf(Third(y, 0)), '=']
  {
    Chars3(x / 4, Second(x, y), Third(y, 0));
  }

  lemma ThreeBytes(x: Byte, y: Byte, z: Byte)
    ensures Encode([x, y, z]) == [CharOf(x / 4), CharOf(Second(x, y)), CharOf(Third(y, z)), CharOf(z % 64)]
  {
    assert [x, y, z][3..] == [];
    assert EncodeSextets([x, y, z]) == Quad(x, y, z);
    Chars4(x / 4, Second(x, y), Third(y, z), z % 64);
  }

  lemma Chars2(a: Sextet, b: Sextet)
    ensures Chars([a, b]) == [CharOf(a), CharOf(b)]
  {
    assert [b][1..] == [];
    assert Chars([b]) == [CharOf(b)];
    assert [a, b][1..] == [b];
  }

  lemma Chars3(a: Sextet, b: Sextet, c: Sextet)
    ensures Chars([a, b, c]) == [CharOf(a), CharOf(b), CharOf(c)]
  {
    Chars2(b, c);
    assert [a, b, c][1..] == [b, c];
  }

  lemma Chars4(a: Sextet, b: Sextet, c: Sextet, d: Sextet)
    ensures Chars([a, b, c, d]) == [CharOf(a), CharOf(b), CharOf(c), CharOf(d)]
  {
    Chars3(b, c, d);
    assert [a, b, c, d][1..] == [b, c, d];
  }
}
