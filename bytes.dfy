/**
 * Byte-level helpers shared by the signature encoders and the data layouts:
 * unsigned integers of the C widths, C's shifts and masks, big-endian
 * stores and loads, and `memcpy` into and out of a flat byte memory.
 *
 * The shifts and masks are defined one bit at a time (`x >> n` halves `x`
 * `n` times, `x & _MASK(n)` keeps `n` remainders of halving, `x << n`
 * doubles `n` times), so that every fact about them is proved by induction
 * in linear arithmetic.
 */
module Bytes {

  type Byte = x: int | 0 <= x < 256
  type U16 = x: int | 0 <= x < 0x1_0000
  type U32 = x: int | 0 <= x < 0x1_0000_0000
  type U64 = x: int | 0 <= x < 0x1_0000_0000_0000_0000

  function Pow2(n: nat): (r: nat)
    ensures r >= 1
  {
    if n == 0 then 1 else 2 * Pow2(n - 1)
  }

  /** One more byte of width multiplies the range by 256. */
  lemma Pow2Byte(n: nat)
    ensures Pow2(n + 8) == 256 * Pow2(n)
  {
    calc {
      Pow2(n + 8);
      2 * Pow2(n + 7);
      4 * Pow2(n + 6);
      8 * Pow2(n + 5);
      16 * Pow2(n + 4);
      32 * Pow2(n + 3);
      64 * Pow2(n + 2);
      128 * Pow2(n + 1);
      256 * Pow2(n);
    }
  }

  /** The ranges of the C unsigned widths. */
  lemma Pow2Constants()
    ensures Pow2(8) == 0x100 && Pow2(16) == 0x1_0000 && Pow2(32) == 0x1_0000_0000
    ensures Pow2(48) == 0x1_0000_0000_0000 && Pow2(64) == 0x1_0000_0000_0000_0000
  {
    Pow2To32();
    Pow2Byte(32);
    Pow2Byte(40);
    Pow2Byte(48);
    Pow2Byte(56);
  }

  lemma Pow2To32()
    ensures Pow2(8) == 0x100 && Pow2(16) == 0x1_0000 && Pow2(32) == 0x1_0000_0000
  {
    Pow2Byte(0);
    assert Pow2(16) == 0x1_0000 by { Pow2Byte(8); }
    Pow2Byte(16);
    Pow2Byte(24);
  }

  /** Division by `d` undoes multiplication by `d` plus a remainder below `d`. */
  lemma DivMod(q: nat, d: nat, r: nat)
    requires r < d
    ensures (q * d + r) / d == q && (q * d + r) % d == r
  {
    var x := q * d + r;
    var q', r' := x / d, x % d;
    assert q' * d + r' == q * d + r;
    if q' < q {
      assert (q - q') * d == r' - r;
      MulAtLeast(q - q', d);
    } else if q' > q {
      assert (q' - q) * d == r - r';
      MulAtLeast(q' - q, d);
    }
  }

  /** One past the largest `size_t` (and `uint64_t`) value. */
  const SizeMax: nat := 0x1_0000_0000_0000_0000

  /** Reducing an accumulator before each addition gives the reduced sum. */
  lemma AddMod(a: nat, b: nat, d: nat)
    requires d > 0
    ensures (a % d + b) % d == (a + b) % d
  {
    var x := a % d + b;
    DivMod(a / d + x / d, d, x % d);
    assert a + b == (a / d + x / d) * d + x % d;
  }

  /**
   * `a + b` in an unsigned type of `m` values, for `a` and `b` of that type:
   * the sum wraps around at most once.
   */
  function AddWrap(a: nat, b: nat, m: nat): (s: nat)
    requires a < m && b < m
    ensures s < m
  {
    if a + b < m then a + b else a + b - m
  }

  /** The wrapped sum is the sum reduced modulo `m`. */
  lemma AddWrapMod(a: nat, b: nat, m: nat)
    requires a < m && b < m
    ensures AddWrap(a, b, m) == (a + b) % m
  {
    if a + b >= m {
      DivMod(1, m, a + b - m);
    } else {
      DivMod(0, m, a + b);
    }
  }

  /** One past the largest `uint32_t` value. */
  const U32Max: nat := 0x1_0000_0000

  /** `k` times `c`, as repeated addition. */
  function Times(k: nat, c: nat): nat
  {
    if k == 0 then 0 else c + Times(k - 1, c)
  }

  lemma {:induction false} TimesMul(k: nat, c: nat)
    ensures Times(k, c) == k * c
  {
    if k > 0 {
      TimesMul(k - 1, c);
      assert k * c == c + (k - 1) * c;
    }
  }

  /** An earlier count's sum and one more addend stay within a later count's. */
  lemma {:induction false} TimesGrow(r: nat, rc: nat, s: nat)
    requires r < rc
    ensures Times(r, s) + s <= Times(rc, s)
  {
    if rc > r + 1 {
      TimesGrow(r, rc - 1, s);
    }
  }

  /** Reducing the addend modulo 2^64 before repeated addition gives the reduced total. */
  lemma {:induction false} TimesMod(k: nat, a: nat)
    ensures Times(k, a % SizeMax) % SizeMax == Times(k, a) % SizeMax
  {
    if k > 0 {
      var x, t, t' := a % SizeMax, Times(k - 1, a % SizeMax), Times(k - 1, a);
      TimesMod(k - 1, a);
      AddMod(t, x, SizeMax);
      AddMod(t', x, SizeMax);
      AddMod(a, t', SizeMax);
    }
  }


  lemma MulAtLeast(k: nat, d: nat)
    requires k >= 1
    ensures k * d >= d
  {
    assert k * d == (k - 1) * d + d;
  }

  /** `x >> n`. */
  function Shr(x: nat, n: nat): nat
  {
    if n == 0 then x else Shr(x / 2, n - 1)
  }

  /** `x << n` where no bit is shifted out (every shift of this model stays within 64 bits). */
  function Shl(x: nat, n: nat): nat
  {
    if n == 0 then x else 2 * Shl(x, n - 1)
  }

  /** `x & _MASK(n)`: the low `n` bits of `x`. */
  function Low(x: nat, n: nat): (r: nat)
    ensures r < Pow2(n)
  {
    if n == 0 then 0 else 2 * Low(x / 2, n - 1) + x % 2
  }

  /** `(x >> n) & 0xff`. */
  function ByteAt(x: nat, n: nat): Byte
  {
    Shr(x, n) % 256
  }

  /** Shifting by a byte is dividing by 256. */
  lemma Shr8(x: nat)
    ensures Shr(x, 8) == x / 256
  {
    Shl8(x / 256);
    Pow2To32();
    ShiftOr(x / 256, x % 256, 8);
  }

  /** Shifting left by a byte is multiplying by 256. */
  lemma Shl8(x: nat)
    ensures Shl(x, 8) == 256 * x
  {
    calc {
      Shl(x, 8);
      2 * Shl(x, 7);
      4 * Shl(x, 6);
      8 * Shl(x, 5);
      16 * Shl(x, 4);
      32 * Shl(x, 3);
      64 * Shl(x, 2);
      128 * Shl(x, 1);
      256 * x;
    }
  }

  /** The low byte is the remainder by 256. */
  lemma Low8(x: nat)
    ensures Low(x, 8) == x % 256
  {
    Shl8(x / 256);
    Pow2To32();
    ShiftOr(x / 256, x % 256, 8);
  }

  /** A value already below `2^n` keeps all its bits. */
  lemma {:induction false} LowSmall(x: nat, n: nat)
    requires x < Pow2(n)
    ensures Low(x, n) == x
  {
    if n > 0 {
      LowSmall(x / 2, n - 1);
    }
  }

  lemma LowZero(x: nat)
    ensures Low(x, 0) == 0 && Shr(x, 0) == x && Shl(x, 0) == x
  {
  }

  /** `(x >> a) >> b == x >> (a + b)`. */
  lemma {:induction false} ShrShr(x: nat, a: nat, b: nat)
    ensures Shr(Shr(x, a), b) == Shr(x, a + b)
  {
    if a > 0 {
      ShrShr(x / 2, a - 1, b);
    }
  }

  /** `(x << a) << b == x << (a + b)`. */
  lemma {:induction false} ShlShl(x: nat, a: nat, b: nat)
    ensures Shl(Shl(x, a), b) == Shl(x, a + b)
  {
    if b > 0 {
      ShlShl(x, a, b - 1);
    }
  }

  /** `(x + y) << k == (x << k) + (y << k)`. */
  lemma {:induction false} ShlAdd(x: nat, y: nat, k: nat)
    ensures Shl(x + y, k) == Shl(x, k) + Shl(y, k)
  {
    if k > 0 {
      ShlAdd(x, y, k - 1);
    }
  }

  /** The low `a + b` bits of `x` are bits `a .. a + b` placed above the low `a` bits. */
  lemma {:induction false} LowSplit(x: nat, a: nat, b: nat)
    ensures Low(x, a + b) == Shl(Low(Shr(x, a), b), a) + Low(x, a)
  {
    if a > 0 {
      LowSplit(x / 2, a - 1, b);
      ShlUnfold(Low(Shr(x, a), b), a);
    }
  }

  lemma ShlUnfold(x: nat, a: nat)
    requires a > 0
    ensures Shl(x, a) == 2 * Shl(x, a - 1)
  {
  }

  /** `hi << k | lo` for `lo` below `2^k`: the two parts read back by `>>` and `&`. */
  lemma {:induction false} ShiftOr(hi: nat, lo: nat, k: nat)
    requires lo < Pow2(k)
    ensures Shr(Shl(hi, k) + lo, k) == hi && Low(Shl(hi, k) + lo, k) == lo
  {
    if k > 0 {
      var v := Shl(hi, k) + lo;
      assert v / 2 == Shl(hi, k - 1) + lo / 2 && v % 2 == lo % 2;
      ShiftOr(hi, lo / 2, k - 1);
    }
  }

  /** `hi << k | lo` stays below `2^(n + k)` when `hi` is below `2^n` and `lo` below `2^k`. */
  lemma {:induction false} ShiftOrBound(hi: nat, lo: nat, n: nat, k: nat)
    requires hi < Pow2(n) && lo < Pow2(k)
    ensures Shl(hi, k) + lo < Pow2(n + k)
  {
    if k > 0 {
      ShiftOrBound(hi, lo / 2, n, k - 1);
    }
  }

  /** Masking `hi << k | lo` to `k + t` bits masks `hi` to `t` bits. */
  lemma ShiftOrLow(hi: nat, lo: nat, k: nat, t: nat)
    requires lo < Pow2(k)
    ensures Low(Shl(hi, k) + lo, k + t) == Shl(Low(hi, t), k) + lo
  {
    LowSplit(Shl(hi, k) + lo, k, t);
    ShiftOr(hi, lo, k);
  }

  /** The `n`-byte big-endian form of `x` (of its low `8 * n` bits). */
  function BE(x: nat, n: nat): (r: seq<Byte>)
    ensures |r| == n
  {
    if n == 0 then [] else BE(x / 256, n - 1) + [x % 256]
  }

  /** The number a big-endian byte string stands for. */
  function FromBE(s: seq<Byte>): (v: nat)
    ensures v < Pow2(8 * |s|)
  {
    if s == [] then 0
    else
      var v := FromBE(s[..|s| - 1]) * 256 + s[|s| - 1];
      assert v < Pow2(8 * |s|) by {
        Pow2Byte(8 * (|s| - 1));
      }
      v
  }

  /** Storing and loading `n` big-endian bytes keeps exactly the low `8 * n` bits. */
  lemma {:induction false} FromBEOfBE(x: nat, n: nat)
    ensures FromBE(BE(x, n)) == Low(x, 8 * n)
  {
    if n > 0 {
      var s := BE(x, n);
      assert s[..n - 1] == BE(x / 256, n - 1);
      FromBEOfBE(x / 256, n - 1);
      LowByte(x, 8 * (n - 1));
    }
  }

  /** The low `k + 8` bits of `x` are the low `k` bits of `x / 256` above the low byte. */
  lemma LowByte(x: nat, k: nat)
    ensures Low(x, 8 + k) == 256 * Low(x / 256, k) + x % 256
  {
    LowSplit(x, 8, k);
    Shr8(x);
    Low8(x);
    Shl8(Low(x / 256, k));
  }

  /** A value that fits in `n` bytes reads back from its `n`-byte form. */
  lemma FromBEOfSmall(x: nat, n: nat)
    requires x < Pow2(8 * n)
    ensures FromBE(BE(x, n)) == x
  {
    FromBEOfBE(x, n);
    LowSmall(x, 8 * n);
  }

  /** Every byte string is the big-endian form of the number it stands for. */
  lemma {:induction false} BEOfFromBE(s: seq<Byte>)
    ensures BE(FromBE(s), |s|) == s
  {
    if s != [] {
      var n := |s|;
      var v := FromBE(s[..n - 1]);
      assert (v * 256 + s[n - 1]) / 256 == v;
      BEOfFromBE(s[..n - 1]);
    }
  }

  /** Only the low `8 * n` bits of `x` reach its `n`-byte form. */
  lemma BEMod(x: nat, n: nat)
    ensures BE(x, n) == BE(Low(x, 8 * n), n)
  {
    FromBEOfBE(x, n);
    BEOfFromBE(BE(x, n));
  }

  lemma BEUnfold(x: nat, n: nat)
    requires n > 0
    ensures BE(x, n) == BE(x / 256, n - 1) + [x % 256]
  {
  }

  /** Shifting `x / 256` is shifting `x` by eight more. */
  lemma ShrByte(x: nat, k: nat)
    ensures Shr(x / 256, k) == Shr(x, k + 8)
  {
    Shr8(x);
    ShrShr(x, 8, k);
  }

  /** The last `b` bytes of an `a + b`-byte form are the `b`-byte form; the first `a` hold `x >> 8b`. */
  lemma {:induction false} BESplit(x: nat, a: nat, b: nat)
    ensures BE(x, a + b) == BE(Shr(x, 8 * b), a) + BE(x, b)
  {
    if b > 0 {
      var y := x / 256;
      var hi := Shr(y, 8 * (b - 1));
      assert hi == Shr(x, 8 * b) by {
        ShrByte(x, 8 * (b - 1));
        assert 8 * (b - 1) + 8 == 8 * b;
      }
      calc {
        BE(x, a + b);
        { BEUnfold(x, a + b); assert a + b - 1 == a + (b - 1); }
        BE(y, a + (b - 1)) + [x % 256];
        { BESplit(y, a, b - 1); }
        (BE(hi, a) + BE(y, b - 1)) + [x % 256];
        BE(hi, a) + (BE(y, b - 1) + [x % 256]);
        { BEUnfold(x, b); }
        BE(hi, a) + BE(x, b);
      }
    }
  }

  /** Byte `j` of the `n`-byte form of `x` is `(x >> 8 * (n - 1 - j)) & 0xff`. */
  lemma {:induction false} BEAt(x: nat, n: nat, j: nat)
    requires j < n
    ensures BE(x, n)[j] == ByteAt(x, 8 * (n - 1 - j))
  {
    BEUnfold(x, n);
    if j < n - 1 {
      BEAt(x / 256, n - 1, j);
      ShrByte(x, 8 * (n - 2 - j));
    }
  }

  /** Storing `hi` in `a` bytes right before `lo` in `b` bytes stores `hi << 8b | lo` in `a + b` bytes. */
  lemma BEConcat(hi: nat, lo: nat, a: nat, b: nat)
    requires lo < Pow2(8 * b)
    ensures BE(hi, a) + BE(lo, b) == BE(Shl(hi, 8 * b) + lo, a + b)
  {
    var v := Shl(hi, 8 * b) + lo;
    BESplit(v, a, b);
    ShiftOr(hi, lo, 8 * b);
    BEMod(v, b);
    BEMod(lo, b);
    LowSmall(lo, 8 * b);
  }

  /** The three parts of a concatenation, sliced back out. */
  lemma Slice3(a: seq<Byte>, b: seq<Byte>, c: seq<Byte>)
    ensures (a + b + c)[..|a|] == a
    ensures (a + b + c)[|a|..|a| + |b|] == b
    ensures (a + b + c)[|a| + |b|..] == c
  {
    var t := a + b + c;
    assert t[..|a|] == a;
    assert t[|a|..|a| + |b|] == b;
    assert t[|a| + |b|..] == c;
  }

  /**
   * Memory `m` after copying `d` to offset `a`. Bytes of `d` that would fall
   * past the end of `m` are dropped, so the function is total; every caller
   * in this model writes in bounds.
   */
  function Write(m: seq<Byte>, a: nat, d: seq<Byte>): (r: seq<Byte>)
    ensures |r| == |m|
  {
    seq(|m|, p => if a <= p < a + |d| then d[p - a] else if 0 <= p < |m| then m[p] else 0)
  }

  /** Position `p` of `Write(m, a, d)`. */
  lemma WriteAt(m: seq<Byte>, a: nat, d: seq<Byte>, p: nat)
    requires p < |m|
    ensures Write(m, a, d)[p] == if a <= p < a + |d| then d[p - a] else m[p]
  {
  }

  /** After the copy, the destination range holds `d`. */
  lemma WriteSlice(m: seq<Byte>, a: nat, d: seq<Byte>)
    requires a + |d| <= |m|
    ensures Write(m, a, d)[a..a + |d|] == d
  {
  }

  /** Copying nothing changes nothing. */
  lemma WriteEmpty(m: seq<Byte>, a: nat)
    ensures Write(m, a, []) == m
  {
  }

  /** Two adjacent copies are one copy of the concatenation. */
  lemma WriteConcat(m: seq<Byte>, a: nat, d1: seq<Byte>, d2: seq<Byte>)
    ensures Write(Write(m, a, d1), a + |d1|, d2) == Write(m, a, d1 + d2)
  {
    var l, r := Write(Write(m, a, d1), a + |d1|, d2), Write(m, a, d1 + d2);
    forall p | 0 <= p < |m| ensures l[p] == r[p] {
      WriteAt(Write(m, a, d1), a + |d1|, d2, p);
      WriteAt(m, a, d1, p);
      WriteAt(m, a, d1 + d2, p);
    }
  }

  /** `WriteConcat` with the concatenation and the first length named. */
  lemma WriteThen(m: seq<Byte>, a: nat, d1: seq<Byte>, d2: seq<Byte>, d: seq<Byte>, l: nat)
    requires d == d1 + d2 && |d1| == l
    ensures Write(Write(m, a, d1), a + l, d2) == Write(m, a, d)
  {
    WriteConcat(m, a, d1, d2);
  }

  /** Two sequences that agree on the positions `a` to `a + l` have the same slice there. */
  lemma SameSlice(s: seq<Byte>, t: seq<Byte>, a: nat, l: nat)
    requires a + l <= |s| && a + l <= |t|
    requires forall p :: a <= p < a + l ==> s[p] == t[p]
    ensures s[a..a + l] == t[a..a + l]
  {
  }

  /** Two adjacent slices make up the slice that spans both. */
  lemma SliceJoin(s: seq<Byte>, off: nat, a: nat, b: nat)
    requires off + a + b <= |s|
    ensures s[off..off + a] + s[off + a..off + a + b] == s[off..off + a + b]
  {
  }

  /** The bytes past a copy are as they were. */
  lemma WriteRest(m: seq<Byte>, a: nat, d: seq<Byte>)
    requires a + |d| <= |m|
    ensures Write(m, a, d)[..a] == m[..a] && Write(m, a, d)[a + |d|..] == m[a + |d|..]
  {
  }

  /** A single-byte store. */
  lemma WriteOne(m: seq<Byte>, a: nat, v: Byte)
    requires a < |m|
    ensures m[a := v] == Write(m, a, [v])
  {
  }

  /** `memcpy(buf + a, d, |d|)` on an array. */
  method Put(buf: array<Byte>, a: nat, d: seq<Byte>)
    requires a + |d| <= buf.Length
    modifies buf
    ensures buf[..] == Write(old(buf[..]), a, d)
  {
    forall p | a <= p < a + |d| {
      buf[p] := d[p - a];
    }
  }
}
