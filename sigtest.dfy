/**
 * The software half of the signature `basic` test: the source buffer
 * `fill_data` builds and hands to the source key's list layout, and the
 * block-by-block comparison `check_data` makes of what the destination
 * key's list layout gathers. A side of the test is a signature domain and a
 * value; its blocks are `block_size` bytes of 0xA5, each followed by the
 * trailer the domain's encoder makes of the value.
 */
module SigTest {
  import opened Bytes
  import opened SigDomain
  import Trailer
  import Layout

  /** The byte `fill_data` and `check_data` set every data byte to. */
  const DataByte: Byte := 0xA5

  /** Domains whose encoder takes a value: the none domain and the CRC domains. */
  predicate ValueEncoded(d: Domain)
  {
    d.NoDomain? || d.sig.Crc32Kind? || d.sig.Crc64Kind?
  }

  /**
   * `SigType::sig_to_buf(value, buf)`: nothing for the none domain, the
   * big-endian value for the CRC domains, a 32-bit CRC keeping the value's
   * low 32 bits.
   */
  function ValueTrailer(d: Domain, value: U64): (r: seq<Byte>)
    requires ValueEncoded(d)
    ensures |r| == DomainSigSize(d)
  {
    if d.NoDomain? then Trailer.Trailer(Trailer.SigNone, 0)
    else if d.sig.Crc32Kind? then Trailer.Trailer(Trailer.Crc32Sig(value % U32Max), 0)
    else Trailer.Trailer(Trailer.Crc64Sig(value), 0)
  }

  /** `src_data_size` / `dst_data_size`: `NumBlocks * (block_size + sig_size)`, a `uint32_t` constant. */
  function DataSize(d: Domain, numBlocks: U32): U32
  {
    Times(numBlocks, DomainBlockSize(d) + DomainSigSize(d)) % U32Max
  }

  function Fill(k: nat): (r: seq<Byte>)
    ensures |r| == k && forall j :: 0 <= j < k ==> r[j] == DataByte
  {
    seq(k, _ => DataByte)
  }

  /** `n` blocks, each `b` data bytes followed by the trailer `t`. */
  function Image(b: nat, t: seq<Byte>, n: nat): seq<Byte>
    decreases n
  {
    if n == 0 then [] else Image(b, t, n - 1) + Fill(b) + t
  }

  // ---------------------------------------------------------------------
  // The shape of the image.
  // ---------------------------------------------------------------------

  lemma {:induction false} ImageLength(b: nat, t: seq<Byte>, n: nat)
    ensures |Image(b, t, n)| == Times(n, b + |t|)
    decreases n
  {
    if n > 0 {
      ImageLength(b, t, n - 1);
    }
  }

  /** Block `i` of the image starts at `Times(i, b + |t|)` and is `Fill(b) + t`. */
  lemma {:induction false} ImageBlock(b: nat, t: seq<Byte>, n: nat, i: nat)
    requires i < n
    ensures Times(i, b + |t|) + b + |t| <= |Image(b, t, n)|
    ensures Image(b, t, n)[Times(i, b + |t|)..Times(i, b + |t|) + b + |t|] == Fill(b) + t
    decreases n
  {
    var s, prev, blk := b + |t|, Image(b, t, n - 1), Fill(b) + t;
    ImageLength(b, t, n - 1);
    assert Image(b, t, n) == prev + blk;
    if i < n - 1 {
      ImageBlock(b, t, n - 1, i);
      SliceLeft(prev, blk, Times(i, s), s);
    } else {
      SliceRight(prev, blk);
    }
  }

  lemma SliceLeft(p: seq<Byte>, q: seq<Byte>, a: nat, l: nat)
    requires a + l <= |p|
    ensures (p + q)[a..a + l] == p[a..a + l]
  {
  }

  lemma SliceRight(p: seq<Byte>, q: seq<Byte>)
    ensures (p + q)[|p|..|p| + |q|] == q
  {
  }

  /** The buffer holds `NumBlocks * (block_size + sig_size)` bytes, the side's data size. */
  lemma ImageSize(d: Domain, value: U64, numBlocks: U32)
    requires ValueEncoded(d)
    requires Times(numBlocks, DomainBlockSize(d) + DomainSigSize(d)) < U32Max
    ensures |Image(DomainBlockSize(d), ValueTrailer(d, value), numBlocks)| == DataSize(d, numBlocks)
      == numBlocks * (DomainBlockSize(d) + DomainSigSize(d))
  {
    var s := DomainBlockSize(d) + DomainSigSize(d);
    ImageLength(DomainBlockSize(d), ValueTrailer(d, value), numBlocks);
    TimesMul(numBlocks, s);
  }

  /** Every byte at `i * (b + |t|) + j` with `j < b` is 0xA5. */
  lemma ImageData(b: nat, t: seq<Byte>, n: nat, i: nat, j: nat)
    requires i < n && j < b
    ensures i * (b + |t|) + j < |Image(b, t, n)| && Image(b, t, n)[i * (b + |t|) + j] == DataByte
  {
    var s := b + |t|;
    ImageBlock(b, t, n, i);
    TimesMul(i, s);
    var blk := Image(b, t, n)[Times(i, s)..Times(i, s) + s];
    assert blk == Fill(b) + t;
    assert blk[j] == Fill(b)[j];
  }

  /** The `|t|` bytes at `i * (b + |t|) + b` are the trailer, the same for every block. */
  lemma ImageTrailer(b: nat, t: seq<Byte>, n: nat, i: nat)
    requires i < n
    ensures i * (b + |t|) + b + |t| <= |Image(b, t, n)|
    ensures Image(b, t, n)[i * (b + |t|) + b..i * (b + |t|) + b + |t|] == t
  {
    var s := b + |t|;
    ImageBlock(b, t, n, i);
    TimesMul(i, s);
    var img, p := Image(b, t, n), Times(i, s);
    assert img[p..p + s][b..] == t;
    assert img[p + b..p + s] == img[p..p + s][b..];
  }

  // ---------------------------------------------------------------------
  // Steps of the two loops.
  // ---------------------------------------------------------------------

  /** Trailer `t` stored after the `b` data bytes of block `i`, in the yet untouched 0xA5 tail. */
  lemma FillStep(b: nat, t: seq<Byte>, i: nat, pos: nat, size: nat)
    requires pos == |Image(b, t, i)| && pos + b + |t| <= size
    ensures Write(Image(b, t, i) + Fill(size - pos), pos + b, t) == Image(b, t, i + 1) + Fill(size - (pos + b + |t|))
  {
    var img, k := Image(b, t, i), size - (pos + b + |t|);
    var l, r := Write(img + Fill(size - pos), pos + b, t), img + Fill(b) + t + Fill(k);
    assert |l| == |r|;
    forall p | 0 <= p < |l|
      ensures l[p] == r[p]
    {
      WriteAt(img + Fill(size - pos), pos + b, t, p);
      if p < |img| {
        assert r[p] == img[p];
      } else if p < |img| + b {
        assert r[p] == Fill(b)[p - |img|];
      } else if p < |img| + b + |t| {
        assert r[p] == t[p - |img| - b];
      } else {
        assert r[p] == Fill(k)[p - |img| - b - |t|];
      }
    }
    assert Image(b, t, i + 1) == img + Fill(b) + t;
  }

  lemma PrefixJoin(s: seq<Byte>, p: nat, a: nat, c: nat)
    requires p + a + c <= |s|
    ensures s[..p + a + c] == s[..p] + s[p..p + a] + s[p + a..p + a + c]
  {
  }

  /** A block whose data or trailer part differs from the reference differs from the reference block. */
  lemma BlockDiffers(s: seq<Byte>, p: nat, b: nat, t: seq<Byte>)
    requires p + b + |t| <= |s|
    requires s[p..p + b] != Fill(b) || s[p + b..p + b + |t|] != t
    ensures s[p..p + b + |t|] != Fill(b) + t
  {
    var blk, ref := s[p..p + b + |t|], Fill(b) + t;
    assert s[p..p + b] == blk[..b] && s[p + b..p + b + |t|] == blk[b..];
    assert ref[..b] == Fill(b) && ref[b..] == t;
  }

  /** `fill_data()`: builds the source image in a stack buffer and stores all of it through the layout. */
  method FillData(d: Domain, value: U64, numBlocks: U32, layout: Layout.ListLayout, mem: array<Byte>)
    requires ValueEncoded(d)
    requires Times(numBlocks, DomainBlockSize(d) + DomainSigSize(d)) < U32Max
    requires Layout.Reaches(layout.sgl, 0, DataSize(d, numBlocks), mem.Length)
    modifies mem
    ensures var img := Image(DomainBlockSize(d), ValueTrailer(d, value), numBlocks);
      |img| == DataSize(d, numBlocks)
      && mem[..] == Layout.ListSet(old(mem[..]), layout.sgl, 0, img, 0, |img|)
  {
    var size := DataSize(d, numBlocks);
    var t := ValueTrailer(d, value);
    ImageLength(DomainBlockSize(d), t, numBlocks);
    var srcBuf := new Byte[size](_ => DataByte);
    StoreBlocks(srcBuf, DomainBlockSize(d), t, numBlocks);
    layout.SetData(mem, srcBuf[..], size);
  }

  /**
   * The loop of `fill_data` over a buffer of 0xA5 bytes: the pointer skips
   * the `b` data bytes of each block and stores the trailer `t` after them.
   */
  method StoreBlocks(srcBuf: array<Byte>, b: nat, t: seq<Byte>, numBlocks: nat)
    requires srcBuf[..] == Fill(Times(numBlocks, b + |t|))
    modifies srcBuf
    ensures srcBuf[..] == Image(b, t, numBlocks)
  {
    var s, size := |t|, srcBuf.Length;
    assert srcBuf[..] == Image(b, t, 0) + Fill(size - 0);
    var pos, i := 0, 0;
    while i < numBlocks
      invariant i <= numBlocks && pos == Times(i, b + s) && pos <= size
      invariant srcBuf[..] == Image(b, t, i) + Fill(size - pos)
    {
      TimesGrow(i, numBlocks, b + s);
      ImageLength(b, t, i);
      FillStep(b, t, i, pos, size);
      pos := pos + b;
      Put(srcBuf, pos, t);
      pos := pos + s;
      i := i + 1;
    }
    assert pos == size;
  }

  /**
   * `check_data()`: gathers `dst_data_size` bytes from the destination
   * layout into a stack buffer whose earlier contents are `stale`, then
   * compares its blocks with the reference. The reference trailer is the
   * source encoder's trailer of the destination value, followed by `junk`,
   * the bytes of the destination-sized stack buffer it does not write.
   * The result is whether every block matched and how many did before the
   * first mismatch.
   */
  method CheckData(src: Domain, dst: Domain, dstValue: U64, numBlocks: U32,
                   layout: Layout.ListLayout, mem: seq<Byte>, stale: seq<Byte>, junk: seq<Byte>)
    returns (ok: bool, passed: nat)
    requires ValueEncoded(src)
    requires DomainSigSize(src) <= DomainSigSize(dst) && |junk| == DomainSigSize(dst) - DomainSigSize(src)
    requires Times(numBlocks, DomainBlockSize(dst) + DomainSigSize(dst)) < U32Max
    requires |stale| == DataSize(dst, numBlocks)
    requires Layout.Reaches(layout.sgl, 0, |stale|, |mem|)
    ensures var got := Layout.ListGet(stale, mem, layout.sgl, 0, 0, |stale|);
      Verdict(got, DomainBlockSize(dst), ValueTrailer(src, dstValue) + junk, numBlocks, ok, passed)
  {
    var size := DataSize(dst, numBlocks);
    var refSig := ValueTrailer(src, dstValue) + junk;
    var dstBuf := new Byte[size](k requires 0 <= k < size => stale[k]);
    assert dstBuf[..] == stale;
    layout.GetData(mem, dstBuf, size);
    ok, passed := CompareBlocks(dstBuf, DomainBlockSize(dst), refSig, numBlocks);
  }

  /**
   * What `check_data` concludes about the gathered buffer `got`: it passes
   * exactly when `got` is the reference image, `passed` blocks matched
   * before the first mismatch, and block `passed` is the one that did not.
   */
  predicate Verdict(got: seq<Byte>, b: nat, ref: seq<Byte>, n: nat, ok: bool, passed: nat)
  {
    && (ok <==> got == Image(b, ref, n))
    && passed <= n && (ok <==> passed == n)
    && Times(passed, b + |ref|) <= |got| && got[..Times(passed, b + |ref|)] == Image(b, ref, passed)
    && (!ok ==> Times(passed, b + |ref|) + b + |ref| <= |got|
                && got[Times(passed, b + |ref|)..Times(passed, b + |ref|) + b + |ref|] != Fill(b) + ref)
  }

  /**
   * The loop of `check_data`: block by block, the `b` data bytes against
   * 0xA5 and then the trailer against `refSig`, stopping at the first
   * mismatch.
   */
  method CompareBlocks(dstBuf: array<Byte>, b: nat, refSig: seq<Byte>, numBlocks: nat) returns (ok: bool, passed: nat)
    requires dstBuf.Length == Times(numBlocks, b + |refSig|)
    ensures Verdict(dstBuf[..], b, refSig, numBlocks, ok, passed)
  {
    var s := |refSig|;
    var refBlock := Fill(b);
    ghost var got := dstBuf[..];
    ImageLength(b, refSig, numBlocks);
    var pos, i := 0, 0;
    while i < numBlocks
      invariant i <= numBlocks && pos == Times(i, b + s) && pos <= |got|
      invariant got[..pos] == Image(b, refSig, i)
    {
      TimesGrow(i, numBlocks, b + s);
      if dstBuf[pos..pos + b] != refBlock || dstBuf[pos + b..pos + b + s] != refSig {
        BlockDiffers(got, pos, b, refSig);
        ImageMismatch(got, b, refSig, numBlocks, i);
        return false, i;
      }
      PrefixJoin(got, pos, b, s);
      pos := pos + b + s;
      i := i + 1;
    }
    assert got[..pos] == got;
    return true, numBlocks;
  }

  /** A buffer whose block `i` differs from the image's is not the image. */
  lemma ImageMismatch(got: seq<Byte>, b: nat, t: seq<Byte>, n: nat, i: nat)
    requires i < n && Times(i, b + |t|) + b + |t| <= |got|
    requires got[Times(i, b + |t|)..Times(i, b + |t|) + b + |t|] != Fill(b) + t
    ensures got != Image(b, t, n)
  {
    if got == Image(b, t, n) {
      ImageBlock(b, t, n, i);
    }
  }

  /**
   * The `basic` test when both sides have the same signature block and the
   * same value and the transfer hands the destination layout the bytes the
   * source layout stored (`got` gathered from the destination equals what
   * the source layout gathers after `fill_data`): the destination buffer is
   * `fill_data`'s buffer (whose length `ImageSize` gives), and so it is
   * exactly what `check_data` accepts.
   */
  lemma BasicPasses(d: Domain, value: U64, numBlocks: U32, srcSgl: seq<Layout.Sge>, srcMem: seq<Byte>,
                    stale: seq<Byte>, got: seq<Byte>)
    requires ValueEncoded(d)
    requires |stale| == |Image(DomainBlockSize(d), ValueTrailer(d, value), numBlocks)|
    requires Layout.Disjoint(srcSgl) && Layout.SumFrom(srcSgl, 0) == |stale|
    requires Layout.Reaches(srcSgl, 0, |stale|, |srcMem|)
    requires var img := Image(DomainBlockSize(d), ValueTrailer(d, value), numBlocks);
      got == Layout.ListGet(stale, Layout.ListSet(srcMem, srcSgl, 0, img, 0, |stale|), srcSgl, 0, 0, |stale|)
    ensures got == Image(DomainBlockSize(d), ValueTrailer(d, value) + [], numBlocks)
    ensures forall ok, passed :: Verdict(got, DomainBlockSize(d), ValueTrailer(d, value) + [], numBlocks, ok, passed) ==> ok
  {
    var t := ValueTrailer(d, value);
    assert t + [] == t;
    StoredThenGathered(stale, srcMem, srcSgl, Image(DomainBlockSize(d), t, numBlocks));
  }

  /** Gathering every byte a list layout stored gives back the stored buffer. */
  lemma StoredThenGathered(stale: seq<Byte>, m: seq<Byte>, sgl: seq<Layout.Sge>, img: seq<Byte>)
    requires |stale| == |img| && Layout.Disjoint(sgl) && Layout.SumFrom(sgl, 0) == |img|
    requires Layout.Reaches(sgl, 0, |img|, |m|)
    ensures Layout.ListGet(stale, Layout.ListSet(m, sgl, 0, img, 0, |img|), sgl, 0, 0, |img|) == img
  {
    StoredPrefix(stale, m, sgl, img, |img|);
    WholeSlice(Layout.ListGet(stale, Layout.ListSet(m, sgl, 0, img, 0, |img|), sgl, 0, 0, |img|), img);
  }

  /** `Layout.SetThenGet` from the first entry and the start of both buffers. */
  lemma StoredPrefix(o: seq<Byte>, m: seq<Byte>, sgl: seq<Layout.Sge>, buf: seq<Byte>, n: nat)
    requires n <= |buf| && n <= |o| && Layout.Disjoint(sgl) && Layout.Reaches(sgl, 0, n, |m|)
    ensures var k := Layout.Min(n, Layout.SumFrom(sgl, 0));
      var res := Layout.ListGet(o, Layout.ListSet(m, sgl, 0, buf, 0, n), sgl, 0, 0, n);
      res[..k] == buf[..k] && res[k..] == o[k..]
  {
    Layout.SetThenGet(o, m, sgl, 0, buf, 0, 0, n);
  }

  lemma WholeSlice(r: seq<Byte>, s: seq<Byte>)
    requires |r| == |s| && r[..|s|] == s[..|s|]
    ensures r == s
  {
    assert r == r[..|s|] && s == s[..|s|];
  }
}
