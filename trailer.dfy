/**
 * The signature trailers that the `*_sig::sig_to_buf` encoders store after
 * a data block: nothing for `sig_none`, the big-endian CRC for `crc32_sig`
 * and `crc64_sig`, the 8-byte T10-DIF protection-information tuple (guard,
 * application tag, reference tag) for `t10dif_sig`, and the 16b, 32b and
 * 64b-guard protection-information formats of the NVM Command Set for
 * `nvmedif_sig`.
 */
module Trailer {
  import opened Bytes

  /** `MLX5DV_SIG_NVMEDIF_FORMAT_16/32/64`: the width of the NVMe guard. */
  datatype NvmeFormat = Format16 | Format32 | Format64

  /**
   * The template arguments of one encoder instance. `nvmeRefRemap` stands
   * for the `MLX5DV_SIG_NVMEDIF_FLAG_REF_REMAP` bit of `Flags`, the only one
   * the encoder looks at.
   */
  datatype Sig =
    | SigNone
    | Crc32Sig(crc32: U32)
    | Crc64Sig(crc64: U64)
    | T10DifSig(guard: U16, appTag: U16, refTag: U32, refRemap: bool)
    | NvmeDifSig(nvmeGuard: U64, storageTag: U64, nvmeRefTag: U64, nvmeAppTag: U16,
                 format: NvmeFormat, sts: Byte, nvmeRefRemap: bool)

  /** The `static_assert` on the storage-tag size of `nvmedif_sig`. */
  predicate ValidStorageTagSize(format: NvmeFormat, sts: nat)
  {
    match format
    case Format16 => sts <= 32
    case Format32 => 16 <= sts <= 64
    case Format64 => sts <= 48
  }

  /** Encoder instances that compile. */
  predicate ValidSig(s: Sig)
  {
    s.NvmeDifSig? ==> ValidStorageTagSize(s.format, s.sts)
  }

  function GuardSize(format: NvmeFormat): nat
  {
    match format
    case Format16 => 2
    case Format32 => 4
    case Format64 => 8
  }

  /** Bits of the space the storage tag and the reference tag share. */
  function SpaceBits(format: NvmeFormat): nat
  {
    match format
    case Format16 => 32
    case Format32 => 80
    case Format64 => 48
  }

  /** `ref_tag_size`: the bits of the space left to the reference tag. */
  function RefTagSize(format: NvmeFormat, sts: nat): nat
    requires ValidStorageTagSize(format, sts)
  {
    SpaceBits(format) - sts
  }

  /** Bytes `sig_to_buf` stores. */
  function TrailerSize(s: Sig): nat
  {
    match s
    case SigNone => 0
    case Crc32Sig(_) => 4
    case Crc64Sig(_) => 8
    case T10DifSig(_, _, _, _) => 8
    case NvmeDifSig(_, _, _, _, format, _, _) => GuardSize(format) + 2 + SpaceBits(format) / 8
  }

  /** The T10-DIF reference tag of block `blockIndex`: a `uint32_t` sum under remapping. */
  function T10RefTag(refTag: U32, refRemap: bool, blockIndex: U32): U32
  {
    if refRemap then (refTag + blockIndex) % 0x1_0000_0000 else refTag
  }

  /** The NVMe reference tag of block `blockIndex`: a `uint64_t` sum under remapping. */
  function NvmeRefTag(refTag: U64, refRemap: bool, blockIndex: U32): U64
  {
    if refRemap then (refTag + blockIndex) % 0x1_0000_0000_0000_0000 else refTag
  }

  /**
   * The storage-and-reference-tag space as the formats define it: the low
   * `sts` bits of the storage tag above the low `rts` bits of the
   * reference tag (the source's `|` of two disjoint bit ranges is a sum).
   */
  function StorageRefSpace(storageTag: nat, refTag: nat, sts: nat, rts: nat): nat
  {
    Shl(Low(storageTag, sts), rts) + Low(refTag, rts)
  }

  /** The storage/ref bytes of `nvmedif_sig::sig_to_buf`, as each format's branch stores them. */
  function SpaceBytes(format: NvmeFormat, storageTag: U64, refTag: U64, sts: nat): (r: seq<Byte>)
    requires ValidStorageTagSize(format, sts)
    ensures |r| == SpaceBits(format) / 8
  {
    var rts := RefTagSize(format, sts);
    match format
    case Format16 =>
      BE(if sts == 0 then Low(refTag, rts) else StorageRefSpace(storageTag, refTag, sts, rts), 4)
    case Format32 =>
      StorageTagTop(storageTag, sts)
        + BE(if sts == 16 then Low(refTag, rts) else StorageRefSpace(storageTag, refTag, sts - 16, rts), 8)
    case Format64 =>
      SixBytes(if sts == 0 then Low(refTag, rts) else StorageRefSpace(storageTag, refTag, sts, rts))
  }

  /** The two single-byte stores of the 32b-guard format: storage-tag bits `sts - 1` down to `sts - 16`. */
  function StorageTagTop(storageTag: U64, sts: nat): (r: seq<Byte>)
    requires 16 <= sts
    ensures |r| == 2
  {
    [ByteAt(storageTag, sts - 8), ByteAt(storageTag, sts - 16)]
  }

  /** The six single-byte stores of the 64b-guard format: byte `j` is `(space >> (40 - 8 * j)) & 0xff`. */
  function SixBytes(space: nat): (r: seq<Byte>)
    ensures |r| == 6
  {
    seq(6, j requires 0 <= j < 6 => ByteAt(space, 40 - 8 * j))
  }

  function NvmeTrailer(format: NvmeFormat, guard: U64, storageTag: U64, refTag: U64, appTag: U16, sts: nat): (r: seq<Byte>)
    requires ValidStorageTagSize(format, sts)
    ensures |r| == GuardSize(format) + 2 + SpaceBits(format) / 8
  {
    BE(guard, GuardSize(format)) + BE(appTag, 2) + SpaceBytes(format, storageTag, refTag, sts)
  }

  /** The bytes `sig_to_buf(buf, blockIndex)` stores at `buf`. */
  function Trailer(s: Sig, blockIndex: U32): (r: seq<Byte>)
    requires ValidSig(s)
    ensures |r| == TrailerSize(s)
  {
    match s
    case SigNone => []
    case Crc32Sig(crc) => BE(crc, 4)
    case Crc64Sig(crc) => BE(crc, 8)
    case T10DifSig(guard, appTag, refTag, refRemap) =>
      BE(guard, 2) + BE(appTag, 2) + BE(T10RefTag(refTag, refRemap, blockIndex), 4)
    case NvmeDifSig(guard, storageTag, refTag, appTag, format, sts, refRemap) =>
      NvmeTrailer(format, guard, storageTag, NvmeRefTag(refTag, refRemap, blockIndex), appTag, sts)
  }

  // ---------------------------------------------------------------------
  // What the trailers hold.
  // ---------------------------------------------------------------------

  /** CRC trailers are the big-endian CRC, the same for every block; `sig_none` stores nothing. */
  lemma CrcTrailers(crc32: U32, crc64: U64, i: U32, j: U32)
    ensures Trailer(SigNone, i) == []
    ensures Trailer(Crc32Sig(crc32), i) == Trailer(Crc32Sig(crc32), j)
    ensures Trailer(Crc64Sig(crc64), i) == Trailer(Crc64Sig(crc64), j)
    ensures FromBE(Trailer(Crc32Sig(crc32), i)) == crc32
    ensures FromBE(Trailer(Crc64Sig(crc64), i)) == crc64
  {
    Pow2Constants();
    FromBEOfSmall(crc32, 4);
    FromBEOfSmall(crc64, 8);
  }

  /** A T10-DIF trailer reads back as guard (bytes 0-1), application tag (2-3) and reference tag (4-7). */
  lemma T10DifFields(guard: U16, appTag: U16, refTag: U32, refRemap: bool, blockIndex: U32)
    ensures var t := Trailer(T10DifSig(guard, appTag, refTag, refRemap), blockIndex);
      |t| == 8 && FromBE(t[0..2]) == guard && FromBE(t[2..4]) == appTag
      && FromBE(t[4..8]) == T10RefTag(refTag, refRemap, blockIndex)
  {
    var t := Trailer(T10DifSig(guard, appTag, refTag, refRemap), blockIndex);
    var ref := T10RefTag(refTag, refRemap, blockIndex);
    Slice3(BE(guard, 2), BE(appTag, 2), BE(ref, 4));
    assert t[4..8] == t[4..];
    Pow2To32();
    FromBEOfSmall(guard, 2);
    FromBEOfSmall(appTag, 2);
    FromBEOfSmall(ref, 4);
  }

  /** Under remapping block 0 carries the template's tag and each next block one more, modulo `2^32`. */
  lemma T10RemapStep(refTag: U32, blockIndex: U32)
    requires blockIndex + 1 < 0x1_0000_0000
    ensures T10RefTag(refTag, true, 0) == refTag
    ensures T10RefTag(refTag, true, blockIndex + 1) == (T10RefTag(refTag, true, blockIndex) + 1) % 0x1_0000_0000
  {
  }

  /** Without remapping the trailer does not depend on the block. */
  lemma NoRemapIgnoresBlock(s: Sig, i: U32, j: U32)
    requires ValidSig(s)
    requires s.T10DifSig? ==> !s.refRemap
    requires s.NvmeDifSig? ==> !s.nvmeRefRemap
    ensures Trailer(s, i) == Trailer(s, j)
  {
  }

  /** The storage tag and the reference tag read back from their shared space. */
  lemma StorageRefSpaceFields(storageTag: nat, refTag: nat, sts: nat, rts: nat)
    ensures var space := StorageRefSpace(storageTag, refTag, sts, rts);
      Shr(space, rts) == Low(storageTag, sts) && Low(space, rts) == Low(refTag, rts)
      && space < Pow2(sts + rts)
  {
    var hi, lo := Low(storageTag, sts), Low(refTag, rts);
    ShiftOr(hi, lo, rts);
    ShiftOrBound(hi, lo, sts, rts);
  }

  /** With `sts == 0` the storage tag takes no bits and the space is the masked reference tag. */
  lemma EmptyStorageTag(storageTag: nat, refTag: nat, rts: nat)
    ensures StorageRefSpace(storageTag, refTag, 0, rts) == Low(refTag, rts)
  {
    LowZero(storageTag);
  }

  /** Every format stores the space big-endian in `SpaceBits(format) / 8` bytes. */
  lemma SpaceBytesAreSpace(format: NvmeFormat, storageTag: U64, refTag: U64, sts: nat)
    requires ValidStorageTagSize(format, sts)
    ensures SpaceBytes(format, storageTag, refTag, sts)
        == BE(StorageRefSpace(storageTag, refTag, sts, RefTagSize(format, sts)), SpaceBits(format) / 8)
  {
    var rts := RefTagSize(format, sts);
    if sts == 0 {
      EmptyStorageTag(storageTag, refTag, rts);
    }
    match format
    case Format16 =>
    case Format32 =>
      Space32(storageTag, refTag, sts);
    case Format64 =>
      SixBytesAreBE(StorageRefSpace(storageTag, refTag, sts, rts));
  }

  /** The six single-byte stores are the 6-byte big-endian form. */
  lemma SixBytesAreBE(space: nat)
    ensures SixBytes(space) == BE(space, 6)
  {
    forall j | 0 <= j < 6
      ensures SixBytes(space)[j] == BE(space, 6)[j]
    {
      BEAt(space, 6, j);
    }
  }

  /** The 32b-guard format: the two storage-tag bytes and the 64-bit store together form the 80-bit space. */
  lemma Space32(storageTag: U64, refTag: U64, sts: nat)
    requires 16 <= sts <= 64
    ensures SpaceBytes(Format32, storageTag, refTag, sts)
      == BE(StorageRefSpace(storageTag, refTag, sts, 80 - sts), 10)
  {
    var rts := 80 - sts;
    if sts == 16 {
      EmptyStorageTag(storageTag, refTag, rts);
    }
    StorageTagTopIsBE(storageTag, sts);
    SplitSpace(storageTag, refTag, sts - 16, 2, 8, rts);
  }

  /**
   * A space of `a + 8 * tb` storage-tag bits and `rts` reference-tag bits,
   * stored as `tb` bytes of `storageTag >> a` followed by the `kb`-byte
   * space of the low `a` storage-tag bits, is the `tb + kb`-byte space.
   */
  lemma SplitSpace(storageTag: nat, refTag: nat, a: nat, tb: nat, kb: nat, rts: nat)
    requires a + rts == 8 * kb
    ensures BE(Shr(storageTag, a), tb) + BE(StorageRefSpace(storageTag, refTag, a, rts), kb)
      == BE(StorageRefSpace(storageTag, refTag, a + 8 * tb, rts), tb + kb)
  {
    var top := Shr(storageTag, a);
    var low := StorageRefSpace(storageTag, refTag, a, rts);
    var k, t := 8 * kb, 8 * tb;
    assert low < Pow2(k) by {
      StorageRefSpaceFields(storageTag, refTag, a, rts);
    }
    calc {
      BE(top, tb) + BE(low, kb);
      { BEConcat(top, low, tb, kb); }
      BE(Shl(top, k) + low, tb + kb);
      { BEMod(Shl(top, k) + low, tb + kb); assert 8 * (tb + kb) == k + t; }
      BE(Low(Shl(top, k) + low, k + t), tb + kb);
      { ShiftOrLow(top, low, k, t); }
      BE(Shl(Low(top, t), k) + low, tb + kb);
      { Glue(storageTag, refTag, a, t, rts); }
      BE(StorageRefSpace(storageTag, refTag, a + t, rts), tb + kb);
    }
  }

  /** The two single-byte stores are the 2-byte form of the storage tag shifted right by `sts - 16`. */
  lemma StorageTagTopIsBE(storageTag: U64, sts: nat)
    requires 16 <= sts
    ensures StorageTagTop(storageTag, sts) == BE(Shr(storageTag, sts - 16), 2)
  {
    var top := Shr(storageTag, sts - 16);
    BEAt(top, 2, 0);
    BEAt(top, 2, 1);
    ShrShr(storageTag, sts - 16, 8);
  }

  /** The top `t` storage-tag bits, put back above the low `a` bits, complete the `a + t`-bit storage tag. */
  lemma Glue(storageTag: nat, refTag: nat, a: nat, t: nat, rts: nat)
    ensures Shl(Low(Shr(storageTag, a), t), a + rts) + StorageRefSpace(storageTag, refTag, a, rts)
      == StorageRefSpace(storageTag, refTag, a + t, rts)
  {
    var hi, lo := Low(Shr(storageTag, a), t), Low(storageTag, a);
    LowSplit(storageTag, a, t);
    ShlAdd(Shl(hi, a), lo, rts);
    ShlShl(hi, a, rts);
  }

  /**
   * An NVMe trailer is 8 bytes in the 16b format and 16 in the others, and
   * reads back as the guard (its low `8 * GuardSize` bits), the application
   * tag, and a space whose bits above `rts` are the low `sts` bits of the
   * storage tag and whose low `rts` bits are those of the (remapped)
   * reference tag.
   */
  lemma NvmeDifFields(s: Sig, blockIndex: U32)
    requires s.NvmeDifSig? && ValidSig(s)
    ensures var t := Trailer(s, blockIndex);
      var g := GuardSize(s.format);
      var rts := RefTagSize(s.format, s.sts);
      var space := FromBE(t[g + 2..]);
      && |t| == (if s.format == Format16 then 8 else 16)
      && FromBE(t[..g]) == Low(s.nvmeGuard, 8 * g)
      && FromBE(t[g..g + 2]) == s.nvmeAppTag
      && Shr(space, rts) == Low(s.storageTag, s.sts)
      && Low(space, rts) == Low(NvmeRefTag(s.nvmeRefTag, s.nvmeRefRemap, blockIndex), rts)
  {
    var ref := NvmeRefTag(s.nvmeRefTag, s.nvmeRefRemap, blockIndex);
    NvmeTrailerParts(s.format, s.nvmeGuard, s.storageTag, ref, s.nvmeAppTag, s.sts);
    StorageRefSpaceFields(s.storageTag, ref, s.sts, RefTagSize(s.format, s.sts));
  }

  /** The three parts of an NVMe trailer, read back. */
  lemma NvmeTrailerParts(format: NvmeFormat, guard: U64, storageTag: U64, refTag: U64, appTag: U16, sts: nat)
    requires ValidStorageTagSize(format, sts)
    ensures var t := NvmeTrailer(format, guard, storageTag, refTag, appTag, sts);
      var g := GuardSize(format);
      && FromBE(t[..g]) == Low(guard, 8 * g)
      && FromBE(t[g..g + 2]) == appTag
      && FromBE(t[g + 2..]) == StorageRefSpace(storageTag, refTag, sts, RefTagSize(format, sts))
  {
    var g := GuardSize(format);
    var n := SpaceBits(format) / 8;
    var rts := RefTagSize(format, sts);
    var v := StorageRefSpace(storageTag, refTag, sts, rts);
    SpaceBytesAreSpace(format, storageTag, refTag, sts);
    Slice3(BE(guard, g), BE(appTag, 2), BE(v, n));
    FromBEOfBE(guard, g);
    AppTagRoundTrip(appTag);
    StorageRefSpaceFields(storageTag, refTag, sts, rts);
    assert 8 * n == sts + rts;
    FromBEOfSmall(v, n);
  }

  lemma AppTagRoundTrip(appTag: U16)
    ensures FromBE(BE(appTag, 2)) == appTag
  {
    Pow2To32();
    FromBEOfSmall(appTag, 2);
  }

  // ---------------------------------------------------------------------
  // The encoders, storing into a caller buffer.
  // ---------------------------------------------------------------------

  /** `sig_to_buf(buf + off, blockIndex)`. */
  method SigToBuf(s: Sig, buf: array<Byte>, off: nat, blockIndex: U32)
    requires ValidSig(s) && off + TrailerSize(s) <= buf.Length
    modifies buf
    ensures buf[..] == Write(old(buf[..]), off, Trailer(s, blockIndex))
  {
    match s
    case SigNone =>
      WriteEmpty(buf[..], off);
    case Crc32Sig(crc) =>
      Put(buf, off, BE(crc, 4));
    case Crc64Sig(crc) =>
      Put(buf, off, BE(crc, 8));
    case T10DifSig(guard, appTag, refTag, refRemap) =>
      var ref: U32 := if refRemap then (refTag + blockIndex) % 0x1_0000_0000 else refTag;
      Put(buf, off, BE(guard, 2) + BE(appTag, 2) + BE(ref, 4));
    case NvmeDifSig(_, _, _, _, _, _, _) =>
      NvmeDifSigToBuf(s, buf, off, blockIndex);
  }

  /** `nvmedif_sig::sig_to_buf`: the guard, the application tag and the space, at a running index. */
  method NvmeDifSigToBuf(s: Sig, buf: array<Byte>, off: nat, blockIndex: U32)
    requires s.NvmeDifSig? && ValidSig(s) && off + TrailerSize(s) <= buf.Length
    modifies buf
    ensures buf[..] == Write(old(buf[..]), off, Trailer(s, blockIndex))
  {
    ghost var m0 := buf[..];
    var refTag: U64 := if s.nvmeRefRemap then (s.nvmeRefTag + blockIndex) % 0x1_0000_0000_0000_0000 else s.nvmeRefTag;
    var st, sts := s.storageTag, s.sts;
    var i := off;
    var rts: nat;
    var guardBytes: seq<Byte>;
    match s.format {
      case Format16 =>
        guardBytes := BE(s.nvmeGuard, 2);
        rts := 32 - sts;
      case Format32 =>
        guardBytes := BE(s.nvmeGuard, 4);
        rts := 80 - sts;
      case Format64 =>
        guardBytes := BE(s.nvmeGuard, 8);
        rts := 48 - sts;
    }
    assert guardBytes == BE(s.nvmeGuard, GuardSize(s.format)) && rts == RefTagSize(s.format, sts);
    Put(buf, i, guardBytes);
    i := i + |guardBytes|;
    ghost var done := guardBytes;

    var appBytes := BE(s.nvmeAppTag, 2);
    Put(buf, i, appBytes);
    WriteConcat(m0, off, done, appBytes);
    done := done + appBytes;
    i := i + 2;

    var field: seq<Byte>;
    match s.format {
      case Format16 =>
        field := BE(if sts == 0 then Low(refTag, rts) else StorageRefSpace(st, refTag, sts, rts), 4);
      case Format32 =>
        field := StorageTagTop(st, sts)
          + BE(if sts == 16 then Low(refTag, rts) else StorageRefSpace(st, refTag, sts - 16, rts), 8);
      case Format64 =>
        var space := if sts == 0 then Low(refTag, rts) else StorageRefSpace(st, refTag, sts, rts);
        field := SixBytes(space);
    }
    assert field == SpaceBytes(s.format, st, refTag, sts);
    Put(buf, i, field);
    WriteConcat(m0, off, done, field);
    done := done + field;
    assert refTag == NvmeRefTag(s.nvmeRefTag, s.nvmeRefRemap, blockIndex);
    assert done == Trailer(s, blockIndex);
  }
}
