/**
 * The signature-domain descriptors: the signature kinds a block domain can
 * carry and their `sig_size`, the block sizes, the device capability checks
 * `is_supported` composed from the kind up to the signature-block setter,
 * and `mkey_sig_block::adjust_length`, which turns a memory-domain length
 * into the wire-domain length.
 *
 * The device capability bitmasks are sets of capability flags: a bit is set
 * iff its flag is in the set.
 */
module SigDomain {
  import opened Bytes
  import Trailer

  /** `mkey_sig_t10dif_crc` / `mkey_sig_t10dif_csum`: the block guard type. */
  datatype T10DifBg = BgCrc | BgCsum

  /** `mkey_sig_crc_type_crc32` / `_crc32c` / `_crc64xp10`. */
  datatype CrcType = CrcIeee | Crc32c | Crc64Xp10

  /** The `MLX5DV_SIG_PROT_CAP_*` bits of `sig_caps.block_prot`. */
  datatype BlockProt = ProtT10Dif | ProtCrc | ProtNvmeDif

  /** `mkey_block_size_512` ... `mkey_block_size_4160`; each has its own `MLX5DV_BLOCK_SIZE_CAP_*` bit. */
  datatype BlockSize = Block512 | Block520 | Block4048 | Block4096 | Block4160

  /** The capability fields of `mlx5dv_context` that `is_supported` reads. */
  datatype Caps = Caps(
    signatureOffload: bool,        // MLX5DV_CONTEXT_MASK_SIGNATURE_OFFLOAD in comp_mask
    blockSizes: set<BlockSize>,    // sig_caps.block_size
    crcTypes: set<CrcType>,        // sig_caps.crc_type
    t10difBg: set<T10DifBg>,       // sig_caps.t10dif_bg
    blockProt: set<BlockProt>)     // sig_caps.block_prot

  /** The signature descriptors a block domain can carry. */
  datatype SigKind =
    | T10DifType1(bg: T10DifBg)
    | T10DifType3(bg: T10DifBg)
    | Crc32Kind(crcType: CrcType)
    | Crc64Kind(crcType: CrcType)
    | NvmeDifKind(format: Trailer.NvmeFormat)

  /** `mkey_sig_block_domain<Sig, BlockSize>`, or `mkey_sig_block_domain_none`. */
  datatype Domain = NoDomain | BlockDomain(sig: SigKind, blockSize: BlockSize)

  /** `mkey_sig_block<MemDomain, WireDomain, CheckMask, Flags, CopyMask>`. */
  datatype SigBlock = SigBlock(mem: Domain, wire: Domain, checkMask: Byte, flags: U16, copyMask: Byte)

  /** A signature block with the template's default masks and flags. */
  function DefaultSigBlock(mem: Domain, wire: Domain): SigBlock
  {
    SigBlock(mem, wire, 0xFF, 0, 0xFF)
  }

  /** `mkey_sig_block_none`. */
  const SigBlockNone := DefaultSigBlock(NoDomain, NoDomain)

  function BlockBytes(b: BlockSize): nat
  {
    match b
    case Block512 => 512
    case Block520 => 520
    case Block4048 => 4048
    case Block4096 => 4096
    case Block4160 => 4160
  }

  /** `Sig::sig_size`. */
  function SigSize(k: SigKind): nat
  {
    match k
    case T10DifType1(_) => 8
    case T10DifType3(_) => 8
    case Crc32Kind(_) => 4
    case Crc64Kind(_) => 8
    case NvmeDifKind(format) => if format == Trailer.Format16 then 8 else 16
  }

  /** `BlockSizeType::block_size`; the none domain uses `mkey_block_size_512`. */
  function DomainBlockSize(d: Domain): nat
  {
    match d
    case NoDomain => 512
    case BlockDomain(_, b) => BlockBytes(b)
  }

  /** `SigType::sig_size`; the none domain's `mkey_sig_none` has size 0. */
  function DomainSigSize(d: Domain): nat
  {
    match d
    case NoDomain => 0
    case BlockDomain(k, _) => SigSize(k)
  }

  /** `Sig::is_supported`. */
  predicate SigSupported(k: SigKind, caps: Caps)
  {
    match k
    case T10DifType1(bg) => bg in caps.t10difBg && ProtT10Dif in caps.blockProt
    case T10DifType3(bg) => bg in caps.t10difBg && ProtT10Dif in caps.blockProt
    case Crc32Kind(ct) => ct in caps.crcTypes && ProtCrc in caps.blockProt
    case Crc64Kind(ct) => ct in caps.crcTypes && ProtCrc in caps.blockProt
    case NvmeDifKind(_) => ProtNvmeDif in caps.blockProt
  }

  /** `mkey_sig_block_domain::is_supported` and `mkey_sig_block_domain_none::is_supported`. */
  predicate DomainSupported(d: Domain, caps: Caps)
  {
    match d
    case NoDomain => true
    case BlockDomain(k, b) => b in caps.blockSizes && SigSupported(k, caps)
  }

  /** `mkey_sig_block::is_supported`. */
  predicate SigBlockSupported(sb: SigBlock, caps: Caps)
  {
    caps.signatureOffload && DomainSupported(sb.mem, caps) && DomainSupported(sb.wire, caps)
  }

  /**
   * `mkey_sig_block::adjust_length` on a `size_t`: strip one memory-domain
   * signature per whole memory block, then add one wire-domain signature per
   * whole wire block. Only the final addition can wrap.
   */
  function AdjustLength(sb: SigBlock, length: U64): (r: U64)
  {
    var memBlock := DomainBlockSize(sb.mem) + DomainSigSize(sb.mem);
    var memNumBlocks := length / memBlock;
    var dataLength := length - StrippedSig(memNumBlocks, DomainSigSize(sb.mem), memBlock, length);
    var wireNumBlocks := dataLength / DomainBlockSize(sb.wire);
    (dataLength + wireNumBlocks * DomainSigSize(sb.wire)) % SizeMax
  }

  /** `mem_num_blocks * sig_size`, which never exceeds the length it was taken from. */
  function StrippedSig(numBlocks: nat, sigSize: nat, block: nat, length: nat): (r: nat)
    requires sigSize <= block && block > 0 && numBlocks == length / block
    ensures r <= length
  {
    MulLe(numBlocks, sigSize, block);
    numBlocks * sigSize
  }

  lemma MulLe(n: nat, a: nat, b: nat)
    requires a <= b
    ensures n * a <= n * b
  {
    assert n * b == n * a + n * (b - a);
  }

  // ---------------------------------------------------------------------
  // Properties.
  // ---------------------------------------------------------------------

  /** With no signature on either side, the length is unchanged. */
  lemma AdjustNoSigIdentity(sb: SigBlock, length: U64)
    requires DomainSigSize(sb.mem) == 0 && DomainSigSize(sb.wire) == 0
    ensures AdjustLength(sb, length) == length
  {
  }

  /** `mkey_sig_block_none` leaves every length unchanged. */
  lemma SigBlockNoneIdentity(length: U64)
    ensures AdjustLength(SigBlockNone, length) == length
  {
    AdjustNoSigIdentity(SigBlockNone, length);
  }

  /**
   * `n` whole memory blocks of `Bm + Sm` bytes become `n` whole wire blocks
   * of `Bm + Sw` bytes when both domains use the same block size.
   */
  lemma AdjustWholeBlocks(sb: SigBlock, n: nat)
    requires DomainBlockSize(sb.mem) == DomainBlockSize(sb.wire)
    requires n * (DomainBlockSize(sb.mem) + DomainSigSize(sb.mem)) < SizeMax
    requires n * (DomainBlockSize(sb.wire) + DomainSigSize(sb.wire)) < SizeMax
    ensures AdjustLength(sb, n * (DomainBlockSize(sb.mem) + DomainSigSize(sb.mem)))
      == n * (DomainBlockSize(sb.wire) + DomainSigSize(sb.wire))
  {
    WholeBlocks(n, DomainBlockSize(sb.mem), DomainSigSize(sb.mem), DomainSigSize(sb.wire));
  }

  lemma WholeBlocks(n: nat, b: nat, sm: nat, sw: nat)
    requires b > 0 && n * (b + sw) < SizeMax
    ensures var m := n * (b + sm) / (b + sm);
      m == n && n * (b + sm) - m * sm == n * b
      && (n * b + n * b / b * sw) % SizeMax == n * (b + sw)
  {
    DivMod(n, b + sm, 0);
    DivMod(n, b, 0);
    assert n * b + n * sw == n * (b + sw);
    DivMod(0, SizeMax, n * (b + sw));
  }

  /** Adjusting from memory to wire and back gives the whole-block length back. */
  lemma AdjustRoundTrip(sb: SigBlock, n: nat)
    requires DomainBlockSize(sb.mem) == DomainBlockSize(sb.wire)
    requires n * (DomainBlockSize(sb.mem) + DomainSigSize(sb.mem)) < SizeMax
    requires n * (DomainBlockSize(sb.wire) + DomainSigSize(sb.wire)) < SizeMax
    ensures var back := SigBlock(sb.wire, sb.mem, sb.checkMask, sb.flags, sb.copyMask);
      var l := n * (DomainBlockSize(sb.mem) + DomainSigSize(sb.mem));
      AdjustLength(back, AdjustLength(sb, l)) == l
  {
    var back := SigBlock(sb.wire, sb.mem, sb.checkMask, sb.flags, sb.copyMask);
    AdjustWholeBlocks(sb, n);
    AdjustWholeBlocks(back, n);
  }

  /** The capability record with nothing in it. */
  const NoCaps := Caps(false, {}, {}, {}, {})

  /** Every capability of either record. */
  function Join(a: Caps, b: Caps): Caps
  {
    Caps(a.signatureOffload || b.signatureOffload, a.blockSizes + b.blockSizes, a.crcTypes + b.crcTypes,
         a.t10difBg + b.t10difBg, a.blockProt + b.blockProt)
  }

  /** `caps` has every capability that `need` has. */
  predicate Grants(caps: Caps, need: Caps)
  {
    && (need.signatureOffload ==> caps.signatureOffload)
    && need.blockSizes <= caps.blockSizes && need.crcTypes <= caps.crcTypes
    && need.t10difBg <= caps.t10difBg && need.blockProt <= caps.blockProt
  }

  /**
   * The capabilities a descriptor kind asks for, as a record: its type bit
   * (the guard type of T10-DIF, the CRC type of CRC) and its protection bit.
   */
  function NeedsSig(k: SigKind): Caps
  {
    match k
    case T10DifType1(bg) => NoCaps.(t10difBg := {bg}, blockProt := {ProtT10Dif})
    case T10DifType3(bg) => NoCaps.(t10difBg := {bg}, blockProt := {ProtT10Dif})
    case Crc32Kind(ct) => NoCaps.(crcTypes := {ct}, blockProt := {ProtCrc})
    case Crc64Kind(ct) => NoCaps.(crcTypes := {ct}, blockProt := {ProtCrc})
    case NvmeDifKind(_) => NoCaps.(blockProt := {ProtNvmeDif})
  }

  /** The none domain asks for nothing; a block domain for its block size and its kind's capabilities. */
  function NeedsDomain(d: Domain): Caps
  {
    match d
    case NoDomain => NoCaps
    case BlockDomain(k, b) => Join(NoCaps.(blockSizes := {b}), NeedsSig(k))
  }

  /** A signature block asks for signature offload and for what both of its domains ask for. */
  function NeedsBlock(sb: SigBlock): Caps
  {
    Join(NoCaps.(signatureOffload := true), Join(NeedsDomain(sb.mem), NeedsDomain(sb.wire)))
  }

  lemma GrantsJoin(caps: Caps, a: Caps, b: Caps)
    ensures Grants(caps, Join(a, b)) <==> Grants(caps, a) && Grants(caps, b)
  {
  }

  /** A kind's check holds exactly when the device has what the kind asks for. */
  lemma {:induction false} SigNeeds(k: SigKind, caps: Caps)
    ensures SigSupported(k, caps) <==> Grants(caps, NeedsSig(k))
  {
    match k
    case T10DifType1(bg) =>
      assert {bg} <= caps.t10difBg <==> bg in caps.t10difBg;
    case T10DifType3(bg) =>
      assert {bg} <= caps.t10difBg <==> bg in caps.t10difBg;
    case Crc32Kind(ct) =>
      assert {ct} <= caps.crcTypes <==> ct in caps.crcTypes;
    case Crc64Kind(ct) =>
      assert {ct} <= caps.crcTypes <==> ct in caps.crcTypes;
    case NvmeDifKind(_) =>
  }

  /** A domain's check holds exactly when the device has what the domain asks for. */
  lemma {:induction false} DomainNeeds(d: Domain, caps: Caps)
    ensures DomainSupported(d, caps) <==> Grants(caps, NeedsDomain(d))
  {
    match d
    case NoDomain =>
    case BlockDomain(k, b) =>
      SigNeeds(k, caps);
      GrantsJoin(caps, NoCaps.(blockSizes := {b}), NeedsSig(k));
      assert {b} <= caps.blockSizes <==> b in caps.blockSizes;
  }

  /**
   * A signature block is supported exactly when the device has every
   * capability the block asks for, and what it asks for is itself enough:
   * `NeedsBlock(sb)` is the least capability record that supports `sb`.
   */
  lemma SigBlockNeeds(sb: SigBlock, caps: Caps)
    ensures SigBlockSupported(sb, caps) <==> Grants(caps, NeedsBlock(sb))
    ensures SigBlockSupported(sb, NeedsBlock(sb))
  {
    DomainNeeds(sb.mem, caps);
    DomainNeeds(sb.wire, caps);
    GrantsJoin(caps, NoCaps.(signatureOffload := true), Join(NeedsDomain(sb.mem), NeedsDomain(sb.wire)));
    GrantsJoin(caps, NeedsDomain(sb.mem), NeedsDomain(sb.wire));
    var least := NeedsBlock(sb);
    DomainNeeds(sb.mem, least);
    DomainNeeds(sb.wire, least);
    GrantsJoin(least, NoCaps.(signatureOffload := true), Join(NeedsDomain(sb.mem), NeedsDomain(sb.wire)));
    GrantsJoin(least, NeedsDomain(sb.mem), NeedsDomain(sb.wire));
  }

  /** Even `mkey_sig_block_none` needs the signature-offload capability. */
  lemma SigBlockNoneNeedsOffload(caps: Caps)
    ensures SigBlockSupported(SigBlockNone, caps) <==> caps.signatureOffload
  {
  }

  /** Capability checks are monotone: more capabilities never make a setter unsupported. */
  lemma SupportMonotone(sb: SigBlock, caps: Caps, more: Caps)
    requires Grants(more, caps) && SigBlockSupported(sb, caps)
    ensures SigBlockSupported(sb, more)
  {
    SigBlockNeeds(sb, caps);
    SigBlockNeeds(sb, more);
  }

  /** Which encoder produces the trailers of a descriptor kind. */
  predicate Encodes(k: SigKind, s: Trailer.Sig)
  {
    match k
    case T10DifType1(_) => s.T10DifSig?
    case T10DifType3(_) => s.T10DifSig?
    case Crc32Kind(_) => s.Crc32Sig?
    case Crc64Kind(_) => s.Crc64Sig?
    case NvmeDifKind(format) => s.NvmeDifSig? && s.format == format
  }

  /** Every encoder stores exactly `sig_size` bytes of its descriptor kind: 8, 4, 8, and 8 or 16 for NVMe. */
  lemma TrailerIsSigSize(k: SigKind, s: Trailer.Sig, blockIndex: U32)
    requires Encodes(k, s) && Trailer.ValidSig(s)
    ensures |Trailer.Trailer(s, blockIndex)| == SigSize(k)
  {
  }
}
