# mkey signature layer: a Dafny model

This project models the software half of the mkey (memory key) signature
tests of the ibverbs-tests verbs test suite, and proves properties of that model.
The modelled code is the header `tests/mkey/mkey.h` and the signature test
`tests/mkey/sig.cc`.

- **Trailer** (`trailer.dfy`) covers the signature-trailer encoders
  `sig_to_buf` of `sig_none`, `crc32_sig`, `crc64_sig`, `t10dif_sig` and
  `nvmedif_sig`.
  - Each trailer is a byte sequence.
  - The two imperative encoders are methods that write it into a byte array
    at an offset.
  - The NVMe encoder keeps its running index.
  - The T10-DIF tuple follows section 4.22.2 of T10 SBC-3.
  - The NVMe protection-information formats follow section 5.2 of the NVM
    Command Set Specification 1.0.
- **SigDomain** (`domain.dfy`) covers the signature-domain descriptors:
  - the signature kinds and their `sig_size`;
  - the block sizes;
  - every `is_supported`, over a capability record whose bitmasks are sets
    of flags;
  - `mkey_sig_block::adjust_length` on 64-bit `size_t`.
- **Layout** (`layout.dfy`) covers the list layout `mkey_layout_new_list`
  and its `_mrs` builders.
  - The class is modelled over one byte array `mem` that stands for memory.
  - An address is an index into `mem`.
  - `set_data`/`get_data` are methods with the source's loops.
  - They are specified by the walk functions `ListSet`/`ListGet`.
- **Interleaved** (`interleaved.dfy`) covers `mkey_layout_new_interleaved`
  and `mkey_layout_new_interleaved_mrs`.
  - The walks are modelled as written, including the
    `break` that leaves only the inner loop.
  - At the full data length they are proved equal to list walks over the
    unrolled regions.
  - At every length, `get_data` after `set_data` is proved to round-trip
    over non-overlapping unrolled regions, although each walk on its own
    departs from the list walk below the full length.
- **Copies** (`copies.dfy`) states a walk as its list of `memcpy` calls.
  - Both layouts' walks are compared through it.
  - A list of copies in which each copied byte is either copied again later
    or its memory byte is left alone afterwards is coherent; storing and
    fetching coherent copies round-trips.
- **SigErr** (`sigerr.dfy`) covers `mkey_sig_err`: its constructors, its
  `operator==` and the `mkey_dv::check` comparisons.
- **Mkey** (`mkey.dfy`) covers `mkey_dv` and `mkey_dv_new`.
  - The facets are a datatype.
  - The configure and invalidate work requests are recorded as a trace of
    commands.
  - `sge()` folds `adjust_length` over the setters.
- **SigTest** (`sigtest.dfy`) covers `sig.cc`: the buffer sizes,
  `fill_data`, `check_data` and the pass expectation of the `basic` test.
- **Bytes** (`bytes.dfy`) is shared arithmetic.
  - It has the fixed-width integer subtypes.
  - C's `>>`, `<<` and `& _MASK(n)` become `Shr`, `Shl` and `Low`.
  - It has big-endian encode/decode and the byte-sequence overwrite
    `Write`.

The model is over unbounded integers. Each place where the source's width
matters is written out:
- `size_t` sums wrap `% 2^64`;
- `uint16_t repeat_count` truncates `% 2^16`;
- `uint32_t` sizes truncate `% 2^32`.

The device is not modelled. Whatever it returns enters as a parameter:
- the mkey's lkey;
- the addresses and lkeys of registered memory regions;
- the report of `mlx5dv_mkey_check`;
- the capability record.

Where `sig.cc` and `mkey.h` disagree, the model follows the rules below.
- `sig.cc` calls a value-parameterised `SigType::sig_to_buf(value, buf)`.
  - No such encoder is declared in `mkey.h`.
  - The model uses the big-endian encoding that `crc32_sig`/`crc64_sig` use, with the value in place of the
    template constant (`SigTest.ValueTrailer`).
  - It does this for the signature kinds that `sig.cc` instantiates: none, CRC32 and CRC64.
- `sig.cc` names `MkeyDomainType`. The model reads it as the memory domain of the signature block.
- `mkey_basic_attr<>` is not declared in `mkey.h`. The nearest facet the header declares, `mkey_access_flags`, is `Mkey.Setter.AccessFlags`. Its default flags are `Mkey.DefaultAccessFlags`.

## Model

| member | source | states |
|---|---|---|
| Trailer.CrcTrailers | tests/mkey/mkey.h:88-106 | `sig_none` writes no bytes; the CRC32/CRC64 trailers are the same for every block index and decode big-endian to the constant |
| Trailer.T10DifFields | tests/mkey/mkey.h:54-86 | the T10-DIF trailer is 8 bytes: guard big-endian in bytes 0-1, app tag in 2-3, ref tag in 4-7; with remapping the ref tag is `ref_tag + block_index` mod 2^32, without it the constant |
| Trailer.T10RemapStep | tests/mkey/mkey.h:74-79 | with remapping, block 0 carries the configured ref tag and each next block's ref tag is one more, mod 2^32 |
| Trailer.NoRemapIgnoresBlock | tests/mkey/mkey.h:67-199 | without remapping every encoder writes the same bytes for every block index |
| Trailer.StorageRefSpaceFields | tests/mkey/mkey.h:150-199 | the shared storage/ref field holds the low `sts` bits of the storage tag above the ref tag masked to the remaining bits |
| Trailer.EmptyStorageTag | tests/mkey/mkey.h:150-199 | with `sts == 0` the storage/ref field is just the masked ref tag |
| Trailer.SpaceBytesAreSpace | tests/mkey/mkey.h:150-199 | the bytes written for the storage/ref field are the big-endian encoding of that field in 4, 10 or 6 bytes (formats 16, 32, 64) |
| Trailer.NvmeDifFields | tests/mkey/mkey.h:118-237 | the NVMe-DIF trailer is the guard big-endian in 2, 4 or 8 bytes, then the app tag big-endian in 2 bytes, then the storage/ref field; 8, 16 or 16 bytes in all; the ref tag adds the block index only under remapping |
| Trailer.NvmeTrailerParts | tests/mkey/mkey.h:127-199 | the NVMe trailer splits into guard, app tag and storage/ref parts of the stated lengths |
| Trailer.AppTagRoundTrip | tests/mkey/mkey.h:143-148 | the 2-byte app tag encoding decodes back to the app tag |
| Trailer.SigToBuf | tests/mkey/mkey.h:67-106 | writing a trailer into a buffer at an offset changes exactly those bytes, to the trailer |
| Trailer.NvmeDifSigToBuf | tests/mkey/mkey.h:127-199 | the running-index NVMe encoder leaves the buffer equal to the old buffer overwritten at the offset with the NVMe trailer |
| SigDomain.TrailerIsSigSize | tests/mkey/mkey.h:866-970 | every trailer encoder writes exactly `sig_size` bytes of its kind (8 for T10-DIF, 4 and 8 for CRC32/CRC64, 8 or 16 for NVMe-DIF) |
| SigDomain.AdjustNoSigIdentity | tests/mkey/mkey.h:1107-1113 | when both domains have signature size 0, `adjust_length` is the identity on every length |
| SigDomain.SigBlockNoneIdentity | tests/mkey/mkey.h:1064-1142 | `mkey_sig_block_none`, two none domains of size 0, leaves every length unchanged |
| SigDomain.AdjustWholeBlocks | tests/mkey/mkey.h:1107-1113 | with equal block sizes, `n` memory blocks of `B + Sm` bytes become `n` wire blocks of `B + Sw` bytes |
| SigDomain.AdjustRoundTrip | tests/mkey/mkey.h:1107-1113 | adjusting a whole-block length to the wire domain and back with the domains swapped returns it |
| SigDomain.DomainNeeds | tests/mkey/mkey.h:1058-1077 | a domain's `is_supported` holds exactly when the device has the capabilities the domain asks for: nothing for the none domain, its block-size bit and its kind's bits for a block domain |
| SigDomain.SigBlockNeeds | tests/mkey/mkey.h:1115-1119 | a signature block's `is_supported` holds exactly when the device has the signature-offload bit and what both domains ask for, and that record alone is enough, so it is the least supporting one |
| SigDomain.SigBlockNoneNeedsOffload | tests/mkey/mkey.h:1115-1119 | even `mkey_sig_block_none` is supported exactly when the signature-offload bit is set |
| SigDomain.SigNeeds | tests/mkey/mkey.h:882-991 | a kind's `is_supported` holds exactly when the device has what the kind asks for: T10-DIF its guard-type bit and the T10-DIF protection bit, CRC its CRC-type bit and the CRC protection bit, NVMe-DIF only its protection bit |
| SigDomain.SupportMonotone | tests/mkey/mkey.h:882-1119 | a signature block supported under some capabilities remains supported under any superset of them |
| Layout.ListGetIsGather | tests/mkey/mkey.h:660-668 | `get_data` writes the gathered region bytes at the start of the caller's buffer and nothing else |
| Layout.ListSetFrame | tests/mkey/mkey.h:650-658 | `set_data` changes no memory byte outside the regions it visits |
| Layout.ListSetUntouched | tests/mkey/mkey.h:650-658 | `set_data` changes no memory byte that none of its `memcpy` calls writes, that is, none of the first `min(length, remaining)` bytes of each visited region |
| Layout.ListSetGather | tests/mkey/mkey.h:650-658 | over disjoint regions, the bytes `set_data` stores, read back region by region, are the first `min(n, total)` bytes of the buffer |
| Layout.SetThenGet | tests/mkey/mkey.h:650-668 | over disjoint regions, `get_data(out, n)` after `set_data(buf, n)` puts the first `min(n, data_length)` bytes of `buf` into `out` and leaves the rest of `out` alone |
| Layout.SetThenGetAll | tests/mkey/mkey.h:650-668 | at the full length, the round trip returns all of `buf` |
| Layout.ListCopiesFit | tests/mkey/mkey.h:650-668 | every `memcpy` of the walk stays inside the caller's buffer |
| Layout.ReachesFits | tests/mkey/mkey.h:650-668 | the walk's regions lie in memory exactly when every `memcpy` it makes does |
| Layout.ListSetStored | tests/mkey/mkey.h:650-658 | `set_data` is its `memcpy` calls performed in order into memory |
| Layout.ListGetFetched | tests/mkey/mkey.h:660-668 | `get_data` is its `memcpy` calls performed in order into the caller's buffer |
| Layout.RegisteredLength | tests/mkey/mkey.h:682-698 | the list built from registered regions of the given sizes has `data_length` equal to the sum of the sizes |
| Layout.ListLayout.Init | tests/mkey/mkey.h:624-630 | `init` replaces the scatter list |
| Layout.ListLayout.DataLength | tests/mkey/mkey.h:632-638 | `data_length` is the sum of the entry lengths, mod 2^64 |
| Layout.ListLayout.SetData | tests/mkey/mkey.h:650-658 | the loop leaves memory equal to the walk `ListSet` of the old memory |
| Layout.ListLayout.GetData | tests/mkey/mkey.h:660-668 | the loop leaves the caller's buffer equal to the walk `ListGet` of its old contents |
| Layout.ListMrs.Init | tests/mkey/mkey.h:682-698 | the first `init` registers one region per size, in order, and installs their scatter entries; a second `init` changes nothing |
| Layout.FixedSizes | tests/mkey/mkey.h:731-738 | the fixed-size builder asks for `Count` regions of `Size` bytes |
| Interleaved.UnrolledAt | tests/mkey/mkey.h:785-797 | repetition `r` of entry `k` is the region at `addr_k + r * (bytes_count_k + bytes_skip_k)` of `bytes_count_k` bytes, placed in round-major order |
| Interleaved.UnrolledSum | tests/mkey/mkey.h:763-772 | the unrolled regions hold `repeat_count * sum(bytes_count)` bytes |
| Interleaved.RoundsMod | tests/mkey/mkey.h:763-772 | the source's wrapped `len *= repeat_count` equals the wrapped size of the unrolled regions |
| Interleaved.WalkFits | tests/mkey/mkey.h:785-811 | every `memcpy` the interleaved walk makes stays inside the caller's buffer |
| Interleaved.WalkIsList | tests/mkey/mkey.h:785-811 | once `n` covers what is left, the as-written interleaved walk makes the same `memcpy` calls as the list walk over the unrolled regions |
| Interleaved.AsWrittenIsStream | tests/mkey/mkey.h:785-811 | at lengths of at least `data_length`, the as-written `set_data`/`get_data` equal the list walks over the unrolled regions |
| Interleaved.InterSetThenGet | tests/mkey/mkey.h:785-811 | over disjoint unrolled regions, `get_data(out, n)` after `set_data(buf, n)`, both as written, puts the first `min(n, data_length)` bytes of `buf` into `out` and leaves the rest of `out` alone, at every `n` |
| Interleaved.InterSetFrame | tests/mkey/mkey.h:785-797 | `set_data` as written, of any length, changes no memory byte outside the unrolled regions, so the skipped bytes keep their values |
| Bytes.AddWrapMod | tests/mkey/mkey.h:795 | the working copy's `i.addr += i.bytes_count + i.bytes_skip` is the sum modulo 2^32, added to the address modulo 2^64 |
| Interleaved.StreamSetThenGet | tests/mkey/mkey.h:785-811 | the intended walks round-trip at every length `n`: the first `min(n, total)` bytes come back |
| Interleaved.ZeroWalks | tests/mkey/mkey.h:785-811 | a zero-length `set_data`/`get_data` changes nothing |
| Interleaved.ShortGetAsWritten | tests/mkey/mkey.h:799-810 | short of the full length the as-written `get_data` differs from the intended one, on an input given in full |
| Interleaved.InterleavedLayout.Init | tests/mkey/mkey.h:751-761 | `init` stores `rc` truncated to 16 bits and the entries |
| Interleaved.InterleavedLayout.DataLength | tests/mkey/mkey.h:763-772 | `data_length` is the size of the unrolled regions, mod 2^64 |
| Interleaved.InterleavedLayout.SetData | tests/mkey/mkey.h:785-797 | the nested loop over a working copy of the entries leaves memory equal to the as-written walk `InterSet` |
| Interleaved.InterleavedLayout.GetData | tests/mkey/mkey.h:799-810 | the nested loop leaves the caller's buffer equal to the as-written walk `InterGet` |
| Interleaved.MrLengthExact | tests/mkey/mkey.h:836-838 | each registered region is `RepeatCount * (bytes_count + skip_count)` bytes when that fits 32 bits |
| Interleaved.RoundInsideMr | tests/mkey/mkey.h:826-845 | every repetition of an entry built by the `_mrs` initialiser lies inside that entry's registered region |
| Interleaved.InterleavedMrs.Init | tests/mkey/mkey.h:826-845 | the first `init` registers one region per (count, skip) pair and installs the entries with `RepeatCount`; a second `init` changes nothing |
| SigErr.OfKind | tests/mkey/mkey.h:408-414 | a descriptor built from a kind carries no detail |
| SigErr.WithInfo | tests/mkey/mkey.h:428-435 | a descriptor built with actual/expected/offset carries exactly that detail |
| SigErr.FromDevice | tests/mkey/mkey.h:416-426 | a device report carries detail iff its kind is not `NO_ERR`, and then carries the reported values |
| SigErr.EqBothInfo | tests/mkey/mkey.h:475-486 | when both carry detail, `==` holds iff kind and all three values match |
| SigErr.EqReflexive | tests/mkey/mkey.h:471-487 | every descriptor is `==` to itself |
| SigErr.EqSymmetric | tests/mkey/mkey.h:471-487 | `==` is symmetric |
| SigErr.EqNotTransitive | tests/mkey/mkey.h:471-487 | `==` is not transitive: a descriptor without detail equals two of its kind with different details |
| SigErr.CheckKindIff | tests/mkey/mkey.h:542-550 | `check(err_type)` passes iff the device reports that kind; the reported detail is not compared |
| SigErr.CheckInfoIff | tests/mkey/mkey.h:552-558 | `check(err_type, actual, expected, offset)` passes iff the kind matches and, unless it is `NO_ERR`, all three values match |
| Mkey.LastLayoutIsLast | tests/mkey/mkey.h:1175-1184 | `layout` is unset iff no facet is a layout, and otherwise is a layout facet with no layout facet after it |
| Mkey.ConfigureShape | tests/mkey/mkey.h:1194-1203 | the configure commands are one `mkey_configure` declaring `setters.size()` entries, then one `wr_set` per setter, in order |
| Mkey.SetCmdsAppend | tests/mkey/mkey.h:1199-1202 | the `wr_set` commands of a longer setter list extend the shorter list's commands |
| Mkey.FoldAppend | tests/mkey/mkey.h:1205-1211 | folding `adjust_length` over two setter lists in a row is folding over their concatenation |
| Mkey.FoldIdentity | tests/mkey/mkey.h:1205-1211 | setters whose signature domains have no signature, and the default `adjust_length` (mkey.h:587), leave the length unchanged |
| Mkey.LayoutThenNoneSge | tests/mkey/mkey.h:1205-1211 | `sge()` of a layout followed by `mkey_sig_block_none` (mkey.h:1142) yields the layout's data length |
| Mkey.MkeyDvNew.constructor | tests/mkey/mkey.h:1151-1184 | the facets become the preset setters and the setters in argument order, and `layout` is the last layout facet |
| Mkey.MkeyDvNew.DvInit | tests/mkey/mkey.h:517-527 | `mkey_dv::init` creates the key once, recording `max_entries` and `create_flags`; once the key exists it changes nothing |
| Mkey.MkeyDvNew.Init | tests/mkey/mkey.h:1164-1171 | the first `init` runs `mkey_dv::init` and then records the layout's `init`; a second `init` changes nothing |
| Mkey.MkeyDvNew.SetLayout | tests/mkey/mkey.h:1185-1188 | `set_layout` points `layout` at the facet and appends it to the setters |
| Mkey.MkeyDvNew.AddSetter | tests/mkey/mkey.h:1190-1192 | `add_setter` appends the facet and changes nothing else |
| Mkey.MkeyDvNew.WrConfigure | tests/mkey/mkey.h:1194-1203 | the trace grows by exactly the configure commands of the setters |
| Mkey.MkeyDvNew.Configure | tests/mkey/mkey.h:367-373 | `configure` brackets those commands with the work-request start and complete |
| Mkey.MkeyDvNew.Invalidate | tests/mkey/mkey.h:377-383 | `invalidate` posts one local invalidate of the key's lkey (`mkey_dv::wr_invalidate`, mkey.h:532-535) between start and complete |
| Mkey.MkeyDvNew.Sge | tests/mkey/mkey.h:1205-1211 | `sge()` is, through `mkey::sge` (mkey.h:385-393), address 0, the key's lkey, and the layout's data length (0 without one) adjusted by every setter in order, truncated to 32 bits |
| SigTest.ValueTrailer | tests/mkey/sig.cc:98-114 | the reference trailer of a domain is `sig_size` bytes long |
| SigTest.ImageLength | tests/mkey/sig.cc:90-101 | the filled buffer has `NumBlocks * (B + S)` bytes |
| SigTest.ImageSize | tests/mkey/sig.cc:56-61 | `src_data_size`/`dst_data_size` are `NumBlocks * (block_size + sig_size)` when that fits 32 bits |
| SigTest.ImageBlock | tests/mkey/sig.cc:95-100 | block `i` of the filled buffer is `B` bytes of 0xA5 followed by the trailer |
| SigTest.ImageData | tests/mkey/sig.cc:95-100 | every byte at `i * (B + S) + j` with `j < B` is 0xA5 |
| SigTest.ImageTrailer | tests/mkey/sig.cc:95-100 | the `S` bytes at `i * (B + S) + B` are the same trailer for every block |
| SigTest.StoreBlocks | tests/mkey/sig.cc:96-100 | the pointer loop over a buffer of 0xA5 bytes leaves it holding the block image |
| SigTest.FillData | tests/mkey/sig.cc:90-102 | `fill_data` hands the whole block image, of size `src_data_size`, to the source layout's `set_data` |
| SigTest.CompareBlocks | tests/mkey/sig.cc:115-121 | the per-block comparison passes iff the buffer is the image of the reference block and trailer; it stops at the first mismatching block, and every block before it matched |
| SigTest.CheckData | tests/mkey/sig.cc:104-122 | `check_data` reads `dst_data_size` bytes through the destination layout and passes iff they are the reference image, built from the reference trailer computed once |
| SigTest.BasicPasses | tests/mkey/sig.cc:176-186 | when source and destination coincide, as in the `ops` instantiations (sig.cc:222-236), what `fill_data` stored and `get_data` reads back is the reference image, so `check_data` passes |

## Left out

- Device calls are not modelled, because they are foreign calls:
  - `mlx5dv_create_mkey`/`destroy_mkey`;
  - `mlx5dv_mkey_check`;
  - `ibv_wr_start`/`ibv_wr_complete`;
  - every `mlx5dv_wr_set_*`.
  The values they return are parameters. The commands they post are recorded in `trace`.
- `wr_set` of each facet and `set_sig`/`set_domain` are not modelled. They only fill device structs.
  A `wr_set` is recorded in the trace as the facet it sets.
- Registration and filling of memory regions (`ibvt_mr`) are not modelled. The model takes their addresses and lkeys as parameters.
- The queue-pair wrappers, `mkey_test_side`, `rdma_op*`, `mkey_test_base` and the polling helpers are not modelled. They are transport and harness code.
- `inc()` is not modelled. It depends on the foreign `ibv_inc_rkey`.
- `dump`, `operator<<`, `type_c_str` and `type_str` are not modelled. They only produce output.
- In `sig.cc`, the test enumeration, `is_supported`, `SetUp`, `configure_mkeys`, `execute_rdma`, `check_mkeys` and `noBlockSigAttr` are not modelled.
  - They drive the device.
  - The work done by the RDMA operation is the data the destination layout reads. `SigTest.CheckData` takes that data as a parameter.
- Layout.ListLayout.SetData: needs every visited region inside `mem` (`Reaches`). The source writes through raw pointers and promises nothing outside registered memory.
- Layout.ListLayout.GetData: needs every visited region inside `mem` (`Reaches`), for the same reason.
- Interleaved.InterleavedLayout.SetData: needs every `memcpy` of the walk inside memory (`MemFits`), for the same reason.
- Interleaved.InterleavedLayout.GetData: needs every `memcpy` of the walk inside memory (`MemFits`), for the same reason.
- Region disjointness is a hypothesis of the round-trip lemmas, not a fact about registration. Registered regions come from the device.
- Interleaved: below the full data length each as-written walk on its own is not the list walk over the unrolled regions (see Findings). `set_data` then also writes into later repetitions, inside the unrolled regions. The set-then-get round trip still holds (`Interleaved.InterSetThenGet`).
- SigTest.ValueTrailer: only the none, CRC32 and CRC64 kinds have a value encoder.
  - These are the kinds `sig.cc` instantiates.
  - The CRC32 value is truncated to 32 bits.
  - `ValueEncoded` restricts `FillData` and `CheckData` to these kinds.
- SigTest.CheckData: where the destination trailer is longer than the source encoder writes, the reference trailer's remaining bytes are uninitialised stack memory.
  - The model takes them as a parameter (`junk`) and does not say which values they hold.
  - The contents of `dst_buf` before `get_data` are also stack memory and a parameter (`stale`).
- SigTest.CheckData: requires the source signature size not to exceed the destination's. Otherwise the source encoder writes past the end of the `dst_sig_size`-byte `ref_sig_buf` (sig.cc:109, sig.cc:114), a stack overflow the model does not represent.
- SigTest.BasicPasses: covers only instantiations whose source and destination signature blocks and values coincide.
- Converting an `int` outside the error-kind enum to `mlx5dv_mkey_err_type` is not modelled. The model's kinds are the enum's.
- Mkey.MkeyDvNew.WrConfigure: `num_setters` is a natural number, not the library's integer width. A test never has more than a handful of setters.
- Layout facets (`Mkey.Setter.LayoutFacet`) carry a fixed `dataLength`. In the source, `sge()` calls `layout->data_length()` (mkey.h:1206), which reads the layout's live state, and the layout's `init` changes that state. The model does not link a facet's length to its layout object's later state.
- The `static_assert`s on NVMe storage-tag sizes become the `ValidStorageTagSize` precondition.

## Findings

| source | as written | input that shows it | evidently intended | confidence | as-written member | corrected member |
|---|---|---|---|---|---|---|
| tests/mkey/mkey.h:785-810 | in `set_data`/`get_data` of the interleaved layout, the `break` taken when the remaining length fits an entry leaves only the inner loop, so later repetitions copy again, from the same buffer offset with the same remaining length; `get_data` after `set_data` still round-trips, because both walks make the same copies (`Interleaved.InterSetThenGet`) | entries (addr 0, 2 bytes) and (addr 4, 2 bytes), repeat count 2, memory `[10..17]`, `get_data` of 3 bytes returns `[10, 11, 12]` | the first 3 bytes of the layout, `[10, 11, 14]`: the walk ends where the length runs out | not executed; no test in `sig.cc` uses an interleaved layout below its full length | Interleaved.ShortGetAsWritten | Interleaved.StreamSetThenGet |
