/**
 * The interleaved memory layout of a new-API mkey: a pattern of entries,
 * each taking `bytesCount` bytes at its address and then skipping
 * `bytesSkip` more, repeated `repeatCount` times. The mkey presents the
 * rounds of the pattern, one after the other, as one contiguous buffer, so
 * an interleaved layout is the list layout over its unrolled regions.
 *
 * The `set_data` and `get_data` walks are modelled as the C++ loops are
 * written: a working copy of the entries whose addresses advance as they are
 * visited, a round counter, and an inner `break` that leaves only the inner
 * loop.
 */
module Interleaved {
  import opened Bytes
  import opened Copies
  import opened Layout

  /** `struct mlx5dv_mr_interleaved`. */
  datatype Entry = Entry(addr: U64, bytesCount: U32, bytesSkip: U32, lkey: U32)

  /** How far `i.addr` moves on: `bytes_count + bytes_skip`, added in `uint32_t`. */
  function Stride(e: Entry): U32
  {
    AddWrap(e.bytesCount, e.bytesSkip, U32Max)
  }

  /** The working copy's entry after a visit: its address moved on by one stride, in `uint64_t`. */
  function Advance(e: Entry): Entry
  {
    e.(addr := AddWrap(e.addr, Stride(e), SizeMax))
  }

  /** The address of an entry's region in round `r`: its address moved on by `r` strides. */
  function AddrAt(e: Entry, r: nat): U64
  {
    if r == 0 then e.addr else AddWrap(AddrAt(e, r - 1), Stride(e), SizeMax)
  }

  /** The entry as the working copy holds it at the start of its visit in round `r`. */
  function At(e: Entry, r: nat): Entry
  {
    e.(addr := AddrAt(e, r))
  }

  /** The region an entry contributes in round `r`. */
  function RegionAt(e: Entry, r: nat): Sge
  {
    Sge(AddrAt(e, r), e.bytesCount, e.lkey)
  }

  /** The regions of round `r`, one per entry. */
  function Round(es: seq<Entry>, r: nat): (s: seq<Sge>)
    ensures |s| == |es|
  {
    seq(|es|, k requires 0 <= k < |es| => RegionAt(es[k], r))
  }

  /** The regions the interleaved layout presents, in order: `rc` rounds one after the other. */
  function Unrolled(es: seq<Entry>, rc: nat): seq<Sge>
  {
    if rc == 0 then [] else Unrolled(es, rc - 1) + Round(es, rc - 1)
  }

  /** The position of entry `j` of round `r` in the unrolled list of `n`-entry rounds. */
  function Pos(n: nat, r: nat, j: nat): nat
  {
    if r == 0 then j else n + Pos(n, r - 1, j)
  }

  lemma {:induction false} PosStep(n: nat, r: nat, j: nat)
    ensures Pos(n, r, j) == Pos(n, r, 0) + j
  {
    if r > 0 {
      PosStep(n, r - 1, j);
    }
  }

  /** `rc` rounds of `|es|` regions each. */
  lemma {:induction false} UnrolledLength(es: seq<Entry>, rc: nat)
    ensures |Unrolled(es, rc)| == Pos(|es|, rc, 0)
  {
    if rc > 0 {
      UnrolledLength(es, rc - 1);
    }
  }

  /** Entry `j` of round `r` is at position `Pos(|es|, r, j)` of the unrolled list. */
  lemma {:induction false} UnrolledAt(es: seq<Entry>, rc: nat, r: nat, j: nat)
    requires r < rc && j < |es|
    ensures Pos(|es|, r, j) < |Unrolled(es, rc)|
    ensures Unrolled(es, rc)[Pos(|es|, r, j)] == RegionAt(es[j], r)
  {
    UnrolledLength(es, rc - 1);
    PosStep(|es|, r, j);
    if r < rc - 1 {
      UnrolledAt(es, rc - 1, r, j);
    }
  }

  /** Moving on by one entry, and from the end of a round to the start of the next. */
  lemma PosNext(n: nat, r: nat, j: nat)
    ensures Pos(n, r, j + 1) == Pos(n, r, j) + 1
    ensures Pos(n, r, n) == Pos(n, r + 1, 0)
  {
    PosStep(n, r, j);
    PosStep(n, r, j + 1);
    PosStep(n, r, n);
  }

  /** The entries' byte counts from the `j`-th on, added up. */
  function CountFrom(es: seq<Entry>, j: nat): nat
    decreases |es| - j
  {
    if j >= |es| then 0 else es[j].bytesCount + CountFrom(es, j + 1)
  }

  /**
   * From entry `j` of round `r` on, the unrolled regions hold the rest of
   * this round and `rc - r - 1` whole rounds.
   */
  lemma {:induction false} UnrolledSumFrom(es: seq<Entry>, rc: nat, r: nat, j: nat)
    requires r < rc && j <= |es|
    ensures SumFrom(Unrolled(es, rc), Pos(|es|, r, j)) == CountFrom(es, j) + Times(rc - r - 1, CountFrom(es, 0))
    decreases rc - r, |es| - j
  {
    var u, n := Unrolled(es, rc), |es|;
    PosNext(n, r, j);
    if j < n {
      UnrolledAt(es, rc, r, j);
      UnrolledSumFrom(es, rc, r, j + 1);
    } else if r + 1 < rc {
      UnrolledSumFrom(es, rc, r + 1, 0);
    } else {
      UnrolledLength(es, rc);
    }
  }

  /** The unrolled regions hold `rc` times the bytes of one round. */
  lemma UnrolledSum(es: seq<Entry>, rc: nat)
    ensures Sum(Unrolled(es, rc)) == rc * CountFrom(es, 0)
  {
    TimesMul(rc, CountFrom(es, 0));
    if rc > 0 {
      UnrolledSumFrom(es, rc, 0, 0);
    }
  }

  /** One round's byte count reduced modulo 2^64, times `rc`, is the unrolled total modulo 2^64. */
  lemma RoundsMod(es: seq<Entry>, rc: nat, len: nat)
    requires len == CountFrom(es, 0) % SizeMax
    ensures (len * rc) % SizeMax == Sum(Unrolled(es, rc)) % SizeMax
  {
    var c := CountFrom(es, 0);
    TimesMul(rc, len);
    TimesMul(rc, c);
    TimesMod(rc, c);
    UnrolledSum(es, rc);
  }

  /**
   * The working copy of the entries at the visit of entry `j` in round `r`,
   * while no `break` has happened yet: the entries before `j` have moved on
   * to round `r + 1`, the others are still at round `r`.
   */
  function Working(es: seq<Entry>, r: nat, j: nat): (t: seq<Entry>)
    ensures |t| == |es|
  {
    seq(|es|, k requires 0 <= k < |es| => if k < j then At(es[k], r + 1) else At(es[k], r))
  }

  /** A visit moves an entry from one round to the next. */
  lemma AdvanceAt(e: Entry, r: nat)
    ensures Advance(At(e, r)) == At(e, r + 1)
  {
  }

  /** Visiting entry `j` moves it on to the next round and leaves the others as they were. */
  lemma WorkingStep(es: seq<Entry>, r: nat, j: nat)
    requires j < |es|
    ensures Working(es, r, j)[j] == At(es[j], r)
    ensures Working(es, r, j)[j := Advance(At(es[j], r))] == Working(es, r, j + 1)
  {
    AdvanceAt(es[j], r);
  }

  /** After the last entry of round `r` the working copy is at round `r + 1`. */
  lemma WorkingRound(es: seq<Entry>, r: nat)
    ensures Working(es, r, |es|) == Working(es, r + 1, 0)
  {
  }

  /** Before the first visit, the working copy is the pattern itself. */
  lemma WorkingStart(es: seq<Entry>)
    ensures Working(es, 0, 0) == es
  {
  }

  /**
   * The `memcpy` calls of the `set_data` and `get_data` loops as written,
   * from entry `j` of round `r` with working copy `tmp`, the next buffer
   * byte at `off` and `n` bytes to go. Each visit copies `min(bytes_count,
   * n)` bytes at the entry's current address. The entry at which `n` runs
   * out ends only its round: the next round starts again at the first
   * entry, with the same `n` and the same buffer offset.
   */
  function Walk(tmp: seq<Entry>, rc: nat, r: nat, j: nat, off: nat, n: nat): seq<Copy>
    decreases rc - r, |tmp| - j
  {
    if r >= rc then []
    else if j >= |tmp| then Walk(tmp, rc, r + 1, 0, off, n)
    else if n <= tmp[j].bytesCount then [Copy(tmp[j].addr, off, n)] + Walk(tmp, rc, r + 1, 0, off, n)
    else
      [Copy(tmp[j].addr, off, tmp[j].bytesCount)]
      + Walk(tmp[j := Advance(tmp[j])], rc, r, j + 1, off + tmp[j].bytesCount, n - tmp[j].bytesCount)
  }

  /** The walk's copies use the buffer from `off` up to `off + n` only. */
  lemma {:induction false} WalkFits(tmp: seq<Entry>, rc: nat, r: nat, j: nat, off: nat, n: nat, size: nat)
    requires off + n <= size
    ensures BufFits(Walk(tmp, rc, r, j, off, n), size)
    decreases rc - r, |tmp| - j
  {
    if r < rc {
      if j >= |tmp| {
        WalkFits(tmp, rc, r + 1, 0, off, n, size);
      } else if n <= tmp[j].bytesCount {
        WalkFits(tmp, rc, r + 1, 0, off, n, size);
        FitsCons(Copy(tmp[j].addr, off, n), Walk(tmp, rc, r + 1, 0, off, n), size);
      } else {
        var e := tmp[j];
        WalkFits(tmp[j := Advance(e)], rc, r, j + 1, off + e.bytesCount, n - e.bytesCount, size);
        FitsCons(Copy(e.addr, off, e.bytesCount), Walk(tmp[j := Advance(e)], rc, r, j + 1, off + e.bytesCount, n - e.bytesCount), size);
      }
    }
  }

  /** With nothing to go, every copy of the walk moves nothing. */
  lemma {:induction false} WalkIdle(tmp: seq<Entry>, rc: nat, r: nat, j: nat, off: nat)
    ensures Idle(Walk(tmp, rc, r, j, off, 0))
    decreases rc - r, |tmp| - j
  {
    if r < rc {
      WalkIdle(tmp, rc, r + 1, 0, off);
      if j < |tmp| {
        FitsCons(Copy(tmp[j].addr, off, 0), Walk(tmp, rc, r + 1, 0, off, 0), 0);
      }
    }
  }

  /** Memory after the `set_data` walk as written: its copies from `buf`, in order. */
  function InterSet(m: seq<Byte>, tmp: seq<Entry>, rc: nat, r: nat, j: nat, buf: seq<Byte>, off: nat, n: nat): (res: seq<Byte>)
    requires off + n <= |buf|
    ensures |res| == |m|
  {
    WalkFits(tmp, rc, r, j, off, n, |buf|);
    Stored(m, buf, Walk(tmp, rc, r, j, off, n))
  }

  /** The caller's buffer `o` after the `get_data` walk as written: its copies from `m`, in order. */
  function InterGet(o: seq<Byte>, m: seq<Byte>, tmp: seq<Entry>, rc: nat, r: nat, j: nat, off: nat, n: nat): (res: seq<Byte>)
    requires MemFits(Walk(tmp, rc, r, j, off, n), |m|)
    ensures |res| == |o|
  {
    Fetched(o, m, Walk(tmp, rc, r, j, off, n))
  }

  /**
   * One visit of either walk: its copy stays in memory when the whole walk
   * does, and so does the rest of the walk after it.
   */
  lemma VisitFits(tmp: seq<Entry>, rc: nat, r: nat, j: nat, off: nat, n: nat, size: nat)
    requires r < rc && j < |tmp| && MemFits(Walk(tmp, rc, r, j, off, n), size)
    ensures tmp[j].addr + Min(tmp[j].bytesCount, n) <= size
    ensures n <= tmp[j].bytesCount ==> MemFits(Walk(tmp, rc, r + 1, 0, off, n), size)
    ensures n > tmp[j].bytesCount ==>
      MemFits(Walk(tmp[j := Advance(tmp[j])], rc, r, j + 1, off + tmp[j].bytesCount, n - tmp[j].bytesCount), size)
  {
    var e := tmp[j];
    if n <= e.bytesCount {
      FitsCons(Copy(e.addr, off, n), Walk(tmp, rc, r + 1, 0, off, n), size);
    } else {
      FitsCons(Copy(e.addr, off, e.bytesCount), Walk(tmp[j := Advance(e)], rc, r, j + 1, off + e.bytesCount, n - e.bytesCount), size);
    }
  }

  /** One visit of the `set_data` walk: its copy, then the rest of the walk. */
  lemma SetVisit(m: seq<Byte>, tmp: seq<Entry>, rc: nat, r: nat, j: nat, buf: seq<Byte>, off: nat, n: nat)
    requires r < rc && j < |tmp| && off + n <= |buf|
    ensures n <= tmp[j].bytesCount ==>
      InterSet(m, tmp, rc, r, j, buf, off, n) == InterSet(Write(m, tmp[j].addr, buf[off..off + n]), tmp, rc, r + 1, 0, buf, off, n)
    ensures n > tmp[j].bytesCount ==>
      InterSet(m, tmp, rc, r, j, buf, off, n)
      == InterSet(Write(m, tmp[j].addr, buf[off..off + tmp[j].bytesCount]), tmp[j := Advance(tmp[j])], rc, r, j + 1,
                  buf, off + tmp[j].bytesCount, n - tmp[j].bytesCount)
  {
    var e := tmp[j];
    if n <= e.bytesCount {
      WalkFits(tmp, rc, r + 1, 0, off, n, |buf|);
      StoredCons(m, buf, Copy(e.addr, off, n), Walk(tmp, rc, r + 1, 0, off, n));
    } else {
      var l := e.bytesCount;
      WalkFits(tmp[j := Advance(e)], rc, r, j + 1, off + l, n - l, |buf|);
      StoredCons(m, buf, Copy(e.addr, off, l), Walk(tmp[j := Advance(e)], rc, r, j + 1, off + l, n - l));
    }
  }

  /** One visit of the `get_data` walk: its copy, then the rest of the walk. */
  lemma GetVisit(o: seq<Byte>, m: seq<Byte>, tmp: seq<Entry>, rc: nat, r: nat, j: nat, off: nat, n: nat)
    requires r < rc && j < |tmp| && MemFits(Walk(tmp, rc, r, j, off, n), |m|)
    ensures tmp[j].addr + Min(tmp[j].bytesCount, n) <= |m|
    ensures n <= tmp[j].bytesCount ==>
      && MemFits(Walk(tmp, rc, r + 1, 0, off, n), |m|)
      && InterGet(o, m, tmp, rc, r, j, off, n)
         == InterGet(Write(o, off, m[tmp[j].addr..tmp[j].addr + n]), m, tmp, rc, r + 1, 0, off, n)
    ensures n > tmp[j].bytesCount ==>
      && MemFits(Walk(tmp[j := Advance(tmp[j])], rc, r, j + 1, off + tmp[j].bytesCount, n - tmp[j].bytesCount), |m|)
      && InterGet(o, m, tmp, rc, r, j, off, n)
         == InterGet(Write(o, off, m[tmp[j].addr..tmp[j].addr + tmp[j].bytesCount]), m, tmp[j := Advance(tmp[j])], rc, r,
                     j + 1, off + tmp[j].bytesCount, n - tmp[j].bytesCount)
  {
    var e := tmp[j];
    VisitFits(tmp, rc, r, j, off, n, |m|);
    if n <= e.bytesCount {
      FetchedCons(o, m, Copy(e.addr, off, n), Walk(tmp, rc, r + 1, 0, off, n));
    } else {
      var l := e.bytesCount;
      FetchedCons(o, m, Copy(e.addr, off, l), Walk(tmp[j := Advance(e)], rc, r, j + 1, off + l, n - l));
    }
  }

  /**
   * One iteration of the `set_data` loop: after the visit's `memcpy`, the
   * rest of the walk stores the same memory, from the next round when `n`
   * ran out and from the next entry otherwise.
   */
  lemma SetStep(m0: seq<Byte>, m1: seq<Byte>, tmp: seq<Entry>, rc: nat, r: nat, j: nat, buf: seq<Byte>, off: nat, n: nat,
                target: seq<Byte>)
    requires r < rc && j < |tmp| && off + n <= |buf|
    requires MemFits(Walk(tmp, rc, r, j, off, n), |m0|) && InterSet(m0, tmp, rc, r, j, buf, off, n) == target
    requires m1 == Write(m0, tmp[j].addr, buf[off..off + Min(tmp[j].bytesCount, n)])
    ensures n <= tmp[j].bytesCount ==>
      && MemFits(Walk(tmp, rc, r + 1, 0, off, n), |m1|)
      && InterSet(m1, tmp, rc, r + 1, 0, buf, off, n) == target
    ensures n > tmp[j].bytesCount ==>
      var l := tmp[j].bytesCount;
      && MemFits(Walk(tmp[j := Advance(tmp[j])], rc, r, j + 1, off + l, n - l), |m1|)
      && InterSet(m1, tmp[j := Advance(tmp[j])], rc, r, j + 1, buf, off + l, n - l) == target
  {
    VisitFits(tmp, rc, r, j, off, n, |m0|);
    SetVisit(m0, tmp, rc, r, j, buf, off, n);
  }

  /**
   * One iteration of the `get_data` loop: after the visit's `memcpy`, the
   * rest of the walk fills the caller's buffer the same way, from the next
   * round when `n` ran out and from the next entry otherwise.
   */
  lemma GetStep(o0: seq<Byte>, o1: seq<Byte>, m: seq<Byte>, tmp: seq<Entry>, rc: nat, r: nat, j: nat, off: nat, n: nat,
                target: seq<Byte>)
    requires r < rc && j < |tmp| && off + n <= |o0|
    requires MemFits(Walk(tmp, rc, r, j, off, n), |m|) && InterGet(o0, m, tmp, rc, r, j, off, n) == target
    requires tmp[j].addr + Min(tmp[j].bytesCount, n) <= |m|
    requires o1 == Write(o0, off, m[tmp[j].addr..tmp[j].addr + Min(tmp[j].bytesCount, n)])
    ensures n <= tmp[j].bytesCount ==>
      && MemFits(Walk(tmp, rc, r + 1, 0, off, n), |m|)
      && InterGet(o1, m, tmp, rc, r + 1, 0, off, n) == target
    ensures n > tmp[j].bytesCount ==>
      var l := tmp[j].bytesCount;
      && MemFits(Walk(tmp[j := Advance(tmp[j])], rc, r, j + 1, off + l, n - l), |m|)
      && InterGet(o1, m, tmp[j := Advance(tmp[j])], rc, r, j + 1, off + l, n - l) == target
  {
    GetVisit(o0, m, tmp, rc, r, j, off, n);
  }

  /** After the last entry of a round, the walk goes on with the next round. */
  lemma RoundEnd(tmp: seq<Entry>, rc: nat, r: nat, off: nat, n: nat)
    requires r < rc
    ensures Walk(tmp, rc, r, |tmp|, off, n) == Walk(tmp, rc, r + 1, 0, off, n)
  {
  }

  /** A list holds at least as many bytes as any one of its regions. */
  lemma {:induction false} SumFromAtLeast(sgl: seq<Sge>, i: nat, k: nat)
    requires i <= k < |sgl|
    ensures SumFrom(sgl, i) >= sgl[k].length
    decreases k - i
  {
    if i < k {
      SumFromAtLeast(sgl, i + 1, k);
    }
  }

  /**
   * `u` is the unrolled list of `rc` rounds of `es`, position by position;
   * the walks below see the unrolled regions only through this.
   */
  predicate Unrolls(u: seq<Sge>, es: seq<Entry>, rc: nat)
  {
    && |u| == Pos(|es|, rc, 0)
    && forall r: nat, j: nat :: r < rc && j < |es| ==> Pos(|es|, r, j) < |u| && u[Pos(|es|, r, j)] == RegionAt(es[j], r)
  }

  lemma UnrolledUnrolls(es: seq<Entry>, rc: nat)
    ensures Unrolls(Unrolled(es, rc), es, rc)
  {
    UnrolledLength(es, rc);
    forall r: nat, j: nat | r < rc && j < |es|
      ensures Pos(|es|, r, j) < |Unrolled(es, rc)| && Unrolled(es, rc)[Pos(|es|, r, j)] == RegionAt(es[j], r)
    {
      UnrolledAt(es, rc, r, j);
    }
  }

  /**
   * The step where `n` runs out, while no `break` has happened: either it
   * is in the last round, or nothing at all is left to copy.
   */
  lemma LastStep(u: seq<Sge>, es: seq<Entry>, rc: nat, r: nat, j: nat, n: nat)
    requires Unrolls(u, es, rc) && r < rc && j < |es| && n <= es[j].bytesCount
    requires n >= SumFrom(u, Pos(|es|, r, j))
    ensures r + 1 < rc ==> n == 0
  {
    PosNext(|es|, r, j);
    if r + 1 < rc {
      SumFromAtLeast(u, Pos(|es|, r, j) + 1, Pos(|es|, r + 1, j));
    }
  }

  /** Walking past position `Pos(|es|, rc, j)` is walking past the end. */
  lemma PastEnd(u: seq<Sge>, es: seq<Entry>, rc: nat, j: nat)
    requires Unrolls(u, es, rc)
    ensures Pos(|es|, rc, j) >= |u|
  {
    PosStep(|es|, rc, j);
  }

  /**
   * When `n` bytes are asked for and `n` covers every region still ahead,
   * the walk as written makes the copies of the list walk over the unrolled
   * regions `u`: the `break` can then only come in the last round.
   */
  lemma {:induction false} WalkIsList(u: seq<Sge>, es: seq<Entry>, rc: nat, r: nat, j: nat, off: nat, n: nat)
    requires Unrolls(u, es, rc) && r <= rc && j <= |es|
    requires 0 < n && n >= SumFrom(u, Pos(|es|, r, j))
    ensures Walk(Working(es, r, j), rc, r, j, off, n) == ListCopies(u, Pos(|es|, r, j), off, n)
    decreases rc - r, |es| - j, 1
  {
    if r == rc {
      PastEnd(u, es, rc, j);
    } else if j == |es| {
      PosNext(|es|, r, j);
      WorkingRound(es, r);
      WalkIsList(u, es, rc, r + 1, 0, off, n);
    } else {
      WorkingStep(es, r, j);
      if n <= es[j].bytesCount {
        WalkLast(u, es, rc, r, j, off, n);
      } else {
        WalkOn(u, es, rc, r, j, off, n);
      }
    }
  }

  /** `WalkIsList` at the visit where `n` runs out. */
  lemma WalkLast(u: seq<Sge>, es: seq<Entry>, rc: nat, r: nat, j: nat, off: nat, n: nat)
    requires Unrolls(u, es, rc) && r < rc && j < |es|
    requires 0 < n <= es[j].bytesCount && n >= SumFrom(u, Pos(|es|, r, j))
    ensures Walk(Working(es, r, j), rc, r, j, off, n) == ListCopies(u, Pos(|es|, r, j), off, n)
  {
    var e := At(es[j], r);
    WorkingStep(es, r, j);
    assert u[Pos(|es|, r, j)] == RegionAt(es[j], r);
    LastStep(u, es, rc, r, j, n);
    assert [Copy(e.addr, off, n)] + [] == [Copy(e.addr, off, n)];
  }

  /** `WalkIsList` at a visit after which bytes are still to go. */
  lemma {:induction false} WalkOn(u: seq<Sge>, es: seq<Entry>, rc: nat, r: nat, j: nat, off: nat, n: nat)
    requires Unrolls(u, es, rc) && r < rc && j < |es|
    requires n > es[j].bytesCount && n >= SumFrom(u, Pos(|es|, r, j))
    ensures Walk(Working(es, r, j), rc, r, j, off, n) == ListCopies(u, Pos(|es|, r, j), off, n)
    decreases rc - r, |es| - j, 0
  {
    var e, q, l := es[j], Pos(|es|, r, j), es[j].bytesCount;
    var w := Working(es, r, j);
    WorkingStep(es, r, j);
    assert u[q] == RegionAt(e, r);
    PosNext(|es|, r, j);
    WalkIsList(u, es, rc, r, j + 1, off + l, n - l);
    WalkOnJoin(w, Working(es, r, j + 1), rc, r, j, u, q, off, n, l);
  }

  /**
   * A visit of the walk as written that makes the list walk's copy of its
   * region, followed by the same copies, makes the same copies.
   */
  lemma WalkOnJoin(w: seq<Entry>, w': seq<Entry>, rc: nat, r: nat, j: nat, u: seq<Sge>, q: nat, off: nat, n: nat, l: nat)
    requires r < rc && j < |w| && q < |u| && n > l
    requires w[j].addr == u[q].addr && w[j].bytesCount == l == u[q].length && w[j := Advance(w[j])] == w'
    requires Walk(w', rc, r, j + 1, off + l, n - l) == ListCopies(u, q + 1, off + l, n - l)
    ensures Walk(w, rc, r, j, off, n) == ListCopies(u, q, off, n)
  {
    WalkOnStep(w, rc, r, j, off, n);
    ListCopiesOnStep(u, q, off, n);
  }

  /** A visit of the walk as written after which bytes are still to go. */
  lemma WalkOnStep(tmp: seq<Entry>, rc: nat, r: nat, j: nat, off: nat, n: nat)
    requires r < rc && j < |tmp| && n > tmp[j].bytesCount
    ensures Walk(tmp, rc, r, j, off, n)
      == [Copy(tmp[j].addr, off, tmp[j].bytesCount)]
         + Walk(tmp[j := Advance(tmp[j])], rc, r, j + 1, off + tmp[j].bytesCount, n - tmp[j].bytesCount)
  {
  }

  /** A region of the list walk after which bytes are still to go. */
  lemma ListCopiesOnStep(sgl: seq<Sge>, i: nat, off: nat, n: nat)
    requires i < |sgl| && n > sgl[i].length
    ensures ListCopies(sgl, i, off, n)
      == [Copy(sgl[i].addr, off, sgl[i].length)] + ListCopies(sgl, i + 1, off + sgl[i].length, n - sgl[i].length)
  {
  }

  /**
   * The walks as evidently intended: the list layout's walks over the
   * unrolled regions, which end where `n` runs out.
   */
  function StreamSet(m: seq<Byte>, es: seq<Entry>, rc: nat, buf: seq<Byte>, n: nat): (res: seq<Byte>)
    requires n <= |buf|
    ensures |res| == |m|
  {
    ListSet(m, Unrolled(es, rc), 0, buf, 0, n)
  }

  function StreamGet(o: seq<Byte>, m: seq<Byte>, es: seq<Entry>, rc: nat, n: nat): (res: seq<Byte>)
    requires Reaches(Unrolled(es, rc), 0, n, |m|)
    ensures |res| == |o|
  {
    ListGet(o, m, Unrolled(es, rc), 0, 0, n)
  }

  /**
   * The intended walks round-trip at every length: over non-overlapping
   * unrolled regions, the first `min(n, total)` bytes stored come back and
   * the rest of the caller's buffer is left alone.
   */
  lemma StreamSetThenGet(o: seq<Byte>, m: seq<Byte>, es: seq<Entry>, rc: nat, buf: seq<Byte>, n: nat)
    requires n <= |buf| && n <= |o| && Disjoint(Unrolled(es, rc)) && Reaches(Unrolled(es, rc), 0, n, |m|)
    ensures var k := Min(n, Sum(Unrolled(es, rc)));
      var res := StreamGet(o, StreamSet(m, es, rc, buf, n), es, rc, n);
      res[..k] == buf[..k] && res[k..] == o[k..]
  {
    SetThenGet(o, m, Unrolled(es, rc), 0, buf, 0, 0, n);
  }

  /** Asked for no bytes, the walks as written and as intended change nothing. */
  lemma ZeroWalks(o: seq<Byte>, m: seq<Byte>, es: seq<Entry>, rc: nat, buf: seq<Byte>)
    requires MemFits(Walk(es, rc, 0, 0, 0, 0), |m|)
    ensures InterSet(m, es, rc, 0, 0, buf, 0, 0) == m == StreamSet(m, es, rc, buf, 0)
    ensures Reaches(Unrolled(es, rc), 0, 0, |m|)
    ensures InterGet(o, m, es, rc, 0, 0, 0, 0) == o == StreamGet(o, m, es, rc, 0)
  {
    ZeroAsWritten(o, m, es, rc, buf);
    ZeroReaches(m, es, rc);
    ZeroStream(o, m, Unrolled(es, rc), buf);
  }

  /** Asked for no bytes, the walks as written change nothing. */
  lemma ZeroAsWritten(o: seq<Byte>, m: seq<Byte>, es: seq<Entry>, rc: nat, buf: seq<Byte>)
    requires MemFits(Walk(es, rc, 0, 0, 0, 0), |m|)
    ensures InterSet(m, es, rc, 0, 0, buf, 0, 0) == m
    ensures InterGet(o, m, es, rc, 0, 0, 0, 0) == o
  {
    var w := Walk(es, rc, 0, 0, 0, 0);
    WalkIdle(es, rc, 0, 0, 0);
    WalkFits(es, rc, 0, 0, 0, 0, |buf|);
    StoredIdle(m, buf, w);
    FetchedIdle(o, m, w);
  }

  /** The walk as written stays in memory with no bytes to go, so the intended one does. */
  lemma ZeroReaches(m: seq<Byte>, es: seq<Entry>, rc: nat)
    requires MemFits(Walk(es, rc, 0, 0, 0, 0), |m|)
    ensures Reaches(Unrolled(es, rc), 0, 0, |m|)
  {
    var u := Unrolled(es, rc);
    UnrolledUnrolls(es, rc);
    if 0 < rc && 0 < |es| {
      assert u[Pos(|es|, 0, 0)] == RegionAt(es[0], 0);
      VisitFits(es, rc, 0, 0, 0, 0, |m|);
      assert u[0].addr + Min(u[0].length, 0) <= |m|;
    } else {
      UnrolledNone(es, rc);
    }
  }

  /** No rounds, or rounds of no entries, unroll to no regions. */
  lemma {:induction false} UnrolledNone(es: seq<Entry>, rc: nat)
    requires rc == 0 || |es| == 0
    ensures Unrolled(es, rc) == []
  {
    if rc > 0 {
      UnrolledNone(es, rc - 1);
    }
  }

  /** Asked for no bytes, the list walks change nothing. */
  lemma ZeroStream(o: seq<Byte>, m: seq<Byte>, u: seq<Sge>, buf: seq<Byte>)
    requires Reaches(u, 0, 0, |m|)
    ensures ListSet(m, u, 0, buf, 0, 0) == m
    ensures ListGet(o, m, u, 0, 0, 0) == o
  {
    if 0 < |u| {
      assert buf[0..0] == [] && m[u[0].addr..u[0].addr + 0] == [];
      WriteEmpty(m, u[0].addr);
      WriteEmpty(o, 0);
    }
  }

  /**
   * At the layout's full length or more, the walks as written are the
   * intended ones.
   */
  lemma AsWrittenIsStream(o: seq<Byte>, m: seq<Byte>, es: seq<Entry>, rc: nat, buf: seq<Byte>, n: nat)
    requires n <= |buf| && n >= Sum(Unrolled(es, rc)) && MemFits(Walk(es, rc, 0, 0, 0, n), |m|)
    ensures InterSet(m, es, rc, 0, 0, buf, 0, n) == StreamSet(m, es, rc, buf, n)
    ensures Reaches(Unrolled(es, rc), 0, n, |m|)
    ensures InterGet(o, m, es, rc, 0, 0, 0, n) == StreamGet(o, m, es, rc, n)
  {
    if n == 0 {
      ZeroWalks(o, m, es, rc, buf);
    } else {
      var u := Unrolled(es, rc);
      WorkingStart(es);
      UnrolledUnrolls(es, rc);
      WalkIsList(u, es, rc, 0, 0, 0, n);
      ListSetStored(m, u, 0, buf, 0, n);
      ReachesFits(u, 0, 0, n, |m|);
      ListGetFetched(o, m, u, 0, 0, n);
    }
  }

  /** The working copy holds entry `k` of the pattern as it stands at round `rs[k]`. */
  predicate Tracks(tmp: seq<Entry>, es: seq<Entry>, rs: seq<nat>)
  {
    |tmp| == |es| == |rs| && forall k :: 0 <= k < |es| ==> tmp[k] == At(es[k], rs[k])
  }

  /**
   * At the visit of entry `j` in round `r`, after any number of `break`s, no
   * entry has moved on further than its visits in the rounds so far allow.
   */
  predicate Behind(rs: seq<nat>, r: nat, j: nat)
  {
    forall k :: 0 <= k < |rs| ==> rs[k] <= if k < j then r + 1 else r
  }

  /** A visit copies at the entry's region of its round and moves the entry on by one round. */
  lemma TracksStep(tmp: seq<Entry>, es: seq<Entry>, rs: seq<nat>, r: nat, j: nat)
    requires Tracks(tmp, es, rs) && Behind(rs, r, j) && j < |tmp|
    ensures tmp[j].addr == AddrAt(es[j], rs[j]) && tmp[j].bytesCount == es[j].bytesCount && rs[j] <= r
    ensures Tracks(tmp[j := Advance(tmp[j])], es, rs[j := rs[j] + 1]) && Behind(rs[j := rs[j] + 1], r, j + 1)
    ensures Behind(rs, r + 1, 0)
  {
    AdvanceAt(es[j], rs[j]);
  }

  lemma {:induction false} PosRounds(n: nat, r1: nat, r2: nat)
    requires r1 < r2
    ensures Pos(n, r1, 0) + n <= Pos(n, r2, 0)
    decreases r2
  {
    if r1 + 1 < r2 {
      PosRounds(n, r1, r2 - 1);
    }
  }

  /** Different visits are at different positions of the unrolled list. */
  lemma PosApart(n: nat, r1: nat, k1: nat, r2: nat, k2: nat)
    requires k1 < n && k2 < n && (r1 != r2 || k1 != k2)
    ensures Pos(n, r1, k1) != Pos(n, r2, k2)
  {
    PosStep(n, r1, k1);
    PosStep(n, r2, k2);
    if r1 < r2 {
      PosRounds(n, r1, r2);
    } else if r2 < r1 {
      PosRounds(n, r2, r1);
    }
  }

  /** Over non-overlapping unrolled regions, the regions of two different visits do not overlap. */
  lemma Apart(es: seq<Entry>, rc: nat, r1: nat, k1: nat, r2: nat, k2: nat)
    requires Disjoint(Unrolled(es, rc)) && r1 < rc && r2 < rc && k1 < |es| && k2 < |es| && (r1 != r2 || k1 != k2)
    ensures AddrAt(es[k1], r1) + es[k1].bytesCount <= AddrAt(es[k2], r2)
         || AddrAt(es[k2], r2) + es[k2].bytesCount <= AddrAt(es[k1], r1)
  {
    UnrolledAt(es, rc, r1, k1);
    UnrolledAt(es, rc, r2, k2);
    PosApart(|es|, r1, k1, r2, k2);
  }

  /** The visit of entry `j` misses every byte of the region of any other visit. */
  lemma VisitMisses(es: seq<Entry>, rc: nat, tmp: seq<Entry>, rs: seq<nat>, r: nat, j: nat, r0: nat, k0: nat, a: nat)
    requires Disjoint(Unrolled(es, rc)) && Tracks(tmp, es, rs) && Behind(rs, r, j) && r < rc && j < |tmp|
    requires k0 < |es| && r0 < rc && (r0 != rs[j] || k0 != j)
    requires AddrAt(es[k0], r0) <= a < AddrAt(es[k0], r0) + es[k0].bytesCount
    ensures !(tmp[j].addr <= a < tmp[j].addr + tmp[j].bytesCount)
  {
    TracksStep(tmp, es, rs, r, j);
    Apart(es, rc, rs[j], j, r0, k0);
  }

  /**
   * Once an entry has moved on past round `r0`, no later copy of the walk
   * touches its region of round `r0` again.
   */
  lemma {:induction false} WalkLeavesBehind(es: seq<Entry>, rc: nat, tmp: seq<Entry>, rs: seq<nat>, r: nat, j: nat,
                                             off: nat, n: nat, r0: nat, k0: nat, a: nat)
    requires Disjoint(Unrolled(es, rc)) && Tracks(tmp, es, rs) && Behind(rs, r, j)
    requires k0 < |es| && r0 < rs[k0] && AddrAt(es[k0], r0) <= a < AddrAt(es[k0], r0) + es[k0].bytesCount
    ensures Untouched(Walk(tmp, rc, r, j, off, n), a)
    decreases rc - r, |tmp| - j
  {
    if r < rc {
      if j >= |tmp| {
        WalkLeavesBehind(es, rc, tmp, rs, r + 1, 0, off, n, r0, k0, a);
      } else {
        assert rs[k0] <= r + 1;
        VisitMisses(es, rc, tmp, rs, r, j, r0, k0, a);
        TracksStep(tmp, es, rs, r, j);
        var e := tmp[j];
        if n <= e.bytesCount {
          WalkLeavesBehind(es, rc, tmp, rs, r + 1, 0, off, n, r0, k0, a);
          UntouchedCons(Copy(e.addr, off, n), Walk(tmp, rc, r + 1, 0, off, n), a);
        } else {
          var tmp', rs' := tmp[j := Advance(e)], rs[j := rs[j] + 1];
          WalkLeavesBehind(es, rc, tmp', rs', r, j + 1, off + e.bytesCount, n - e.bytesCount, r0, k0, a);
          UntouchedCons(Copy(e.addr, off, e.bytesCount), Walk(tmp', rc, r, j + 1, off + e.bytesCount, n - e.bytesCount), a);
        }
      }
    }
  }

  /**
   * After a `break` at entry `j0`, the next round up to entry `j0` either
   * copies every byte from `off` to `off + n` again or never touches the
   * region of `j0` that the `break` copied into.
   */
  lemma {:induction false} AfterBreak(es: seq<Entry>, rc: nat, tmp: seq<Entry>, rs: seq<nat>, r: nat, j: nat,
                                       off: nat, n: nat, j0: nat, a: nat)
    requires Disjoint(Unrolled(es, rc)) && Tracks(tmp, es, rs) && Behind(rs, r, j)
    requires j <= j0 < |es| && n <= es[j0].bytesCount
    requires AddrAt(es[j0], rs[j0]) <= a < AddrAt(es[j0], rs[j0]) + es[j0].bytesCount
    ensures Untouched(Walk(tmp, rc, r, j, off, n), a)
         || forall q: nat :: off <= q < off + n ==> Covered(Walk(tmp, rc, r, j, off, n), q)
    decreases |tmp| - j
  {
    if r < rc {
      TracksStep(tmp, es, rs, r, j);
      var e := tmp[j];
      if n <= e.bytesCount {
        CoverHead(Copy(e.addr, off, n), Walk(tmp, rc, r + 1, 0, off, n), off, n);
      } else {
        assert j != j0 && rs[j0] <= r;
        VisitMisses(es, rc, tmp, rs, r, j, rs[j0], j0, a);
        var c := Copy(e.addr, off, e.bytesCount);
        var tmp', rs' := tmp[j := Advance(e)], rs[j := rs[j] + 1];
        var rest := Walk(tmp', rc, r, j + 1, off + e.bytesCount, n - e.bytesCount);
        AfterBreak(es, rc, tmp', rs', r, j + 1, off + e.bytesCount, n - e.bytesCount, j0, a);
        if !Untouched(rest, a) {
          assert forall q: nat :: off + e.bytesCount <= q < off + e.bytesCount + (n - e.bytesCount) ==> Covered(rest, q);
          assert forall q: nat :: off + c.len <= q < off + n ==> Covered(rest, q);
        }
        CoverJoin(c, rest, a, off, n);
      }
    }
  }

  /** Over non-overlapping unrolled regions, the copies of the walk as written are coherent. */
  lemma {:induction false} WalkCoherent(es: seq<Entry>, rc: nat, tmp: seq<Entry>, rs: seq<nat>, r: nat, j: nat, off: nat, n: nat)
    requires Disjoint(Unrolled(es, rc)) && Tracks(tmp, es, rs) && Behind(rs, r, j)
    ensures Coherent(Walk(tmp, rc, r, j, off, n))
    decreases rc - r, |tmp| - j
  {
    if r < rc {
      if j >= |tmp| {
        WalkCoherent(es, rc, tmp, rs, r + 1, 0, off, n);
      } else {
        TracksStep(tmp, es, rs, r, j);
        var e := tmp[j];
        if n <= e.bytesCount {
          var c, rest := Copy(e.addr, off, n), Walk(tmp, rc, r + 1, 0, off, n);
          WalkCoherent(es, rc, tmp, rs, r + 1, 0, off, n);
          forall q: nat | Covers(c, q)
            ensures Covered(rest, q) || Untouched(rest, c.addr + (q - c.off))
          {
            AfterBreak(es, rc, tmp, rs, r + 1, 0, off, n, j, c.addr + (q - c.off));
          }
          CoherentCons(c, rest);
        } else {
          var tmp', rs' := tmp[j := Advance(e)], rs[j := rs[j] + 1];
          var c, rest := Copy(e.addr, off, e.bytesCount), Walk(tmp', rc, r, j + 1, off + e.bytesCount, n - e.bytesCount);
          WalkCoherent(es, rc, tmp', rs', r, j + 1, off + e.bytesCount, n - e.bytesCount);
          forall q: nat | Covers(c, q)
            ensures Untouched(rest, c.addr + (q - c.off))
          {
            WalkLeavesBehind(es, rc, tmp', rs', r, j + 1, off + e.bytesCount, n - e.bytesCount, rs[j], j, c.addr + (q - c.off));
          }
          CoherentCons(c, rest);
        }
      }
    }
  }

  /**
   * Short of the regions still ahead, and with no `break` yet, the walk as
   * written copies every buffer byte from `off` to `off + n`.
   */
  lemma {:induction false} WalkCovers(u: seq<Sge>, es: seq<Entry>, rc: nat, r: nat, j: nat, off: nat, n: nat, q: nat)
    requires Unrolls(u, es, rc) && r <= rc && j <= |es|
    requires n < SumFrom(u, Pos(|es|, r, j)) && off <= q < off + n
    ensures Covered(Walk(Working(es, r, j), rc, r, j, off, n), q)
    decreases rc - r, |es| - j
  {
    if r == rc {
      PastEnd(u, es, rc, j);
      assert false;
    } else if j == |es| {
      PosNext(|es|, r, j);
      WorkingRound(es, r);
      WalkCovers(u, es, rc, r + 1, 0, off, n, q);
    } else if n <= es[j].bytesCount {
      CoversBreak(es, rc, r, j, off, n, q);
    } else {
      var l := es[j].bytesCount;
      SumStep(u, es, rc, r, j);
      if off + l <= q {
        WalkCovers(u, es, rc, r, j + 1, off + l, n - l, q);
      }
      CoversOn(es, rc, r, j, off, n, q);
    }
  }

  /** The regions still ahead at a visit: the visited entry's, then those after it. */
  lemma SumStep(u: seq<Sge>, es: seq<Entry>, rc: nat, r: nat, j: nat)
    requires Unrolls(u, es, rc) && r < rc && j < |es|
    ensures SumFrom(u, Pos(|es|, r, j)) == es[j].bytesCount + SumFrom(u, Pos(|es|, r, j + 1))
  {
    PosNext(|es|, r, j);
    assert u[Pos(|es|, r, j)] == RegionAt(es[j], r);
  }

  /** `WalkCovers` at the visit where `n` runs out: its copy moves every byte. */
  lemma CoversBreak(es: seq<Entry>, rc: nat, r: nat, j: nat, off: nat, n: nat, q: nat)
    requires r < rc && j < |es| && n <= es[j].bytesCount && off <= q < off + n
    ensures Covered(Walk(Working(es, r, j), rc, r, j, off, n), q)
  {
    var w := Working(es, r, j);
    WorkingStep(es, r, j);
    CoveredCons(Copy(w[j].addr, off, n), Walk(w, rc, r + 1, 0, off, n), q);
  }

  /** `WalkCovers` at a visit after which bytes are still to go. */
  lemma CoversOn(es: seq<Entry>, rc: nat, r: nat, j: nat, off: nat, n: nat, q: nat)
    requires r < rc && j < |es| && n > es[j].bytesCount && off <= q < off + n
    requires off + es[j].bytesCount <= q ==>
      Covered(Walk(Working(es, r, j + 1), rc, r, j + 1, off + es[j].bytesCount, n - es[j].bytesCount), q)
    ensures Covered(Walk(Working(es, r, j), rc, r, j, off, n), q)
  {
    var w, l := Working(es, r, j), es[j].bytesCount;
    WorkingStep(es, r, j);
    WalkOnStep(w, rc, r, j, off, n);
    CoveredCons(Copy(w[j].addr, off, l), Walk(Working(es, r, j + 1), rc, r, j + 1, off + l, n - l), q);
  }

  /** Every copy of the walk as written stays inside the layout's unrolled regions. */
  lemma {:induction false} WalkOutside(es: seq<Entry>, rc: nat, tmp: seq<Entry>, rs: seq<nat>, r: nat, j: nat, off: nat, n: nat, p: nat)
    requires Tracks(tmp, es, rs) && Behind(rs, r, j) && Outside(Unrolled(es, rc), 0, p)
    ensures Untouched(Walk(tmp, rc, r, j, off, n), p)
    decreases rc - r, |tmp| - j
  {
    if r < rc {
      if j >= |tmp| {
        WalkOutside(es, rc, tmp, rs, r + 1, 0, off, n, p);
      } else {
        TracksStep(tmp, es, rs, r, j);
        UnrolledAt(es, rc, rs[j], j);
        var e := tmp[j];
        if n <= e.bytesCount {
          WalkOutside(es, rc, tmp, rs, r + 1, 0, off, n, p);
          UntouchedCons(Copy(e.addr, off, n), Walk(tmp, rc, r + 1, 0, off, n), p);
        } else {
          var tmp', rs' := tmp[j := Advance(e)], rs[j := rs[j] + 1];
          WalkOutside(es, rc, tmp', rs', r, j + 1, off + e.bytesCount, n - e.bytesCount, p);
          UntouchedCons(Copy(e.addr, off, e.bytesCount), Walk(tmp', rc, r, j + 1, off + e.bytesCount, n - e.bytesCount), p);
        }
      }
    }
  }

  /** Before the first visit every entry is at round 0. */
  lemma TracksStart(es: seq<Entry>, rs: seq<nat>)
    requires rs == seq(|es|, k => 0)
    ensures Tracks(es, es, rs) && Behind(rs, 0, 0)
  {
  }

  /**
   * `set_data` as written, of any length, changes no memory byte outside
   * the layout's unrolled regions: the skipped bytes between them keep
   * their values.
   */
  lemma InterSetFrame(m: seq<Byte>, es: seq<Entry>, rc: nat, buf: seq<Byte>, n: nat, p: nat)
    requires n <= |buf| && p < |m| && Outside(Unrolled(es, rc), 0, p)
    ensures InterSet(m, es, rc, 0, 0, buf, 0, n)[p] == m[p]
  {
    var rs: seq<nat> := seq(|es|, k => 0);
    TracksStart(es, rs);
    WalkOutside(es, rc, es, rs, 0, 0, 0, n, p);
    WalkFits(es, rc, 0, 0, 0, n, |buf|);
    StoredFrame(m, buf, Walk(es, rc, 0, 0, 0, n), p);
  }

  /**
   * `get_data` after `set_data` of `n` bytes, both as written, over
   * non-overlapping unrolled regions: the first `min(n, total)` bytes stored
   * come back and the rest of the caller's buffer is left alone, at every
   * length, although short of the full length each walk on its own departs
   * from the intended one.
   */
  lemma InterSetThenGet(o: seq<Byte>, m: seq<Byte>, es: seq<Entry>, rc: nat, buf: seq<Byte>, n: nat)
    requires n <= |buf| && n <= |o| && Disjoint(Unrolled(es, rc))
    requires MemFits(Walk(es, rc, 0, 0, 0, n), |m|)
    ensures var k := Min(n, Sum(Unrolled(es, rc)));
      var res := InterGet(o, InterSet(m, es, rc, 0, 0, buf, 0, n), es, rc, 0, 0, 0, n);
      res[..k] == buf[..k] && res[k..] == o[k..]
  {
    var m1 := InterSet(m, es, rc, 0, 0, buf, 0, n);
    if n >= Sum(Unrolled(es, rc)) {
      AsWrittenIsStream(o, m, es, rc, buf, n);
      AsWrittenIsStream(o, m1, es, rc, buf, n);
      StreamSetThenGet(o, m, es, rc, buf, n);
    } else {
      ShortSetThenGet(o, m, es, rc, buf, n);
    }
  }

  /** `InterSetThenGet` short of the full length, through the coherence of the walk's copies. */
  lemma ShortSetThenGet(o: seq<Byte>, m: seq<Byte>, es: seq<Entry>, rc: nat, buf: seq<Byte>, n: nat)
    requires n <= |buf| && n <= |o| && Disjoint(Unrolled(es, rc)) && n < Sum(Unrolled(es, rc))
    requires MemFits(Walk(es, rc, 0, 0, 0, n), |m|)
    ensures var res := InterGet(o, InterSet(m, es, rc, 0, 0, buf, 0, n), es, rc, 0, 0, 0, n);
      res[..n] == buf[..n] && res[n..] == o[n..]
  {
    var u, w := Unrolled(es, rc), Walk(es, rc, 0, 0, 0, n);
    var rs: seq<nat> := seq(|es|, k => 0);
    TracksStart(es, rs);
    WalkCoherent(es, rc, es, rs, 0, 0, 0, n);
    WalkFits(es, rc, 0, 0, 0, n, n);
    WalkFits(es, rc, 0, 0, 0, n, |buf|);
    UnrolledUnrolls(es, rc);
    WorkingStart(es);
    var res := InterGet(o, InterSet(m, es, rc, 0, 0, buf, 0, n), es, rc, 0, 0, 0, n);
    assert res == Fetched(o, Stored(m, buf, w), w);
    forall q | 0 <= q < |o|
      ensures res[q] == if q < n then buf[q] else o[q]
    {
      CoherentRoundTrip(o, m, buf, w, q);
      if q < n {
        WalkCovers(u, es, rc, 0, 0, 0, n, q);
      }
    }
    assert res[..n] == buf[..n];
    assert res[n..] == o[n..];
  }

  /**
   * Short of the full length, the `get_data` walk as written is not the
   * intended one: over two 2-byte entries repeated twice, fetching 3 bytes
   * returns the first byte of the second round's first region where the
   * first byte of the first round's second region belongs.
   */
  lemma ShortGetAsWritten()
    ensures var es := [Entry(0, 2, 0, 0), Entry(4, 2, 0, 0)];
      var m := [10, 11, 12, 13, 14, 15, 16, 17];
      && MemFits(Walk(es, 2, 0, 0, 0, 3), |m|)
      && InterGet([0, 0, 0], m, es, 2, 0, 0, 0, 3) == [10, 11, 12]
      && Reaches(Unrolled(es, 2), 0, 3, |m|)
      && StreamGet([0, 0, 0], m, es, 2, 3) == [10, 11, 14]
  {
    var es := [Entry(0, 2, 0, 0), Entry(4, 2, 0, 0)];
    var m: seq<Byte> := [10, 11, 12, 13, 14, 15, 16, 17];
    var o: seq<Byte> := [0, 0, 0];
    var t1 := es[0 := Advance(es[0])];
    assert t1 == [Entry(2, 2, 0, 0), Entry(4, 2, 0, 0)];
    var c1, c2, c3 := Copy(0, 0, 2), Copy(4, 2, 1), Copy(2, 2, 1);
    assert Walk(t1, 2, 1, 0, 2, 1) == [c3] + [];
    assert Walk(t1, 2, 0, 1, 2, 1) == [c2] + ([c3] + []);
    assert Walk(es, 2, 0, 0, 0, 3) == [c1] + ([c2] + ([c3] + []));
    FitsCons(c3, [], |m|);
    FitsCons(c2, [c3] + [], |m|);
    FitsCons(c1, [c2] + ([c3] + []), |m|);
    var o1 := Write(o, 0, m[0..2]);
    assert m[0..2] == [10, 11];
    assert o1 == [10, 11, 0];
    assert m[4..5] == [14];
    var o2 := Write(o1, 2, m[4..5]);
    WriteOne(o1, 2, 14);
    assert o2 == [10, 11, 14];
    assert m[2..3] == [12];
    var o3 := Write(o2, 2, m[2..3]);
    WriteOne(o2, 2, 12);
    assert o3 == [10, 11, 12];
    FetchedCons(o2, m, c3, []);
    FetchedCons(o1, m, c2, [c3] + []);
    FetchedCons(o, m, c1, [c2] + ([c3] + []));
    var u := Unrolled(es, 2);
    assert |u| == 4 && u[0] == Sge(0, 2, 0) && u[1] == Sge(4, 2, 0);
    assert Reaches(u, 1, 1, |m|);
    assert ListGet(o1, m, u, 1, 2, 1) == o2;
    assert ListGet(o, m, u, 0, 0, 3) == o2;
  }

  /** `mkey_layout_new_interleaved`. */
  class InterleavedLayout {
    var repeatCount: U16
    var interleaved: seq<Entry>

    constructor ()
      ensures repeatCount == 0 && interleaved == []
    {
      repeatCount := 0;
      interleaved := [];
    }

    /** `init(rc, i)`: the repeat count is kept in 16 bits. */
    method Init(rc: U32, i: seq<Entry>)
      modifies this
      ensures repeatCount == rc % 0x1_0000 && interleaved == i
    {
      repeatCount := rc % 0x1_0000;
      interleaved := i;
    }

    /**
     * `data_length()`: one round's byte counts summed in a `size_t`, then
     * multiplied by the repeat count; the length of the unrolled regions
     * reduced modulo 2^64.
     */
    method DataLength() returns (len: U64)
      ensures len == Sum(Unrolled(interleaved, repeatCount)) % SizeMax
    {
      len := 0;
      var i := 0;
      ghost var round := CountFrom(interleaved, i);
      while i < |interleaved|
        invariant 0 <= i <= |interleaved| && CountFrom(interleaved, i) <= round
        invariant len == (round - CountFrom(interleaved, i)) % SizeMax
      {
        AddMod(round - CountFrom(interleaved, i), interleaved[i].bytesCount, SizeMax);
        len := (len + interleaved[i].bytesCount) % SizeMax;
        i := i + 1;
      }
      RoundsMod(interleaved, repeatCount, len);
      len := (len * repeatCount) % SizeMax;
    }

    /** `set_data(buf, n)`: the walk as written, over a working copy of the entries. */
    method SetData(mem: array<Byte>, buf: seq<Byte>, n: U64)
      requires n <= |buf|
      requires MemFits(Walk(interleaved, repeatCount, 0, 0, 0, n), mem.Length)
      modifies mem
      ensures mem[..] == InterSet(old(mem[..]), interleaved, repeatCount, 0, 0, buf, 0, n)
    {
      var tmp := interleaved;
      var r: nat, j: nat, len: nat, off: nat := 0, 0, n, 0;
      ghost var target := InterSet(mem[..], tmp, repeatCount, r, j, buf, off, len);
      while r < repeatCount
        invariant r <= repeatCount && off + len == n
        invariant MemFits(Walk(tmp, repeatCount, r, 0, off, len), mem.Length)
        invariant InterSet(mem[..], tmp, repeatCount, r, 0, buf, off, len) == target
      {
        j := 0;
        while j < |tmp|
          invariant j <= |tmp| && off + len == n
          invariant MemFits(Walk(tmp, repeatCount, r, j, off, len), mem.Length)
          invariant InterSet(mem[..], tmp, repeatCount, r, j, buf, off, len) == target
        {
          var e := tmp[j];
          VisitFits(tmp, repeatCount, r, j, off, len, mem.Length);
          ghost var m0 := mem[..];
          Put(mem, e.addr, buf[off..off + Min(e.bytesCount, len)]);
          SetStep(m0, mem[..], tmp, repeatCount, r, j, buf, off, len, target);
          if len <= e.bytesCount {
            break;
          }
          len, off := len - e.bytesCount, off + e.bytesCount;
          tmp := tmp[j := Advance(e)];
          j := j + 1;
        }
        if j == |tmp| {
          RoundEnd(tmp, repeatCount, r, off, len);
        }
        r := r + 1;
      }
    }

    /**
     * `get_data(out, n)`: the walk as written, over a working copy of the
     * entries; the memory `mem` is only read.
     */
    method GetData(mem: seq<Byte>, out: array<Byte>, n: U64)
      requires n <= out.Length
      requires MemFits(Walk(interleaved, repeatCount, 0, 0, 0, n), |mem|)
      modifies out
      ensures out[..] == InterGet(old(out[..]), mem, interleaved, repeatCount, 0, 0, 0, n)
    {
      var tmp := interleaved;
      var r: nat, j: nat, len: nat, off: nat := 0, 0, n, 0;
      ghost var target := InterGet(out[..], mem, tmp, repeatCount, r, j, off, len);
      while r < repeatCount
        invariant r <= repeatCount && off + len == n
        invariant MemFits(Walk(tmp, repeatCount, r, 0, off, len), |mem|)
        invariant InterGet(out[..], mem, tmp, repeatCount, r, 0, off, len) == target
      {
        j := 0;
        while j < |tmp|
          invariant j <= |tmp| && off + len == n
          invariant MemFits(Walk(tmp, repeatCount, r, j, off, len), |mem|)
          invariant InterGet(out[..], mem, tmp, repeatCount, r, j, off, len) == target
        {
          var e := tmp[j];
          VisitFits(tmp, repeatCount, r, j, off, len, |mem|);
          ghost var o0 := out[..];
          Put(out, off, mem[e.addr..e.addr + Min(e.bytesCount, len)]);
          GetStep(o0, out[..], mem, tmp, repeatCount, r, j, off, len, target);
          if len <= e.bytesCount {
            break;
          }
          len, off := len - e.bytesCount, off + e.bytesCount;
          tmp := tmp[j := Advance(e)];
          j := j + 1;
        }
        if j == |tmp| {
          RoundEnd(tmp, repeatCount, r, off, len);
        }
        r := r + 1;
      }
    }
  }

  /** The size of the region registered for one entry: `RepeatCount * (bytes + skip)` in `uint32_t`. */
  function MrLength(rc: U32, bytesCount: U32, bytesSkip: U32): U32
  {
    (rc * ((bytesCount + bytesSkip) % U32Max)) % U32Max
  }

  /** Below 2^32, the registered size is exactly the repeat count times the stride. */
  lemma MrLengthExact(rc: U32, bytesCount: U32, bytesSkip: U32)
    requires rc * (bytesCount as nat + bytesSkip) < U32Max
    ensures MrLength(rc, bytesCount, bytesSkip) == rc * (bytesCount as nat + bytesSkip)
  {
    var s: nat := bytesCount as nat + bytesSkip;
    if rc > 0 {
      MulAtLeast(rc, s);
      assert s % U32Max == s;
      var p := rc * s;
      assert p % U32Max == p;
    }
  }

  /**
   * The pattern `mkey_layout_new_interleaved_mrs` builds from its flat list
   * of (byte count, skip count) pairs: one entry per pair, at the address
   * and under the key of the region registered for it.
   */
  function Pattern(counts: seq<U32>, grants: seq<Grant>): (es: seq<Entry>)
    requires |counts| == 2 * |grants|
    ensures |es| == |grants|
  {
    seq(|grants|, k requires 0 <= k < |grants| => Entry(grants[k].addr, counts[2 * k], counts[2 * k + 1], grants[k].lkey))
  }

  /** The regions registered for the pairs, in order. */
  function PatternMrs(rc: U32, counts: seq<U32>, grants: seq<Grant>): (mrs: seq<Mr>)
    requires |counts| == 2 * |grants|
    ensures |mrs| == |grants|
  {
    seq(|grants|, k requires 0 <= k < |grants| =>
      Mr(grants[k].addr, MrLength(rc, counts[2 * k], counts[2 * k + 1]), grants[k].lkey))
  }

  /** Without wrap-around, `r` strides move an address on by `r` strides added up. */
  lemma {:induction false} AddrAtTimes(e: Entry, r: nat)
    requires e.addr + Times(r, Stride(e)) + Stride(e) <= SizeMax
    ensures AddrAt(e, r) == e.addr + Times(r, Stride(e))
  {
    if r > 0 {
      AddrAtTimes(e, r - 1);
    }
  }

  /**
   * When the registered size does not wrap and the region ends inside the
   * address space, every round's region of an entry lies inside the region
   * registered for it.
   */
  lemma RoundInsideMr(rc: U32, counts: seq<U32>, grants: seq<Grant>, k: nat, r: nat)
    requires |counts| == 2 * |grants| && k < |grants| && r < rc
    requires (rc as nat) * (counts[2 * k] as nat + counts[2 * k + 1]) < U32Max
    requires grants[k].addr + (rc as nat) * (counts[2 * k] as nat + counts[2 * k + 1]) <= SizeMax
    ensures var e, mr := Pattern(counts, grants)[k], PatternMrs(rc, counts, grants)[k];
      mr.addr <= AddrAt(e, r) && AddrAt(e, r) + e.bytesCount <= mr.addr + mr.size
  {
    var e := Pattern(counts, grants)[k];
    var s: nat := e.bytesCount as nat + e.bytesSkip;
    assert e.addr == grants[k].addr && s == counts[2 * k] as nat + counts[2 * k + 1];
    TimesMul(rc, s);
    TimesGrow(r, rc, s);
    assert Stride(e) == s;
    AddrAtTimes(e, r);
    MrLengthExact(rc, counts[2 * k], counts[2 * k + 1]);
  }

  /** `mkey_layout_new_interleaved_mrs<RepeatCount, Interleaved...>`. */
  class InterleavedMrs {
    const layout: InterleavedLayout
    var mrs: seq<Mr>
    var initialized: bool

    constructor ()
      ensures fresh(layout) && layout.repeatCount == 0 && layout.interleaved == []
      ensures mrs == [] && !initialized
    {
      layout := new InterleavedLayout();
      mrs := [];
      initialized := false;
    }

    /**
     * `init()`: the first call registers one region per (byte count, skip
     * count) pair, large enough for all rounds of that entry, and makes the
     * layout the pattern over those regions; later calls change nothing.
     * Pairs come as a flat list, `counts[2k]` bytes then `counts[2k + 1]`
     * skipped, and `grants[k]` is what registering the `k`-th region gives.
     */
    method Init(rc: U32, counts: seq<U32>, grants: seq<Grant>)
      requires |counts| == 2 * |grants|
      modifies this, layout
      ensures initialized
      ensures old(initialized) ==>
        mrs == old(mrs) && layout.repeatCount == old(layout.repeatCount) && layout.interleaved == old(layout.interleaved)
      ensures !old(initialized) ==>
        && mrs == old(mrs) + PatternMrs(rc, counts, grants)
        && layout.repeatCount == rc % 0x1_0000 && layout.interleaved == Pattern(counts, grants)
    {
      if initialized {
        return;
      }
      initialized := true;
      var es: seq<Entry> := [];
      var k := 0;
      while 2 * k < |counts|
        invariant k <= |grants| && initialized
        invariant mrs == old(mrs) + PatternMrs(rc, counts, grants)[..k]
        invariant es == Pattern(counts, grants)[..k]
      {
        var bytesCount, bytesSkip := counts[2 * k], counts[2 * k + 1];
        var mr := Mr(grants[k].addr, MrLength(rc, bytesCount, bytesSkip), grants[k].lkey);
        var e := Entry(grants[k].addr, bytesCount, bytesSkip, grants[k].lkey);
        assert PatternMrs(rc, counts, grants)[..k + 1] == PatternMrs(rc, counts, grants)[..k] + [mr];
        assert Pattern(counts, grants)[..k + 1] == Pattern(counts, grants)[..k] + [e];
        mrs := mrs + [mr];
        es := es + [e];
        k := k + 1;
      }
      assert PatternMrs(rc, counts, grants)[..k] == PatternMrs(rc, counts, grants);
      assert Pattern(counts, grants)[..k] == Pattern(counts, grants);
      layout.Init(rc, es);
    }
  }
}
