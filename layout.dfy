/**
 * The scatter/gather ("list") memory layout of a new-API mkey: an ordered
 * list of regions of the process address space that the mkey presents as
 * one contiguous buffer, together with the list builder that registers one
 * memory region per requested size.
 *
 * The address space is one array of bytes `mem`; a region's `addr` is an
 * index into it. The walks over the list are written by position, as the
 * C loops run: region `i`, offset `off` into the caller's buffer, `n` bytes
 * still to go.
 */
module Layout {
  import opened Bytes
  import opened Copies

  /** `struct ibv_sge`: a region of memory and the key it is registered under. */
  datatype Sge = Sge(addr: U64, length: U32, lkey: U32)

  function Min(a: nat, b: nat): nat
  {
    if a <= b then a else b
  }

  /** The total length of the regions from the `i`-th on, without wrap-around. */
  function SumFrom(sgl: seq<Sge>, i: nat): nat
    decreases |sgl| - i
  {
    if i >= |sgl| then 0 else sgl[i].length + SumFrom(sgl, i + 1)
  }

  function Sum(sgl: seq<Sge>): nat
  {
    SumFrom(sgl, 0)
  }

  predicate InRegion(e: Sge, p: nat)
  {
    e.addr <= p < e.addr + e.length
  }

  /** Address `p` lies in none of the regions from the `i`-th on. */
  predicate Outside(sgl: seq<Sge>, i: nat, p: nat)
  {
    forall j :: i <= j < |sgl| ==> !InRegion(sgl[j], p)
  }

  /** No two regions of the list overlap. */
  predicate Disjoint(sgl: seq<Sge>)
  {
    forall i, j ::
      0 <= i < j < |sgl| ==>
        sgl[i].addr + sgl[i].length <= sgl[j].addr || sgl[j].addr + sgl[j].length <= sgl[i].addr
  }

  /**
   * Every copy that a `set_data` or `get_data` of `n` bytes makes from the
   * `i`-th region on stays inside a memory of `size` bytes: each region
   * visited is valid for the part of it that is copied, and the walk stops
   * at the region where `n` runs out.
   */
  predicate Reaches(sgl: seq<Sge>, i: nat, n: nat, size: nat)
    decreases |sgl| - i
  {
    i >= |sgl| ||
    (sgl[i].addr + Min(sgl[i].length, n) <= size
     && (n <= sgl[i].length || Reaches(sgl, i + 1, n - sgl[i].length, size)))
  }

  /**
   * Memory after the `set_data` walk from region `i`, with `buf[off..]` still
   * to store and `n` bytes to go: each region in turn receives the next
   * `min(length, n)` bytes, and the walk ends at the region that takes the
   * last byte.
   */
  function ListSet(m: seq<Byte>, sgl: seq<Sge>, i: nat, buf: seq<Byte>, off: nat, n: nat): (r: seq<Byte>)
    requires off + n <= |buf|
    ensures |r| == |m|
    decreases |sgl| - i
  {
    if i >= |sgl| then m
    else if n <= sgl[i].length then Write(m, sgl[i].addr, buf[off..off + n])
    else
      ListSet(Write(m, sgl[i].addr, buf[off..off + sgl[i].length]), sgl, i + 1,
              buf, off + sgl[i].length, n - sgl[i].length)
  }

  /**
   * The bytes that the `get_data` walk from region `i` with `n` bytes to go
   * stores: the regions' contents in list order, cut off after `n` bytes.
   */
  function Gather(m: seq<Byte>, sgl: seq<Sge>, i: nat, n: nat): (r: seq<Byte>)
    requires Reaches(sgl, i, n, |m|)
    ensures |r| == Min(n, SumFrom(sgl, i))
    decreases |sgl| - i
  {
    if i >= |sgl| then []
    else if n <= sgl[i].length then m[sgl[i].addr..sgl[i].addr + n]
    else m[sgl[i].addr..sgl[i].addr + sgl[i].length] + Gather(m, sgl, i + 1, n - sgl[i].length)
  }

  /**
   * The caller's buffer `o` after the `get_data` walk from region `i`, with
   * `n` bytes to go and the next byte due at `off`.
   */
  function ListGet(o: seq<Byte>, m: seq<Byte>, sgl: seq<Sge>, i: nat, off: nat, n: nat): (r: seq<Byte>)
    requires Reaches(sgl, i, n, |m|)
    ensures |r| == |o|
    decreases |sgl| - i
  {
    if i >= |sgl| then o
    else if n <= sgl[i].length then Write(o, off, m[sgl[i].addr..sgl[i].addr + n])
    else
      ListGet(Write(o, off, m[sgl[i].addr..sgl[i].addr + sgl[i].length]), m, sgl, i + 1,
              off + sgl[i].length, n - sgl[i].length)
  }

  /** The `get_data` walk stores exactly the gathered bytes, from `off` on. */
  lemma {:induction false} ListGetIsGather(o: seq<Byte>, m: seq<Byte>, sgl: seq<Sge>, i: nat, off: nat, n: nat)
    requires Reaches(sgl, i, n, |m|)
    ensures ListGet(o, m, sgl, i, off, n) == Write(o, off, Gather(m, sgl, i, n))
    decreases |sgl| - i
  {
    if i >= |sgl| {
      WriteEmpty(o, off);
    } else if n > sgl[i].length {
      var a, l := sgl[i].addr, sgl[i].length;
      GatherStep(m, sgl, i, n);
      ListGetIsGather(Write(o, off, m[a..a + l]), m, sgl, i + 1, off + l, n - l);
      WriteThen(o, off, m[a..a + l], Gather(m, sgl, i + 1, n - l), Gather(m, sgl, i, n), l);
    }
  }

  /** The gather walk from region `i` takes that region's bytes first. */
  lemma GatherStep(m: seq<Byte>, sgl: seq<Sge>, i: nat, n: nat)
    requires i < |sgl| && Reaches(sgl, i, n, |m|)
    ensures sgl[i].addr + Min(sgl[i].length, n) <= |m|
    ensures n <= sgl[i].length ==> Gather(m, sgl, i, n) == m[sgl[i].addr..sgl[i].addr + n]
    ensures n > sgl[i].length ==>
      && Reaches(sgl, i + 1, n - sgl[i].length, |m|)
      && Gather(m, sgl, i, n)
         == m[sgl[i].addr..sgl[i].addr + sgl[i].length] + Gather(m, sgl, i + 1, n - sgl[i].length)
  {
  }

  /** `set_data` leaves every byte outside the regions as it was. */
  lemma {:induction false} ListSetFrame(m: seq<Byte>, sgl: seq<Sge>, i: nat, buf: seq<Byte>, off: nat, n: nat, p: nat)
    requires off + n <= |buf| && p < |m| && Outside(sgl, i, p)
    ensures ListSet(m, sgl, i, buf, off, n)[p] == m[p]
    decreases |sgl| - i
  {
    if i < |sgl| {
      var e := sgl[i];
      assert !InRegion(sgl[i], p);
      if n <= e.length {
        WriteAt(m, e.addr, buf[off..off + n], p);
      } else {
        WriteAt(m, e.addr, buf[off..off + e.length], p);
        ListSetFrame(Write(m, e.addr, buf[off..off + e.length]), sgl, i + 1, buf, off + e.length, n - e.length, p);
      }
    }
  }

  /** `set_data` from region `i` on leaves a range that none of those regions overlap as it was. */
  lemma RangeKept(m: seq<Byte>, sgl: seq<Sge>, i: nat, buf: seq<Byte>, off: nat, n: nat, a: nat, l: nat)
    requires off + n <= |buf| && a + l <= |m|
    requires forall j :: i <= j < |sgl| ==> sgl[j].addr + sgl[j].length <= a || a + l <= sgl[j].addr
    ensures ListSet(m, sgl, i, buf, off, n)[a..a + l] == m[a..a + l]
  {
    var r := ListSet(m, sgl, i, buf, off, n);
    forall p | a <= p < a + l ensures r[p] == m[p] {
      assert Outside(sgl, i, p);
      ListSetFrame(m, sgl, i, buf, off, n, p);
    }
    SameSlice(r, m, a, l);
  }

  /** The bytes stored in region `i` survive the stores into the regions after it. */
  lemma HeadKept(m: seq<Byte>, sgl: seq<Sge>, i: nat, buf: seq<Byte>, off: nat, n: nat)
    requires off + n <= |buf| && i < |sgl| && n > sgl[i].length && Disjoint(sgl)
    requires sgl[i].addr + sgl[i].length <= |m|
    ensures ListSet(m, sgl, i, buf, off, n)[sgl[i].addr..sgl[i].addr + sgl[i].length]
         == buf[off..off + sgl[i].length]
  {
    var a, l := sgl[i].addr, sgl[i].length;
    var d := buf[off..off + l];
    assert |d| == l;
    ListSetOnStep(m, sgl, i, buf, off, n);
    DisjointAfter(sgl, i);
    RangeKept(Write(m, a, d), sgl, i + 1, buf, off + l, n - l, a, l);
    WriteSlice(m, a, d);
  }

  /** A region of the `set_data` walk after which bytes are still to go. */
  lemma ListSetOnStep(m: seq<Byte>, sgl: seq<Sge>, i: nat, buf: seq<Byte>, off: nat, n: nat)
    requires off + n <= |buf| && i < |sgl| && n > sgl[i].length
    ensures ListSet(m, sgl, i, buf, off, n)
      == ListSet(Write(m, sgl[i].addr, buf[off..off + sgl[i].length]), sgl, i + 1, buf, off + sgl[i].length, n - sgl[i].length)
  {
  }

  /** In a list of non-overlapping regions, the regions after `i` miss region `i`. */
  lemma DisjointAfter(sgl: seq<Sge>, i: nat)
    requires Disjoint(sgl) && i < |sgl|
    ensures forall j :: i + 1 <= j < |sgl| ==>
      sgl[j].addr + sgl[j].length <= sgl[i].addr || sgl[i].addr + sgl[i].length <= sgl[j].addr
  {
  }

  /**
   * Over non-overlapping regions, the `get_data` walk after the `set_data`
   * walk of the same length returns what was stored: the next `n` bytes of
   * the buffer, or as many as the regions hold when they hold fewer.
   */
  lemma {:induction false} ListSetGather(m: seq<Byte>, sgl: seq<Sge>, i: nat, buf: seq<Byte>, off: nat, n: nat)
    requires off + n <= |buf| && Disjoint(sgl) && Reaches(sgl, i, n, |m|)
    ensures Gather(ListSet(m, sgl, i, buf, off, n), sgl, i, n) == buf[off..off + Min(n, SumFrom(sgl, i))]
    decreases |sgl| - i, 1
  {
    if i < |sgl| {
      if n <= sgl[i].length {
        WriteSlice(m, sgl[i].addr, buf[off..off + n]);
      } else {
        ListSetGatherOn(m, sgl, i, buf, off, n);
      }
    }
  }

  /** `ListSetGather` past a region that the walk fills. */
  lemma {:induction false} ListSetGatherOn(m: seq<Byte>, sgl: seq<Sge>, i: nat, buf: seq<Byte>, off: nat, n: nat)
    requires off + n <= |buf| && Disjoint(sgl) && Reaches(sgl, i, n, |m|) && i < |sgl| && n > sgl[i].length
    ensures Gather(ListSet(m, sgl, i, buf, off, n), sgl, i, n) == buf[off..off + Min(n, SumFrom(sgl, i))]
    decreases |sgl| - i, 0
  {
    var a, l := sgl[i].addr, sgl[i].length;
    ListSetGather(Write(m, a, buf[off..off + l]), sgl, i + 1, buf, off + l, n - l);
    ListSetGatherStep(m, sgl, i, buf, off, n);
  }

  /** The step of `ListSetGather` past a region that the walk fills. */
  lemma ListSetGatherStep(m: seq<Byte>, sgl: seq<Sge>, i: nat, buf: seq<Byte>, off: nat, n: nat)
    requires off + n <= |buf| && Disjoint(sgl) && Reaches(sgl, i, n, |m|) && i < |sgl| && n > sgl[i].length
    requires var a, l := sgl[i].addr, sgl[i].length;
      Gather(ListSet(Write(m, a, buf[off..off + l]), sgl, i + 1, buf, off + l, n - l), sgl, i + 1, n - l)
      == buf[off + l..off + l + Min(n - l, SumFrom(sgl, i + 1))]
    ensures Gather(ListSet(m, sgl, i, buf, off, n), sgl, i, n) == buf[off..off + Min(n, SumFrom(sgl, i))]
  {
    var a, l := sgl[i].addr, sgl[i].length;
    var r := ListSet(Write(m, a, buf[off..off + l]), sgl, i + 1, buf, off + l, n - l);
    assert ListSet(m, sgl, i, buf, off, n) == r;
    HeadKept(m, sgl, i, buf, off, n);
    GatherParts(r, sgl, i, buf, off, n);
  }

  /** The gather walk from region `i` takes that region's stored bytes, then the rest's. */
  lemma GatherParts(r: seq<Byte>, sgl: seq<Sge>, i: nat, buf: seq<Byte>, off: nat, n: nat)
    requires off + n <= |buf| && i < |sgl| && n > sgl[i].length && Reaches(sgl, i, n, |r|)
    requires r[sgl[i].addr..sgl[i].addr + sgl[i].length] == buf[off..off + sgl[i].length]
    requires Reaches(sgl, i + 1, n - sgl[i].length, |r|)
    requires Gather(r, sgl, i + 1, n - sgl[i].length)
          == buf[off + sgl[i].length..off + sgl[i].length + Min(n - sgl[i].length, SumFrom(sgl, i + 1))]
    ensures Gather(r, sgl, i, n) == buf[off..off + Min(n, SumFrom(sgl, i))]
  {
    var l := sgl[i].length;
    GatherStep(r, sgl, i, n);
    SliceJoin(buf, off, l, Min(n - l, SumFrom(sgl, i + 1)));
  }

  /**
   * `get_data` after `set_data` of the same length, over non-overlapping
   * regions: the caller's buffer receives, at `p`, the first `min(n, total)`
   * bytes that were stored from `buf[off..]`, and nothing else of it changes.
   */
  lemma SetThenGet(o: seq<Byte>, m: seq<Byte>, sgl: seq<Sge>, i: nat, buf: seq<Byte>, off: nat, p: nat, n: nat)
    requires off + n <= |buf| && p + n <= |o| && Disjoint(sgl) && Reaches(sgl, i, n, |m|)
    ensures var r := ListGet(o, ListSet(m, sgl, i, buf, off, n), sgl, i, p, n);
      var k := Min(n, SumFrom(sgl, i));
      r[p..p + k] == buf[off..off + k] && r[..p] == o[..p] && r[p + k..] == o[p + k..]
  {
    var m1 := ListSet(m, sgl, i, buf, off, n);
    ListSetGather(m, sgl, i, buf, off, n);
    ListGetIsGather(o, m1, sgl, i, p, n);
    WriteSlice(o, p, Gather(m1, sgl, i, n));
    WriteRest(o, p, Gather(m1, sgl, i, n));
  }

  /** `SetThenGet` for the full length of the regions: every stored byte comes back. */
  lemma SetThenGetAll(o: seq<Byte>, m: seq<Byte>, sgl: seq<Sge>, i: nat, buf: seq<Byte>, off: nat, p: nat, n: nat)
    requires off + n <= |buf| && p + n <= |o| && Disjoint(sgl) && Reaches(sgl, i, n, |m|) && n == SumFrom(sgl, i)
    ensures var r := ListGet(o, ListSet(m, sgl, i, buf, off, n), sgl, i, p, n);
      r[p..p + n] == buf[off..off + n] && r[..p] == o[..p] && r[p + n..] == o[p + n..]
  {
    SetThenGet(o, m, sgl, i, buf, off, p, n);
  }

  /**
   * The copies the list walk from region `i` makes, with the next buffer
   * byte at `off` and `n` bytes to go: each region in turn takes
   * `min(length, n)` bytes, up to the region that takes the last byte. The
   * `set_data` and the `get_data` walk make the same copies.
   */
  function ListCopies(sgl: seq<Sge>, i: nat, off: nat, n: nat): seq<Copy>
    decreases |sgl| - i
  {
    if i >= |sgl| then []
    else if n <= sgl[i].length then [Copy(sgl[i].addr, off, n)]
    else [Copy(sgl[i].addr, off, sgl[i].length)] + ListCopies(sgl, i + 1, off + sgl[i].length, n - sgl[i].length)
  }

  /** The list walk's copies use the buffer from `off` up to `off + n` only. */
  lemma {:induction false} ListCopiesFit(sgl: seq<Sge>, i: nat, off: nat, n: nat, size: nat)
    requires off + n <= size
    ensures BufFits(ListCopies(sgl, i, off, n), size)
    decreases |sgl| - i
  {
    if i < |sgl| {
      var l := sgl[i].length;
      if n <= l {
        FitsCons(Copy(sgl[i].addr, off, n), [], size);
        assert [Copy(sgl[i].addr, off, n)] + [] == [Copy(sgl[i].addr, off, n)];
      } else {
        ListCopiesFit(sgl, i + 1, off + l, n - l, size);
        FitsCons(Copy(sgl[i].addr, off, l), ListCopies(sgl, i + 1, off + l, n - l), size);
      }
    }
  }

  /** The walk stays inside the memory exactly when each of its copies does. */
  lemma {:induction false} ReachesFits(sgl: seq<Sge>, i: nat, off: nat, n: nat, size: nat)
    ensures Reaches(sgl, i, n, size) <==> MemFits(ListCopies(sgl, i, off, n), size)
    decreases |sgl| - i
  {
    if i < |sgl| {
      var l := sgl[i].length;
      if n <= l {
        FitsCons(Copy(sgl[i].addr, off, n), [], size);
        assert [Copy(sgl[i].addr, off, n)] + [] == [Copy(sgl[i].addr, off, n)];
      } else {
        ReachesFits(sgl, i + 1, off + l, n - l, size);
        FitsCons(Copy(sgl[i].addr, off, l), ListCopies(sgl, i + 1, off + l, n - l), size);
      }
    }
  }

  /** The list layout's `set_data` walk stores its list of copies. */
  lemma {:induction false} ListSetStored(m: seq<Byte>, sgl: seq<Sge>, i: nat, buf: seq<Byte>, off: nat, n: nat)
    requires off + n <= |buf|
    ensures BufFits(ListCopies(sgl, i, off, n), |buf|)
    ensures ListSet(m, sgl, i, buf, off, n) == Stored(m, buf, ListCopies(sgl, i, off, n))
    decreases |sgl| - i
  {
    ListCopiesFit(sgl, i, off, n, |buf|);
    if i < |sgl| {
      var a, l := sgl[i].addr, sgl[i].length;
      if n <= l {
        StoredCons(m, buf, Copy(a, off, n), []);
        assert [Copy(a, off, n)] + [] == [Copy(a, off, n)];
      } else {
        var m1 := Write(m, a, buf[off..off + l]);
        ListSetStored(m1, sgl, i + 1, buf, off + l, n - l);
        StoredCons(m, buf, Copy(a, off, l), ListCopies(sgl, i + 1, off + l, n - l));
      }
    }
  }

  /**
   * `set_data` changes no memory byte that none of its `memcpy` calls
   * writes: of each region visited, only the first `min(length, n)` bytes
   * with `n` the bytes still to go, inside the regions or not.
   */
  lemma ListSetUntouched(m: seq<Byte>, sgl: seq<Sge>, i: nat, buf: seq<Byte>, off: nat, n: nat, p: nat)
    requires off + n <= |buf| && p < |m| && Untouched(ListCopies(sgl, i, off, n), p)
    ensures ListSet(m, sgl, i, buf, off, n)[p] == m[p]
  {
    ListSetStored(m, sgl, i, buf, off, n);
    StoredFrame(m, buf, ListCopies(sgl, i, off, n), p);
  }

  /** The list layout's `get_data` walk fetches its list of copies. */
  lemma {:induction false} ListGetFetched(o: seq<Byte>, m: seq<Byte>, sgl: seq<Sge>, i: nat, off: nat, n: nat)
    requires Reaches(sgl, i, n, |m|)
    ensures MemFits(ListCopies(sgl, i, off, n), |m|)
    ensures ListGet(o, m, sgl, i, off, n) == Fetched(o, m, ListCopies(sgl, i, off, n))
    decreases |sgl| - i
  {
    ReachesFits(sgl, i, off, n, |m|);
    if i < |sgl| {
      var a, l := sgl[i].addr, sgl[i].length;
      if n <= l {
        FetchedCons(o, m, Copy(a, off, n), []);
        assert [Copy(a, off, n)] + [] == [Copy(a, off, n)];
      } else {
        var o1 := Write(o, off, m[a..a + l]);
        ListGetFetched(o1, m, sgl, i + 1, off + l, n - l);
        FetchedCons(o, m, Copy(a, off, l), ListCopies(sgl, i + 1, off + l, n - l));
      }
    }
  }

  /** `struct ibvt_mr` as far as the layouts use it: a registered region. */
  datatype Mr = Mr(addr: U64, size: U32, lkey: U32)

  /** `ibvt_mr::sge()`: the whole region under its key. */
  function MrSge(mr: Mr): Sge
  {
    Sge(mr.addr, mr.size, mr.lkey)
  }

  /**
   * What the device grants each registration: the buffer's address and the
   * region's local key.
   */
  datatype Grant = Grant(addr: U64, lkey: U32)

  /** The regions registered for `sizes`, the `i`-th one under `grants[i]`. */
  function Registered(sizes: seq<U32>, grants: seq<Grant>): (r: seq<Mr>)
    requires |grants| == |sizes|
    ensures |r| == |sizes|
    ensures forall i :: 0 <= i < |r| ==> r[i].size == sizes[i]
  {
    seq(|sizes|, i requires 0 <= i < |sizes| => Mr(grants[i].addr, sizes[i], grants[i].lkey))
  }

  function SglOf(mrs: seq<Mr>): (r: seq<Sge>)
    ensures |r| == |mrs|
  {
    seq(|mrs|, i requires 0 <= i < |mrs| => MrSge(mrs[i]))
  }

  /** The requested sizes from the `i`-th on, added up. */
  function TotalFrom(sizes: seq<U32>, i: nat): nat
    decreases |sizes| - i
  {
    if i >= |sizes| then 0 else sizes[i] + TotalFrom(sizes, i + 1)
  }

  /** The layout built over registered regions is as long as the requested sizes together. */
  lemma {:induction false} RegisteredLength(sizes: seq<U32>, grants: seq<Grant>, i: nat)
    requires |grants| == |sizes|
    ensures SumFrom(SglOf(Registered(sizes, grants)), i) == TotalFrom(sizes, i)
    decreases |sizes| - i
  {
    if i < |sizes| {
      RegisteredLength(sizes, grants, i + 1);
    }
  }

  /** `mkey_layout_new_list`. */
  class ListLayout {
    var sgl: seq<Sge>

    constructor ()
      ensures sgl == []
    {
      sgl := [];
    }

    /** `init(l)`: the layout becomes the given list. */
    method Init(l: seq<Sge>)
      modifies this
      ensures sgl == l
    {
      sgl := l;
    }

    /** `data_length()`: the regions' lengths summed in a `size_t`. */
    method DataLength() returns (len: U64)
      ensures len == Sum(sgl) % SizeMax
    {
      len := 0;
      var i := 0;
      while i < |sgl|
        invariant 0 <= i <= |sgl| && SumFrom(sgl, i) <= Sum(sgl)
        invariant len == (Sum(sgl) - SumFrom(sgl, i)) % SizeMax
      {
        AddMod(Sum(sgl) - SumFrom(sgl, i), sgl[i].length, SizeMax);
        len := (len + sgl[i].length) % SizeMax;
        i := i + 1;
      }
    }

    /** `set_data(buf, n)`: scatter the first `n` bytes of `buf` over the regions. */
    method SetData(mem: array<Byte>, buf: seq<Byte>, n: U64)
      requires n <= |buf|
      requires Reaches(sgl, 0, n, mem.Length)
      modifies mem
      ensures mem[..] == ListSet(old(mem[..]), sgl, 0, buf, 0, n)
    {
      var i: nat, len: nat, off: nat := 0, n, 0;
      ghost var target := ListSet(mem[..], sgl, i, buf, off, len);
      while i < |sgl|
        invariant off + len == n && Reaches(sgl, i, len, mem.Length)
        invariant ListSet(mem[..], sgl, i, buf, off, len) == target
      {
        var e := sgl[i];
        var k := Min(e.length, len);
        Put(mem, e.addr, buf[off..off + k]);
        if len <= e.length {
          break;
        }
        len, off := len - e.length, off + e.length;
        i := i + 1;
      }
    }

    /**
     * `get_data(out, n)`: gather the bytes of the regions of memory `mem`
     * into `out`, at most `n` of them. The walk only reads `mem`.
     */
    method GetData(mem: seq<Byte>, out: array<Byte>, n: U64)
      requires n <= out.Length
      requires Reaches(sgl, 0, n, |mem|)
      modifies out
      ensures out[..] == ListGet(old(out[..]), mem, sgl, 0, 0, n)
    {
      var i: nat, len: nat, off: nat := 0, n, 0;
      ghost var target := ListGet(out[..], mem, sgl, i, off, len);
      while i < |sgl|
        invariant off + len == n && Reaches(sgl, i, len, |mem|)
        invariant ListGet(out[..], mem, sgl, i, off, len) == target
      {
        var e := sgl[i];
        var k := Min(e.length, len);
        Put(out, off, mem[e.addr..e.addr + k]);
        if len <= e.length {
          break;
        }
        len, off := len - e.length, off + e.length;
        i := i + 1;
      }
    }
  }

  /** `_mkey_layout_new_list_mrs`: a list layout over regions it registers itself. */
  class ListMrs {
    const list: ListLayout
    var mrs: seq<Mr>
    var initialized: bool

    constructor ()
      ensures fresh(list) && list.sgl == [] && mrs == [] && !initialized
    {
      list := new ListLayout();
      mrs := [];
      initialized := false;
    }

    /**
     * `init(sizes)`: the first call registers one region per size, in order,
     * and makes the layout the list of those regions; later calls change
     * nothing.
     */
    method Init(sizes: seq<U32>, grants: seq<Grant>)
      requires |grants| == |sizes|
      modifies this, list
      ensures initialized
      ensures old(initialized) ==> mrs == old(mrs) && list.sgl == old(list.sgl)
      ensures !old(initialized) ==>
        mrs == old(mrs) + Registered(sizes, grants) && list.sgl == SglOf(Registered(sizes, grants))
    {
      if initialized {
        return;
      }
      initialized := true;
      var sgl: seq<Sge> := [];
      var i := 0;
      while i < |sizes|
        invariant 0 <= i <= |sizes| && initialized
        invariant mrs == old(mrs) + Registered(sizes, grants)[..i]
        invariant sgl == SglOf(Registered(sizes, grants)[..i])
      {
        var mr := Mr(grants[i].addr, sizes[i], grants[i].lkey);
        assert Registered(sizes, grants)[..i + 1] == Registered(sizes, grants)[..i] + [mr];
        mrs := mrs + [mr];
        sgl := sgl + [MrSge(mr)];
        i := i + 1;
      }
      assert Registered(sizes, grants)[..i] == Registered(sizes, grants);
      list.Init(sgl);
    }
  }

  /** The size list of `mkey_layout_new_list_fixed_mrs<Size, Count>::init`. */
  method FixedSizes(size: U32, count: nat) returns (sizes: seq<U32>)
    ensures |sizes| == count
    ensures forall i :: 0 <= i < count ==> sizes[i] == size
  {
    sizes := [];
    var i := 0;
    while i < count
      invariant 0 <= i <= count && |sizes| == i
      invariant forall j :: 0 <= j < i ==> sizes[j] == size
    {
      sizes := sizes + [size];
      i := i + 1;
    }
  }
}
