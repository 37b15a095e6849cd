/**
 * The `memcpy` calls a layout's data walk makes, as a list. The `set_data`
 * walks copy from the caller's buffer into memory and the `get_data` walks
 * copy from memory into the caller's buffer, but the two walks of one
 * layout make the same list of copies: each moves `len` bytes between
 * memory address `addr` and buffer offset `off`. Stating a walk as its list
 * of copies lets two walks be compared without any memory contents.
 */
module Copies {
  import opened Bytes

  /** One `memcpy`: `len` bytes between memory address `addr` and buffer offset `off`. */
  datatype Copy = Copy(addr: nat, off: nat, len: nat)

  /** Every copy stays inside a caller's buffer of `size` bytes. */
  predicate BufFits(cs: seq<Copy>, size: nat)
  {
    forall k :: 0 <= k < |cs| ==> cs[k].off + cs[k].len <= size
  }

  /** Every copy stays inside a memory of `size` bytes. */
  predicate MemFits(cs: seq<Copy>, size: nat)
  {
    forall k :: 0 <= k < |cs| ==> cs[k].addr + cs[k].len <= size
  }

  /** Every copy moves nothing. */
  predicate Idle(cs: seq<Copy>)
  {
    forall k :: 0 <= k < |cs| ==> cs[k].len == 0
  }

  /** Memory `m` after the copies, in order, from the caller's buffer `buf` into it. */
  function Stored(m: seq<Byte>, buf: seq<Byte>, cs: seq<Copy>): (r: seq<Byte>)
    requires BufFits(cs, |buf|)
    ensures |r| == |m|
    decreases |cs|
  {
    if |cs| == 0 then m
    else Stored(Write(m, cs[0].addr, buf[cs[0].off..cs[0].off + cs[0].len]), buf, cs[1..])
  }

  /** The caller's buffer `o` after the copies, in order, from memory `m` into it. */
  function Fetched(o: seq<Byte>, m: seq<Byte>, cs: seq<Copy>): (r: seq<Byte>)
    requires MemFits(cs, |m|)
    ensures |r| == |o|
    decreases |cs|
  {
    if |cs| == 0 then o
    else Fetched(Write(o, cs[0].off, m[cs[0].addr..cs[0].addr + cs[0].len]), m, cs[1..])
  }

  /** A list of copies fits exactly when its first copy and the rest fit. */
  lemma FitsCons(c: Copy, cs: seq<Copy>, size: nat)
    ensures BufFits([c] + cs, size) <==> c.off + c.len <= size && BufFits(cs, size)
    ensures MemFits([c] + cs, size) <==> c.addr + c.len <= size && MemFits(cs, size)
    ensures Idle([c] + cs) <==> c.len == 0 && Idle(cs)
  {
    var l := [c] + cs;
    assert l[0] == c;
    assert forall k :: 0 <= k < |cs| ==> l[k + 1] == cs[k];
    assert forall k :: 0 < k < |l| ==> l[k] == cs[k - 1];
  }

  /** Storing a list of copies stores its first copy, then the rest. */
  lemma StoredCons(m: seq<Byte>, buf: seq<Byte>, c: Copy, cs: seq<Copy>)
    requires c.off + c.len <= |buf| && BufFits(cs, |buf|)
    ensures BufFits([c] + cs, |buf|)
    ensures Stored(m, buf, [c] + cs) == Stored(Write(m, c.addr, buf[c.off..c.off + c.len]), buf, cs)
  {
    FitsCons(c, cs, |buf|);
    assert ([c] + cs)[1..] == cs;
  }

  /** Fetching a list of copies fetches its first copy, then the rest. */
  lemma FetchedCons(o: seq<Byte>, m: seq<Byte>, c: Copy, cs: seq<Copy>)
    requires c.addr + c.len <= |m| && MemFits(cs, |m|)
    ensures MemFits([c] + cs, |m|)
    ensures Fetched(o, m, [c] + cs) == Fetched(Write(o, c.off, m[c.addr..c.addr + c.len]), m, cs)
  {
    FitsCons(c, cs, |m|);
    assert ([c] + cs)[1..] == cs;
  }

  /** Copies that move nothing change no memory. */
  lemma {:induction false} StoredIdle(m: seq<Byte>, buf: seq<Byte>, cs: seq<Copy>)
    requires BufFits(cs, |buf|) && Idle(cs)
    ensures Stored(m, buf, cs) == m
    decreases |cs|
  {
    if |cs| > 0 {
      var c := cs[0];
      assert cs == [c] + cs[1..];
      FitsCons(c, cs[1..], |buf|);
      assert buf[c.off..c.off + c.len] == [];
      WriteEmpty(m, c.addr);
      StoredIdle(m, buf, cs[1..]);
    }
  }

  /** Copies that move nothing change no byte of the caller's buffer. */
  lemma {:induction false} FetchedIdle(o: seq<Byte>, m: seq<Byte>, cs: seq<Copy>)
    requires MemFits(cs, |m|) && Idle(cs)
    ensures Fetched(o, m, cs) == o
    decreases |cs|
  {
    if |cs| > 0 {
      var c := cs[0];
      assert cs == [c] + cs[1..];
      FitsCons(c, cs[1..], |m|);
      assert m[c.addr..c.addr + c.len] == [];
      WriteEmpty(o, c.off);
      FetchedIdle(o, m, cs[1..]);
    }
  }

  /** Copy `c` moves byte `q` of the caller's buffer. */
  predicate Covers(c: Copy, q: nat)
  {
    c.off <= q < c.off + c.len
  }

  /** Copy `c` moves memory byte `a`. */
  predicate Touches(c: Copy, a: nat)
  {
    c.addr <= a < c.addr + c.len
  }

  /** Some copy of `cs` moves byte `q` of the caller's buffer. */
  predicate Covered(cs: seq<Copy>, q: nat)
  {
    exists k :: 0 <= k < |cs| && Covers(cs[k], q)
  }

  /** No copy of `cs` moves memory byte `a`. */
  predicate Untouched(cs: seq<Copy>, a: nat)
  {
    forall k :: 0 <= k < |cs| ==> !Touches(cs[k], a)
  }

  /**
   * Every buffer byte a copy moves is either moved again by a later copy,
   * or the memory byte it went to is left alone by every later copy: with
   * such copies, storing and then fetching brings each moved byte back.
   */
  ghost predicate Coherent(cs: seq<Copy>)
    decreases |cs|
  {
    |cs| == 0 ||
    (Coherent(cs[1..]) &&
     forall q: nat :: Covers(cs[0], q) ==> Covered(cs[1..], q) || Untouched(cs[1..], cs[0].addr + (q - cs[0].off)))
  }

  /** A list of copies moves a buffer byte exactly when its first copy or the rest does. */
  lemma CoveredCons(c: Copy, cs: seq<Copy>, q: nat)
    ensures Covered([c] + cs, q) <==> Covers(c, q) || Covered(cs, q)
  {
    var l := [c] + cs;
    assert l[0] == c;
    if Covered(cs, q) {
      var k :| 0 <= k < |cs| && Covers(cs[k], q);
      assert l[k + 1] == cs[k];
    }
    if Covered(l, q) && !Covers(c, q) {
      var k :| 0 <= k < |l| && Covers(l[k], q);
      assert l[k] == cs[k - 1];
    }
  }

  /** A list of copies leaves a memory byte alone exactly when its first copy and the rest do. */
  lemma UntouchedCons(c: Copy, cs: seq<Copy>, a: nat)
    ensures Untouched([c] + cs, a) <==> !Touches(c, a) && Untouched(cs, a)
  {
    var l := [c] + cs;
    assert l[0] == c;
    assert forall k :: 0 <= k < |cs| ==> l[k + 1] == cs[k];
  }

  lemma CoherentCons(c: Copy, cs: seq<Copy>)
    ensures Coherent([c] + cs) <==>
      Coherent(cs) && forall q: nat :: Covers(c, q) ==> Covered(cs, q) || Untouched(cs, c.addr + (q - c.off))
  {
    assert ([c] + cs)[1..] == cs;
  }

  /**
   * A first copy of `len < n` bytes at `off` that misses memory byte `a`,
   * before copies that miss it too or move every byte from `off + len` to
   * `off + n`: together they miss it or move every byte from `off` on.
   */
  lemma CoverJoin(c: Copy, cs: seq<Copy>, a: nat, off: nat, n: nat)
    requires c.off == off && c.len < n && !Touches(c, a)
    requires Untouched(cs, a) || forall q: nat :: off + c.len <= q < off + n ==> Covered(cs, q)
    ensures Untouched([c] + cs, a) || forall q: nat :: off <= q < off + n ==> Covered([c] + cs, q)
  {
    UntouchedCons(c, cs, a);
    if !Untouched(cs, a) {
      forall q: nat | off <= q < off + n
        ensures Covered([c] + cs, q)
      {
        CoveredCons(c, cs, q);
      }
    }
  }

  /** A first copy of `n` bytes at `off` moves every byte from `off` to `off + n`. */
  lemma CoverHead(c: Copy, cs: seq<Copy>, off: nat, n: nat)
    requires c.off == off && c.len == n
    ensures forall q: nat :: off <= q < off + n ==> Covered([c] + cs, q)
  {
    forall q: nat | off <= q < off + n
      ensures Covered([c] + cs, q)
    {
      CoveredCons(c, cs, q);
    }
  }

  /** A memory byte no copy moves keeps its value. */
  lemma {:induction false} StoredFrame(m: seq<Byte>, buf: seq<Byte>, cs: seq<Copy>, p: nat)
    requires BufFits(cs, |buf|) && p < |m| && Untouched(cs, p)
    ensures Stored(m, buf, cs)[p] == m[p]
    decreases |cs|
  {
    if |cs| > 0 {
      var c := cs[0];
      assert cs == [c] + cs[1..];
      FitsCons(c, cs[1..], |buf|);
      UntouchedCons(c, cs[1..], p);
      var d := buf[c.off..c.off + c.len];
      WriteAt(m, c.addr, d, p);
      StoredFrame(Write(m, c.addr, d), buf, cs[1..], p);
    }
  }

  /** A buffer byte the first copy stores, at a memory byte no later copy touches, stays stored. */
  lemma StoredKept(m: seq<Byte>, buf: seq<Byte>, c: Copy, w: seq<Copy>, q: nat)
    requires c.off + c.len <= |buf| && c.addr + c.len <= |m| && BufFits(w, |buf|)
    requires Covers(c, q) && Untouched(w, c.addr + (q - c.off))
    ensures Stored(Write(m, c.addr, buf[c.off..c.off + c.len]), buf, w)[c.addr + (q - c.off)] == buf[q]
  {
    var a, d := c.addr + (q - c.off), buf[c.off..c.off + c.len];
    StoredFrame(Write(m, c.addr, d), buf, w, a);
    WriteAt(m, c.addr, d, a);
  }

  /**
   * Storing coherent copies and fetching them back returns every buffer byte
   * the copies move and leaves every other byte of the caller's buffer alone.
   */
  lemma {:induction false} CoherentRoundTrip(o: seq<Byte>, m: seq<Byte>, buf: seq<Byte>, cs: seq<Copy>, q: nat)
    requires BufFits(cs, |buf|) && MemFits(cs, |m|) && Coherent(cs) && q < |o|
    ensures Covered(cs, q) ==> q < |buf|
    ensures Fetched(o, Stored(m, buf, cs), cs)[q] == if Covered(cs, q) then buf[q] else o[q]
    decreases |cs|
  {
    if |cs| > 0 {
      var c, w := cs[0], cs[1..];
      assert cs == [c] + w;
      FitsCons(c, w, |buf|);
      FitsCons(c, w, |m|);
      CoveredCons(c, w, q);
      var d := buf[c.off..c.off + c.len];
      var m1 := Write(m, c.addr, d);
      var mm := Stored(m1, buf, w);
      var o1 := Write(o, c.off, mm[c.addr..c.addr + c.len]);
      assert Stored(m, buf, cs) == mm;
      assert Fetched(o, mm, cs) == Fetched(o1, mm, w);
      CoherentRoundTrip(o1, m1, buf, w, q);
      if !Covered(w, q) {
        WriteAt(o, c.off, mm[c.addr..c.addr + c.len], q);
        if Covers(c, q) {
          StoredKept(m, buf, c, w, q);
        }
      }
    }
  }
}
