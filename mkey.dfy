/**
 * `mkey_dv_new<Setters...>` together with its `mkey_dv` and `mkey` bases:
 * an mlx5 memory key configured by an ordered list of facets ("setters").
 * Every device call the object makes is recorded, in order, in a command
 * trace; the key the device creates is a parameter.
 */
module Mkey {
  import opened Bytes
  import opened SigDomain
  import Layout

  datatype Option<T> = None | Some(value: T)

  /**
   * A facet of the key. Layout facets (`mkey_layout_new` and the list and
   * interleaved layouts built on it) stand here for their `data_length()`;
   * their data walks are the `Layout` and `Interleaved` modules.
   */
  datatype Setter =
    | AccessFlags(flags: U32)
    | LayoutFacet(dataLength: U64)
    | SigBlockFacet(sb: SigBlock)

  /** `IBV_ACCESS_LOCAL_WRITE | IBV_ACCESS_REMOTE_READ | IBV_ACCESS_REMOTE_WRITE` (1 | 4 | 2). */
  const DefaultAccessFlags: U32 := 7

  /** A device call made by the key. */
  datatype Cmd =
    | CreateMkey(maxEntries: U16, createFlags: U32)
    | InitLayout(layout: Setter)
    | WrStart
    | WrComplete
    | MkeyConfigure(numSetters: nat)
    | WrSet(setter: Setter)
    | LocalInv(lkey: U32)

  /** `mkey_setter::adjust_length`: the identity unless the facet is a signature block. */
  function Adjust(s: Setter, length: U64): U64
  {
    match s
    case SigBlockFacet(sb) => AdjustLength(sb, length)
    case _ => length
  }

  /** The length after each facet of `ss` in turn adjusts it, starting from `length`. */
  function Fold(ss: seq<Setter>, length: U64): U64
    decreases |ss|
  {
    if |ss| == 0 then length else Adjust(ss[|ss| - 1], Fold(ss[..|ss| - 1], length))
  }

  /** The data length of the layout, 0 without one. */
  function LayoutLength(l: Option<Setter>): U64
  {
    match l
    case Some(LayoutFacet(d)) => d
    case _ => 0
  }

  /** The last layout facet of `fs`, if there is one. */
  function LastLayout(fs: seq<Setter>): Option<Setter>
    decreases |fs|
  {
    if |fs| == 0 then None
    else if fs[|fs| - 1].LayoutFacet? then Some(fs[|fs| - 1])
    else LastLayout(fs[..|fs| - 1])
  }

  /** One `mlx5dv_wr_set_*` call per facet, in list order. */
  function SetCmds(ss: seq<Setter>): seq<Cmd>
    decreases |ss|
  {
    if |ss| == 0 then [] else [WrSet(ss[0])] + SetCmds(ss[1..])
  }

  /** What `wr_configure` issues: the configure command declaring `|ss|` facets, then the facets. */
  function ConfigureCmds(ss: seq<Setter>): seq<Cmd>
  {
    [MkeyConfigure(|ss|)] + SetCmds(ss)
  }

  // ---------------------------------------------------------------------
  // Properties.
  // ---------------------------------------------------------------------

  /**
   * `LastLayout` names the last layout facet: none when there is no layout
   * facet at all, otherwise one at some position with no layout facet after it.
   */
  lemma {:induction false} LastLayoutIsLast(fs: seq<Setter>)
    ensures LastLayout(fs).None? <==> forall k :: 0 <= k < |fs| ==> !fs[k].LayoutFacet?
    ensures LastLayout(fs).Some? ==>
      exists k :: 0 <= k < |fs| && fs[k] == LastLayout(fs).value && fs[k].LayoutFacet?
        && forall k' :: k < k' < |fs| ==> !fs[k'].LayoutFacet?
    decreases |fs|
  {
    if |fs| > 0 {
      var init := fs[..|fs| - 1];
      LastLayoutIsLast(init);
      assert forall k :: 0 <= k < |init| ==> init[k] == fs[k];
      if LastLayout(fs).Some? && !fs[|fs| - 1].LayoutFacet? {
        var k :| 0 <= k < |init| && init[k] == LastLayout(init).value && init[k].LayoutFacet?
          && forall k' :: k < k' < |init| ==> !init[k'].LayoutFacet?;
        assert fs[k] == LastLayout(fs).value;
      }
    }
  }

  /** `wr_configure` issues `|ss| + 1` commands: the configure command, then `WrSet(ss[k])` for each `k` in order. */
  lemma {:induction false} ConfigureShape(ss: seq<Setter>)
    ensures |ConfigureCmds(ss)| == |ss| + 1 && ConfigureCmds(ss)[0] == MkeyConfigure(|ss|)
    ensures forall k :: 0 <= k < |ss| ==> ConfigureCmds(ss)[k + 1] == WrSet(ss[k])
  {
    SetCmdsAt(ss);
  }

  lemma {:induction false} SetCmdsAt(ss: seq<Setter>)
    ensures |SetCmds(ss)| == |ss|
    ensures forall k :: 0 <= k < |ss| ==> SetCmds(ss)[k] == WrSet(ss[k])
    decreases |ss|
  {
    if |ss| > 0 {
      SetCmdsAt(ss[1..]);
    }
  }

  /** Issuing the facets of `a + b` is issuing those of `a`, then those of `b`. */
  lemma {:induction false} SetCmdsAppend(a: seq<Setter>, b: seq<Setter>)
    ensures SetCmds(a + b) == SetCmds(a) + SetCmds(b)
    decreases |a|
  {
    if |a| > 0 {
      assert (a + b)[1..] == a[1..] + b;
      SetCmdsAppend(a[1..], b);
    } else {
      assert a + b == b;
    }
  }

  /** Adjusting by the facets of `a + b` is adjusting by those of `a`, then by those of `b`. */
  lemma {:induction false} FoldAppend(a: seq<Setter>, b: seq<Setter>, length: U64)
    ensures Fold(a + b, length) == Fold(b, Fold(a, length))
    decreases |b|
  {
    if |b| == 0 {
      assert a + b == a;
    } else {
      var b' := b[..|b| - 1];
      assert (a + b)[..|a + b| - 1] == a + b';
      FoldAppend(a, b', length);
    }
  }

  /**
   * Facets that are not signature blocks, or signature blocks without a
   * signature on either side, leave the length unchanged.
   */
  lemma {:induction false} FoldIdentity(ss: seq<Setter>, length: U64)
    requires forall k :: 0 <= k < |ss| && ss[k].SigBlockFacet? ==>
      DomainSigSize(ss[k].sb.mem) == 0 && DomainSigSize(ss[k].sb.wire) == 0
    ensures Fold(ss, length) == length
    decreases |ss|
  {
    if |ss| > 0 {
      var s := ss[|ss| - 1];
      FoldIdentity(ss[..|ss| - 1], length);
      if s.SigBlockFacet? {
        AdjustNoSigIdentity(s.sb, length);
      }
    }
  }

  /** `mkey_dv_new<Setters...>` with its `mkey_dv` base. */
  class MkeyDvNew {
    const maxEntries: U16
    const createFlags: U32
    /** `mlx5_mkey != NULL`, and the key's `lkey` once it exists. */
    var created: bool
    var lkey: U32
    var layout: Option<Setter>
    var presetSetters: seq<Setter>
    var setters: seq<Setter>
    var initialized: bool
    /** The device calls made so far. */
    var trace: seq<Cmd>

    /**
     * The constructor, with `create_setters(new Setters(env, pd)...)`: every
     * facet is kept and added in argument order, and the last layout facet
     * becomes the layout.
     */
    constructor (me: U16, cf: U32, facets: seq<Setter>)
      ensures maxEntries == me && createFlags == cf && !created && !initialized && trace == []
      ensures presetSetters == facets && setters == facets && layout == LastLayout(facets)
    {
      maxEntries, createFlags := me, cf;
      created, lkey, initialized, trace := false, 0, false, [];
      layout, presetSetters, setters := None, [], [];
      new;
      var i := 0;
      while i < |facets|
        invariant i <= |facets| && !created && !initialized && trace == []
        invariant presetSetters == facets[..i] && setters == facets[..i] && layout == LastLayout(facets[..i])
      {
        var s := facets[i];
        assert facets[..i + 1][..i] == facets[..i];
        presetSetters := presetSetters + [s];
        AddSetter(s);
        if s.LayoutFacet? {
          layout := Some(s);
        }
        i := i + 1;
      }
      assert facets[..i] == facets;
    }

    /** `mkey_dv::init()`: creates the key unless it exists; `key` is the `lkey` the device gives it. */
    method DvInit(key: U32)
      modifies this
      ensures created
      ensures old(created) ==> lkey == old(lkey) && trace == old(trace)
      ensures !old(created) ==> lkey == key && trace == old(trace) + [CreateMkey(maxEntries, createFlags)]
      ensures layout == old(layout) && setters == old(setters) && presetSetters == old(presetSetters)
      ensures initialized == old(initialized)
    {
      if created {
        return;
      }
      created, lkey := true, key;
      trace := trace + [CreateMkey(maxEntries, createFlags)];
    }

    /** `init()`: the first call creates the key and initialises the layout; later calls change nothing. */
    method Init(key: U32)
      modifies this
      ensures initialized
      ensures layout == old(layout) && setters == old(setters) && presetSetters == old(presetSetters)
      ensures old(initialized) ==> created == old(created) && lkey == old(lkey) && trace == old(trace)
      ensures !old(initialized) ==> (created
        && lkey == (if old(created) then old(lkey) else key)
        && trace == old(trace) + (if old(created) then [] else [CreateMkey(maxEntries, createFlags)])
                   + (if layout.Some? then [InitLayout(layout.value)] else []))
    {
      if initialized {
        return;
      }
      initialized := true;
      DvInit(key);
      if layout.Some? {
        trace := trace + [InitLayout(layout.value)];
      }
    }

    /** `set_layout(layout)`: the layout is replaced and also added as a facet. */
    method SetLayout(l: Setter)
      requires l.LayoutFacet?
      modifies this
      ensures layout == Some(l) && setters == old(setters) + [l]
      ensures presetSetters == old(presetSetters) && trace == old(trace) && initialized == old(initialized)
      ensures created == old(created) && lkey == old(lkey)
    {
      layout := Some(l);
      AddSetter(l);
    }

    /** `add_setter(setter)`. */
    method AddSetter(s: Setter)
      modifies this
      ensures setters == old(setters) + [s]
      ensures layout == old(layout) && presetSetters == old(presetSetters) && trace == old(trace)
      ensures initialized == old(initialized) && created == old(created) && lkey == old(lkey)
    {
      setters := setters + [s];
    }

    /** `wr_configure(qp)`: one configure command declaring every facet, then each facet in order. */
    method WrConfigure()
      modifies this
      ensures trace == old(trace) + ConfigureCmds(setters)
      ensures setters == old(setters) && layout == old(layout) && presetSetters == old(presetSetters)
      ensures initialized == old(initialized) && created == old(created) && lkey == old(lkey)
    {
      trace := trace + [MkeyConfigure(|setters|)];
      var i := 0;
      while i < |setters|
        invariant i <= |setters|
        invariant trace == old(trace) + [MkeyConfigure(|setters|)] + SetCmds(setters[..i])
        invariant setters == old(setters) && layout == old(layout) && presetSetters == old(presetSetters)
        invariant initialized == old(initialized) && created == old(created) && lkey == old(lkey)
      {
        SetCmdsAppend(setters[..i], [setters[i]]);
        assert setters[..i + 1] == setters[..i] + [setters[i]];
        assert SetCmds([setters[i]]) == [WrSet(setters[i])] by {
          assert [setters[i]][1..] == [];
        }
        trace := trace + [WrSet(setters[i])];
        i := i + 1;
      }
      assert setters[..i] == setters;
    }

    /** `configure(qp)`: `wr_configure` between a work-request start and completion. */
    method Configure()
      modifies this
      ensures trace == old(trace) + [WrStart] + ConfigureCmds(setters) + [WrComplete]
      ensures setters == old(setters) && layout == old(layout) && presetSetters == old(presetSetters)
      ensures initialized == old(initialized) && created == old(created) && lkey == old(lkey)
    {
      trace := trace + [WrStart];
      WrConfigure();
      trace := trace + [WrComplete];
    }

    /** `invalidate(qp)`: a local invalidation of the key between a start and a completion. */
    method Invalidate()
      requires created
      modifies this
      ensures trace == old(trace) + [WrStart, LocalInv(lkey), WrComplete]
      ensures setters == old(setters) && layout == old(layout) && presetSetters == old(presetSetters)
      ensures initialized == old(initialized) && created == old(created) && lkey == old(lkey)
    {
      trace := trace + [WrStart, LocalInv(lkey), WrComplete];
    }

    /**
     * `sge()`: the layout's data length (0 without a layout), adjusted by
     * every facet in list order, as an `ibv_sge` at address 0 whose 32-bit
     * `length` keeps the low bits of that length.
     */
    method Sge() returns (s: Layout.Sge)
      requires created
      ensures s == Layout.Sge(0, Fold(setters, LayoutLength(layout)) % U32Max, lkey)
    {
      var length := LayoutLength(layout);
      ghost var start := length;
      var i := 0;
      while i < |setters|
        invariant i <= |setters| && length == Fold(setters[..i], start)
      {
        assert setters[..i + 1][..i] == setters[..i];
        length := Adjust(setters[i], length);
        i := i + 1;
      }
      assert setters[..i] == setters;
      s := Layout.Sge(0, length % U32Max, lkey);
    }
  }

  /**
   * The `sge()` length of a key whose facets are a layout followed by
   * `mkey_sig_block_none` is the layout's data length, as `ibv_sge` keeps it.
   */
  lemma LayoutThenNoneSge(dataLength: U64)
    ensures Fold([LayoutFacet(dataLength), SigBlockFacet(SigBlockNone)], dataLength) == dataLength
  {
    var ss := [LayoutFacet(dataLength), SigBlockFacet(SigBlockNone)];
    FoldIdentity(ss, dataLength);
  }
}
