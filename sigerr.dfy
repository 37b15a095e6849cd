/**
 * `mkey_sig_err`: the signature error a test expects or a device reports,
 * and the comparison the `mkey_dv::check` overloads make between them.
 * The detail (actual value, expected value, offset) is present exactly when
 * the descriptor says it is valid; `==` compares it only when both sides
 * carry it.
 */
module SigErr {
  import opened Bytes

  /** `enum mlx5dv_mkey_err_type`. */
  datatype ErrType = NoErr | BadGuard | BadRefTag | BadAppTag | BadStorageTag

  /** `struct mlx5dv_sig_err`. */
  datatype ErrInfo = ErrInfo(actual: U64, expected: U64, offset: U64)

  datatype Option<T> = None | Some(value: T)

  /** `mkey_sig_err`: `info` is `Some` exactly when `is_err_info_valid` is set. */
  datatype SigErr = SigErr(errType: ErrType, info: Option<ErrInfo>)

  /** What `mlx5dv_mkey_check` fills in: a kind and the signature detail. */
  datatype DeviceErr = DeviceErr(errType: ErrType, actual: U64, expected: U64, offset: U64)

  /** `mkey_sig_err(e)`: a kind without detail. */
  function OfKind(e: ErrType): (s: SigErr)
    ensures s.errType == e && s.info.None?
  {
    SigErr(e, None)
  }

  /** `mkey_sig_err(et, actual, expected, offset)`: a kind with detail. */
  function WithInfo(e: ErrType, actual: U64, expected: U64, offset: U64): (s: SigErr)
    ensures s.errType == e && s.info == Some(ErrInfo(actual, expected, offset))
  {
    SigErr(e, Some(ErrInfo(actual, expected, offset)))
  }

  /** `mkey_sig_err(const mlx5dv_mkey_err *)`: the detail is taken over unless there is no error. */
  function FromDevice(d: DeviceErr): (s: SigErr)
    ensures s.errType == d.errType
    ensures s.info.None? <==> d.errType == NoErr
    ensures s.info.Some? ==> s.info.value == ErrInfo(d.actual, d.expected, d.offset)
  {
    if d.errType == NoErr then SigErr(NoErr, None)
    else SigErr(d.errType, Some(ErrInfo(d.actual, d.expected, d.offset)))
  }

  /** `operator==`: the same kind, and the same detail when both sides carry detail. */
  predicate Eq(l: SigErr, r: SigErr)
  {
    if l.errType != r.errType then false
    else if l.info.Some? && r.info.Some? then
      l.info.value.actual == r.info.value.actual
      && l.info.value.expected == r.info.value.expected
      && l.info.value.offset == r.info.value.offset
    else true
  }

  /** Descriptors of different kinds are never equal. */
  lemma EqKind(l: SigErr, r: SigErr)
    ensures l.errType != r.errType ==> !Eq(l, r)
  {
  }

  /** Of two descriptors that both carry detail, equality is equality of kind and detail. */
  lemma EqBothInfo(l: SigErr, r: SigErr)
    requires l.info.Some? && r.info.Some?
    ensures Eq(l, r) <==> l == r
  {
    if Eq(l, r) {
      assert l.info.value == r.info.value;
    }
  }

  /** When either side carries no detail, equality is equality of kind. */
  lemma EqOneWithout(l: SigErr, r: SigErr)
    requires l.info.None? || r.info.None?
    ensures Eq(l, r) <==> l.errType == r.errType
  {
  }

  /** Every descriptor equals itself, with or without detail. */
  lemma EqReflexive(s: SigErr)
    ensures Eq(s, s)
  {
  }

  lemma EqSymmetric(l: SigErr, r: SigErr)
    ensures Eq(l, r) <==> Eq(r, l)
  {
  }

  /**
   * `==` is not transitive: a descriptor without detail equals two
   * descriptors of its kind whose details differ.
   */
  lemma EqNotTransitive()
    ensures var a, b, c := WithInfo(BadGuard, 1, 2, 0), OfKind(BadGuard), WithInfo(BadGuard, 3, 2, 0);
      Eq(a, b) && Eq(b, c) && !Eq(a, c)
  {
  }

  /** `mkey_dv::check(err_type)`: the device reports the expected kind. */
  predicate CheckKind(e: ErrType, d: DeviceErr)
  {
    Eq(OfKind(e), FromDevice(d))
  }

  /** `mkey_dv::check(err_type, actual, expected, offset)`. */
  predicate CheckInfo(e: ErrType, actual: U64, expected: U64, offset: U64, d: DeviceErr)
  {
    Eq(WithInfo(e, actual, expected, offset), FromDevice(d))
  }

  /** `check(err_type)` passes exactly when the device reports that kind; its detail is not looked at. */
  lemma CheckKindIff(e: ErrType, d: DeviceErr)
    ensures CheckKind(e, d) <==> d.errType == e
  {
  }

  /**
   * `check(err_type, actual, expected, offset)` passes exactly when the
   * device reports that kind and, unless the kind is `NoErr`, that detail;
   * for `NoErr` the detail given is ignored.
   */
  lemma CheckInfoIff(e: ErrType, actual: U64, expected: U64, offset: U64, d: DeviceErr)
    ensures CheckInfo(e, actual, expected, offset, d)
      <==> d.errType == e && (e == NoErr || (d.actual == actual && d.expected == expected && d.offset == offset))
  {
  }
}
