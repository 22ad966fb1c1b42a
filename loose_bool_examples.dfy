/** The `LooseBool: i32` example: the concrete-representation form of the
    same enum, with its own `is_true`, `is_false`, `From<bool>` and `TryFrom`.
    Their bodies are those of `LooseBool<T>`, so the example is `LooseBool`
    at `T = I32`, `zero = 0`, `one = 1`. */
module LooseBoolI32Example {

  import opened Results
  import opened PrimInts
  import LE = LooseEnum
  import opened LooseBool

  /** Over `i32`, 0 is `False`, 1 is `True`, every other value the catch-all;
      the default is `False`. */
  lemma I32Classifies(i: I32)
    ensures IsFalse(FromRepr<I32>(0, 1, i)) <==> i == 0
    ensures IsTrue(FromRepr<I32>(0, 1, i)) <==> i == 1
    ensures i != 0 && i != 1 ==> FromRepr<I32>(0, 1, i) == LE.Unknown(i)
    ensures IsFalse(Default<I32>())
  {
    FromReprClassifies<I32>(0, 1, i);
  }

  /** `From<bool>` and `TryFrom`: narrowing succeeds exactly on the two named
      cases, with the matching boolean, and undoes `From<bool>`. */
  lemma TryFromExact(e: LE.Loose<I32>, b: bool)
    requires Valid(e)
    ensures TryIntoBool(e).Ok? <==> e.Named?
    ensures TryIntoBool(e) == Ok(b) <==> e == FromBool(b)
    ensures TryIntoBool(FromBool<I32>(b)) == Ok(b)
  {
    NarrowingInverse(e, b);
    FromBoolRoundTrip<I32>(b);
  }

  /** The `loose_to_bool` test: the catch-all fails to narrow, with the
      data-free error, for every payload; this covers the test's loop over
      2..256. */
  lemma UnknownRangeFails()
    ensures forall i: I32 :: TryIntoBool(LE.Unknown(i)) == Err(UnknownBoolError)
  {
  }
}

/** The generic `LooseBool<T>` example, which names the catch-all `Undefined`
    and its error `UndefinedBoolError`; it is `LooseBool` itself, so only its
    tests are stated here, at the widths they use. */
module LooseBoolGenericExample {

  import opened Results
  import opened PrimInts
  import LE = LooseEnum
  import opened LooseBool

  /** `loose_to_bool` over `u8`: the named cases narrow, every catch-all from
      2 to 254 (and every other) fails with the data-free error. */
  lemma LooseToBoolU8()
    ensures TryIntoBool(FromBool<U8>(true)) == Ok(true)
    ensures TryIntoBool(FromBool<U8>(false)) == Ok(false)
    ensures forall i: U8 :: TryIntoBool(LE.Unknown(i)) == Err(UnknownBoolError)
  {
    FromBoolRoundTrip<U8>(true);
    FromBoolRoundTrip<U8>(false);
  }

  /** `bool_to_loose` over `i64`, and `False` (`T::ZERO`) is the default whose
      representation is zero. */
  lemma BoolToLooseI64()
    ensures FromBool<I64>(false) == Default<I64>() && IsTrue(FromBool<I64>(true))
    ensures ToRepr<I64>(0, 1, Default()) == 0 && ToRepr<I64>(0, 1, FromBool(true)) == 1
    ensures FromRepr<I64>(0, 1, 0) == Default() && FromRepr<I64>(0, 1, 1) == FromBool(true)
  {
    FromReprClassifies<I64>(0, 1, 0);
    FromReprClassifies<I64>(0, 1, 1);
  }
}
