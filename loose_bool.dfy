/** `LooseBool<T>`: the open enum `False = T::ZERO, True = T::ONE` over a
    primitive integer type `T`, with `False` as its default, and its narrowing
    to `bool`. The constants `T::ZERO` and `T::ONE` are passed explicitly as
    `zero` and `one`. */
module LooseBool {

  import opened Results
  import LE = LooseEnum

  /** The data-free error of narrowing the catch-all to `bool`. */
  datatype UnknownBoolError = UnknownBoolError

  /** Declaration positions of `False` and `True`. */
  const FalseIdx: nat := 0
  const TrueIdx: nat := 1

  /** The declared values, in declaration order. */
  function Table<T>(zero: T, one: T): seq<T> {
    [zero, one]
  }

  /** `e` is one of `False`, `True` or the catch-all: the same condition as
      `LooseEnum.WellFormed(Table(zero, one), e)`, for any `zero` and `one`,
      written without the table because narrowing never looks at it. */
  predicate Valid<T>(e: LE.Loose<T>) {
    e.Named? ==> e.idx <= TrueIdx
  }

  /** `is_true`: `matches!(self, Self::True)`. */
  predicate IsTrue<T>(e: LE.Loose<T>) {
    e.Named? && e.idx == TrueIdx
  }

  /** `is_false`: `matches!(self, Self::False)`. */
  predicate IsFalse<T>(e: LE.Loose<T>) {
    e.Named? && e.idx == FalseIdx
  }

  /** The `#[default]` case. */
  function Default<T>(): (e: LE.Loose<T>)
    ensures Valid(e) && IsFalse(e) && !IsTrue(e)
  {
    LE.Named(FalseIdx)
  }

  /** `from_bool` (and `From<bool>`): total, and never the catch-all. */
  function FromBool<T>(b: bool): (e: LE.Loose<T>)
    ensures Valid(e) && e.Named?
    ensures IsTrue(e) == b && IsFalse(e) == !b
  {
    if b then LE.Named(TrueIdx) else LE.Named(FalseIdx)
  }

  /** `TryFrom<LooseBool<T>> for bool`: succeeds with the matching boolean on
      the two named cases and fails with `UnknownBoolError` on every catch-all. */
  function TryIntoBool<T>(e: LE.Loose<T>): (r: Result<bool, UnknownBoolError>)
    requires Valid(e)
    ensures r == Ok(true) <==> IsTrue(e)
    ensures r == Ok(false) <==> IsFalse(e)
    ensures r == Err(UnknownBoolError) <==> e.Unknown?
  {
    match e
    case Named(i) => if i == FalseIdx then Ok(false) else Ok(true)
    case Unknown(_) => Err(UnknownBoolError)
  }

  /** `From<T> for LooseBool<T>`. */
  function FromRepr<T(==)>(zero: T, one: T, v: T): (e: LE.Loose<T>)
    ensures Valid(e)
  {
    LE.FromRepr(Table(zero, one), v)
  }

  /** `to_repr`: `False` gives `zero`, `True` gives `one`, and the catch-all
      its payload. */
  function ToRepr<T>(zero: T, one: T, e: LE.Loose<T>): (r: T)
    requires Valid(e)
    ensures IsFalse(e) ==> r == zero
    ensures IsTrue(e) ==> r == one
    ensures e.Unknown? ==> r == e.val
  {
    LE.ToRepr(Table(zero, one), e)
  }

  // ---------------------------------------------------------------------

  /** With `zero != one` (as for every primitive integer type): `zero` is
      `False`, `one` is `True`, and every other value, negative ones included,
      is the catch-all holding exactly that value. */
  lemma FromReprClassifies<T>(zero: T, one: T, v: T)
    requires zero != one
    ensures IsFalse(FromRepr(zero, one, v)) <==> v == zero
    ensures IsTrue(FromRepr(zero, one, v)) <==> v == one
    ensures FromRepr(zero, one, v).Unknown? <==> v != zero && v != one
    ensures FromRepr(zero, one, v).Unknown? ==> FromRepr(zero, one, v).val == v
  {
    var t := Table(zero, one);
    LE.FromReprNamedIff(t, v, FalseIdx);
    LE.FromReprNamedIff(t, v, TrueIdx);
    LE.FromReprUnknownIff(t, v, v);
  }

  /** Integer, `LooseBool`, integer is the identity. */
  lemma ReprRoundTrip<T>(zero: T, one: T, v: T)
    ensures ToRepr(zero, one, FromRepr(zero, one, v)) == v
  {
    LE.RoundTrip(Table(zero, one), v);
  }

  /** Narrowing is the inverse of `from_bool`: it succeeds with `b` exactly on
      `from_bool(b)`. */
  lemma NarrowingInverse<T>(e: LE.Loose<T>, b: bool)
    requires Valid(e)
    ensures TryIntoBool(e) == Ok(b) <==> e == FromBool(b)
  {
  }

  /** `try_from(from_bool(b)) == Ok(b)`. */
  lemma FromBoolRoundTrip<T>(b: bool)
    ensures TryIntoBool(FromBool<T>(b)) == Ok(b)
  {
    NarrowingInverse(FromBool<T>(b), b);
  }

  /** `is_true` and `is_false` never both hold, and neither holds on the
      catch-all. */
  lemma PredicatesExclusive<T>(e: LE.Loose<T>)
    ensures !(IsTrue(e) && IsFalse(e))
    ensures e.Unknown? ==> !IsTrue(e) && !IsFalse(e)
  {
  }

  /** Classifying an integer and then narrowing it: `zero` gives `false`,
      `one` gives `true`, and any other value gives `UnknownBoolError`. */
  lemma NarrowFromRepr<T>(zero: T, one: T, v: T)
    requires zero != one
    ensures TryIntoBool(FromRepr(zero, one, v)) ==
      if v == zero then Ok(false)
      else if v == one then Ok(true)
      else Err(UnknownBoolError)
  {
    FromReprClassifies(zero, one, v);
  }
}

/** The unit tests of `LooseBool<T>`, stated for every value of each width. */
module LooseBoolTests {

  import opened Results
  import opened PrimInts
  import LE = LooseEnum
  import opened LooseBool

  /** `u8_to_loose`. */
  lemma U8ToLoose()
    ensures IsFalse(FromRepr<U8>(0, 1, 0)) && IsTrue(FromRepr<U8>(0, 1, 1))
    ensures forall i: U8 :: 2 <= i ==> FromRepr(0, 1, i) == LE.Unknown(i)
  {
    FromReprClassifies<U8>(0, 1, 0);
    FromReprClassifies<U8>(0, 1, 1);
    forall i: U8 | 2 <= i ensures FromRepr(0, 1, i) == LE.Unknown(i) {
      FromReprClassifies(0, 1, i);
    }
  }

  /** `i8_to_loose`, negatives included. */
  lemma I8ToLoose()
    ensures IsFalse(FromRepr<I8>(0, 1, 0)) && IsTrue(FromRepr<I8>(0, 1, 1))
    ensures forall i: I8 :: (2 <= i || i < 0) ==> FromRepr(0, 1, i) == LE.Unknown(i)
  {
    FromReprClassifies<I8>(0, 1, 0);
    FromReprClassifies<I8>(0, 1, 1);
    forall i: I8 | 2 <= i || i < 0 ensures FromRepr(0, 1, i) == LE.Unknown(i) {
      FromReprClassifies(0, 1, i);
    }
  }

  /** `loose_to_u8` and `loose_to_i8`. */
  lemma LooseToInt()
    ensures ToRepr<U8>(0, 1, Default()) == 0 && ToRepr<U8>(0, 1, FromBool(true)) == 1
    ensures ToRepr<I8>(0, 1, Default()) == 0 && ToRepr<I8>(0, 1, FromBool(true)) == 1
    ensures forall i: U8 :: ToRepr(0, 1, LE.Unknown(i)) == i
    ensures forall i: I8 :: ToRepr(0, 1, LE.Unknown(i)) == i
  {
  }

  /** `loose_to_bool` over `i32`. */
  lemma LooseToBool()
    ensures TryIntoBool(FromBool<I32>(true)) == Ok(true)
    ensures TryIntoBool(FromBool<I32>(false)) == Ok(false)
    ensures forall i: I32 :: TryIntoBool(LE.Unknown(i)) == Err(UnknownBoolError)
  {
    FromBoolRoundTrip<I32>(true);
    FromBoolRoundTrip<I32>(false);
  }

  /** `bool_to_loose` over `u64`. */
  lemma BoolToLoose()
    ensures IsFalse(FromBool<U64>(false)) && IsTrue(FromBool<U64>(true))
  {
  }
}
