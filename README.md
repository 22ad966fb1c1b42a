# loose_enum in Dafny

A model of the `loose_enum` crate: open ("loose") enums. An open enum has a
fixed, ordered list of named cases. Each case is bound to one value of a
representation type: an integer, a string or a generic integer parameter.
One more catch-all case keeps any representation value that no named case
claims. The model covers four things:

- the conversion between the representation and the enum, in both directions;
- the serde layer, which mirrors that conversion;
- the `LooseBool<T>` instance (`False = 0`, `True = 1`) and its fallible
  narrowing to `bool`;
- the two example programs built on `LooseBool`.

Each declaration `enum Name: R { A = a, B = b, ... }` is modelled by a table
`[a, b, ...]` of type `seq<R>`. A value of the enum is a
`Loose<R> = Named(idx) | Unknown(val)`, where `Named(i)` is the case declared
at position `i`. The macro produces three arms: `String`, a concrete primitive
type, and a generic `T`. All three expand to the same guard-chain `match`, so
each is the same Dafny function at a different `R`. `src/lib.rs` calls the
catch-all `Unknown`, while `src/__internal.rs` and the generic example call it
`Undefined`. Both names are the one constructor `Unknown` here.

Files:

- `results.dfy`: the `Result` datatype.
- `prim_ints.dfy`: the fixed-width integer types the tests use, as newtypes.
- `loose_enum.dfy`: the data model, `FromRepr`, `ToRepr`, `Deserialize`,
  `Serialize`, and the lemmas on classification, round trips and
  serialization.
- `lib_test_enums.dfy`: the crate's own test enums.
- `loose_bool.dfy`: `LooseBool<T>` and its unit tests.
- `loose_bool_examples.dfy`: the `i32` example and the generic example.

Inputs that come from outside the crate are parameters:

- The serde framework's decoder for `R` is a function `F -> Result<R, E>`.
- Its encoder for `R` is a function `R -> S`.
- The integer constants `T::ZERO` and `T::ONE` are the arguments `zero` and
  `one`.

Nothing does arithmetic on a representation value; it is only compared for
equality. So an unbounded `int`, or any newtype of it, stands for every
primitive width.

`ToRepr` and `Serialize` require `WellFormed(table, e)`. This is the
host type system's guarantee that a named case is one of the declared ones.
`LooseBool.Valid` is the same guarantee for two cases.

## Model

| member | source | states |
|---|---|---|
| LooseEnum.NamedCases | src/__internal.rs:14-22 | The generated enum has exactly one named case per declared entry, and none of them is the catch-all. |
| LooseEnum.Scan | src/lib.rs:102-105 | The guard arms are tried in declaration order from arm `k` on. A hit is the earliest arm at or after `k` whose value equals the input. A miss means no arm from `k` on matches, and the fallback holds the input unchanged. |
| LooseEnum.FromRepr | src/lib.rs:100-107 | `From<R>` always gives a well-formed value. A named result is the first declared case with the input's value. A catch-all result holds exactly the input, and the input is then not a declared value. |
| LooseEnum.ToRepr | src/lib.rs:109-116 | `From<Name> for R` and `to_repr` give a value back through `From` exactly for the values `From` can produce: `From(to_repr(e)) == e` holds exactly when `e` is a named case declared first with its value, or a catch-all whose payload is not declared. A named case gives its declared value and the catch-all its payload. |
| LooseEnum.FromReprNamedIff | src/lib.rs:168-175 | The generic `From` gives `Named(i)` exactly when `i` is the first position declared with the input's value. |
| LooseEnum.FromReprUnknownIff | src/__internal.rs:103-110 | `From` gives `Unknown(w)` exactly when `w` is the input and no case is declared with it. |
| LooseEnum.DuplicateUnreachable | src/lib.rs:103 | A case declared after an earlier case with the same value is never the result of `From`, for any input. |
| LooseEnum.NamedStable | src/__internal.rs:134-141 | When the declared values are distinct, each case's own value classifies as that case. |
| LooseEnum.RoundTrip | src/lib.rs:178-185 | `to_repr(from(v)) == v` for every value `v` of the representation type. |
| LooseEnum.ClassifyReprIff | src/lib.rs:109-116 | `from(to_repr(e)) == e` holds exactly for the values `From` can produce. These are named cases declared first with their value, and catch-alls whose payload is not declared. |
| LooseEnum.UnknownReclassified | src/lib.rs:113 | `Unknown(v)` survives the round trip through its representation exactly when `v` is not a declared value. |
| LooseEnum.NamedRoundTrip | src/lib.rs:112 | When the declared values are distinct, `from(to_repr(Named(i))) == Named(i)`. |
| LooseEnum.ToReprInjective | src/__internal.rs:112-119 | Two values that `From` can produce and that have the same representation are equal. |
| LooseEnum.AliasedUnknown | src/lib.rs:97 | A catch-all built directly with a declared value differs from that named case, has the same representation, and reclassifies as a named case. Equality compares the tag first. |
| LooseEnum.Deserialize | src/lib.rs:119-130 | `deserialize` fails exactly when the inner decode fails, with the inner error. Otherwise it gives a value of the enum whose representation is exactly the decoded value. |
| LooseEnum.DeserializeClassifies | src/__internal.rs:214-225 | Once the inner decode gives `v`, `deserialize` succeeds. It gives `Named(i)` exactly when `i` is the first position declared with `v`, and `Unknown(v)` exactly when `v` is not declared. An unrecognised value is never an error. |
| LooseEnum.Serialize | src/lib.rs:133-143 | `serialize` encodes the declared value of a named case or the payload of the catch-all, which is exactly the encoding of the value `to_repr` returns. |
| LooseEnum.SerdeRoundTrip | src/__internal.rs:227-237 | Take a format whose decoder returns what its encoder wrote. For every value `e`, deserializing the serialization of `e` gives `Ok(from(to_repr(e)))`. |
| LooseEnum.SerdeRoundTripCanonical | src/__internal.rs:253-276 | Through such a format, every value `From` can produce is reproduced exactly, catch-all payloads included. |
| LibTestEnums.StringEnumClassifies | src/lib.rs:32-39 | A string classifies by exact character-sequence equality with the literals `"Apple"`, `"Banana"` and `""`. Every other string becomes the catch-all holding that string. |
| LibTestEnums.EmptyLiteralIsNamed | src/lib.rs:221-227 | The declared empty literal `String::default()` makes `""` the named case `Orange`, not the catch-all, and `Orange` converts back to `""`. |
| LibTestEnums.IntEnumScenario | src/lib.rs:229-233 | Over `u8` with `Zero = 0`: 0 is `Zero`, 123 is `Unknown(123)`, and its representation is 123. |
| LooseBool.Default | src/loose_bool.rs:15-16 | The default case is `False`. |
| LooseBool.FromBool | src/loose_bool.rs:31-36 | `from_bool` is total and never gives the catch-all. `is_true` of the result is `b`, and `is_false` of it is `!b`. |
| LooseBool.TryIntoBool | src/loose_bool.rs:39-49 | Narrowing gives `Ok(true)` exactly on `True` and `Ok(false)` exactly on `False`. It gives `Err(UnknownBoolError)` exactly on a catch-all, whatever the payload. |
| LooseBool.FromRepr | src/loose_bool.rs:6-19 | `From<T>` for `LooseBool<T>` gives one of `False`, `True` or the catch-all. |
| LooseBool.ToRepr | src/loose_bool.rs:14-18 | `to_repr` of `LooseBool<T>`: `False` gives `T::ZERO`, `True` gives `T::ONE`, and a catch-all gives its payload. |
| LooseBool.FromReprClassifies | src/loose_bool.rs:68-101 | `ZERO` gives `False` and `ONE` gives `True`. Every other value, negatives included, gives the catch-all holding that value. |
| LooseBool.ReprRoundTrip | src/loose_bool.rs:14-17 | `to_repr(from(v)) == v` for every integer `v`. |
| LooseBool.NarrowingInverse | src/loose_bool.rs:42-48 | Narrowing gives `Ok(b)` exactly on `from_bool(b)`. |
| LooseBool.FromBoolRoundTrip | src/loose_bool.rs:139-142 | `try_from(from_bool(b)) == Ok(b)` for both booleans. |
| LooseBool.PredicatesExclusive | src/loose_bool.rs:22-28 | `is_true` and `is_false` never both hold, and both are false on the catch-all. |
| LooseBool.NarrowFromRepr | src/loose_bool.rs:128-136 | Classifying and then narrowing gives `false` for `ZERO`, `true` for `ONE`, and `UnknownBoolError` for every other value. |
| LooseBoolTests.U8ToLoose | src/loose_bool.rs:67-79 | Over `u8`: 0 is `False`, 1 is `True`, and every `i >= 2` is `Unknown(i)`. |
| LooseBoolTests.I8ToLoose | src/loose_bool.rs:81-101 | Over `i8`: 0 is `False`, 1 is `True`, and every `i >= 2` and every negative `i` is `Unknown(i)`. |
| LooseBoolTests.LooseToInt | src/loose_bool.rs:103-125 | Over `u8` and `i8`: `False` gives 0, `True` gives 1, and `Unknown(i)` gives `i` for every value. |
| LooseBoolTests.LooseToBool | src/loose_bool.rs:127-136 | Over `i32`: `True` narrows to `true`, `False` to `false`, and every catch-all fails. |
| LooseBoolTests.BoolToLoose | src/loose_bool.rs:138-142 | Over `u64`: `from_bool(false)` is `False` and `from_bool(true)` is `True`. |
| LooseBoolI32Example.I32Classifies | examples/loose_bool.rs:13-19 | Over `i32`: 0 is `False`, 1 is `True`, every other value is the catch-all, and the default is `False`. |
| LooseBoolI32Example.TryFromExact | examples/loose_bool.rs:34-53 | `bool::try_from` succeeds exactly on the named cases, with `Ok(b)` exactly on `From<bool>(b)`, and it undoes `From<bool>`. |
| LooseBoolI32Example.UnknownRangeFails | examples/loose_bool.rs:71-83 | `bool::try_from(Unknown(i))` fails with `UnknownBoolError` for every `i`, which covers the test's loop over 2..256. |
| LooseBoolGenericExample.LooseToBoolU8 | examples/loose_bool_generic.rs:71-80 | Over `u8`: the named cases narrow to their booleans, and every `Undefined(i)` fails with the data-free error. |
| LooseBoolGenericExample.BoolToLooseI64 | examples/loose_bool_generic.rs:16-17 | Over `i64`: `from_bool(false)` is the default `False`, whose representation is `T::ZERO`. `from_bool(true)` is `True`, whose representation is `T::ONE`. 0 and 1 classify as these two cases. |

## Left out

- The `macro_rules!` matching and expansion: token trees, visibility, attribute forwarding and trait bounds. The model works on the expanded functions over a declared table.
- `#[derive(...)]`, `bevy_reflect` and the `cfg` feature gates. Derived equality is Dafny's datatype equality, which compares the tag and then the payload. Derived ordering and hashing are not modelled.
- The serde framework itself: the `Deserializer` and `Serializer` traits and their error types. The inner decoder and the encoder are function parameters.
- `FloatEnum` (src/lib.rs:235-240): floating-point equality, with its NaN and signed-zero behaviour, is not modelled.
- The `Display::fmt` bodies of `UnknownBoolError` and `UndefinedBoolError`: they only format a constant message.
- `From<&str>` (src/__internal.rs:71-78) is not a separate member. Dafny strings are `seq<char>`, with no owned or borrowed form. So `From<&str>` and `From<String>` are both `LooseEnum.FromRepr` at `R = string`, and they agree by definition.
- String ownership and allocation (`to_string`, `as_str`): the payload is the same character sequence.
- `is_true` and `is_false` (`LooseBool.IsTrue`, `LooseBool.IsFalse`) are predicates with no contract of their own. Their properties are in `FromBool`, `TryIntoBool` and `PredicatesExclusive`.
