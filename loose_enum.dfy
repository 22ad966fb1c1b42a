/** An open ("loose") enumeration: a fixed, ordered list of named cases, each
    bound to one value of a representation type `R`, plus one catch-all case
    that keeps any representation value no named case claims.

    One declaration `enum Name: R { A = a, B = b, ... }` of the source is
    modelled by its table of declared values `[a, b, ...]`; the named case
    declared at position `i` is `Named(i)`. The string, the concrete and the
    generic expansions of the source are the same functions at different `R`. */
module LooseEnum {

  import opened Results

  /** A value of an open enum: a named case, by its declaration index, or the
      catch-all case holding a representation value. Equality is tag first,
      then payload, as the derived equality of the generated enum. */
  datatype Loose<R> = Named(idx: nat) | Unknown(val: R)

  /** `e` is a value of the enum whose declared values are `table`: a named
      case must be one of the declared ones. */
  predicate WellFormed<R>(table: seq<R>, e: Loose<R>) {
    e.Named? ==> e.idx < |table|
  }

  /** The named cases of the enum declared by `table`: exactly one per declared
      entry, and none of them is the catch-all. */
  ghost function NamedCases<R>(table: seq<R>): (s: set<Loose<R>>)
    ensures |s| == |table|
    ensures forall e :: e in s ==> e.Named? && WellFormed(table, e)
    ensures forall i :: 0 <= i < |table| ==> Named(i) in s
  {
    if table == [] then {}
    else
      var rest := NamedCases(table[..|table| - 1]);
      assert Named(|table| - 1) !in rest;
      rest + {Named(|table| - 1)}
  }

  /** Position `i` is the first declared entry whose value is `v`. */
  ghost predicate IsFirstMatch<R>(table: seq<R>, v: R, i: nat) {
    i < |table| && table[i] == v && forall j :: 0 <= j < i ==> table[j] != v
  }

  /** Every value of the enum that classifying a representation value can
      produce: a named case that is the first one declared with its value, or
      a catch-all whose payload no named case claims. */
  ghost predicate Canonical<R>(table: seq<R>, e: Loose<R>) {
    WellFormed(table, e) &&
    match e
    case Named(i) => IsFirstMatch(table, table[i], i)
    case Unknown(v) => v !in table
  }

  /** No two named cases are declared with the same value. */
  ghost predicate Distinct<R>(table: seq<R>) {
    forall i, j :: 0 <= i < j < |table| ==> table[i] != table[j]
  }

  /** The guard chain `c if c == value_k => Case_k, ..., other => Unknown(other)`
      from arm `k` on: the arms are tried in declaration order. */
  function Scan<R(==)>(table: seq<R>, v: R, k: nat): (e: Loose<R>)
    requires k <= |table|
    ensures e.Named? ==> k <= e.idx < |table| && table[e.idx] == v
    ensures e.Named? ==> forall j :: k <= j < e.idx ==> table[j] != v
    ensures e.Unknown? ==> e.val == v && forall j :: k <= j < |table| ==> table[j] != v
    decreases |table| - k
  {
    if k == |table| then Unknown(v)
    else if table[k] == v then Named(k)
    else Scan(table, v, k + 1)
  }

  /** Representation to enum (`From<R>`): the first named case declared with
      the input's value, or else the catch-all holding the input unchanged. */
  function FromRepr<R(==)>(table: seq<R>, v: R): (e: Loose<R>)
    ensures WellFormed(table, e)
    ensures e.Named? ==> IsFirstMatch(table, v, e.idx)
    ensures e.Unknown? ==> e == Unknown(v) && v !in table
  {
    Scan(table, v, 0)
  }

  /** Enum to representation (`From<Name> for R`, `to_repr`): a named case
      gives its declared value, the catch-all its payload. It is the inverse
      of `FromRepr` on exactly the values `FromRepr` can produce. */
  function ToRepr<R>(table: seq<R>, e: Loose<R>): (r: R)
    requires WellFormed(table, e)
    ensures e.Named? ==> r == table[e.idx]
    ensures e.Unknown? ==> r == e.val
    ensures FromRepr(table, r) == e <==> Canonical(table, e)
  {
    match e
    case Named(i) => FromReprNamedIff(table, table[i], i); table[i]
    case Unknown(v) => FromReprUnknownIff(table, v, v); v
  }

  /** `Deserialize`: decode a raw representation value with the inner decoder
      of the format, then classify it as `From<R>` does. It fails only with
      the inner decoder's error, and what it gives back is a value of the
      enum whose representation is exactly the decoded value. */
  function Deserialize<F, R(==), E>(table: seq<R>, decode: F -> Result<R, E>, input: F)
    : (r: Result<Loose<R>, E>)
    ensures r.Err? <==> decode(input).Err?
    ensures r.Err? ==> r.error == decode(input).error
    ensures r.Ok? ==> WellFormed(table, r.value) && ToRepr(table, r.value) == decode(input).value
  {
    match decode(input)
    case Err(err) => Err(err)
    case Ok(v) => Ok(FromRepr(table, v))
  }

  /** `Serialize`: encode with the format's encoder for `R` the declared value
      of a named case, or the payload of the catch-all; that is, emit exactly
      the encoding of the enum-to-representation value. */
  function Serialize<R, S>(table: seq<R>, encode: R -> S, e: Loose<R>): (r: S)
    requires WellFormed(table, e)
    ensures r == encode(ToRepr(table, e))
  {
    match e
    case Named(i) => encode(table[i])
    case Unknown(v) => encode(v)
  }

  // ---------------------------------------------------------------------
  // Classification

  /** A representation value classifies as the named case `i` exactly when
      `i` is the first declared entry with that value. */
  lemma FromReprNamedIff<R>(table: seq<R>, v: R, i: nat)
    ensures FromRepr(table, v) == Named(i) <==> IsFirstMatch(table, v, i)
  {
    if IsFirstMatch(table, v, i) {
      assert v in table by { assert table[i] == v; }
    }
  }

  /** A representation value becomes the catch-all exactly when no named case
      is declared with it, and the catch-all then holds that very value. */
  lemma FromReprUnknownIff<R>(table: seq<R>, v: R, w: R)
    ensures FromRepr(table, v) == Unknown(w) <==> w == v && v !in table
  {
  }

  /** A named case declared after an earlier one with the same value is never
      the result of classification. */
  lemma DuplicateUnreachable<R>(table: seq<R>, i: nat, j: nat)
    requires i < j < |table| && table[i] == table[j]
    ensures forall v :: FromRepr(table, v) != Named(j)
  {
    forall v ensures FromRepr(table, v) != Named(j) {
      FromReprNamedIff(table, v, j);
    }
  }

  /** With distinct declared values, each named case's own value classifies
      back to that case. */
  lemma NamedStable<R>(table: seq<R>, i: nat)
    requires Distinct(table) && i < |table|
    ensures FromRepr(table, table[i]) == Named(i)
  {
    FromReprNamedIff(table, table[i], i);
  }

  // ---------------------------------------------------------------------
  // Round trips

  /** Representation, enum, representation is the identity on every value of
      the representation type. */
  lemma RoundTrip<R>(table: seq<R>, v: R)
    ensures ToRepr(table, FromRepr(table, v)) == v
  {
  }

  /** Enum, representation, enum gives back the value exactly when it is one
      that classification can produce. */
  lemma ClassifyReprIff<R>(table: seq<R>, e: Loose<R>)
    requires WellFormed(table, e)
    ensures FromRepr(table, ToRepr(table, e)) == e <==> Canonical(table, e)
  {
    match e
    case Named(i) => FromReprNamedIff(table, table[i], i);
    case Unknown(v) => FromReprUnknownIff(table, v, v);
  }

  /** The catch-all holding `v` survives the round trip through its
      representation exactly when no named case is declared with `v`. */
  lemma UnknownReclassified<R>(table: seq<R>, v: R)
    ensures FromRepr(table, ToRepr(table, Unknown(v))) == Unknown(v) <==> v !in table
  {
    FromReprUnknownIff(table, v, v);
  }

  /** With distinct declared values, every named case survives the round trip
      through its representation. */
  lemma NamedRoundTrip<R>(table: seq<R>, i: nat)
    requires Distinct(table) && i < |table|
    ensures FromRepr(table, ToRepr(table, Named(i))) == Named(i)
  {
    NamedStable(table, i);
  }

  /** Values that classification can produce have distinct representations. */
  lemma ToReprInjective<R>(table: seq<R>, e1: Loose<R>, e2: Loose<R>)
    requires Canonical(table, e1) && Canonical(table, e2)
    requires ToRepr(table, e1) == ToRepr(table, e2)
    ensures e1 == e2
  {
    ClassifyReprIff(table, e1);
    ClassifyReprIff(table, e2);
  }

  /** A catch-all built directly with a declared value is a different enum
      value from the named case, has the same representation, and does not
      survive the round trip: it classifies as a named case. */
  lemma AliasedUnknown<R>(table: seq<R>, i: nat)
    requires i < |table|
    ensures Unknown(table[i]) != Named(i)
    ensures ToRepr(table, Unknown(table[i])) == ToRepr(table, Named(i))
    ensures FromRepr(table, ToRepr(table, Unknown(table[i]))).Named?
  {
    FromReprUnknownIff(table, table[i], table[i]);
  }

  // ---------------------------------------------------------------------
  // Serialization

  /** Once the inner decode gives `v`, deserializing applies the first-match
      rule of `From<R>`: it gives the named case `i` exactly when `i` is the
      first position declared with `v`, and the catch-all holding `v` exactly
      when `v` is not declared, so an unrecognised value is never an error. */
  lemma DeserializeClassifies<F, R, E>(table: seq<R>, decode: F -> Result<R, E>, input: F,
                                       v: R, i: nat)
    requires decode(input) == Ok(v)
    ensures Deserialize(table, decode, input) == Ok(Named(i)) <==> IsFirstMatch(table, v, i)
    ensures Deserialize(table, decode, input) == Ok(Unknown(v)) <==> v !in table
    ensures Deserialize(table, decode, input).Ok?
  {
    FromReprNamedIff(table, v, i);
    FromReprUnknownIff(table, v, v);
  }

  /** Through a format that decodes what it encodes, serializing and then
      deserializing classifies the value's representation afresh. */
  lemma SerdeRoundTrip<F, R, E>(table: seq<R>, decode: F -> Result<R, E>, encode: R -> F,
                                    e: Loose<R>)
    requires WellFormed(table, e)
    requires forall v :: decode(encode(v)) == Ok(v)
    ensures Deserialize(table, decode, Serialize(table, encode, e))
         == Ok(FromRepr(table, ToRepr(table, e)))
  {
    assert decode(encode(ToRepr(table, e))) == Ok(ToRepr(table, e));
  }

  /** Through such a format, every value that classification can produce,
      named or catch-all, is reproduced exactly. */
  lemma SerdeRoundTripCanonical<F, R, E>(table: seq<R>, decode: F -> Result<R, E>,
                                             encode: R -> F, e: Loose<R>)
    requires Canonical(table, e)
    requires forall v :: decode(encode(v)) == Ok(v)
    ensures Deserialize(table, decode, Serialize(table, encode, e)) == Ok(e)
  {
    SerdeRoundTrip(table, decode, encode, e);
    ClassifyReprIff(table, e);
  }
}
