/** The enums that the crate declares for its own tests: a string enum whose
    third case is the empty string, and a one-case `u8` enum. */
module LibTestEnums {

  import opened LooseEnum
  import opened PrimInts

  /** `StringEnum: String { Apple = "Apple", Banana = "Banana", Orange = String::default() }` */
  const StringEnum: seq<string> := ["Apple", "Banana", ""]

  /** `IntEnum: u8 { Zero = 0 }` */
  const IntEnum: seq<U8> := [0]

  /** Every string classifies by exact character-sequence equality with the
      declared literals; the empty string is the named case `Orange`, not the
      catch-all. */
  lemma StringEnumClassifies(s: string)
    ensures FromRepr(StringEnum, s) ==
      if s == "Apple" then Named(0)
      else if s == "Banana" then Named(1)
      else if s == "" then Named(2)
      else Unknown(s)
  {
    assert Distinct(StringEnum);
    if s == "Apple" {
      NamedStable(StringEnum, 0);
    } else if s == "Banana" {
      NamedStable(StringEnum, 1);
    } else if s == "" {
      NamedStable(StringEnum, 2);
    } else {
      FromReprUnknownIff(StringEnum, s, s);
    }
  }

  /** The declared empty literal is a named association: `""` classifies as
      `Orange` and `Orange` converts back to `""`. */
  lemma EmptyLiteralIsNamed()
    ensures FromRepr(StringEnum, "") == Named(2)
    ensures ToRepr(StringEnum, FromRepr(StringEnum, "")) == ""
  {
    StringEnumClassifies("");
  }

  /** Over `u8`: 0 is `Zero`; 123 is the catch-all holding 123, whose
      representation is 123 again. */
  lemma IntEnumScenario()
    ensures FromRepr(IntEnum, 0) == Named(0)
    ensures FromRepr(IntEnum, 123) == Unknown(123)
    ensures ToRepr(IntEnum, FromRepr(IntEnum, 123)) == 123
  {
    NamedStable(IntEnum, 0);
    FromReprUnknownIff(IntEnum, 123, 123);
  }
}
