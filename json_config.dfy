/** The case-insensitive enum codec registered with the JSON mapper: constants are written
    as their lowercased names and read back whatever the letter case of the input. */
module JsonConfig {
  import opened Wrappers
  import opened JavaLang
  import opened JavaUtil

  /** An enum class, given by the names of its constants in declaration order; a constant
      is its position (ordinal). */
  datatype EnumClass = EnumClass(names: seq<string>)

  /** Java gives the constants of one enum distinct names. */
  predicate WellFormed(cls: EnumClass) {
    forall i, j :: 0 <= i < j < |cls.names| ==> cls.names[i] != cls.names[j]
  }

  datatype JsonMappingException = JsonMappingException(message: string)

  /** Enum.valueOf: the constant whose name is exactly `name`, nothing when there is none
      (valueOf then throws IllegalArgumentException). */
  function ValueOf(names: seq<string>, name: string): (r: Option<nat>)
    ensures r.Some? ==> r.value < |names| && names[r.value] == name
    ensures r.None? <==> name !in names
  {
    if names == [] then None
    else if names[0] == name then Some(0)
    else
      match ValueOf(names[1..], name)
      case Some(i) => Some(i + 1)
      case None => None
  }

  /** LowerCaseEnumJsonSerializer.serialize: the name of the constant in lower case. */
  function Serialize(cls: EnumClass, ordinal: nat): (text: string)
    requires ordinal < |cls.names|
    ensures HasNoUpperLetter(text)
    ensures EqualsIgnoreCase(text, cls.names[ordinal])
  {
    ToLowerCase(cls.names[ordinal])
  }

  /** The lowercased names of all constants, in declaration order, joined by ", ". */
  function PossibleValues(cls: EnumClass): (list: string) {
    Join(LowerNames(cls.names), ", ")
  }

  /** `stream(constants).map(c -> c.name().toLowerCase())`. */
  function LowerNames(names: seq<string>): (r: seq<string>)
    ensures |r| == |names|
    ensures forall i :: 0 <= i < |names| ==> r[i] == ToLowerCase(names[i])
  {
    if names == [] then [] else [ToLowerCase(names[0])] + LowerNames(names[1..])
  }

  function IllegalValueMessage(cls: EnumClass, text: string): (message: string) {
    "Illegal enum value: '" + text + "'. Possible values: [" + PossibleValues(cls) + "]"
  }

  /** LowerCaseEnumJsonDeserializer.deserialize: the constant named by the uppercased
      input; when there is none, a JsonMappingException quoting the input as given and
      listing every constant. */
  function Deserialize(cls: EnumClass, text: string): (r: Result<nat, JsonMappingException>)
    ensures r.Ok? ==> r.value < |cls.names| && cls.names[r.value] == ToUpperCase(text)
    ensures r.Failure? <==> ToUpperCase(text) !in cls.names
    ensures r.Failure? ==> r.error == JsonMappingException(IllegalValueMessage(cls, text))
  {
    match ValueOf(cls.names, ToUpperCase(text))
    case Some(i) => Ok(i)
    case None => Failure(JsonMappingException(IllegalValueMessage(cls, text)))
  }

  /** Reading back what was written gives the same constant, for every constant whose name
      has no lowercase letter. */
  lemma RoundTrip(cls: EnumClass, ordinal: nat)
    requires WellFormed(cls)
    requires ordinal < |cls.names|
    requires HasNoLowerLetter(cls.names[ordinal])
    ensures Deserialize(cls, Serialize(cls, ordinal)) == Ok(ordinal)
  {
    var name := cls.names[ordinal];
    UpperOfLower(name);
    UpperCaseFixedPoint(name);
    assert ToUpperCase(Serialize(cls, ordinal)) == name;
  }

  /** Inputs that differ only in letter case read as the same constant, and fail together. */
  lemma CaseInsensitive(cls: EnumClass, a: string, b: string)
    requires EqualsIgnoreCase(a, b)
    ensures Deserialize(cls, a).Ok? <==> Deserialize(cls, b).Ok?
    ensures Deserialize(cls, a).Ok? ==> Deserialize(cls, a) == Deserialize(cls, b)
  {
    EqualsIgnoreCaseSameUpper(a, b);
  }

  /** A constant whose name has a lowercase letter is never read, whatever the input. */
  lemma LowercaseNameUnreachable(cls: EnumClass, text: string, ordinal: nat)
    requires ordinal < |cls.names|
    requires !HasNoLowerLetter(cls.names[ordinal])
    ensures Deserialize(cls, text) != Ok(ordinal)
  {
    assert HasNoLowerLetter(ToUpperCase(text));
    assert ToUpperCase(text) != cls.names[ordinal];
  }

  /** The values listed follow declaration order: a constant declared last is listed last,
      after ", ". */
  lemma PossibleValuesAppend(names: seq<string>, last: string)
    requires names != []
    ensures PossibleValues(EnumClass(names + [last]))
         == PossibleValues(EnumClass(names)) + ", " + ToLowerCase(last)
  {
    LowerNamesAppend(names, last);
    JoinAppend(LowerNames(names), ToLowerCase(last), ", ");
  }

  lemma LowerNamesAppend(names: seq<string>, last: string)
    ensures LowerNames(names + [last]) == LowerNames(names) + [ToLowerCase(last)]
  {
    var l, r := LowerNames(names + [last]), LowerNames(names) + [ToLowerCase(last)];
    forall i | 0 <= i < |l|
      ensures l[i] == r[i]
    {
      if i < |names| {
        assert (names + [last])[i] == names[i];
      }
    }
  }

  /** With a single constant, the list is that constant's lowercased name. */
  lemma PossibleValuesOfOne(name: string)
    ensures PossibleValues(EnumClass([name])) == ToLowerCase(name)
  {
  }
}
