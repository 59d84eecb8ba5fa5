/**
  decoding.FlagValue (server/decoding/flagvalue.go): a flag value arrives as
  a JSON string, number or boolean and is kept as text; null empties it.
*/
module FlagValues {
  import opened Results
  import opened Json

  const FlagValueType := "*decoding.FlagValue"

  /** The receiver after UnmarshalJSON, and the error it returned. */
  datatype FlagDecoded = FlagDecoded(value: string, err: Option<DecodeError>)

  /**
    unmarshalJSONSubtypes: after the string decode failed with `ie`, try a
    json.Number, then a bool; if neither fits, keep the prior value and report
    `ie`, renamed to the FlagValue type when it is a type error.
  */
  function UnmarshalSubtypes(prior: string, t: Token, ie: DecodeError): (r: FlagDecoded)
    ensures r.err.None? <==> IntoNumber(t).Ok? || IntoBool(t).Ok?
    ensures r.err.Some? ==> r.value == prior && r.err.value == Retarget(ie, FlagValueType)
  {
    var n := IntoNumber(t);
    if n.Ok? then FlagDecoded(n.value, None)
    else
      var b := IntoBool(t);
      if b.Ok? then FlagDecoded(if b.value then "true" else "false", None)
      else FlagDecoded(prior, Some(Retarget(ie, FlagValueType)))
  }

  /** FlagValue.UnmarshalJSON: a string first, then the other kinds. */
  function UnmarshalFlag(prior: string, t: Token): (r: FlagDecoded)
    ensures r.err.Some? ==> r.value == prior
  {
    match IntoString(t)
    case Ok(s) => FlagDecoded(s, None)
    case Err(ie) => UnmarshalSubtypes(prior, t, ie)
  }

  /** FlagValue.MarshalJSON: the value as a JSON string. */
  function MarshalFlag(v: string): (t: Token)
    ensures t.JStr?
  {
    JStr(v)
  }

  /** The kinds of JSON value a flag can be given as. */
  predicate IsScalar(t: Token) {
    t.JStr? || t.JNum? || t.JBool?
  }

  /** The text a scalar becomes: a string's contents, a number's literal, "true" or "false". */
  function ScalarText(t: Token): string
    requires IsScalar(t)
  {
    match t
    case JStr(text) => text
    case JNum(literal) => literal
    case JBool(b) => if b then "true" else "false"
  }

  /**
    The decoder in one table: a scalar becomes its text whatever the prior
    value, and null the empty string; anything else leaves the prior value
    and fails with the string decode's error, a type error naming FlagValue
    or the scanner's error.
  */
  lemma UnmarshalFlagSpec(prior: string, t: Token)
    ensures UnmarshalFlag(prior, t) ==
      if IsScalar(t) then FlagDecoded(ScalarText(t), None)
      else if t.JNull? then FlagDecoded("", None)
      else FlagDecoded(prior, Some(Mismatch(t, FlagValueType)))
  {
  }

  /** Unmarshalling what MarshalJSON produced gives the value back. */
  lemma MarshalRoundTrip(prior: string, v: string)
    ensures UnmarshalFlag(prior, MarshalFlag(v)) == FlagDecoded(v, None)
  {
  }

  /**
    Nothing after a successful attempt is tried: a string that spells a
    number or a boolean stays the string's contents.
  */
  lemma StringWinsOverNumber(prior: string, text: string)
    requires ValidNumber(text)
    ensures IntoNumber(JStr(text)).Ok?
    ensures UnmarshalFlag(prior, JStr(text)) == FlagDecoded(text, None)
  {
  }

  /** The cases of flagvalue_test.go, each decoded into a zero value. */
  lemma FlagValueTestCases()
    ensures UnmarshalFlag("", JStr("")) == FlagDecoded("", None)
    ensures UnmarshalFlag("", JStr("common")) == FlagDecoded("common", None)
    ensures UnmarshalFlag("", JBool(false)) == FlagDecoded("false", None)
    ensures UnmarshalFlag("", JBool(true)) == FlagDecoded("true", None)
    ensures UnmarshalFlag("", JNum("0")) == FlagDecoded("0", None)
    ensures UnmarshalFlag("", JNum("123")) == FlagDecoded("123", None)
    ensures UnmarshalFlag("", JNum("3.14159265")) == FlagDecoded("3.14159265", None)
    ensures UnmarshalFlag("", JObj("{}")).value == ""
    ensures Message(UnmarshalFlag("", JObj("{}")).err.value)
         == "json: cannot unmarshal " + "object" + " into Go value of type " + "*decoding.FlagValue"
    ensures UnmarshalFlag("", Empty) == FlagDecoded("", Some(SyntaxError("unexpected end of JSON input")))
  {
    assert UnmarshalFlag("", JObj("{}")).err.value == TypeError("object", FlagValueType);
    TypeErrorMessage("object", FlagValueType);
  }

  /** Null is decoded into a fresh string, so it empties a value that was already set. */
  lemma NullEmptiesFlag(prior: string)
    ensures UnmarshalFlag(prior, JNull) == FlagDecoded("", None)
  {
  }

  /** A failed decode leaves a value that was already set in place. */
  lemma FailureKeepsValue(prior: string)
    ensures UnmarshalFlag(prior, JObj("{}")) == FlagDecoded(prior, Some(TypeError("object", FlagValueType)))
    ensures UnmarshalFlag(prior, JArr("[1]")) == FlagDecoded(prior, Some(TypeError("array", FlagValueType)))
    ensures UnmarshalFlag(prior, Empty) == FlagDecoded(prior, Some(SyntaxError(UnexpectedEnd)))
  {
  }
}
