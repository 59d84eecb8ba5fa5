/**
  The part of encoding/json that the decoding package leans on: a JSON
  value as the decoder classifies it, the errors `json.Unmarshal` reports,
  and what decoding one value into a Go string, json.Number, bool or
  map[string]json.RawMessage yields. The lexer is not modelled; a value
  arrives already classified, carrying its decoded contents or, for
  objects and arrays, its raw text.

  JSON null leaves the Go variable it is decoded into as it was, and a map
  becomes nil without error. The decoders always decode into a fresh
  zero-valued variable, so null reads as the zero value of the target.
*/
module Json {
  import opened Results

  /**
    One JSON input. `Empty` is input with no value at all and `Malformed`
    input the scanner rejects (with the scanner's message).
  */
  datatype Token =
    | JNull
    | JStr(text: string)
    | JNum(literal: string)
    | JBool(b: bool)
    | JObj(raw: string)
    | JArr(raw: string)
    | Empty
    | Malformed(message: string)

  /** The errors json.Unmarshal reports. */
  datatype DecodeError =
    | TypeError(value: string, target: string)   // *json.UnmarshalTypeError
    | SyntaxError(message: string)               // *json.SyntaxError
    | InvalidNumber(text: string)                // a string that is no number literal, into json.Number

  const UnexpectedEnd := "unexpected end of JSON input"

  /** error.Error() */
  function Message(e: DecodeError): string {
    match e
    case TypeError(value, target) => "json: cannot unmarshal " + value + " into Go value of type " + target
    case SyntaxError(message) => message
    case InvalidNumber(text) => "json: invalid number literal, trying to unmarshal \"\\\"" + text + "\\\"\" into Number"
  }

  /** The text of a type error, spelled out character by character. */
  lemma TypeErrorMessage(value: string, target: string)
    ensures Message(TypeError(value, target)) == "json: cannot unmarshal " + value + " into Go value of type " + target
  {
  }

  /** The name UnmarshalTypeError uses for the kind of JSON value found. */
  function Kind(t: Token): string
    requires !t.Empty? && !t.Malformed? && !t.JNull?
  {
    match t
    case JStr(_) => "string"
    case JNum(_) => "number"
    case JBool(_) => "bool"
    case JObj(_) => "object"
    case JArr(_) => "array"
  }

  /**
    The error for a value of the wrong kind; input that does not scan fails
    before any kind is seen. Null is of no wrong kind for any target.
  */
  function Mismatch(t: Token, target: string): (e: DecodeError)
    requires !t.JNull?
    ensures e.TypeError? <==> !t.Empty? && !t.Malformed?
    ensures t.Empty? ==> e == SyntaxError(UnexpectedEnd)
  {
    match t
    case Empty => SyntaxError(UnexpectedEnd)
    case Malformed(message) => SyntaxError(message)
    case JStr(_) => TypeError(Kind(t), target)
    case JNum(_) => TypeError(Kind(t), target)
    case JBool(_) => TypeError(Kind(t), target)
    case JObj(_) => TypeError(Kind(t), target)
    case JArr(_) => TypeError(Kind(t), target)
  }

  /** An UnmarshalTypeError names the receiver's type; decoders rename it to their own. */
  function Retarget(e: DecodeError, target: string): (r: DecodeError)
    ensures r.TypeError? <==> e.TypeError?
    ensures r.TypeError? ==> r.value == e.value && r.target == target
    ensures !e.TypeError? ==> r == e
  {
    if e.TypeError? then TypeError(e.value, target) else e
  }

  /** json.Unmarshal into a fresh string. */
  function IntoString(t: Token): (r: Result<string, DecodeError>)
    ensures r.Ok? <==> t.JStr? || t.JNull?
    ensures t.JStr? ==> r == Ok(t.text)
    ensures t.JNull? ==> r == Ok("")
  {
    if t.JStr? then Ok(t.text) else if t.JNull? then Ok("") else Err(Mismatch(t, "string"))
  }

  /** json.Unmarshal into a fresh bool. */
  function IntoBool(t: Token): (r: Result<bool, DecodeError>)
    ensures r.Ok? <==> t.JBool? || t.JNull?
    ensures t.JBool? ==> r == Ok(t.b)
    ensures t.JNull? ==> r == Ok(false)
  {
    if t.JBool? then Ok(t.b) else if t.JNull? then Ok(false) else Err(Mismatch(t, "bool"))
  }

  /**
    json.Unmarshal into a map[string]json.RawMessage: an object fits, and
    null sets the map to nil; the result is the raw input text.
  */
  function IntoObject(t: Token): (r: Result<string, DecodeError>)
    ensures r.Ok? <==> t.JObj? || t.JNull?
    ensures t.JObj? ==> r == Ok(t.raw)
    ensures t.JNull? ==> r == Ok("null")
  {
    if t.JObj? then Ok(t.raw) else if t.JNull? then Ok("null") else Err(Mismatch(t, "map[string]json.RawMessage"))
  }

  predicate IsDigit(c: char) {
    '0' <= c <= '9'
  }

  /** What is left of `s` after its leading decimal digits. */
  function SkipDigits(s: string): (rest: string)
    ensures |rest| <= |s| && rest == s[|s| - |rest|..]
    ensures |rest| > 0 ==> !IsDigit(rest[0])
    decreases |s|
  {
    if |s| > 0 && IsDigit(s[0]) then SkipDigits(s[1..]) else s
  }

  /** The fraction and exponent parts of a number literal: what is left after them must be nothing. */
  predicate ValidFractionExponent(s: string) {
    var afterFraction := if |s| >= 2 && s[0] == '.' && IsDigit(s[1]) then SkipDigits(s[2..]) else s;
    if |afterFraction| >= 2 && (afterFraction[0] == 'e' || afterFraction[0] == 'E') then
      var exponent := afterFraction[1..];
      var unsigned := if exponent[0] == '+' || exponent[0] == '-' then exponent[1..] else exponent;
      |unsigned| > 0 && SkipDigits(unsigned) == ""
    else afterFraction == ""
  }

  /**
    encoding/json's isValidNumber: an optional minus, then "0" or a digit
    run not starting with 0, an optional fraction, an optional exponent.
  */
  predicate ValidNumber(s: string) {
    var unsigned := if |s| > 0 && s[0] == '-' then s[1..] else s;
    if |unsigned| == 0 then false
    else if unsigned[0] == '0' then ValidFractionExponent(unsigned[1..])
    else if '1' <= unsigned[0] <= '9' then ValidFractionExponent(SkipDigits(unsigned[1..]))
    else false
  }

  /** json.Unmarshal into a fresh json.Number: a number keeps its literal text, a string must spell one. */
  function IntoNumber(t: Token): (r: Result<string, DecodeError>)
    ensures r.Ok? <==> t.JNum? || t.JNull? || (t.JStr? && ValidNumber(t.text))
    ensures t.JNum? ==> r == Ok(t.literal)
    ensures t.JNull? ==> r == Ok("")
  {
    match t
    case JNull => Ok("")
    case JNum(literal) => Ok(literal)
    case JStr(text) => if ValidNumber(text) then Ok(text) else Err(InvalidNumber(text))
    case _ => Err(Mismatch(t, "json.Number"))
  }
}
