/**
  decoding.FileValue (server/decoding/filevalue.go): an uploaded file
  arrives either as a JSON object, kept byte for byte as written, or as a
  JSON string holding the file's text. Null passes as an object would and
  is stored as the text "null".
*/
module FileValues {
  import opened Results
  import opened Json

  const FileValueType := "*decoding.FileValue"

  /** The receiver after UnmarshalJSON, and the error it returned. */
  datatype FileDecoded = FileDecoded(value: string, err: Option<DecodeError>)

  /**
    unmarshalJSONData: an object, or null, is stored as its raw input;
    anything else is left to the caller.
  */
  function UnmarshalData(prior: string, t: Token): (r: FileDecoded)
    ensures r.err.None? <==> t.JObj? || t.JNull?
    ensures t.JObj? ==> r.value == t.raw
    ensures t.JNull? ==> r.value == "null"
    ensures r.err.Some? ==> r.value == prior
  {
    match IntoObject(t)
    case Ok(raw) => FileDecoded(raw, None)
    case Err(e) => FileDecoded(prior, Some(e))
  }

  /**
    FileValue.UnmarshalJSON: the object reading first; failing that, a
    string decode whose result replaces the value even when it fails.
  */
  function UnmarshalFile(prior: string, t: Token): (r: FileDecoded)
    ensures r.err.None? <==> t.JObj? || t.JNull? || t.JStr?
  {
    var data := UnmarshalData(prior, t);
    if data.err.None? then data
    else
      var s := IntoString(t);
      if s.Ok? then FileDecoded(s.value, None)
      else FileDecoded("", Some(Retarget(s.error, FileValueType)))
  }

  /**
    The decoder in one table: an object keeps its raw text, null the text
    "null", a string its contents, and anything else empties the value and
    fails with a type error naming FileValue or the scanner's error.
  */
  lemma UnmarshalFileSpec(prior: string, t: Token)
    ensures UnmarshalFile(prior, t) ==
      match t
      case JObj(raw) => FileDecoded(raw, None)
      case JNull => FileDecoded("null", None)
      case JStr(text) => FileDecoded(text, None)
      case _ => FileDecoded("", Some(Mismatch(t, FileValueType)))
  {
  }

  /** The previous value never shows through: every outcome overwrites it. */
  lemma OldValueIgnored(prior1: string, prior2: string, t: Token)
    ensures UnmarshalFile(prior1, t) == UnmarshalFile(prior2, t)
  {
  }

  /** The cases of filevalue_test.go, each decoded into a zero value. */
  lemma FileValueTestCases()
    ensures UnmarshalFile("", JStr("")) == FileDecoded("", None)
    ensures UnmarshalFile("", JStr("common")) == FileDecoded("common", None)
    ensures UnmarshalFile("", JObj("{}")) == FileDecoded("{}", None)
    ensures UnmarshalFile("", JObj("{\"foo\": \"bar\"}")) == FileDecoded("{\"foo\": \"bar\"}", None)
    ensures Message(UnmarshalFile("", JNum("3")).err.value)
         == "json: cannot unmarshal " + "number" + " into Go value of type " + "*decoding.FileValue"
    ensures UnmarshalFile("", Empty) == FileDecoded("", Some(SyntaxError("unexpected end of JSON input")))
  {
    assert UnmarshalFile("", JNum("3")).err.value == TypeError("number", FileValueType);
    TypeErrorMessage("number", FileValueType);
  }

  /** Null is not refused: the file's content becomes the four bytes "null". */
  lemma NullStoredAsText(prior: string)
    ensures UnmarshalFile(prior, JNull) == FileDecoded("null", None)
  {
  }

  /** A failed decode clears a value that was already set. */
  lemma FailureClearsValue(prior: string)
    ensures UnmarshalFile(prior, JNum("3")) == FileDecoded("", Some(TypeError("number", FileValueType)))
    ensures UnmarshalFile(prior, JArr("[]")) == FileDecoded("", Some(TypeError("array", FileValueType)))
  {
  }
}
