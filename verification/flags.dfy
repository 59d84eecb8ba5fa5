/**
  The `Flags` type of kubeapply.go: a map from flag name to value, its
  sorted key listing, the `addFlag` normalisation that turns a key into a
  dash-prefixed command-line flag, and the `Timeout` accessor.
*/
module Flags {
  import opened Strings

  /** Flag name to value; the empty value marks a flag given without `=value`. */
  type FlagMap = map<string, string>

  /** Flags.Keys: every key exactly once, in ascending byte-wise order. */
  function Keys(f: FlagMap): (keys: seq<string>)
    ensures |keys| == |f|
    ensures forall k :: k in keys <==> k in f
    ensures StrictlySorted(keys)
  {
    SortedSet(f.Keys)
  }

  /**
    Keys is the only sorted, duplicate-free listing of the flag names, so
    the argument order cannot depend on how the map was built.
  */
  lemma KeysCanonical(f: FlagMap, listing: seq<string>)
    requires StrictlySorted(listing)
    requires forall k :: k in listing <==> k in f
    ensures Keys(f) == listing
  {
    SortedUnique(Keys(f), listing);
  }

  /** strings.HasPrefix(key, "-"), spelled out on the first character. */
  predicate StartsWithDash(key: string) {
    |key| > 0 && key[0] == '-'
  }

  /**
    addFlag: a key that already starts with "-" is used as is, a key one byte
    long in UTF-8 gets one dash and any other key gets two.
  */
  function AddFlag(key: string): string {
    if StartsWithDash(key) then key
    else if Utf8Length(key) == 1 then "-" + key
    else "--" + key
  }

  /** Every normalised flag starts with a dash and ends with the key, adding at most two characters. */
  lemma AddFlagShape(key: string)
    ensures StartsWithDash(AddFlag(key))
    ensures HasSuffix(AddFlag(key), key)
    ensures |key| <= |AddFlag(key)| <= |key| + 2
  {
  }

  /** Normalising a flag twice changes nothing more than normalising it once. */
  lemma AddFlagIdempotent(key: string)
    ensures AddFlag(AddFlag(key)) == AddFlag(key)
  {
  }

  /**
    The three cases of addFlag, and which inputs reach each: exactly the
    dash-prefixed keys come back unchanged, and every other key is prefixed
    by one dash when it is a single ASCII character and by two otherwise; a
    single character outside ASCII is more than one byte long and gets two.
  */
  lemma AddFlagCases(key: string)
    ensures AddFlag(key) == key <==> StartsWithDash(key)
    ensures !StartsWithDash(key) && |key| == 1 && key[0] as int < 0x80 ==> AddFlag(key) == "-" + key
    ensures !StartsWithDash(key) && !(|key| == 1 && key[0] as int < 0x80) ==> AddFlag(key) == "--" + key
  {
    Utf8LengthOne(key);
  }

  /** "é" is one character but two bytes in UTF-8, so addFlag gives it two dashes. */
  lemma MultiByteKeyGetsTwoDashes()
    ensures AddFlag("é") == "--é"
  {
    AddFlagCases("é");
  }

  /** Flags.Timeout: absent key means no timeout; a present one is handed to time.ParseDuration. */
  datatype TimeoutSetting = NoTimeout | ParseDuration(text: string)

  function Timeout(f: FlagMap): (t: TimeoutSetting)
    ensures t == NoTimeout <==> "timeout" !in f
    ensures t.ParseDuration? ==> t.text == f["timeout"]
  {
    if "timeout" in f then ParseDuration(f["timeout"]) else NoTimeout
  }
}
