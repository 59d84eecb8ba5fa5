/**
  Command-line construction (`unsafeCommand` and `addFilenameFlag` in
  kubeapply.go): the subcommand, one argument per flag in key order, then
  the default `--filename=./ --recursive` and `--output=json` arguments
  unless the flags already name them.
*/
module Commands {
  import opened Strings
  import opened Flags

  const Executable := "kubectl"
  const DefaultSubcommand := "apply"
  const OutputJson := "--output=json"
  const FilenameDefaultArgs: seq<string> := ["--filename=./", "--recursive"]

  /** The executable to run and its arguments. */
  datatype Command = Command(executable: string, args: seq<string>)

  function ResolveExecutable(executable: string): string {
    if executable == "" then Executable else executable
  }

  function ResolveSubcommand(subcommand: string): string {
    if subcommand == "" then DefaultSubcommand else subcommand
  }

  /** The argument for one flag: the normalised name, then `=value` unless the value is empty. */
  function FlagArg(key: string, value: string): string {
    if value == "" then AddFlag(key) else AddFlag(key) + "=" + value
  }

  /**
    The flag names that suppress the default filename arguments. The source
    compares against "-af", not "-f", so a `f` or `-f` flag does not count.
  */
  predicate NamesFilename(key: string) {
    AddFlag(key) == "-af" || AddFlag(key) == "--filename"
  }

  /** The flag names that suppress the default `--output=json`. */
  predicate NamesOutput(key: string) {
    AddFlag(key) == "-o" || AddFlag(key) == "--output"
  }

  /** An upload the subprocess is expected to read as a Kubernetes object. */
  predicate IsConfigFile(name: string) {
    HasSuffix(name, ".json") || HasSuffix(name, ".yaml") || HasSuffix(name, ".yml")
  }

  /** What the loop over the flag keys accumulates. */
  datatype FlagScan = FlagScan(args: seq<string>, filenameFlag: bool, outputFlag: bool)

  /** The loop of unsafeCommand over `keys`, in order. */
  function ScanFlags(keys: seq<string>, flags: FlagMap): (scan: FlagScan)
    requires forall i | 0 <= i < |keys| :: keys[i] in flags
    ensures |scan.args| == |keys|
    ensures forall i | 0 <= i < |keys| :: scan.args[i] == FlagArg(keys[i], flags[keys[i]])
    decreases |keys|
  {
    if |keys| == 0 then FlagScan([], false, false)
    else
      var rest := ScanFlags(keys[..|keys| - 1], flags);
      var k := keys[|keys| - 1];
      FlagScan(rest.args + [FlagArg(k, flags[k])],
               rest.filenameFlag || NamesFilename(k),
               rest.outputFlag || NamesOutput(k))
  }

  /** The loop's filename flag is set exactly when some key names the filename flag. */
  lemma {:induction false} ScanFindsFilenameFlag(keys: seq<string>, flags: FlagMap)
    requires forall i | 0 <= i < |keys| :: keys[i] in flags
    ensures ScanFlags(keys, flags).filenameFlag <==> exists i | 0 <= i < |keys| :: NamesFilename(keys[i])
    decreases |keys|
  {
    if |keys| > 0 {
      ScanLast(keys, flags);
      ScanFindsFilenameFlag(keys[..|keys| - 1], flags);
      SomeKeyNames(keys);
    }
  }

  /** The loop's output flag is set exactly when some key names the output flag. */
  lemma {:induction false} ScanFindsOutputFlag(keys: seq<string>, flags: FlagMap)
    requires forall i | 0 <= i < |keys| :: keys[i] in flags
    ensures ScanFlags(keys, flags).outputFlag <==> exists i | 0 <= i < |keys| :: NamesOutput(keys[i])
    decreases |keys|
  {
    if |keys| > 0 {
      ScanLast(keys, flags);
      ScanFindsOutputFlag(keys[..|keys| - 1], flags);
      SomeKeyNames(keys);
    }
  }

  /** The last key sets a flag, or the keys before it did. */
  lemma ScanLast(keys: seq<string>, flags: FlagMap)
    requires |keys| > 0 && forall i | 0 <= i < |keys| :: keys[i] in flags
    ensures var init := ScanFlags(keys[..|keys| - 1], flags);
      && ScanFlags(keys, flags).filenameFlag == (init.filenameFlag || NamesFilename(keys[|keys| - 1]))
      && ScanFlags(keys, flags).outputFlag == (init.outputFlag || NamesOutput(keys[|keys| - 1]))
  {
  }

  /** Some key names a flag exactly when the last one does or one before it does. */
  lemma SomeKeyNames(keys: seq<string>)
    requires |keys| > 0
    ensures var init := keys[..|keys| - 1];
      (exists i | 0 <= i < |keys| :: NamesFilename(keys[i]))
        <==> (exists i | 0 <= i < |init| :: NamesFilename(init[i])) || NamesFilename(keys[|keys| - 1])
    ensures var init := keys[..|keys| - 1];
      (exists i | 0 <= i < |keys| :: NamesOutput(keys[i]))
        <==> (exists i | 0 <= i < |init| :: NamesOutput(init[i])) || NamesOutput(keys[|keys| - 1])
  {
    var init := keys[..|keys| - 1];
    assert forall i | 0 <= i < |init| :: init[i] == keys[i];
  }

  /** addFilenameFlag: the default filename arguments when some upload is a configuration file. */
  function FilenameDefault(files: map<string, Bytes>): seq<string> {
    if HasConfigFile(files) then FilenameDefaultArgs else []
  }

  /** unsafeCommand: resolve the executable and build the argument list. */
  function Build(executable: string, subcommand: string, flags: FlagMap, files: map<string, Bytes>): (c: Command)
    ensures executable == "" ==> c.executable == "kubectl"
    ensures executable != "" ==> c.executable == executable
    ensures |c.args| >= 1 + |flags|
    ensures subcommand == "" ==> c.args[0] == "apply"
    ensures subcommand != "" ==> c.args[0] == subcommand
    ensures forall i | 0 <= i < |flags| ::
              c.args[1 + i] == FlagArg(Keys(flags)[i], flags[Keys(flags)[i]])
  {
    var scan := ScanFlags(Keys(flags), flags);
    Assemble(ResolveExecutable(executable), ResolveSubcommand(subcommand), scan.args, Tail(scan, files))
  }

  /** The command `executable head flagArgs... tail...`. */
  function Assemble(executable: string, head: string, flagArgs: seq<string>, tail: seq<string>): (c: Command)
    ensures c.executable == executable && |c.args| == 1 + |flagArgs| + |tail| && c.args[0] == head
    ensures forall i | 0 <= i < |flagArgs| :: c.args[1 + i] == flagArgs[i]
    ensures c.args[1 + |flagArgs|..] == tail
  {
    var args := [head] + (flagArgs + tail);
    assert args[1 + |flagArgs|..] == tail;
    Command(executable, args)
  }

  function Tail(scan: FlagScan, files: map<string, Bytes>): seq<string> {
    (if scan.filenameFlag then [] else FilenameDefault(files)) + (if scan.outputFlag then [] else [OutputJson])
  }

  lemma BuildParts(executable: string, subcommand: string, flags: FlagMap, files: map<string, Bytes>)
    ensures var c := Build(executable, subcommand, flags, files);
      Defaults(c, flags) == Tail(ScanFlags(Keys(flags), flags), files)
  {
    assert |ScanFlags(Keys(flags), flags).args| == |flags|;
  }

  /** The arguments Build appends after the flags. */
  function Defaults(c: Command, flags: FlagMap): seq<string>
    requires |c.args| >= 1 + |flags|
  {
    c.args[1 + |flags|..]
  }

  /** No flag normalises to "-af" or "--filename" (the check of unsafeCommand). */
  predicate NoFilenameFlag(flags: FlagMap) {
    forall k | k in flags :: !NamesFilename(k)
  }

  /** No flag normalises to "-o" or "--output". */
  predicate NoOutputFlag(flags: FlagMap) {
    forall k | k in flags :: !NamesOutput(k)
  }

  /** Some upload ends in .json, .yaml or .yml. */
  predicate HasConfigFile(files: map<string, Bytes>) {
    exists name | name in files :: IsConfigFile(name)
  }

  /**
    After the flag arguments come `--filename=./ --recursive` exactly when no
    flag names the filename flag and some upload is a configuration file, and
    then `--output=json` exactly when no flag names the output flag; nothing
    else is appended.
  */
  lemma DefaultsAppended(executable: string, subcommand: string, flags: FlagMap, files: map<string, Bytes>)
    ensures var c := Build(executable, subcommand, flags, files);
      Defaults(c, flags) ==
        (if NoFilenameFlag(flags) && HasConfigFile(files) then FilenameDefaultArgs else [])
        + (if NoOutputFlag(flags) then [OutputJson] else [])
  {
    BuildParts(executable, subcommand, flags, files);
    ScanOutputFlag(flags);
    ScanFilenameFlag(flags);
  }

  /** The scan over the sorted keys finds the output flag exactly when some flag names it. */
  lemma ScanOutputFlag(flags: FlagMap)
    ensures ScanFlags(Keys(flags), flags).outputFlag <==> !NoOutputFlag(flags)
  {
    var keys := Keys(flags);
    ScanFindsOutputFlag(keys, flags);
    if ScanFlags(keys, flags).outputFlag {
      var i :| 0 <= i < |keys| && NamesOutput(keys[i]);
      assert keys[i] in flags;
    } else {
      forall k | k in flags
        ensures !NamesOutput(k)
      {
        assert k in keys;
      }
    }
  }

  /** The scan over the sorted keys finds the filename flag exactly when some flag names it. */
  lemma ScanFilenameFlag(flags: FlagMap)
    ensures ScanFlags(Keys(flags), flags).filenameFlag <==> !NoFilenameFlag(flags)
  {
    var keys := Keys(flags);
    ScanFindsFilenameFlag(keys, flags);
    if ScanFlags(keys, flags).filenameFlag {
      var i :| 0 <= i < |keys| && NamesFilename(keys[i]);
      assert keys[i] in flags;
    } else {
      forall k | k in flags
        ensures !NamesFilename(k)
      {
        assert k in keys;
      }
    }
  }

  /**
    Exactly the keys "-af", "filename" and "--filename" suppress the default
    filename arguments: "f" and "-f" normalise to "-f" and do not.
  */
  lemma FilenameFlagNames(key: string)
    ensures NamesFilename(key) <==> key == "-af" || key == "filename" || key == "--filename"
  {
    AddFlagCases(key);
    if StartsWithDash(key) {
      assert AddFlag(key) == key;
      assert key != "filename";
    } else if |key| == 1 && key[0] as int < 0x80 {
      assert |AddFlag(key)| == 2;
      assert key != "-af" && key != "filename" && key != "--filename";
    } else {
      assert AddFlag(key) == "--" + key;
      if AddFlag(key) == "--filename" {
        assert key == AddFlag(key)[2..];
      }
      assert AddFlag(key) != "-af" by {
        assert AddFlag(key)[1] == '-';
      }
      assert key != "-af" && key != "--filename";
    }
  }

  /** Exactly the keys "o", "-o", "output" and "--output" suppress `--output=json`. */
  lemma OutputFlagNames(key: string)
    ensures NamesOutput(key) <==> key == "o" || key == "-o" || key == "output" || key == "--output"
  {
    AddFlagCases(key);
    if StartsWithDash(key) {
      assert AddFlag(key) == key;
      assert key != "o" && key != "output";
    } else if |key| == 1 && key[0] as int < 0x80 {
      assert AddFlag(key) == "-" + key;
      if AddFlag(key) == "-o" {
        assert key == AddFlag(key)[1..];
      }
      assert key != "-o" && key != "output" && key != "--output";
    } else {
      assert AddFlag(key) == "--" + key;
      if AddFlag(key) == "--output" {
        assert key == AddFlag(key)[2..];
      }
      assert AddFlag(key) != "-o" by {
        assert |AddFlag(key)| >= 2 && AddFlag(key)[1] == '-';
      }
      assert key != "o" && key != "-o" && key != "--output";
    }
  }
}
