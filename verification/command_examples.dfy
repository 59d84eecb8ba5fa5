/**
  The concrete flag listings and command lines that kubeapply_test.go pins,
  derived from the general contracts of Keys and Build.
*/
module CommandExamples {
  import opened Strings
  import opened Flags
  import opened Commands

  lemma KeysOfEmptyFlags()
    ensures Keys(map[]) == []
  {
  }

  /** "--z" sorts before "-x" because '-' is below 'x', and both before the plain names. */
  lemma KeysUnsorted()
    ensures Keys(map["b" := "", "a" := "none", "-x" := "abc", "c" := "", "--z" := "", "d" := "def", "timeout" := "3m"])
         == ["--z", "-x", "a", "b", "c", "d", "timeout"]
  {
    var f := map["b" := "", "a" := "none", "-x" := "abc", "c" := "", "--z" := "", "d" := "def", "timeout" := "3m"];
    var listing := ["--z", "-x", "a", "b", "c", "d", "timeout"];
    assert StrictlySorted(listing) by {
      forall i, j | 0 <= i < j < |listing|
        ensures Less(listing[i], listing[j])
      {
        if j == i + 1 {
          assert Less(listing[i], listing[i + 1]);
        } else {
          assert Less(listing[i], listing[i + 1]);
          LessChain(listing, i, j);
        }
      }
    }
    KeysCanonical(f, listing);
  }

  /** In a sequence whose neighbours are ordered, any earlier element is below any later one. */
  lemma {:induction false} LessChain(xs: seq<string>, i: nat, j: nat)
    requires i < j < |xs|
    requires forall k | 0 <= k < |xs| - 1 :: Less(xs[k], xs[k + 1])
    ensures Less(xs[i], xs[j])
    decreases j - i
  {
    if i + 1 < j {
      LessChain(xs, i + 1, j);
      LessTransitive(xs[i], xs[i + 1], xs[j]);
    }
  }

  /** The single arguments the tests expect, one flag at a time. */
  lemma FlagArgsOfTests()
    ensures FlagArg("--force", "") == "--force"
    ensures FlagArg("-f", "file.yaml") == "-f=file.yaml"
    ensures FlagArg("f", "file.yaml") == "-f=file.yaml"
    ensures FlagArg("timeout", "1m") == "--timeout=1m"
    ensures FlagArg("timeout=1m", "") == "--timeout=1m"
  {
    DashedFlagArgs();
    ShortFlagArg();
    LongFlagArgs();
  }

  lemma DashedFlagArgs()
    ensures FlagArg("--force", "") == "--force"
    ensures FlagArg("-f", "file.yaml") == "-f=file.yaml"
  {
    AddFlagCases("--force");
    AddFlagCases("-f");
  }

  lemma ShortFlagArg()
    ensures FlagArg("f", "file.yaml") == "-f=file.yaml"
  {
    AddFlagCases("f");
  }

  lemma LongFlagArgs()
    ensures FlagArg("timeout", "1m") == "--timeout=1m"
    ensures FlagArg("timeout=1m", "") == "--timeout=1m"
  {
    TimeoutFlagArg();
    KeyWithEqualsFlagArg();
  }

  lemma TimeoutFlagArg()
    ensures FlagArg("timeout", "1m") == "--timeout=1m"
  {
    AddFlagCases("timeout");
  }

  lemma KeyWithEqualsFlagArg()
    ensures FlagArg("timeout=1m", "") == "--timeout=1m"
  {
    AddFlagCases("timeout=1m");
  }

  /** None of the tests' flags names the output flag. */
  lemma NoOutputFlagInTests()
    ensures NoOutputFlag(map["timeout" := "1m", "--force" := "", "-f" := "file.yaml"])
    ensures NoOutputFlag(map["timeout=1m" := "", "--force" := "", "-f" := "file.yaml"])
  {
    NoOutputKeys(map["timeout" := "1m", "--force" := "", "-f" := "file.yaml"]);
    NoOutputKeys(map["timeout=1m" := "", "--force" := "", "-f" := "file.yaml"]);
  }

  /** Flags none of whose keys is one of the four output spellings do not name the output flag. */
  lemma NoOutputKeys(flags: FlagMap)
    requires forall k | k in flags :: k != "o" && k != "-o" && k != "output" && k != "--output"
    ensures NoOutputFlag(flags)
  {
    forall k | k in flags
      ensures !NamesOutput(k)
    {
      OutputFlagNames(k);
    }
  }

  lemma ListOfFive(xs: seq<string>, a: string, b: string, c: string, d: string, e: string)
    requires |xs| == 5 && xs[0] == a && xs[1] == b && xs[2] == c && xs[3] == d && xs[4] == e
    ensures xs == [a, b, c, d, e]
  {
  }

  /** Test "basic": no flags, no files. */
  lemma CommandBasic()
    ensures Build("", "", map[], map[]) == Command("kubectl", ["apply", "--output=json"])
  {
    var c := Build("", "", map[], map[]);
    DefaultsAppended("", "", map[], map[]);
    assert c.args == c.args[..1] + Defaults(c, map[]);
  }

  /** A one-flag command, from its single argument and the defaults its flag and uploads call for. */
  lemma OneFlagCommand(flags: FlagMap, files: map<string, Bytes>, k0: string, a0: string, tail: seq<string>)
    requires Keys(flags) == [k0]
    requires FlagArg(k0, flags[k0]) == a0
    requires tail == (if NoFilenameFlag(flags) && HasConfigFile(files) then FilenameDefaultArgs else [])
                     + (if NoOutputFlag(flags) then [OutputJson] else [])
    ensures Build("", "", flags, files).args == ["apply", a0] + tail
  {
    var c := Build("", "", flags, files);
    assert |flags| == 1;
    assert c.args[2..] == tail by {
      DefaultsAppended("", "", flags, files);
    }
    assert c.args[0] == "apply" && c.args[1] == a0;
    TwoThen(c.args, "apply", a0, tail);
  }

  lemma TwoThen(xs: seq<string>, a: string, b: string, tail: seq<string>)
    requires |xs| >= 2 && xs[0] == a && xs[1] == b && xs[2..] == tail
    ensures xs == [a, b] + tail
  {
    assert xs == xs[..2] + xs[2..];
  }

  lemma KeysOfShortFilename()
    ensures Keys(map["f" := "file.yaml"]) == ["f"]
  {
  }

  /** The key "f" names neither the output flag nor, since it is not "-af", the filename flag. */
  lemma ShortFilenameNamesNothing()
    ensures NoOutputFlag(map["f" := "file.yaml"]) && NoFilenameFlag(map["f" := "file.yaml"])
  {
    OutputFlagNames("f");
    FilenameFlagNames("f");
  }

  /** Test "apply -f file.yaml": a one-letter key gets one dash, and "-f" does not suppress `--output=json`. */
  lemma CommandShortFilenameFlag()
    ensures Build("", "", map["f" := "file.yaml"], map[]).args == ["apply", "-f=file.yaml", "--output=json"]
  {
    KeysOfShortFilename();
    ShortFlagArg();
    ShortFilenameNamesNothing();
    assert !HasConfigFile(map[]);
    OneFlagCommand(map["f" := "file.yaml"], map[], "f", "-f=file.yaml", [OutputJson]);
  }

  /** Test "apply forced": a dash-prefixed key is used as is. */
  lemma CommandForced()
    ensures Build("", "", map["--force" := ""], map[]).args == ["apply", "--force", "--output=json"]
  {
    assert Keys(map["--force" := ""]) == ["--force"];
    DashedFlagArgs();
    OutputFlagNames("--force");
    assert NoOutputFlag(map["--force" := ""]);
    assert !HasConfigFile(map[]);
    OneFlagCommand(map["--force" := ""], map[], "--force", "--force", [OutputJson]);
  }

  /** A three-flag command without uploads, from its key listing and single arguments. */
  lemma ThreeFlagCommand(flags: FlagMap, k0: string, k1: string, k2: string, a0: string, a1: string, a2: string)
    requires Keys(flags) == [k0, k1, k2]
    requires FlagArg(k0, flags[k0]) == a0 && FlagArg(k1, flags[k1]) == a1 && FlagArg(k2, flags[k2]) == a2
    requires NoOutputFlag(flags)
    ensures Build("", "", flags, map[]).args == ["apply", a0, a1, a2, OutputJson]
  {
    var c := Build("", "", flags, map[]);
    assert |flags| == 3;
    assert c.args[4..] == [OutputJson] by {
      DefaultsAppended("", "", flags, map[]);
      assert !HasConfigFile(map[]);
    }
    assert c.args[1] == a0 by { assert Keys(flags)[0] == k0; }
    assert c.args[2] == a1 by { assert Keys(flags)[1] == k1; }
    assert c.args[3] == a2 by { assert Keys(flags)[2] == k2; }
    assert c.args[0] == "apply";
    ListOfFive(c.args, "apply", a0, a1, a2, OutputJson);
  }

  lemma KeysOfForcedWithTimeout()
    ensures Keys(map["timeout" := "1m", "--force" := "", "-f" := "file.yaml"]) == ["--force", "-f", "timeout"]
  {
    var listing := ["--force", "-f", "timeout"];
    assert Less(listing[0], listing[1]) && Less(listing[1], listing[2]);
    LessTransitive(listing[0], listing[1], listing[2]);
    KeysCanonical(map["timeout" := "1m", "--force" := "", "-f" := "file.yaml"], listing);
  }

  lemma KeysOfKeyWithEquals()
    ensures Keys(map["timeout=1m" := "", "--force" := "", "-f" := "file.yaml"]) == ["--force", "-f", "timeout=1m"]
  {
    var listing := ["--force", "-f", "timeout=1m"];
    assert Less(listing[0], listing[1]) && Less(listing[1], listing[2]);
    LessTransitive(listing[0], listing[1], listing[2]);
    KeysCanonical(map["timeout=1m" := "", "--force" := "", "-f" := "file.yaml"], listing);
  }

  /** Test "apply forced with timeout": keys in byte order, empty values stay bare. */
  lemma CommandForcedWithTimeout()
    ensures Build("", "", map["timeout" := "1m", "--force" := "", "-f" := "file.yaml"], map[]).args
         == ["apply", "--force", "-f=file.yaml", "--timeout=1m", "--output=json"]
  {
    KeysOfForcedWithTimeout();
    FlagArgsOfTests();
    NoOutputFlagInTests();
    ThreeFlagCommand(map["timeout" := "1m", "--force" := "", "-f" := "file.yaml"],
                     "--force", "-f", "timeout", "--force", "-f=file.yaml", "--timeout=1m");
  }

  /** Test "apply forced with timeout in bad order": the key "timeout=1m" is one opaque flag, not split. */
  lemma CommandKeyWithEquals()
    ensures Build("", "", map["timeout=1m" := "", "--force" := "", "-f" := "file.yaml"], map[]).args
         == ["apply", "--force", "-f=file.yaml", "--timeout=1m", "--output=json"]
  {
    KeysOfKeyWithEquals();
    FlagArgsOfTests();
    NoOutputFlagInTests();
    ThreeFlagCommand(map["timeout=1m" := "", "--force" := "", "-f" := "file.yaml"],
                     "--force", "-f", "timeout=1m", "--force", "-f=file.yaml", "--timeout=1m");
  }

  /**
    The "-af" comparison at work: with a YAML upload, a user's `f` flag does
    not stop the default `--filename=./ --recursive` from being appended.
  */
  lemma ShortFilenameFlagKeepsDefault()
    ensures Build("", "", map["f" := "file.yaml"], map["deploy.yaml" := "kind: Pod"]).args
         == ["apply", "-f=file.yaml", "--filename=./", "--recursive", "--output=json"]
  {
    KeysOfShortFilename();
    ShortFlagArg();
    ShortFilenameNamesNothing();
    YamlUploadIsConfig();
    OneFlagCommand(map["f" := "file.yaml"], map["deploy.yaml" := "kind: Pod"], "f", "-f=file.yaml",
                   FilenameDefaultArgs + [OutputJson]);
  }

  lemma YamlUploadIsConfig()
    ensures HasConfigFile(map["deploy.yaml" := "kind: Pod"])
  {
    assert IsConfigFile("deploy.yaml") by {
      assert "deploy.yaml"[6..] == ".yaml";
    }
  }
}
