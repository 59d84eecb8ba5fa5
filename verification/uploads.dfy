/**
  The upload check of kubeapply.go (`blacklist` and `checkUploads`): an
  upload name may not be one of the three audit records the server writes
  itself, may not contain "..", and may not be an absolute path.

  The check looks at the name as spelled, but the upload is written at
  filepath.Join of the directory and the name, which cleans it: "./request"
  passes and lands on the request record. The corrected check also refuses
  every name that is not plain, so that a name is written where it says.
*/
module Uploads {
  import opened Strings
  import opened Results
  import opened Paths

  /** The names of the audit records written next to the uploads. */
  const Reserved: set<string> := {"description", "request", "response"}

  /** filepath.IsAbs on a Unix system. */
  predicate IsAbs(path: string) {
    |path| > 0 && path[0] == '/'
  }

  /** A name checkUploads refuses. */
  predicate Unsafe(name: string) {
    name in Reserved || Contains(name, "..") || IsAbs(name)
  }

  /** A name the corrected check refuses: an unsafe one, or one that Join would rewrite. */
  predicate Refused(name: string) {
    Unsafe(name) || !Plain(name)
  }

  /** Which names a check refuses: checkUploads as written, or the corrected check. */
  datatype Rule = AsWritten | PlainNames

  predicate Rejects(rule: Rule, name: string) {
    match rule
    case AsWritten => Unsafe(name)
    case PlainNames => Refused(name)
  }

  function UnsafeMessage(name: string): string {
    "refusing to apply: unsafe filepath \"" + name + "\""
  }

  /**
    `order` lists every key of a map exactly once: the order in which Go's
    `range` over the map happened to visit them.
  */
  predicate IsEnumeration(order: seq<string>, keys: set<string>) {
    (forall i, j | 0 <= i < j < |order| :: order[i] != order[j])
    && (forall i | 0 <= i < |order| :: order[i] in keys)
    && (forall k | k in keys :: k in order)
  }

  /** The first name of `names` the rule refuses, if any. */
  function FirstRejected(rule: Rule, names: seq<string>): (r: Option<string>)
    ensures r.None? <==> forall i | 0 <= i < |names| :: !Rejects(rule, names[i])
    ensures r.Some? ==> exists i | 0 <= i < |names| ::
              names[i] == r.value && Rejects(rule, r.value) && forall j | 0 <= j < i :: !Rejects(rule, names[j])
    decreases |names|
  {
    if |names| == 0 then None
    else if Rejects(rule, names[0]) then Some(names[0])
    else
      var r := FirstRejected(rule, names[1..]);
      assert r.None? <==> forall i | 1 <= i < |names| :: !Rejects(rule, names[i]) by {
        assert forall i | 1 <= i < |names| :: names[i] == names[1..][i - 1];
      }
      if r.Some? then
        var i :| 0 <= i < |names[1..]| && names[1..][i] == r.value && Rejects(rule, r.value)
                 && forall j | 0 <= j < i :: !Rejects(rule, names[1..][j]);
        assert names[i + 1] == r.value;
        assert forall j | 0 <= j < i + 1 :: !Rejects(rule, names[j]) by {
          forall j | 0 <= j < i + 1
            ensures !Rejects(rule, names[j])
          {
            if j > 0 {
              assert names[j] == names[1..][j - 1];
            }
          }
        }
        r
      else r
  }

  /** Visit the uploads in `order` and refuse the first name the rule refuses, with a message naming it. */
  function CheckNames(rule: Rule, files: map<string, Bytes>, order: seq<string>): (err: Option<string>)
    requires IsEnumeration(order, files.Keys)
    ensures err.None? <==> forall name | name in files :: !Rejects(rule, name)
    ensures err.Some? ==> exists name | name in files :: Rejects(rule, name) && err.value == UnsafeMessage(name)
  {
    var first := FirstRejected(rule, order);
    if first.Some? then
      assert first.value in order;
      Some(UnsafeMessage(first.value))
    else
      assert forall name | name in files :: !Rejects(rule, name) by {
        forall name | name in files
          ensures !Rejects(rule, name)
        {
          var i :| 0 <= i < |order| && order[i] == name;
        }
      }
      None
  }

  /** checkUploads as written: refuse a reserved, parent-relative or absolute name. */
  function CheckUploads(files: map<string, Bytes>, order: seq<string>): (err: Option<string>)
    requires IsEnumeration(order, files.Keys)
    ensures err.None? <==> forall name | name in files :: !Unsafe(name)
    ensures err.Some? ==> exists name | name in files :: Unsafe(name) && err.value == UnsafeMessage(name)
  {
    CheckNames(AsWritten, files, order)
  }

  /** The corrected check: also refuse any name that is not plain. */
  function CheckPlainUploads(files: map<string, Bytes>, order: seq<string>): (err: Option<string>)
    requires IsEnumeration(order, files.Keys)
    ensures err.None? <==> forall name | name in files :: !Unsafe(name) && Plain(name)
    ensures err.Some? ==> exists name | name in files :: Refused(name) && err.value == UnsafeMessage(name)
  {
    CheckNames(PlainNames, files, order)
  }

  /**
    Whether the uploads are refused does not depend on the order the map is
    visited in; only which unsafe name the message quotes may.
  */
  lemma CheckUploadsOrderIndependent(files: map<string, Bytes>, order1: seq<string>, order2: seq<string>)
    requires IsEnumeration(order1, files.Keys) && IsEnumeration(order2, files.Keys)
    ensures CheckUploads(files, order1).None? <==> CheckUploads(files, order2).None?
  {
  }

  /** With exactly one unsafe upload, the message names it whatever the order. */
  lemma {:induction false} SingleUnsafeNamed(files: map<string, Bytes>, order: seq<string>, bad: string)
    requires IsEnumeration(order, files.Keys)
    requires bad in files && Unsafe(bad)
    requires forall name | name in files && name != bad :: !Unsafe(name)
    ensures CheckUploads(files, order) == Some(UnsafeMessage(bad))
  {
    var first := FirstRejected(AsWritten, order);
    assert bad in order;
    assert first.Some?;
    var i :| 0 <= i < |order| && order[i] == first.value && Unsafe(first.value);
    assert order[i] in files;
  }

  /** ".." anywhere in a name makes it unsafe, wherever it sits. */
  lemma DotDotUnsafe(name: string, i: nat)
    requires i + 2 <= |name| && name[i] == '.' && name[i + 1] == '.'
    ensures Unsafe(name)
  {
    assert name[i..i + 2] == "..";
    assert OccursAt(name, "..", i);
  }

  /** The three reserved names, a parent reference and an absolute path are refused. */
  lemma UnsafeExamples()
    ensures Unsafe("description") && Unsafe("request") && Unsafe("response")
    ensures Unsafe("../secrets.yaml") && Unsafe("app/../../etc/passwd")
    ensures Unsafe("/etc/passwd")
  {
    DotDotUnsafe("../secrets.yaml", 0);
    DotDotUnsafe("app/../../etc/passwd", 4);
  }

  /** A name without two consecutive dots does not contain "..". */
  lemma {:induction false} NoDotDot(name: string)
    requires forall i | 0 <= i < |name| - 1 :: !(name[i] == '.' && name[i + 1] == '.')
    ensures !Contains(name, "..")
  {
    forall i: nat | i <= |name|
      ensures !OccursAt(name, "..", i)
    {
      if i + 2 <= |name| {
        assert name[i..i + 2][0] == name[i] && name[i..i + 2][1] == name[i + 1];
      }
    }
  }

  /** Relative names in sub-directories are accepted. */
  lemma SafeExamples()
    ensures !Unsafe("deploy.yaml") && !Unsafe("k8s/service.json")
  {
    NoDotDot("deploy.yaml");
    NoDotDot("k8s/service.json");
  }

  /** The names of the three records are plain. */
  lemma RecordNamesPlain()
    ensures Plain("description") && Plain("request") && Plain("response")
  {
    PlainElement("description");
    PlainElement("request");
    PlainElement("response");
  }

  /**
    The names "./description" and "./request" pass checkUploads as written:
    they are not reserved, have no "..", and are relative; the corrected
    check refuses them.
  */
  lemma DotSlashPassesCheck()
    ensures !Unsafe("./" + "description") && Refused("./" + "description")
    ensures !Unsafe("./" + "request") && Refused("./" + "request")
  {
    NoDotDot("./" + "description");
    DotFirst("description");
    NoDotDot("./" + "request");
    DotFirst("request");
  }

  /** The name "." passes checkUploads as written; the corrected check refuses it. */
  lemma DotPassesCheck()
    ensures !Unsafe(".") && Refused(".")
  {
    NoDotDot(".");
    SplitNoSlash(".");
    assert !Normal(Split(".")[0]);
  }

  /** A name reaching below a record's name, such as "description/x.yaml", passes both checks. */
  lemma NestedNamePasses()
    ensures !Unsafe("description/x.yaml") && !Refused("description/x.yaml")
  {
    NoDotDot("description/x.yaml");
    NestedNamePlain();
  }

  lemma NestedNamePlain()
    ensures Plain("description/x.yaml")
  {
    var record, rest := "description", "x.yaml";
    assert NoChar(record, '/') && NoChar(rest, '/');
    TwoElements(record, rest);
    assert record + "/" + rest == "description/x.yaml";
  }

  /** A name starting with "./" has "." as its first element, so it is not plain. */
  lemma DotFirst(rest: string)
    ensures !Plain("./" + rest)
  {
    assert "./" + rest == "." + "/" + rest;
    SplitNoSlash(".");
    SplitConcat(".", rest);
    assert Split("./" + rest)[0] == ".";
  }
}
