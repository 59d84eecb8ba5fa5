/**
  The audit trail of a stateful request (kubeapply.go `configure`,
  `initConfigurationDir`, `saveDescription`, `copyConfigurationFiles`,
  `saveFile`, `listFiles`): the uploads are checked, the request's directory
  is created, then the description, every upload and the request dump are
  written into it, stopping at the first failure.

  Paths are built with filepath.Join, which cleans them. `Configure` takes
  the upload check as a `Rule`: kubeapply's is `AsWritten`, which tests the
  raw names, so a name such as "./description" lands on a record's path;
  `PlainNames` is the corrected check. Properties that hold under either
  rule are stated for both; the ones about contents need `NoAlias`, which
  the corrected check guarantees.

  The file system is a map from the paths of its files to their contents.
  A directory is implied: it is a path above a file, or one of the
  directories that exist before the request. Go's os.MkdirAll fails when a
  file sits at or above the directory to create, and os.WriteFile fails
  when a file sits above the path or the path is a directory. Any other
  failure (permissions, a full disk) is an input: the `Host` maps a path to
  the operating-system error text creating or writing it produces.
*/
module Audit {
  import opened Strings
  import opened Results
  import opened Paths
  import opened Uploads
  import opened Identity
  import opened Applies

  type Store = map<string, Bytes>

  /**
    What the store does not show: the directories present before the
    request, and the OS errors reported for reasons outside the model.
    `mkdirErrors` gives os.MkdirAll's error for the request's directory,
    `parentErrors` its error creating filepath.Dir of an upload's path,
    keyed by that path, and `writeErrors` os.WriteFile's error at a path.
  */
  datatype Host = Host(
    dirs: set<string>,
    mkdirErrors: map<string, string>,
    parentErrors: map<string, string>,
    writeErrors: map<string, string>)

  /** No directory yet and no OS error. */
  const EmptyHost := Host({}, map[], map[], map[])

  /** The file system after a step, and the error that stopped it, if any. */
  datatype Outcome = Outcome(store: Store, err: Option<string>)

  /** `q` lies strictly above `p`: `p` continues `q` after a slash. */
  predicate Above(q: string, p: string) {
    0 < |q| < |p| && p[..|q|] == q && p[|q|] == '/'
  }

  predicate AtOrAbove(q: string, p: string) {
    q == p || Above(q, p)
  }

  /** The *PathError text for an operation on a path through a file. */
  function NotADirectory(op: string, path: string): string {
    op + " " + path + ": not a directory"
  }

  /** The *PathError text for opening a directory to write it. */
  function IsADirectory(op: string, path: string): string {
    op + " " + path + ": is a directory"
  }

  /** The shortest file of `files` above `p` that is at least `k` long. */
  function FileAboveFrom(files: set<string>, p: string, k: nat): (r: Option<string>)
    requires 0 < k
    ensures r.Some? ==> r.value in files && Above(r.value, p)
    ensures r.None? ==> forall q {:trigger Above(q, p)} | q in files && k <= |q| :: !Above(q, p)
    decreases |p| - k
  {
    if |p| <= k then None
    else if p[k] == '/' && p[..k] in files then Some(p[..k])
    else FileAboveFrom(files, p, k + 1)
  }

  /** A file above `p`, if there is one: a path through it cannot be a directory. */
  function FileAbove(files: set<string>, p: string): (r: Option<string>)
    ensures r.Some? ==> r.value in files && Above(r.value, p)
    ensures r.None? <==> forall q {:trigger Above(q, p)} | q in files :: !Above(q, p)
  {
    FileAboveFrom(files, p, 1)
  }

  /**
    The error os.MkdirAll(dir) returns: the given OS error, or, with a file
    at or above `dir`, "mkdir <that file>: not a directory".
  */
  function MkdirAll(files: set<string>, host: Host, dir: string): Option<string> {
    if dir in host.mkdirErrors then Some(host.mkdirErrors[dir])
    else match FileAbove(files, dir)
      case Some(q) => Some(NotADirectory("mkdir", q))
      case None => if dir in files then Some(NotADirectory("mkdir", dir)) else None
  }

  /**
    os.MkdirAll succeeds exactly when no OS error is given and no file lies
    at or above the directory; otherwise it reports the given error or
    names such a file.
  */
  lemma MkdirAllFails(files: set<string>, host: Host, dir: string)
    ensures var r := MkdirAll(files, host, dir);
      && (r.None? <==> dir !in host.mkdirErrors && forall q {:trigger AtOrAbove(q, dir)} | q in files :: !AtOrAbove(q, dir))
      && (dir in host.mkdirErrors ==> r == Some(host.mkdirErrors[dir]))
      && (dir !in host.mkdirErrors && r.Some? ==>
            exists q {:trigger AtOrAbove(q, dir)} | q in files :: AtOrAbove(q, dir) && r.value == NotADirectory("mkdir", q))
  {
    if dir !in host.mkdirErrors {
      match FileAbove(files, dir)
      case Some(q) => assert AtOrAbove(q, dir);
      case None => assert AtOrAbove(dir, dir);
    }
  }

  /** `p` is a directory: a directory that already exists lies at or under it, or a file under it. */
  predicate IsDir(files: set<string>, host: Host, p: string) {
    (exists m | m in host.dirs :: AtOrAbove(p, m)) || (exists q {:trigger Above(p, q)} | q in files :: Above(p, q))
  }

  /**
    A file may be written at `p`: no file above it, no directory at it, and
    no OS error given for it.
  */
  predicate Writable(files: set<string>, host: Host, p: string) {
    && p !in host.writeErrors
    && (forall m | m in host.dirs :: !AtOrAbove(p, m))
    && (forall q {:trigger Above(q, p)} {:trigger Above(p, q)} | q in files :: !Above(q, p) && !Above(p, q))
  }

  /**
    The error os.WriteFile(p) returns: through a file "open p: not a
    directory", onto a directory "open p: is a directory", else the given
    OS error.
  */
  function OpenError(files: set<string>, host: Host, p: string): Option<string> {
    if FileAbove(files, p).Some? then Some(NotADirectory("open", p))
    else if IsDir(files, host, p) then Some(IsADirectory("open", p))
    else if p in host.writeErrors then Some(host.writeErrors[p])
    else None
  }

  /**
    os.WriteFile succeeds exactly where a file may be written; otherwise,
    unless an OS error is given, the path is under a file or a directory.
  */
  lemma OpenErrorFails(files: set<string>, host: Host, p: string)
    ensures var r := OpenError(files, host, p);
      && (r.None? <==> Writable(files, host, p))
      && (r.Some? && p !in host.writeErrors ==> r.value == NotADirectory("open", p) || r.value == IsADirectory("open", p))
  {
  }

  function MkdirMessage(osError: string): string {
    "can't create files configuration directory: " + osError
  }

  /** The error saveFile reports: the path and the OS error. */
  function WriteMessage(file: string, osError: string): string {
    "cannot write " + file + ": " + osError
  }

  /** saveFile: write `content` to dir/name, or report the path and the OS error. */
  function SaveFile(store: Store, host: Host, dir: string, name: string, content: Bytes): (r: Outcome)
    ensures r.err.None? ==> r.store == store[PathJoin(dir, name) := content]
    ensures r.err.Some? ==>
              && OpenError(store.Keys, host, PathJoin(dir, name)).Some?
              && r == Outcome(store, Some(WriteMessage(PathJoin(dir, name), OpenError(store.Keys, host, PathJoin(dir, name)).value)))
  {
    var file := PathJoin(dir, name);
    match OpenError(store.Keys, host, file)
    case Some(e) => Outcome(store, Some(WriteMessage(file, e)))
    case None => Outcome(store[file := content], None)
  }

  /** saveFile succeeds exactly where a file may be written. */
  lemma SaveFileSucceedsIff(store: Store, host: Host, dir: string, name: string, content: Bytes)
    ensures SaveFile(store, host, dir, name, content).err.None? <==> Writable(store.Keys, host, PathJoin(dir, name))
  {
    OpenErrorFails(store.Keys, host, PathJoin(dir, name));
  }

  /** An upload may be copied to `p`: its parent directory can be created, and `p` is writable. */
  predicate Copyable(files: set<string>, host: Host, p: string) {
    p !in host.parentErrors && Writable(files, host, p)
  }

  /**
    What copying one upload fails with, given the files present: creating
    its parent directory (a file above the upload's path makes that fail),
    then writing it.
  */
  function CopyFault(files: set<string>, host: Host, dir: string, name: string): Option<string> {
    var file := PathJoin(dir, name);
    if file in host.parentErrors then Some(MkdirMessage(host.parentErrors[file]))
    else match FileAbove(files, file)
      case Some(q) => Some(MkdirMessage(NotADirectory("mkdir", q)))
      case None =>
        match OpenError(files, host, file)
        case Some(e) => Some("error writing " + name + " (" + file + "): " + e)
        case None => None
  }

  /** Copying one upload succeeds exactly where it may be copied. */
  lemma CopyFaultNone(files: set<string>, host: Host, dir: string, name: string)
    ensures CopyFault(files, host, dir, name).None? <==> Copyable(files, host, PathJoin(dir, name))
  {
    OpenErrorFails(files, host, PathJoin(dir, name));
  }

  /** copyConfigurationFiles: write the uploads in `order` under `dir`, stopping at the first failure. */
  function CopyFiles(store: Store, host: Host, dir: string, files: map<string, Bytes>, order: seq<string>): (r: Outcome)
    requires forall i | 0 <= i < |order| :: order[i] in files
    decreases |order|
  {
    if |order| == 0 then Outcome(store, None)
    else
      var f := order[0];
      match CopyFault(store.Keys, host, dir, f)
      case Some(e) => Outcome(store, Some(e))
      case None => CopyFiles(store[PathJoin(dir, f) := files[f]], host, dir, files, order[1..])
  }

  /** The paths of the uploads named in `names` under `dir`. */
  function UploadPaths(dir: string, names: set<string>): set<string> {
    set f | f in names :: PathJoin(dir, f)
  }

  /** `after` differs from `before` only at paths in `written`. */
  predicate Frame(before: Store, after: Store, written: set<string>) {
    (forall p | p in after :: p in before || p in written)
    && (forall p | p in before && p !in written :: p in after && after[p] == before[p])
  }

  /**
    Files can be written at all of `paths`, in any order, next to `files`:
    each is writable there, and none lies above another.
  */
  predicate Apart(files: set<string>, host: Host, paths: set<string>) {
    && (forall p | p in paths :: Writable(files, host, p))
    && (forall p, q {:trigger Above(p, q)} | p in paths && q in paths :: !Above(p, q))
  }

  /** Uploads can be copied to all of `paths`, in any order, next to `files`. */
  predicate CopyClear(files: set<string>, host: Host, paths: set<string>) {
    (forall p | p in paths :: p !in host.parentErrors) && Apart(files, host, paths)
  }

  /** Copying succeeds exactly when the uploads' paths are clear, whatever their order. */
  lemma {:induction false} CopyFilesSucceedsIff(store: Store, host: Host, dir: string, files: map<string, Bytes>, order: seq<string>)
    requires forall i | 0 <= i < |order| :: order[i] in files
    ensures CopyFiles(store, host, dir, files, order).err.None?
        <==> CopyClear(store.Keys, host, UploadPaths(dir, set f | f in order))
    decreases |order|
  {
    if |order| > 0 {
      var first := PathJoin(dir, order[0]);
      var rest := UploadPaths(dir, set f | f in order[1..]);
      UploadPathsCons(dir, order);
      CopyFaultNone(store.Keys, host, dir, order[0]);
      if CopyFault(store.Keys, host, dir, order[0]).None? {
        var next := store[first := files[order[0]]];
        assert next.Keys == store.Keys + {first};
        CopyFilesSucceedsIff(next, host, dir, files, order[1..]);
        ApartAdd(store.Keys, host, first, rest);
      }
    }
  }

  /** The paths of a sequence of uploads: the first one's and the rest's. */
  lemma UploadPathsCons(dir: string, order: seq<string>)
    requires |order| > 0
    ensures UploadPaths(dir, set f | f in order) == {PathJoin(dir, order[0])} + UploadPaths(dir, set f | f in order[1..])
  {
    assert (set f | f in order) == {order[0]} + (set f | f in order[1..]);
  }

  /** After a file is written at a writable `x`, the other paths are apart exactly when all of them were. */
  lemma ApartAdd(files: set<string>, host: Host, x: string, rest: set<string>)
    requires Writable(files, host, x)
    ensures Apart(files + {x}, host, rest) <==> Apart(files, host, {x} + rest)
  {
    forall p
      ensures Writable(files + {x}, host, p) <==> Writable(files, host, p) && !Above(x, p) && !Above(p, x)
    {
      WritableUnion(files, {x}, host, p);
    }
  }

  /** Writable next to more files: writable next to the first ones, and apart from each added one. */
  lemma WritableUnion(files: set<string>, more: set<string>, host: Host, p: string)
    ensures Writable(files + more, host, p)
        <==> Writable(files, host, p) && forall x | x in more :: !Above(x, p) && !Above(p, x)
  {
  }

  /** A successful copy adds exactly the uploads' paths to the files. */
  lemma {:induction false} CopyFilesKeys(store: Store, host: Host, dir: string, files: map<string, Bytes>, order: seq<string>)
    requires forall i | 0 <= i < |order| :: order[i] in files
    requires CopyFiles(store, host, dir, files, order).err.None?
    ensures CopyFiles(store, host, dir, files, order).store.Keys == store.Keys + UploadPaths(dir, set f | f in order)
    decreases |order|
  {
    if |order| > 0 {
      var first := order[0];
      var next := store[PathJoin(dir, first) := files[first]];
      CopyFilesKeys(next, host, dir, files, order[1..]);
      UploadPathsCons(dir, order);
    }
  }

  /** Copying touches nothing but the uploads' own paths. */
  lemma {:induction false} CopyFilesFrame(store: Store, host: Host, dir: string, files: map<string, Bytes>, order: seq<string>)
    requires forall i | 0 <= i < |order| :: order[i] in files
    ensures Frame(store, CopyFiles(store, host, dir, files, order).store, UploadPaths(dir, set f | f in order))
    decreases |order|
  {
    if |order| > 0 && CopyFault(store.Keys, host, dir, order[0]).None? {
      var next := store[PathJoin(dir, order[0]) := files[order[0]]];
      CopyFilesFrame(next, host, dir, files, order[1..]);
      var all := UploadPaths(dir, set f | f in order);
      var rest := UploadPaths(dir, set f | f in order[1..]);
      assert PathJoin(dir, order[0]) in all;
      assert rest <= all by {
        forall p | p in rest
          ensures p in all
        {
          var f :| f in order[1..] && p == PathJoin(dir, f);
        }
      }
    }
  }

  /** No two names of `names` are written at the same path under `dir`. */
  predicate JoinApart(dir: string, names: seq<string>) {
    forall i, j | 0 <= i < |names| && 0 <= j < |names| && PathJoin(dir, names[i]) == PathJoin(dir, names[j]) ::
      names[i] == names[j]
  }

  /** Plain names are written at distinct paths. */
  lemma PlainApart(dir: string, names: seq<string>)
    requires forall i | 0 <= i < |names| :: Plain(names[i])
    ensures JoinApart(dir, names)
  {
    forall i, j | 0 <= i < |names| && 0 <= j < |names| && PathJoin(dir, names[i]) == PathJoin(dir, names[j])
      ensures names[i] == names[j]
    {
      PathJoinInjective(dir, names[i], names[j]);
    }
  }

  lemma JoinApartTail(dir: string, names: seq<string>)
    requires |names| > 0 && JoinApart(dir, names)
    ensures JoinApart(dir, names[1..])
  {
    forall i, j | 0 <= i < |names[1..]| && 0 <= j < |names[1..]|
                  && PathJoin(dir, names[1..][i]) == PathJoin(dir, names[1..][j])
      ensures names[1..][i] == names[1..][j]
    {
      assert names[1..][i] == names[i + 1] && names[1..][j] == names[j + 1];
    }
  }

  /** The first name's path is another name's only when the names are equal. */
  lemma FirstApart(dir: string, names: seq<string>)
    requires |names| > 0 && JoinApart(dir, names)
    ensures PathJoin(dir, names[0]) in UploadPaths(dir, set f | f in names[1..]) ==> names[0] in names[1..]
  {
    if PathJoin(dir, names[0]) in UploadPaths(dir, set f | f in names[1..]) {
      var g :| g in names[1..] && PathJoin(dir, names[0]) == PathJoin(dir, g);
      var k :| 0 <= k < |names[1..]| && names[1..][k] == g;
      assert names[k + 1] == g;
    }
  }

  /**
    A successful copy leaves every upload in `order` at its path with its
    content, provided no two of them are written at the same path.
  */
  lemma {:induction false} CopyFilesWrites(store: Store, host: Host, dir: string, files: map<string, Bytes>, order: seq<string>)
    requires forall i | 0 <= i < |order| :: order[i] in files
    requires JoinApart(dir, order)
    requires CopyFiles(store, host, dir, files, order).err.None?
    ensures forall f | f in order ::
              PathJoin(dir, f) in CopyFiles(store, host, dir, files, order).store
              && CopyFiles(store, host, dir, files, order).store[PathJoin(dir, f)] == files[f]
  {
    forall f | f in order
      ensures PathJoin(dir, f) in CopyFiles(store, host, dir, files, order).store
           && CopyFiles(store, host, dir, files, order).store[PathJoin(dir, f)] == files[f]
    {
      CopyFilesWritesOne(store, host, dir, files, order, f);
    }
  }

  /** CopyFilesWrites for one upload: the last write to its path is its own. */
  lemma {:induction false} CopyFilesWritesOne(store: Store, host: Host, dir: string, files: map<string, Bytes>, order: seq<string>, f: string)
    requires forall i | 0 <= i < |order| :: order[i] in files
    requires JoinApart(dir, order)
    requires CopyFiles(store, host, dir, files, order).err.None?
    requires f in order
    ensures var s := CopyFiles(store, host, dir, files, order).store;
      PathJoin(dir, f) in s && s[PathJoin(dir, f)] == files[f]
    decreases |order|
  {
    var first := order[0];
    var next := store[PathJoin(dir, first) := files[first]];
    assert CopyFault(store.Keys, host, dir, first).None?;
    CopyFilesStep(store, host, dir, files, order);
    JoinApartTail(dir, order);
    if f in order[1..] {
      CopyFilesWritesOne(next, host, dir, files, order[1..], f);
    } else {
      assert f == first;
      var p := PathJoin(dir, first);
      assert p !in UploadPaths(dir, set g | g in order[1..]) by {
        FirstApart(dir, order);
      }
      CopyFilesFrame(next, host, dir, files, order[1..]);
      assert p in next && next[p] == files[first];
    }
  }

  /** listFiles: the upload names, each once, in byte-wise order. */
  function ListFiles(a: Apply): (names: seq<string>)
    ensures |names| == |a.files|
    ensures forall f :: f in names <==> f in a.files
    ensures StrictlySorted(names)
  {
    SortedSet(a.files.Keys)
  }

  /**
    The description record: id, RubyDate time, client address, the command
    line, and the uploads one per line in byte-wise order.
  */
  function Description(a: Apply): string {
    "ID: " + a.id + "\nDate: " + a.timestamp.rubyDate + "\nIP: " + a.ip
    + "\n\nCommand:\n" + a.name + " " + Join(a.args, " ")
    + "\n\nList of files:\n" + Join(ListFiles(a), "\n") + "\n"
  }

  /** The description names every upload. */
  lemma DescriptionListsUploads(a: Apply, f: string)
    requires f in a.files
    ensures Contains(Description(a), f)
  {
    var names := ListFiles(a);
    var i :| 0 <= i < |names| && names[i] == f;
    JoinContains(names, "\n", i);
    var head := "ID: " + a.id + "\nDate: " + a.timestamp.rubyDate + "\nIP: " + a.ip
      + "\n\nCommand:\n" + a.name + " " + Join(a.args, " ")
      + "\n\nList of files:\n";
    ContainsAfter(head, Join(names, "\n"), f);
    ContainsBefore(head + Join(names, "\n"), "\n", f);
  }

  /** The three records a stateful request leaves next to its uploads. */
  function RecordPath(a: Apply, record: string): string {
    PathJoin(a.dir, record)
  }

  /** Every path configure may write. */
  function AuditPaths(a: Apply): set<string> {
    {RecordPath(a, "description"), RecordPath(a, "request")} + UploadPaths(a.dir, a.files.Keys)
  }

  /**
    What configure does once the upload names are accepted: create the
    request's directory, then write the description, every upload and the
    request dump, the first failure ending it.
  */
  function WriteTrail(a: Apply, store: Store, host: Host, copyOrder: seq<string>): Outcome
    requires IsEnumeration(copyOrder, a.files.Keys)
  {
    var made := MkdirAll(store.Keys, host, a.dir);
    if made.Some? then Outcome(store, Some(MkdirMessage(made.value)))
    else
      var described := SaveFile(store, host, a.dir, "description", Description(a));
      if described.err.Some? then described
      else
        var copied := CopyFiles(described.store, host, a.dir, a.files, copyOrder);
        if copied.err.Some? then copied
        else SaveFile(copied.store, host, a.dir, "request", a.requestDump)
  }

  /**
    configure: check the upload names under `rule`, then write the trail.
    kubeapply runs it with `AsWritten`; `PlainNames` is the corrected check.
  */
  function Configure(rule: Rule, a: Apply, store: Store, host: Host, checkOrder: seq<string>, copyOrder: seq<string>): Outcome
    requires IsEnumeration(checkOrder, a.files.Keys) && IsEnumeration(copyOrder, a.files.Keys)
  {
    var refused := CheckNames(rule, a.files, checkOrder);
    if refused.Some? then Outcome(store, refused) else WriteTrail(a, store, host, copyOrder)
  }

  /** No upload name is rejected under `rule`. */
  predicate Accepted(rule: Rule, a: Apply) {
    forall f | f in a.files :: !Rejects(rule, f)
  }

  /**
    Every upload has a path of its own: no two uploads are written at the
    same path, and none is written at a record's path.
  */
  predicate NoAlias(a: Apply) {
    && (forall f, g | f in a.files && g in a.files && PathJoin(a.dir, f) == PathJoin(a.dir, g) :: f == g)
    && (forall f | f in a.files :: PathJoin(a.dir, f) != RecordPath(a, "description"))
    && (forall f | f in a.files :: PathJoin(a.dir, f) != RecordPath(a, "request"))
    && (forall f | f in a.files :: PathJoin(a.dir, f) != RecordPath(a, "response"))
  }

  /** The three records never share a path. */
  lemma RecordPathsDiffer(a: Apply)
    ensures RecordPath(a, "description") != RecordPath(a, "request")
    ensures RecordPath(a, "description") != RecordPath(a, "response")
    ensures RecordPath(a, "request") != RecordPath(a, "response")
  {
    RecordNamesPlain();
    if RecordPath(a, "description") == RecordPath(a, "request") {
      PathJoinInjective(a.dir, "description", "request");
    }
    if RecordPath(a, "description") == RecordPath(a, "response") {
      PathJoinInjective(a.dir, "description", "response");
    }
    if RecordPath(a, "request") == RecordPath(a, "response") {
      PathJoinInjective(a.dir, "request", "response");
    }
  }

  /**
    The corrected check is enough: names it accepts are written at paths of
    their own, apart from each other and from the three records.
  */
  lemma RecordsApart(a: Apply)
    requires Accepted(PlainNames, a)
    ensures NoAlias(a)
  {
    RecordNamesPlain();
    forall f, g | f in a.files && g in a.files && PathJoin(a.dir, f) == PathJoin(a.dir, g)
      ensures f == g
    {
      PathJoinInjective(a.dir, f, g);
    }
    forall f, record | f in a.files && record in ["description", "request", "response"]
      ensures PathJoin(a.dir, f) != RecordPath(a, record)
    {
      if PathJoin(a.dir, f) == RecordPath(a, record) {
        PathJoinInjective(a.dir, f, record);
      }
    }
  }

  /** Without aliases, no upload is written at the description's or the request's path. */
  lemma UploadsOffRecords(a: Apply)
    requires NoAlias(a)
    ensures RecordPath(a, "description") !in UploadPaths(a.dir, a.files.Keys)
    ensures RecordPath(a, "request") !in UploadPaths(a.dir, a.files.Keys)
  {
  }

  /** Without aliases, uploads named in any order are written at distinct paths. */
  lemma AcceptedApart(a: Apply, order: seq<string>)
    requires NoAlias(a)
    requires forall i | 0 <= i < |order| :: order[i] in a.files
    ensures JoinApart(a.dir, order)
  {
  }

  /**
    Every step of the writes can succeed, whatever order the uploads are
    copied in: the request's directory can be created (no OS error for it,
    no file at or above it), every upload's parent directory can be
    created, and the paths written are apart next to the files present.
  */
  predicate TrailClear(a: Apply, files: set<string>, host: Host) {
    && a.dir !in host.mkdirErrors
    && (forall q {:trigger AtOrAbove(q, a.dir)} | q in files :: !AtOrAbove(q, a.dir))
    && (forall p | p in UploadPaths(a.dir, a.files.Keys) :: p !in host.parentErrors)
    && Apart(files, host, AuditPaths(a))
  }

  /** No upload name is rejected under `rule` and every write can succeed. */
  predicate ConfigureClear(rule: Rule, a: Apply, store: Store, host: Host) {
    Accepted(rule, a) && TrailClear(a, store.Keys, host)
  }

  /** A rejected upload name stops configure before anything is written, and the error names a rejected upload. */
  lemma ConfigureRefusesUnsafe(rule: Rule, a: Apply, store: Store, host: Host, checkOrder: seq<string>, copyOrder: seq<string>, bad: string)
    requires IsEnumeration(checkOrder, a.files.Keys) && IsEnumeration(copyOrder, a.files.Keys)
    requires bad in a.files && Rejects(rule, bad)
    ensures var r := Configure(rule, a, store, host, checkOrder, copyOrder);
      && r.store == store && r.err == CheckNames(rule, a.files, checkOrder)
      && r.err.Some?
      && exists name | name in a.files :: Rejects(rule, name) && r.err.value == UnsafeMessage(name)
  {
  }

  /** configure succeeds exactly when the uploads are accepted and every write can succeed. */
  lemma ConfigureSucceedsIff(rule: Rule, a: Apply, store: Store, host: Host, checkOrder: seq<string>, copyOrder: seq<string>)
    requires IsEnumeration(checkOrder, a.files.Keys) && IsEnumeration(copyOrder, a.files.Keys)
    ensures Configure(rule, a, store, host, checkOrder, copyOrder).err.None? <==> ConfigureClear(rule, a, store, host)
  {
    if CheckNames(rule, a.files, checkOrder).None? {
      WriteTrailSucceedsIff(a, store, host, copyOrder);
    }
  }

  /**
    Two paths configure writes, one above the other, make it fail: an
    upload named "a" next to one named "a/b.yaml", or an upload under a
    record's name.
  */
  lemma NestedPathsFail(rule: Rule, a: Apply, store: Store, host: Host, checkOrder: seq<string>, copyOrder: seq<string>, w: string, v: string)
    requires IsEnumeration(checkOrder, a.files.Keys) && IsEnumeration(copyOrder, a.files.Keys)
    requires w in AuditPaths(a) && v in AuditPaths(a) && Above(w, v)
    ensures Configure(rule, a, store, host, checkOrder, copyOrder).err.Some?
  {
    ConfigureSucceedsIff(rule, a, store, host, checkOrder, copyOrder);
  }

  /** The writes succeed exactly when every one of them can. */
  lemma WriteTrailSucceedsIff(a: Apply, store: Store, host: Host, copyOrder: seq<string>)
    requires IsEnumeration(copyOrder, a.files.Keys)
    ensures WriteTrail(a, store, host, copyOrder).err.None? <==> TrailClear(a, store.Keys, host)
  {
    if TrailClear(a, store.Keys, host) {
      WriteTrailClear(a, store, host, copyOrder);
    } else {
      WriteTrailFails(a, store, host, copyOrder);
    }
  }

  /** A write that cannot succeed makes the writes fail. */
  lemma WriteTrailFails(a: Apply, store: Store, host: Host, copyOrder: seq<string>)
    requires IsEnumeration(copyOrder, a.files.Keys)
    requires !TrailClear(a, store.Keys, host)
    ensures WriteTrail(a, store, host, copyOrder).err.Some?
  {
    var desc := RecordPath(a, "description");
    TrailClearStaged(a, store.Keys, host);
    SaveFileSucceedsIff(store, host, a.dir, "description", Description(a));
    if MkdirAll(store.Keys, host, a.dir).None? && Writable(store.Keys, host, desc) {
      TrailFailsAfterDescription(a, store, host, copyOrder);
    }
  }

  /** Past the description, an upload that cannot be copied or a request dump that cannot be written makes the writes fail. */
  lemma TrailFailsAfterDescription(a: Apply, store: Store, host: Host, copyOrder: seq<string>)
    requires IsEnumeration(copyOrder, a.files.Keys)
    requires MkdirAll(store.Keys, host, a.dir).None? && Writable(store.Keys, host, RecordPath(a, "description"))
    requires var present := store.Keys + {RecordPath(a, "description")};
      !(CopyClear(present, host, UploadPaths(a.dir, a.files.Keys))
        && Writable(present + UploadPaths(a.dir, a.files.Keys), host, RecordPath(a, "request")))
    ensures WriteTrail(a, store, host, copyOrder).err.Some?
  {
    if CopyClear(store.Keys + {RecordPath(a, "description")}, host, UploadPaths(a.dir, a.files.Keys)) {
      TrailRequestFails(a, store, host, copyOrder);
    } else {
      TrailCopiesFail(a, store, host, copyOrder);
    }
  }

  /** Past the description, an upload that cannot be copied makes the writes fail. */
  lemma TrailCopiesFail(a: Apply, store: Store, host: Host, copyOrder: seq<string>)
    requires IsEnumeration(copyOrder, a.files.Keys)
    requires MkdirAll(store.Keys, host, a.dir).None? && Writable(store.Keys, host, RecordPath(a, "description"))
    requires !CopyClear(store.Keys + {RecordPath(a, "description")}, host, UploadPaths(a.dir, a.files.Keys))
    ensures WriteTrail(a, store, host, copyOrder).err.Some?
  {
    var desc := RecordPath(a, "description");
    var described := store[desc := Description(a)];
    assert described.Keys == store.Keys + {desc};
    UploadsCopied(a, described, host, copyOrder);
    WriteTrailAfterDescription(a, store, host, copyOrder);
  }

  /**
    TrailClear read step by step: the directory, then the description next
    to the files present, then the uploads next to those and the
    description, then the request next to all of them.
  */
  lemma TrailClearStaged(a: Apply, files: set<string>, host: Host)
    ensures var desc := RecordPath(a, "description");
      var uploads := UploadPaths(a.dir, a.files.Keys);
      TrailClear(a, files, host) <==>
        && MkdirAll(files, host, a.dir).None?
        && Writable(files, host, desc)
        && CopyClear(files + {desc}, host, uploads)
        && Writable(files + {desc} + uploads, host, RecordPath(a, "request"))
  {
    var desc := RecordPath(a, "description");
    var uploads := UploadPaths(a.dir, a.files.Keys);
    MkdirAllFails(files, host, a.dir);
    ApartStaged(files, host, desc, RecordPath(a, "request"), uploads);
  }

  /** Apart read in the order the writes happen: first `d`, then `more`, then `r`. */
  lemma ApartStaged(files: set<string>, host: Host, d: string, r: string, more: set<string>)
    ensures Apart(files, host, {d, r} + more)
        <==> Writable(files, host, d) && Apart(files + {d}, host, more) && Writable(files + {d} + more, host, r)
  {
    assert {d, r} + more == {d} + ({r} + more);
    if Writable(files, host, d) {
      ApartAdd(files, host, d, {r} + more);
      ApartLast(files + {d}, host, r, more);
    }
  }

  /** Paths apart with one more written after them: apart, and the last one writable next to them. */
  lemma ApartLast(files: set<string>, host: Host, r: string, more: set<string>)
    ensures Apart(files, host, {r} + more) <==> Apart(files, host, more) && Writable(files + more, host, r)
  {
    WritableUnion(files, more, host, r);
  }

  lemma FrameCompose(s0: Store, s1: Store, s2: Store, w1: set<string>, w2: set<string>, w: set<string>)
    requires Frame(s0, s1, w1) && Frame(s1, s2, w2) && w1 <= w && w2 <= w
    ensures Frame(s0, s2, w)
  {
  }

  /** configure writes nowhere but the records and the uploads' paths in the request's directory. */
  lemma ConfigureFrame(rule: Rule, a: Apply, store: Store, host: Host, checkOrder: seq<string>, copyOrder: seq<string>)
    requires IsEnumeration(checkOrder, a.files.Keys) && IsEnumeration(copyOrder, a.files.Keys)
    ensures Frame(store, Configure(rule, a, store, host, checkOrder, copyOrder).store, AuditPaths(a))
  {
    if CheckNames(rule, a.files, checkOrder).None? {
      WriteTrailFrame(a, store, host, copyOrder);
    } else {
      assert Frame(store, store, AuditPaths(a));
    }
  }

  /** The writes touch nothing but the records and the uploads' paths. */
  lemma WriteTrailFrame(a: Apply, store: Store, host: Host, copyOrder: seq<string>)
    requires IsEnumeration(copyOrder, a.files.Keys)
    ensures Frame(store, WriteTrail(a, store, host, copyOrder).store, AuditPaths(a))
  {
    if MkdirAll(store.Keys, host, a.dir).None? && Writable(store.Keys, host, RecordPath(a, "description")) {
      FrameAfterDescription(a, store, host, copyOrder);
    } else {
      SaveFileSucceedsIff(store, host, a.dir, "description", Description(a));
      assert WriteTrail(a, store, host, copyOrder).store == store;
    }
  }

  /** Past the description, the writes touch nothing but the records and the uploads' paths. */
  lemma FrameAfterDescription(a: Apply, store: Store, host: Host, copyOrder: seq<string>)
    requires IsEnumeration(copyOrder, a.files.Keys)
    requires MkdirAll(store.Keys, host, a.dir).None? && Writable(store.Keys, host, RecordPath(a, "description"))
    ensures Frame(store, WriteTrail(a, store, host, copyOrder).store, AuditPaths(a))
  {
    var desc := RecordPath(a, "description");
    var req := RecordPath(a, "request");
    var uploads := UploadPaths(a.dir, a.files.Keys);
    var described := store[desc := Description(a)];
    var copied := CopyFiles(described, host, a.dir, a.files, copyOrder);
    UploadsFrame(a, described, host, copyOrder);
    FrameCompose(store, described, copied.store, {desc}, uploads, AuditPaths(a));
    var requested := SaveFile(copied.store, host, a.dir, "request", a.requestDump);
    assert Frame(copied.store, requested.store, {req});
    FrameCompose(store, copied.store, requested.store, AuditPaths(a), {req}, AuditPaths(a));
    WriteTrailAfterDescription(a, store, host, copyOrder);
  }

  /** A successful configure adds exactly the records and the uploads' paths to the files. */
  lemma ConfigureKeys(rule: Rule, a: Apply, store: Store, host: Host, checkOrder: seq<string>, copyOrder: seq<string>)
    requires IsEnumeration(checkOrder, a.files.Keys) && IsEnumeration(copyOrder, a.files.Keys)
    requires Configure(rule, a, store, host, checkOrder, copyOrder).err.None?
    ensures Configure(rule, a, store, host, checkOrder, copyOrder).store.Keys == store.Keys + AuditPaths(a)
  {
    ConfigureSucceedsIff(rule, a, store, host, checkOrder, copyOrder);
    ConfigureWrites(rule, a, store, host, checkOrder, copyOrder);
    TrailKeys(a, store, host, copyOrder);
  }

  /** Writes that can all succeed add exactly the records and the uploads' paths. */
  lemma TrailKeys(a: Apply, store: Store, host: Host, copyOrder: seq<string>)
    requires IsEnumeration(copyOrder, a.files.Keys)
    requires TrailClear(a, store.Keys, host)
    ensures WriteTrail(a, store, host, copyOrder).store.Keys == store.Keys + AuditPaths(a)
  {
    WriteTrailClear(a, store, host, copyOrder);
    DescribedThenCopied(a, store, host, copyOrder);
  }

  /** The description, the request dump and every upload sit in the request's directory. */
  predicate Recorded(a: Apply, s: Store) {
    && RecordPath(a, "description") in s && s[RecordPath(a, "description")] == Description(a)
    && RecordPath(a, "request") in s && s[RecordPath(a, "request")] == a.requestDump
    && forall f | f in a.files :: PathJoin(a.dir, f) in s && s[PathJoin(a.dir, f)] == a.files[f]
  }

  /** The entry at `p` is the same in both stores: absent from both, or present with one content. */
  predicate Untouched(before: Store, after: Store, p: string) {
    (p in after <==> p in before) && (p in before ==> after[p] == before[p])
  }

  /**
    Copying stops at the first upload that meets a fault: it reports that
    upload's error and leaves the store the uploads before it produced.
  */
  lemma CopyFilesStops(store: Store, host: Host, dir: string, files: map<string, Bytes>, order: seq<string>, i: nat)
    requires forall k | 0 <= k < |order| :: order[k] in files
    requires i < |order| && CopyFiles(store, host, dir, files, order[..i]).err.None?
    requires CopyFault(CopyFiles(store, host, dir, files, order[..i]).store.Keys, host, dir, order[i]).Some?
    ensures var s := CopyFiles(store, host, dir, files, order[..i]).store;
      CopyFiles(store, host, dir, files, order) == Outcome(s, CopyFault(s.Keys, host, dir, order[i]))
  {
    var before := order[..i];
    var after := order[i..];
    assert order == before + after;
    CopyFilesAppend(store, host, dir, files, before, after);
    assert after[0] == order[i];
  }

  /** Copying a run of uploads that succeeds, then more, is copying the first run and then the rest. */
  lemma {:induction false} CopyFilesAppend(store: Store, host: Host, dir: string, files: map<string, Bytes>, xs: seq<string>, ys: seq<string>)
    requires forall k | 0 <= k < |xs| :: xs[k] in files
    requires forall k | 0 <= k < |ys| :: ys[k] in files
    requires CopyFiles(store, host, dir, files, xs).err.None?
    ensures CopyFiles(store, host, dir, files, xs + ys)
         == CopyFiles(CopyFiles(store, host, dir, files, xs).store, host, dir, files, ys)
    decreases |xs|
  {
    if |xs| == 0 {
      assert xs + ys == ys;
    } else {
      var next := store[PathJoin(dir, xs[0]) := files[xs[0]]];
      assert (xs + ys)[0] == xs[0] && (xs + ys)[1..] == xs[1..] + ys;
      assert CopyFault(store.Keys, host, dir, xs[0]).None?;
      CopyFilesStep(store, host, dir, files, xs + ys);
      CopyFilesStep(store, host, dir, files, xs);
      CopyFilesAppend(next, host, dir, files, xs[1..], ys);
    }
  }

  /** Copying past an upload that meets no fault: write it, then copy the rest. */
  lemma CopyFilesStep(store: Store, host: Host, dir: string, files: map<string, Bytes>, order: seq<string>)
    requires forall k | 0 <= k < |order| :: order[k] in files
    requires |order| > 0 && CopyFault(store.Keys, host, dir, order[0]).None?
    ensures CopyFiles(store, host, dir, files, order)
         == CopyFiles(store[PathJoin(dir, order[0]) := files[order[0]]], host, dir, files, order[1..])
  {
  }

  /**
    Once the directory and the description are written and the uploads are
    clear next to them, copying succeeds and writes nothing but the uploads;
    without aliases the store then holds the description and every upload,
    and the request record is as it was.
  */
  lemma DescribedAndCopied(a: Apply, store: Store, host: Host, copyOrder: seq<string>)
    requires IsEnumeration(copyOrder, a.files.Keys)
    requires CopyClear(store.Keys + {RecordPath(a, "description")}, host, UploadPaths(a.dir, a.files.Keys))
    ensures var copied := CopyFiles(store[RecordPath(a, "description") := Description(a)], host, a.dir, a.files, copyOrder);
      && copied.err.None?
      && Frame(store[RecordPath(a, "description") := Description(a)], copied.store, UploadPaths(a.dir, a.files.Keys))
      && (NoAlias(a) ==>
            && RecordPath(a, "description") in copied.store
            && copied.store[RecordPath(a, "description")] == Description(a)
            && (forall f | f in a.files :: PathJoin(a.dir, f) in copied.store && copied.store[PathJoin(a.dir, f)] == a.files[f])
            && Untouched(store, copied.store, RecordPath(a, "request")))
  {
    var desc := RecordPath(a, "description");
    var described := store[desc := Description(a)];
    assert described.Keys == store.Keys + {desc};
    UploadsCopied(a, described, host, copyOrder);
    UploadsFrame(a, described, host, copyOrder);
    if NoAlias(a) {
      CopiedWithoutAlias(a, store, host, copyOrder);
    }
  }

  /** Without aliases, copying after the description keeps it, writes every upload, and leaves the request record alone. */
  lemma CopiedWithoutAlias(a: Apply, store: Store, host: Host, copyOrder: seq<string>)
    requires IsEnumeration(copyOrder, a.files.Keys)
    requires NoAlias(a)
    requires CopyFiles(store[RecordPath(a, "description") := Description(a)], host, a.dir, a.files, copyOrder).err.None?
    ensures var copied := CopyFiles(store[RecordPath(a, "description") := Description(a)], host, a.dir, a.files, copyOrder);
      && RecordPath(a, "description") in copied.store
      && copied.store[RecordPath(a, "description")] == Description(a)
      && (forall f | f in a.files :: PathJoin(a.dir, f) in copied.store && copied.store[PathJoin(a.dir, f)] == a.files[f])
      && Untouched(store, copied.store, RecordPath(a, "request"))
  {
    var described := store[RecordPath(a, "description") := Description(a)];
    UploadsFrame(a, described, host, copyOrder);
    UploadsOffRecords(a);
    RecordPathsDiffer(a);
    AcceptedApart(a, copyOrder);
    CopyFilesWrites(described, host, a.dir, a.files, copyOrder);
  }

  /**
    A successful configure leaves the description, the request dump and every
    upload in the request's directory, provided every upload has a path of
    its own.
  */
  lemma ConfigureRecords(rule: Rule, a: Apply, store: Store, host: Host, checkOrder: seq<string>, copyOrder: seq<string>)
    requires IsEnumeration(checkOrder, a.files.Keys) && IsEnumeration(copyOrder, a.files.Keys)
    requires Configure(rule, a, store, host, checkOrder, copyOrder).err.None?
    requires NoAlias(a)
    ensures Recorded(a, Configure(rule, a, store, host, checkOrder, copyOrder).store)
  {
    ConfigureSucceedsIff(rule, a, store, host, checkOrder, copyOrder);
    ConfigureWrites(rule, a, store, host, checkOrder, copyOrder);
    TrailRecorded(a, store, host, copyOrder);
  }

  /** Successful writes leave the full trail when every upload has a path of its own. */
  lemma TrailRecorded(a: Apply, store: Store, host: Host, copyOrder: seq<string>)
    requires IsEnumeration(copyOrder, a.files.Keys)
    requires WriteTrail(a, store, host, copyOrder).err.None?
    requires NoAlias(a)
    ensures Recorded(a, WriteTrail(a, store, host, copyOrder).store)
  {
    WriteTrailSucceedsIff(a, store, host, copyOrder);
    WriteTrailClear(a, store, host, copyOrder);
    DescribedAndCopied(a, store, host, copyOrder);
    RecordPathsDiffer(a);
  }

  /**
    When every write can succeed, the writes end with the description and
    the uploads copied and the request dump written after them.
  */
  lemma WriteTrailClear(a: Apply, store: Store, host: Host, copyOrder: seq<string>)
    requires IsEnumeration(copyOrder, a.files.Keys)
    requires TrailClear(a, store.Keys, host)
    ensures CopyClear(store.Keys + {RecordPath(a, "description")}, host, UploadPaths(a.dir, a.files.Keys))
    ensures var copied := CopyFiles(store[RecordPath(a, "description") := Description(a)], host, a.dir, a.files, copyOrder);
      WriteTrail(a, store, host, copyOrder) == Outcome(copied.store[RecordPath(a, "request") := a.requestDump], None)
  {
    TrailClearStaged(a, store.Keys, host);
    WriteTrailAfterDescription(a, store, host, copyOrder);
    DescribedThenCopied(a, store, host, copyOrder);
    var copied := CopyFiles(store[RecordPath(a, "description") := Description(a)], host, a.dir, a.files, copyOrder);
    SaveFileSucceedsIff(copied.store, host, a.dir, "request", a.requestDump);
  }

  /**
    Writing the description and then copying uploads that are clear next to
    it succeeds, adds exactly their paths, and changes nothing else.
  */
  lemma DescribedThenCopied(a: Apply, store: Store, host: Host, copyOrder: seq<string>)
    requires IsEnumeration(copyOrder, a.files.Keys)
    requires CopyClear(store.Keys + {RecordPath(a, "description")}, host, UploadPaths(a.dir, a.files.Keys))
    ensures var copied := CopyFiles(store[RecordPath(a, "description") := Description(a)], host, a.dir, a.files, copyOrder);
      && copied.err.None?
      && copied.store.Keys == store.Keys + {RecordPath(a, "description")} + UploadPaths(a.dir, a.files.Keys)
      && Frame(store, copied.store, {RecordPath(a, "description")} + UploadPaths(a.dir, a.files.Keys))
  {
    var desc := RecordPath(a, "description");
    var described := store[desc := Description(a)];
    var uploads := UploadPaths(a.dir, a.files.Keys);
    assert described.Keys == store.Keys + {desc};
    UploadsCopied(a, described, host, copyOrder);
    UploadsFrame(a, described, host, copyOrder);
    var copied := CopyFiles(described, host, a.dir, a.files, copyOrder);
    FrameCompose(store, described, copied.store, {desc}, uploads, {desc} + uploads);
  }

  /** Copying all uploads changes nothing but their paths. */
  lemma UploadsFrame(a: Apply, store: Store, host: Host, copyOrder: seq<string>)
    requires IsEnumeration(copyOrder, a.files.Keys)
    ensures Frame(store, CopyFiles(store, host, a.dir, a.files, copyOrder).store, UploadPaths(a.dir, a.files.Keys))
  {
    assert (set f | f in copyOrder) == a.files.Keys;
    CopyFilesFrame(store, host, a.dir, a.files, copyOrder);
  }

  /**
    Copying all uploads, in any order, succeeds exactly when they are clear
    next to the files present, and then adds exactly their paths.
  */
  lemma UploadsCopied(a: Apply, store: Store, host: Host, copyOrder: seq<string>)
    requires IsEnumeration(copyOrder, a.files.Keys)
    ensures var copied := CopyFiles(store, host, a.dir, a.files, copyOrder);
      && (copied.err.None? <==> CopyClear(store.Keys, host, UploadPaths(a.dir, a.files.Keys)))
      && (copied.err.None? ==> copied.store.Keys == store.Keys + UploadPaths(a.dir, a.files.Keys))
  {
    assert (set f | f in copyOrder) == a.files.Keys;
    CopyFilesSucceedsIff(store, host, a.dir, a.files, copyOrder);
    if CopyFiles(store, host, a.dir, a.files, copyOrder).err.None? {
      CopyFilesKeys(store, host, a.dir, a.files, copyOrder);
    }
  }

  /** With the corrected check, a successful configure always leaves the full trail. */
  lemma CorrectedConfigureRecords(a: Apply, store: Store, host: Host, checkOrder: seq<string>, copyOrder: seq<string>)
    requires IsEnumeration(checkOrder, a.files.Keys) && IsEnumeration(copyOrder, a.files.Keys)
    requires Configure(PlainNames, a, store, host, checkOrder, copyOrder).err.None?
    ensures Recorded(a, Configure(PlainNames, a, store, host, checkOrder, copyOrder).store)
  {
    ConfigureSucceedsIff(PlainNames, a, store, host, checkOrder, copyOrder);
    RecordsApart(a);
    ConfigureRecords(PlainNames, a, store, host, checkOrder, copyOrder);
  }

  /** With accepted upload names, configure is the writes. */
  lemma ConfigureWrites(rule: Rule, a: Apply, store: Store, host: Host, checkOrder: seq<string>, copyOrder: seq<string>)
    requires IsEnumeration(checkOrder, a.files.Keys) && IsEnumeration(copyOrder, a.files.Keys)
    requires Accepted(rule, a)
    ensures Configure(rule, a, store, host, checkOrder, copyOrder) == WriteTrail(a, store, host, copyOrder)
  {
  }

  /** Once the directory and the description are written, the writes are the copies and then the request dump. */
  lemma WriteTrailAfterDescription(a: Apply, store: Store, host: Host, copyOrder: seq<string>)
    requires IsEnumeration(copyOrder, a.files.Keys)
    requires MkdirAll(store.Keys, host, a.dir).None? && Writable(store.Keys, host, RecordPath(a, "description"))
    ensures var copied := CopyFiles(store[RecordPath(a, "description") := Description(a)], host, a.dir, a.files, copyOrder);
      WriteTrail(a, store, host, copyOrder)
        == if copied.err.Some? then copied else SaveFile(copied.store, host, a.dir, "request", a.requestDump)
  {
    SaveFileSucceedsIff(store, host, a.dir, "description", Description(a));
  }

  /** When creating the request's directory fails, configure reports it and writes nothing. */
  lemma ConfigureMkdirFails(rule: Rule, a: Apply, store: Store, host: Host, checkOrder: seq<string>, copyOrder: seq<string>)
    requires IsEnumeration(checkOrder, a.files.Keys) && IsEnumeration(copyOrder, a.files.Keys)
    requires Accepted(rule, a)
    requires MkdirAll(store.Keys, host, a.dir).Some?
    ensures Configure(rule, a, store, host, checkOrder, copyOrder)
         == Outcome(store, Some(MkdirMessage(MkdirAll(store.Keys, host, a.dir).value)))
  {
  }

  /** When writing the description fails, configure reports its path and writes nothing. */
  lemma ConfigureDescriptionFails(rule: Rule, a: Apply, store: Store, host: Host, checkOrder: seq<string>, copyOrder: seq<string>)
    requires IsEnumeration(checkOrder, a.files.Keys) && IsEnumeration(copyOrder, a.files.Keys)
    requires Accepted(rule, a)
    requires MkdirAll(store.Keys, host, a.dir).None? && !Writable(store.Keys, host, RecordPath(a, "description"))
    ensures Configure(rule, a, store, host, checkOrder, copyOrder)
         == Outcome(store, Some(WriteMessage(RecordPath(a, "description"),
                                             OpenError(store.Keys, host, RecordPath(a, "description")).value)))
  {
    SaveFileSucceedsIff(store, host, a.dir, "description", Description(a));
  }

  /**
    When the first i uploads in copy order are clear next to the files
    present and the description, and the next one is not, configure reports
    that upload's fault against the files present by then, and changes
    nothing but the description and the uploads before it; without aliases
    those are written and the request record is not.
  */
  lemma ConfigureCopyFails(rule: Rule, a: Apply, store: Store, host: Host, checkOrder: seq<string>, copyOrder: seq<string>, i: nat)
    requires IsEnumeration(checkOrder, a.files.Keys) && IsEnumeration(copyOrder, a.files.Keys)
    requires Accepted(rule, a)
    requires MkdirAll(store.Keys, host, a.dir).None? && Writable(store.Keys, host, RecordPath(a, "description"))
    requires i < |copyOrder|
    requires CopyClear(store.Keys + {RecordPath(a, "description")}, host, UploadPaths(a.dir, set f | f in copyOrder[..i]))
    requires !CopyClear(store.Keys + {RecordPath(a, "description")}, host, UploadPaths(a.dir, set f | f in copyOrder[..i]) + {PathJoin(a.dir, copyOrder[i])})
    ensures var r := Configure(rule, a, store, host, checkOrder, copyOrder);
      var present := store.Keys + {RecordPath(a, "description")} + UploadPaths(a.dir, set f | f in copyOrder[..i]);
      && r.err.Some?
      && r.err == CopyFault(present, host, a.dir, copyOrder[i])
      && Frame(store, r.store, {RecordPath(a, "description")} + UploadPaths(a.dir, set f | f in copyOrder[..i]))
      && (NoAlias(a) ==>
            && RecordPath(a, "description") in r.store
            && r.store[RecordPath(a, "description")] == Description(a)
            && (forall j | 0 <= j < i ::
                  PathJoin(a.dir, copyOrder[j]) in r.store && r.store[PathJoin(a.dir, copyOrder[j])] == a.files[copyOrder[j]])
            && Untouched(store, r.store, RecordPath(a, "request")))
  {
    ConfigureWrites(rule, a, store, host, checkOrder, copyOrder);
    TrailCopyFails(a, store, host, copyOrder, i);
  }

  /** The writes with the copy of the upload after the first i failing. */
  lemma TrailCopyFails(a: Apply, store: Store, host: Host, copyOrder: seq<string>, i: nat)
    requires IsEnumeration(copyOrder, a.files.Keys)
    requires MkdirAll(store.Keys, host, a.dir).None? && Writable(store.Keys, host, RecordPath(a, "description"))
    requires i < |copyOrder|
    requires CopyClear(store.Keys + {RecordPath(a, "description")}, host, UploadPaths(a.dir, set f | f in copyOrder[..i]))
    requires !CopyClear(store.Keys + {RecordPath(a, "description")}, host, UploadPaths(a.dir, set f | f in copyOrder[..i]) + {PathJoin(a.dir, copyOrder[i])})
    ensures var r := WriteTrail(a, store, host, copyOrder);
      var present := store.Keys + {RecordPath(a, "description")} + UploadPaths(a.dir, set f | f in copyOrder[..i]);
      && r.err.Some?
      && r.err == CopyFault(present, host, a.dir, copyOrder[i])
      && Frame(store, r.store, {RecordPath(a, "description")} + UploadPaths(a.dir, set f | f in copyOrder[..i]))
      && (NoAlias(a) ==>
            && RecordPath(a, "description") in r.store
            && r.store[RecordPath(a, "description")] == Description(a)
            && (forall j | 0 <= j < i ::
                  PathJoin(a.dir, copyOrder[j]) in r.store && r.store[PathJoin(a.dir, copyOrder[j])] == a.files[copyOrder[j]])
            && Untouched(store, r.store, RecordPath(a, "request")))
  {
    var desc := RecordPath(a, "description");
    var described := store[desc := Description(a)];
    assert described.Keys == store.Keys + {desc};
    WriteTrailAfterDescription(a, store, host, copyOrder);
    CopyStopsAt(described, host, a.dir, a.files, copyOrder, i);
    DescribedAndPrefix(a, store, host, copyOrder, i);
  }

  /**
    Copying whose first i uploads are clear and whose next one is not stops
    there, with that upload's fault against the files the first i added.
  */
  lemma CopyStopsAt(store: Store, host: Host, dir: string, files: map<string, Bytes>, order: seq<string>, i: nat)
    requires forall k | 0 <= k < |order| :: order[k] in files
    requires i < |order|
    requires CopyClear(store.Keys, host, UploadPaths(dir, set f | f in order[..i]))
    requires !CopyClear(store.Keys, host, UploadPaths(dir, set f | f in order[..i]) + {PathJoin(dir, order[i])})
    ensures var s := CopyFiles(store, host, dir, files, order[..i]).store;
      && s.Keys == store.Keys + UploadPaths(dir, set f | f in order[..i])
      && CopyFault(s.Keys, host, dir, order[i]).Some?
      && CopyFiles(store, host, dir, files, order) == Outcome(s, CopyFault(s.Keys, host, dir, order[i]))
  {
    var prefix := order[..i];
    assert forall k | 0 <= k < |prefix| :: prefix[k] == order[k];
    CopyFilesSucceedsIff(store, host, dir, files, prefix);
    UploadPathsSnoc(dir, prefix, order[i]);
    CopyFilesSucceedsIff(store, host, dir, files, prefix + [order[i]]);
    CopyFilesKeys(store, host, dir, files, prefix);
    CopyFilesLastFails(store, host, dir, files, prefix, order[i]);
    CopyFilesStops(store, host, dir, files, order, i);
  }

  /** One more upload adds its path. */
  lemma UploadPathsSnoc(dir: string, xs: seq<string>, x: string)
    ensures UploadPaths(dir, set f | f in xs + [x]) == UploadPaths(dir, set f | f in xs) + {PathJoin(dir, x)}
  {
    assert (set f | f in xs + [x]) == (set f | f in xs) + {x};
  }

  /** When a run of uploads is copied and one more fails, that one meets a fault against the files the run left. */
  lemma CopyFilesLastFails(store: Store, host: Host, dir: string, files: map<string, Bytes>, xs: seq<string>, x: string)
    requires forall k | 0 <= k < |xs| :: xs[k] in files
    requires x in files
    requires CopyFiles(store, host, dir, files, xs).err.None?
    requires CopyFiles(store, host, dir, files, xs + [x]).err.Some?
    ensures CopyFault(CopyFiles(store, host, dir, files, xs).store.Keys, host, dir, x).Some?
  {
    CopyFilesAppend(store, host, dir, files, xs, [x]);
  }

  /**
    Writing the description and then the first i uploads, which are clear,
    changes nothing but those paths; without aliases it leaves the
    description and those uploads, and the request record as it was.
  */
  lemma DescribedAndPrefix(a: Apply, store: Store, host: Host, copyOrder: seq<string>, i: nat)
    requires IsEnumeration(copyOrder, a.files.Keys)
    requires i <= |copyOrder|
    requires CopyClear(store.Keys + {RecordPath(a, "description")}, host, UploadPaths(a.dir, set f | f in copyOrder[..i]))
    ensures var s := CopyFiles(store[RecordPath(a, "description") := Description(a)], host, a.dir, a.files, copyOrder[..i]).store;
      && Frame(store, s, {RecordPath(a, "description")} + UploadPaths(a.dir, set f | f in copyOrder[..i]))
      && (NoAlias(a) ==>
            && RecordPath(a, "description") in s
            && s[RecordPath(a, "description")] == Description(a)
            && (forall j | 0 <= j < i ::
                  PathJoin(a.dir, copyOrder[j]) in s && s[PathJoin(a.dir, copyOrder[j])] == a.files[copyOrder[j]])
            && Untouched(store, s, RecordPath(a, "request")))
  {
    var desc := RecordPath(a, "description");
    var described := store[desc := Description(a)];
    StoredKeys(store, desc, Description(a));
    var written := UploadPaths(a.dir, set f | f in copyOrder[..i]);
    var copied := CopyFiles(described, host, a.dir, a.files, copyOrder[..i]);
    CopyPrefix(a, described, host, copyOrder, i);
    FrameCompose(store, described, copied.store, {desc}, written, {desc} + written);
    if NoAlias(a) {
      PrefixOffRecords(a, store, copied.store, written);
    }
  }

  /** Storing at a path adds that path to the keys. */
  lemma StoredKeys(store: Store, p: string, v: Bytes)
    ensures store[p := v].Keys == store.Keys + {p}
  {
  }

  /** Without aliases, writing only uploads' paths after the description keeps it and leaves the request record alone. */
  lemma PrefixOffRecords(a: Apply, store: Store, s: Store, written: set<string>)
    requires NoAlias(a)
    requires written <= UploadPaths(a.dir, a.files.Keys)
    requires Frame(store[RecordPath(a, "description") := Description(a)], s, written)
    ensures RecordPath(a, "description") in s && s[RecordPath(a, "description")] == Description(a)
    ensures Untouched(store, s, RecordPath(a, "request"))
  {
    UploadsOffRecords(a);
    RecordPathsDiffer(a);
  }

  /**
    Copying the first i uploads, which are clear, writes nothing but their
    paths; without aliases it writes each of them.
  */
  lemma CopyPrefix(a: Apply, store: Store, host: Host, copyOrder: seq<string>, i: nat)
    requires IsEnumeration(copyOrder, a.files.Keys)
    requires i <= |copyOrder|
    requires CopyClear(store.Keys, host, UploadPaths(a.dir, set f | f in copyOrder[..i]))
    ensures var copied := CopyFiles(store, host, a.dir, a.files, copyOrder[..i]);
      && copied.err.None?
      && Frame(store, copied.store, UploadPaths(a.dir, set f | f in copyOrder[..i]))
      && UploadPaths(a.dir, set f | f in copyOrder[..i]) <= UploadPaths(a.dir, a.files.Keys)
      && (NoAlias(a) ==>
            forall j | 0 <= j < i ::
              PathJoin(a.dir, copyOrder[j]) in copied.store && copied.store[PathJoin(a.dir, copyOrder[j])] == a.files[copyOrder[j]])
  {
    var prefix := copyOrder[..i];
    assert forall j | 0 <= j < i :: copyOrder[j] == prefix[j];
    CopyFilesSucceedsIff(store, host, a.dir, a.files, prefix);
    CopyFilesFrame(store, host, a.dir, a.files, prefix);
    if NoAlias(a) {
      AcceptedApart(a, prefix);
      CopyFilesWrites(store, host, a.dir, a.files, prefix);
    }
  }

  /**
    When only writing the request dump fails, configure reports its path and
    the OS error against the files present by then, and changes nothing but
    the description and the uploads; without aliases those are all written
    and the request record is not.
  */
  lemma ConfigureRequestFails(rule: Rule, a: Apply, store: Store, host: Host, checkOrder: seq<string>, copyOrder: seq<string>)
    requires IsEnumeration(checkOrder, a.files.Keys) && IsEnumeration(copyOrder, a.files.Keys)
    requires Accepted(rule, a)
    requires MkdirAll(store.Keys, host, a.dir).None? && Writable(store.Keys, host, RecordPath(a, "description"))
    requires CopyClear(store.Keys + {RecordPath(a, "description")}, host, UploadPaths(a.dir, a.files.Keys))
    requires !Writable(store.Keys + {RecordPath(a, "description")} + UploadPaths(a.dir, a.files.Keys), host, RecordPath(a, "request"))
    ensures var r := Configure(rule, a, store, host, checkOrder, copyOrder);
      var present := store.Keys + {RecordPath(a, "description")} + UploadPaths(a.dir, a.files.Keys);
      && OpenError(present, host, RecordPath(a, "request")).Some?
      && r.err == Some(WriteMessage(RecordPath(a, "request"), OpenError(present, host, RecordPath(a, "request")).value))
      && Frame(store, r.store, {RecordPath(a, "description")} + UploadPaths(a.dir, a.files.Keys))
      && (NoAlias(a) ==>
            && RecordPath(a, "description") in r.store
            && r.store[RecordPath(a, "description")] == Description(a)
            && (forall f | f in a.files :: PathJoin(a.dir, f) in r.store && r.store[PathJoin(a.dir, f)] == a.files[f])
            && Untouched(store, r.store, RecordPath(a, "request")))
  {
    ConfigureWrites(rule, a, store, host, checkOrder, copyOrder);
    TrailRequestFails(a, store, host, copyOrder);
    DescribedAndCopied(a, store, host, copyOrder);
  }

  /**
    The writes with only the request dump failing: they stop with the
    copies' store, which the description and the uploads account for.
  */
  lemma TrailRequestFails(a: Apply, store: Store, host: Host, copyOrder: seq<string>)
    requires IsEnumeration(copyOrder, a.files.Keys)
    requires MkdirAll(store.Keys, host, a.dir).None? && Writable(store.Keys, host, RecordPath(a, "description"))
    requires CopyClear(store.Keys + {RecordPath(a, "description")}, host, UploadPaths(a.dir, a.files.Keys))
    requires !Writable(store.Keys + {RecordPath(a, "description")} + UploadPaths(a.dir, a.files.Keys), host, RecordPath(a, "request"))
    ensures var copied := CopyFiles(store[RecordPath(a, "description") := Description(a)], host, a.dir, a.files, copyOrder);
      var present := store.Keys + {RecordPath(a, "description")} + UploadPaths(a.dir, a.files.Keys);
      && OpenError(present, host, RecordPath(a, "request")).Some?
      && WriteTrail(a, store, host, copyOrder)
         == Outcome(copied.store, Some(WriteMessage(RecordPath(a, "request"), OpenError(present, host, RecordPath(a, "request")).value)))
      && Frame(store, copied.store, {RecordPath(a, "description")} + UploadPaths(a.dir, a.files.Keys))
  {
    WriteTrailAfterDescription(a, store, host, copyOrder);
    DescribedThenCopied(a, store, host, copyOrder);
    var copied := CopyFiles(store[RecordPath(a, "description") := Description(a)], host, a.dir, a.files, copyOrder);
    SaveFileSucceedsIff(copied.store, host, a.dir, "request", a.requestDump);
  }

  /**
    What checkUploads as written lets through: "./description" is not
    refused, and filepath.Join cleans its path to the description record's,
    so wherever the writes can succeed, configure succeeds and leaves the
    upload's content where the description should be. The corrected check
    refuses the name.
  */
  lemma UploadReplacesDescription(a: Apply, store: Store, host: Host, content: Bytes)
    requires a.files == map["./" + "description" := content]
    requires TrailClear(a, store.Keys, host)
    ensures var name := "./" + "description";
      var r := Configure(AsWritten, a, store, host, [name], [name]);
      && r.err.None?
      && RecordPath(a, "description") in r.store
      && r.store[RecordPath(a, "description")] == content
      && (content != Description(a) ==> !Recorded(a, r.store))
    ensures var name := "./" + "description";
      Configure(PlainNames, a, store, host, [name], [name]) == Outcome(store, Some(UnsafeMessage(name)))
  {
    var name := "./" + "description";
    DotSlashPassesCheck();
    RecordNamesPlain();
    DotElementDropped(a.dir, "description");
    AliasReplacesDescription(a, store, host, name, content);
  }

  /** An upload that passes checkUploads but joins to the description's path takes its place. */
  lemma AliasReplacesDescription(a: Apply, store: Store, host: Host, name: string, content: Bytes)
    requires a.files == map[name := content]
    requires !Unsafe(name) && PathJoin(a.dir, name) == RecordPath(a, "description")
    requires TrailClear(a, store.Keys, host)
    ensures var r := Configure(AsWritten, a, store, host, [name], [name]);
      && r.err.None?
      && RecordPath(a, "description") in r.store
      && r.store[RecordPath(a, "description")] == content
  {
    assert CheckUploads(a.files, [name]).None?;
    ConfigureWrites(AsWritten, a, store, host, [name], [name]);
    DescriptionAliasTrail(a, store, host, name, content);
  }

  /** The writes of an upload joining to the description's path succeed and leave the upload there. */
  lemma DescriptionAliasTrail(a: Apply, store: Store, host: Host, name: string, content: Bytes)
    requires a.files == map[name := content]
    requires PathJoin(a.dir, name) == RecordPath(a, "description")
    requires TrailClear(a, store.Keys, host)
    ensures var r := WriteTrail(a, store, host, [name]);
      && r.err.None?
      && RecordPath(a, "description") in r.store
      && r.store[RecordPath(a, "description")] == content
  {
    var described := store[RecordPath(a, "description") := Description(a)];
    WriteTrailClear(a, store, host, [name]);
    DescribedThenCopied(a, store, host, [name]);
    CopyOne(described, host, a.dir, a.files, name);
    RecordPathsDiffer(a);
  }

  /** Copying a single upload: it is written, or its fault is reported. */
  lemma CopyOne(store: Store, host: Host, dir: string, files: map<string, Bytes>, name: string)
    requires name in files
    ensures CopyFiles(store, host, dir, files, [name])
         == match CopyFault(store.Keys, host, dir, name)
            case Some(e) => Outcome(store, Some(e))
            case None => Outcome(store[PathJoin(dir, name) := files[name]], None)
  {
    assert [name][1..] == [];
  }

  /**
    The other way round: "./request" also passes checkUploads as written and
    is written at the request record's path, but the request dump is written
    after it, so the upload's content is lost. The corrected check refuses
    the name.
  */
  lemma RequestReplacesUpload(a: Apply, store: Store, host: Host, content: Bytes)
    requires a.files == map["./" + "request" := content]
    requires TrailClear(a, store.Keys, host)
    ensures var name := "./" + "request";
      var r := Configure(AsWritten, a, store, host, [name], [name]);
      && r.err.None?
      && RecordPath(a, "request") in r.store
      && r.store[RecordPath(a, "request")] == a.requestDump
      && (content != a.requestDump ==> !Recorded(a, r.store))
    ensures var name := "./" + "request";
      Configure(PlainNames, a, store, host, [name], [name]) == Outcome(store, Some(UnsafeMessage(name)))
  {
    var name := "./" + "request";
    DotSlashPassesCheck();
    RecordNamesPlain();
    DotElementDropped(a.dir, "request");
    AliasLosesUpload(a, store, host, name, content);
    ConfigureRefusesUnsafe(PlainNames, a, store, host, [name], [name], name);
  }

  /**
    An upload that passes checkUploads but joins to the request record's
    path is overwritten by the request dump.
  */
  lemma AliasLosesUpload(a: Apply, store: Store, host: Host, name: string, content: Bytes)
    requires a.files == map[name := content]
    requires !Unsafe(name) && PathJoin(a.dir, name) == RecordPath(a, "request")
    requires TrailClear(a, store.Keys, host)
    ensures var r := Configure(AsWritten, a, store, host, [name], [name]);
      && r.err.None?
      && RecordPath(a, "request") in r.store
      && r.store[RecordPath(a, "request")] == a.requestDump
      && (content != a.requestDump ==> !Recorded(a, r.store))
  {
    ConfigureWrites(AsWritten, a, store, host, [name], [name]);
    WriteTrailClear(a, store, host, [name]);
    var r := Configure(AsWritten, a, store, host, [name], [name]);
    if content != a.requestDump {
      AliasNotRecorded(a, r.store, name);
    }
  }

  /** An upload at the request record's path, holding other than the request dump there, leaves the trail incomplete. */
  lemma AliasNotRecorded(a: Apply, s: Store, name: string)
    requires name in a.files && PathJoin(a.dir, name) == RecordPath(a, "request")
    requires RecordPath(a, "request") in s && s[RecordPath(a, "request")] == a.requestDump
    requires a.files[name] != a.requestDump
    ensures !Recorded(a, s)
  {
  }

  /**
    An upload named "." passes checkUploads as written and joins to the
    request's directory itself. By the time it is copied the description
    sits in that directory, so the write fails as a write onto a directory,
    after the description was written. The corrected check refuses the name.
  */
  lemma DotUploadHitsDirectory(a: Apply, content: Bytes)
    requires a.files == map["." := content]
    requires a.dir != "" && Clean(a.dir) != "." && Clean(a.dir) != "/"
    ensures var dir := Clean(a.dir);
      Configure(AsWritten, a, map[], EmptyHost, ["."], ["."])
        == Outcome(map[RecordPath(a, "description") := Description(a)],
                   Some("error writing . (" + dir + "): " + IsADirectory("open", dir)))
    ensures Configure(PlainNames, a, map[], EmptyHost, ["."], ["."]) == Outcome(map[], Some(UnsafeMessage(".")))
  {
    DotPassesCheck();
    ConfigureWrites(AsWritten, a, map[], EmptyHost, ["."], ["."]);
    DotTrail(a);
    ConfigureRefusesUnsafe(PlainNames, a, map[], EmptyHost, ["."], ["."], ".");
  }

  /** The writes for a lone upload named ".": the description is written, then the copy meets the directory. */
  lemma DotTrail(a: Apply)
    requires a.files.Keys == {"."}
    requires a.dir != "" && Clean(a.dir) != "." && Clean(a.dir) != "/"
    ensures var dir := Clean(a.dir);
      WriteTrail(a, map[], EmptyHost, ["."])
        == Outcome(map[RecordPath(a, "description") := Description(a)],
                   Some("error writing . (" + dir + "): " + IsADirectory("open", dir)))
  {
    var desc := RecordPath(a, "description");
    var described := map[desc := Description(a)];
    EmptyStart(a);
    WriteTrailAfterDescription(a, map[], EmptyHost, ["."]);
    DotCopyFault(a);
    assert described.Keys == {desc};
    CopyOne(described, EmptyHost, a.dir, a.files, ".");
  }

  /** With nothing on disk and no OS error, the request's directory is made and the description can be written. */
  lemma EmptyStart(a: Apply)
    ensures MkdirAll({}, EmptyHost, a.dir).None?
    ensures Writable({}, EmptyHost, RecordPath(a, "description"))
  {
    MkdirAllFails({}, EmptyHost, a.dir);
  }

  /** Copying "." next to the description alone meets the request's directory, which the description lies under. */
  lemma DotCopyFault(a: Apply)
    requires a.dir != "" && Clean(a.dir) != "." && Clean(a.dir) != "/"
    ensures var dir := Clean(a.dir);
      CopyFault({RecordPath(a, "description")}, EmptyHost, a.dir, ".")
        == Some("error writing . (" + dir + "): " + IsADirectory("open", dir))
  {
    var dir := Clean(a.dir);
    var desc := RecordPath(a, "description");
    JoinDot(a.dir);
    DescriptionUnderDir(a);
    assert FileAbove({desc}, dir).None?;
    assert IsDir({desc}, EmptyHost, dir);
    assert "error writing " + "." + " (" == "error writing . (";
  }

  /** The description lies directly under the request's directory. */
  lemma DescriptionUnderDir(a: Apply)
    requires a.dir != "" && Clean(a.dir) != "." && Clean(a.dir) != "/"
    ensures Above(Clean(a.dir), RecordPath(a, "description"))
  {
    var dir := Clean(a.dir);
    var desc := RecordPath(a, "description");
    RecordNamesPlain();
    JoinPlain(a.dir, "description");
    assert desc == dir + "/" + "description";
    assert desc[..|dir|] == dir && desc[|dir|] == '/';
  }

  /**
    An upload named "description/x.yaml" passes both checks, but its parent
    directory is the description record, a file by the time it is copied,
    so creating that directory fails after the description was written.
  */
  lemma UploadUnderDescription(rule: Rule, a: Apply, content: Bytes)
    requires a.files == map["description/x.yaml" := content]
    ensures var name := "description/x.yaml";
      var desc := RecordPath(a, "description");
      Configure(rule, a, map[], EmptyHost, [name], [name])
        == Outcome(map[desc := Description(a)], Some(MkdirMessage(NotADirectory("mkdir", desc))))
  {
    var name := "description/x.yaml";
    NestedNamePasses();
    ConfigureWrites(rule, a, map[], EmptyHost, [name], [name]);
    NestedTrail(a);
  }

  /** The writes for a lone upload "description/x.yaml": the description is written, then the copy meets it as a file. */
  lemma NestedTrail(a: Apply)
    requires a.files.Keys == {"description/x.yaml"}
    ensures var desc := RecordPath(a, "description");
      WriteTrail(a, map[], EmptyHost, ["description/x.yaml"])
        == Outcome(map[desc := Description(a)], Some(MkdirMessage(NotADirectory("mkdir", desc))))
  {
    var name := "description/x.yaml";
    var desc := RecordPath(a, "description");
    var described := map[desc := Description(a)];
    EmptyStart(a);
    WriteTrailAfterDescription(a, map[], EmptyHost, [name]);
    NestedCopyFault(a);
    assert described.Keys == {desc};
    CopyOne(described, EmptyHost, a.dir, a.files, name);
  }

  /** Copying "description/x.yaml" next to the description alone meets the description as a file above it. */
  lemma NestedCopyFault(a: Apply)
    ensures var desc := RecordPath(a, "description");
      CopyFault({desc}, EmptyHost, a.dir, "description/x.yaml") == Some(MkdirMessage(NotADirectory("mkdir", desc)))
  {
    var desc := RecordPath(a, "description");
    NestedUnderDescription(a);
    assert FileAbove({desc}, PathJoin(a.dir, "description/x.yaml")) == Some(desc);
  }

  /** The path of "description/x.yaml" lies under the description's. */
  lemma NestedUnderDescription(a: Apply)
    ensures Above(RecordPath(a, "description"), PathJoin(a.dir, "description/x.yaml"))
  {
    NestedNamePlain();
    RecordNamesPlain();
    assert "description" + "/" + "x.yaml" == "description/x.yaml";
    NameUnderRecord(a.dir, "description", "x.yaml");
  }

  /** A plain name reaching below a record's name joins to a path under the record's. */
  lemma NameUnderRecord(dir: string, record: string, rest: string)
    requires Plain(record) && Plain(record + "/" + rest)
    ensures Above(PathJoin(dir, record), PathJoin(dir, record + "/" + rest))
  {
    JoinPlain(dir, record + "/" + rest);
    JoinPlain(dir, record);
    assert Under(dir) + (record + "/" + rest) == (Under(dir) + record) + "/" + rest;
    AboveAppended(Under(dir) + record, rest);
  }

  /** A path lies under its prefix when a slash follows it. */
  lemma AboveAppended(q: string, rest: string)
    requires q != ""
    ensures Above(q, q + "/" + rest)
  {
    assert (q + "/" + rest)[..|q|] == q;
  }
}
