/**
  The `Apply` request of kubeapply.go and the two decisions taken on it
  before anything runs: `init` (identity and command line, kubeapply.go
  `init` and `unsafeCommand`) and `checkStateful` (whether anything is
  persisted).
*/
module Applies {
  import opened Strings
  import opened Paths
  import opened Flags
  import opened Commands
  import opened Identity

  /**
    An apply request. `name` and `args` are the prepared command line;
    `id`, `timestamp` and `dir` its identity, empty until `init` assigns them.
  */
  datatype Apply = Apply(
    flags: FlagMap,
    files: map<string, Bytes>,
    ip: string,
    requestDump: Bytes,
    name: string,
    args: seq<string>,
    executable: string,
    subcommand: string,
    id: string,
    timestamp: Instant,
    dir: string,
    dontSave: bool)

  /** What unsafeCommand leaves behind: the request with its defaults filled in, and the command. */
  datatype Prepared = Prepared(apply: Apply, command: Command)

  /**
    unsafeCommand (and Command, which only adds the lock): fill in the default
    executable and subcommand on the request, then build the command line.
  */
  function UnsafeCommand(a: Apply): (p: Prepared)
    ensures p.command == Build(a.executable, a.subcommand, a.flags, a.files)
    ensures p.apply.executable == p.command.executable != ""
    ensures p.apply.subcommand == p.command.args[0] != ""
    ensures p.apply == a.(executable := p.apply.executable, subcommand := p.apply.subcommand)
  {
    var resolved := a.(executable := ResolveExecutable(a.executable), subcommand := ResolveSubcommand(a.subcommand));
    Prepared(resolved, Build(a.executable, a.subcommand, a.flags, a.files))
  }

  /**
    init: the first call assigns a fresh id, the current time and the
    directory filepath.Join derives from them, cleaned; every call rebuilds
    the command line.
    A UUID's text is never empty, so an initialised request keeps its identity.
  */
  function Init(a: Apply, freshId: string, now: Instant): (r: Apply)
    requires freshId != ""
    ensures r.id != ""
    ensures a.id != "" ==> r.id == a.id && r.timestamp == a.timestamp && r.dir == a.dir
    ensures a.id == "" ==> r.id == freshId && r.timestamp == now && r.dir == Clean(AuditDir(now, freshId))
    ensures Command(r.name, r.args) == Build(a.executable, a.subcommand, a.flags, a.files)
    ensures r.executable == r.name && |r.args| > 0 && r.subcommand == r.args[0]
    ensures r.flags == a.flags && r.files == a.files && r.ip == a.ip
            && r.requestDump == a.requestDump && r.dontSave == a.dontSave
  {
    var identified :=
      if a.id == "" then a.(id := freshId, timestamp := now, dir := Clean(AuditDir(now, freshId))) else a;
    var p := UnsafeCommand(identified);
    p.apply.(name := p.command.executable, args := p.command.args)
  }

  /** Building from already resolved defaults gives the same command line. */
  lemma BuildResolved(executable: string, subcommand: string, flags: FlagMap, files: map<string, Bytes>)
    ensures Build(ResolveExecutable(executable), ResolveSubcommand(subcommand), flags, files)
         == Build(executable, subcommand, flags, files)
  {
    assert ResolveExecutable(ResolveExecutable(executable)) == ResolveExecutable(executable);
    assert ResolveSubcommand(ResolveSubcommand(subcommand)) == ResolveSubcommand(subcommand);
  }

  /**
    Calling init again changes nothing, whatever id and time it is offered:
    the identity is assigned once and the command line is rebuilt identically.
  */
  lemma InitIdempotent(a: Apply, id1: string, now1: Instant, id2: string, now2: Instant)
    requires id1 != "" && id2 != ""
    ensures Init(Init(a, id1, now1), id2, now2) == Init(a, id1, now1)
  {
    var r := Init(a, id1, now1);
    BuildResolved(a.executable, a.subcommand, a.flags, a.files);
    assert r.executable == ResolveExecutable(a.executable);
    assert r.subcommand == ResolveSubcommand(a.subcommand);
  }

  /** checkStateful: whether the request is recorded and run in its own directory. */
  predicate IsStateful(a: Apply) {
    !a.dontSave && |a.args| > 0 && |a.files| > 0 && "-h" !in a.args && "--help" !in a.args
  }

  /**
    After init the argument list is never empty, so a request is stateful
    exactly when saving is enabled, something was uploaded, and no argument
    asks for help.
  */
  lemma StatefulAfterInit(a: Apply, freshId: string, now: Instant)
    requires freshId != ""
    ensures var r := Init(a, freshId, now);
      IsStateful(r) <==> !a.dontSave && |a.files| > 0 && "-h" !in r.args && "--help" !in r.args
  {
  }

  /**
    A flag that normalises to "-h" or "--help" and has no value puts a bare
    help argument on the command line, so nothing is persisted.
  */
  lemma HelpFlagStateless(a: Apply, freshId: string, now: Instant, key: string)
    requires freshId != ""
    requires key in a.flags && a.flags[key] == ""
    requires AddFlag(key) == "-h" || AddFlag(key) == "--help"
    ensures !IsStateful(Init(a, freshId, now))
  {
    var r := Init(a, freshId, now);
    var keys := Keys(a.flags);
    var i :| 0 <= i < |keys| && keys[i] == key;
    assert r.args[1 + i] == FlagArg(key, "") == AddFlag(key);
    assert AddFlag(key) in r.args;
  }

  /** Without uploads, or with saving disabled, nothing is persisted. */
  lemma NothingToSave(a: Apply, freshId: string, now: Instant)
    requires freshId != ""
    requires a.dontSave || |a.files| == 0
    ensures !IsStateful(Init(a, freshId, now))
  {
  }
}
