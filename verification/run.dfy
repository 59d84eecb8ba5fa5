/**
  `Run` of kubeapply.go as one step over abstract effects: initialise the
  request, configure its audit trail when it is stateful, run the command,
  turn the outcome into a response, and record the response when stateful.

  The subprocess is a function from the invocation to its outcome, the JSON
  encoding of a response is a function to bytes, and the id, the time, the
  directories and OS errors of the host and the order Go's map iteration
  visits the uploads in are inputs. So is the upload check: kubeapply runs
  `Run(AsWritten, …)`, and `Run(PlainNames, …)` is the run with the
  corrected check.
*/
module Runs {
  import opened Strings
  import opened Results
  import opened Paths
  import opened Commands
  import opened Identity
  import opened Responses
  import opened Uploads
  import opened Applies
  import opened Audit

  /** The process exec.CommandContext starts: program, arguments, and the working directory if set. */
  datatype Invocation = Invocation(name: string, args: seq<string>, workDir: Option<string>)

  /** What cmdRun collects: standard output, standard error, and the error Run returned. */
  datatype ProcessOutcome = ProcessOutcome(stdout: string, stderr: string, err: GoError)

  /** Everything Run depends on that the request does not carry. */
  datatype Env = Env(
    freshId: string,
    now: Instant,
    store: Store,
    host: Host,
    checkOrder: seq<string>,
    copyOrder: seq<string>,
    process: Invocation -> ProcessOutcome,
    encode: Response -> Bytes)

  /** The request after Run, the response and error returned, the file system, and the process started, if any. */
  datatype RunResult = RunResult(apply: Apply, response: Response, err: GoError, store: Store, invocation: Option<Invocation>)

  /** A UUID is never empty and the iteration orders enumerate the uploads. */
  predicate EnvFits(a: Apply, env: Env) {
    env.freshId != ""
    && IsEnumeration(env.checkOrder, a.files.Keys)
    && IsEnumeration(env.copyOrder, a.files.Keys)
  }

  /** maybeConfigure: configure only a stateful request. */
  function MaybeConfigure(rule: Rule, a: Apply, store: Store, host: Host, checkOrder: seq<string>, copyOrder: seq<string>): (r: Outcome)
    requires IsEnumeration(checkOrder, a.files.Keys) && IsEnumeration(copyOrder, a.files.Keys)
    ensures !IsStateful(a) ==> r == Outcome(store, None)
    ensures IsStateful(a) ==> (r.err.None? <==> ConfigureClear(rule, a, store, host))
    ensures Frame(store, r.store, AuditPaths(a))
  {
    if IsStateful(a) then
      ConfigureSucceedsIff(rule, a, store, host, checkOrder, copyOrder);
      ConfigureFrame(rule, a, store, host, checkOrder, copyOrder);
      Configure(rule, a, store, host, checkOrder, copyOrder)
    else
      Outcome(store, None)
  }

  /** saveResponse: the encoded response and a newline, in the record named "response". */
  function ResponseRecord(encode: Response -> Bytes, r: Response): Bytes {
    encode(r) + "\n"
  }

  /** maybeSaveResponse: record the response only for a stateful request; a failure is only logged. */
  function MaybeSaveResponse(a: Apply, store: Store, host: Host, r: Response, encode: Response -> Bytes): (o: Outcome)
    ensures !IsStateful(a) ==> o == Outcome(store, None)
    ensures IsStateful(a) ==> (o.err.None? <==> Writable(store.Keys, host, RecordPath(a, "response")))
    ensures Frame(store, o.store, {RecordPath(a, "response")})
    ensures IsStateful(a) && Writable(store.Keys, host, RecordPath(a, "response"))
            ==> RecordPath(a, "response") in o.store && o.store[RecordPath(a, "response")] == ResponseRecord(encode, r)
  {
    if IsStateful(a) then
      SaveFileSucceedsIff(store, host, a.dir, "response", ResponseRecord(encode, r));
      SaveFile(store, host, a.dir, "response", ResponseRecord(encode, r))
    else Outcome(store, None)
  }

  /** The process cmdRun starts: the working directory is set only for a stateful request. */
  function Invoke(a: Apply): (inv: Invocation)
    ensures inv.workDir.Some? <==> IsStateful(a)
    ensures inv.workDir.Some? ==> inv.workDir.value == a.dir
  {
    Invocation(a.name, a.args, if IsStateful(a) then Some(a.dir) else None)
  }

  /** The `cmdline` field: the executable and the arguments separated by single spaces. */
  function CommandLine(executable: string, args: seq<string>): string {
    Join([executable] + args, " ")
  }

  /** The response to a request whose configure failed: only the error text and exit code -1. */
  function ConfigureFailed(message: string): Response {
    Response("", "", [], "", message, "", -1, "")
  }

  /** Run, with the upload names checked under `rule`. */
  function Run(rule: Rule, a0: Apply, env: Env): (res: RunResult)
    requires EnvFits(a0, env)
    ensures res.apply == Init(a0, env.freshId, env.now)
  {
    var a := Init(a0, env.freshId, env.now);
    var configured := MaybeConfigure(rule, a, env.store, env.host, env.checkOrder, env.copyOrder);
    if configured.err.Some? then
      RunResult(a, ConfigureFailed(configured.err.value), Failure(configured.err.value), configured.store, None)
    else
      var inv := Invoke(a);
      var out := env.process(inv);
      var response := Response(
        a.id, a.executable, a.args, CommandLine(a.executable, a.args),
        EmbedError(out.stderr, out.err), out.stdout, ExitStatus(out.err), a.dir);
      var saved := MaybeSaveResponse(a, configured.store, env.host, response, env.encode);
      RunResult(a, response, out.err, saved.store, Some(inv))
  }

  /**
    A stateful request whose configure fails gets exit code -1 and the error
    text as stderr, and no process is started.
  */
  lemma RunConfigureFailure(rule: Rule, a0: Apply, env: Env)
    requires EnvFits(a0, env)
    ensures var a := Init(a0, env.freshId, env.now);
      var res := Run(rule, a0, env);
      res.invocation.None? <==> IsStateful(a) && !ConfigureClear(rule, a, env.store, env.host)
    ensures var res := Run(rule, a0, env);
      res.invocation.None? ==>
        res.err.Failure? && res.response == ConfigureFailed(res.err.message)
        && res.response.exitCode == -1 && res.response.stderr == res.err.message
  {
  }

  /**
    Once the process ran, the response reports its outcome: the exit code
    from the error, stdout as produced, stderr with any non-exit error folded
    in, and the request's id, command and directory. The directory is
    reported even for a request that is not stateful.
  */
  lemma RunReportsOutcome(rule: Rule, a0: Apply, env: Env)
    requires EnvFits(a0, env)
    requires Run(rule, a0, env).invocation.Some?
    ensures var a := Init(a0, env.freshId, env.now);
      var res := Run(rule, a0, env);
      var out := env.process(res.invocation.value);
      && res.invocation.value == Invocation(a.name, a.args, if IsStateful(a) then Some(a.dir) else None)
      && res.err == out.err
      && res.response.exitCode == ExitStatus(out.err)
      && res.response.stdout == out.stdout
      && res.response.stderr == EmbedError(out.stderr, out.err)
      && res.response.id == a.id != ""
      && res.response.dir == a.dir
      && res.response.command == a.name
      && res.response.args == a.args
      && res.response.cmdLine == CommandLine(a.name, a.args)
  {
  }

  /**
    A request that is not stateful leaves the file system as it was and its
    process runs without a working directory.
  */
  lemma RunStatelessLeavesStore(rule: Rule, a0: Apply, env: Env)
    requires EnvFits(a0, env)
    requires !IsStateful(Init(a0, env.freshId, env.now))
    ensures var res := Run(rule, a0, env);
      res.store == env.store && res.invocation.Some? && res.invocation.value.workDir.None?
  {
  }

  /** The paths a run may write: the audit records, the response record and the uploads. */
  function RunPaths(a: Apply): set<string> {
    AuditPaths(a) + {RecordPath(a, "response")}
  }

  /** Run writes nowhere but the request's own records and uploads. */
  lemma RunFrame(rule: Rule, a0: Apply, env: Env)
    requires EnvFits(a0, env)
    ensures Frame(env.store, Run(rule, a0, env).store, RunPaths(Init(a0, env.freshId, env.now)))
  {
    var a := Init(a0, env.freshId, env.now);
    var configured := MaybeConfigure(rule, a, env.store, env.host, env.checkOrder, env.copyOrder);
    var res := Run(rule, a0, env);
    if configured.err.None? {
      var saved := MaybeSaveResponse(a, configured.store, env.host, res.response, env.encode);
      assert res.store == saved.store;
      FrameCompose(env.store, configured.store, saved.store, AuditPaths(a), {RecordPath(a, "response")}, RunPaths(a));
    } else {
      assert res.store == configured.store;
      FrameCompose(env.store, configured.store, configured.store, AuditPaths(a), {}, RunPaths(a));
    }
  }

  /**
    A stateful request whose configure can succeed, and whose uploads each
    have a path of their own, leaves its full audit trail: the description,
    the request dump, every upload, and, where the response record can be
    written next to them, the response it returned.
  */
  lemma RunAuditTrail(rule: Rule, a0: Apply, env: Env)
    requires EnvFits(a0, env)
    requires var a := Init(a0, env.freshId, env.now);
      IsStateful(a) && ConfigureClear(rule, a, env.store, env.host) && NoAlias(a)
    ensures var a := Init(a0, env.freshId, env.now);
      var res := Run(rule, a0, env);
      && res.invocation.Some? && res.invocation.value.workDir == Some(a.dir)
      && Recorded(a, res.store)
      && (Writable(env.store.Keys + AuditPaths(a), env.host, RecordPath(a, "response")) ==>
            RecordPath(a, "response") in res.store
            && res.store[RecordPath(a, "response")] == ResponseRecord(env.encode, res.response))
  {
    var a := Init(a0, env.freshId, env.now);
    var configured := Configure(rule, a, env.store, env.host, env.checkOrder, env.copyOrder);
    assert configured.err.None? && Recorded(a, configured.store) by {
      ConfigureSucceedsIff(rule, a, env.store, env.host, env.checkOrder, env.copyOrder);
      ConfigureRecords(rule, a, env.store, env.host, env.checkOrder, env.copyOrder);
    }
    ConfigureKeys(rule, a, env.store, env.host, env.checkOrder, env.copyOrder);
    var res := Run(rule, a0, env);
    RunAfterConfigure(rule, a0, env);
    RecordPathsDiffer(a);
    RecordedKept(a, configured.store, res.store, RecordPath(a, "response"));
  }

  /**
    With the corrected check, a stateful request whose configure can succeed
    always leaves its full audit trail.
  */
  lemma CorrectedRunAuditTrail(a0: Apply, env: Env)
    requires EnvFits(a0, env)
    requires var a := Init(a0, env.freshId, env.now);
      IsStateful(a) && ConfigureClear(PlainNames, a, env.store, env.host)
    ensures var a := Init(a0, env.freshId, env.now);
      var res := Run(PlainNames, a0, env);
      && Recorded(a, res.store)
      && (Writable(env.store.Keys + AuditPaths(a), env.host, RecordPath(a, "response")) ==>
            RecordPath(a, "response") in res.store
            && res.store[RecordPath(a, "response")] == ResponseRecord(env.encode, res.response))
  {
    RecordsApart(Init(a0, env.freshId, env.now));
    RunAuditTrail(PlainNames, a0, env);
  }

  /**
    A stateful request whose configure succeeds starts its process in the
    request's directory and then writes only the response record.
  */
  lemma RunAfterConfigure(rule: Rule, a0: Apply, env: Env)
    requires EnvFits(a0, env)
    requires var a := Init(a0, env.freshId, env.now);
      IsStateful(a) && Configure(rule, a, env.store, env.host, env.checkOrder, env.copyOrder).err.None?
    ensures var a := Init(a0, env.freshId, env.now);
      var configured := Configure(rule, a, env.store, env.host, env.checkOrder, env.copyOrder);
      var res := Run(rule, a0, env);
      && res.invocation.Some? && res.invocation.value.workDir == Some(a.dir)
      && Frame(configured.store, res.store, {RecordPath(a, "response")})
      && (Writable(configured.store.Keys, env.host, RecordPath(a, "response")) ==>
            RecordPath(a, "response") in res.store
            && res.store[RecordPath(a, "response")] == ResponseRecord(env.encode, res.response))
  {
  }

  /** Writing one path that is neither a record nor an upload keeps what was recorded. */
  lemma RecordedKept(a: Apply, before: Store, after: Store, p: string)
    requires Recorded(a, before) && Frame(before, after, {p})
    requires p != RecordPath(a, "description") && p != RecordPath(a, "request")
    requires forall f | f in a.files :: PathJoin(a.dir, f) != p
    ensures Recorded(a, after)
  {
  }

  /**
    Running a request a second time keeps its identity: the same id, time and
    directory, and the same command line.
  */
  lemma RunKeepsIdentity(rule: Rule, a0: Apply, env1: Env, env2: Env)
    requires EnvFits(a0, env1)
    requires EnvFits(Run(rule, a0, env1).apply, env2)
    ensures Run(rule, Run(rule, a0, env1).apply, env2).apply == Run(rule, a0, env1).apply
  {
    InitIdempotent(a0, env1.freshId, env1.now, env2.freshId, env2.now);
  }
}
