/**
  The runs kubeapply_test.go pins, with the process's behaviour given as the
  outcome the test expects. The tests replace the executable, set the
  default subcommand to "xyz123" and disable saving.
*/
module RunExamples {
  import opened Strings
  import opened Results
  import opened Uploads
  import opened Flags
  import opened Commands
  import opened Identity
  import opened Responses
  import opened Applies
  import opened Audit
  import opened Runs

  /** A request as the tests build it: only flags, executable and subcommand set, saving off. */
  function TestApply(flags: FlagMap, executable: string): Apply {
    Apply(flags, map[], "", "", "", [], executable, "xyz123", "", Instant("", "", ""), "", true)
  }

  /** Test "basic": `echo xyz123 --output=json` runs with no working directory, and its output is reported. */
  lemma RunBasic(env: Env, stdout: string)
    requires EnvFits(TestApply(map[], "echo"), env)
    requires forall inv :: env.process(inv) == ProcessOutcome(stdout, "", Nil)
    ensures var res := Run(AsWritten, TestApply(map[], "echo"), env);
      && res.invocation == Some(Invocation("echo", ["xyz123", "--output=json"], None))
      && res.response.exitCode == 0 && res.response.stderr == "" && res.response.stdout == stdout
      && res.err == Nil && res.store == env.store
  {
    var a0 := TestApply(map[], "echo");
    var c := Build("echo", "xyz123", map[], map[]);
    DefaultsAppended("echo", "xyz123", map[], map[]);
    assert c.args == c.args[..1] + Defaults(c, map[]);
    assert c.args == ["xyz123", "--output=json"];
  }

  /**
    Test "not found program": a process that cannot be started reports exit
    code -1, and its error becomes the response's stderr.
  */
  lemma RunNotFound(a0: Apply, env: Env, message: string)
    requires a0.dontSave && EnvFits(a0, env)
    requires forall inv :: env.process(inv) == ProcessOutcome("", "", Failure(message))
    ensures var res := Run(AsWritten, a0, env);
      res.response.exitCode == -1 && res.response.stderr == message && res.err == Failure(message)
  {
  }

  /**
    Test "error invoking program": a process that exits with status 2 keeps
    its own stderr untouched, and the exit error is returned.
  */
  lemma RunExitStatus(a0: Apply, env: Env, stderr: string)
    requires a0.dontSave && EnvFits(a0, env)
    requires forall inv :: env.process(inv) == ProcessOutcome("", stderr, ExitError(2))
    ensures var res := Run(AsWritten, a0, env);
      res.response.exitCode == 2 && res.response.stderr == stderr && res.err == ExitError(2)
  {
  }
}
