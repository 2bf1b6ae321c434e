/** The connection check of tools/verify_supabase.py: load the `.env` file into the
    environment, give up quietly when a setting is missing, and otherwise query
    one row of `articles`. The file's lines, and the service's answer, are inputs;
    the printed messages are left out. */
module Verify {
  import opened Wrappers
  import opened EnvFile

  /** Why `load_env()` raised. */
  datatype LoadError = FileNotFound | LineRaised(line: nat)

  /** `load_env()`, given the file's lines (`None` when it does not exist). Unlike the
      import in `db_manager`, it reads the file even when the settings are set. */
  method LoadEnv(environ: Environ, file: Option<seq<string>>) returns (raised: Option<LoadError>)
    modifies environ
    ensures file.None? ==> raised == Some(FileNotFound) && environ.vars == old(environ.vars)
    ensures file.Some? ==>
              var loaded := Load(old(environ.vars), Parse(file.value));
              environ.vars == loaded.vars &&
              raised == if loaded.failedAt.None? then None else Some(LineRaised(loaded.failedAt.value))
  {
    match file
    case None =>
      raised := Some(FileNotFound);
    case Some(lines) =>
      var failedAt := environ.LoadLines(lines);
      raised := if failedAt.None? then None else Some(LineRaised(failedAt.value));
  }

  /** What `select("*").limit(1)` answers: the number of rows in the table, or an error. */
  datatype Reply = Answered(tableSize: nat) | Refused(error: string)

  /** How `verify_connection()` ends: the row count it reports, a quiet return
      after reporting a missing setting, or `sys.exit(1)`. */
  datatype Verdict = Connected(rowCount: nat) | SettingsMissing | Exit(status: int)

  /** `verify_connection()`. `attempted` tells whether a client was created and
      queried. */
  method VerifyConnection(environ: Environ, file: Option<seq<string>>, reply: Reply)
    returns (verdict: Verdict, attempted: bool)
    modifies environ
    ensures file.None? ==> verdict == Exit(1) && !attempted
    ensures file.Some? && Load(old(environ.vars), Parse(file.value)).failedAt.Some? ==> verdict == Exit(1) && !attempted
    ensures file.Some? && Load(old(environ.vars), Parse(file.value)).failedAt.None? ==>
              var env := Load(old(environ.vars), Parse(file.value)).vars;
              && (attempted <==> IsSet(env, "SUPABASE_URL") && IsSet(env, "SUPABASE_KEY"))
              && (!attempted ==> verdict == SettingsMissing)
              && (attempted && reply.Refused? ==> verdict == Exit(1))
              && (attempted && reply.Answered? ==>
                    verdict == Connected(if reply.tableSize == 0 then 0 else 1))
    ensures verdict.Connected? ==> verdict.rowCount <= 1
    ensures file.None? ==> environ.vars == old(environ.vars)
    ensures file.Some? ==> environ.vars == Load(old(environ.vars), Parse(file.value)).vars
  {
    attempted := false;
    var raised := LoadEnv(environ, file);
    if raised.Some? {
      return Exit(1), attempted;
    }
    var url := environ.Get("SUPABASE_URL");
    var key := environ.Get("SUPABASE_KEY");
    if url.None? || url.value == "" || key.None? || key.value == "" {
      return SettingsMissing, attempted;
    }
    attempted := true;
    match reply
    case Refused(_) =>
      verdict := Exit(1);
    case Answered(size) =>
      verdict := Connected(if size == 0 then 0 else 1);
  }
}
