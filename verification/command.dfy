/** The shell command and MariaDB client flag strings built for jobs that run
    SQL against a MariaDB. The MariaDB's service host name is computed by a
    helper this model does not contain, so it is passed in. */
module Command {
  import opened Wrappers
  import Strings
  import MariaDBApi

  /** A container entrypoint and its arguments. */
  datatype Command = Command(command: seq<string>, args: seq<string>)

  /** Names of the environment variables holding the credentials, and the
      optional database to connect to. */
  datatype CommandOpts = CommandOpts(userEnv: string, passwordEnv: string, database: Option<string>)

  /** `ExecCommand`: run the statements one after another in a single bash
      invocation. */
  function ExecCommand(args: seq<string>): (c: Command)
    ensures c.command == ["bash", "-c"]
    ensures |c.args| == 1
    ensures |args| == 0 ==> c.args == [""]
    ensures |args| == 1 ==> c.args == args
    ensures |args| >= 1 ==> args[0] <= c.args[0] && Strings.IsSuffix(args[|args| - 1], c.args[0])
  {
    var script := Strings.Join(args, ";");
    assert |args| >= 1 ==> args[0] <= script && Strings.IsSuffix(args[|args| - 1], script) by {
      if |args| >= 1 {
        Strings.JoinEnds(args, ";");
      }
    }
    Command(["bash", "-c"], [script])
  }

  /** The script of an ExecCommand splits back on ';' into the statements it
      was built from, when there is at least one and none contains ';'. */
  lemma ExecCommandRecoversArgs(args: seq<string>)
    requires |args| >= 1
    requires forall i :: 0 <= i < |args| ==> ';' !in args[i]
    ensures Strings.Split(ExecCommand(args).args[0], ';') == args
  {
    Strings.SplitJoin(args, ';');
  }

  /** The flags present whatever the options: user and password as shell
      variable references, the host and the decimal port. */
  function BaseFlags(co: CommandOpts, host: string, port: int): seq<string> {
    ["--user=${" + co.userEnv + "}", "--password=${" + co.passwordEnv + "}",
     "--host=" + host, "--port=" + Strings.IntToString(port)]
  }

  /** The flag string without a database: Go's format
      `--user=${%s} --password=${%s} --host=%s --port=%d`, grouped flag by
      flag. */
  function NoDatabaseFlags(co: CommandOpts, host: string, port: int): string {
    ("--user=${" + co.userEnv + "}") + " " +
    (("--password=${" + co.passwordEnv + "}") + " " +
     (("--host=" + host) + " " + ("--port=" + Strings.IntToString(port))))
  }

  /** `ConnectionFlags`, with `client.Host(mariadb)` supplied as `host`: the
      no-database flags, followed by a database flag when one is given. */
  function ConnectionFlags(co: CommandOpts, mariadb: MariaDBApi.MariaDB, host: string): (r: string)
    ensures co.database.None? ==> r == NoDatabaseFlags(co, host, mariadb.spec.port)
    ensures co.database.Some? ==>
      r == NoDatabaseFlags(co, host, mariadb.spec.port) + " --database=" + co.database.value
    ensures NoDatabaseFlags(co, host, mariadb.spec.port) <= r
  {
    var flags := NoDatabaseFlags(co, host, mariadb.spec.port);
    if co.database.Some? then flags + " --database=" + co.database.value else flags
  }

  /** Of the MariaDB object only its port is read. */
  lemma ConnectionFlagsReadsOnlyPort(co: CommandOpts, m1: MariaDBApi.MariaDB, m2: MariaDBApi.MariaDB, host: string)
    requires m1.spec.port == m2.spec.port
    ensures ConnectionFlags(co, m1, host) == ConnectionFlags(co, m2, host)
  {
  }

  /** The no-database string is the base flags joined by single spaces. */
  lemma NoDatabaseFlagsIsJoin(co: CommandOpts, host: string, port: int)
    ensures NoDatabaseFlags(co, host, port) == Strings.Join(BaseFlags(co, host, port), " ")
  {
    var b := BaseFlags(co, host, port);
    Strings.JoinCons(b[2], [b[3]], " ");
    assert [b[2], b[3]] == [b[2]] + [b[3]];
    Strings.JoinCons(b[1], [b[2], b[3]], " ");
    assert [b[1], b[2], b[3]] == [b[1]] + [b[2], b[3]];
    Strings.JoinCons(b[0], [b[1], b[2], b[3]], " ");
    assert b == [b[0]] + [b[1], b[2], b[3]];
  }

  /** The flag string is its flags joined by single spaces. */
  lemma ConnectionFlagsIsJoin(co: CommandOpts, mariadb: MariaDBApi.MariaDB, host: string)
    ensures ConnectionFlags(co, mariadb, host) ==
      Strings.Join(BaseFlags(co, host, mariadb.spec.port) +
        (if co.database.Some? then ["--database=" + co.database.value] else []), " ")
  {
    var b := BaseFlags(co, host, mariadb.spec.port);
    NoDatabaseFlagsIsJoin(co, host, mariadb.spec.port);
    if co.database.Some? {
      Strings.JoinSnoc(b, "--database=" + co.database.value, " ");
    } else {
      assert b + [] == b;
    }
  }

  /** When no value contains a space, the flag string splits on spaces into
      exactly one `--name=value` token per flag, in order, with the database
      token last and only when a database is given. */
  lemma ConnectionFlagsTokens(co: CommandOpts, mariadb: MariaDBApi.MariaDB, host: string)
    requires ' ' !in co.userEnv && ' ' !in co.passwordEnv && ' ' !in host
    requires co.database.Some? ==> ' ' !in co.database.value
    ensures Strings.Split(ConnectionFlags(co, mariadb, host), ' ') ==
      BaseFlags(co, host, mariadb.spec.port) +
      (if co.database.Some? then ["--database=" + co.database.value] else [])
  {
    Strings.IntToStringRoundTrip(mariadb.spec.port);
    ConnectionFlagsIsJoin(co, mariadb, host);
    Strings.SplitJoin(BaseFlags(co, host, mariadb.spec.port) +
      (if co.database.Some? then ["--database=" + co.database.value] else []), ' ');
  }
}
