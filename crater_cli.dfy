/** Command-line parsing of the crater client (rs/crater-cli/main.rs):
    `parse_opts` and `parse_report_kind`. `args[0]` is the program name. */
module CraterCli {
  import opened Wrappers

  datatype ReportKind = Comparison(toolchainFrom: string, toolchainTo: string)

  datatype Opts =
    | CustomBuild(url: string, sha: string)
    | CrateBuild(toolchain: string)
    | Report(kind: ReportKind)

  /** The client's errors; `StdError` wraps I/O and decoding failures,
      which lie outside the parser. */
  datatype CliError = OptParse | StdError(cause: string)

  /** `args.get(i).ok_or(Error::OptParse)`. */
  function Get(args: seq<string>, i: nat): Result<string, CliError>
  {
    if i < |args| then Ok(args[i]) else Err(OptParse)
  }

  /** `parse_report_kind(kind, rest)`: only "comparison" is a report kind,
      and it takes the next two arguments. */
  function ParseReportKind(kind: string, args: seq<string>): (r: Result<ReportKind, CliError>)
    ensures r.Ok? <==> kind == "comparison" && |args| >= 2
    ensures r.Ok? ==> r.value == Comparison(args[0], args[1])
    ensures r.Err? ==> r.error == OptParse
  {
    if kind == "comparison" then
      var from := Get(args, 0);
      if from.Err? then Err(from.error)
      else
        var to := Get(args, 1);
        if to.Err? then Err(to.error)
        else Ok(Comparison(from.value, to.value))
    else Err(OptParse)
  }

  /** `parse_opts(args)`. The slice after the report kind is taken only
      once `args[2]` exists, so it always lies within `args`. */
  function ParseOpts(args: seq<string>): (r: Result<Opts, CliError>)
    ensures r.Err? ==> r.error == OptParse
    ensures |args| < 2 ==> r == Err(OptParse)
  {
    if |args| < 2 then Err(OptParse)
    else if args[1] == "custom-build" then
      var url := Get(args, 2);
      if url.Err? then Err(url.error)
      else
        var sha := Get(args, 3);
        if sha.Err? then Err(sha.error)
        else Ok(CustomBuild(url.value, sha.value))
    else if args[1] == "crate-build" then
      var toolchain := Get(args, 2);
      if toolchain.Err? then Err(toolchain.error)
      else Ok(CrateBuild(toolchain.value))
    else if args[1] == "report" then
      var kind := Get(args, 2);
      if kind.Err? then Err(kind.error)
      else
        var k := ParseReportKind(kind.value, args[3..]);
        if k.Err? then Err(k.error)
        else Ok(Report(k.value))
    else Err(OptParse)
  }

  /** The shortest argument list (after the program name) that asks for
      `opts`; the inverse of `ParseOpts`. */
  function Render(opts: Opts): (argv: seq<string>)
    ensures |argv| >= 2
  {
    match opts
    case CustomBuild(url, sha) => ["custom-build", url, sha]
    case CrateBuild(toolchain) => ["crate-build", toolchain]
    case Report(Comparison(from, to)) => ["report", "comparison", from, to]
  }

  /** Parsing what `Render` writes gives back the options, whatever the
      program name and whatever follows. */
  lemma ParseRender(prog: string, opts: Opts, extra: seq<string>)
    ensures ParseOpts([prog] + Render(opts) + extra) == Ok(opts)
  {
    var args := [prog] + Render(opts) + extra;
    match opts
    case CustomBuild(url, sha) =>
      assert args[1] == "custom-build" && args[2] == url && args[3] == sha;
    case CrateBuild(toolchain) =>
      assert args[1] == "crate-build" && args[2] == toolchain;
      assert args[1] != "custom-build";
    case Report(Comparison(from, to)) =>
      assert args[1] == "report" && args[2] == "comparison";
      assert args[1] != "custom-build" && args[1] != "crate-build";
      assert args[3..][0] == from && args[3..][1] == to;
  }

  /** Conversely, a successful parse read exactly `Render(opts)` after the
      program name: the options come from the arguments and nothing else. */
  lemma ParseReadsRender(args: seq<string>)
    requires ParseOpts(args).Ok?
    ensures var argv := Render(ParseOpts(args).value);
            |argv| < |args| && args[1..|argv| + 1] == argv
  {
    var opts := ParseOpts(args).value;
    var argv := Render(opts);
    if args[1] == "custom-build" {
      assert args[1..4] == argv;
    } else if args[1] == "crate-build" {
      assert args[1..3] == argv;
    } else {
      assert args[1..5] == argv;
    }
  }

  /** Extra trailing arguments are ignored: appending to a successful
      argument list changes nothing. */
  lemma TrailingArgumentsIgnored(args: seq<string>, extra: seq<string>)
    requires ParseOpts(args).Ok?
    ensures ParseOpts(args + extra) == ParseOpts(args)
  {
    var opts := ParseOpts(args).value;
    ParseReadsRender(args);
    var argv := Render(opts);
    assert args == [args[0]] + argv + args[|argv| + 1..];
    assert args + extra == [args[0]] + argv + (args[|argv| + 1..] + extra);
    ParseRender(args[0], opts, args[|argv| + 1..]);
    ParseRender(args[0], opts, args[|argv| + 1..] + extra);
  }

  /** The error cases: a missing subcommand or operand, an unknown
      subcommand and an unknown report kind are all `OptParse`. */
  lemma ParseErrors(prog: string, x: string, y: string, z: string)
    ensures ParseOpts([prog]) == Err(OptParse)
    ensures ParseOpts([prog, "custom-build", x]) == Err(OptParse)
    ensures ParseOpts([prog, "crate-build"]) == Err(OptParse)
    ensures ParseOpts([prog, "report"]) == Err(OptParse)
    ensures ParseOpts([prog, "report", "comparison", x]) == Err(OptParse)
    ensures x != "comparison" ==> ParseOpts([prog, "report", x, y, z]) == Err(OptParse)
    ensures x != "custom-build" && x != "crate-build" && x != "report" ==> ParseOpts([prog, x, y, z]) == Err(OptParse)
  {
    assert [prog, "report", "comparison", x][3..] == [x];
  }
}
