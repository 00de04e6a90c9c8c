/** The request-handling rules of the crater web server
    (rs/crater-web/main.rs): mime types of static files, the default file
    name, user/token authorisation, and the node command lines the API
    handlers ask for. */
module CraterWeb {
  import opened Wrappers
  import opened Strings

  /** The failures a library call reports, boxed as `Error::StdError`. */
  datatype Cause = DecodeFailure | IoFailure | EncodeFailure

  datatype WebError = BadMimeType | StdError(cause: Cause) | AuthError

  // ---------------------------------------------------------------------
  // Static files

  /** Two suffixes of one string: the shorter is a suffix of the longer. */
  lemma SuffixOfSuffix(s: string, u: string, v: string)
    requires EndsWith(s, u) && EndsWith(s, v) && |v| <= |u|
    ensures EndsWith(u, v)
  {
    assert u[|u| - |v|..] == s[|s| - |v|..];
  }

  /** No name ends in two of ".html", ".js" and ".css". */
  lemma SuffixesExclusive(name: string)
    ensures !(EndsWith(name, ".html") && EndsWith(name, ".js"))
    ensures !(EndsWith(name, ".html") && EndsWith(name, ".css"))
    ensures !(EndsWith(name, ".css") && EndsWith(name, ".js"))
  {
    if EndsWith(name, ".html") && EndsWith(name, ".js") {
      SuffixOfSuffix(name, ".html", ".js");
    }
    if EndsWith(name, ".html") && EndsWith(name, ".css") {
      SuffixOfSuffix(name, ".html", ".css");
    }
    if EndsWith(name, ".css") && EndsWith(name, ".js") {
      SuffixOfSuffix(name, ".css", ".js");
    }
  }

  /** `get_mime_type`: a name ending in ".html", ".js" or ".css" gets that
      suffix's type, whatever order the suffixes are tried in; any other
      name is refused. */
  function GetMimeType(name: string): (r: Result<string, WebError>)
    ensures EndsWith(name, ".html") ==> r == Ok("text/html")
    ensures EndsWith(name, ".js") ==> r == Ok("application/x-javascript")
    ensures EndsWith(name, ".css") ==> r == Ok("text/css")
    ensures r == Err(BadMimeType) <==> !EndsWith(name, ".html") && !EndsWith(name, ".js") && !EndsWith(name, ".css")
  {
    SuffixesExclusive(name);
    if EndsWith(name, ".html") then Ok("text/html")
    else if EndsWith(name, ".js") then Ok("application/x-javascript")
    else if EndsWith(name, ".css") then Ok("text/css")
    else Err(BadMimeType)
  }

  /** The three suffixes exclude each other, so each kind of name gets its
      own type whatever precedes the suffix. */
  lemma MimeOfSuffix(stem: string)
    ensures GetMimeType(stem + ".html") == Ok("text/html")
    ensures GetMimeType(stem + ".js") == Ok("application/x-javascript")
    ensures GetMimeType(stem + ".css") == Ok("text/css")
  {
    var h, j, c := stem + ".html", stem + ".js", stem + ".css";
    assert h[|h| - 5..] == ".html" && j[|j| - 3..] == ".js" && c[|c| - 4..] == ".css";
  }

  /** The `*` route: the last path segment names the file, and an empty
      segment (a path ending in `/`) means "index.html". Iron never hands
      the route an empty path, which the source insists on with `expect`. */
  function StaticFileName(path: seq<string>): (filename: string)
    requires |path| > 0
    ensures filename != ""
    ensures path[|path| - 1] != "" ==> filename == path[|path| - 1]
  {
    var last := path[|path| - 1];
    if last == "" then "index.html" else last
  }

  /** `get_static_file_and_mime_type`: the file is read first, and only a
      file that was read is typed by its name. `contents` is what reading
      the named static file gives, `None` for an I/O error. */
  function StaticFileAndMime(name: string, contents: Option<string>): (r: Result<(string, string), WebError>)
    ensures contents.None? <==> r == Err(StdError(IoFailure))
    ensures contents.Some? ==> (r.Err? <==> GetMimeType(name) == Err(BadMimeType))
    ensures r.Ok? ==> contents.Some? && r.value == (contents.value, GetMimeType(name).value)
  {
    match contents
    case None => Err(StdError(IoFailure))
    case Some(payload) =>
      match GetMimeType(name)
      case Ok(mime) => Ok((payload, mime))
      case Err(e) => Err(e)
  }

  /** The `/` route: "index.html", served as HTML once it has been read. */
  function RootRoute(contents: Option<string>): (r: Result<(string, string), WebError>)
    ensures contents.None? ==> r == Err(StdError(IoFailure))
    ensures contents.Some? ==> r == Ok((contents.value, "text/html"))
  {
    assert "index.html"[10 - 5..] == ".html";
    StaticFileAndMime("index.html", contents)
  }

  /** The `*` route, given the outcome of reading the file its path names:
      a read failure stops it before the name is looked at; a directory
      path is served as HTML; and a file that was read is refused only
      when its name has no known suffix. */
  function StaticRoute(path: seq<string>, contents: Option<string>): (r: Result<(string, string), WebError>)
    requires |path| > 0
    ensures contents.None? ==> r == Err(StdError(IoFailure))
    ensures contents.Some? && path[|path| - 1] == "" ==> r == Ok((contents.value, "text/html"))
    ensures r == Err(BadMimeType) <==>
              var last := path[|path| - 1];
              contents.Some? && last != "" && !EndsWith(last, ".html") && !EndsWith(last, ".js") && !EndsWith(last, ".css")
    ensures r.Ok? ==> contents.Some? && r.value.0 == contents.value
  {
    assert "index.html"[10 - 5..] == ".html";
    StaticFileAndMime(StaticFileName(path), contents)
  }

  /** A directory path reads "index.html" and answers as the `/` route
      does; a file name is typed by its own suffix. */
  lemma StaticRouteDefaults(dirs: seq<string>, name: string, contents: string)
    ensures StaticFileName(dirs + [""]) == "index.html"
    ensures StaticRoute(dirs + [""], Some(contents)) == RootRoute(Some(contents))
    ensures StaticRoute(dirs + [""], None) == RootRoute(None)
    ensures name != "" ==> StaticFileName(dirs + [name]) == name
    ensures name != "" && GetMimeType(name).Ok? ==>
              StaticRoute(dirs + [name], Some(contents)) == Ok((contents, GetMimeType(name).value))
  {
  }

  // ---------------------------------------------------------------------
  // Authorisation

  datatype Auth = Auth(name: string, token: string)

  /** The API context: the configured (user name, token) pairs. */
  datatype Ctxt = Ctxt(users: seq<(string, string)>)

  /** Some configured pair matches the request on both fields. */
  predicate Authorized(ctxt: Ctxt, auth: Auth)
  {
    exists i :: 0 <= i < |ctxt.users| && ctxt.users[i].0 == auth.name && ctxt.users[i].1 == auth.token
  }

  /** `Ctxt::authorize`: scans the pairs and succeeds at the first one
      that matches both name and token. */
  method Authorize(ctxt: Ctxt, auth: Auth) returns (r: Result<(), WebError>)
    ensures r.Ok? <==> Authorized(ctxt, auth)
    ensures r.Err? ==> r.error == AuthError
  {
    var i := 0;
    while i < |ctxt.users|
      invariant 0 <= i <= |ctxt.users|
      invariant forall k :: 0 <= k < i ==> !(ctxt.users[k].0 == auth.name && ctxt.users[k].1 == auth.token)
    {
      var (name, token) := ctxt.users[i];
      if name == auth.name && token == auth.token {
        return Ok(());
      }
      i := i + 1;
    }
    return Err(AuthError);
  }

  /** A matching name with another token, or an empty user list, is not
      enough. */
  lemma AuthorizedNeedsBoth(ctxt: Ctxt, auth: Auth)
    ensures |ctxt.users| == 0 ==> !Authorized(ctxt, auth)
    ensures Authorized(ctxt, auth) <==> (auth.name, auth.token) in ctxt.users
  {
    if Authorized(ctxt, auth) {
      var i :| 0 <= i < |ctxt.users| && ctxt.users[i].0 == auth.name && ctxt.users[i].1 == auth.token;
      assert ctxt.users[i] == (auth.name, auth.token);
    }
    if (auth.name, auth.token) in ctxt.users {
      var i :| 0 <= i < |ctxt.users| && ctxt.users[i] == (auth.name, auth.token);
    }
  }

  // ---------------------------------------------------------------------
  // Running node scripts

  /** The argument vector of `node_exec`: a vector holding the script,
      extended with the arguments one by one (`push_all`). */
  method NodeExecArgs(script: string, args: seq<string>) returns (realArgs: seq<string>)
    ensures realArgs == [script] + args
  {
    realArgs := [script];
    for i := 0 to |args|
      invariant realArgs == [script] + args[..i]
    {
      assert args[..i + 1] == args[..i] + [args[i]];
      realArgs := realArgs + [args[i]];
    }
    assert args[..|args|] == args;
  }

  /** The process output a handler returns, JSON-encoded by the server. */
  datatype StdIoResponse = StdIoResponse(stdout: string, stderr: string, success: bool)

  /** What a handler produces once authorised: a node process to run with
      the given arguments (its output is the reply), or a reply of its own. */
  datatype Reply = RunNode(argv: seq<string>) | Respond(response: StdIoResponse)

  datatype CustomBuildRequest = CustomBuildRequest(auth: Auth, repoUrl: string, commitSha: string)
  datatype CrateBuildRequest = CrateBuildRequest(auth: Auth, toolchain: string)
  datatype ApiReportKind = Comparison(toolchainFrom: string, toolchainTo: string) | Toolchain(toolchain: string)
  datatype ReportRequest = ReportRequest(auth: Auth, kind: ApiReportKind)
  datatype SelfTestRequest = SelfTestRequest(auth: Auth)

  /** `custom_build`. The request body has been decoded by the caller;
      `None` stands for a body that does not decode. */
  method CustomBuild(ctxt: Ctxt, req: Option<CustomBuildRequest>) returns (r: Result<Reply, WebError>)
    ensures req.None? ==> r == Err(StdError(DecodeFailure))
    ensures req.Some? && !Authorized(ctxt, req.value.auth) ==> r == Err(AuthError)
    ensures r.Ok? <==> req.Some? && Authorized(ctxt, req.value.auth)
    ensures r.Ok? ==> r.value == RunNode(["schedule-tasks.js", "custom-build", req.value.repoUrl, req.value.commitSha])
  {
    if req.None? { return Err(StdError(DecodeFailure)); }
    var auth := Authorize(ctxt, req.value.auth);
    if auth.Err? { return Err(auth.error); }
    var script := "schedule-tasks.js";
    var args := ["custom-build", req.value.repoUrl, req.value.commitSha];
    var argv := NodeExecArgs(script, args);
    r := Ok(RunNode(argv));
  }

  /** `crate_build`: schedules a crate build for the most recent crate
      versions only. */
  method CrateBuild(ctxt: Ctxt, req: Option<CrateBuildRequest>) returns (r: Result<Reply, WebError>)
    ensures req.None? ==> r == Err(StdError(DecodeFailure))
    ensures req.Some? && !Authorized(ctxt, req.value.auth) ==> r == Err(AuthError)
    ensures r.Ok? <==> req.Some? && Authorized(ctxt, req.value.auth)
    ensures r.Ok? ==> r.value == RunNode(["schedule-tasks.js", "crate-build", req.value.toolchain, "--most-recent-only"])
  {
    if req.None? { return Err(StdError(DecodeFailure)); }
    var auth := Authorize(ctxt, req.value.auth);
    if auth.Err? { return Err(auth.error); }
    var script := "schedule-tasks.js";
    var args := ["crate-build", req.value.toolchain, "--most-recent-only"];
    var argv := NodeExecArgs(script, args);
    r := Ok(RunNode(argv));
  }

  /** The arguments `report` passes to print-report.js for each kind: the
      first names the kind, and the rest are the kind's toolchains. */
  function ReportArgs(kind: ApiReportKind): (args: seq<string>)
    ensures |args| >= 2
    ensures args[0] == "comparison" <==> kind.Comparison?
    ensures args[0] == "toolchain" <==> kind.Toolchain?
  {
    match kind
    case Comparison(from, to) => ["comparison", from, to]
    case Toolchain(t) => ["toolchain", t]
  }

  /** Different report requests give print-report.js different argument
      lists, so the script can tell every request apart. */
  lemma ReportArgsInjective(a: ApiReportKind, b: ApiReportKind)
    requires ReportArgs(a) == ReportArgs(b)
    ensures a == b
  {
    if a.Comparison? {
      assert ReportArgs(a)[1] == ReportArgs(b)[1] && ReportArgs(a)[2] == ReportArgs(b)[2];
    } else {
      assert ReportArgs(a)[1] == ReportArgs(b)[1];
    }
  }

  /** `report`. */
  method Report(ctxt: Ctxt, req: Option<ReportRequest>) returns (r: Result<Reply, WebError>)
    ensures req.None? ==> r == Err(StdError(DecodeFailure))
    ensures req.Some? && !Authorized(ctxt, req.value.auth) ==> r == Err(AuthError)
    ensures r.Ok? <==> req.Some? && Authorized(ctxt, req.value.auth)
    ensures r.Ok? ==> r.value == RunNode(["print-report.js"] + ReportArgs(req.value.kind))
  {
    if req.None? { return Err(StdError(DecodeFailure)); }
    var auth := Authorize(ctxt, req.value.auth);
    if auth.Err? { return Err(auth.error); }
    var script := "print-report.js";
    var argv;
    match req.value.kind {
      case Comparison(from, to) =>
        argv := NodeExecArgs(script, ["comparison", from, to]);
      case Toolchain(t) =>
        argv := NodeExecArgs(script, ["toolchain", t]);
    }
    r := Ok(RunNode(argv));
  }

  /** `self_test`: an authorised request gets a fixed success reply and
      runs nothing. */
  method SelfTest(ctxt: Ctxt, req: Option<SelfTestRequest>) returns (r: Result<Reply, WebError>)
    ensures req.None? ==> r == Err(StdError(DecodeFailure))
    ensures req.Some? && !Authorized(ctxt, req.value.auth) ==> r == Err(AuthError)
    ensures r.Ok? <==> req.Some? && Authorized(ctxt, req.value.auth)
    ensures r.Ok? ==> r.value == Respond(StdIoResponse("self-test succeeded", "", true))
  {
    if req.None? { return Err(StdError(DecodeFailure)); }
    var auth := Authorize(ctxt, req.value.auth);
    if auth.Err? { return Err(auth.error); }
    r := Ok(Respond(StdIoResponse("self-test succeeded", "", true)));
  }
}
