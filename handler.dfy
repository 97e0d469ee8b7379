/** The request handler: CORS preflight, body parsing, the missing-code
    check, writing, compiling and running the derived program, cleanup, and
    the one response each path produces. The compiler, the Java runtime, the
    file system and JSON.parse stay outside: their outcomes are inputs. */
module Handler {
  import opened Wrappers
  import opened Derivation

  /** The parts of an API Gateway event the handler reads. `headers` is
      None when the event carries no header object at all. */
  datatype Request = Request(httpMethod: string, headers: Option<map<string, string>>, body: Option<string>)

  /** A JavaScript value as the handler sees `body.code`: only whether it is
      a string, and whether it is falsy, matter. */
  datatype JsValue = Undefined | Null | Bool(b: bool) | Number(isZero: bool) | Str(s: string) | Compound

  /** JavaScript's falsy values among these (`!userCode`). */
  predicate Falsy(v: JsValue) {
    v.Undefined? || v.Null? || v == Bool(false) || v == Number(true) || v == Str("")
  }

  /** What `JSON.parse(text).code` gives: a syntax error, a document that is
      `null` (so reading `.code` throws), or the value of its `code`
      property (Undefined when it has none, as for arrays and primitives). */
  datatype Parsed = SyntaxError | NullDocument | Document(code: JsValue)

  /** What `spawnSync` reports: the exit status (None when killed by a
      signal or not started) and the captured streams. */
  datatype SpawnResult = SpawnResult(status: Option<int>, stdout: Option<string>, stderr: Option<string>)

  /** The outcomes of the handler's external steps, in the order it meets
      them. A `writeError` is the message of the error `writeFileSync`
      throws. */
  datatype Outcomes = Outcomes(
    writeError: Option<string>,
    javac: SpawnResult,
    classFileExists: bool,
    java: SpawnResult,
    javaFileUnlinkFails: bool,
    classFileUnlinkFails: bool)

  /** The JSON bodies the handler sends. */
  datatype Body =
    | Empty
    | Error(error: string)
    | ErrorWithCode(error: string, code: string)
    | RunOutput(output: string, error: string)
    | ErrorWithDetails(error: string, details: string)

  /** Response headers in the order the handler's object literal lists them. */
  type Headers = seq<(string, string)>

  datatype Response = Response(statusCode: int, headers: Headers, body: Body)

  /** The handler's promise either resolves to a response or rejects. */
  datatype Result = Returned(response: Response) | Rejected

  /** An external action the handler attempts. */
  datatype Effect =
    | WriteFile(path: string, contents: string)
    | Spawn(command: string, args: seq<string>)
    | Unlink(path: string)

  /** JavaScript's `v || fallback` for a string that may be absent. */
  function Or(v: Option<string>, fallback: string): (r: string) {
    if v.Some? && v.value != "" then v.value else fallback
  }

  function Lookup(headers: map<string, string>, name: string): (r: Option<string>) {
    if name in headers then Some(headers[name]) else None
  }

  /** The preflight headers: the request's origin echoed, a narrow allow-list. */
  function PreflightHeaders(origin: string): (h: Headers) {
    [ ("Access-Control-Allow-Origin", origin),
      ("Access-Control-Allow-Methods", "GET, POST, OPTIONS"),
      ("Access-Control-Allow-Headers", "Content-Type"),
      ("Access-Control-Max-Age", "86400") ]
  }

  /** The headers of a successful run: any origin, a broader allow-list. */
  const RunHeaders: Headers := [
    ("Access-Control-Allow-Origin", "*"),
    ("Access-Control-Allow-Methods", "GET, POST, PUT, DELETE, OPTIONS"),
    ("Access-Control-Allow-Headers", "Content-Type, Accept, Authorization, X-Requested-With"),
    ("Access-Control-Allow-Credentials", "true") ]

  const MissingCodeMessage: string := "Missing Java code in request body"
  const CompilationFailedMessage: string := "Compilation failed"
  const InternalErrorMessage: string := "Internal server error"
  /** The message of the TypeError V8 throws when `userCode` is not a string. */
  const NotAFunctionMessage: string := "userCode.match is not a function"

  /** The origin the preflight echoes: the `origin` header, or `*`. */
  function Origin(headers: map<string, string>): (origin: string)
    ensures "origin" in headers && headers["origin"] != "" ==> origin == headers["origin"]
    ensures !("origin" in headers && headers["origin"] != "") ==> origin == "*"
  {
    Or(Lookup(headers, "origin"), "*")
  }

  /** `userCode` after the inner try: the `code` of the parsed body (an
      absent body is parsed as `{}`), or the raw body when parsing fails or
      the document is `null`. */
  function UserCode(body: Option<string>, parse: string -> Parsed): (v: JsValue)
    ensures parse(Or(body, "{}")).Document? ==> v == parse(Or(body, "{}")).code
    ensures !parse(Or(body, "{}")).Document? ==> v.Str? && (body.Some? ==> v.s == body.value)
    ensures !parse(Or(body, "{}")).Document? && body.None? ==> v == Str("")
  {
    match parse(Or(body, "{}"))
    case Document(code) => code
    case _ => Str(Or(body, ""))
  }

  /** With no body, or an empty one, there is no code, provided the parser
      reads `{}` as an object without a `code` property. */
  lemma AbsentBodyIsMissingCode(body: Option<string>, parse: string -> Parsed)
    requires parse("{}") == Document(Undefined)
    requires body == None || body == Some("")
    ensures Falsy(UserCode(body, parse))
  {
  }

  /** Text that is not JSON, or is the JSON `null`, is compiled as it is:
      it is missing code only when it is empty. */
  lemma UnparsableBodyIsCode(body: string, parse: string -> Parsed)
    requires body != ""
    requires !parse(body).Document?
    ensures UserCode(Some(body), parse) == Str(body)
    ensures !Falsy(UserCode(Some(body), parse))
  {
  }

  /** The decision table for code that got past the missing-code check:
      which response each outcome of writing, compiling, finding the class
      file and running produces, and which external actions were attempted
      on the way. */
  predicate RunsAs(code: string, out: Outcomes, response: Response, effects: seq<Effect>) {
    var d := Derive(code);
    var write := WriteFile(d.filePath, d.fullCode);
    var javac := Spawn("javac", [d.filePath]);
    && (out.writeError.Some? ==>
          && response == Response(500, [], ErrorWithDetails(InternalErrorMessage, out.writeError.value))
          && effects == [write])
    && (out.writeError.None? && out.javac.status != Some(0) ==>
          && response == Response(400, [], ErrorWithCode(Or(out.javac.stderr, CompilationFailedMessage), d.fullCode))
          && effects == [write, javac])
    && (out.writeError.None? && out.javac.status == Some(0) && !out.classFileExists ==>
          && response == Response(500, [], ErrorWithCode("Compiled class file not found at " + d.classFile, d.fullCode))
          && effects == [write, javac])
    // The run's own exit status plays no part, nor does either cleanup failure.
    && (out.writeError.None? && out.javac.status == Some(0) && out.classFileExists ==>
          && response == Response(200, RunHeaders, RunOutput(Or(out.java.stdout, ""), Or(out.java.stderr, "")))
          && effects == [write, javac, Spawn("java", ["-cp", "/tmp", d.className]), Unlink(d.filePath)]
                        + (if out.javaFileUnlinkFails then [] else [Unlink(d.classFile)]))
  }

  /** The table picks exactly one response and one list of actions. */
  lemma RunsAsIsDeterministic(code: string, out: Outcomes, r1: Response, e1: seq<Effect>, r2: Response, e2: seq<Effect>)
    requires RunsAs(code, out, r1, e1) && RunsAs(code, out, r2, e2)
    ensures r1 == r2 && e1 == e2
  {
  }

  /** What each status code means once the code reached the compiler: 200
      only after a compile that succeeded and left its class file, 400 only
      for a failed compile, 500 for a failed write or a missing class file. */
  lemma RunStatusMeaning(code: string, out: Outcomes, r: Response, e: seq<Effect>)
    requires RunsAs(code, out, r, e)
    ensures r.statusCode == 200 <==> out.writeError.None? && out.javac.status == Some(0) && out.classFileExists
    ensures r.statusCode == 400 <==> out.writeError.None? && out.javac.status != Some(0)
    ensures r.statusCode == 500 <==> out.writeError.Some? || (out.javac.status == Some(0) && !out.classFileExists)
    ensures r.statusCode != 200 ==> r.headers == []
    ensures r.body.ErrorWithCode? ==> HasClassDefinition(r.body.code) && ClassName(r.body.code) == Derive(code).className
  {
    DerivedProgramDeclaresItsClass(code);
  }

  /** Neither cleanup failure nor the program's own exit status changes the
      response; a failing first unlink only drops the second. */
  lemma CleanupAndExitStatusDoNotMatter(code: string, out: Outcomes, r: Response, e: seq<Effect>,
                                        out': Outcomes, r': Response, e': seq<Effect>)
    requires RunsAs(code, out, r, e) && RunsAs(code, out', r', e')
    requires out'.writeError == out.writeError && out'.javac == out.javac
    requires out'.classFileExists == out.classFileExists
    requires out'.java.stdout == out.java.stdout && out'.java.stderr == out.java.stderr
    ensures r' == r
    ensures out'.javaFileUnlinkFails == out.javaFileUnlinkFails ==> e' == e
    ensures e' == e || e' == e + [Unlink(Derive(code).classFile)] || e == e' + [Unlink(Derive(code).classFile)]
  {
  }

  /** Derive the program, write it, compile it, check for the class file,
      run it and clean up (the body of the try from the class-name match on). */
  method CompileAndRun(code: string, out: Outcomes) returns (response: Response, effects: seq<Effect>)
    ensures RunsAs(code, out, response, effects)
    // Cleanup is attempted only on the path that ran the program.
    ensures forall e | e in effects :: e.Unlink? ==> response.body.RunOutput?
  {
    var className := ClassName(code);
    var filePath := JavaFile(className);
    var classFile := ClassFile(className);
    var fullCode: string;
    if HasClassDefinition(code) {
      fullCode := code;
    } else {
      fullCode := Wrap(className, code);
    }
    assert Derive(code) == Derivation(className, filePath, classFile, fullCode);

    effects := [WriteFile(filePath, fullCode)];
    if out.writeError.Some? {
      return Response(500, [], ErrorWithDetails(InternalErrorMessage, out.writeError.value)), effects;
    }
    effects := effects + [Spawn("javac", [filePath])];
    if out.javac.status != Some(0) {
      return Response(400, [], ErrorWithCode(Or(out.javac.stderr, CompilationFailedMessage), fullCode)), effects;
    }
    if !out.classFileExists {
      return Response(500, [], ErrorWithCode("Compiled class file not found at " + classFile, fullCode)), effects;
    }
    effects := effects + [Spawn("java", ["-cp", "/tmp", className])];

    // A failing unlink is caught and logged; the first failure skips the second.
    effects := effects + [Unlink(filePath)];
    if !out.javaFileUnlinkFails {
      effects := effects + [Unlink(classFile)];
    }

    response := Response(200, RunHeaders, RunOutput(Or(out.java.stdout, ""), Or(out.java.stderr, "")));
  }

  method Handle(req: Request, parse: string -> Parsed, out: Outcomes) returns (result: Result, effects: seq<Effect>)
    // A missing header object makes the very first statement throw, outside the try.
    ensures req.headers.None? ==> result == Rejected && effects == []
    // The preflight answers before anything else is consulted.
    ensures req.headers.Some? && req.httpMethod == "OPTIONS" ==>
              && result == Returned(Response(200, PreflightHeaders(Origin(req.headers.value)), Empty))
              && effects == []
    ensures req.headers.Some? && req.httpMethod != "OPTIONS" && Falsy(UserCode(req.body, parse)) ==>
              && result == Returned(Response(400, [], Error(MissingCodeMessage)))
              && effects == []
    // A truthy `code` that is not a string makes `userCode.match` throw.
    ensures req.headers.Some? && req.httpMethod != "OPTIONS" && !Falsy(UserCode(req.body, parse))
            && !UserCode(req.body, parse).Str? ==>
              && result == Returned(Response(500, [], ErrorWithDetails(InternalErrorMessage, NotAFunctionMessage)))
              && effects == []
    ensures req.headers.Some? && req.httpMethod != "OPTIONS" && !Falsy(UserCode(req.body, parse))
            && UserCode(req.body, parse).Str? ==>
              result.Returned? && RunsAs(UserCode(req.body, parse).s, out, result.response, effects)
    ensures forall e | e in effects :: e.Unlink? ==> result.Returned? && result.response.body.RunOutput?
  {
    if req.headers.None? {
      return Rejected, [];
    }
    var origin := Origin(req.headers.value);
    if req.httpMethod == "OPTIONS" {
      return Returned(Response(200, PreflightHeaders(origin), Empty)), [];
    }

    var userCode := UserCode(req.body, parse);
    if Falsy(userCode) {
      return Returned(Response(400, [], Error(MissingCodeMessage))), [];
    }
    if !userCode.Str? {
      return Returned(Response(500, [], ErrorWithDetails(InternalErrorMessage, NotAFunctionMessage))), [];
    }
    var response;
    response, effects := CompileAndRun(userCode.s, out);
    result := Returned(response);
  }
}
