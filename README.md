# java-lambda-runner, modelled in Dafny

The repository is one AWS Lambda handler (`src/handler.ts`). It accepts Java
code over HTTP, names a class after it, writes `/tmp/<Class>.java`, compiles
it with `javac`, runs `java -cp /tmp <Class>` and returns captured stdout and
stderr. This project models the handler's logic:

- `derivation.dfy` (module `Derivation`): the source derivation. It finds the
  class name with a hand-written scanner for `public\s+class\s+(\w+)`
  (leftmost match, greedy capture, default `Main`). It derives the two temp
  paths. It passes code with a class declaration through unchanged and wraps
  any other code in a generated `public class Main { public static void main
  … }`. These are functions, and the lemmas prove what the regular
  expressions, the default and the template promise.
- `handler.dfy` (module `Handler`): the handler's early-return cascade as two
  methods over abstract outcomes. `Handle` covers the header read, the CORS
  preflight, body parsing and the missing-code check. `CompileAndRun` covers
  derivation, write, compile, class-file check, run and cleanup. Each returns
  the response and the list of external actions it attempted (file write,
  process spawns, unlinks).
  `RunsAs` is the decision table that `CompileAndRun` is proved against.
- `wrappers.dfy`: `Option`.

The compiler, the Java runtime, the file system and `JSON.parse` are never
run. `JSON.parse(text).code` is a parameter `parse: string -> Parsed`. What
`writeFileSync`, the two `spawnSync` calls, `existsSync` and the two
`unlinkSync` calls report is an `Outcomes` record.

Behaviour of the code that the model keeps:

- The inner `try` (lines 27-34) also covers reading `.code`. So a body that is
  the JSON `null` falls back to the raw body, exactly like malformed JSON.
- The 500 response for a missing class file carries `code: fullCode` as well
  as the error (lines 96-99).
- A truthy `code` that is not a string (a number, `true`, an object or an
  array) makes `userCode.match` throw, which gives the generic 500.
- `event.headers.origin` is read at line 6, before the `try`. If the event has
  no header object, the promise rejects and no response is sent
  (`Rejected`).
- `\s` is modelled as ECMAScript defines it: tab, LF, VT, FF, CR, space,
  U+00A0, U+1680, U+2000-U+200A, U+2028, U+2029, U+202F, U+205F, U+3000 and
  U+FEFF. `\w` is `[A-Za-z0-9_]`.

## Model

| member | source | states |
|---|---|---|
| `Derivation.SpacesEnd` | src/handler.ts:47 | a greedy `\s+` ends at the first non-whitespace character after `i` (or at the end), and everything before it is whitespace |
| `Derivation.WordEnd` | src/handler.ts:47 | a greedy `(\w+)` ends at the first non-word character after `i` (or at the end), and everything before it is a word character |
| `Derivation.MatchAtSound` | src/handler.ts:47 | whenever the anchored scanner succeeds, the text has the shape `public`, whitespace, `class`, whitespace, word characters, then no word character, and the result is exactly that capture |
| `Derivation.MatchAtComplete` | src/handler.ts:47 | whenever the text has that shape at `i`, the scanner succeeds there with that capture, so the capture is unique and stops before the next non-word character |
| `Derivation.TestAtIffMatchAt` | src/handler.ts:47-55 | at every position the non-capturing pattern of the has-class test matches exactly when the capturing pattern does |
| `Derivation.Search` | src/handler.ts:47 | `match` returns the leftmost position where the pattern matches, with its capture; no earlier position matches; `None` means no position matches |
| `Derivation.TestFromIffSearch` | src/handler.ts:47-55 | scanning from any position, `test` succeeds exactly when `match` finds a match |
| `Derivation.HasClassDefinitionIffMatch` | src/handler.ts:47-55 | `hasClassDefinition` is true exactly when `classNameMatch` is non-null |
| `Derivation.ClassName` | src/handler.ts:47-48 | the class name is non-empty and made of word characters; when no position matches it is `Main` |
| `Derivation.ClassNameIsLeftmostCapture` | src/handler.ts:47-48 | when a position matches and no earlier one does, the class name is that position's capture |
| `Derivation.WrapKeepsCode` | src/handler.ts:63-67 | the generated program starts with `public class Main {`; the user's code is recovered verbatim between the main-method header and the closing braces; two different snippets never give the same program |
| `Derivation.Derive` | src/handler.ts:47-68 | the paths are `/tmp/<name>.java` and `/tmp/<name>.class`; with a declaration the code passes through unchanged and the name is the leftmost capture; without one the name is `Main` and the code is wrapped |
| `Derivation.WrappedDeclaresMain` | src/handler.ts:55-68 | in a wrapped program the leftmost match is at index 0 and captures `Main`, stopping at the space before `{` |
| `Derivation.DeriveIdempotent` | src/handler.ts:47-68 | deriving again from the derived program gives the same class name, paths and program |
| `Derivation.DerivedProgramDeclaresItsClass` | src/handler.ts:47-68 | the program written and compiled always has a class declaration, and its inferred name is the class `java` is asked to run |
| `Derivation.PathsDetermineName` | src/handler.ts:49-50 | two class names give the same source path (or class path) exactly when they are equal; a source path is never a class path |
| `Derivation.PathsStayInTmp` | src/handler.ts:49-50 | a name of word characters puts no `/` after `/tmp/`, so both files lie directly in `/tmp` |
| `Derivation.PathsFollowClassName` | src/handler.ts:48-50 | a derivation's two paths are distinct and lie directly in `/tmp`; two derivations share a path exactly when they infer the same class name |
| `Handler.Origin` | src/handler.ts:6 | the echoed origin is the `origin` header when present and non-empty, and `*` otherwise |
| `Handler.UserCode` | src/handler.ts:26-34 | `userCode` is the parsed `code` when parsing gives a document; otherwise (malformed JSON or `null`) it is the raw body as a string, or `""` when there is no body |
| `Handler.AbsentBodyIsMissingCode` | src/handler.ts:28-36 | with no body or an empty one there is no code, because the parser reads `{}` as an object without `code` |
| `Handler.UnparsableBodyIsCode` | src/handler.ts:27-36 | a non-empty body that does not parse to a document is taken verbatim as the code and passes the missing-code check |
| `Handler.RunsAsIsDeterministic` | src/handler.ts:82-130 | the decision table picks exactly one response and one list of attempted actions for each outcome |
| `Handler.RunStatusMeaning` | src/handler.ts:82-130 | 200 exactly when the write succeeded, javac exited 0 and the class file exists; 400 exactly when the write succeeded and javac did not exit 0; 500 exactly for a failed write or a missing class file; only 200 carries headers; a body with `code` holds a program that declares the class to run |
| `Handler.CleanupAndExitStatusDoNotMatter` | src/handler.ts:104-130 | the response depends on neither unlink failure nor the program's exit status; the actions differ only in whether the second unlink is attempted |
| `Handler.CompileAndRun` | src/handler.ts:47-132 | the response and actions are those of the decision table for the derived program, in the order write failure, compile failure, missing class file, success; an unlink is attempted only after the program ran |
| `Handler.Handle` | src/handler.ts:5-146 | no header object rejects; `OPTIONS` answers 200 with an empty body and the echoed origin before the body is looked at; missing code gives 400 with the fixed message and no headers; non-string code gives the generic 500; any other code goes through the decision table; unlinks happen only on the run path |

## Left out

- Subprocesses: `javac` and `java` are not modelled, and their status, stdout and stderr are inputs. The captured bytes are already decoded into strings.
- File system: `writeFileSync`, `existsSync` and `unlinkSync` are inputs (a write error message, file presence, unlink failures). The model records the actions attempted, not their effect on `/tmp`.
- The outcomes are not tied to the program text. The model does not say which Java programs compile or what they print.
- `JSON.parse` is a parameter, reduced to what the handler reads: syntax error, a `null` document, or the kind of the `code` property. Responses carry a structured `Body` instead of `JSON.stringify` text.
- Logging (`console.log`, `console.error`) and `JSON.stringify(event)` at line 23 have no effect on behaviour and are not modelled.
- Concurrency: concurrent invocations racing on the shared `/tmp` paths are outside this sequential model. `PathsFollowClassName` states when two requests collide.
- `spawnSync` throwing: it reports a missing executable or an oversized output through its result, so among the I/O calls only `writeFileSync` is modelled as throwing inside the `try` (besides the TypeError of `userCode.match` on non-string code). Other thrown errors are not modelled.
- `Handle`: non-string `code` reports V8's message for the TypeError (`userCode.match is not a function`). Other engines word it differently.
- AWS event types are reduced to method, header map and body. `isBase64Encoded` is not read by the code and is not modelled. Header names are looked up exactly as the code does (`origin` only).
- Strings are sequences of Unicode scalar values, while JavaScript strings are UTF-16. Positions of astral characters differ, which does not change any match because `\s` and `\w` are all in the Basic Multilingual Plane. Strings with unpaired surrogates cannot be represented.
