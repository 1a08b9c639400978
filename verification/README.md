# connect-aip in Dafny

The repository turns `google.api.http` rules into REST servers and clients: three protoc plugins
(Go, Python, TypeScript), their runtimes, and an in-process HTTP transport. This project models the
parts where something can go quietly wrong and proves what they promise.

- **The loopback transport** (`Loopback`, `LoopbackCall`): the handler's goroutine with its five
  deferred functions, the caller in `RoundTrip` and the reader of the body, as a labelled transition
  system over an unbuffered pipe, two channels and a context. `Loopback` holds the protocol and its
  proofs over all runs; `LoopbackCall` is the code as a class, each method one step of the protocol,
  and a driver that takes an object through any run.
- **Path templates** (`Patterns`, `Agreement`, `Escape`, `Template`, `Wildcards`, `Clients`,
  `ServeMux`, `Routing`, `Fields`, `RoundTrip`, `EndToEnd`): a pattern is parsed, a resource name is
  split into wildcard values, escaped and substituted; the server matches the path segment by segment,
  decodes, trims the verb and joins the fields again. Escaping is parametrised by the set of bytes left
  alone, so one proof covers the three runtimes (RFC 3986, sections 2.1 and 3.3). `Grammar` says which
  pattern texts these theorems are about; `Examples`, `Counterexamples` and `WireCounterexamples` apply
  them to families of patterns and to literal inputs.
- **From path to request** (`NetUrl`, `Reencoding`, `GoWire`): Go's net/url parses the path a client
  built and writes it again, which can undo its escaping. The Go client's round trip, and everything
  below that rests on it, is about what goes out.
- **Route grouping and dispatch** (`Normalize`, `Grouping`, `RouteMemory`, `Registration`, `Dispatch`,
  `ServiceRoutes`, `ServiceMux`): routes whose paths differ only in names share one registration;
  variables are renamed in place through slices that several records share, modelled as arrays and
  classes. `ServiceMux` follows one request through mux, dispatcher and handler.
- **The streaming transport** (`SseTransport`, `SseServer`): substitution in escaped space, and how
  the mux reads the result.
- **Event streams** (`EventLines`, `EventBatches`, `EventStream`, `EventClients`): the incremental
  TypeScript decoder and the Python line loop (WHATWG HTML, sections 9.2.5 and 9.2.6).
- **The rest**: the cached alias table of the Python plugin (`PyResolver`, `Sorting`), query
  transcoding (`QueryParams`, with the path in `GetRequests`), relative import paths (`RelativePath`).
  `Text` and `Decimal` hold the string operations of the three languages.

Code that loops or updates state is a method or a class, proved equal to a specification function;
the results are lemmas about those functions.

Where the code does not do what its comments say, the code was followed, the exact condition is
proved, and an input is shown at which it fails:

- The plugins do not always build the same path: a rest-of-path variable with a verb gets `...` only
  in Go (`Agreement.PluginsAgree`, `Counterexamples.PluginsDisagree`).
- A verb after a variable without a wildcard stays in the path, although AIP-127 reads `{id}` as
  `{id=*}` (`Grammar.VerbIsTakenOffExactly`, `Counterexamples.BareVerb`).
- A slash after a rest-of-path variable ends up behind `{name...}`, where no mux accepts it
  (`Grammar.RestInsideExactly`, `Grammar.MuxRefusesExactly`, `Counterexamples.TrailingSlash`).
- The clients miss a placeholder whose name ends the name of a rest-of-path variable
  (`RoundTrip.MissedExactly`, `Counterexamples.MissedAltered`).
- A placeholder that is left in the path, or a literal that net/url has to encode, makes it encode the
  whole path anew, and an escaped slash in a value then splits its segment (`GoWire.GoRoundTrip`,
  `GoWire.PlainIsUndisturbedExactly`, `WireCounterexamples.MixedIsLost`).
- A multi-wildcard field never becomes a rest-of-path wildcard, contrary to the comment at
  `cmd/protoc-gen-aip-go/main.go:911-914`; it is expanded, as lines 958-1028 do
  (`Fields.MultiIsExpanded`).
- The Go client cannot split three or more wildcards (`GoWire.GoRoundTrip`,
  `Counterexamples.ThreeWildcardsAltered`).
- A second base route with the same key silently replaces the first (`Grouping.EveryRouteIsGrouped`,
  `RuntimeCounterexamples.TwoBaseRoutes`).
- A verb that is a suffix of another can be shadowed, and a base value that ends in a verb is taken
  for that verb (`Dispatch.ReachedExactlyWhenSuffixFree`, `Registration.BaseRequestsReachTheBase`;
  `RuntimeCounterexamples.VerbShadowed`, `RuntimeCounterexamples.BaseValueTaken`).
- A group with a more specific path takes requests away (`ServiceMux.RequestIsAnswered`,
  `RuntimeCounterexamples.SpecialTaken`).
- The streaming transport searches substituted values again (`SseTransport.StepIsSafeExactly`,
  `RuntimeCounterexamples.MisledUrl`).
- The streaming transport does not keep every literal in its base URL's path encoded as it was,
  contrary to the comment at `client.go:50-51`: what is not in net/url's default form, such as an
  encoded slash, is rewritten (`NetUrl.TextIsKeptExactly`, `NetUrl.BaseIsKeptExactly`,
  `RuntimeCounterexamples.EncodedSlashIsLost`).
- The TypeScript decoder's outcome depends on the chunking when something follows an error trailer or
  a message fails to parse after another (`EventStream.ChunkingDoesNotMatterExactly`,
  `RuntimeCounterexamples.OneItemOrNone`).
- The clients' tests for an error trailer differ (`EventClients.TrailersDisagree`,
  `RuntimeCounterexamples.EmptyErrorTrailer`).
- Enum query parameters are sent but never read (`QueryParams.ValueComesBack`,
  `QueryParams.QueryRoundTrip`, `RuntimeCounterexamples.EnumIsLost`), and the zigzag and fixed-width
  integer kinds are read but never sent.

`dafny verify dfyconfig.toml` checks the project.

## Model

| member | source | states |
|---|---|---|
| `Loopback.EveryRunRefinesTheHandler` | loopback.go:36-115 | In every interleaving of handler, caller and reader: the bytes read so far are a prefix of the handler's body read sequentially; a response carries the handler's first status and comes only after `ready` is closed; a clean end of file means every byte arrived, the handler did not panic after its headers, and the request body is already closed. |
| `Loopback.ResponseHead` | loopback.go:129-152 | The header map published with the status is what the handler set before its first WriteHeader, Write, Flush, panic or return; a caller keeps seeing exactly that map unless the handler sets a header too late. |
| `Loopback.EarlyPanicIsA500` | loopback.go:59-79 | A handler that panics before any output gives status 500 with the plain-text content type, and a reader that reaches the end has exactly the 500 text. |
| `Loopback.PublishedHeadStays` | loopback.go:129-160 | After publication no step of the transport, of the caller or of the reader changes status or headers; only the handler's own SetHeader can touch the map. |
| `Loopback.FailureMeansTheHandlerIsGone` | loopback.go:88-95 | Once RoundTrip has returned an error, the handler has run all its defers: `done` is closed, both ends of the pipe are closed, the request body (if any) is closed, and no step of the call is enabled any more. |
| `Loopback.StuckMeansOverOrWaitingForReader` | loopback.go:46-95 | No deadlock: the transport has no step of its own left exactly when the call is over or a write waits for the reader of a response already handed out, whose read and close are then both enabled. |
| `Loopback.TornDownRunsReachDone` | loopback.go:88-95 | When either side has closed the pipe and nothing more can happen, `done` is closed and RoundTrip has returned. |
| `Loopback.EveryRunIsBounded` | loopback.go:46-81 | Every run of a finite handler takes a bounded number of productive steps: each one uses up script, bytes or defers. |
| `Loopback.EofIsReachableExactlyWhenClean` | loopback.go:47-81 | Some run ends in a clean end of file if and only if the handler, read sequentially, does not panic after its headers; so a panic after the headers never looks like a complete body although `pw.Close` still runs. |
| `Loopback.ReachableInv` | loopback.go:36-161 | Every reachable state satisfies the invariant: a blocked pipe write, a teardown and everything after the header flush come after `ready` is closed; what was read plus what is owed is the handler's body while the reader listens; the first close error on the writing side wins. |
| `Loopback.DeliverKeepsBody` | loopback.go:136-139 | A read of any size, zero included, hands over the next bytes of the blocked write, in order and without loss. |
| `LoopbackCall.Call.constructor` | loopback.go:36-44 | A new call is the initial state of the protocol. |
| `LoopbackCall.Call.WriteHeader` | loopback.go:129-132 | Entering `once.Do`: the first caller stores its status, later ones change nothing. |
| `LoopbackCall.Call.CloseReady` | loopback.go:132-133 | Leaving `once.Do` closes `ready` and nothing else. |
| `LoopbackCall.Call.FlushHeaders` | loopback.go:150-152 | A flush publishes 200 when nothing was published before. |
| `LoopbackCall.Call.CloseWrite` | loopback.go:54-71 | Closing the writing end keeps an error given earlier. |
| `LoopbackCall.Call.CloseRead` | loopback.go:92-92 | Closing the reading end keeps an error given earlier. |
| `LoopbackCall.Call.ServeHTTP` | loopback.go:80-80 | One action of the handler is one step of the protocol. |
| `LoopbackCall.Call.StepDefers` | loopback.go:53-79 | The deferred functions, last in first out: recover, tear down or synthesise the 500, close the request body, flush, close the pipe, close `done`; each is one step of the protocol. |
| `LoopbackCall.Call.StepHandler` | loopback.go:46-81 | The goroutine's next action, whichever of the above it is, is the protocol's step Go. |
| `LoopbackCall.Call.StepCaller` | loopback.go:88-114 | RoundTrip's select, its teardown after a cancellation and its response are the protocol's caller steps. |
| `LoopbackCall.Call.Cancel` | loopback.go:37-37 | Cancelling the context changes the context alone. |
| `LoopbackCall.Call.ReadBody` | loopback.go:104-114 | One read of the response body is the protocol's read step. |
| `LoopbackCall.Call.CloseBody` | loopback.go:104-114 | Closing the response body closes the reading end of the pipe. |
| `LoopbackCall.Call.Take` | loopback.go:36-115 | Whatever step of the protocol is enabled, the object takes it. |
| `LoopbackCall.RunCall` | loopback.go:36-115 | An object driven through any interleaving of its actors ends in the state of that run; so its caller has the handler's first status, its reader a prefix of the handler's body, a clean end means the whole body of a handler that did not panic late, and after a failure the handler is gone and the request body closed. |
| `Escape.CodecsAreValid` | python/src/connectaip/__init__.py:109-122 | The unreserved sets of Go, Python and TypeScript all exclude `/`, `%`, `{` and `}`; the TypeScript set also excludes `$`, so a JavaScript replacement text is taken literally. |
| `Escape.RoundTrip` | client.go:200-209 | Percent-decoding inverts percent-encoding on every byte string, for every codec whose safe set leaves out the structural bytes. |
| `Escape.EscapeThenText` | client.go:200-209 | The same when further decodable text follows, as a verb does. |
| `Escape.RestIsOnePass` | python/src/connectaip/__init__.py:109-122 | Splitting at `/`, escaping the segments and joining them, as Go and TypeScript do, equals Python's single pass that leaves `/` alone. |
| `Escape.EscapePathVar` | client.go:200-209 | The in-place loop over the segments computes the specified escaping, which keeps separators for a rest-of-path placeholder and only for it. |
| `Escape.EscapedVarDecodes` | internal/testproto/testts/test_aip.ts:53-56 | Each escaped value decodes to itself, holds no brace, and holds no slash unless the placeholder is rest-of-path: a value stays in its own segment. |
| `Template.PlaceholderSuffix` | client.go:200-203 | Recognising a rest-of-path placeholder by its text is exact. |
| `Template.ReplaceIsFill` | client.go:267-278 | On a path whose literals are brace-free, replacing the text of a placeholder hits that placeholder and no other, for replace-first and replace-all alike. |
| `Template.SubstTwice` | client.go:267-278 | Substituted text is never substituted again: two substitutions are one with the union of the values. |
| `Template.SequentialIsSimultaneous` | python/src/connectaip/__init__.py:160-169 | Substituting one variable after the other, in any order, equals substituting all at once; so the order does not matter and Go's replace-first and Python's replace-all give the same path. |
| `Template.FilledSegments` | client.go:267-278 | A filled path has the template's segments, each filled by itself. |
| `Clients.FillOne` | client.go:270-276 | One round of the Go loop strips the prefix once, escapes and replaces the first occurrence. |
| `Clients.FillPath` | client.go:267-278 | The whole Go loop computes the template filled with the prefix-stripped, escaped values in order. |
| `Clients.FillEvery` | python/src/connectaip/__init__.py:162-169 | One round of the Python loop does the same with replace-all. |
| `Clients.FillUrl` | python/src/connectaip/__init__.py:160-169 | The whole Python loop computes the template filled in order with replace-all. |
| `Clients.SearchFindsExactly` | cmd/protoc-gen-aip-go/main.go:1307-1312 | The generators look for `name...` in the path to see whether a variable is rest-of-path. The search succeeds exactly when some rest-of-path placeholder's name ends in that name, or the literals themselves hold `name...`. |
| `Clients.RestIsFound` | cmd/protoc-gen-aip-go/main.go:1307-1312 | In any path, a rest-of-path placeholder is found under its own name. |
| `Wildcards.SplitMultiWildcardPython` | python/src/connectaip/__init__.py:84-106 | The loop cuts at the first occurrence of each separator in turn, for every value, malformed ones included. |
| `Wildcards.SplitMultiWildcardTypeScript` | internal/testproto/testts/test_aip.ts:64-85 | The TypeScript loop gives the same piece for every value, all separators, empty ones included, and every index up to the last wildcard, and nothing beyond. |
| `Wildcards.GoAgrees` | client.go:528-541 | With one separator and index 0 or 1 the general split equals the Go runtime's on every input. |
| `Wildcards.PiecesRebuild` | python/src/connectaip/__init__.py:84-106 | Joining all pieces with the separators rebuilds the text if and only if the separators occur in order. |
| `Wildcards.SplitThenJoin` | client.go:516-541 | For every prefix and non-empty separators, rebuilding a name from its pieces gives it back if and only if it has the prefix and the separators in order. |
| `Wildcards.PieceAvoidsSeparator` | client.go:520-525 | No piece but the last contains the separator that ends it; the last carries the whole remainder. |
| `Patterns.Sanitize` | cmd/protoc-gen-aip-go/main.go:951-956 | The name of a variable is the field path after its last dot. |
| `Patterns.WriteMulti` | cmd/protoc-gen-aip-go/main.go:980-988 | The inner loop writes one placeholder per wildcard with the literals between them, ready for the template meaning. |
| `Patterns.WriteVar` | cmd/protoc-gen-aip-go/main.go:924-1036 | The text of one variable shows exactly the tokens the template lemmas reason about, trailing literal and rest-of-path marker included. |
| `Patterns.CollectGoVars` | cmd/protoc-gen-aip-go/main.go:998-1045 | One variable per wildcard, in order, the first one carrying the field path. |
| `Patterns.CollectSharedVars` | cmd/protoc-gen-aip-py/main.go:380-492 | The same for the Python and TypeScript plugins. |
| `Patterns.GoGroup` | cmd/protoc-gen-aip-go/main.go:890-1052 | One brace group: the verb is looked up, remembered, and skipped when it comes next. |
| `Patterns.GoRound` | cmd/protoc-gen-aip-go/main.go:889-1057 | Every round of the loop consumes at least one byte and adds its variables and text to the result of the rest. |
| `Patterns.ParseURLPatternToServeMux` | cmd/protoc-gen-aip-go/main.go:883-1060 | The whole loop, for every pattern string, unbalanced braces included, computes the recursive parse: variables, path and verb. |
| `Patterns.SharedRound` | cmd/protoc-gen-aip-ts/main.go:486-598 | One round of the loop of the other two plugins. |
| `Patterns.ParsePathPattern` | cmd/protoc-gen-aip-py/main.go:380-492 | Their whole loop computes the recursive parse, in which a verb stays ordinary text. |
| `Agreement.VarTextAgrees` | cmd/protoc-gen-aip-go/main.go:941-949 | A verb changes the text of one variable only if the variable is rest-of-path, and then by three bytes. |
| `Agreement.LoopsAgree` | cmd/protoc-gen-aip-py/main.go:380-492 | Simulation of the two loops: same variables, same tokens once the Go verb is appended, up to three bytes for a rest-of-path variable with a verb. |
| `Agreement.PluginsAgree` | cmd/protoc-gen-aip-ts/main.go:486-598 | For every pattern string without a colon inside braces and with a verb only at the end: names, prefixes, separators and indices agree, and the Go path followed by the Go verb equals the other plugins' path if and only if no rest-of-path variable carries a verb. |
| `Fields.MultiIsExpanded` | cmd/protoc-gen-aip-go/main.go:958-1028 | A variable with several wildcards is written as one placeholder per wildcard, wherever it stands, and never as the rest of the path. |
| `Grammar.WriteParses` | cmd/protoc-gen-aip-go/main.go:883-1060 | For every text of the pattern grammar (literal segments, `{field}`, `{field=a/*/b}`, a verb at the end): exactly the variables, tokens and verb that the Go plugin reads out of it. |
| `Grammar.VerbIsTakenOffExactly` | cmd/protoc-gen-aip-go/main.go:930-940 | A verb at the end of such a text is taken off the path if and only if its last part is a variable with a wildcard. |
| `Grammar.RoutesExactly` | cmd/protoc-gen-aip-go/main.go:930-1036 | The path is one a mux can register, with the verb where the server expects it, if and only if there is no verb or it follows literal text or a wildcard that ends its variable. |
| `Grammar.SupportedExactly` | cmd/protoc-gen-aip-go/main.go:883-1060 | Which texts the end-to-end theorems are about: a text of the grammar with distinct variable names is a supported pattern if and only if its verb, if any, follows literal text or a wildcard that ends its variable. |
| `Grammar.FieldsWritten` | cmd/protoc-gen-aip-go/main.go:708-733 | The fields of such a text are its variables with a field path, in order, the verb on the last. |
| `Fields.ParseIsAligned` | cmd/protoc-gen-aip-go/main.go:883-1060 | For every pattern string the variables are the wildcards of the fields, in order, each knowing its field's prefix, separators, names and verb. |
| `Fields.AssignmentsAreFields` | cmd/protoc-gen-aip-go/main.go:708-733 | The generated literal assigns each field of the pattern once, although a field may own several variables. |
| `Fields.ParsePutsVerbOnLast` | cmd/protoc-gen-aip-go/main.go:930-940 | A verb at the end of the pattern is trimmed from the last field and from no other. |
| `Fields.PlaceholdersAreVariables` | cmd/protoc-gen-aip-go/main.go:883-1060 | The placeholders of the registered path are the variables' names in order, for every pattern string. |
| `Fields.RegisteredNames` | cmd/protoc-gen-aip-go/main.go:883-1060 | The names the mux captures under are those placeholders. |
| `Fields.ServerJoins` | cmd/protoc-gen-aip-go/main.go:736-806 | Reading the captured values through any list of names of the right length, trimming the verb off the last and joining with prefix and separators gives the fields of the values that were sent. |
| `Fields.RenamedToItself` | cmd/protoc-gen-aip-go/main.go:736-806 | Reading a route through its own names changes nothing. |
| `ServeMux.PathValueAt` | cmd/protoc-gen-aip-go/main.go:801-806 | With distinct placeholder names, PathValue of the i-th name is the i-th capture. |
| `Routing.MatchRequest` | cmd/protoc-gen-aip-go/main.go:883-1060 | Segment by segment: a request written for one template, in whatever encoding, matches the registered template of the same shape with exactly the values it was written for, or is not served. |
| `Routing.WrittenIsServed` | cmd/protoc-gen-aip-go/main.go:883-1060 | The same for whole paths: served if and only if the values are servable, and then captured, the verb after the last. |
| `Routing.RegisteredSegments` | cmd/protoc-gen-aip-go/main.go:883-1060 | The text of a routable template parses back into its literals and placeholders. |
| `Routing.ServedExactlyWhenServable` | client.go:188-209 | A path that a client filled, possibly with placeholders left in it, is served if and only if nothing that stands for a wildcard is empty, a lone slash, `.` or `..` where the mux would clean or refuse it (a verb counts as part of the last segment, a rest-of-path value segment by segment); then the captures are what stands there, decoded, with the verb after the last. |
| `RoundTrip.FilledPath` | client.go:267-278 | The clients' loops, by replace-first or replace-all, produce the template with every value whose placeholder the client found in its place, the others' placeholders untouched, and the verb at the end. |
| `RoundTrip.FoundHolesAreNamed` | cmd/protoc-gen-aip-go/main.go:1307-1312 | What the generators' search can get wrong: never a name, and never a rest-of-path placeholder; only a plain placeholder can be missed. |
| `RoundTrip.MissedExactly` | cmd/protoc-gen-aip-go/main.go:1307-1312 | Which ones: a variable is missed if and only if it has a wildcard, does not take the rest of the path, and its name ends the name of a variable that does or stands before `...` among the literals. |
| `RoundTrip.ServerCaptures` | cmd/protoc-gen-aip-go/main.go:883-1060 | From the client's values to the mux's captures, for every supported pattern and every codec: each value, or the text of a placeholder the client missed. |
| `RoundTrip.ServerGetsTheValues` | cmd/protoc-gen-aip-go/main.go:708-806 | From the client's values to the handler's fields: the handler joins what arrived if that is servable, and otherwise the request is lost, never misrouted to other values. |
| `EndToEnd.FieldComesBack` | client.go:520-541 | One field survives split and join if and only if it fits its pattern, the client can split it, and every placeholder that was missed is the very value it stands for. |
| `EndToEnd.SurvivesExactly` | client.go:260-278 | For every client, every valid codec, every supported pattern, every message and every registered path of the same shape: the path the client builds brings the handler the message's fields if and only if they fit the pattern, are servable, and reach the server: the client can split them, and each missed placeholder equals its value. |
| `EndToEnd.GoPathRoundTrip` | client.go:260-278 | The path the Go client builds: exactly the deliverable messages survive in which every missed placeholder equals its value and no field has more than two wildcards that are found; with three or more the message is otherwise lost or altered (the generator's own TODO). |
| `EndToEnd.PythonRoundTrip` | cmd/protoc-gen-aip-py/main.go:563-594 | The path the Python client builds, any number of wildcards: exactly the deliverable messages survive in which every missed placeholder equals its value. |
| `EndToEnd.TypeScriptRoundTrip` | cmd/protoc-gen-aip-ts/main.go:764-798 | The TypeScript client likewise, although it deletes the first occurrence of the prefix instead of stripping it. |
| `EndToEnd.ReachesWhenFound` | cmd/protoc-gen-aip-go/main.go:1301-1341 | When every placeholder is found the extra condition is gone, but for the Go client's limit of two wildcards a field. |
| `EndToEnd.SharedTemplate` | cmd/protoc-gen-aip-py/main.go:380-492 | The path the other plugins write is the path and verb the Go plugin registers, and their clients find the same placeholders in it. |
| `EndToEnd.OwnRoute` | cmd/protoc-gen-aip-go/main.go:883-1060 | A route registered under its own path reads its own names, so the theorems apply to it. |
| `Examples.EveryNameSurvives` | cmd/protoc-gen-aip-go/main.go:873-883 | The hypotheses are met: for every pattern of one variable `{field=literal/*}` with a verb, the path the Go client builds is exact for every wildcard value, slashes, dots, percent signs and trailing verbs included; so is the request, for every such pattern whose bytes net/url leaves alone, and exactly for undisturbed messages otherwise. |
| `NetUrl.SentExactly` | client.go:280-316 | A path parsed into a URL and written on the request line goes out unchanged if and only if each of its bytes may stand in a raw path, and otherwise in the default encoding of what it says. |
| `Reencoding.ParsedOnly` | cmd/protoc-gen-aip-go/main.go:883-1060 | The parser writes no characters into path and verb but the pattern's own and those of numbered names. |
| `Reencoding.PathDecodes` | client.go:260-278 | The path a client builds is a URL path if and only if its literal segments decode; decoded it says the literals, the values and the placeholders that were left. |
| `Reencoding.TemplateBytes` | client.go:260-278 | It is made of raw bytes if and only if its literals are and no placeholder is left. |
| `Reencoding.AlikeWhenApart` | client.go:280-316 | When every text of the path stays one segment once it is decoded, the path encoded anew is served by every route of the pattern's shape exactly as the path that was built. |
| `Reencoding.ApartWhenServed` | client.go:280-316 | Conversely: if the path encoded anew is served and the rest-of-path value, if any, keeps its number of segments, then every text had stayed one segment. The proof counts slashes, of which encoding anew hides none. |
| `GoWire.SentAsBuiltExactly` | client.go:280-316 | What becomes of the Go client's path depends on the pattern alone: no request if and only if a literal does not decode; the path as built if and only if every placeholder is found and the literals are raw bytes; the path encoded anew otherwise. |
| `GoWire.SteadyIsAlike` | client.go:280-316 | With literals that mean the same once decoded and slashes only in a rest-of-path value, a path encoded anew is served and answered as the one that was built. |
| `GoWire.AnsweredIsSteady` | client.go:280-316 | If a request encoded anew is answered with the message's fields, its literals and values were of that kind. |
| `GoWire.GoRoundTrip` | client.go:260-316 | The Go client over the request that goes out, for every supported pattern, message and registered path of the same shape: the handler sees the fields that were sent if and only if the message is deliverable, every missed placeholder equals its value, no field has more than two wildcards that are found, and the path is undisturbed: its literals decode, and it goes out as built or has slashes only in its rest-of-path value. |
| `GoWire.PlainIsUndisturbedExactly` | client.go:280-316 | For a pattern without escapes, all of whose bytes net/url leaves alone, the path is undisturbed if and only if no placeholder is missed or no value but a rest-of-path one contains a slash. |
| `Counterexamples.RestWithVerbDisagrees` | cmd/protoc-gen-aip-ts/main.go:486-598 | For every pattern `/a/{f=b/*/c}:verb`: the Go plugin registers `{f...}`, the others fill `{f}` and the verb. |
| `Counterexamples.PluginsDisagree` | cmd/protoc-gen-aip-ts/main.go:486-598 | At `/v1/{name=files/*/x}:go`: `/v1/files/{name...}` with verb `:go`, against `/v1/files/{name}:go`. |
| `Counterexamples.BareVerbStays` | cmd/protoc-gen-aip-go/main.go:930-940 | For every pattern `/a/{f}:verb`: the verb stays in the path, which no mux can register. |
| `Counterexamples.BareVerb` | cmd/protoc-gen-aip-go/main.go:930-940 | At `/v1/{id}:go`, although AIP-127 reads `{id}` as `{id=*}`. |
| `Grammar.RestInsideExactly` | cmd/protoc-gen-aip-go/main.go:941-949 | Something follows a rest-of-path placeholder if and only if a slash is put after a text of the grammar whose last part is a variable with exactly one star that is not last in its path; without that slash, nothing ever does. |
| `Grammar.MuxRefusesExactly` | cmd/protoc-gen-aip-go/main.go:941-949 | So the registration that panics because `{name...}` is not the last segment is that of exactly those texts. |
| `Counterexamples.RestThenSlash` | cmd/protoc-gen-aip-go/main.go:941-949 | For every pattern `/a/{f=b/*/c}/`: the slash counts as the end, the path is `/a/b/{f...}/`, and no mux registers a segment after `{f...}`. |
| `Counterexamples.TrailingSlash` | cmd/protoc-gen-aip-go/main.go:941-949 | At `/v1/{name=files/*/x}/`: the path is `/v1/files/{name...}/`, with an empty segment after the rest of the path. |
| `Counterexamples.MissedAlways` | cmd/protoc-gen-aip-go/main.go:1307-1312 | For every pattern `/a/{e=b/*}/{f=c/*/d}` in which f's name ends in e's: the first placeholder is missed, and its field comes back as `b/{e}`, whatever was sent; the same of the request that goes out, when net/url leaves the pattern's bytes alone. |
| `Counterexamples.MissedAltered` | cmd/protoc-gen-aip-go/main.go:1307-1312 | At `/v1/{e=a/*}/{name=files/*/x}` with `a/k`: from the request that goes out the handler reads `a/{e}`. |
| `Counterexamples.ThreeAlways` | cmd/protoc-gen-aip-go/main.go:1327-1332 | For every pattern `/p/{f=a/*/b/*/c/*}` and every name that fits it: the Python client's handler reads the name, the Go client's reads `a/N/b/N/c/N` for the whole name N, from the path as built and, when net/url leaves the pattern's bytes alone, from the request. |
| `Counterexamples.ThreeWildcardsAltered` | cmd/protoc-gen-aip-go/main.go:1327-1332 | At `/v1/{name=a/*/b/*/c/*}` with `a/1/b/2/c/3`. |
| `WireCounterexamples.MixedIsDisturbed` | client.go:260-316 | For every pattern `/p/{e=a/*}/{g=b/*}/{f=c/*/d}` in which f's name ends in e's but not in g's, with the value `{e}` for e and one with a slash for g: the path that is built would bring every field back, the request that goes out does not. |
| `WireCounterexamples.MixedIsLost` | client.go:260-316 | At `/v1/{e=a/*}/{g=b/*}/{name=files/*/x}` with `a/{e}`, `b/p/q` and `files/n`: the message is deliverable and reaches, `/v1/a/%7Be%7D/b/p/q/files/n` goes out, and the route does not match it. |
| `Dispatch.FirstMatch` | cmd/protoc-gen-aip-go/main.go:669-677 | The case taken is the first whose verb ends the value; no earlier one applies. |
| `Dispatch.ReachedExactlyWhenSuffixFree` | cmd/protoc-gen-aip-go/main.go:669-688 | Every value followed by a verb reaches that verb's route if and only if no verb of the group is a suffix of another. |
| `Dispatch.ColonVerbsAreSuffixFree` | cmd/protoc-gen-aip-go/main.go:930-940 | Distinct verbs made of a colon and colon-free text are always suffix-free. |
| `Dispatch.OtherwiseBase` | cmd/protoc-gen-aip-go/main.go:679-686 | A value reaches the base route, or NotFound without one, if and only if it ends in none of the verbs. |
| `Dispatch.OrderDoesNotMatter` | cmd/protoc-gen-aip-go/main.go:672-677 | With suffix-free verbs the order of the cases is irrelevant. |
| `Normalize.NormalizeBlanks` | cmd/protoc-gen-aip-go/main.go:472-479 | The regular-expression replacement on the path text blanks the placeholders' names and keeps the rest-of-path marks. |
| `Normalize.ShowIsInjective` | cmd/protoc-gen-aip-go/main.go:472-479 | Two templates with the same text are the same template. |
| `Normalize.SameKeySameCount` | cmd/protoc-gen-aip-go/main.go:446-447 | Equal keys mean equally many placeholders, so the guard `j < len(basePVs)` never fails. |
| `Normalize.SameKeySameShape` | cmd/protoc-gen-aip-go/main.go:468-479 | For routable paths the keys are equal if and only if the paths differ at most in placeholder names. |
| `Grouping.Rename` | cmd/protoc-gen-aip-go/main.go:448-454 | Renaming one variable writes its slot and the slice its run shares, keeps the route's memory valid and changes no other slot. |
| `Grouping.RemapVars` | cmd/protoc-gen-aip-go/main.go:446-456 | Remapping one route in place leaves exactly the owner's names in its slots, and every shared slice in step. |
| `Grouping.SlotsTellAll` | cmd/protoc-gen-aip-go/main.go:373-380 | What a handler reads through the shared `names` slices equals the names of the slots of its run. |
| `Grouping.RenamingSlotsRenamesVars` | cmd/protoc-gen-aip-go/main.go:448-454 | So renaming the slots renames the variables as read through the records, for single and multi-wildcard fields. |
| `Grouping.FileRoute` | cmd/protoc-gen-aip-go/main.go:402-423 | One round of the first loop files a route under its key and notes a new key at the end of the order. |
| `Grouping.Collect` | cmd/protoc-gen-aip-go/main.go:397-423 | After the first loop each key holds the group of exactly the routes with that key, the keys in order of first appearance. |
| `Grouping.OwnerOwnsThePath` | cmd/protoc-gen-aip-go/main.go:417-422 | The registered path of a group is its owner's: the base route's, else the first verb route's. |
| `Grouping.EveryRouteIsGrouped` | cmd/protoc-gen-aip-go/main.go:397-423 | Every route ends up in exactly one group, that of its key, if and only if no two base routes share a key; otherwise the earlier base route is dropped. |
| `Grouping.OwnerIsNotRemapped` | cmd/protoc-gen-aip-go/main.go:434-444 | The route whose names win is never renamed itself, and no route is renamed twice. |
| `Grouping.RemapOne` | cmd/protoc-gen-aip-go/main.go:445-457 | Renaming one route leaves the memory of all other routes alone. |
| `Grouping.RemapGroup` | cmd/protoc-gen-aip-go/main.go:432-458 | All routes of one group take the owner's names, nothing else changes. |
| `Grouping.RemapAll` | cmd/protoc-gen-aip-go/main.go:432-458 | The second loop over all groups. |
| `Grouping.InOrder` | cmd/protoc-gen-aip-go/main.go:460-465 | The result lists the groups in order of first appearance. |
| `Grouping.GroupRoutes` | cmd/protoc-gen-aip-go/main.go:397-466 | The whole function on shared memory: the groups of the keys in order, and every route's slots as the owner's names or untouched. |
| `Grouping.RegroupedAll` | cmd/protoc-gen-aip-go/main.go:425-458 | After it, exactly the routes that do not own their group carry the owner's names. |
| `RouteMemory.AllocateBlock` | cmd/protoc-gen-aip-go/main.go:998-1021 | The copies of one multi-wildcard record share one slice of names and differ in their index. |
| `RouteMemory.WiredSum` | cmd/protoc-gen-aip-go/main.go:1007-1021 | Adding the records of another field keeps the wiring: runs follow one another and share nothing. |
| `RouteMemory.AllocateSlots` | cmd/protoc-gen-aip-go/main.go:883-1060 | All variables of a pattern are laid out in fresh memory that describes them exactly. |
| `RouteMemory.NewRoute` | cmd/protoc-gen-aip-go/main.go:822-871 | A parsed route lies in memory of its own, valid, with the path, verb and variables of its pattern. |
| `Registration.RegroupedAssignments` | cmd/protoc-gen-aip-go/main.go:708-733 | Renaming the variables of a route renames the fields its literal reads and nothing else. |
| `Registration.SameKeySameRoute` | cmd/protoc-gen-aip-go/main.go:404-407 | Supported patterns with the same key have the same number of variables and the same route. |
| `Registration.FinalVars` | cmd/protoc-gen-aip-go/main.go:432-458 | The variables each grouped route ends up with: its own ones under the placeholders of the group's path. |
| `Registration.HandlersReadTheirFields` | cmd/protoc-gen-aip-go/main.go:397-466 | After grouping, the names each handler reads are, in order, the placeholders of the path its group registers. |
| `Registration.GroupedRoundTrip` | cmd/protoc-gen-aip-go/main.go:397-466 | Grouping is invisible to the Go client: what it sends to a regrouped route is answered as if the route were registered alone, with the same exact condition. |
| `Registration.DispatcherSeesLastValue` | cmd/protoc-gen-aip-go/main.go:652-669 | The dispatcher compares the last value the client sent, decoded, followed by the route's verb. |
| `Registration.VerbRequestsReachTheirRoute` | cmd/protoc-gen-aip-go/main.go:672-677 | From client to dispatcher: a request made for a verb reaches that verb's case, whatever the values. |
| `Registration.BaseRequestsReachTheBase` | cmd/protoc-gen-aip-go/main.go:679-682 | A request made for the base route reaches it if and only if its last value does not itself end in a verb of the group. |
| `ServiceRoutes.RegisterService` | cmd/protoc-gen-aip-go/main.go:307-341 | Parsing all rules it is given and grouping them establishes, in shared memory, the state the results below start from. |
| `ServiceRoutes.EveryHandlerAnswers` | cmd/protoc-gen-aip-go/main.go:307-341 | In a registered service, behind the path of its own group, every route hands the message of a Go client's request on unchanged if and only if the message survives that route's own pattern and net/url, reading its names through the renamed shared slices. |
| `ServiceRoutes.EveryRuleIsServed` | cmd/protoc-gen-aip-go/main.go:397-423 | Every rule of the service is held by a group if and only if no two verb-less rules share a path up to names. |
| `ServiceRoutes.DispatcherReadsLastPlaceholder` | cmd/protoc-gen-aip-go/main.go:652-663 | The names of the group's owner in memory are the placeholders of the registered path, so the dispatcher asks the mux for a name it captures. |
| `ServiceRoutes.VerbRouteIsReached` | cmd/protoc-gen-aip-go/main.go:649-701 | In a registered service with suffix-free verbs, every request a client makes for a verb route reaches that route. |
| `ServiceRoutes.BaseRouteIsReachedExactly` | cmd/protoc-gen-aip-go/main.go:649-701 | A request for the base route reaches it if and only if its last value ends in no verb of the group. |
| `ServiceMux.PickedExactly` | forward.go:28-32 | Among patterns a mux accepts, a group gets a request if and only if its path matches and no group with a more specific path takes it. |
| `ServiceMux.ExactlyOnePicked` | forward.go:28-32 | A request that some group's path matches goes to exactly one group. |
| `ServiceMux.RouteChosen` | cmd/protoc-gen-aip-go/main.go:669-688 | The dispatcher chooses a route if and only if no earlier case applies: for the base route, no verb ends the value; for a verb route, no verb before its own does. |
| `ServiceMux.RequestIsAnswered` | cmd/protoc-gen-aip-go/main.go:307-341 | One request through the whole service, net/url, mux, dispatcher and handler: what the Go client sends for a route is answered by that route's own handler with the fields of the message if and only if the message survives path and net/url, no group with a more specific path takes the request, and no earlier case of the dispatcher applies to the last wildcard's value. |
| `RuntimeCounterexamples.BaseValueTaken` | cmd/protoc-gen-aip-go/main.go:669-682 | At the verb `:g` and the base value `x:g`: the verb's route is taken. |
| `RuntimeCounterexamples.VerbShadowed` | cmd/protoc-gen-aip-go/main.go:672-677 | At the verbs `:list` and `:a:list`, in this order: a request for the second reaches the first. |
| `RuntimeCounterexamples.TwoBaseRoutes` | cmd/protoc-gen-aip-go/main.go:417-422 | At `/v1/a/{name}` and `/v1/a/{id}`, both without a verb: the first is in no group. |
| `RuntimeCounterexamples.LiteralTakesOver` | forward.go:28-32 | A literal path is more specific than one with a placeholder in its last segment, and takes the request whose value is that literal. |
| `RuntimeCounterexamples.SpecialTaken` | forward.go:28-32 | At `/a/{name}` and `/a/special`. |
| `SseTransport.ReplaceEncoded` | client.go:56-65 | One replacement in escaped space is one replacement in decoded space, wherever the match is. |
| `SseTransport.EscapedSpaceIsDecodedSpace` | client.go:56-65 | The same for any sequence of replacements, partial ones included. |
| `SseTransport.SubstitutePath` | client.go:44-81 | For every request URL, whatever raw path came with it: decoding never fails; the new URL has the substituted raw path and its decoding, or is untouched when nothing was replaced; and the path net/http writes is that raw path. When the old path goes out in its own encoding, the new path is the old one with the yielded values substituted. |
| `NetUrl.PlaceholderHidesRawPath` | client.go:50-56 | It does so whenever the URL had no raw path or one that shows a placeholder: what goes out then depends on the decoded path alone. |
| `NetUrl.TextIsKeptExactly` | client.go:50-56 | For every URL text with a placeholder in it: what goes out is that text with only its braces encoded if and only if every other unit of it, byte or escape, is as the default encoding writes it. An escaped slash is not. |
| `NetUrl.BaseIsKeptExactly` | client.go:50-56 | So the literal part of a base URL in front of a template keeps its encoding if and only if its own units are in that form. |
| `RuntimeCounterexamples.EncodedSlashIsLost` | client.go:50-56 | At `/a%2Fb/{n}`: `/a/b/%7Bn%7D` goes out, and with a value v for n the path is `/a/b/v`. |
| `SseTransport.SentAsIntended` | client.go:71-79 | Raw path and path agree and the raw path is a valid encoding, so net/http writes the escaping that was intended. |
| `SseTransport.TemplateIsRaw` | client.go:50-57 | The escaped form of a template keeps each placeholder as its own percent-encoding, so one that is not yielded stays a valid encoding. |
| `NetUrl.EncodingDecodes` | client.go:71-79 | Whatever is written this way decodes without error and contains no raw brace. |
| `SseTransport.StepFills` | client.go:62-64 | A safe step puts the value in the place of its own placeholder. |
| `SseTransport.EveryValueInItsPlace` | client.go:62-64 | If no step finds its placeholder's text earlier in the path, all values end in their own places, in both URL forms. |
| `SseTransport.StepIsSafeExactly` | client.go:62-64 | A step is right for every value if and only if the placeholder's text does not occur before the placeholder: the exact condition, since substituted values are searched again here. |
| `SseTransport.MisledStep` | client.go:62-64 | When it does occur, the replacement goes to the wrong place, shown for a concrete value. |
| `SseTransport.OnlyValuesContain` | client.go:62-64 | In a template whose placeholders are followed by a slash or the end, that can only happen inside a substituted value. |
| `SseTransport.ValuesWithoutPlaceholders` | client.go:62-64 | So values that contain no later placeholder make every step safe. |
| `NetUrl.EncodingCarries` | client.go:50-79 | The mux reads the same value out of every encoding that leaves slashes alone, and cleans the one exactly when it would clean the other. |
| `SseServer.RawPathIsServed` | client.go:50-79 | The raw path of a template, partly or wholly filled, is served by every route of its shape if and only if what stands for its placeholders is servable; the captures are that, an unfilled placeholder arriving as its own text. |
| `SseServer.StreamIsServed` | client.go:44-81 | A streaming call meets its route: when no step is misled, the path sent for a pattern's template is captured with exactly the yielded values, the verb after the last, if they are servable, and is not served otherwise. |
| `RuntimeCounterexamples.MisledUrl` | client.go:62-64 | At `/{a}/{b}` with `{b}` for a and `x` for b: the result is `/x/{b}`. |
| `EventLines.DecimalFlagsAgree` | python/src/connectaip/__init__.py:297-302 | On decimal flags parseInt and int() read the same number. |
| `EventLines.StepsAgree` | internal/testproto/testts/test_aip.ts:161-186 | On lines without a trailing carriage return and with decimal flags, the Python and TypeScript line handlers make the same events and end in the same state. |
| `EventLines.FramingIsUndone` | internal/testproto/testts/test_aip.ts:161-186 | Both clients read back every framed payload: of one line, several lines, or empty, with its flags. |
| `EventBatches.FirstBatch` | internal/testproto/testts/test_aip.ts:189-200 | Processing a first batch whole does what its events do one at a time, for streams in which nothing follows an error trailer and no message fails to parse after another was emitted. |
| `EventBatches.BatchingDoesNotMatter` | internal/testproto/testts/test_aip.ts:189-204 | Such a stream has one outcome, however it is cut into batches. |
| `EventBatches.FindStop` | internal/testproto/testts/test_aip.ts:161-186 | An unstable stream has a first event at which it goes wrong. |
| `EventBatches.UnstableDependsOnCuts` | internal/testproto/testts/test_aip.ts:189-204 | Every unstable stream has two cuts with different outcomes, so the condition is exact. |
| `EventStream.NothingIsLost` | internal/testproto/testts/test_aip.ts:193-196 | Lines processed plus the buffer are the text received so far, and the buffer holds no newline. |
| `EventStream.ChunkingDoesNotMatter` | cmd/protoc-gen-aip-ts/main.go:737-752 | For every stable text, every split into chunks yields the same items and the same final outcome as the whole text. |
| `EventStream.CutIsRealised` | cmd/protoc-gen-aip-ts/main.go:738-748 | Every cut of the events is realised by some split of the text into chunks. |
| `EventStream.ChunkingDoesNotMatterExactly` | cmd/protoc-gen-aip-ts/main.go:704-755 | For every text, all chunkings agree if and only if the text is stable: no event follows an error trailer except the same error again, and no message fails to parse after another was yielded. |
| `EventClients.Reader.ProcessLine` | internal/testproto/testts/test_aip.ts:161-186 | One line updates flags, data, pending items and the trailer's error as the line machine says; it throws exactly when a message fails to parse. |
| `EventClients.Reader.ProcessLines` | internal/testproto/testts/test_aip.ts:196-196 | The same for a batch of lines. |
| `EventClients.Reader.Flush` | internal/testproto/testts/test_aip.ts:197-199 | The pending items and the trailer's error are handed over together, as the items and the end of an outcome, and no item stays pending. |
| `EventClients.Reader.Read` | internal/testproto/testts/test_aip.ts:190-200 | One round of the read loop processes the completed lines and keeps the remainder. |
| `EventClients.Reader.Finish` | internal/testproto/testts/test_aip.ts:201-204 | After the last chunk the buffer counts as a line and a blank line follows. |
| `EventClients.StreamSSE` | cmd/protoc-gen-aip-ts/main.go:704-755 | The whole generator yields the items and the end of the specified stream. |
| `EventClients.ParseLine` | python/src/connectaip/__init__.py:283-310 | One round of the Python loop. |
| `EventClients.ParseSseStream` | python/src/connectaip/__init__.py:279-310 | The whole Python loop yields the items and the end of the line-by-line outcome. |
| `EventClients.ClientsAgreeExactly` | python/src/connectaip/__init__.py:279-310 | On common lines ending with a blank one, whose events both clients decode alike, the TypeScript client agrees with the Python one for every chunking if and only if the stream is stable. |
| `EventClients.TrailersDisagree` | python/src/connectaip/__init__.py:64-76 | Their trailer tests do differ: a trailer that is an error to one and none to the other ends the two streams differently. |
| `RuntimeCounterexamples.EmptyErrorTrailer` | cmd/protoc-gen-aip-ts/main.go:716-720 | At the trailer `{"error":{}}`, whose error object is true in TypeScript and false in Python. |
| `RuntimeCounterexamples.OneItemOrNone` | cmd/protoc-gen-aip-ts/main.go:737-752 | At `data: 1`, blank, `data: !`, blank, where `!` does not parse: no item in one chunk, one item in two; the text is not stable. |
| `EventClients.FramedPayloadsArrive` | internal/testproto/testts/test_aip.ts:155-208 | Framed payloads that both clients decode alike arrive through either, in any chunking, as the same items and outcome. |
| `Sorting.SortIsSorted` | cmd/protoc-gen-aip-py/main.go:261-261 | Sorting gives a sorted list, distinct if the input was. |
| `Sorting.SortedListIsUnique` | cmd/protoc-gen-aip-py/main.go:302-302 | There is one sorted list of a set of strings. |
| `Sorting.SortForgetsOrder` | cmd/protoc-gen-aip-py/main.go:261-261 | Sorting forgets the order in which strings came. |
| `PyResolver.TakenAreFew` | cmd/protoc-gen-aip-py/main.go:266-271 | Pigeonhole: the candidates tried and found taken are no more than the names in use, so the unbounded loop ends. |
| `PyResolver.Pick` | cmd/protoc-gen-aip-py/main.go:265-271 | The alias picked is not in use. |
| `PyResolver.PickAlias` | cmd/protoc-gen-aip-py/main.go:264-271 | The loop finds the first free candidate. |
| `PyResolver.AssignedAreDistinct` | cmd/protoc-gen-aip-py/main.go:263-274 | All aliases are pairwise distinct and differ from every reserved name. |
| `PyResolver.OrderIsForgotten` | cmd/protoc-gen-aip-py/main.go:252-275 | The alias table depends only on the set of registered sources. |
| `PyResolver.ModulesAreDistinct` | cmd/protoc-gen-aip-py/main.go:281-291 | The local file, well-known types and other files are referred to through pairwise distinct module names. |
| `PyResolver.ListingIsUnique` | cmd/protoc-gen-aip-py/main.go:298-303 | The printed list of well-known modules does not depend on map order. |
| `PyResolver.Resolver.constructor` | cmd/protoc-gen-aip-py/main.go:215-221 | A new resolver has registered nothing. |
| `PyResolver.Resolver.RegisterSource` | cmd/protoc-gen-aip-py/main.go:227-246 | Registering adds the source and keeps the cached table, where there is one, equal to a fresh computation; an early return never leaves a stale table. |
| `PyResolver.Resolver.ReservedNames` | cmd/protoc-gen-aip-py/main.go:256-259 | The names reserved before any alias is picked, whatever the map order. |
| `PyResolver.Resolver.EnsureAliases` | cmd/protoc-gen-aip-py/main.go:252-275 | Afterwards the cache is filled and equals a fresh computation; sources are not touched. |
| `PyResolver.Resolver.ResolveSource` | cmd/protoc-gen-aip-py/main.go:281-291 | The expression uses the module a fresh computation would give. |
| `PyResolver.Resolver.SortedBases` | cmd/protoc-gen-aip-py/main.go:298-302 | The well-known bases, listed once each in order. |
| `PyResolver.Resolver.ImportLines` | cmd/protoc-gen-aip-py/main.go:295-314 | One import per well-known base and per other source, in sorted order, under the alias of the table. |
| `PyResolver.SameSourcesSameNames` | cmd/protoc-gen-aip-py/main.go:252-275 | Two resolvers of the same file that registered the same sources in different orders give the same names. |
| `QueryParams.SprintParses` | forward.go:165-172 | A printed integer parses back to itself if and only if it is in the signed range of the width. |
| `QueryParams.SprintParsesUnsigned` | forward.go:173-180 | The same for the unsigned range. |
| `QueryParams.ValueComesBack` | forward.go:161-184 | A set value comes back from its query text exactly for the kinds both sides carry; an enum's text is never accepted. |
| `QueryParams.FindField` | forward.go:148-154 | A key finds the field with that JSON name, else the one with that name, else none. |
| `QueryParams.Message.Set` | forward.go:162-184 | Setting a field; a zero value leaves it unset, as proto3 fields without presence do. |
| `QueryParams.ApplyKey` | forward.go:144-193 | One round of the loop: repeated keys, unknown keys, fields already set and unparsable values change nothing. |
| `QueryParams.ApplyQueryParams` | forward.go:140-195 | The loop, for whatever order the runtime picks, folds the keys in that order. |
| `QueryParams.FirstHitWins` | forward.go:157-159 | A field set from the path keeps its value; any other gets that of the first key that names it. |
| `QueryParams.OrderDoesNotMatterExactly` | forward.go:144-193 | The result is the same for every map order if and only if no unset field is given different values by two keys. |
| `QueryParams.ExtractQuery` | cmd/protoc-gen-aip-go/main.go:1434-1483 | The generated extractor's loop builds the specified query. |
| `QueryParams.SentFieldHits` | cmd/protoc-gen-aip-go/main.go:1447-1478 | Each field sent is found again on the server under its own name, and set if its kind is carried. |
| `QueryParams.FieldAfterQuery` | forward.go:115-118 | Each field after the trip: the original value, or unset exactly when it was neither in the path nor of a carried kind. |
| `QueryParams.QueryRoundTrip` | forward.go:115-195 | Given the path fields unchanged, path variables plus query rebuild the whole message, in every map order, if and only if every set field is in the path or of a carried kind. |
| `RuntimeCounterexamples.EnumIsLost` | forward.go:161-184 | At an enum field with value 1: it is sent as `1` and the message arrives empty, in every map order. |
| `GetRequests.GetRoundTrip` | forward.go:115-195 | A whole GET request of the Go client, path and query together, as it goes out: the message the method is called with is the one that was sent, in every map order of the query, if and only if its path fields survive path and net/url and its other set fields are of a carried kind. |
| `RelativePath.PosixRel` | cmd/protoc-gen-aip-ts/main.go:401-420 | The two loops compute the relative path that the results below are about. |
| `RelativePath.RelLeadsThere` | cmd/protoc-gen-aip-ts/main.go:398-420 | Following the relative path from the directory leads to the target, for all normalised inputs. |
| `RelativePath.ImportLeadsThere` | cmd/protoc-gen-aip-ts/main.go:386-393 | So does the import path after `./` was added, and it always starts with `./` or `../`. |
| `RelativePath.UpsNeeded` | cmd/protoc-gen-aip-ts/main.go:407-414 | Every path from one directory to the target leaves all of the directory below the common prefix. |
| `RelativePath.RelIsShortest` | cmd/protoc-gen-aip-ts/main.go:401-420 | No relative path to the target has fewer `..` steps. |

## Left out

- Real HTTP, protobuf and JSON encoding, reflection, logging: parsing a message or a trailer is an arbitrary total function (`Decoder`), a message is a map from field path to value.
- The connect-sse client and server, and gzip, are not part of this model.
- Text emission: the decision behind an emitted line is modelled, its spelling only where clients depend on it.
- Error-code and status tables, header precedence, interceptors, telemetry, `sanitizeAny`: finite tables and one-branch facts.
- Loopback.EveryRunRefinesTheHandler: the handler is one sequential writer; handlers that write from goroutines of their own are outside. The Content-Length the transport parses from the headers is left out, and whether a handler reads the request body is not visible in the steps.
- ServeMux's redirects, its host part, and its matching of HEAD requests by GET patterns: a path the mux would clean counts as not served. That it panics on conflicting patterns is the hypothesis `ServiceMux.Registrable`.
- ServiceRoutes.EveryHandlerAnswers: looks at one group's own path; `ServiceMux.RequestIsAnswered` adds the mux over all groups and the dispatcher.
- Strings are byte strings; text encodings are not modelled, so the streaming decoder's handling of a character split between chunks is outside, and a value is a sequence of octets.
- Base URLs: the Go client's requests are about a base URL without a path of its own; for the streaming transport `NetUrl.BaseIsKeptExactly` says what happens to one, and a brace in a base URL is outside.
- EndToEnd.GoPathRoundTrip: covers the patterns that `Supported` holds of. Of the grammar of AIP-127 with distinct variable names, `Grammar.SupportedExactly` names the only ones missing, verbs that the code leaves on a path no mux can register. Outside that grammar: `**` and other empty separators, a verb in mid-pattern, several wildcards in one segment, a binding without a wildcard such as `{name=shelf}`, duplicate variable names, the pattern `/` and patterns that end in a slash (which ServeMux reads as a subtree), verbs that contain `.` or `%`, and variable names that contain `%`.
- GoWire.GoRoundTrip: requires a pattern whose bytes can stand in the path of a URL, so without `?`, `#`, control characters and characters above U+00FF, at which `url.Parse` would cut or refuse the text; the theorems that rest on it require the same.
- EndToEnd.PythonRoundTrip: is about the path as the client builds it, and so is the theorem about TypeScript; what httpx and fetch make of a path is not modelled.
- Wildcards.SplitMultiWildcardPython: requires non-empty separators, since `str.partition` raises an exception on an empty one; empty ones come only from `**`.
- EndToEnd.PythonRoundTrip: requires in addition no colon inside braces and no rest-of-path wildcard with a verb, where `Agreement.PluginsAgree` proves the paths differ; the same holds for the TypeScript client.
- Fields.AssignmentsAreFields: a nested field path is one name; messages in which two path variables share a nested parent are outside, as is a field path that names no field.
- ServiceMux.RequestIsAnswered: a group's method is its rules' own; that a group with a streaming route is registered under POST is left out.
- ServiceRoutes.RegisterService: skipping of client-streaming methods and of rules with non-string path fields happens before the list of rules the method takes.
- SseServer.StreamIsServed: the template has no `%`, which `url.Parse` would decode, and the base URL no path of its own.
- SSE extraction of path variables from JSON: multi-wildcard fields are not split there by the source; the transport takes the yielded pairs as given.
- EventLines.StepsAgree: flags beyond 2^53, digits outside ASCII, lines ending in a carriage return and the further line separators of httpx are outside, since the two languages differ there.
- The alias table of the TypeScript resolver, which depends on registration order by design: it would only repeat the Python one with fewer properties.
- GetRequests.GetRoundTrip: path variables name string fields of the message itself; nested ones are outside, as in the query.
- EventClients.ClientsAgreeExactly: takes what the two decoders make of an event as given, and asks that they agree on the events of the stream.
- QueryParams.QueryRoundTrip: float, repeated, optional and nested query parameters are outside; a key's values are one text or several.
- The merge of body and path variables in `ForwardWithPathVars`: one call of a library function.
- `normalizePathToIdentifier` and other identifier spelling.
