# monsoon `/run` core in Dafny

Monsoon is a small Go web server. It passes a prompt to a local large-language-model binary and returns the completion. This project models the deterministic core of its `POST /run` handler:

- **Invocation builder** (`invocation.dfy`). The server keeps its configuration in seven strings: the working directory, the binary, the model, the prompt file, the GPU layer count, the thread count and the context size. The builder turns them into the binary path `wd/bin` and one argument string: `-m wd/model -t threads --temp 0 -c contextSize -ngl gpuLayers --file wd/promptFile -r "[Question]" -p`. Both `fmt.Sprintf` calls use only `%s` verbs, so each is a concatenation. The model also defines the same arguments as an ordered word list. It proves that joining the list with spaces gives the argument string. When no setting contains a space, splitting the string at spaces gives the list back.
- **Response sanitizer** (`sanitizer.dfy`). `strings.ReplaceAll(completion, input, "")` becomes `RemoveAll`. It is a single left-to-right pass that removes non-overlapping matches. An empty input leaves the completion unchanged. `text.dfy` supplies `Index`, `Split` and `Join`, in the sense of Go's `strings` package. These are used to state what one pass removes and how many characters it removes.
- **Handler control flow** (`handler.dfy`). `Run` is a pure function of three things: the configuration, the decoder's outcome, and two opaque functions that stand for the client constructor `local.New` and the client call `llm.Call`. It returns two things. The first is the response: a status code and the sequence of body writes, under `net/http`'s rule that the first status code written wins and a body written first is sent with 200. The second is a trace of the client creations and calls the handler made.

Configuration is an immutable `Config` record. In the source, the same values are package-level variables set once by `init`.

## Model

| member | source | states |
|---|---|---|
| `Text.IndexCorrect` | main.go:96 | the leftmost-match search that `ReplaceAll` relies on: it returns a match with no match before it, and it returns nothing only when there is no match anywhere |
| `Sanitizer.RemoveAll` | main.go:96 | the sanitized completion is never longer than the raw completion |
| `Sanitizer.RemovedLength` | main.go:96 | sanitized length = completion length − k·\|input\|, where k counts the non-overlapping left-to-right matches |
| `Sanitizer.CountPositiveIffOccurs` | main.go:96 | a non-empty input is removed at least once exactly when it occurs in the completion |
| `Sanitizer.UnchangedIffAbsent` | main.go:96 | the completion comes back unchanged if and only if the input is empty or does not occur in it |
| `Sanitizer.LeadingEchoDropped` | main.go:95-96 | an echoed input at the start is dropped: RemoveAll(input + rest, input) == RemoveAll(rest, input) for every input and every rest |
| `Sanitizer.EchoOnlyStripped` | main.go:95-96 | when the text after the echo does not repeat the input, the result is exactly that text |
| `Sanitizer.EchoExample` | main.go:96 | "Xhello" with input "X" becomes "hello" |
| `Sanitizer.SinglePassMayLeaveMatch` | main.go:96 | one pass can leave an occurrence behind: "aabb" with input "ab" becomes "ab" |
| `Sanitizer.RemoveIsSplitJoin` | main.go:96 | removing all occurrences equals splitting at them and joining the pieces with nothing between |
| `Invocation.Path` | main.go:76-79 | `dir/file` is the directory, one `/`, then the file, with nothing else added |
| `Invocation.BinPathShape` | main.go:76 | the binary path is the working directory, then `/`, then the configured binary |
| `Invocation.Build` | main.go:76-90 | the client gets the binary `wd/bin` (the working directory, one `/`, the configured binary) and the ordered word list joined with single spaces as its arguments; the request input is its prompt |
| `Invocation.BuildIgnoresInput` | main.go:76-90 | under one configuration, every request gets the same binary and the same argument string; only the prompt differs |
| `Invocation.ArgsIsJoinedList` | main.go:77-79 | the argument string is the ordered word list joined with spaces |
| `Invocation.ArgsEnds` | main.go:77-79 | the argument string starts with `-m wd/model -t ` and ends with `-r "[Question]" -p` |
| `Invocation.FlagsInFixedOrder` | main.go:77-79 | the flags are always -m, -t, --temp, -c, -ngl, --file, -r, -p, in that order |
| `Invocation.FlagValues` | main.go:77-79 | each flag is followed by its configured value; --temp is followed by 0 and -r by the quoted stop marker |
| `Invocation.ArgsSplitBack` | main.go:77-79 | when no setting contains a space, splitting the argument string at spaces gives back the word list |
| `Invocation.ArgsCarrySettings` | main.go:77-79 | when no setting contains a space, each setting can be read back from the string after its flag |
| `Invocation.ArgsDetermineSettings` | main.go:77-79 | when no setting contains a space, equal argument strings mean equal threads, context size, GPU layers, model path and prompt-file path |
| `Invocation.SpacesMakeArgsAmbiguous` | main.go:77-79 | without that condition, ambiguity is possible under every configuration: a thread count ending in ` --temp 0 -c b` gives the same argument string as a different thread count whose context size starts with `b --temp 0 -c ` |
| `Handler.HttpError` | main.go:93 | `http.Error` (here and at main.go:72 and main.go:86) appends its message to the body and fixes the given status only when no status was written before; an earlier status wins |
| `Handler.EncodeJson` | main.go:104 | the JSON encoder appends the reply to the body and leaves the status as it was: 200 when nothing was written before, otherwise the earlier status |
| `Handler.Sanitized` | main.go:96-103 | the reply carries the request's input and a response no longer than the completion |
| `Handler.Run` | main.go:65-104 | the status is 200, 400 or 500; it is 400 exactly on a decode failure, which is also exactly when no client is created or called; something is always written; a JSON reply carries the decoded input |
| `Handler.DecodeFailureStops` | main.go:70-74 | a decode failure gives 400 with the decoder's message as the only write; no client is created or called |
| `Handler.CreateFailureStops` | main.go:80-88 | a construction failure gives 500 with its error as the only write, after exactly one creation attempt with the configured binary and arguments and no call |
| `Handler.CallFailureFallsThrough` | main.go:90-104 | a failed call gives 500 with its error, followed by a JSON reply holding the input and the sanitized completion |
| `Handler.SuccessReplies` | main.go:90-104 | a successful call gives 200 and exactly one JSON reply {input, completion with the input removed}; the trace is one creation and one call |
| `Handler.OneCallPerRequest` | main.go:80-90 | once the client exists, it is called exactly once, with the input as the prompt |
| `Handler.EchoRoundTrip` | main.go:90-104 | input "X" with the answer "Xhello" gives 200 and {"input": "X", "response": "hello"} |
| `Handler.EmptyInputForwarded` | main.go:90-96 | an empty input is passed to the client, and the completion comes back unchanged |
| `Handler.RunIntended` | main.go:91-94 | with a `return` after a failed call, every request gets exactly one write, and that write is JSON exactly when the status is 200 |
| `Handler.IntendedCallFailureStops` | main.go:91-94 | with the `return` restored, a failed call gives 500 with its error as the only write |
| `Handler.IntendedAgreesOtherwise` | main.go:65-104 | the corrected handler differs from the one as written only when the call fails |

In these places the model follows the code:

- The binary path has a `/` between the working directory and the binary.
- The numeric settings are passed through as strings, unchecked.
- A failed call does not end the request. It writes 500 and its error, and a JSON reply follows in the same body.
- One pass of `ReplaceAll` does not guarantee that the input is gone from the result (`SinglePassMayLeaveMatch`). The model proves what a single pass does guarantee, and no more.

## Left out

- `init` (main.go:30-46): loading `.env`, `os.Getwd` and `os.Getenv` are environment I/O. The configuration is a given `Config` value.
- `main` and `index` (main.go:48-62): the router, middleware, static file server, template rendering and `ListenAndServe` are network and file I/O.
- JSON decoding and encoding (main.go:70, 104): decoding is an abstract `Decoded` / `DecodeError` value. Encoding is a `JsonReply` write, without its text form.
- `local.New` and `llm.Call` (main.go:80-90): these run a subprocess through a library that is not part of this model. They are function parameters. How that library splits the argument string into words is not modelled. `ArgsSplitBack` states only what splitting at spaces recovers.
- Logging (main.go:85, 92) and concurrent request handling: neither changes what one request produces.
- Response headers: the Content-Type and X-Content-Type-Options headers set by `http.Error` are not modelled. Neither are the newlines that `http.Error` and the JSON encoder append after each write. Failed writes to the client are not modelled either.
- Bytes versus characters: Go compares strings byte by byte, and the model compares characters. `RemoveAll`, `Index`, `Split` and `Join` are generic in the element type and read the same over bytes. For valid UTF-8 input, the two give the same matches.
- `fmt.Sprintf` in general: only the two `%s`-only formats of the handler are modelled, as concatenations.

## Findings

| source | as written | input that shows it | evidently intended | confidence | as-written member | corrected member |
|---|---|---|---|---|---|---|
| main.go:91-94 | after a failed `llm.Call`, `http.Error` writes 500 and the error, but there is no `return`, so the handler goes on to encode a JSON reply into the same body | input "X"; the call fails with error "exit status 1" and completion "": the body is the error text followed by `{"input":"X","response":""}` under status 500 | return after writing the 500, as the decode and construction error paths do (main.go:73, 87) | medium, not executed | `Handler.CallFailureFallsThrough` | `Handler.IntendedCallFailureStops` |
