# js-console: the playground's message protocol in Dafny

This project models the core of a browser JavaScript playground. The user's code runs inside a sandboxed frame. The host page and the frame talk over `postMessage`:

- the host posts a `run` request carrying the source text, tagged `playground-parent`;
- the frame replaces `console.log` and `console.error` with relays, evaluates the code, and posts `log` and `error` messages back, tagged `playground`;
- the frame posts one `ready` message when it loads.

The host keeps a log sequence of display lines. It reloads the frame only when the frame's document differs from the fixed sandbox document.

Modules, leaves first:

- `Wrappers`: `Option`.
- `Js`: JavaScript values as they cross the channel (`Value`), and truthiness.
- `Text`: `Join` (Array `join`) and `Split`, with the split-after-join round trip.
- `Protocol`: message data, the two origin tags, the four kinds, and the filter each endpoint applies.
- `Sandbox`: the frame's document (`SrcDoc`, the exact text the host compares against), the relays, what one run request makes the frame send (`Reply`), and a `Runtime` class holding everything the frame has posted.
- `Host`: line formatting, the listener as a function on the log sequence (`HostStep`, `Deliver`), and a `Controller` class with the fields the page updates in place: `logs`, the frame's `srcdoc`, and an outbox of posted run requests.
- `Scenarios`: host and sandbox together. Covers ordering, a thrown error, the formatting example, and a first run of the default code.

`JSON.stringify` and `String(x)` are foreign library behaviour, so every operation that uses them takes them as parameters:

- `json(v)` is `None` when `JSON.stringify(v)` throws, and otherwise the text `join` shows for its result;
- `str(v)` is `None` when `String(v)` throws (an object whose `toString` is not callable), and otherwise its result.

Every property is proved for all such functions. What one evaluation of the user's code does is also a parameter (`Evaluation`): its console calls in order, then possibly an uncaught exception. So is `readError(v)`, the message of the TypeError raised by reading `stack` of a thrown `null` or `undefined`.

Conversions on the host side can throw, and the model keeps those paths:

- A `JSON.stringify` that throws (a cyclic object, a BigInt) aborts the host's listener, and no line is appended. `FormatLog` returns `None` then, and `HostStep` leaves the log unchanged.
- The frame posts `err.stack || err` as the `error` payload, which can be any value, so the host applies `String(...)` to a non-string payload. When that throws, again no line is appended.
- When the user's code throws `null` or `undefined`, reading `err.stack` throws inside the inner handler. The outer handler then posts the TypeError's message instead.

## Model

| member | source | states |
|---|---|---|
| `Text.Join` | src/App.tsx:52 | joining parts gives the empty string for no parts, and otherwise starts with the first part |
| `Text.SplitJoin` | src/App.tsx:50-52 | round trip: when no part contains the separator, splitting the joined line at it gives back exactly the parts |
| `Protocol.Send` | src/App.tsx:19-21 | every message the frame sends carries the sandbox tag, passes the host's filter, is never taken as a run request, and has the given kind and payload |
| `Protocol.RunRequest` | src/App.tsx:77 | the host's run request passes the frame's filter, is ignored by the host's own filter, and carries the code |
| `Protocol.HostAcceptsExactly` | src/App.tsx:45-46 | the host acts on a message if and only if it is an object whose `source` is exactly `playground` |
| `Protocol.SandboxAcceptsExactly` | src/App.tsx:27 | the frame runs a message if and only if it is an object whose `source` is `playground-parent` and whose `type` is `run` |
| `Protocol.DirectionsDisjoint` | src/App.tsx:46 | no message is acted on by both endpoints |
| `Sandbox.SrcDoc` | src/App.tsx:12-41 | the sandbox document is fixed, independent of the code to run, and non-empty, so it differs from an empty frame |
| `Js.Truthy` | src/App.tsx:27 | (also the tests at lines 31 and 46) a value is truthy exactly when it is not `undefined`, `null`, `false`, `0` or the empty string |
| `Sandbox.Relay` | src/App.tsx:22-23 | `console.log(...args)` is relayed as a `log` message carrying the whole argument list; `console.error(err)` as an `error` message carrying the text `String(err)` computed in the frame |
| `Sandbox.ThrownPayload` | src/App.tsx:30-35 | the reported payload is the TypeError's message when `null` or `undefined` was thrown, otherwise the stack when it is truthy, otherwise the thrown value; it is falsy only when it is the thrown value |
| `Sandbox.RelayAll` | src/App.tsx:22-23 | one relay per console call, in call order |
| `Sandbox.Reply` | src/App.tsx:25-32 | a message that is not a run request makes the frame send nothing; a run request makes it send one relay per console call, in order, then, if the code threw, one `error` carrying `ThrownPayload`; it never sends `ready` |
| `Sandbox.Runtime.Bootstrap` | src/App.tsx:22-37 | a freshly loaded frame has sent exactly one message, `ready`, and keeps the invariant that `ready` is first and never repeated |
| `Sandbox.Runtime.OnMessage` | src/App.tsx:25-32 | the frame's listener appends exactly `Reply` to what the frame has sent, and keeps the readiness invariant |
| `Host.Items` | src/App.tsx:49 | an array payload gives its own elements; any other payload gives the one-element list of itself |
| `Host.Render` | src/App.tsx:51 | an item renders exactly when it is a string or JSON-encodable: a string as itself, anything else as its JSON encoding |
| `Host.RenderAll` | src/App.tsx:50-51 | rendering succeeds if and only if every item is a string or JSON-encodable; then item i is shown verbatim if it is a string and as its JSON encoding otherwise |
| `Host.FormatLog` | src/App.tsx:48-52 | a log line exists if and only if every payload item can be rendered; a string payload is its own line |
| `Host.HostStep` | src/App.tsx:44-63 | handling a message only appends to the log, at most one line, and a message rejected by the origin filter changes nothing |
| `Host.Deliver` | src/App.tsx:64 | handling a stream of messages only appends, at most one line per message |
| `Host.LogMessageLine` | src/App.tsx:48-53 | an accepted `log` message appends one line exactly when every item renders; that line is the rendered items joined by single spaces |
| `Host.LogLineSplits` | src/App.tsx:49-52 | when every item is a string without a space, the log line splits at spaces back into exactly those strings |
| `Host.NonArrayPayload` | src/App.tsx:49 | a payload that is not an array is formatted as a one-element list |
| `Host.ErrorText` | src/App.tsx:55-58 | the error text exists exactly when the payload is a string or `String(payload)` does not throw; it is the payload itself for a string and `String(payload)` otherwise |
| `Host.ErrorMessageLine` | src/App.tsx:54-59 | an accepted `error` message appends one line exactly when the error text exists: `Error: ` followed by the payload if it is a string and by `String(payload)` otherwise; otherwise the log is unchanged |
| `Host.ReadyMessageLine` | src/App.tsx:60-61 | an accepted `ready` message appends exactly `[sandbox ready]` |
| `Host.OtherKindIgnored` | src/App.tsx:48-62 | an accepted message of any other kind leaves the log unchanged |
| `Host.DeliverConcat` | src/App.tsx:44-64 | handling two batches of messages in turn is the same as handling their concatenation |
| `Host.DeliverCons` | src/App.tsx:44-64 | handling one message and then a batch is the same as handling the longer batch |
| `Host.NoiseIgnored` | src/App.tsx:45-46 | a stream of messages none of which carries the sandbox tag leaves the log unchanged |
| `Host.Controller.constructor` | src/App.tsx:9-10 | a fresh page has an empty log, a frame with no document, no load and nothing posted; the invariant holds: the outbox holds only run requests and the frame is loaded at most once, exactly when it holds `SrcDoc` |
| `Host.Controller.OnMessage` | src/App.tsx:44-63 | the listener sets the log to `HostStep` of the old log; frame, document, outbox and load count are unchanged, and the invariant is kept |
| `Host.Controller.RunCode` | src/App.tsx:68-87 | the log is emptied. Without a frame nothing else changes. With a frame, it reloads exactly when the document differs from `SrcDoc`, the document equals `SrcDoc` afterwards, and exactly one run request carrying the code is posted on either branch. The load count grows by one exactly on a reload and never exceeds one |
| `Host.Controller.Clear` | src/App.tsx:108 | the log is emptied; frame, document, outbox and load count are unchanged, and the invariant is kept |
| `Host.RunClearRun` | src/App.tsx:73-74 | on a fresh frame the first run reloads, and a run after a clear does not reload (so no new `ready`); both run requests are posted and the frame has been loaded exactly once |
| `Scenarios.LogRelayLine` | src/App.tsx:48-53 | the relay of a renderable `console.log` call appends its formatted line |
| `Scenarios.LogLines` | src/App.tsx:48-53 | renderable `console.log` calls are shown as exactly one line per call |
| `Scenarios.LogLinesAt` | src/App.tsx:48-53 | line k is the formatting of call k's arguments, so lines keep call order |
| `Scenarios.DeliverLogRelays` | src/App.tsx:22 | handling the relays of renderable `console.log` calls appends exactly their lines to the log |
| `Scenarios.LogsThenThrow` | src/App.tsx:28-35 | a run with N renderable `console.log` calls followed by an exception leaves the old log, then the N log lines in call order, then one `Error: ` line with the text of `ThrownPayload`, which is missing only when the host's `String` throws on it. N = 0 is code that does not compile |
| `Scenarios.LastMessage` | src/App.tsx:28-35 | the exception's report is handled after every relay of the run: the final log is the report's step applied to the log after the relays |
| `Scenarios.ThrownErrorLine` | src/App.tsx:30-35 | whatever was logged before, a thrown `null` or `undefined` ends the log with `Error: ` and the TypeError's message, and any other exception with a non-empty stack ends it with `Error: ` and that stack |
| `Scenarios.FormattingExample` | src/App.tsx:50-52 | `console.log("a", 1, {x:2})` is shown as `a 1 {"x":2}` |
| `Scenarios.HelloWorldSession` | src/App.tsx:68-87 | the first run of the default code on a fresh page shows `[sandbox ready]` and then `Hello world!` |

## Left out

- React rendering, hook lifecycle, the Monaco editor and the page layout (src/App.tsx:43, 64-65, 89-124) are UI shell. The code to run is a parameter of `RunCode`, and the console pane's `join('\n')` is not modelled.
- The 50 ms delay before posting after a reload (src/App.tsx:75-80) is timing. `Host.Controller.RunCode` posts immediately on both branches. The model therefore does not capture the race in which a run posted before the new document has installed its listener is lost.
- `Host.Controller.RunCode` does not itself create the new `Sandbox.Runtime` that a reload starts. The caller does that, as `Scenarios.HelloWorldSession` shows, because the page holds no reference to the frame's execution context.
- Dynamic evaluation of the code (`new Function(code)()`, src/App.tsx:29) is an `Evaluation` parameter: the console calls made and the exception thrown, if any.
- `Sandbox.Reply`: the outer `catch` (src/App.tsx:33-35) is modelled only for a thrown `null` or `undefined`, whose report is the non-empty TypeError message `readError(v)`. The `e.message || e` fallback to the error object itself is not modelled, since engine TypeError messages are non-empty. Nor is a post that fails because the thrown value cannot be structured-cloned (a function, say), after which the outer `catch` reports the DataCloneError: `Js.Value` holds only values that cross the channel.
- The concrete text produced by `JSON.stringify` and `String(...)`, and the wording of engine TypeError messages, are foreign library behaviour, so these enter as the parameters `json`, `str` and `readError`.
- `console.error(err)` in the frame applies `String(err)` before posting; a conversion that throws there is an exception of the user's code and appears in the model as the `Evaluation`'s thrown value.
- `postMessage` and `addEventListener` transport semantics, the `'*'` target origin, the `contentWindow` null check and the frame's `sandbox` attribute are browser plumbing (src/App.tsx:20, 25, 76-84, 112-117). Messages are delivered in the order they were sent.
- Numbers are integers in `Js.Value`. Floating point, `NaN` and `-0` are not modelled, and neither is their truthiness.
