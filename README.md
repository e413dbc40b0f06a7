# kvclient-js paging cursors, in Dafny

This project models the client-side paging cursor of the Oracle NoSQL Database
Node.js driver (kvclient-js), together with the pure helpers the driver uses to
launch its proxy.

A store iterator lives on the server, and the client holds one page of it at a
time. The page is a `buffer` of rows, read at position `index`. The server's
`hasMore` flag says whether another page exists. Further pages come from
`kvClient.iteratorNext`, which answers asynchronously.

- `rows.dfy` (module `Rows`) holds the row record `{jsonRow, row}` and
  `parseRow`. `parseRow` decodes `jsonRow` into `row` and then deletes
  `jsonRow`. `JSON.parse` is a parameter `decode: string -> J` and is left
  uninterpreted.
- `iterators.dfy` (module `Iterators`) models the `Iterator` of
  lib/Iterator.js. It covers `next`, `getCurrent`, `forEach`, `close` and the
  completion handlers of their `iteratorNext` requests. The closure state is
  given twice:
  - as the value `Cursor`, with one step function per operation; the lemmas
    are about these functions;
  - as the class `Iterator`, whose fields are updated in place and whose
    methods are proved to perform exactly those steps.

  A request and its answer are separate steps. The request goes on a
  `pending` list, and `IteratorNextReturned` later delivers the page. Any
  order in which calls and answers arrive from outside can therefore be
  written as a sequence of `Event`s and run with `Run`. Calls that a callback
  makes into the iterator while it runs are not events of `Run`; the window
  they open in the `next` handler is modelled separately (see below). Callback invocations, "finish" emissions
  and `iteratorClose` forwards are recorded in logs that are part of the
  state.
- `streams.dfy` (module `Streams`) models the `Readable` of lib/Readable.js.
  It is the same cursor driven by a pull-stream runtime. Its state is given
  both as the value `Source` and as the class `Readable`. The runtime calls
  `_read`, and every `push` is appended to a log of chunks.
- `proxy.dfy` (module `Proxy`) models the following helpers of lib/Proxy.js:
  - `getPortFlag`, `getHostsFlag` and `getStoreFlag`;
  - the defaults of `new ProxyConfiguration()`;
  - `validateConfiguration`.

  JavaScript values are the datatype `JsValue`, with `typeof`, truthiness
  and string conversion.

The model follows the code as written, including the following behaviour:

- Iterator:
  - No operation ever sets `closed`, so every ITERATOR_CLOSED branch is
    unreachable.
  - The closed check in `next` would not return.
- `next`:
  - On a used-up page, every call reports NO_MORE_ELEMENTS and emits
    "finish", including a call that also requests another page.
  - Its completion handler does not take `hasMore` from the answer, and
    never clears `buffering`.
  - Its completion handler calls the callback while `index` is still 0, and
    runs `index++` only afterwards (lib/Iterator.js:111-112). A `getCurrent`
    made from that callback delivers `undefined`. A `next` made from it
    delivers the page's first row a second time, and the second row is then
    skipped.
  - An empty page delivers `undefined` and leaves the position at 1.
- `getCurrent` before the first `next` delivers `undefined`.
- `Readable`:
  - An empty page makes the completion handler throw at
    lib/Readable.js:95, after the position has moved to 1.
  - `buffering` then stays set, and the stream only pushes `''` from then on.
- `getHostsFlag`:
  - `typeof` never yields `'array'`, so the array branch is dead.
  - An array of hosts is converted by string conversion, which joins with
    commas.
- `validateConfiguration` checks ten properties in order and does not check
  `username` or `security`.

## Model

| member | source | states |
|---|---|---|
| Rows.ParseRowEffect | lib/Iterator.js:75-82 | after `parseRow` a row has no truthy `jsonRow` (an empty `jsonRow` is kept); a row with a truthy `jsonRow` gets `row = decode(jsonRow)` and loses `jsonRow`; a row is left unchanged exactly when it had no truthy `jsonRow` |
| Rows.ParseRowIdempotent | lib/Iterator.js:75-82 | parsing a row twice gives the same row as parsing it once |
| Rows.ParseAtEffect | lib/Iterator.js:75-82 | `parseRow(buffer[i])` keeps the page's length; it changes no row other than the one at `i`; it leaves that row parsed; an index outside the page (`undefined`) changes nothing |
| Iterators.InitState | lib/Iterator.js:60-74 | a new iterator starts at position 0 with `length = buffer.length - 1`; buffer, `hasMore` and handle come from the result; it is not buffering, not closed, and has no request, report or finish |
| Iterators.NextFromBuffer | lib/Iterator.js:99-103 | with an unread row, `next` reports that row parsed, with no error; the position advances by exactly 1 and only that row of the page changes; `hasMore`, `buffering` and requests are unchanged, and there is no finish |
| Iterators.NextExhausted | lib/Iterator.js:104-117 | on a used-up page, `next` reports NO_MORE_ELEMENTS and emits one finish in the same call; it issues one `iteratorNext` and sets `buffering` exactly when `hasMore` holds; page and position are unchanged |
| Iterators.NextResponse | lib/Iterator.js:106-114 | answering a `next` request retires it; a page replaces the buffer and its first element, parsed (`undefined` for an empty page), goes to the same callback with position 1, and nothing else changes; in particular `hasMore` is not updated and `buffering` is not cleared; a null answer changes nothing else |
| Iterators.NextResponseInTwoPhases | lib/Iterator.js:107-112 | the handler first installs the page and calls the callback with the position at 0, and only then advances the position; the two phases together are the answer step |
| Iterators.NestedCallsInNextHandler | lib/Iterator.js:107-131 | on a two-row page, a `getCurrent` from inside the handler's callback delivers `undefined`, and a `next` from inside it delivers the first row again; after the handler returns the position is 2, so the following `next` reports NO_MORE_ELEMENTS instead of the second row |
| Iterators.GetCurrentReadsOnly | lib/Iterator.js:121-131 | `getCurrent` changes nothing except the report log; it reports the row at `index - 1` (`undefined` before the first `next`) when `index - 1 <= length`, and reports nothing otherwise |
| Iterators.GetCurrentRepeats | lib/Iterator.js:121-131 | two `getCurrent` calls in a row deliver the same outcome and leave the rest of the state as it was |
| Iterators.ForEachDrainsPage | lib/Iterator.js:134-163 | one `forEach` reports the unread rows parsed, in order, and ends at position `buffer.length` with those rows parsed in place; it then issues exactly one request (if `hasMore`) or emits exactly one finish (if not), never both |
| Iterators.ForEachResponse | lib/Iterator.js:145-153 | answering a `forEach` request with a page replaces the buffer and takes `hasMore` from the answer, resets the position to 0 and runs `forEach` again; a null answer only retires the request |
| Iterators.CloseForwards | lib/Iterator.js:166-173 | `close` on an open iterator forwards the callback to `iteratorClose` and changes nothing else; in particular `closed` stays false |
| Iterators.StepInv | lib/Iterator.js:94-173 | every operation and every answer keeps the invariant: never closed; position at most one past the page; rows before the position parsed; no ITERATOR_CLOSED report |
| Iterators.RunInv | lib/Iterator.js:94-173 | the invariant holds after any sequence of calls and answers |
| Iterators.NeverClosed | lib/Iterator.js:89-98 | from construction, whatever calls and answers follow, the iterator is never closed and no callback ever receives ITERATOR_CLOSED |
| Iterators.NextInOrder | lib/Iterator.js:99-103 | `n` calls of `next` within the page report the next `n` rows, parsed and in order; the position advances by `n`; there is no request and no finish |
| Iterators.NextAfterEndFinishesEachTime | lib/Iterator.js:104-117 | once the page is used up and `hasMore` is false, `n` further `next` calls emit `n` finishes and `n` NO_MORE_ELEMENTS reports, and issue no request |
| Iterators.ForEachDrainsAll | lib/Iterator.js:134-163 | if each request is answered with the next page and only the last page says there is no more, the callback sees the unread rows and then every row of every page, parsed and in order; finish fires exactly once and no request remains |
| Iterators.Iterator.constructor | lib/Iterator.js:60-69 | the fields hold the initial cursor state |
| Iterators.Iterator.ResetIndexes | lib/Iterator.js:71-74 | sets `index = 0` and `length = buffer.length - 1` |
| Iterators.Iterator.ParseRowAt | lib/Iterator.js:75-82 | parses the row at `i` in place in the buffer field |
| Iterators.Iterator.IsClosed | lib/Iterator.js:89-91 | answers the `closed` field |
| Iterators.Iterator.Next | lib/Iterator.js:94-118 | updates the fields exactly as one `next` step does |
| Iterators.Iterator.GetCurrent | lib/Iterator.js:121-131 | updates the fields exactly as one `getCurrent` step does |
| Iterators.Iterator.ForEach | lib/Iterator.js:134-163 | updates the fields exactly as one `forEach` step does |
| Iterators.Iterator.DepleteBuffer | lib/Iterator.js:140-160 | the `while (true)` loop: it parses and reports every unread row in order, ends at the end of the page, queues one request if `hasMore`, and answers `lastEntry = !hasMore` |
| Iterators.Iterator.ReportRow | lib/Iterator.js:142-144 | one pass of the loop: the row at `index` is parsed in place and reported, and `index` advances by one |
| Iterators.Iterator.Close | lib/Iterator.js:166-173 | updates the fields exactly as one `close` step does |
| Iterators.Iterator.IteratorNextReturned | lib/Iterator.js:106-114 | answers request `k` by running the handler its caller installed, exactly as the answer step specifies |
| Iterators.Iterator.NextHandler | lib/Iterator.js:107-113 | the handler of `next`: the page replaces the buffer, its first element is parsed and delivered, position becomes 1, and `hasMore` is kept |
| Iterators.Iterator.ForEachHandler | lib/Iterator.js:147-152 | the handler of `forEach`: page and `hasMore` replace the fields, the position resets, and `forEach` runs again |
| Streams.InitState | lib/Readable.js:68-78 | a new Readable starts at position 0 with `length = buffer.length - 1`; it is not buffering, has no request outstanding and no pushes, and takes `hasMore` and the handle from the result |
| Streams.ReadFromBuffer | lib/Readable.js:83-86 | with an unread row, `_read` pushes that row's raw `jsonRow`, unparsed, advances the position by exactly 1 and changes nothing else |
| Streams.ReadExhausted | lib/Readable.js:87-108 | on a used-up page, `_read` issues a request only when `hasMore` holds and no request is pending; it pushes `''` while more is expected and `null` otherwise; page and position are unchanged |
| Streams.ResponseWithPage | lib/Readable.js:89-101 | a non-empty answer replaces the buffer, takes `hasMore`, pushes the first raw row and leaves the position at 1; `buffering` is cleared with or without a result, and errors are not pushed |
| Streams.ResponseWithEmptyPage | lib/Readable.js:90-96 | an empty page makes the handler throw after the position becomes 1; `buffering` stays set, so a `_read` after it pushes `''` and leaves everything else as it was, and the stream never ends |
| Streams.StepInv | lib/Readable.js:81-109 | every `_read` and every answer keeps the invariant: at most one request outstanding; one outstanding exactly while buffering unless a handler threw; position within the page unless a handler threw |
| Streams.AtMostOneRequest | lib/Readable.js:87-106 | from construction, whatever the runtime and the store do, at most one fetch is outstanding; the position stays within the page unless an empty page was received |
| Streams.ThrowsOnlyOnEmptyPage | lib/Readable.js:95 | if no answer is an empty page, no completion handler throws |
| Streams.ReadsInOrder | lib/Readable.js:83-86 | `n` reads within the page push the next `n` raw rows in order and advance the position by `n` |
| Streams.ReadsWhileBuffering | lib/Readable.js:87-106 | while a request is outstanding, any number of `_read` calls only push `''`, one each, and request nothing more |
| Streams.StreamDrainsAll | lib/Readable.js:81-109 | a full run over non-empty pages where only the last says there is no more, with any number of `_read` calls while each fetch is outstanding, pushes the unread raw rows; then, per later page, `''` for the requesting read, one `''` per read made while the fetch was outstanding, and the page's raw rows; then `null`; no request remains |
| Streams.EndOfStreamOnce | lib/Readable.js:108 | in such a run `null` is pushed exactly once, as the last chunk |
| Streams.ChunksNeverEnd | lib/Readable.js:85 | pushing a row's `jsonRow` never pushes `null`; there is one chunk per row |
| Streams.Readable.constructor | lib/Readable.js:68-78 | the fields hold the initial stream state |
| Streams.Readable.Push | lib/Readable.js:85 | appends the chunk to the pushed chunks |
| Streams.Readable.Read | lib/Readable.js:81-109 | updates the fields exactly as one `_read` step does |
| Streams.Readable.IteratorNextReturned | lib/Readable.js:89-101 | updates the fields exactly as the completion handler's step does |
| Proxy.IndexOf | lib/Proxy.js:59 | `indexOf` answers -1 exactly when the character is absent; otherwise it answers the position of its first occurrence |
| Proxy.PortFlagAfterFirstColon | lib/Proxy.js:58-64 | for `host:port` with no colon in `host`, the flag is `' -port ' + port`, or `''` when the port is empty |
| Proxy.PortFlagWithoutColon | lib/Proxy.js:58-64 | without a colon, the whole string is used as the port |
| Proxy.StoreFlagIff | lib/Proxy.js:89-94 | a store flag is produced if and only if the store is a non-empty string, and it is then `' -store ' + store` |
| Proxy.HostsFlagBranch | lib/Proxy.js:66-87 | `typeof` never answers `'array'`; a falsy value gives `''`, and any truthy value gives `' -helper-hosts '` plus its string conversion |
| Proxy.HostsFlagOfArray | lib/Proxy.js:74-83 | an array of hosts, even an empty one, becomes `' -helper-hosts '` plus the hosts joined with commas |
| Proxy.FirstUndefinedSpec | lib/Proxy.js:140-151 | the first-undefined reference accepts if and only if no listed field is undefined; otherwise it names an undefined field before which every field is defined |
| Proxy.ValidateIsFirstUndefined | lib/Proxy.js:140-151 | `validateConfiguration` rejects with the first undefined of `startProxy`, `host`, `KVCLIENT_JAR`, `PROXY_HOME`, `kvStoreName`, `kvStoreHelperHosts`, `readZones`, `requestTimeout`, `socketOpenTimeout`, `socketReadTimeout`, in that order, and accepts when none is undefined |
| Proxy.TypeOfUndefined | lib/Proxy.js:141 | `typeof v === 'undefined'` holds of `undefined` only, not of `null` |
| Proxy.ValidateAcceptsIff | lib/Proxy.js:140-151 | validation succeeds if and only if all ten checked properties are defined |
| Proxy.DefaultConfigurationValid | lib/Proxy.js:124-137 | a fresh `ProxyConfiguration` passes validation, whatever the environment |
| Proxy.DefaultHostsFlag | lib/Proxy.js:130 | the default helper hosts give the flag `' -helper-hosts localhost:5000'` |
| Proxy.DefaultStoreFlag | lib/Proxy.js:129 | the default store name gives the flag `' -store kvstore'` |

## Left out

- `JSON.parse` is the uninterpreted parameter `decode`. A `jsonRow` that is not valid JSON, which makes `JSON.parse` throw, is not modelled.
- Row metadata other than `jsonRow` and `row` is not modelled, because neither cursor reads it.
- Logging (`kvLogger`, and `console.log` of a fetch error in lib/Readable.js) is dropped. A fetch error is therefore only a change of `buffering`.
- The error argument of the `iteratorNext` handlers is not modelled. The handlers in lib/Iterator.js ignore it, and lib/Readable.js only logs it.
- Iterators.NextResponse: calls that the callback makes into the iterator are not part of the answer step. The step delivers the first row and sets the position to 1 at once, while lib/Iterator.js:111-112 calls the callback with `index` still 0. That window, and what nested `getCurrent` and `next` calls see in it, is stated only by `NextResponseInTwoPhases` and `NestedCallsInNextHandler`; `Run` has no event for a nested call.
- Iterators.Iterator.NextHandler: callbacks never call into the iterator. The method performs both phases of lib/Iterator.js:111-112 in one call, so no call can run between the callback and `index++`.
- Calls made from inside a `forEach` callback (lib/Iterator.js:142-143), which see the position already advanced past the reported row, are not events of `Run` either.
- `callback || function(){}` in `next` is not modelled. A callback is an identifier, and its invocations are logged.
- Node's EventEmitter is not modelled. "finish" is a counter of emissions, and no listener runs.
- The answer of `iteratorClose` is not modelled. `close` records the forwarded callback; the store's reply to it is not part of this model.
- The stream runtime's scheduling, its back-pressure and the return value of `push` are not modelled. `_read` is an event that may occur at any time, and the model does not stop pushing after `null`.
- A handler that throws (an empty page in lib/Readable.js) is recorded as a flag. What Node does with the uncaught exception is not modelled.
- Aliasing is not modelled. A row delivered to a callback is a value, so a caller that mutates a delivered row does not change the buffer.
- The `length` field is not a separate piece of state in the cursor values. The classes keep `length == |buffer| - 1` as their `Valid()` invariant.
- The error values `Errors.ITERATOR_CLOSED`, `Errors.NO_MORE_ELEMENTS` and `Errors.ERROR_IN_PARAMETER` are not defined in lib/Errors.js. Errors are modelled by kind, and a rejected configuration by the property's name.
- The module-level `parseRow` of lib/Readable.js (lines 53-60) is not modelled. `_read` never calls it.
- `process.env.KVSTORE_HOME_DIR` and the normalised proxy directory of `new ProxyConfiguration()` are parameters. `path.normalize` is not modelled.
- `getPortFlag` on a value that is not a string is not modelled; there `indexOf` does not exist and the call throws.
- Numbers in `JsValue` are integers. Every number the configuration uses is an integer, so floating point is not modelled.
- `getProxyClasspath`, `checkJava`, `startProxy`, `stopProxy` and `readProxyConfiguration` are not modelled. They depend on child processes, the file system, timers, `process.platform` and thrift connections.
- lib/Store.js, lib/Types.js, lib/TableOperations.js, lib/Configuration.js, lib/Errors.js and kvclient.js are not part of this model. They are RPC wrappers, generated types, constants and wiring.
