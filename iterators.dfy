/** The paging cursor of lib/Iterator.js: one page of rows held client-side, a
    read position, and the server's `hasMore` flag. Further pages come from
    `kvClient.iteratorNext`, which answers asynchronously; a request and its
    answer are two separate steps here, so every interleaving the event loop
    allows can be expressed.

    The cursor state is given twice: as the value `Cursor` with one step
    function per operation (the specification, about which the lemmas speak),
    and as the class `Iterator`, whose methods update the fields in place and
    are proved to perform exactly those steps. */
module Iterators {
  import opened Rows

  /** Identifies the caller-supplied callback of one call. */
  type CallbackId = nat

  datatype IteratorError = IteratorClosed | NoMoreElements

  /** What one invocation of a callback receives: `callback(err)` or
      `callback(null, value)`, where the value may be `undefined` (None). */
  datatype Outcome<J> = Failed(error: IteratorError) | Value(value: Option<Row<J>>)

  datatype Delivery<J> = Delivery(callback: CallbackId, outcome: Outcome<J>)

  /** The completion handler an outstanding `iteratorNext` request will run:
      the one `next` installs (line 106) or the one `forEach` installs (line 146). */
  datatype Continuation = ResumeNext(callback: CallbackId) | ResumeForEach(callback: CallbackId)

  /** The closure state of one Iterator, together with what it has done so far:
      the callback invocations in order, the "finish" emissions, the
      `iteratorNext` requests still awaiting an answer (in issue order) and the
      callbacks forwarded to `iteratorClose`. */
  datatype Cursor<J> = Cursor(
    iteratorId: IteratorId,
    closed: bool,
    buffer: seq<Row<J>>,
    index: nat,
    hasMore: bool,
    buffering: bool,
    pending: seq<Continuation>,
    deliveries: seq<Delivery<J>>,
    finishes: nat,
    closeRequests: seq<CallbackId>)

  /** The closure variable `length`, kept equal to `buffer.length - 1`. */
  function Length<J>(c: Cursor<J>): int {
    |c.buffer| - 1
  }

  /** One callback invocation per row, in order, each with no error. */
  function Visits<J>(cb: CallbackId, rows: seq<Row<J>>): seq<Delivery<J>> {
    if rows == [] then [] else [Delivery(cb, Value(Some(rows[0])))] + Visits(cb, rows[1..])
  }

  /** `s` without its element at `k`. */
  function RemoveAt<T>(s: seq<T>, k: nat): seq<T>
    requires k < |s|
  {
    s[..k] + s[k + 1..]
  }

  // ----- The steps -----------------------------------------------------------

  /** The constructor: state taken from the initial result, then `resetIndexes`. */
  function Init<J>(r: IteratorResult<J>): Cursor<J> {
    Cursor(r.iteratorId, false, r.rows, 0, r.hasMore, false, [], [], 0, [])
  }

  /** `next(callback)`. The closed check reports the error but does not return. */
  function NextStep<J>(decode: string -> J, c: Cursor<J>, cb: CallbackId): Cursor<J> {
    var c := if c.closed then c.(deliveries := c.deliveries + [Delivery(cb, Failed(IteratorClosed))]) else c;
    if Length(c) >= c.index then
      var buffer := ParseAt(decode, c.buffer, c.index);
      c.(buffer := buffer, index := c.index + 1,
         deliveries := c.deliveries + [Delivery(cb, Value(Some(buffer[c.index])))])
    else
      var c := if c.hasMore then c.(buffering := true, pending := c.pending + [ResumeNext(cb)]) else c;
      c.(deliveries := c.deliveries + [Delivery(cb, Failed(NoMoreElements))], finishes := c.finishes + 1)
  }

  /** `getCurrent(callback)`: parse and report the row at `index - 1`, reporting
      nothing when `index - 1` is past `length`. */
  function GetCurrentStep<J>(decode: string -> J, c: Cursor<J>, cb: CallbackId): Cursor<J> {
    if c.closed then
      c.(deliveries := c.deliveries + [Delivery(cb, Failed(IteratorClosed))])
    else
      var i := c.index - 1;
      var c := c.(buffer := ParseAt(decode, c.buffer, i));
      if Length(c) >= i then c.(deliveries := c.deliveries + [Delivery(cb, Value(At(c.buffer, i)))]) else c
  }

  /** `forEach(callback)`: every unread buffered row is parsed and reported in
      order; then one `iteratorNext` request if the server has more, or a
      "finish" emission if not. */
  function ForEachStep<J>(decode: string -> J, c: Cursor<J>, cb: CallbackId): Cursor<J> {
    if c.closed then
      c.(deliveries := c.deliveries + [Delivery(cb, Failed(IteratorClosed))])
    else
      var from := if c.index <= |c.buffer| then c.index else |c.buffer|;
      var parsed := ParseAll(decode, c.buffer[from..]);
      var c := c.(buffer := c.buffer[..from] + parsed,
                  index := if c.index <= |c.buffer| then |c.buffer| else c.index,
                  deliveries := c.deliveries + Visits(cb, parsed));
      if c.hasMore then c.(pending := c.pending + [ResumeForEach(cb)]) else c.(finishes := c.finishes + 1)
  }

  /** `close(callback)`: forwards to `iteratorClose` unless closed. */
  function CloseStep<J>(c: Cursor<J>, cb: CallbackId): Cursor<J> {
    if c.closed then
      c.(deliveries := c.deliveries + [Delivery(cb, Failed(IteratorClosed))])
    else
      c.(closeRequests := c.closeRequests + [cb])
  }

  /** The answer to outstanding request `k` arrives; `result` is None when the
      answer is `null` (the error argument is ignored by both handlers). */
  function ResponseStep<J>(decode: string -> J, c: Cursor<J>, k: nat, result: Option<IteratorResult<J>>): Cursor<J>
    requires k < |c.pending|
  {
    var cont := c.pending[k];
    var c := c.(pending := RemoveAt(c.pending, k));
    match result
    case None => c
    case Some(r) =>
      match cont
      case ResumeNext(cb) =>
        var buffer := ParseAt(decode, r.rows, 0);
        c.(buffer := buffer, index := 1, deliveries := c.deliveries + [Delivery(cb, Value(At(buffer, 0)))])
      case ResumeForEach(cb) =>
        ForEachStep(decode, c.(buffer := r.rows, hasMore := r.hasMore, index := 0), cb)
  }

  /** The first phase of the handler `next` installs: the page replaces the
      buffer, the position is reset to 0, and the first element is parsed and
      handed to the callback. */
  function NextHandlerCalls<J>(decode: string -> J, c: Cursor<J>, k: nat, r: IteratorResult<J>): Cursor<J>
    requires k < |c.pending| && c.pending[k].ResumeNext?
  {
    var buffer := ParseAt(decode, r.rows, 0);
    c.(pending := RemoveAt(c.pending, k), buffer := buffer, index := 0,
       deliveries := c.deliveries + [Delivery(c.pending[k].callback, Value(At(buffer, 0)))])
  }

  /** The second phase: after the callback returns, `index++`. */
  function NextHandlerReturns<J>(c: Cursor<J>): Cursor<J> {
    c.(index := c.index + 1)
  }

  // ----- Runs ----------------------------------------------------------------

  /** A call into the iterator, or the arrival of an answer from the store. */
  datatype Event<J> =
    | CallNext(cb: CallbackId)
    | CallGetCurrent(cb: CallbackId)
    | CallForEach(cb: CallbackId)
    | CallClose(cb: CallbackId)
    | Respond(k: nat, result: Option<IteratorResult<J>>)

  /** One event; an answer to a request that is not outstanding does not occur
      and changes nothing. */
  function Step<J>(decode: string -> J, c: Cursor<J>, e: Event<J>): Cursor<J> {
    match e
    case CallNext(cb) => NextStep(decode, c, cb)
    case CallGetCurrent(cb) => GetCurrentStep(decode, c, cb)
    case CallForEach(cb) => ForEachStep(decode, c, cb)
    case CallClose(cb) => CloseStep(c, cb)
    case Respond(k, result) => if k < |c.pending| then ResponseStep(decode, c, k, result) else c
  }

  function Run<J>(decode: string -> J, c: Cursor<J>, events: seq<Event<J>>): Cursor<J>
    decreases |events|
  {
    if events == [] then c else Run(decode, Step(decode, c, events[0]), events[1..])
  }

  /** The first outstanding request answered with each page in turn. */
  function Answers<J>(pages: seq<IteratorResult<J>>): seq<Event<J>> {
    if pages == [] then [] else [Respond(0, Some(pages[0]))] + Answers(pages[1..])
  }

  /** The rows of all pages, in order. */
  function AllRows<J>(pages: seq<IteratorResult<J>>): seq<Row<J>> {
    if pages == [] then [] else pages[0].rows + AllRows(pages[1..])
  }

  /** `n` calls of `next` with the same callback. */
  function Nexts<J>(cb: CallbackId, n: nat): seq<Event<J>> {
    if n == 0 then [] else [CallNext(cb)] + Nexts(cb, n - 1)
  }

  /** The state every reachable cursor is in: never closed, so no callback ever
      receives ITERATOR_CLOSED; the position is at most one past the page (one
      past only after `next` received an empty page); and every row before the
      position has already been parsed. */
  ghost predicate Inv<J>(c: Cursor<J>) {
    && !c.closed
    && c.index <= |c.buffer| + 1
    && (forall k :: 0 <= k < c.index && k < |c.buffer| ==> !HasJsonRow(c.buffer[k]))
    && (forall i :: 0 <= i < |c.deliveries| ==> c.deliveries[i].outcome != Failed(IteratorClosed))
  }

  // ----- Single steps --------------------------------------------------------

  lemma {:induction false} VisitsAppend<J>(cb: CallbackId, a: seq<Row<J>>, b: seq<Row<J>>)
    ensures Visits(cb, a + b) == Visits(cb, a) + Visits(cb, b)
  {
    if a == [] {
      assert a + b == b;
    } else {
      assert (a + b)[1..] == a[1..] + b;
      VisitsAppend(cb, a[1..], b);
    }
  }

  /** Visits reports each row, in order, with no error. */
  lemma {:induction false} VisitsAt<J>(cb: CallbackId, rows: seq<Row<J>>)
    ensures |Visits(cb, rows)| == |rows|
    ensures forall k :: 0 <= k < |rows| ==> Visits(cb, rows)[k] == Delivery(cb, Value(Some(rows[k])))
  {
    if rows != [] {
      VisitsAt(cb, rows[1..]);
    }
  }

  lemma VisitsParseAllAppend<J>(decode: string -> J, cb: CallbackId, a: seq<Row<J>>, b: seq<Row<J>>)
    ensures Visits(cb, ParseAll(decode, a + b)) == Visits(cb, ParseAll(decode, a)) + Visits(cb, ParseAll(decode, b))
  {
    ParseAllAppend(decode, a, b);
    VisitsAppend(cb, ParseAll(decode, a), ParseAll(decode, b));
  }

  /** The constructor starts at position 0 of the first page with no fetch in
      flight, nothing reported and not closed. */
  lemma InitState<J>(r: IteratorResult<J>)
    ensures var c := Init(r);
      && c.index == 0 && Length(c) == |r.rows| - 1 && c.buffer == r.rows
      && c.hasMore == r.hasMore && c.iteratorId == r.iteratorId
      && !c.buffering && !c.closed && c.pending == [] && c.deliveries == [] && c.finishes == 0
      && Inv(c)
  {
  }

  /** With an unread buffered row, `next` reports it parsed and moves on by
      one; the page changes only by that row being parsed; no request is made
      and nothing finishes. */
  lemma NextFromBuffer<J>(decode: string -> J, c: Cursor<J>, cb: CallbackId)
    requires !c.closed && c.index < |c.buffer|
    ensures var c' := NextStep(decode, c, cb);
      && c'.deliveries == c.deliveries + [Delivery(cb, Value(Some(ParseRow(decode, c.buffer[c.index]))))]
      && c'.index == c.index + 1
      && c'.buffer == c.buffer[c.index := ParseRow(decode, c.buffer[c.index])]
      && c'.hasMore == c.hasMore && c'.buffering == c.buffering
      && c'.pending == c.pending && c'.finishes == c.finishes
  {
  }

  /** With the page used up, every `next` reports NO_MORE_ELEMENTS and emits
      "finish" within the call; it also issues one `iteratorNext` request, and
      sets `buffering`, exactly when the server said there is more. */
  lemma NextExhausted<J>(decode: string -> J, c: Cursor<J>, cb: CallbackId)
    requires !c.closed && c.index >= |c.buffer|
    ensures var c' := NextStep(decode, c, cb);
      && c'.deliveries == c.deliveries + [Delivery(cb, Failed(NoMoreElements))]
      && c'.finishes == c.finishes + 1
      && c'.pending == (if c.hasMore then c.pending + [ResumeNext(cb)] else c.pending)
      && c'.buffering == (c.buffering || c.hasMore)
      && c'.buffer == c.buffer && c'.index == c.index && c'.hasMore == c.hasMore
  {
  }

  /** The answer to a `next` request: a page replaces the buffer wholesale, its
      first element (undefined on an empty page) is reported to the same
      callback, and the position becomes 1; `hasMore` is not taken from the
      answer and `buffering` is not cleared. A null answer only retires the
      request. */
  lemma NextResponse<J>(decode: string -> J, c: Cursor<J>, k: nat, result: Option<IteratorResult<J>>)
    requires k < |c.pending| && c.pending[k].ResumeNext?
    ensures var c' := ResponseStep(decode, c, k, result);
      && (result.None? ==> c' == c.(pending := RemoveAt(c.pending, k)))
      && (result.Some? ==>
            var buffer := ParseAt(decode, result.value.rows, 0);
            c' == c.(pending := RemoveAt(c.pending, k), buffer := buffer, index := 1,
                     deliveries := c.deliveries + [Delivery(c.pending[k].callback, Value(At(buffer, 0)))]))
    ensures ResponseStep(decode, c, k, result).hasMore == c.hasMore
    ensures ResponseStep(decode, c, k, result).buffering == c.buffering
  {
  }

  /** The handler of `next` in its two phases: the answer is installed and
      the callback runs while the position is still 0, and only when the
      callback returns does the position advance. `ResponseStep` takes both
      at once. */
  lemma NextResponseInTwoPhases<J>(decode: string -> J, c: Cursor<J>, k: nat, r: IteratorResult<J>)
    requires k < |c.pending| && c.pending[k].ResumeNext?
    ensures NextHandlerCalls(decode, c, k, r).index == 0
    ensures ResponseStep(decode, c, k, Some(r)) == NextHandlerReturns(NextHandlerCalls(decode, c, k, r))
  {
  }

  /** Calls made from the callback of a `next` answer, between its two
      phases, see the position still at 0. On a two-row page, `getCurrent`
      then reports `undefined`, and `next` reports the first row a second
      time; once the handler returns, the position is past the second row,
      so a later `next` reports NO_MORE_ELEMENTS and the second row is never
      delivered. Without the nested call, a later `next` would report the
      second row. */
  lemma NestedCallsInNextHandler<J>(decode: string -> J, c: Cursor<J>, k: nat, r: IteratorResult<J>, cb: CallbackId)
    requires !c.closed && k < |c.pending| && c.pending[k].ResumeNext? && |r.rows| == 2
    ensures var d := NextHandlerCalls(decode, c, k, r);
      && d.deliveries == c.deliveries + [Delivery(c.pending[k].callback, Value(Some(ParseRow(decode, r.rows[0]))))]
      && GetCurrentStep(decode, d, cb) == d.(deliveries := d.deliveries + [Delivery(cb, Value(None))])
      && NextStep(decode, d, cb).deliveries == d.deliveries + [Delivery(cb, Value(Some(ParseRow(decode, r.rows[0]))))]
      && NextHandlerReturns(NextStep(decode, d, cb)).index == 2
      && Last(NextStep(decode, NextHandlerReturns(NextStep(decode, d, cb)), cb).deliveries) == Delivery(cb, Failed(NoMoreElements))
    ensures Last(NextStep(decode, ResponseStep(decode, c, k, Some(r)), cb).deliveries)
         == Delivery(cb, Value(Some(ParseRow(decode, r.rows[1]))))
  {
    ParseAtEffect(decode, r.rows, 0);
  }

  /** Between two `next` calls `getCurrent` changes nothing but the callback
      log: it reports the row at `index - 1` (undefined before the first
      `next`), or nothing when that position is past the page. */
  lemma GetCurrentReadsOnly<J>(decode: string -> J, c: Cursor<J>, cb: CallbackId)
    requires Inv(c)
    ensures var c' := GetCurrentStep(decode, c, cb);
      && c' == c.(deliveries := c'.deliveries)
      && c'.deliveries == c.deliveries + (if c.index <= |c.buffer| then [Delivery(cb, Value(At(c.buffer, c.index - 1)))] else [])
  {
    ParseAtEffect(decode, c.buffer, c.index - 1);
  }

  /** Repeated `getCurrent` calls report the same row. */
  lemma GetCurrentRepeats<J>(decode: string -> J, c: Cursor<J>, cb1: CallbackId, cb2: CallbackId)
    requires Inv(c) && c.index <= |c.buffer|
    ensures var c1 := GetCurrentStep(decode, c, cb1);
      var c2 := GetCurrentStep(decode, c1, cb2);
      && |c2.deliveries| == |c.deliveries| + 2
      && c2.deliveries[|c.deliveries|].outcome == c2.deliveries[|c.deliveries| + 1].outcome
      && c2 == c.(deliveries := c2.deliveries)
  {
    GetCurrentReadsOnly(decode, c, cb1);
    var c1 := GetCurrentStep(decode, c, cb1);
    assert Inv(c1);
    GetCurrentReadsOnly(decode, c1, cb2);
  }

  /** One `forEach` reports the unread rows in order, parsed, and ends with
      the position at the end of the page; then it either requests the next
      page (server has more) or emits "finish" (it has not), never both. */
  lemma ForEachDrainsPage<J>(decode: string -> J, c: Cursor<J>, cb: CallbackId)
    requires !c.closed && c.index <= |c.buffer|
    ensures var c' := ForEachStep(decode, c, cb);
      && c'.deliveries == c.deliveries + Visits(cb, ParseAll(decode, c.buffer[c.index..]))
      && |c'.buffer| == |c.buffer| && c'.index == |c'.buffer|
      && c'.buffer[..c.index] == c.buffer[..c.index]
      && (forall k :: c.index <= k < |c.buffer| ==> c'.buffer[k] == ParseRow(decode, c.buffer[k]))
      && c'.hasMore == c.hasMore
      && (c.hasMore ==> c'.pending == c.pending + [ResumeForEach(cb)] && c'.finishes == c.finishes)
      && (!c.hasMore ==> c'.pending == c.pending && c'.finishes == c.finishes + 1)
  {
    ParseAllAt(decode, c.buffer[c.index..]);
  }

  /** The answer to a `forEach` request: the page replaces the buffer, `hasMore`
      is taken from it, the position restarts at 0 and `forEach` runs again on
      the new page. A null answer only retires the request. */
  lemma ForEachResponse<J>(decode: string -> J, c: Cursor<J>, k: nat, r: IteratorResult<J>)
    requires k < |c.pending| && c.pending[k].ResumeForEach? && !c.closed
    ensures ResponseStep(decode, c, k, Some(r))
         == ForEachStep(decode, c.(pending := RemoveAt(c.pending, k), buffer := r.rows, hasMore := r.hasMore, index := 0),
                        c.pending[k].callback)
    ensures ResponseStep(decode, c, k, None) == c.(pending := RemoveAt(c.pending, k))
  {
  }

  /** `close` forwards the callback to `iteratorClose`, and changes nothing
      else: in particular it does not mark the iterator closed. */
  lemma CloseForwards<J>(c: Cursor<J>, cb: CallbackId)
    requires !c.closed
    ensures CloseStep(c, cb) == c.(closeRequests := c.closeRequests + [cb])
    ensures !CloseStep(c, cb).closed
  {
  }

  /** Reporting one more row of a page extends the reports by that row. */
  lemma VisitsExtend<J>(decode: string -> J, cb: CallbackId, rows: seq<Row<J>>, from: nat, i: nat)
    requires from <= i < |rows|
    ensures Visits(cb, ParseAll(decode, rows[from..i + 1]))
         == Visits(cb, ParseAll(decode, rows[from..i])) + [Delivery(cb, Value(Some(ParseRow(decode, rows[i]))))]
  {
    var done := rows[from..i];
    assert rows[from..i + 1] == done + [rows[i]];
    ParseAllAppend(decode, done, [rows[i]]);
    VisitsAppend(cb, ParseAll(decode, done), [ParseRow(decode, rows[i])]);
    assert ParseAll(decode, [rows[i]]) == [ParseRow(decode, rows[i])];
    assert Visits(cb, [ParseRow(decode, rows[i])]) == [Delivery(cb, Value(Some(ParseRow(decode, rows[i]))))];
  }

  /** A page whose rows from `from` up to `upto` have been parsed in place. */
  function PartlyParsed<J>(decode: string -> J, rows: seq<Row<J>>, from: nat, upto: nat): seq<Row<J>>
    requires from <= upto <= |rows|
  {
    rows[..from] + ParseAll(decode, rows[from..upto]) + rows[upto..]
  }

  lemma PartlyParsedStart<J>(decode: string -> J, rows: seq<Row<J>>, from: nat)
    requires from <= |rows|
    ensures PartlyParsed(decode, rows, from, from) == rows
  {
    assert rows[from..from] == [];
  }

  /** Parsing the row at `upto` extends the parsed stretch by one. */
  lemma PartlyParsedStep<J>(decode: string -> J, rows: seq<Row<J>>, from: nat, upto: nat)
    requires from <= upto < |rows|
    ensures |PartlyParsed(decode, rows, from, upto)| == |rows|
    ensures PartlyParsed(decode, rows, from, upto)[upto] == rows[upto]
    ensures ParseAt(decode, PartlyParsed(decode, rows, from, upto), upto) == PartlyParsed(decode, rows, from, upto + 1)
  {
    var done := rows[from..upto];
    ParseAllAt(decode, done);
    assert rows[from..upto + 1] == done + [rows[upto]];
    ParseAllAppend(decode, done, [rows[upto]]);
    assert ParseAll(decode, [rows[upto]]) == [ParseRow(decode, rows[upto])];
    assert rows[upto..] == [rows[upto]] + rows[upto + 1..];
  }

  lemma PartlyParsedEnd<J>(decode: string -> J, rows: seq<Row<J>>, from: nat, upto: nat)
    requires from <= upto == |rows|
    ensures rows[from..upto] == rows[from..]
    ensures PartlyParsed(decode, rows, from, upto) == rows[..from] + ParseAll(decode, rows[from..])
  {
    assert rows[upto..] == [] && rows[from..upto] == rows[from..];
  }

  /** ForEachStep, field by field, on an open cursor. */
  lemma ForEachStepIs<J>(decode: string -> J, c: Cursor<J>, cb: CallbackId, c': Cursor<J>)
    requires !c.closed
    requires var from := if c.index <= |c.buffer| then c.index else |c.buffer|;
      && c'.buffer == c.buffer[..from] + ParseAll(decode, c.buffer[from..])
      && c'.index == (if c.index <= |c.buffer| then |c.buffer| else c.index)
      && c'.deliveries == c.deliveries + Visits(cb, ParseAll(decode, c.buffer[from..]))
      && c'.pending == (if c.hasMore then c.pending + [ResumeForEach(cb)] else c.pending)
      && c'.finishes == (if c.hasMore then c.finishes else c.finishes + 1)
      && c'.iteratorId == c.iteratorId && c'.closed == c.closed && c'.hasMore == c.hasMore
      && c'.buffering == c.buffering && c'.closeRequests == c.closeRequests
    ensures c' == ForEachStep(decode, c, cb)
  {
  }

  /** Every step keeps the invariant. */
  lemma StepInv<J>(decode: string -> J, c: Cursor<J>, e: Event<J>)
    requires Inv(c)
    ensures Inv(Step(decode, c, e))
  {
    match e
    case CallNext(cb) =>
      NextInv(decode, c, cb);
    case CallGetCurrent(cb) =>
      GetCurrentReadsOnly(decode, c, cb);
    case CallForEach(cb) =>
      ForEachInv(decode, c, cb);
    case CallClose(cb) =>
    case Respond(k, result) =>
      if k < |c.pending| && result.Some? {
        ResponseInv(decode, c, k, result.value);
      }
  }

  lemma NextInv<J>(decode: string -> J, c: Cursor<J>, cb: CallbackId)
    requires Inv(c)
    ensures Inv(NextStep(decode, c, cb))
  {
    ParseAtEffect(decode, c.buffer, c.index);
  }

  lemma ResponseInv<J>(decode: string -> J, c: Cursor<J>, k: nat, r: IteratorResult<J>)
    requires Inv(c) && k < |c.pending|
    ensures Inv(ResponseStep(decode, c, k, Some(r)))
  {
    match c.pending[k]
    case ResumeNext(cb) =>
      ParseAtEffect(decode, r.rows, 0);
    case ResumeForEach(cb) =>
      ForEachInv(decode, c.(pending := RemoveAt(c.pending, k), buffer := r.rows, hasMore := r.hasMore, index := 0), cb);
  }

  lemma ForEachInv<J>(decode: string -> J, c: Cursor<J>, cb: CallbackId)
    requires Inv(c)
    ensures Inv(ForEachStep(decode, c, cb))
  {
    var from := if c.index <= |c.buffer| then c.index else |c.buffer|;
    var parsed := ParseAll(decode, c.buffer[from..]);
    ParseAllAt(decode, c.buffer[from..]);
    ParsedRowsParsed(decode, c.buffer, from, c.index);
    VisitsNoError(c.deliveries, cb, parsed);
  }

  /** After a pass of `forEach`, every row of the page is parsed. */
  lemma ParsedRowsParsed<J>(decode: string -> J, rows: seq<Row<J>>, from: nat, index: nat)
    requires from <= |rows| && from <= index
    requires forall k :: 0 <= k < index && k < |rows| ==> !HasJsonRow(rows[k])
    ensures |ParseAll(decode, rows[from..])| == |rows| - from
    ensures forall k :: 0 <= k < |rows| ==> !HasJsonRow((rows[..from] + ParseAll(decode, rows[from..]))[k])
  {
    ParseAllAt(decode, rows[from..]);
    forall k | 0 <= k < |rows| ensures !HasJsonRow((rows[..from] + ParseAll(decode, rows[from..]))[k]) {
      if k >= from {
        ParseRowEffect(decode, rows[k]);
      }
    }
  }

  /** Reports of rows never carry ITERATOR_CLOSED. */
  lemma VisitsNoError<J>(before: seq<Delivery<J>>, cb: CallbackId, rows: seq<Row<J>>)
    requires forall i :: 0 <= i < |before| ==> before[i].outcome != Failed(IteratorClosed)
    ensures forall i :: 0 <= i < |before + Visits(cb, rows)| ==> (before + Visits(cb, rows))[i].outcome != Failed(IteratorClosed)
  {
    VisitsAt(cb, rows);
  }

  /** Whatever the callers and the store do, an iterator is never closed, so
      `isClosed` always answers false and no callback ever receives
      ITERATOR_CLOSED. */
  lemma {:induction false} RunInv<J>(decode: string -> J, c: Cursor<J>, events: seq<Event<J>>)
    requires Inv(c)
    ensures Inv(Run(decode, c, events))
    decreases |events|
  {
    if events != [] {
      StepInv(decode, c, events[0]);
      RunInv(decode, Step(decode, c, events[0]), events[1..]);
    }
  }

  lemma NeverClosed<J>(decode: string -> J, r: IteratorResult<J>, events: seq<Event<J>>)
    ensures !Run(decode, Init(r), events).closed
    ensures forall i :: 0 <= i < |Run(decode, Init(r), events).deliveries| ==>
      Run(decode, Init(r), events).deliveries[i].outcome != Failed(IteratorClosed)
  {
    RunInv(decode, Init(r), events);
  }

  // ----- Whole runs ----------------------------------------------------------

  lemma RunFirst<J>(decode: string -> J, c: Cursor<J>, e: Event<J>, events: seq<Event<J>>)
    ensures Run(decode, c, [e] + events) == Run(decode, Step(decode, c, e), events)
  {
    assert ([e] + events)[0] == e && ([e] + events)[1..] == events;
  }

  /** `n` calls of `next` within the page report the next `n` rows, parsed,
      in order, and advance the position by `n`; no request is made and
      nothing finishes. */
  lemma {:induction false} NextInOrder<J>(decode: string -> J, c: Cursor<J>, cb: CallbackId, n: nat)
    requires !c.closed && c.index + n <= |c.buffer|
    ensures var c' := Run(decode, c, Nexts(cb, n));
      && c'.deliveries == c.deliveries + Visits(cb, ParseAll(decode, c.buffer[c.index..c.index + n]))
      && c'.index == c.index + n
      && c'.pending == c.pending && c'.finishes == c.finishes && c'.hasMore == c.hasMore
    decreases n
  {
    if n == 0 {
      assert c.buffer[c.index..c.index] == [];
    } else {
      var c1 := NextStep(decode, c, cb);
      NextsFirst(decode, c, cb, n);
      NextFromBuffer(decode, c, cb);
      NextInOrder(decode, c1, cb, n - 1);
      NextInOrderCombine(decode, c, cb, n, c1, Run(decode, c1, Nexts(cb, n - 1)));
    }
  }

  /** The inductive step of NextInOrder, on the states alone. */
  lemma NextInOrderCombine<J>(decode: string -> J, c: Cursor<J>, cb: CallbackId, n: nat, c1: Cursor<J>, c': Cursor<J>)
    requires 0 < n && c.index + n <= |c.buffer|
    requires c1.deliveries == c.deliveries + [Delivery(cb, Value(Some(ParseRow(decode, c.buffer[c.index]))))]
    requires c1.index == c.index + 1 && c1.buffer == c.buffer[c.index := ParseRow(decode, c.buffer[c.index])]
    requires c1.hasMore == c.hasMore && c1.pending == c.pending && c1.finishes == c.finishes
    requires c'.deliveries == c1.deliveries + Visits(cb, ParseAll(decode, c1.buffer[c1.index..c1.index + (n - 1)]))
    requires c'.index == c1.index + (n - 1)
    requires c'.pending == c1.pending && c'.finishes == c1.finishes && c'.hasMore == c1.hasMore
    ensures c'.deliveries == c.deliveries + Visits(cb, ParseAll(decode, c.buffer[c.index..c.index + n]))
    ensures c'.index == c.index + n
    ensures c'.pending == c.pending && c'.finishes == c.finishes && c'.hasMore == c.hasMore
  {
    var row := ParseRow(decode, c.buffer[c.index]);
    assert c1.buffer[c1.index..c1.index + (n - 1)] == c.buffer[c.index := row][c.index + 1..c.index + n];
    var rest := Visits(cb, ParseAll(decode, c1.buffer[c1.index..c1.index + (n - 1)]));
    NextRowsSplit(decode, cb, c.buffer, c.index, n);
    assert c.deliveries + [Delivery(cb, Value(Some(row)))] + rest == c.deliveries + ([Delivery(cb, Value(Some(row)))] + rest);
  }

  lemma NextsFirst<J>(decode: string -> J, c: Cursor<J>, cb: CallbackId, n: nat)
    requires n > 0
    ensures Run(decode, c, Nexts(cb, n)) == Run(decode, NextStep(decode, c, cb), Nexts(cb, n - 1))
  {
    assert Nexts<J>(cb, n) == [CallNext(cb)] + Nexts(cb, n - 1);
    RunFirst(decode, c, CallNext(cb), Nexts(cb, n - 1));
  }

  /** The row reported by one `next`, followed by the rest read from the
      updated page, are the `n` rows from position `i`, parsed. */
  lemma NextRowsSplit<J>(decode: string -> J, cb: CallbackId, buffer: seq<Row<J>>, i: nat, n: nat)
    requires 0 < n && i + n <= |buffer|
    ensures var row := ParseRow(decode, buffer[i]);
      [Delivery(cb, Value(Some(row)))] + Visits(cb, ParseAll(decode, buffer[i := row][i + 1..i + n]))
      == Visits(cb, ParseAll(decode, buffer[i..i + n]))
  {
    var row := ParseRow(decode, buffer[i]);
    var others := buffer[i + 1..i + n];
    assert buffer[i..i + n] == [buffer[i]] + others;
    ParseAllAppend(decode, [buffer[i]], others);
    VisitsAppend(cb, [row], ParseAll(decode, others));
  }

  /** Once the page is used up and the server said there is no more, every
      further `next` reports NO_MORE_ELEMENTS and emits "finish" again: the
      source emits "finish" once per such call, not once per iterator. */
  lemma {:induction false} NextAfterEndFinishesEachTime<J>(decode: string -> J, c: Cursor<J>, cb: CallbackId, n: nat)
    requires !c.closed && !c.hasMore && c.index >= |c.buffer|
    ensures var c' := Run(decode, c, Nexts(cb, n));
      && c'.finishes == c.finishes + n
      && c'.pending == c.pending
      && |c'.deliveries| == |c.deliveries| + n
      && c'.deliveries[..|c.deliveries|] == c.deliveries
      && (forall i :: |c.deliveries| <= i < |c'.deliveries| ==> c'.deliveries[i] == Delivery(cb, Failed(NoMoreElements)))
    decreases n
  {
    if n > 0 {
      var c1 := NextStep(decode, c, cb);
      RunFirst(decode, c, CallNext(cb), Nexts(cb, n - 1));
      NextExhausted(decode, c, cb);
      NextAfterEndFinishesEachTime(decode, c1, cb, n - 1);
      var c' := Run(decode, c1, Nexts(cb, n - 1));
      forall i | |c.deliveries| <= i < |c'.deliveries|
        ensures c'.deliveries[i] == Delivery(cb, Failed(NoMoreElements))
      {
        if i == |c.deliveries| {
          assert c'.deliveries[i] == c1.deliveries[i];
        }
      }
    }
  }

  /** One `forEach` on a page, followed by the answer to the request it makes:
      the unread rows are reported and `forEach` starts over on the new page. */
  lemma ForEachThenAnswer<J>(decode: string -> J, c: Cursor<J>, cb: CallbackId, pages: seq<IteratorResult<J>>)
    requires !c.closed && c.index <= |c.buffer| && c.pending == [] && c.hasMore && pages != []
    ensures Run(decode, c, [CallForEach(cb)] + Answers(pages))
         == Run(decode, c.(buffer := pages[0].rows, hasMore := pages[0].hasMore, index := 0,
                           deliveries := c.deliveries + Visits(cb, ParseAll(decode, c.buffer[c.index..]))),
                [CallForEach(cb)] + Answers(pages[1..]))
  {
    var c1 := ForEachStep(decode, c, cb);
    ForEachDrainsPage(decode, c, cb);
    RunFirst(decode, c, CallForEach(cb), Answers(pages));
    AnswerForEach(decode, c1, cb, pages);
  }

  /** The answer to the one outstanding `forEach` request restarts `forEach`
      on the page it carries. */
  lemma AnswerForEach<J>(decode: string -> J, c: Cursor<J>, cb: CallbackId, pages: seq<IteratorResult<J>>)
    requires !c.closed && c.pending == [ResumeForEach(cb)] && pages != []
    ensures Run(decode, c, Answers(pages))
         == Run(decode, c.(pending := [], buffer := pages[0].rows, hasMore := pages[0].hasMore, index := 0),
                [CallForEach(cb)] + Answers(pages[1..]))
  {
    var p := pages[0];
    var c' := c.(pending := [], buffer := p.rows, hasMore := p.hasMore, index := 0);
    assert Answers(pages) == [Respond(0, Some(p))] + Answers(pages[1..]);
    RunFirst(decode, c, Respond(0, Some(p)), Answers(pages[1..]));
    assert RemoveAt(c.pending, 0) == [];
    ForEachResponse(decode, c, 0, p);
    RunFirst(decode, c', CallForEach(cb), Answers(pages[1..]));
  }

  /** The last page: one `forEach` reports the unread rows and emits "finish". */
  lemma ForEachLastPage<J>(decode: string -> J, c: Cursor<J>, cb: CallbackId)
    requires !c.closed && c.index <= |c.buffer| && c.pending == [] && !c.hasMore
    ensures var c' := Run(decode, c, [CallForEach(cb)] + Answers<J>([]));
      && c'.deliveries == c.deliveries + Visits(cb, ParseAll(decode, c.buffer[c.index..]))
      && c'.finishes == c.finishes + 1 && c'.pending == [] && !c'.hasMore
  {
    assert [CallForEach(cb)] + Answers<J>([]) == [CallForEach(cb)];
    RunFirst(decode, c, CallForEach(cb), []);
    ForEachDrainsPage(decode, c, cb);
  }

  /** The inductive step of ForEachDrainsAll, on the states alone: `c2` is the
      state after the first page and its answer, `c'` the end of the run. */
  lemma ForEachDrainsCombine<J>(decode: string -> J, c: Cursor<J>, cb: CallbackId, pages: seq<IteratorResult<J>>,
                                c2: Cursor<J>, c': Cursor<J>)
    requires pages != [] && c.index <= |c.buffer|
    requires c2.deliveries == c.deliveries + Visits(cb, ParseAll(decode, c.buffer[c.index..]))
    requires c2.buffer == pages[0].rows && c2.index == 0
    requires c'.deliveries == c2.deliveries + Visits(cb, ParseAll(decode, c2.buffer[c2.index..] + AllRows(pages[1..])))
    ensures c'.deliveries == c.deliveries + Visits(cb, ParseAll(decode, c.buffer[c.index..] + AllRows(pages)))
  {
    var here := c.buffer[c.index..];
    assert c2.buffer[c2.index..] == pages[0].rows;
    DrainedRows(decode, cb, here, pages);
    var first, later := Visits(cb, ParseAll(decode, here)), Visits(cb, ParseAll(decode, pages[0].rows + AllRows(pages[1..])));
    assert c.deliveries + first + later == c.deliveries + (first + later);
  }

  lemma DrainedRows<J>(decode: string -> J, cb: CallbackId, here: seq<Row<J>>, pages: seq<IteratorResult<J>>)
    requires pages != []
    ensures Visits(cb, ParseAll(decode, here)) + Visits(cb, ParseAll(decode, pages[0].rows + AllRows(pages[1..])))
         == Visits(cb, ParseAll(decode, here + AllRows(pages)))
  {
    assert AllRows(pages) == pages[0].rows + AllRows(pages[1..]);
    VisitsParseAllAppend(decode, cb, here, AllRows(pages));
  }

  /** Draining with `forEach`: when each request is answered with the next
      page, the callback receives the unread rows of the current page and then
      every row of every later page, parsed and in order; "finish" is emitted
      once and no request is left outstanding. */
  lemma {:induction false} ForEachDrainsAll<J>(decode: string -> J, c: Cursor<J>, cb: CallbackId,
                                               pages: seq<IteratorResult<J>>)
    requires !c.closed && c.index <= |c.buffer| && c.pending == []
    requires c.hasMore == (pages != []) && PagesEndAtLast(pages)
    ensures var c' := Run(decode, c, [CallForEach(cb)] + Answers(pages));
      && c'.deliveries == c.deliveries + Visits(cb, ParseAll(decode, c.buffer[c.index..] + AllRows(pages)))
      && c'.finishes == c.finishes + 1
      && c'.pending == []
      && !c'.hasMore
    decreases |pages|
  {
    if pages == [] {
      ForEachLastPage(decode, c, cb);
      assert c.buffer[c.index..] + AllRows(pages) == c.buffer[c.index..];
    } else {
      ForEachThenAnswer(decode, c, cb, pages);
      var c2 := c.(buffer := pages[0].rows, hasMore := pages[0].hasMore, index := 0,
                   deliveries := c.deliveries + Visits(cb, ParseAll(decode, c.buffer[c.index..])));
      PagesEndAtLastTail(pages);
      ForEachDrainsAll(decode, c2, cb, pages[1..]);
      ForEachDrainsCombine(decode, c, cb, pages, c2, Run(decode, c2, [CallForEach(cb)] + Answers(pages[1..])));
    }
  }

  // ----- The object ----------------------------------------------------------

  /** An Iterator object: the closure variables of lib/Iterator.js as fields,
      each operation as a method that updates them in place. */
  class Iterator<J> {
    const decode: string -> J
    const iteratorId: IteratorId
    var closed: bool
    var buffer: seq<Row<J>>
    var hasMore: bool
    var index: nat
    var length: int
    var buffering: bool
    var pending: seq<Continuation>
    var deliveries: seq<Delivery<J>>
    var finishes: nat
    var closeRequests: seq<CallbackId>

    ghost predicate Valid()
      reads this
    {
      length == |buffer| - 1
    }

    /** The object's state as a Cursor value. */
    function State(): Cursor<J>
      reads this
    {
      Cursor(iteratorId, closed, buffer, index, hasMore, buffering, pending, deliveries, finishes, closeRequests)
    }

    constructor (decode: string -> J, iteratorResult: IteratorResult<J>)
      ensures Valid() && State() == Init(iteratorResult) && this.decode == decode
    {
      this.decode := decode;
      iteratorId := iteratorResult.iteratorId;
      closed := false;
      buffer := iteratorResult.rows;
      hasMore := iteratorResult.hasMore;
      buffering := false;
      pending, deliveries, finishes, closeRequests := [], [], 0, [];
      new;
      ResetIndexes();
    }

    method ResetIndexes()
      modifies this`index, this`length
      ensures index == 0 && Valid()
    {
      index := 0;
      length := |buffer| - 1;
    }

    /** `parseRow(buffer[i])`: the row object at `i` is changed in place. */
    method ParseRowAt(i: int)
      requires Valid()
      modifies this`buffer
      ensures Valid() && buffer == ParseAt(decode, old(buffer), i)
    {
      if 0 <= i < |buffer| {
        var row := buffer[i];
        if row.jsonRow.Some? && row.jsonRow.value != "" {
          buffer := buffer[i := row.(row := Some(decode(row.jsonRow.value)), jsonRow := None)];
        }
      }
    }

    method IsClosed() returns (result: bool)
      ensures result == State().closed
    {
      result := closed;
    }

    method Next(cb: CallbackId)
      requires Valid()
      modifies this
      ensures Valid() && State() == NextStep(decode, old(State()), cb)
    {
      if closed {
        deliveries := deliveries + [Delivery(cb, Failed(IteratorClosed))];
      }
      if length >= index {
        ParseRowAt(index);
        deliveries := deliveries + [Delivery(cb, Value(Some(buffer[index])))];
        index := index + 1;
        return;
      }
      if hasMore {
        buffering := true;
        pending := pending + [ResumeNext(cb)];
      }
      deliveries := deliveries + [Delivery(cb, Failed(NoMoreElements))];
      finishes := finishes + 1;
    }

    method GetCurrent(cb: CallbackId)
      requires Valid()
      modifies this
      ensures Valid() && State() == GetCurrentStep(decode, old(State()), cb)
    {
      var i := index - 1;
      if closed {
        deliveries := deliveries + [Delivery(cb, Failed(IteratorClosed))];
        return;
      }
      ParseRowAt(i);
      if length >= i {
        deliveries := deliveries + [Delivery(cb, Value(At(buffer, i)))];
      }
    }

    method ForEach(cb: CallbackId)
      requires Valid()
      modifies this
      ensures Valid() && State() == ForEachStep(decode, old(State()), cb)
    {
      if closed {
        deliveries := deliveries + [Delivery(cb, Failed(IteratorClosed))];
        return;
      }
      var lastEntry := DepleteBuffer(cb);
      if lastEntry {
        finishes := finishes + 1;
      }
      ForEachStepIs(decode, old(State()), cb, State());
    }

    /** The `while (true)` loop of `forEach`: report every unread row, then
        either request the next page or say that this was the last entry. */
    method DepleteBuffer(cb: CallbackId) returns (lastEntry: bool)
      requires Valid() && !closed
      modifies this`buffer, this`index, this`deliveries, this`pending
      ensures Valid() && !closed && lastEntry == !hasMore
      ensures var from := if old(index) <= |old(buffer)| then old(index) else |old(buffer)|;
        && buffer == old(buffer)[..from] + ParseAll(decode, old(buffer)[from..])
        && index == (if old(index) <= |old(buffer)| then |old(buffer)| else old(index))
        && deliveries == old(deliveries) + Visits(cb, ParseAll(decode, old(buffer)[from..]))
      ensures pending == (if hasMore then old(pending) + [ResumeForEach(cb)] else old(pending))
      ensures hasMore == old(hasMore) && finishes == old(finishes)
      ensures closeRequests == old(closeRequests) && buffering == old(buffering)
    {
      ghost var buffer0, deliveries0 := buffer, deliveries;
      ghost var from := if index <= |buffer| then index else |buffer|;
      ghost var upto := from;
      PartlyParsedStart(decode, buffer0, from);
      lastEntry := false;
      while true
        invariant Valid() && !closed && |buffer| == |buffer0|
        invariant from <= upto <= |buffer0|
        invariant index <= |buffer0| ==> upto == index
        invariant index > |buffer0| ==> index == old(index)
        invariant buffer == PartlyParsed(decode, buffer0, from, upto)
        invariant deliveries == deliveries0 + Visits(cb, ParseAll(decode, buffer0[from..upto]))
        invariant pending == old(pending)
        decreases |buffer| - index
      {
        if length >= index {
          ReportRow(cb, buffer0, from, deliveries0);
          upto := index;
        } else if hasMore {
          pending := pending + [ResumeForEach(cb)];
          break;
        } else {
          lastEntry := true;
          break;
        }
      }
      PartlyParsedEnd(decode, buffer0, from, upto);
    }

    /** One pass of the loop body: parse the row at `index` in place, report
        it, and move on. The ghost parameters name the page and the reports as
        they were when the loop started at `from`. */
    method ReportRow(cb: CallbackId, ghost buffer0: seq<Row<J>>, ghost from: nat, ghost deliveries0: seq<Delivery<J>>)
      requires Valid() && from <= index && length >= index && |buffer| == |buffer0|
      requires buffer == PartlyParsed(decode, buffer0, from, index)
      requires deliveries == deliveries0 + Visits(cb, ParseAll(decode, buffer0[from..index]))
      modifies this`buffer, this`index, this`deliveries
      ensures Valid() && index == old(index) + 1 && |buffer| == |buffer0|
      ensures buffer == PartlyParsed(decode, buffer0, from, index)
      ensures deliveries == deliveries0 + Visits(cb, ParseAll(decode, buffer0[from..index]))
    {
      ghost var done := Visits(cb, ParseAll(decode, buffer0[from..index]));
      ghost var row := ParseRow(decode, buffer0[index]);
      PartlyParsedStep(decode, buffer0, from, index);
      ParseRowAt(index);
      VisitsExtend(decode, cb, buffer0, from, index);
      assert deliveries0 + done + [Delivery(cb, Value(Some(row)))] == deliveries0 + (done + [Delivery(cb, Value(Some(row)))]);
      deliveries := deliveries + [Delivery(cb, Value(Some(buffer[index])))];
      index := index + 1;
    }

    method Close(cb: CallbackId)
      requires Valid()
      modifies this
      ensures Valid() && State() == CloseStep(old(State()), cb)
    {
      if closed {
        deliveries := deliveries + [Delivery(cb, Failed(IteratorClosed))];
        return;
      }
      closeRequests := closeRequests + [cb];
    }

    /** The store answers outstanding request `k`, running the handler that
        `next` or `forEach` installed. */
    method IteratorNextReturned(k: nat, result: Option<IteratorResult<J>>)
      requires Valid() && k < |pending|
      modifies this
      ensures Valid() && State() == ResponseStep(decode, old(State()), k, result)
    {
      var cont := pending[k];
      pending := RemoveAt(pending, k);
      if result.Some? {
        match cont
        case ResumeNext(cb) =>
          NextHandler(cb, result.value);
        case ResumeForEach(cb) =>
          ForEachHandler(cb, result.value);
      }
    }

    /** The handler `next` installs: the page replaces the buffer and its first
        element is parsed and reported. */
    method NextHandler(cb: CallbackId, r: IteratorResult<J>)
      requires Valid()
      modifies this
      ensures Valid()
      ensures State() == old(State()).(buffer := ParseAt(decode, r.rows, 0), index := 1,
                                       deliveries := old(deliveries) + [Delivery(cb, Value(At(ParseAt(decode, r.rows, 0), 0)))])
    {
      buffer := r.rows;
      ResetIndexes();
      ParseRowAt(index);
      deliveries := deliveries + [Delivery(cb, Value(At(buffer, index)))];
      index := index + 1;
    }

    /** The handler `forEach` installs: the page and `hasMore` replace the
        current ones and `forEach` runs again. */
    method ForEachHandler(cb: CallbackId, r: IteratorResult<J>)
      requires Valid()
      modifies this
      ensures Valid() && State() == ForEachStep(decode, old(State()).(buffer := r.rows, hasMore := r.hasMore, index := 0), cb)
    {
      buffer := r.rows;
      hasMore := r.hasMore;
      ResetIndexes();
      ForEach(cb);
    }
  }
}
