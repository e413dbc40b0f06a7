/** The stream form of the same paging cursor, lib/Readable.js: the stream
    runtime calls `_read`, which pushes the raw `jsonRow` of the next buffered
    row, pushes '' while a page is being fetched, and pushes null at the end.
    As in Iterators, an `iteratorNext` request and its answer are two steps,
    and the state is given both as the value `Source` with step functions and
    as the class `Readable` whose methods are proved to perform those steps. */
module Streams {
  import opened Rows

  /** The argument of one `push`: a string, `undefined` (a row without a
      `jsonRow` property), or `null`, the end of the stream. */
  datatype Chunk = Text(text: string) | Undefined | EndOfStream

  /** The fields of one Readable, with what it has done so far: the chunks
      pushed in order, the `iteratorNext` requests not yet answered, and
      whether a completion handler has thrown. */
  datatype Source<J> = Source(
    iteratorId: IteratorId,
    buffer: seq<Row<J>>,
    index: nat,
    hasMore: bool,
    buffering: bool,
    outstanding: nat,
    pushes: seq<Chunk>,
    thrown: bool)

  /** The field `length`, kept equal to `buffer.length - 1`. */
  function Length<J>(s: Source<J>): int {
    |s.buffer| - 1
  }

  /** `push(row.jsonRow)`: the raw string, not parsed. */
  function ChunkOf<J>(r: Row<J>): Chunk {
    match r.jsonRow
    case Some(text) => Text(text)
    case None => Undefined
  }

  /** The chunks pushed for `rows`, one per row, in order. */
  function Chunks<J>(rows: seq<Row<J>>): seq<Chunk> {
    if rows == [] then [] else [ChunkOf(rows[0])] + Chunks(rows[1..])
  }

  // ----- The steps -----------------------------------------------------------

  /** The constructor. */
  function Init<J>(r: IteratorResult<J>): Source<J> {
    Source(r.iteratorId, r.rows, 0, r.hasMore, false, 0, [], false)
  }

  /** `_read`. */
  function ReadStep<J>(s: Source<J>): Source<J> {
    if Length(s) >= s.index then
      s.(index := s.index + 1, pushes := s.pushes + [ChunkOf(s.buffer[s.index])])
    else if s.hasMore && !s.buffering then
      s.(buffering := true, outstanding := s.outstanding + 1, pushes := s.pushes + [Text("")])
    else if s.buffering then
      s.(pushes := s.pushes + [Text("")])
    else
      s.(pushes := s.pushes + [EndOfStream])
  }

  /** The completion handler of `iteratorNext`. With a result it takes
      `hasMore` and the page, and pushes the first row; on an empty page
      `buffer[index++]` is undefined, reading its `jsonRow` throws a TypeError,
      and the rest of the handler (clearing `buffering`) never runs. An error
      argument is only logged. */
  function ResponseStep<J>(s: Source<J>, result: Option<IteratorResult<J>>): Source<J>
    requires s.outstanding > 0
  {
    var s := s.(outstanding := s.outstanding - 1);
    match result
    case None => s.(buffering := false)
    case Some(r) =>
      var s := s.(hasMore := r.hasMore, buffer := r.rows, index := 1);
      if |r.rows| == 0 then s.(thrown := true)
      else s.(pushes := s.pushes + [ChunkOf(r.rows[0])], buffering := false)
  }

  // ----- Runs ----------------------------------------------------------------

  /** The runtime calls `_read`, or the store answers the outstanding request. */
  datatype Event<J> = Read | Respond(result: Option<IteratorResult<J>>)

  function Step<J>(s: Source<J>, e: Event<J>): Source<J> {
    match e
    case Read => ReadStep(s)
    case Respond(result) => if s.outstanding > 0 then ResponseStep(s, result) else s
  }

  function Run<J>(s: Source<J>, events: seq<Event<J>>): Source<J>
    decreases |events|
  {
    if events == [] then s else Run(Step(s, events[0]), events[1..])
  }

  /** At most one request is ever outstanding, and one is outstanding exactly
      while `buffering` is set (unless a handler threw, which leaves `buffering`
      set for good); the position is at most one past the page, and within the
      page unless a handler threw. */
  ghost predicate Inv<J>(s: Source<J>) {
    && s.outstanding <= 1
    && (s.outstanding == 1 ==> s.buffering)
    && (!s.thrown ==> (s.buffering <==> s.outstanding == 1))
    && s.index <= |s.buffer| + 1
    && (!s.thrown ==> s.index <= |s.buffer|)
  }

  // ----- Single steps --------------------------------------------------------

  /** The constructor starts at position 0 with `length = |buffer| - 1`, no
      request outstanding and `hasMore` and the handle from the result. */
  lemma InitState<J>(r: IteratorResult<J>)
    ensures var s := Init(r);
      && s.index == 0 && Length(s) == |r.rows| - 1 && s.buffer == r.rows
      && !s.buffering && s.outstanding == 0
      && s.hasMore == r.hasMore && s.iteratorId == r.iteratorId
      && s.pushes == [] && Inv(s)
  {
  }

  /** With an unread buffered row, `_read` pushes its raw `jsonRow` and moves
      on by one, and requests nothing. */
  lemma ReadFromBuffer<J>(s: Source<J>)
    requires s.index < |s.buffer|
    ensures ReadStep(s) == s.(index := s.index + 1, pushes := s.pushes + [ChunkOf(s.buffer[s.index])])
  {
  }

  /** With the page used up, `_read` requests the next page only when the
      server has more and no request is in flight; otherwise it pushes ''
      while a request is in flight and null when there is nothing more. */
  lemma ReadExhausted<J>(s: Source<J>)
    requires s.index >= |s.buffer|
    ensures var s' := ReadStep(s);
      && s'.buffer == s.buffer && s'.index == s.index && s'.hasMore == s.hasMore
      && s'.outstanding == (if s.hasMore && !s.buffering then s.outstanding + 1 else s.outstanding)
      && s'.buffering == (s.buffering || s.hasMore)
      && s'.pushes == s.pushes + [if s.hasMore || s.buffering then Text("") else EndOfStream]
  {
  }

  /** A non-empty page answering the request replaces the buffer, takes
      `hasMore` from the answer, pushes the page's first raw row and leaves
      the position at 1; `buffering` is cleared with or without a page. */
  lemma ResponseWithPage<J>(s: Source<J>, r: IteratorResult<J>)
    requires s.outstanding > 0 && |r.rows| > 0
    ensures var s' := ResponseStep(s, Some(r));
      && s'.buffer == r.rows && s'.hasMore == r.hasMore && s'.index == 1
      && s'.pushes == s.pushes + [ChunkOf(r.rows[0])]
      && !s'.buffering && s'.outstanding == s.outstanding - 1 && s'.thrown == s.thrown
    ensures ResponseStep(s, None) == s.(outstanding := s.outstanding - 1, buffering := false)
  {
  }

  /** An empty page makes the handler throw after moving the position to 1,
      past the empty page, with `buffering` still set: from then on the stream
      only pushes ''. */
  lemma ResponseWithEmptyPage<J>(s: Source<J>, r: IteratorResult<J>)
    requires s.outstanding == 1 && s.buffering && r.rows == []
    ensures var s' := ResponseStep(s, Some(r));
      && s'.thrown && s'.index == 1 > |s'.buffer|
      && s'.buffering && s'.outstanding == 0 && s'.pushes == s.pushes
      && ReadStep(s') == s'.(pushes := s'.pushes + [Text("")])
  {
  }

  /** Every step keeps the invariant; in particular at most one request is
      ever outstanding. */
  lemma StepInv<J>(s: Source<J>, e: Event<J>)
    requires Inv(s)
    ensures Inv(Step(s, e))
  {
  }

  lemma {:induction false} RunInv<J>(s: Source<J>, events: seq<Event<J>>)
    requires Inv(s)
    ensures Inv(Run(s, events))
    decreases |events|
  {
    if events != [] {
      StepInv(s, events[0]);
      RunInv(Step(s, events[0]), events[1..]);
    }
  }

  /** Whatever the runtime and the store do, a Readable never has more than
      one request outstanding, and as long as no answer was an empty page its
      position stays within the page. */
  lemma AtMostOneRequest<J>(r: IteratorResult<J>, events: seq<Event<J>>)
    ensures Run(Init(r), events).outstanding <= 1
    ensures !Run(Init(r), events).thrown ==> Run(Init(r), events).index <= |Run(Init(r), events).buffer|
  {
    RunInv(Init(r), events);
  }

  /** Only an empty page makes a handler throw. */
  lemma {:induction false} ThrowsOnlyOnEmptyPage<J>(s: Source<J>, events: seq<Event<J>>)
    requires !s.thrown
    requires forall i :: 0 <= i < |events| && events[i].Respond? && events[i].result.Some? ==> events[i].result.value.rows != []
    ensures !Run(s, events).thrown
    decreases |events|
  {
    if events != [] {
      ThrowsOnlyOnEmptyPage(Step(s, events[0]), events[1..]);
    }
  }

  // ----- Whole runs ----------------------------------------------------------

  lemma RunFirst<J>(s: Source<J>, e: Event<J>, events: seq<Event<J>>)
    ensures Run(s, [e] + events) == Run(Step(s, e), events)
  {
    assert ([e] + events)[0] == e && ([e] + events)[1..] == events;
  }

  lemma {:induction false} ChunksAppend<J>(a: seq<Row<J>>, b: seq<Row<J>>)
    ensures Chunks(a + b) == Chunks(a) + Chunks(b)
  {
    if a == [] {
      assert a + b == b;
    } else {
      assert (a + b)[1..] == a[1..] + b;
      ChunksAppend(a[1..], b);
    }
  }

  /** `n` calls of `_read`. */
  function Reads<J>(n: nat): seq<Event<J>> {
    if n == 0 then [] else [Read] + Reads(n - 1)
  }

  /** `n` pushes of ''. */
  function Blanks(n: nat): seq<Chunk> {
    if n == 0 then [] else [Text("")] + Blanks(n - 1)
  }

  /** The calls and answers of a full run, when the runtime keeps reading and
      the store answers each request with the next page: `unread` reads
      consume the current page; then one read that requests the next page,
      `waits[i]` reads made while that request is outstanding, and its
      answer; after the last page, the read that ends the stream. */
  function Schedule<J>(unread: nat, pages: seq<IteratorResult<J>>, waits: seq<nat>): seq<Event<J>>
    requires |waits| == |pages|
    decreases |pages|
  {
    if pages == [] then Reads(unread) + [Read]
    else Reads(unread) + [Read] + Reads(waits[0]) + [Respond(Some(pages[0]))]
         + Schedule(if |pages[0].rows| > 0 then |pages[0].rows| - 1 else 0, pages[1..], waits[1..])
  }

  /** The chunks a full run pushes after the current page: for every later
      page, '' for the read that requested it and one '' for each read made
      while the request was outstanding, then its rows; finally null. */
  function LaterChunks<J>(pages: seq<IteratorResult<J>>, waits: seq<nat>): seq<Chunk>
    requires |waits| == |pages|
    decreases |pages|
  {
    if pages == [] then [EndOfStream]
    else [Text("")] + Blanks(waits[0]) + Chunks(pages[0].rows) + LaterChunks(pages[1..], waits[1..])
  }

  /** No page the store hands out is empty. */
  ghost predicate NonEmptyPages<J>(pages: seq<IteratorResult<J>>) {
    forall i :: 0 <= i < |pages| ==> pages[i].rows != []
  }

  /** `unread` reads within the page push the next `unread` raw rows in order. */
  lemma {:induction false} ReadsInOrder<J>(s: Source<J>, n: nat)
    requires s.index + n <= |s.buffer|
    ensures var s' := Run(s, Reads(n));
      s' == s.(index := s.index + n, pushes := s.pushes + Chunks(s.buffer[s.index..s.index + n]))
    decreases n
  {
    if n == 0 {
      assert s.buffer[s.index..s.index] == [];
    } else {
      RunFirst(s, Read, Reads(n - 1));
      ReadFromBuffer(s);
      var s1 := ReadStep(s);
      ReadsInOrder(s1, n - 1);
      assert s.buffer[s.index..s.index + n] == [s.buffer[s.index]] + s.buffer[s.index + 1..s.index + n];
      ChunksAppend([s.buffer[s.index]], s.buffer[s.index + 1..s.index + n]);
    }
  }

  /** While a request is outstanding, `n` reads push `n` times '' and change
      nothing else: the `buffering` guard keeps them from requesting again. */
  lemma {:induction false} ReadsWhileBuffering<J>(s: Source<J>, n: nat)
    requires s.index >= |s.buffer| && s.buffering
    ensures Run(s, Reads(n)) == s.(pushes := s.pushes + Blanks(n))
    decreases n
  {
    if n > 0 {
      RunFirst(s, Read, Reads(n - 1));
      var s1 := ReadStep(s);
      assert s1 == s.(pushes := s.pushes + [Text("")]);
      ReadsWhileBuffering(s1, n - 1);
      assert s.pushes + [Text("")] + Blanks(n - 1) == s.pushes + Blanks(n);
    }
  }

  /** With the page used up, one `_read` requests the next page and pushes '';
      `w` reads while it is outstanding push ''; its answer, a non-empty page,
      becomes the buffer and its first raw row is pushed. */
  lemma FetchNextPage<J>(s: Source<J>, w: nat, p: IteratorResult<J>, rest: seq<Event<J>>)
    requires s.index == |s.buffer| && s.hasMore && !s.buffering && s.outstanding == 0 && p.rows != []
    ensures Run(s, [Read] + (Reads(w) + ([Respond(Some(p))] + rest)))
         == Run(s.(buffer := p.rows, hasMore := p.hasMore, index := 1,
                   pushes := s.pushes + [Text("")] + Blanks(w) + [ChunkOf(p.rows[0])]), rest)
  {
    RunFirst(s, Read, Reads(w) + ([Respond(Some(p))] + rest));
    var s2 := ReadStep(s);
    RunAppend(s2, Reads(w), [Respond(Some(p))] + rest);
    ReadsWhileBuffering(s2, w);
    var s3 := s2.(pushes := s2.pushes + Blanks(w));
    RunFirst(s3, Respond(Some(p)), rest);
    ResponseWithPage(s3, p);
  }

  lemma ScheduleFirst<J>(unread: nat, pages: seq<IteratorResult<J>>, waits: seq<nat>)
    requires |waits| == |pages| && pages != [] && pages[0].rows != []
    ensures Schedule(unread, pages, waits)
         == Reads(unread) + ([Read] + (Reads(waits[0]) + ([Respond(Some(pages[0]))]
            + Schedule(|pages[0].rows| - 1, pages[1..], waits[1..]))))
  {
  }

  /** The chunks of one fetched page: '' for the read that requested it, ''
      for each read while it was outstanding, its first row from the answer,
      its other rows from later reads. */
  lemma PageChunks<J>(before: seq<Chunk>, pages: seq<IteratorResult<J>>, waits: seq<nat>)
    requires |waits| == |pages| && pages != [] && pages[0].rows != []
    ensures before + [Text("")] + Blanks(waits[0]) + [ChunkOf(pages[0].rows[0])] + Chunks(pages[0].rows[1..])
              + LaterChunks(pages[1..], waits[1..])
         == before + LaterChunks(pages, waits)
  {
    var rows := pages[0].rows;
    var blanks, later := Blanks(waits[0]), LaterChunks(pages[1..], waits[1..]);
    assert rows == [rows[0]] + rows[1..];
    ChunksAppend([rows[0]], rows[1..]);
    calc {
      before + [Text("")] + blanks + [ChunkOf(rows[0])] + Chunks(rows[1..]) + later;
      before + ([Text("")] + blanks + ([ChunkOf(rows[0])] + Chunks(rows[1..])) + later);
      before + ([Text("")] + blanks + Chunks(rows) + later);
    }
  }

  /** A full run over the current page and then pages P1 … Pn, each but the
      last reporting more to come, with any number of reads while each fetch
      is outstanding: the stream pushes the unread raw rows of the current
      page, then for each page '' for the read that requested it, one '' per
      read made while it was outstanding, and its raw rows; finally exactly
      one null, with no request left outstanding. */
  lemma {:induction false} StreamDrainsAll<J>(s: Source<J>, pages: seq<IteratorResult<J>>, waits: seq<nat>)
    requires Inv(s) && !s.thrown && !s.buffering
    requires s.hasMore == (pages != []) && PagesEndAtLast(pages) && NonEmptyPages(pages)
    requires |waits| == |pages|
    ensures var s' := Run(s, Schedule(|s.buffer| - s.index, pages, waits));
      && s'.pushes == s.pushes + Chunks(s.buffer[s.index..]) + LaterChunks(pages, waits)
      && s'.outstanding == 0 && !s'.buffering && !s'.thrown
    decreases |pages|
  {
    var unread := |s.buffer| - s.index;
    ReadsInOrder(s, unread);
    assert s.buffer[s.index..s.index + unread] == s.buffer[s.index..];
    var s1 := s.(index := |s.buffer|, pushes := s.pushes + Chunks(s.buffer[s.index..]));
    assert Run(s, Reads(unread)) == s1;
    if pages == [] {
      RunAppend(s, Reads(unread), [Read]);
      RunFirst(s1, Read, []);
    } else {
      var p, later, w := pages[0], pages[1..], waits[0];
      assert p.rows != [];
      var rest := Schedule(|p.rows| - 1, later, waits[1..]);
      ScheduleFirst(unread, pages, waits);
      RunAppend(s, Reads(unread), [Read] + (Reads(w) + ([Respond(Some(p))] + rest)));
      FetchNextPage(s1, w, p, rest);
      var s3 := s1.(buffer := p.rows, hasMore := p.hasMore, index := 1,
                    pushes := s1.pushes + [Text("")] + Blanks(w) + [ChunkOf(p.rows[0])]);
      PagesEndAtLastTail(pages);
      assert NonEmptyPages(later) by {
        forall i | 0 <= i < |later| ensures later[i].rows != [] {
          assert later[i] == pages[i + 1];
        }
      }
      assert s3.buffer[s3.index..] == p.rows[1..];
      StreamDrainsAll(s3, later, waits[1..]);
      PageChunks(s1.pushes, pages, waits);
    }
  }

  lemma RunAppend<J>(s: Source<J>, a: seq<Event<J>>, b: seq<Event<J>>)
    ensures Run(s, a + b) == Run(Run(s, a), b)
    decreases |a|
  {
    if a == [] {
      assert a + b == b;
    } else {
      assert (a + b)[0] == a[0];
      assert (a + b)[1..] == a[1..] + b;
      RunAppend(Step(s, a[0]), a[1..], b);
    }
  }

  /** Reads while a request is outstanding push only ''. */
  lemma {:induction false} BlanksNeverEnd(n: nat)
    ensures |Blanks(n)| == n
    ensures forall i :: 0 <= i < n ==> Blanks(n)[i] == Text("")
  {
    if n > 0 {
      BlanksNeverEnd(n - 1);
    }
  }

  /** In such a run null is pushed once, as the last chunk. */
  lemma {:induction false} EndOfStreamOnce<J>(pages: seq<IteratorResult<J>>, waits: seq<nat>)
    requires |waits| == |pages|
    ensures LaterChunks(pages, waits) != [] && Last(LaterChunks(pages, waits)) == EndOfStream
    ensures forall i :: 0 <= i < |LaterChunks(pages, waits)| - 1 ==> LaterChunks(pages, waits)[i] != EndOfStream
    decreases |pages|
  {
    if pages != [] {
      var chunks, later := LaterChunks(pages, waits), LaterChunks(pages[1..], waits[1..]);
      EndOfStreamOnce(pages[1..], waits[1..]);
      ChunksNeverEnd(pages[0].rows);
      BlanksNeverEnd(waits[0]);
      var head := [Text("")] + Blanks(waits[0]) + Chunks(pages[0].rows);
      assert chunks == head + later;
      forall i | 0 <= i < |chunks| - 1 ensures chunks[i] != EndOfStream {
        if i >= |head| {
          assert chunks[i] == later[i - |head|];
        } else if i >= 1 + waits[0] {
          assert head[i] == Chunks(pages[0].rows)[i - 1 - waits[0]];
        } else if i > 0 {
          assert head[i] == Blanks(waits[0])[i - 1];
        }
      }
    }
  }

  /** A row never pushes null. */
  lemma {:induction false} ChunksNeverEnd<J>(rows: seq<Row<J>>)
    ensures |Chunks(rows)| == |rows|
    ensures forall i :: 0 <= i < |rows| ==> Chunks(rows)[i] == ChunkOf(rows[i]) != EndOfStream
  {
    if rows != [] {
      ChunksNeverEnd(rows[1..]);
    }
  }

  // ----- The object ----------------------------------------------------------

  /** A Readable object: the fields of lib/Readable.js, updated in place. */
  class Readable<J> {
    const iteratorId: IteratorId
    var buffer: seq<Row<J>>
    var hasMore: bool
    var index: nat
    var length: int
    var buffering: bool
    var outstanding: nat
    var pushes: seq<Chunk>
    var thrown: bool

    ghost predicate Valid()
      reads this
    {
      length == |buffer| - 1
    }

    function State(): Source<J>
      reads this
    {
      Source(iteratorId, buffer, index, hasMore, buffering, outstanding, pushes, thrown)
    }

    constructor (result: IteratorResult<J>)
      ensures Valid() && State() == Init(result)
    {
      iteratorId := result.iteratorId;
      buffer := result.rows;
      hasMore := result.hasMore;
      index := 0;
      length := |result.rows| - 1;
      buffering := false;
      outstanding := 0;
      pushes := [];
      thrown := false;
    }

    /** `push(chunk)`; the runtime's back-pressure answer is not modelled. */
    method Push(chunk: Chunk)
      modifies this`pushes
      ensures pushes == old(pushes) + [chunk]
    {
      pushes := pushes + [chunk];
    }

    method Read()
      requires Valid()
      modifies this
      ensures Valid() && State() == ReadStep(old(State()))
    {
      if length >= index {
        var row := buffer[index];
        index := index + 1;
        Push(ChunkOf(row));
        return;
      }
      if hasMore && !buffering {
        buffering := true;
        outstanding := outstanding + 1;
        Push(Text(""));
        return;
      }
      if buffering {
        Push(Text(""));
        return;
      }
      Push(EndOfStream);
    }

    /** The store answers the outstanding `iteratorNext` request. */
    method IteratorNextReturned(result: Option<IteratorResult<J>>)
      requires Valid() && outstanding > 0
      modifies this
      ensures Valid() && State() == ResponseStep(old(State()), result)
    {
      outstanding := outstanding - 1;
      if result.Some? {
        var r := result.value;
        hasMore := r.hasMore;
        buffer := r.rows;
        index := 0;
        length := |buffer| - 1;
        var i := index;
        index := index + 1;
        if i >= |buffer| {
          thrown := true;
          return;
        }
        Push(ChunkOf(buffer[i]));
      }
      buffering := false;
    }
  }
}
