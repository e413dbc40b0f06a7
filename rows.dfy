/** Rows and pages as the store's RPC layer hands them to a cursor, and
    `parseRow`, the in-place decoding both cursors of lib/Iterator.js and
    lib/Readable.js define. */
module Rows {

  datatype Option<+T> = None | Some(value: T)

  /** One element of `rowsWithMetadata`. `jsonRow` is the serialized row sent by
      the proxy (None when the property is absent or was deleted); `row` is the
      decoded value that parsing adds. The metadata the cursors never read is
      not modelled. */
  datatype Row<J> = Row(jsonRow: Option<string>, row: Option<J>)

  /** JavaScript truthiness of `row.jsonRow`: present and not the empty string. */
  predicate HasJsonRow<J>(r: Row<J>) {
    r.jsonRow.Some? && r.jsonRow.value != ""
  }

  /** `parseRow` on a row object: `row.row = JSON.parse(row.jsonRow)` followed by
      `delete row.jsonRow`, done only when `jsonRow` is truthy. `decode` stands
      for `JSON.parse` and is left uninterpreted. */
  function ParseRow<J>(decode: string -> J, r: Row<J>): Row<J> {
    if HasJsonRow(r) then r.(row := Some(decode(r.jsonRow.value)), jsonRow := None) else r
  }

  /** `parseRow(buffer[i])`: the row object at `i` is updated in place; an index
      outside the array reads `undefined`, which `parseRow` returns untouched. */
  function ParseAt<J>(decode: string -> J, buffer: seq<Row<J>>, i: int): seq<Row<J>> {
    if 0 <= i < |buffer| then buffer[i := ParseRow(decode, buffer[i])] else buffer
  }

  /** The JavaScript value `buffer[i]`: the row, or `undefined` outside the array. */
  function At<J>(buffer: seq<Row<J>>, i: int): Option<Row<J>> {
    if 0 <= i < |buffer| then Some(buffer[i]) else None
  }

  /** The last element of a sequence: the most recent entry of a log. */
  function Last<T>(s: seq<T>): T
    requires s != []
  {
    s[|s| - 1]
  }

  /** Every row of `rows` after `parseRow`, in order. */
  function ParseAll<J>(decode: string -> J, rows: seq<Row<J>>): seq<Row<J>> {
    if rows == [] then [] else [ParseRow(decode, rows[0])] + ParseAll(decode, rows[1..])
  }

  /** After parsing, a row carries no `jsonRow`, and it carries the decoded
      `jsonRow` exactly when it had one; a row without one is left as it was. */
  lemma ParseRowEffect<J>(decode: string -> J, r: Row<J>)
    ensures !HasJsonRow(ParseRow(decode, r))
    ensures HasJsonRow(r) ==> ParseRow(decode, r).row == Some(decode(r.jsonRow.value))
                              && ParseRow(decode, r).jsonRow == None
    ensures !HasJsonRow(r) <==> ParseRow(decode, r) == r
  {
  }

  /** Parsing twice is parsing once. */
  lemma ParseRowIdempotent<J>(decode: string -> J, r: Row<J>)
    ensures ParseRow(decode, ParseRow(decode, r)) == ParseRow(decode, r)
  {
  }

  /** `parseRow(buffer[i])` changes at most the row at `i`, and leaves it parsed. */
  lemma ParseAtEffect<J>(decode: string -> J, buffer: seq<Row<J>>, i: int)
    ensures |ParseAt(decode, buffer, i)| == |buffer|
    ensures forall k :: 0 <= k < |buffer| && k != i ==> ParseAt(decode, buffer, i)[k] == buffer[k]
    ensures 0 <= i < |buffer| ==> ParseAt(decode, buffer, i)[i] == ParseRow(decode, buffer[i])
    ensures 0 <= i < |buffer| && !HasJsonRow(buffer[i]) ==> ParseAt(decode, buffer, i) == buffer
  {
  }

  /** ParseAll keeps the length and parses each row at its own position. */
  lemma {:induction false} ParseAllAt<J>(decode: string -> J, rows: seq<Row<J>>)
    ensures |ParseAll(decode, rows)| == |rows|
    ensures forall k :: 0 <= k < |rows| ==> ParseAll(decode, rows)[k] == ParseRow(decode, rows[k])
  {
    if rows != [] {
      ParseAllAt(decode, rows[1..]);
    }
  }

  /** ParseAll distributes over concatenation of pages. */
  lemma {:induction false} ParseAllAppend<J>(decode: string -> J, a: seq<Row<J>>, b: seq<Row<J>>)
    ensures ParseAll(decode, a + b) == ParseAll(decode, a) + ParseAll(decode, b)
  {
    if a == [] {
      assert a + b == b;
    } else {
      assert (a + b)[1..] == a[1..] + b;
      ParseAllAppend(decode, a[1..], b);
    }
  }

  // ----- Pages -----------------------------------------------------------------

  /** The server-side handle (`iteratorResult.iteratorId`). */
  type IteratorId = int

  /** A TIteratorResult: the handle, `result.rowsWithMetadata` and `hasMore`. */
  datatype IteratorResult<J> = IteratorResult(iteratorId: IteratorId, rows: seq<Row<J>>, hasMore: bool)

  /** The pages a store hands out after the current one: each but the last
      says there is more, the last says there is not. */
  ghost predicate PagesEndAtLast<J>(pages: seq<IteratorResult<J>>) {
    forall i :: 0 <= i < |pages| ==> pages[i].hasMore == (i < |pages| - 1)
  }

  lemma PagesEndAtLastTail<J>(pages: seq<IteratorResult<J>>)
    requires pages != [] && PagesEndAtLast(pages)
    ensures PagesEndAtLast(pages[1..])
  {
    var later := pages[1..];
    forall i | 0 <= i < |later| ensures later[i].hasMore == (i < |later| - 1) {
      assert later[i] == pages[i + 1];
    }
  }
}
