/** Parsing a DataRow body into a table of cell positions, and reading cells through it. */
module DataRow {
  import opened Wrappers
  import opened Bytes
  import Seqs

  const CELL_INLINE_CAP := 12

  /** Offset and length of a cell in the body; length -1 is NULL. */
  datatype Entry = Entry(offset: nat, len: int)

  const UNUSED := Entry(0, 0)

  /** Up to twelve entries are kept in the row itself, more in a separate slice. */
  datatype Cells = Inline(data: seq<Entry>, len: nat) | Heap(entries: seq<Entry>)

  datatype Row = Row(body: seq<byte>, cells: Cells) {
    function Entries(): seq<Entry> {
      match cells
      case Inline(data, len) => if len <= |data| then data[..len] else data
      case Heap(entries) => entries
    }

    /** Every entry that is not NULL lies within the body. */
    ghost predicate Valid() {
      && (cells.Inline? ==> |cells.data| == CELL_INLINE_CAP && cells.len <= CELL_INLINE_CAP)
      && forall i :: 0 <= i < |Entries()| ==> Entries()[i].len >= 0 ==> Entries()[i].offset + Entries()[i].len <= |body|
    }

    function Len(): nat { |Entries()| }

    /** None for NULL and for an index out of range. */
    function Cell(idx: nat): Option<seq<byte>>
      requires Valid()
    {
      if idx >= |Entries()| || Entries()[idx].len < 0 then None
      else Some(body[Entries()[idx].offset..Entries()[idx].offset + Entries()[idx].len])
    }

    /** None for an index out of range, Some(None) for NULL. */
    function TryCell(idx: nat): Option<Option<seq<byte>>>
      requires Valid()
    {
      if idx >= |Entries()| then None
      else if Entries()[idx].len < 0 then Some(None)
      else Some(Some(body[Entries()[idx].offset..Entries()[idx].offset + Entries()[idx].len]))
    }
  }

  datatype Error = NoCount | NegativeCount | TruncatedLength | NegativeLength | TruncatedData

  // ----- what the server sends -----

  type Cell = Option<seq<byte>>

  function CellBytes(c: Cell): seq<byte> { match c case None => I32(-1) case Some(d) => I32(|d|) + d }

  function CellsBytes(cs: seq<Cell>): seq<byte> { if cs == [] then [] else CellBytes(cs[0]) + CellsBytes(cs[1..]) }

  function RowBytes(cs: seq<Cell>): seq<byte> { I16(|cs|) + CellsBytes(cs) }

  // ----- the parser -----

  /** `read_cell_entry`: the entry and the offset after it. */
  function ReadEntry(body: seq<byte>, offset: nat): Result<(Entry, nat), Error> {
    if offset + 4 > |body| then Err(TruncatedLength) else
      var len := ToI32(body[offset..offset + 4]);
      if len == -1 then Ok((Entry(0, -1), offset + 4))
      else if len < 0 then Err(NegativeLength)
      else if offset + 4 + len > |body| then Err(TruncatedData)
      else Ok((Entry(offset + 4, len), offset + 4 + len))
  }

  function ReadEntries(body: seq<byte>, offset: nat, n: nat): Result<seq<Entry>, Error>
    decreases n
  {
    if n == 0 then Ok([]) else
      match ReadEntry(body, offset)
      case Err(e) => Err(e)
      case Ok((entry, next)) => match ReadEntries(body, next, n - 1) case Err(e) => Err(e)
          case Ok(es) => Ok([entry] + es)
  }

  function Prepend(a: seq<Entry>, r: Result<seq<Entry>, Error>): Result<seq<Entry>, Error> {
    match r case Err(e) => Err(e) case Ok(b) => Ok(a + b)
  }

  lemma EntryStep(body: seq<byte>, offset: nat, n: nat, es: seq<Entry>)
    requires n > 0
    ensures var r := ReadEntry(body, offset);
            Prepend(es, ReadEntries(body, offset, n)) ==
              match r case Err(e) => Err(e) case Ok((entry, next)) => Prepend(es + [entry],
                  ReadEntries(body, next, n - 1))
  {
    var r := ReadEntry(body, offset);
    if r.Ok? && ReadEntries(body, r.value.1, n - 1).Ok? {
      Seqs.Assoc(es, [r.value.0], ReadEntries(body, r.value.1, n - 1).value);
    }
  }

  lemma PrependNothing(r: Result<seq<Entry>, Error>)
    ensures Prepend([], r) == r
  {
    if r.Ok? { assert [] + r.value == r.value; }
  }

  method ReadInline(body: seq<byte>, n: nat) returns (r: Result<Cells, Error>)
    requires n <= CELL_INLINE_CAP && |body| >= 2
    ensures match ReadEntries(body, 2, n)
            case Err(e) => r == Err(e)
            case Ok(es) => r.Ok? && r.value.Inline? && r.value.len == n == |es| && |r.value.data| == CELL_INLINE_CAP
                           && r.value.data[..n] == es
  {
    var data := new Entry[CELL_INLINE_CAP](_ => UNUSED);
    var offset := 2;
    PrependNothing(ReadEntries(body, 2, n));
    for i := 0 to n
      invariant Prepend(data[..i], ReadEntries(body, offset, n - i)) == ReadEntries(body, 2, n)
    {
      EntryStep(body, offset, n - i, data[..i]);
      var entry := ReadEntry(body, offset);
      if entry.Err? { return Err(entry.error); }
      data[i] := entry.value.0;
      offset := entry.value.1;
      assert data[..i + 1] == data[..i] + [entry.value.0];
    }
    assert data[..n] + [] == data[..n] && data[..][..n] == data[..n];
    return Ok(Inline(data[..], n));
  }

  method ReadHeap(body: seq<byte>, n: nat) returns (r: Result<Cells, Error>)
    requires n > CELL_INLINE_CAP && |body| >= 2
    ensures match ReadEntries(body, 2, n) case Err(e) => r == Err(e) case Ok(es) => r == Ok(Heap(es))
  {
    var entries: seq<Entry> := [];
    var offset := 2;
    PrependNothing(ReadEntries(body, 2, n));
    for i := 0 to n
      invariant Prepend(entries, ReadEntries(body, offset, n - i)) == ReadEntries(body, 2, n)
    {
      EntryStep(body, offset, n - i, entries);
      var entry := ReadEntry(body, offset);
      if entry.Err? { return Err(entry.error); }
      entries := entries + [entry.value.0];
      offset := entry.value.1;
    }
    assert entries + [] == entries;
    EntriesCount(body, 2, n);
    return Ok(Heap(entries));
  }

  lemma {:induction false} EntriesCount(body: seq<byte>, offset: nat, n: nat)
    ensures ReadEntries(body, offset, n).Ok? ==> |ReadEntries(body, offset, n).value| == n
    decreases n
  {
    if n > 0 && ReadEntry(body, offset).Ok? { EntriesCount(body, ReadEntry(body, offset).value.1, n - 1); }
  }

  /** What a body parses to, whichever storage its entries are put in. */
  function Parse(body: seq<byte>): Result<seq<Entry>, Error> {
    if |body| < 2 then Err(NoCount)
    else if ToI16(body[..2]) < 0 then Err(NegativeCount)
    else ReadEntries(body, 2, ToI16(body[..2]))
  }

  /** `parse_data_row`.  A body is shorter than 2^31 bytes, so every offset fits its 32-bit field. */
  method ParseDataRow(body: seq<byte>) returns (r: Result<Row, Error>)
    requires |body| < TWO31
    ensures match Parse(body)
            case Err(e) => r == Err(e)
            case Ok(es) => r.Ok? && r.value.body == body && r.value.Valid() && r.value.Entries() == es
                           && (r.value.cells.Inline? <==> |es| <= CELL_INLINE_CAP)
                           && forall i :: 0 <= i < |es| ==> es[i].offset < TWO32
  {
    if |body| < 2 { return Err(NoCount); }
    var n := ToI16(body[..2]);
    if n < 0 { return Err(NegativeCount); }
    EntriesValid(body, 2, n);
    EntriesCount(body, 2, n);
    var cells;
    if n <= CELL_INLINE_CAP {
      cells := ReadInline(body, n);
    } else {
      cells := ReadHeap(body, n);
    }
    if cells.Err? { return Err(cells.error); }
    return Ok(Row(body, cells.value));
  }

  lemma {:induction false} EntriesValid(body: seq<byte>, offset: nat, n: nat)
    ensures var r := ReadEntries(body, offset, n);
            r.Ok? ==> forall i :: 0 <= i < |r.value| ==>
              r.value[i].offset <= |body| && (r.value[i].len >= 0 ==> r.value[i].offset + r.value[i].len <= |body|)
    decreases n
  {
    if n > 0 && ReadEntry(body, offset).Ok? { EntriesValid(body, ReadEntry(body, offset).value.1, n - 1); }
  }

  // ----- the parser against the sender -----

  function Read(body: seq<byte>, e: Entry): Cell
    requires e.len >= 0 ==> e.offset + e.len <= |body|
  {
    if e.len < 0 then None else Some(body[e.offset..e.offset + e.len])
  }

  /** The cells that a list of entries points at. */
  ghost predicate PointsAt(body: seq<byte>, es: seq<Entry>, cs: seq<Cell>) {
    |es| == |cs| && forall i :: 0 <= i < |es| ==>
      (es[i].len >= 0 ==> es[i].offset + es[i].len <= |body|) && Read(body, es[i]) == cs[i]
  }

  lemma ReadEntryOfCell(body: seq<byte>, offset: nat, c: Cell, rest: seq<byte>)
    requires offset <= |body| && body[offset..] == CellBytes(c) + rest && (c.Some? ==> |c.value| < TWO31)
    ensures ReadEntry(body, offset).Ok?
    ensures var (e, next) := ReadEntry(body, offset).value;
            next <= |body| && body[next..] == rest && (e.len >= 0 ==> e.offset + e.len <= |body|) && Read(body, e) == c
  {
    var tail := body[offset..];
    assert body[offset..offset + 4] == tail[..4];
    match c {
      case None =>
        I32RoundTrip(-1);
        assert tail[..4] == I32(-1) && body[offset + 4..] == tail[4..] == rest;
      case Some(d) =>
        I32RoundTrip(|d|);
        assert tail[..4] == I32(|d|);
        assert body[offset + 4..offset + 4 + |d|] == tail[4..4 + |d|] == d;
        assert body[offset + 4 + |d|..] == tail[4 + |d|..] == rest;
    }
  }

  lemma CellsSplit(cs: seq<Cell>, rest: seq<byte>)
    requires cs != []
    ensures CellsBytes(cs) + rest == CellBytes(cs[0]) + (CellsBytes(cs[1..]) + rest)
    ensures cs[0].Some? ==> |cs[0].value| <= |CellsBytes(cs) + rest|
  {
    Seqs.Assoc(CellBytes(cs[0]), CellsBytes(cs[1..]), rest);
  }

  lemma PointsCons(body: seq<byte>, e: Entry, es: seq<Entry>, cs: seq<Cell>)
    requires cs != [] && PointsAt(body, es, cs[1..])
    requires (e.len >= 0 ==> e.offset + e.len <= |body|) && Read(body, e) == cs[0]
    ensures PointsAt(body, [e] + es, cs)
  {
  }

  lemma EntriesCons(body: seq<byte>, offset: nat, n: nat, e: Entry, next: nat, es: seq<Entry>)
    requires n > 0 && ReadEntry(body, offset) == Ok((e, next)) && ReadEntries(body, next, n - 1) == Ok(es)
    ensures ReadEntries(body, offset, n) == Ok([e] + es)
  {
  }

  /** The first of several cells is read, and the rest remain. */
  lemma ReadsNext(body: seq<byte>, offset: nat, cs: seq<Cell>, rest: seq<byte>)
      returns (e: Entry, next: nat)
    requires offset <= |body| < TWO31 && cs != [] && body[offset..] == CellsBytes(cs) + rest
    ensures ReadEntry(body, offset) == Ok((e, next))
    ensures next <= |body| && body[next..] == CellsBytes(cs[1..]) + rest && (e.len >= 0 ==> e.offset + e.len <= |body|)
        && Read(body, e) == cs[0]
  {
    CellsSplit(cs, rest);
    assert |body[offset..]| <= |body|;
    ReadEntryOfCell(body, offset, cs[0], CellsBytes(cs[1..]) + rest);
    e, next := ReadEntry(body, offset).value.0, ReadEntry(body, offset).value.1;
  }

  lemma JoinCells(body: seq<byte>, offset: nat, cs: seq<Cell>, e: Entry, next: nat, more: seq<Entry>)
    requires cs != [] && ReadEntry(body, offset) == Ok((e, next)) && (e.len >= 0 ==> e.offset + e.len <= |body|)
        && Read(body, e) == cs[0]
    requires ReadEntries(body, next, |cs[1..]|) == Ok(more) && PointsAt(body, more, cs[1..])
    ensures ReadEntries(body, offset, |cs|) == Ok([e] + more) && PointsAt(body, [e] + more, cs)
  {
    EntriesCons(body, offset, |cs|, e, next, more);
    PointsCons(body, e, more, cs);
  }

  lemma {:induction false} ReadsCells(body: seq<byte>, offset: nat, cs: seq<Cell>, rest: seq<byte>)
      returns (es: seq<Entry>)
    requires offset <= |body| < TWO31 && body[offset..] == CellsBytes(cs) + rest
    ensures ReadEntries(body, offset, |cs|) == Ok(es) && PointsAt(body, es, cs)
    decreases |cs|
  {
    if cs == [] {
      es := [];
    } else {
      var e, next := ReadsNext(body, offset, cs, rest);
      var more := ReadsCells(body, next, cs[1..], rest);
      JoinCells(body, offset, cs, e, next, more);
      es := [e] + more;
    }
  }

  lemma SentRowParses(cs: seq<Cell>) returns (es: seq<Entry>)
    requires |cs| < TWO15 && |RowBytes(cs)| < TWO31
    ensures Parse(RowBytes(cs)) == Ok(es) && PointsAt(RowBytes(cs), es, cs)
  {
    var body := RowBytes(cs);
    I16RoundTrip(|cs|);
    AfterHeader(I16(|cs|), CellsBytes(cs), []);
    assert body + [] == body;
    es := ReadsCells(body, 2, cs, []);
  }

  lemma CellsOfPoints(row: Row, cs: seq<Cell>)
    requires row.Valid() && PointsAt(row.body, row.Entries(), cs)
    ensures row.Len() == |cs|
    ensures forall i: nat :: row.TryCell(i) == if i < |cs| then Some(cs[i]) else None
    ensures forall i: nat :: row.Cell(i) == if i < |cs| then cs[i] else None
  {
    forall i: nat | i < |cs| ensures row.TryCell(i) == Some(cs[i]) && row.Cell(i) == cs[i] {
      assert Read(row.body, row.Entries()[i]) == cs[i];
    }
  }

  /** Main result: a row the server sent is read back cell by cell, NULL and out of range told apart by `try_cell`. */
  lemma RowRoundTrip(cs: seq<Cell>, row: Row)
    requires |cs| < TWO15 && |RowBytes(cs)| < TWO31
    requires row.body == RowBytes(cs) && row.Valid() && Parse(row.body) == Ok(row.Entries())
    ensures row.Len() == |cs|
    ensures forall i: nat :: row.TryCell(i) == if i < |cs| then Some(cs[i]) else None
    ensures forall i: nat :: row.Cell(i) == if i < |cs| then cs[i] else None
  {
    var es := SentRowParses(cs);
    CellsOfPoints(row, cs);
  }

  // ----- exactly which bodies are accepted -----

  /** An accepted entry was some cell's bytes. */
  lemma EntryIsCell(body: seq<byte>, offset: nat) returns (c: Cell)
    requires offset <= |body| && ReadEntry(body, offset).Ok?
    ensures var next := ReadEntry(body, offset).value.1; offset <= next <= |body| && body[offset..next] == CellBytes(c)
  {
    var (e, next) := ReadEntry(body, offset).value;
    var len := ToI32(body[offset..offset + 4]);
    I32Inverse(body[offset..offset + 4]);
    if len == -1 {
      c := None;
    } else {
      c := Some(body[offset + 4..next]);
      assert body[offset..next] == body[offset..offset + 4] + body[offset + 4..next];
    }
  }

  lemma {:induction false} BigEndianInverse(s: seq<byte>)
    ensures BigEndian(FromBigEndian(s), |s|) == s
  {
    if s != [] {
      var front, last := s[..|s| - 1], s[|s| - 1];
      BigEndianInverse(front);
      assert FromBigEndian(s) / 256 == FromBigEndian(front) && FromBigEndian(s) % 256 == last;
      assert s == front + [last];
    }
  }

  lemma I32Inverse(s: seq<byte>)
    requires |s| == 4
    ensures I32(ToI32(s)) == s
  {
    Widths();
    BigEndianInverse(s);
    hide BigEndian, FromBigEndian, Pow256;
    assert ToI32(s) % TWO32 == FromBigEndian(s);
  }

  lemma I16Inverse(s: seq<byte>)
    requires |s| == 2
    ensures I16(ToI16(s)) == s
  {
    Widths();
    BigEndianInverse(s);
    assert ToI16(s) % TWO16 == FromBigEndian(s);
  }

  lemma TwoSlices(body: seq<byte>, i: nat, j: nat, k: nat)
    requires i <= j <= k <= |body|
    ensures body[i..k] == body[i..j] + body[j..k]
  {
  }

  lemma CellsCons(c: Cell, more: seq<Cell>)
    ensures CellsBytes([c] + more) == CellBytes(c) + CellsBytes(more)
  {
    assert ([c] + more)[1..] == more;
  }

  lemma {:induction false} EntriesAreCells(body: seq<byte>, offset: nat, n: nat) returns (cs: seq<Cell>, end: nat)
    requires offset <= |body| && ReadEntries(body, offset, n).Ok?
    ensures |cs| == n && offset <= end <= |body| && body[offset..end] == CellsBytes(cs)
    decreases n
  {
    if n == 0 {
      cs, end := [], offset;
    } else {
      var c := EntryIsCell(body, offset);
      var next := ReadEntry(body, offset).value.1;
      var more, last := EntriesAreCells(body, next, n - 1);
      cs, end := [c] + more, last;
      CellsCons(c, more);
      TwoSlices(body, offset, next, end);
    }
  }

  ghost predicate SentBy(body: seq<byte>, cs: seq<Cell>, extra: seq<byte>) {
    |cs| < TWO15 && body == RowBytes(cs) + extra
  }

  lemma ThreePieces(body: seq<byte>, end: nat)
    requires 2 <= end <= |body|
    ensures body == body[..2] + body[2..end] + body[end..]
  {
  }

  lemma AfterHeader(header: seq<byte>, cells: seq<byte>, extra: seq<byte>)
    requires |header| == 2
    ensures (header + cells + extra)[..2] == header && (header + cells + extra)[2..] == cells + extra
  {
  }

  lemma AcceptedIsRow(body: seq<byte>) returns (cs: seq<Cell>, extra: seq<byte>)
    requires Parse(body).Ok?
    ensures SentBy(body, cs, extra)
  {
    var end;
    cs, end := EntriesAreCells(body, 2, ToI16(body[..2]));
    extra := body[end..];
    I16Inverse(body[..2]);
    ThreePieces(body, end);
  }

  lemma RowIsAccepted(body: seq<byte>, cs: seq<Cell>, extra: seq<byte>)
    requires |body| < TWO31 && SentBy(body, cs, extra)
    ensures Parse(body).Ok?
  {
    I16RoundTrip(|cs|);
    AfterHeader(I16(|cs|), CellsBytes(cs), extra);
    var es := ReadsCells(body, 2, cs, extra);
  }

  /** The parser accepts exactly the bodies that start with some row's bytes; it does not look at what follows. */
  lemma AcceptsExactlyRows(body: seq<byte>)
    requires |body| < TWO31
    ensures Parse(body).Ok? <==> exists cs, extra :: SentBy(body, cs, extra)
  {
    if Parse(body).Ok? {
      var cs, extra := AcceptedIsRow(body);
      assert SentBy(body, cs, extra);
    }
    if cs, extra :| SentBy(body, cs, extra) { RowIsAccepted(body, cs, extra); }
  }
}
