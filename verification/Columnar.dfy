/** Rows flattened into one data string, an offset table and a bitmap of NULLs; and the accessor that reads a
    cell back. */
module Columnar {
  import opened Wrappers
  import opened Bytes

  type Cell = Option<seq<byte>>

  // ----- what the layout is -----

  function Flatten(rows: seq<seq<Cell>>): seq<Cell> { if rows == [] then [] else rows[0] + Flatten(rows[1..]) }

  function Text(c: Cell): seq<byte> { if c.Some? then c.value else [] }

  function Concat(cells: seq<Cell>): seq<byte> {
    if cells == [] then [] else Concat(cells[..|cells| - 1]) + Text(cells[|cells| - 1])
  }

  ghost predicate Rectangular(rows: seq<seq<Cell>>, cols: nat) { forall r :: 0 <= r < |rows| ==> |rows[r]| == cols }

  function Mask(k: nat): bv8
    requires k < 8
  {
    (1 as bv8) << k
  }

  predicate BitOf(b: bv8, k: nat)
    requires k < 8
  {
    b & Mask(k) != 0
  }

  lemma MaskIs(k: nat)
    requires k < 8
    ensures Mask(k) == if k == 0 then 1 else if k == 1 then 2 else if k == 2 then 4 else if k == 3 then 8
                       else if k == 4 then 16 else if k == 5 then 32 else if k == 6 then 64 else 128
  {
    if k == 0 {} else if k == 1 {} else if k == 2 {} else if k == 3 {} else if k == 4 {} else if k == 5 {}
        else if k == 6 {} else { assert k == 7; }
  }

  lemma MasksApart(b: bv8, m: bv8, n: bv8)
    requires m in {1, 2, 4, 8, 16, 32, 64, 128} && n in {1, 2, 4, 8, 16, 32, 64, 128}
    ensures ((b | m) & n != 0) == ((b & n != 0) || m == n)
  {
  }

  lemma SetOneBit(b: bv8, k: nat, j: nat)
    requires k < 8 && j < 8
    ensures BitOf(b | Mask(k), j) == (BitOf(b, j) || j == k)
  {
    MaskIs(k);
    MaskIs(j);
    MasksApart(b, Mask(k), Mask(j));
  }

  /** Where the bytes of cell `i` start. */
  function Start(cells: seq<Cell>, i: nat): nat
    requires i <= |cells|
  {
    if i == 0 then 0 else Start(cells, i - 1) + |Text(cells[i - 1])|
  }

  ghost predicate Offsets(offsets: seq<nat>, cells: seq<Cell>) {
    |offsets| == |cells| + 1 && forall i :: 0 <= i <= |cells| ==> offsets[i] == Start(cells, i)
  }

  /** Each bit of the bitmap belongs to one cell; the bits beyond the last cell are clear. */
  ghost predicate NullBits(nulls: seq<bv8>, cells: seq<Cell>) {
    forall i :: 0 <= i < 8 * |nulls| ==> BitOf(nulls[i / 8], i % 8) == (i < |cells| && cells[i].None?)
  }

  // ----- building it -----

  const MAX_U32 := TWO32 - 1

  function SaturatingAdd(a: nat, b: nat): nat { if a + b > MAX_U32 then MAX_U32 else a + b }

  datatype Result = Result(data: seq<byte>, offsets: seq<nat>, nulls: seq<bv8>, cols: nat)

  lemma {:induction false} FlattenSize(rows: seq<seq<Cell>>, cols: nat)
    requires Rectangular(rows, cols)
    ensures |Flatten(rows)| == |rows| * cols
  {
    if rows != [] {
      assert Rectangular(rows[1..], cols);
      FlattenSize(rows[1..], cols);
      assert |rows| * cols == cols + (|rows| - 1) * cols;
    }
  }

  lemma {:induction false} FlattenNext(rows: seq<seq<Cell>>, r: nat)
    requires r < |rows|
    ensures Flatten(rows[..r + 1]) == Flatten(rows[..r]) + rows[r]
    decreases r
  {
    if r == 0 {
      assert rows[..1][1..] == rows[..0] && rows[..1][0] == rows[0];
      assert rows[0] + Flatten([]) == rows[0] == [] + rows[0];
      assert Flatten(rows[..0]) == [];
    } else {
      assert rows[..r + 1][1..] == rows[1..][..r] && rows[..r][1..] == rows[1..][..r - 1];
      FlattenNext(rows[1..], r - 1);
      assert rows[0] + (Flatten(rows[1..][..r - 1]) + rows[r]) == rows[0] + Flatten(rows[1..][..r - 1]) + rows[r];
    }
  }

  lemma ConcatNext(cells: seq<Cell>, c: Cell)
    ensures Concat(cells + [c]) == Concat(cells) + Text(c)
  {
    assert (cells + [c])[..|cells|] == cells;
  }

  lemma {:induction false} StartInPrefix(cells: seq<Cell>, more: seq<Cell>, i: nat)
    requires i <= |cells|
    ensures Start(cells + more, i) == Start(cells, i)
    decreases i
  {
    if i > 0 { StartInPrefix(cells, more, i - 1); }
  }

  lemma {:induction false} StartIsLength(cells: seq<Cell>)
    ensures Start(cells, |cells|) == |Concat(cells)|
    decreases |cells|
  {
    if cells != [] {
      var front := cells[..|cells| - 1];
      StartIsLength(front);
      assert cells == front + [cells[|cells| - 1]];
      StartInPrefix(front, [cells[|cells| - 1]], |front|);
    }
  }

  lemma {:induction false} StartsIncrease(cells: seq<Cell>, i: nat, j: nat)
    requires i <= j <= |cells|
    ensures Start(cells, i) <= Start(cells, j)
    decreases j
  {
    if i < j { StartsIncrease(cells, i, j - 1); }
  }

  lemma OffsetsNext(offsets: seq<nat>, cells: seq<Cell>, c: Cell)
    requires Offsets(offsets, cells)
    ensures Offsets(offsets + [|Concat(cells)| + |Text(c)|], cells + [c])
  {
    forall i | 0 <= i <= |cells| ensures Start(cells + [c], i) == Start(cells, i) { StartInPrefix(cells, [c], i); }
    StartIsLength(cells);
  }

  /** One more cell: its own bit is written, all others stay. */
  method PushNull(nulls: array<bv8>, idx: nat)
    requires idx < 8 * nulls.Length
    modifies nulls
    ensures forall i :: 0 <= i < 8 * nulls.Length ==>
      BitOf(nulls[i / 8], i % 8) == (BitOf(old(nulls[i / 8]), i % 8) || i == idx)
  {
    forall i | 0 <= i < 8 * nulls.Length && i / 8 == idx / 8
      ensures BitOf(nulls[idx / 8] | Mask(idx % 8), i % 8) == (BitOf(nulls[i / 8], i % 8) || i == idx)
    {
      SetOneBit(nulls[idx / 8], idx % 8, i % 8);
    }
    nulls[idx / 8] := nulls[idx / 8] | Mask(idx % 8);
  }

  lemma SomeKeepsBits(nulls: seq<bv8>, cells: seq<Cell>, c: Cell)
    requires NullBits(nulls, cells) && c.Some?
    ensures NullBits(nulls, cells + [c])
  {
  }

  lemma NoneSetsBit(before: seq<bv8>, after: seq<bv8>, cells: seq<Cell>)
    requires NullBits(before, cells) && |after| == |before| && |cells| < 8 * |before|
    requires forall i :: 0 <= i < 8 * |before| ==>
      BitOf(after[i / 8], i % 8) == (BitOf(before[i / 8], i % 8) || i == |cells|)
    ensures NullBits(after, cells + [None])
  {
  }

  /** The total of a prefix is at most the total. */
  lemma PrefixFits(done: seq<Cell>, all: seq<Cell>)
    requires done <= all
    ensures |Concat(done)| <= |Concat(all)|
  {
    StartIsLength(done);
    StartIsLength(all);
    assert all == done + all[|done|..];
    StartInPrefix(done, all[|done|..], |done|);
    StartsIncrease(all, |done|, |all|);
  }

  /** The state of the loops after `cells`. */
  ghost predicate Laid(data: seq<byte>, cursor: nat, offsets: seq<nat>, nulls: seq<bv8>, cells: seq<Cell>) {
    data == Concat(cells) && cursor == |data| && Offsets(offsets, cells) && NullBits(nulls, cells)
  }

  method MarkNull(nulls: array<bv8>, idx: nat, ghost cells: seq<Cell>)
    requires NullBits(nulls[..], cells) && idx == |cells| < 8 * nulls.Length
    modifies nulls
    ensures NullBits(nulls[..], cells + [None])
  {
    ghost var before := nulls[..];
    PushNull(nulls, idx);
    NoneSetsBit(before, nulls[..], cells);
  }

  lemma AddFits(a: nat, n: nat)
    requires a + n < TWO32
    ensures SaturatingAdd(a, n % TWO32) == a + n
  {
  }

  lemma LaidNext(data: seq<byte>, cursor: nat, offsets: seq<nat>, nulls: seq<bv8>, nulls': seq<bv8>, cells: seq<Cell>,
      c: Cell)
    requires Laid(data, cursor, offsets, nulls, cells) && NullBits(nulls', cells + [c])
    ensures Laid(data + Text(c), cursor + |Text(c)|, offsets + [cursor + |Text(c)|], nulls', cells + [c])
  {
    ConcatNext(cells, c);
    OffsetsNext(offsets, cells, c);
  }

  method PushCell(cell: Cell, data0: seq<byte>, offsets0: seq<nat>, cursor0: nat, idx: nat, nulls: array<bv8>,
      ghost cells: seq<Cell>)
      returns (data: seq<byte>, offsets: seq<nat>, cursor: nat)
    requires Laid(data0, cursor0, offsets0, nulls[..], cells) && idx == |cells| < 8 * nulls.Length
    requires cursor0 + |Text(cell)| < TWO32
    modifies nulls
    ensures Laid(data, cursor, offsets, nulls[..], cells + [cell])
  {
    data, cursor := data0, cursor0;
    ghost var before := nulls[..];
    AddFits(cursor0, |Text(cell)|);
    match cell {
      case Some(bytes) =>
        SomeKeepsBits(nulls[..], cells, cell);
        data := data + bytes;
        cursor := SaturatingAdd(cursor, |bytes| % TWO32);
      case None =>
        MarkNull(nulls, idx, cells);
        assert data + [] == data;
    }
    LaidNext(data0, cursor0, offsets0, before, nulls[..], cells, cell);
    offsets := offsets0 + [cursor];
  }

  method PushRow(row: seq<Cell>, data0: seq<byte>, offsets0: seq<nat>, cursor0: nat, idx0: nat, nulls: array<bv8>,
                 ghost done: seq<Cell>, ghost all: seq<Cell>)
      returns (data: seq<byte>, offsets: seq<nat>, cursor: nat)
    requires done + row <= all && |Concat(all)| < TWO32 && |all| <= 8 * nulls.Length
    requires Laid(data0, cursor0, offsets0, nulls[..], done) && idx0 == |done|
    modifies nulls
    ensures Laid(data, cursor, offsets, nulls[..], done + row)
  {
    data, offsets, cursor := data0, offsets0, cursor0;
    var c := 0;
    assert done + row[..0] == done;
    while c < |row|
      invariant c <= |row| && Laid(data, cursor, offsets, nulls[..], done + row[..c])
    {
      ghost var now := done + row[..c];
      assert done + row[..c + 1] == now + [row[c]];
      assert now + [row[c]] <= all;
      PrefixFits(now + [row[c]], all);
      ConcatNext(now, row[c]);
      data, offsets, cursor := PushCell(row[c], data, offsets, cursor, idx0 + c, nulls, now);
      c := c + 1;
    }
    assert row[..c] == row;
  }

  lemma {:induction false} FlattenSplit(rows: seq<seq<Cell>>, r: nat)
    requires r <= |rows|
    ensures Flatten(rows) == Flatten(rows[..r]) + Flatten(rows[r..])
    decreases |rows| - r
  {
    if r == |rows| {
      assert rows[..r] == rows && Flatten(rows[r..]) == [];
    } else {
      FlattenSplit(rows, r + 1);
      FlattenNext(rows, r);
      assert rows[r..][1..] == rows[r + 1..];
      assert Flatten(rows[..r]) + rows[r] + Flatten(rows[r + 1..])
          == Flatten(rows[..r]) + (rows[r] + Flatten(rows[r + 1..]));
    }
  }

  lemma RowsFit(rows: seq<seq<Cell>>, r: nat, cols: nat)
    requires r < |rows| && Rectangular(rows, cols)
    ensures Flatten(rows[..r]) + rows[r] <= Flatten(rows)
    ensures |Flatten(rows[..r])| == r * cols && |Flatten(rows[..r]) + rows[r]| == (r + 1) * cols
  {
    FlattenSplit(rows, r + 1);
    FlattenNext(rows, r);
    FlattenSize(rows[..r], cols);
    FlattenSize(rows[..r + 1], cols);
  }

  lemma FlattenNone(rows: seq<seq<Cell>>)
    ensures Flatten(rows[..0]) == []
  {
  }

  lemma EmptyLaid(nulls: seq<bv8>)
    requires forall i :: 0 <= i < |nulls| ==> nulls[i] == 0
    ensures Laid([], 0, [0], nulls, [])
  {
  }

  lemma LaidIs(data: seq<byte>, cursor: nat, offsets: seq<nat>, nulls: seq<bv8>, cells: seq<Cell>)
    requires Laid(data, cursor, offsets, nulls, cells)
    ensures data == Concat(cells) && cursor == |data| && Offsets(offsets, cells) && NullBits(nulls, cells)
  {
  }

  method RowsToColumnar(rows: seq<seq<Cell>>, cols: nat) returns (result: Result)
    requires Rectangular(rows, cols)
    requires |Concat(Flatten(rows))| < TWO32
    ensures result.cols == cols && result.data == Concat(Flatten(rows))
    ensures Offsets(result.offsets, Flatten(rows)) && NullBits(result.nulls, Flatten(rows))
    ensures |result.nulls| == (|rows| * cols + 7) / 8
  {
    hide Laid, Offsets, NullBits, Flatten, Concat;
    var count := |rows| * cols;
    var nulls := new bv8[(count + 7) / 8](_ => 0);
    var data: seq<byte>, offsets: seq<nat> := [], [0];
    var cursor := 0;
    ghost var done: seq<Cell> := [];
    ghost var all := Flatten(rows);
    FlattenSize(rows, cols);
    FlattenNone(rows);
    EmptyLaid(nulls[..]);
    var r := 0;
    while r < |rows|
      invariant r <= |rows| && done == Flatten(rows[..r]) && |done| == r * cols
      invariant Laid(data, cursor, offsets, nulls[..], done)
    {
      FlattenNext(rows, r);
      RowsFit(rows, r, cols);
      data, offsets, cursor := PushRow(rows[r], data, offsets, cursor, r * cols, nulls, done, all);
      done := done + rows[r];
      r := r + 1;
    }
    assert rows[..r] == rows;
    LaidIs(data, cursor, offsets, nulls[..], done);
    result := Result(data, offsets, nulls[..], cols);
  }

  // ----- reading a cell back -----

  /** `idx >> 3` in JavaScript works on the number reduced to a signed 32-bit integer. */
  function ShiftRight3(idx: nat): int {
    var u := idx % TWO32;
    (if u < TWO31 then u else u - TWO32) / 8
  }

  /** An index outside a table yields undefined: no NULL bit, and null for a missing offset. */
  function CellOf(result: Result, idx: nat): Cell {
    var at := ShiftRight3(idx);
    if 0 <= at < |result.nulls| && BitOf(result.nulls[at], idx % 8) then None
    else if idx + 1 >= |result.offsets| then None
    else
      var start, end := result.offsets[idx], result.offsets[idx + 1];
      if start <= end <= |result.data| then Some(result.data[start..end]) else Some([])
  }

  /** `columnarCell`. */
  function ColumnarCell(result: Result, row: nat, col: nat): Cell { CellOf(result, row * result.cols + col) }

  ghost predicate Lays(result: Result, rows: seq<seq<Cell>>, cols: nat) {
    && result.cols == cols && result.data == Concat(Flatten(rows))
    && Offsets(result.offsets, Flatten(rows)) && NullBits(result.nulls, Flatten(rows))
    && |result.nulls| == (|rows| * cols + 7) / 8
  }

  lemma FlattenAt(rows: seq<seq<Cell>>, cols: nat, r: nat, c: nat)
    requires Rectangular(rows, cols) && r < |rows| && c < cols
    ensures r * cols + c < |Flatten(rows)| == |rows| * cols && Flatten(rows)[r * cols + c] == rows[r][c]
  {
    RowsFit(rows, r, cols);
    FlattenSize(rows, cols);
    assert r * cols + c < (r + 1) * cols;
    assert (Flatten(rows[..r]) + rows[r])[r * cols + c] == rows[r][c];
  }

  /** The bytes between two neighbouring offsets are one cell's bytes. */
  lemma {:induction false} CellBytes(cells: seq<Cell>, i: nat)
    requires i < |cells|
    ensures Start(cells, i) <= Start(cells, i + 1) <= |Concat(cells)|
    ensures Concat(cells)[Start(cells, i)..Start(cells, i + 1)] == Text(cells[i])
    decreases |cells|
  {
    var front, last := cells[..|cells| - 1], cells[|cells| - 1];
    assert cells == front + [last];
    StartIsLength(cells);
    StartIsLength(front);
    StartInPrefix(front, [last], i);
    if i < |front| {
      StartInPrefix(front, [last], i + 1);
      CellBytes(front, i);
      assert Concat(cells)[Start(cells, i)..Start(cells, i + 1)] == Concat(front)[Start(front, i)..Start(front, i + 1)];
    }
  }

  /** The offsets never decrease and stay within the data. */
  lemma OffsetsMonotone(result: Result, rows: seq<seq<Cell>>, cols: nat, i: nat, j: nat)
    requires Lays(result, rows, cols) && i <= j < |result.offsets|
    ensures result.offsets[i] <= result.offsets[j] <= |result.data|
  {
    var cells := Flatten(rows);
    StartsIncrease(cells, i, j);
    StartsIncrease(cells, j, |cells|);
    StartIsLength(cells);
  }

  lemma BitAt(nulls: seq<bv8>, cells: seq<Cell>, idx: nat)
    requires NullBits(nulls, cells) && |nulls| == (|cells| + 7) / 8 && idx < |cells|
    ensures idx / 8 < |nulls| && BitOf(nulls[idx / 8], idx % 8) == cells[idx].None?
  {
    BitmapReaches(idx, |cells|, |nulls|);
  }

  lemma ShiftIs(idx: nat)
    requires idx < TWO32
    ensures if idx < TWO31 then ShiftRight3(idx) == idx / 8 else ShiftRight3(idx) < 0
  {
  }

  /** What the accessor finds when the bitmap byte is looked up correctly, or not at all. */
  lemma CellOfAt(result: Result, cells: seq<Cell>, idx: nat)
    requires result.data == Concat(cells) && Offsets(result.offsets, cells) && NullBits(result.nulls, cells)
    requires |result.nulls| == (|cells| + 7) / 8 && idx < |cells| && idx < TWO32
    ensures CellOf(result, idx) == if idx < TWO31 then cells[idx] else Some(Text(cells[idx]))
  {
    CellBytes(cells, idx);
    BitAt(result.nulls, cells, idx);
    ShiftIs(idx);
    assert result.offsets[idx] == Start(cells, idx) && result.offsets[idx + 1] == Start(cells, idx + 1);
  }

  lemma CellAt(result: Result, rows: seq<seq<Cell>>, cols: nat, r: nat, c: nat)
    requires Rectangular(rows, cols) && Lays(result, rows, cols) && r < |rows| && c < cols
    requires r * cols + c < TWO32
    ensures ColumnarCell(result, r, c) == if r * cols + c < TWO31 then rows[r][c] else Some(Text(rows[r][c]))
  {
    hide CellOf, Offsets, NullBits, Flatten, Concat;
    FlattenAt(rows, cols, r, c);
    CellOfAt(result, Flatten(rows), r * cols + c);
  }

  lemma BitmapReaches(idx: nat, count: nat, size: nat)
    requires idx < count && size == (count + 7) / 8
    ensures idx / 8 < size && idx < 8 * size
  {
  }

  /** Main result: reading cell (r, c) back gives exactly the original cell, NULL distinct from empty. */
  lemma CellRoundTrip(result: Result, rows: seq<seq<Cell>>, cols: nat, r: nat, c: nat)
    requires Rectangular(rows, cols) && Lays(result, rows, cols) && r < |rows| && c < cols
    requires r * cols + c < TWO31
    ensures ColumnarCell(result, r, c) == rows[r][c]
  {
    CellAt(result, rows, cols, r, c);
  }

  /** Beyond 2^31 cells the bitmap index becomes negative and NULL reads as an empty string: for every cell the
      32-bit tables can address, the accessor is right exactly below that limit or when the cell is not NULL. */
  lemma RightExactly(result: Result, rows: seq<seq<Cell>>, cols: nat, r: nat, c: nat)
    requires Rectangular(rows, cols) && Lays(result, rows, cols) && r < |rows| && c < cols
    requires r * cols + c < TWO32
    ensures ColumnarCell(result, r, c) == rows[r][c] <==> r * cols + c < TWO31 || rows[r][c].Some?
  {
    CellAt(result, rows, cols, r, c);
  }
}
