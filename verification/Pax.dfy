/** A table page: header, deletion bitmap, then one array of cells per column. */
module Pax {
  import opened ByteOrder
  import opened PageBytes

  const PAGE_SIZE := 8192
  const HEADER_SIZE := 4     // the row count

  predicate PowerOfTwo(n: nat) {
    n == 1 || (n % 2 == 0 && n > 1 && PowerOfTwo(n / 2))
  }

  /** The next multiple of a power of two. */
  function AlignUp(v: nat, a: nat): (r: nat)
    requires a > 0
    ensures v <= r < v + a && r % a == 0
  {
    MultipleAbove(v, a);
    (v + a - 1) / a * a
  }

  lemma MultipleAbove(v: nat, a: nat)
    requires a > 0
    ensures var r := (v + a - 1) / a * a; v <= r < v + a && r % a == 0
  {
    var q := (v + a - 1) / a;
    assert (v + a - 1) == q * a + (v + a - 1) % a;
    MultipleMod(q, a);
  }

  lemma {:induction false} MultipleMod(q: nat, a: nat)
    requires a > 0
    ensures (q * a) % a == 0
  {
    var r, p := (q * a) % a, (q * a) / a;
    assert (q - p) * a == r;
    assert q - p >= 1 ==> (q - p) * a >= a;
    assert q - p <= -1 ==> (q - p) * a <= -(a as int);
  }

  ghost function Sum(s: seq<nat>): nat {
    if s == [] then 0 else Sum(s[..|s| - 1]) + s[|s| - 1]
  }

  /** What rounding up may cost at worst: one less than its size for each column. */
  ghost function Pads(s: seq<nat>): int {
    Sum(s) - |s|
  }

  ghost predicate SizesOk(sizes: seq<nat>) {
    && (forall c | 0 <= c < |sizes| :: sizes[c] > 0 && PowerOfTwo(sizes[c]))
    && HEADER_SIZE + Pads(sizes) <= PAGE_SIZE
  }

  ghost function Rows(sizes: seq<nat>): nat
    requires SizesOk(sizes)
  {
    var room: nat := PAGE_SIZE - HEADER_SIZE - Pads(sizes);
    NatDiv(room * 8, 1 + 8 * Sum(sizes));
    room * 8 / (1 + 8 * Sum(sizes))
  }

  lemma NatDiv(x: nat, d: nat)
    requires d > 0
    ensures x / d >= 0 && x / d * d <= x
  {
  }

  function BitmapBytes(rows: nat): nat {
    (rows + 7) / 8
  }

  /** Where the columns start: each at a multiple of its size, behind the one before. */
  ghost function Starts(sizes: seq<nat>, rows: nat): (o: seq<nat>)
    requires forall c | 0 <= c < |sizes| :: sizes[c] > 0
    ensures |o| == |sizes|
  {
    if sizes == [] then []
    else
      var n := |sizes| - 1;
      Starts(sizes[..n], rows) + [AlignUp(End(sizes[..n], rows), sizes[n])]
  }

  ghost function End(sizes: seq<nat>, rows: nat): (e: nat)
    requires forall c | 0 <= c < |sizes| :: sizes[c] > 0
  {
    if sizes == [] then HEADER_SIZE + BitmapBytes(rows)
    else
      var n := |sizes| - 1;
      AlignUp(End(sizes[..n], rows), sizes[n]) + rows * sizes[n]
  }

  lemma NoColumns(rows: nat)
    ensures End([], rows) == HEADER_SIZE + (rows + 7) / 8 && Starts([], rows) == []
  {
  }

  lemma NextColumn(sizes: seq<nat>, rows: nat, i: nat)
    requires i < |sizes| && forall c | 0 <= c < |sizes| :: sizes[c] > 0
    ensures var start := AlignUp(End(sizes[..i], rows), sizes[i]);
      Starts(sizes[..i + 1], rows) == Starts(sizes[..i], rows) + [start]
        && End(sizes[..i + 1], rows) == start + rows * sizes[i]
  {
    hide AlignUp;
    assert sizes[..i + 1][..i] == sizes[..i];
  }

  lemma {:induction false} ColumnsOrdered(sizes: seq<nat>, rows: nat, c: nat)
    requires c < |sizes| && forall c | 0 <= c < |sizes| :: sizes[c] > 0
    ensures HEADER_SIZE + BitmapBytes(rows) <= Starts(sizes, rows)[c]
    ensures Starts(sizes, rows)[c] % sizes[c] == 0
    ensures Starts(sizes, rows)[c] + rows * sizes[c] <= End(sizes, rows)
    ensures forall d | 0 <= d < c :: Starts(sizes, rows)[d] + rows * sizes[d] <= Starts(sizes, rows)[c]
    decreases |sizes|
  {
    var n := |sizes| - 1;
    EndAfterBitmap(sizes[..n], rows);
    if c < n {
      ColumnsOrdered(sizes[..n], rows, c);
    } else {
      forall d | 0 <= d < n ensures Starts(sizes, rows)[d] + rows * sizes[d] <= Starts(sizes, rows)[n] {
        ColumnsOrdered(sizes[..n], rows, d);
      }
    }
  }

  lemma {:induction false} EndAfterBitmap(sizes: seq<nat>, rows: nat)
    requires forall c | 0 <= c < |sizes| :: sizes[c] > 0
    ensures HEADER_SIZE + BitmapBytes(rows) <= End(sizes, rows)
    ensures End(sizes, rows) <= HEADER_SIZE + BitmapBytes(rows) + Pads(sizes) + rows * Sum(sizes)
    decreases |sizes|
  {
    if sizes != [] {
      var n := |sizes| - 1;
      EndAfterBitmap(sizes[..n], rows);
      Distributes(rows, Sum(sizes[..n]), sizes[n]);
    }
  }

  /** Everything fits: for any sizes that leave room for their padding, all columns of all rows end within
      the page. */
  lemma AllFits(sizes: seq<nat>)
    requires SizesOk(sizes)
    ensures End(sizes, Rows(sizes)) <= PAGE_SIZE
  {
    var rows, total := Rows(sizes), Sum(sizes);
    var room: nat := PAGE_SIZE - HEADER_SIZE - Pads(sizes);
    hide End, Sum;
    SizesPositive(sizes);
    EndAfterBitmap(sizes, rows);
    NatDiv(room * 8, 1 + 8 * total);
    Distributes(rows, 1, 8 * total);
    Distributes8(rows, total);
  }

  /** No row is given away: n rows, with a bit each and the padding of the worst case, have room on the page if and only if n
      is at most the row count. */
  lemma RowsExact(sizes: seq<nat>, n: nat)
    requires SizesOk(sizes)
    ensures n <= Rows(sizes) <==> 8 * (HEADER_SIZE + Pads(sizes) + n * Sum(sizes)) + n <= 8 * PAGE_SIZE
  {
    var room: nat := PAGE_SIZE - HEADER_SIZE - Pads(sizes);
    var total := Sum(sizes);
    hide Sum;
    QuotientIff(n, room * 8, 1 + 8 * total);
    Distributes(n, 1, 8 * total);
    Distributes8(n, total);
  }

  lemma QuotientIff(n: nat, x: nat, d: nat)
    requires d > 0
    ensures n <= x / d <==> n * d <= x
  {
    var q := x / d;
    assert x == q * d + x % d;
    if n <= q {
      assert n * d <= q * d;
    } else {
      assert n * d >= (q + 1) * d == q * d + d;
    }
  }

  lemma Distributes(a: nat, b: nat, c: nat)
    ensures a * (b + c) == a * b + a * c
  {
  }

  lemma Distributes8(a: nat, b: nat)
    ensures a * (8 * b) == 8 * (a * b)
  {
  }

  ghost function CellAt(sizes: seq<nat>, row: nat, col: nat): nat
    requires SizesOk(sizes) && col < |sizes|
  {
    row * sizes[col] + Starts(sizes, Rows(sizes))[col]
  }

  /** Cells are aligned, lie between the bitmap and the end of the page, and do not overlap. */
  lemma CellsApart(sizes: seq<nat>, row: nat, col: nat, row': nat, col': nat)
    requires SizesOk(sizes) && col < |sizes| && col' < |sizes| && row < Rows(sizes) && row' < Rows(sizes)
    ensures HEADER_SIZE + BitmapBytes(Rows(sizes)) <= CellAt(sizes, row, col)
    ensures CellAt(sizes, row, col) + sizes[col] <= PAGE_SIZE
    ensures CellAt(sizes, row, col) % sizes[col] == 0
    ensures (row, col) != (row', col') ==>
      || CellAt(sizes, row, col) + sizes[col] <= CellAt(sizes, row', col')
      || CellAt(sizes, row', col') + sizes[col'] <= CellAt(sizes, row, col)
  {
    hide *;
    var rows := Rows(sizes);
    CellInside(sizes, row, col);
    CellInside(sizes, row', col');
    if col == col' {
      CellIs(sizes, row, col);
      CellIs(sizes, row', col);
      if row < row' {
        RowsApart(row, row', sizes[col]);
      } else if row' < row {
        RowsApart(row', row, sizes[col]);
      }
    }
  }

  lemma CellIs(sizes: seq<nat>, row: nat, col: nat)
    requires SizesOk(sizes) && col < |sizes|
    ensures CellAt(sizes, row, col) == row * sizes[col] + CellAt(sizes, 0, col)
  {
    hide Starts, Rows;
    SizesPositive(sizes);
  }

  /** A cell lies in its column's stretch, behind all cells of the columns before. */
  lemma CellInside(sizes: seq<nat>, row: nat, col: nat)
    requires SizesOk(sizes) && col < |sizes| && row < Rows(sizes)
    ensures HEADER_SIZE + BitmapBytes(Rows(sizes)) <= CellAt(sizes, row, col)
    ensures CellAt(sizes, row, col) % sizes[col] == 0 && CellAt(sizes, row, col) + sizes[col] <= PAGE_SIZE
    ensures forall d, r | 0 <= d < col && 0 <= r < Rows(sizes) :: CellAt(sizes, r, d) + sizes[d] <= CellAt(sizes, row, col)
  {
    hide Rows, Starts, End, Sum, SizesOk;
    var rows := Rows(sizes);
    SizesPositive(sizes);
    AllFits(sizes);
    ColumnsOrdered(sizes, rows, col);
    InColumn(sizes, row, col, rows);
    AlignedSum(row, sizes[col], Starts(sizes, rows)[col]);
    forall d, r | 0 <= d < col && 0 <= r < rows ensures CellAt(sizes, r, d) + sizes[d] <= CellAt(sizes, row, col) {
      CellBehind(sizes, r, d, row, col);
    }
  }

  lemma CellBehind(sizes: seq<nat>, r: nat, d: nat, row: nat, col: nat)
    requires SizesOk(sizes) && d < col < |sizes| && r < Rows(sizes)
    ensures CellAt(sizes, r, d) + sizes[d] <= CellAt(sizes, row, col)
  {
    hide Rows, Starts, End, Sum, SizesOk;
    SizesPositive(sizes);
    ColumnsOrdered(sizes, Rows(sizes), col);
    InColumn(sizes, r, d, Rows(sizes));
  }

  lemma SizesPositive(sizes: seq<nat>)
    requires SizesOk(sizes)
    ensures forall c | 0 <= c < |sizes| :: sizes[c] > 0
  {
  }

  lemma InColumn(sizes: seq<nat>, row: nat, col: nat, rows: nat)
    requires row < rows && col < |sizes|
    ensures row * sizes[col] + sizes[col] <= rows * sizes[col]
  {
    RowsApart(row, rows, sizes[col]);
  }

  lemma RowsApart(a: nat, b: nat, size: nat)
    requires a < b
    ensures a * size + size <= b * size
  {
    assert (a + 1) * size <= b * size;
  }

  lemma AlignedSum(row: nat, size: nat, start: nat)
    requires size > 0 && start % size == 0
    ensures (row * size + start) % size == 0
  {
    var q := start / size;
    assert start == q * size;
    assert row * size + start == (row + q) * size;
    MultipleMod(row + q, size);
  }

  // ---- the page ----

  function CellBytes(m: Bytes, at: nat, size: nat): Bytes
    requires at + size <= |m|
  {
    m[at..at + size]
  }

  ghost function Pow2(n: nat): nat {
    if n == 0 then 1 else 2 * Pow2(n - 1)
  }

  predicate BitOf(b: nat, k: nat) {
    if k == 0 then b % 2 == 1 else BitOf(b / 2, k - 1)
  }

  /** Bit k is the digit that counts 2^k. */
  lemma {:induction false} BitIs(b: nat, k: nat)
    ensures Pow2(k) > 0 && (BitOf(b, k) <==> b / Pow2(k) % 2 == 1)
    decreases k
  {
    if k > 0 {
      BitIs(b / 2, k - 1);
      HalveTwice(b, Pow2(k - 1));
    }
  }

  lemma HalveTwice(b: nat, p: nat)
    requires p > 0
    ensures b / 2 / p == b / (2 * p)
  {
    var q, r := b / 2 / p, b / 2 % p;
    assert b / 2 == q * p + r;
    assert b == q * (2 * p) + (2 * r + b % 2);
    OneQuotient(b, 2 * p, q, 2 * r + b % 2);
  }

  lemma OneQuotient(b: nat, d: nat, q: nat, r: nat)
    requires d > 0 && b == q * d + r && r < d
    ensures b / d == q
  {
    QuotientIff(q, b, d);
    assert (q + 1) * d == q * d + d;
    QuotientIff(q + 1, b, d);
  }

  /** Inclusive or with one bit. */
  function OrBit(b: nat, k: nat): nat {
    if k == 0 then b - b % 2 + 1 else 2 * OrBit(b / 2, k - 1) + b % 2
  }

  lemma {:induction false} OrBitOk(b: nat, k: nat, j: nat, w: nat)
    requires b < Pow2(w) && k < w
    ensures OrBit(b, k) < Pow2(w) && (BitOf(OrBit(b, k), j) <==> j == k || BitOf(b, j))
    decreases k + j
  {
    assert OrBit(b, k) / 2 == if k == 0 then b / 2 else OrBit(b / 2, k - 1);
    if k > 0 {
      OrBitOk(b / 2, k - 1, if j > 0 then j - 1 else 0, w - 1);
    }
  }

  /** It adds 2^k if the bit was clear, and nothing if it was set. */
  lemma {:induction false} OrBitAdds(b: nat, k: nat)
    ensures OrBit(b, k) == if BitOf(b, k) then b else b + Pow2(k)
    decreases k
  {
    if k > 0 {
      OrBitAdds(b / 2, k - 1);
    }
  }

  lemma ByteBits(b: nat, k: nat, j: nat)
    requires b < 256 && k < 8
    ensures OrBit(b, k) < 256 && (BitOf(OrBit(b, k), j) <==> j == k || BitOf(b, j))
  {
    assert Pow2(8) == 256 by {
      assert Pow2(4) == 16;
    }
    OrBitOk(b, k, j, 8);
  }

  predicate DeletedIn(m: Bytes, row: nat)
    requires HEADER_SIZE + row / 8 < |m|
  {
    BitOf(m[HEADER_SIZE + row / 8], row % 8)
  }

  /** The layout of one table's pages. */
  class PaxLayout {
    const sizes: seq<nat>
    const offsets: seq<nat>
    const maxRowCount: nat

    constructor (sizes: seq<nat>)
      requires SizesOk(sizes)
      ensures Valid() && this.sizes == sizes
    {
      var rowSize, worstCasePad := RowSize(sizes);
      var room: nat := PAGE_SIZE - HEADER_SIZE - worstCasePad;
      NatDiv(room * 8, 1 + 8 * rowSize);
      var rows: nat := room * 8 / (1 + 8 * rowSize);
      var starts := ColumnStarts(sizes, rows);
      this.sizes, offsets, maxRowCount := sizes, starts, rows;
    }

    static method RowSize(sizes: seq<nat>) returns (rowSize: nat, worstCasePad: nat)
      requires forall c | 0 <= c < |sizes| :: sizes[c] > 0
      ensures rowSize == Sum(sizes) && worstCasePad == Pads(sizes)
    {
      rowSize, worstCasePad := 0, 0;
      for i := 0 to |sizes|
        invariant rowSize == Sum(sizes[..i]) && worstCasePad == rowSize - i
      {
        assert sizes[..i + 1][..i] == sizes[..i];
        rowSize := rowSize + sizes[i];
        worstCasePad := worstCasePad + (sizes[i] - 1);
      }
      assert sizes[..|sizes|] == sizes;
    }

    static method ColumnStarts(sizes: seq<nat>, rows: nat) returns (starts: seq<nat>)
      requires forall c | 0 <= c < |sizes| :: sizes[c] > 0
      ensures starts == Starts(sizes, rows)
    {
      hide AlignUp, End, Starts;
      NoColumns(rows);
      assert sizes[..0] == [];
      var currOffset: nat := HEADER_SIZE + (rows + 7) / 8;
      starts := [];
      for i := 0 to |sizes|
        invariant currOffset == End(sizes[..i], rows) && starts == Starts(sizes[..i], rows)
      {
        NextColumn(sizes, rows, i);
        currOffset := AlignUp(currOffset, sizes[i]);
        starts := starts + [currOffset];
        currOffset := currOffset + rows * sizes[i];
      }
      assert sizes[..|sizes|] == sizes;
    }

    ghost predicate Valid() {
      SizesOk(sizes) && maxRowCount == Rows(sizes) && offsets == Starts(sizes, maxRowCount)
    }

    function CalcOffset(row: nat, col: nat): (at: nat)
      requires Valid() && col < |sizes|
      ensures at == CellAt(sizes, row, col)
    {
      row * sizes[col] + offsets[col]
    }

    ghost predicate IsCell(row: int, col: int) {
      0 <= row < maxRowCount && 0 <= col < |sizes|
    }

    /** Everything but this cell: the other cells, the deletion bits, the header. */
    ghost predicate OnlyCell(m: Bytes, n: Bytes, row: nat, col: nat)
      requires Valid() && |m| == |n| == PAGE_SIZE
    {
      && HEADER_SIZE + BitmapBytes(maxRowCount) <= PAGE_SIZE
      && n[..HEADER_SIZE + BitmapBytes(maxRowCount)] == m[..HEADER_SIZE + BitmapBytes(maxRowCount)]
      && forall r: nat, c: nat | IsCell(r, c) && (r, c) != (row, col) ::
           CellAt(sizes, r, c) + sizes[c] <= PAGE_SIZE
           && CellBytes(n, CellAt(sizes, r, c), sizes[c]) == CellBytes(m, CellAt(sizes, r, c), sizes[c])
    }

    method Get(data: array<u8>, col: nat, row: nat) returns (cell: Bytes)
      requires Valid() && data.Length == PAGE_SIZE && IsCell(row, col)
      ensures CellAt(sizes, row, col) + sizes[col] <= PAGE_SIZE
      ensures cell == CellBytes(data[..], CellAt(sizes, row, col), sizes[col])
    {
      CellsApart(sizes, row, col, row, col);
      var at := CalcOffset(row, col);
      cell := data[at..at + sizes[col]];
    }

    method Update(data: array<u8>, bytes: Bytes, col: nat, row: nat)
      requires Valid() && data.Length == PAGE_SIZE && IsCell(row, col) && |bytes| == sizes[col]
      modifies data
      ensures CellAt(sizes, row, col) + sizes[col] <= PAGE_SIZE
      ensures CellBytes(data[..], CellAt(sizes, row, col), sizes[col]) == bytes
      ensures OnlyCell(old(data[..]), data[..], row, col)
    {
      CellsApart(sizes, row, col, row, col);
      var at := CalcOffset(row, col);
      hide *;
      for i := 0 to |bytes|
        invariant forall k | 0 <= k < data.Length :: data[k] == if at <= k < at + i then bytes[k - at] else old(data[k])
      {
        data[at + i] := bytes[i];
      }
      CellWritten(old(data[..]), data[..], bytes, row, col);
    }

    lemma CellWritten(m: Bytes, n: Bytes, bytes: Bytes, row: nat, col: nat)
      requires Valid() && IsCell(row, col) && |bytes| == sizes[col] && |m| == |n| == PAGE_SIZE
      requires forall k | 0 <= k < PAGE_SIZE ::
        n[k] == if CellAt(sizes, row, col) <= k < CellAt(sizes, row, col) + |bytes| then bytes[k - CellAt(sizes, row,
          col)] else m[k]
      ensures CellAt(sizes, row, col) + sizes[col] <= PAGE_SIZE
      ensures CellBytes(n, CellAt(sizes, row, col), sizes[col]) == bytes && OnlyCell(m, n, row, col)
    {
      hide SizesOk, Rows, Starts, CellAt;
      CellsApart(sizes, row, col, row, col);
      forall r: nat, c: nat | IsCell(r, c) && (r, c) != (row, col)
        ensures CellAt(sizes, r, c) + sizes[c] <= PAGE_SIZE
        ensures CellBytes(n, CellAt(sizes, r, c), sizes[c]) == CellBytes(m, CellAt(sizes, r, c), sizes[c])
      {
        CellsApart(sizes, r, c, row, col);
      }
    }

    method Delete(data: array<u8>, row: nat)
      requires Valid() && data.Length == PAGE_SIZE && row < maxRowCount
      modifies data
      ensures HEADER_SIZE + BitmapBytes(maxRowCount) <= PAGE_SIZE
      ensures forall r | 0 <= r < maxRowCount :: DeletedIn(data[..], r) <==> r == row || DeletedIn(old(data[..]), r)
      ensures data[..HEADER_SIZE] == old(data[..HEADER_SIZE])
      ensures data[HEADER_SIZE + BitmapBytes(maxRowCount)..] == old(data[HEADER_SIZE + BitmapBytes(maxRowCount)..])
    {
      BitmapFits();
      var at := HEADER_SIZE + row / 8;
      ByteBits(data[at], row % 8, 0);
      data[at] := OrBit(data[at], row % 8);
      forall r | 0 <= r < maxRowCount
        ensures DeletedIn(data[..], r) <==> r == row || DeletedIn(old(data[..]), r)
      {
        ByteBits(old(data[at]), row % 8, r % 8);
        SameBit(r, row);
      }
    }

    lemma SameBit(r: nat, row: nat)
      ensures r == row <==> r / 8 == row / 8 && r % 8 == row % 8
    {
    }

    lemma BitmapFits()
      requires Valid()
      ensures HEADER_SIZE + BitmapBytes(maxRowCount) <= PAGE_SIZE
      ensures forall r | 0 <= r < maxRowCount :: r / 8 < BitmapBytes(maxRowCount)
    {
      SizesPositive(sizes);
      AllFits(sizes);
      EndAfterBitmap(sizes, maxRowCount);
    }

    /** Takes the next rows; the header counts them. */
    method IncrementHeaderCount(data: array<u8>, count: nat) returns (first: nat)
      requires Valid() && data.Length == PAGE_SIZE && Get32(data[..], 0) + count < maxRowCount
      modifies data
      ensures first == Get32(old(data[..]), 0) && Get32(data[..], 0) == first + count
      ensures data[HEADER_SIZE..] == old(data[HEADER_SIZE..])
    {
      BitmapFits();
      first := Get32(data[..], 0);
      var next := first + count;
      RowsBound();
      data[0], data[1] := next % 256, next / 256;
      data[2], data[3] := 0, 0;
      assert Get16(data[..], 0) == next && Get16(data[..], 2) == 0;
    }

    lemma RowsBound()
      requires Valid()
      ensures maxRowCount < 0x1_0000
    {
      var b := BitmapBytes(maxRowCount);
      assert HEADER_SIZE + b <= PAGE_SIZE by { BitmapFits(); }
      assert maxRowCount + 7 < 8 * b + 8;
    }

    method IsDeleted(data: array<u8>, row: nat) returns (deleted: bool)
      requires Valid() && data.Length == PAGE_SIZE && row < maxRowCount
      ensures HEADER_SIZE + row / 8 < PAGE_SIZE && deleted == DeletedIn(data[..], row)
    {
      BitmapFits();
      deleted := BitOf(data[HEADER_SIZE + row / 8], row % 8);
    }
  }
}
