/**
 Mapping PDSCH symbols to the resource grid (addPDSCHToSubframe.zir), for one antenna port and
 allocations below the central six resource blocks. A grid row is an OFDM symbol.
*/
module Pdsch {
  import opened ModArith

  const SYMBOLS := 14

  /**
   The number of resource blocks of the channel, the first block and the number of blocks of the
   allocation, the rows of the control region, and the pilot offsets in symbols 0 and 4 of each slot.
  */
  datatype Allocation = Allocation(ndlrb: nat, prbStart: nat, prbLen: nat, cfi: nat, sym0: nat, sym4: nat)

  predicate Usable(a: Allocation) {
    && a.ndlrb % 2 == 0 && 6 <= a.ndlrb && 0 < a.prbLen && a.prbStart + a.prbLen <= a.ndlrb / 2 - 3
    && 1 <= a.cfi <= 3 && a.sym0 <= 5 && a.sym4 <= 5
  }

  type Low = a: Allocation | Usable(a) witness Allocation(50, 0, 12, 1, 5, 2)

  // Neither offset is zero.
  type Regular = a: Low | a.sym0 > 0 && a.sym4 > 0 witness Allocation(50, 0, 12, 1, 5, 2)

  function Width(a: Low): (w: nat)
    ensures w == 12 * a.ndlrb && 72 <= w
  {
    a.ndlrb * 12
  }

  function Start(a: Low): nat { a.prbStart * 12 }

  function Len(a: Low): (n: nat)
    ensures 12 <= n
  {
    a.prbLen * 12
  }

  function SigStart(a: Low): (s: nat)
    ensures Start(a) + Len(a) <= s && s + 72 <= Width(a)
  {
    a.ndlrb * 6 - 36
  }

  // ------------------------------------------------------------ the specification

  predicate PilotRow(r: nat) {
    r % 7 == 0 || r % 7 == 4
  }

  function PilotOffset(a: Low, r: nat): (o: nat)
    ensures o <= 5
  {
    if r % 7 == 0 then a.sym0 else a.sym4
  }

  // Column x of the allocation holds a pilot in row r.
  predicate IsPilot(a: Low, r: nat, x: nat) {
    PilotRow(r) && x % 6 == PilotOffset(a, r)
  }

  // The number of data elements in the first x columns of row r.
  function RowRank(a: Low, r: nat, x: nat): (n: nat)
    ensures n <= x
  {
    if x == 0 then 0 else RowRank(a, r, x - 1) + if IsPilot(a, r, x - 1) then 0 else 1
  }

  // The number of data elements in the rows before r.
  function RowsRank(a: Low, r: nat): nat {
    if r <= a.cfi then 0 else RowsRank(a, r - 1) + RowRank(a, r - 1, Len(a))
  }

  // The number of data elements before column x of row r, in increasing order of positions.
  function Rank(a: Low, r: nat, x: nat): nat {
    RowsRank(a, r) + RowRank(a, r, x)
  }

  // The grid position of column c in row r.
  function Pos(a: Low, r: nat, c: nat): nat {
    r * Width(a) + c
  }

  // What the grid should hold in row r, column c, when everything before column x of row row is mapped.
  function Cell(a: Low, data: seq<int>, old': seq<int>, r: nat, c: nat, row: nat, x: nat): int
    requires Pos(a, r, c) < |old'|
  {
    var y := c - Start(a);
    if 0 <= y < Len(a) && a.cfi <= r && (r < row || (r == row && y < x)) && !IsPilot(a, r, y) && Rank(a, r, y) < |data|
    then data[Rank(a, r, y)] else old'[Pos(a, r, c)]
  }

  ghost predicate Mapped(a: Low, grid: seq<int>, data: seq<int>, old': seq<int>, row: nat, x: nat) {
    && |grid| == |old'| == SYMBOLS * Width(a)
    && forall r: nat, c: nat :: r < SYMBOLS && c < Width(a) ==> Pos(a, r, c) < |grid| && grid[Pos(a, r, c)] == Cell(a, data, old', r, c, row, x)
  }

  // countPDSCHToSubframe before the modulation factor.
  function Count(a: Low, subframe: int): int {
    var sigStartRB := a.ndlrb / 2 - 3;
    var end := a.prbStart + a.prbLen;
    var overlap := if a.prbStart < sigStartRB && sigStartRB + 6 < end then 6
                   else if a.prbStart < sigStartRB + 6 && sigStartRB + 6 < end then sigStartRB + 6 - a.prbStart
                   else if a.prbStart < sigStartRB && sigStartRB < end then end - sigStartRB
                   else if a.prbStart > sigStartRB && sigStartRB > end then a.prbLen
                   else 0;
    if subframe == 0 || subframe == 5 then (a.prbLen - overlap) * ((14 - a.cfi) * 12 - 6) + overlap * ((8 - a.cfi) * 12 - 4)
    else a.prbLen * ((14 - a.cfi) * 12 - 6)
  }

  // ------------------------------------------------------------ counting

  lemma {:induction false} RowRankBlocks(a: Low, r: nat, m: nat)
    ensures RowRank(a, r, 6 * m) == if PilotRow(r) then 5 * m else 6 * m
  {
    if m > 0 {
      RowRankBlocks(a, r, m - 1);
      SixMore(a, r, 6 * (m - 1));
    }
  }

  lemma OneMore(a: Low, r: nat, x: nat)
    ensures RowRank(a, r, x + 1) == RowRank(a, r, x) + if IsPilot(a, r, x) then 0 else 1
  {
  }

  lemma PilotAt(a: Low, r: nat, x: nat, i: nat)
    requires x % 6 == 0 && i < 6
    ensures IsPilot(a, r, x + i) <==> PilotRow(r) && i == PilotOffset(a, r)
  {
  }

  // Six columns hold one pilot.
  lemma SixMore(a: Low, r: nat, x: nat)
    requires x % 6 == 0
    ensures RowRank(a, r, x + 6) == RowRank(a, r, x) + if PilotRow(r) then 5 else 6
  {
    hide RowRank, IsPilot, PilotRow, PilotOffset;
    var o := PilotOffset(a, r);
    for i := 0 to 6
      invariant RowRank(a, r, x + i) == RowRank(a, r, x) + i - if PilotRow(r) && o < i then 1 else 0
    {
      PilotAt(a, r, x, i);
      OneMore(a, r, x + i);
    }
  }

  // The number of pilot rows between the control region and row r.
  function PilotRows(r: nat): nat {
    (if r > 4 then 1 else 0) + (if r > 7 then 1 else 0) + (if r > 11 then 1 else 0)
  }

  lemma {:induction false} RowsClosed(a: Low, r: nat)
    requires r <= SYMBOLS
    ensures RowsRank(a, r) == if r <= a.cfi then 0 else a.prbLen * (12 * (r - a.cfi) - 2 * PilotRows(r))
  {
    if r > a.cfi {
      RowsClosed(a, r - 1);
      RowRankBlocks(a, r - 1, 2 * a.prbLen);
      hide RowRank;
      var n, k := a.prbLen, if PilotRow(r - 1) then 10 else 12;
      assert 12 * (r - a.cfi) - 2 * PilotRows(r) == (if r - 1 <= a.cfi then 0 else 12 * (r - 1 - a.cfi) - 2 * PilotRows(r - 1)) + k;
      Distribute(n, if r - 1 <= a.cfi then 0 else 12 * (r - 1 - a.cfi) - 2 * PilotRows(r - 1), k);
    }
  }

  lemma Distribute(n: int, x: int, y: int)
    ensures n * (x + y) == n * x + n * y
  {
  }

  /** The count is the number of data elements of the allocation, in every subframe. */
  lemma CountIsExact(a: Low, subframe: int)
    ensures Count(a, subframe) == RowsRank(a, SYMBOLS)
  {
    RowsClosed(a, SYMBOLS);
  }

  lemma {:induction false} RowsGrow(a: Low, r: nat, s: nat)
    requires r <= s
    ensures RowsRank(a, r) <= RowsRank(a, s)
  {
    if r < s {
      RowsGrow(a, r, s - 1);
    }
  }

  lemma {:induction false} RowGrows(a: Low, r: nat, x: nat, y: nat)
    requires x <= y
    ensures RowRank(a, r, x) <= RowRank(a, r, y)
  {
    if x < y {
      RowGrows(a, r, x, y - 1);
    }
  }

  // Inside the grid there is always another data element to come.
  lemma MoreToCome(a: Low, r: nat, x: nat, y: nat)
    requires a.cfi <= r < SYMBOLS && x <= y <= Len(a)
    ensures Rank(a, r, x) <= Rank(a, r, y) <= RowsRank(a, r + 1) <= RowsRank(a, SYMBOLS)
    ensures x == 0 || r < 13 ==> Rank(a, r, x) < RowsRank(a, SYMBOLS)
  {
    RowGrows(a, r, x, y);
    RowGrows(a, r, y, Len(a));
    RowsGrow(a, r + 1, SYMBOLS);
    if r < 13 {
      RowsGrow(a, r + 1, 13);
    }
    RowRankBlocks(a, 13, 2 * a.prbLen);
    RowRankBlocks(a, r, 2 * a.prbLen);
  }

  // ------------------------------------------------------------ what each step maps

  lemma PosUnique(a: Low, r: nat, c: nat)
    requires c < Width(a)
    ensures Pos(a, r, c) / Width(a) == r && Pos(a, r, c) % Width(a) == c
    ensures r < SYMBOLS ==> Pos(a, r, c) < SYMBOLS * Width(a)
  {
    DivModUnique(r, Width(a), c);
    if r < SYMBOLS {
      RowsBelow(r, c, Width(a));
    }
  }

  lemma RowsBelow(r: nat, c: nat, w: nat)
    requires r < SYMBOLS && c < w
    ensures r * w + c < SYMBOLS * w
  {
    MulMono(r + 1, SYMBOLS, w);
    Distribute(w, r, 1);
  }

  // Positions of a run of columns in one row.
  lemma InRun(a: Low, row: nat, c0: nat, n: nat, r: nat, c: nat)
    requires c0 + n <= Width(a) && c < Width(a)
    ensures Pos(a, row, c0) <= Pos(a, r, c) < Pos(a, row, c0) + n <==> r == row && c0 <= c < c0 + n
  {
    RowApart(Width(a), r, row);
    hide Width;
  }

  // Rows of w columns do not overlap.
  lemma RowApart(w: nat, r: nat, row: nat)
    ensures r < row ==> r * w + w <= row * w
    ensures row < r ==> row * w + w <= r * w
  {
    if r < row {
      MulMono(r + 1, row, w);
      Distribute(w, r, 1);
    } else if row < r {
      MulMono(row + 1, r, w);
      Distribute(w, row, 1);
    }
  }

  predicate NoPilots(a: Low, r: nat, x: nat, n: nat) {
    forall y :: x <= y < x + n ==> !IsPilot(a, r, y)
  }

  lemma {:induction false} RunRank(a: Low, r: nat, x: nat, n: nat, i: nat)
    requires NoPilots(a, r, x, n) && i <= n
    ensures RowRank(a, r, x + i) == RowRank(a, r, x) + i
  {
    if i > 0 {
      RunRank(a, r, x, n, i - 1);
      OneMore(a, r, x + i - 1);
      assert !IsPilot(a, r, x + i - 1);
    }
  }

  // The grid after n data elements were copied to one row.
  function AfterCopy(g: seq<int>, dst: nat, data: seq<int>, src: nat, n: nat): (g': seq<int>)
    requires dst + n <= |g| && src + n <= |data|
    ensures |g'| == |g|
  {
    g[..dst] + data[src..src + n] + g[dst + n..]
  }

  lemma MapRunAt(a: Low, g: seq<int>, data: seq<int>, old': seq<int>, row: nat, x: nat, n: nat, r: nat, c: nat)
    requires Mapped(a, g, data, old', row, x) && a.cfi <= row < SYMBOLS && x + n <= Len(a) && NoPilots(a, row, x, n)
    requires Pos(a, row, Start(a) + x) + n <= |g| && Rank(a, row, x) + n <= |data| && r < SYMBOLS && c < Width(a)
    requires Pos(a, r, c) < |g|
    ensures AfterCopy(g, Pos(a, row, Start(a) + x), data, Rank(a, row, x), n)[Pos(a, r, c)] == Cell(a, data, old', r, c, row, x + n)
  {
    var dst, src := Pos(a, row, Start(a) + x), Rank(a, row, x);
    InRun(a, row, Start(a) + x, n, r, c);
    if r == row && Start(a) + x <= c < Start(a) + x + n {
      var i := c - Start(a) - x;
      RunRank(a, row, x, n, i);
      assert !IsPilot(a, row, x + i);
    }
  }

  lemma MapRun(a: Low, g: seq<int>, data: seq<int>, old': seq<int>, row: nat, x: nat, n: nat)
    requires Mapped(a, g, data, old', row, x) && a.cfi <= row < SYMBOLS && x + n <= Len(a) && NoPilots(a, row, x, n)
    requires Pos(a, row, Start(a) + x) + n <= |g| && Rank(a, row, x) + n <= |data|
    ensures Mapped(a, AfterCopy(g, Pos(a, row, Start(a) + x), data, Rank(a, row, x), n), data, old', row, x + n)
    ensures Rank(a, row, x + n) == Rank(a, row, x) + n
  {
    hide IsPilot, Cell;
    forall r: nat, c: nat | r < SYMBOLS && c < Width(a)
      ensures Pos(a, r, c) < |g|
      ensures AfterCopy(g, Pos(a, row, Start(a) + x), data, Rank(a, row, x), n)[Pos(a, r, c)] == Cell(a, data, old', r, c, row, x + n)
    {
      MapRunAt(a, g, data, old', row, x, n, r, c);
    }
    RunRank(a, row, x, n, n);
  }

  lemma MapPilot(a: Low, g: seq<int>, data: seq<int>, old': seq<int>, row: nat, x: nat)
    requires Mapped(a, g, data, old', row, x) && IsPilot(a, row, x)
    ensures Mapped(a, g, data, old', row, x + 1) && Rank(a, row, x + 1) == Rank(a, row, x)
  {
    forall r: nat, c: nat | r < SYMBOLS && c < Width(a)
      ensures Pos(a, r, c) < |g| && Cell(a, data, old', r, c, row, x + 1) == Cell(a, data, old', r, c, row, x)
    {
      assert g[Pos(a, r, c)] == Cell(a, data, old', r, c, row, x);
    }
  }

  lemma MapRowEnd(a: Low, g: seq<int>, data: seq<int>, old': seq<int>, row: nat)
    requires Mapped(a, g, data, old', row, Len(a)) && a.cfi <= row
    ensures Mapped(a, g, data, old', row + 1, 0) && Rank(a, row + 1, 0) == Rank(a, row, Len(a))
  {
    forall r: nat, c: nat | r < SYMBOLS && c < Width(a)
      ensures Pos(a, r, c) < |g| && Cell(a, data, old', r, c, row + 1, 0) == Cell(a, data, old', r, c, row, Len(a))
    {
      assert g[Pos(a, r, c)] == Cell(a, data, old', r, c, row, Len(a));
    }
  }

  // ------------------------------------------------------------ the program

  method CopyRun(grid: array<int>, dst: nat, data: seq<int>, src: nat, n: nat)
    requires dst + n <= grid.Length && src + n <= |data|
    modifies grid
    ensures grid[..] == AfterCopy(old(grid[..]), dst, data, src, n)
  {
    for i := 0 to n
      invariant grid[..dst] == old(grid[..dst]) && grid[dst..dst + i] == data[src..src + i] && grid[dst + i..] == old(grid[dst + i..])
    {
      grid[dst + i] := data[src + i];
    }
  }

  /**
   The allocation with whose pilots the program maps: at offset zero the loop takes the first five columns of every six,
   and so treats the sixth as the pilot.
  */
  function AsMapped(b: Low): (a: Regular)
    ensures Width(a) == Width(b) && Start(a) == Start(b) && Len(a) == Len(b) && SigStart(a) == SigStart(b)
  {
    b.(sym0 := if b.sym0 == 0 then 5 else b.sym0, sym4 := if b.sym4 == 0 then 5 else b.sym4)
  }

  // Where the loop may stand: at the start of a row, or behind a pilot.
  ghost predicate Standing(a: Regular, row: nat, x: nat) {
    a.cfi <= row <= SYMBOLS && x < Len(a) && (x > 0 ==> row < SYMBOLS && PilotRow(row) && x % 6 == (PilotOffset(a, row) + 1) % 6)
  }

  // The loop's variables: dst is column x of row row, src counts the data elements before it, and they are mapped.
  ghost predicate At(a: Regular, grid: seq<int>, data: seq<int>, old': seq<int>, dst: nat, src: nat, row: nat, x: nat) {
    && Standing(a, row, x) && dst == Pos(a, row, Start(a) + x) && src == Rank(a, row, x)
    && Mapped(a, grid, data, old', row, x)
  }

  // Rows 5 to 10 of subframe 0 and rows 5 and 6 of subframe 5 carry signals in the central blocks.
  predicate Signals(subframe: int, sym: int) {
    (subframe == 0 && 5 <= sym <= 10) || (subframe == 5 && 5 <= sym <= 6)
  }

  // The number of columns up to the next pilot or the end of the allocation.
  function RunLength(a: Low, row: nat, x: nat): (n: nat)
    requires x < Len(a)
    ensures n <= 5
  {
    if x < PilotOffset(a, row) then PilotOffset(a, row) - x else if x + 5 > Len(a) then Len(a) - x else 5
  }

  lemma RunFits(a: Regular, row: nat, x: nat)
    requires Standing(a, row, x) && PilotRow(row)
    ensures var n := RunLength(a, row, x);
            && x + n <= Len(a) && NoPilots(a, row, x, n)
            && (x + n < Len(a) ==> IsPilot(a, row, x + n) && (x + n + 1) % 6 == (PilotOffset(a, row) + 1) % 6)
  {
    var o, n := PilotOffset(a, row), RunLength(a, row, x);
    assert o > 0;
    hide PilotRow, PilotOffset, Start;
    forall y | x <= y < x + n
      ensures y % 6 != o
    {
      BetweenPilots(x, y, o);
    }
    assert Len(a) == 6 * (2 * a.prbLen);
    AtPilot(x, o, 2 * a.prbLen);
  }

  // Behind a pilot at offset o, the next five columns are free.
  lemma BetweenPilots(x: nat, y: nat, o: nat)
    requires 1 <= o <= 5 && (x == 0 || x % 6 == (o + 1) % 6)
    requires x <= y < if x < o then o else x + 5
    ensures y % 6 != o
  {
  }

  // The sixth column is the next pilot; the end of the allocation is not.
  lemma AtPilot(x: nat, o: nat, m: nat)
    requires 1 <= o <= 5 && (x == 0 || x % 6 == (o + 1) % 6) && x < 6 * m
    ensures o <= x ==> (x + 5) % 6 == o && x + 5 != 6 * m && (x + 6) % 6 == (o + 1) % 6
    ensures x < o ==> x == 0
  {
  }

  // A row without pilots is copied in one piece.
  method PlainRow(b: Low, ghost a: Regular, grid: array<int>, data: seq<int>, dst0: nat, src0: nat, ghost old': seq<int>, ghost row: nat) returns (dst: nat, src: nat)
    requires a == AsMapped(b) && row < SYMBOLS && !PilotRow(row) && At(a, grid[..], data, old', dst0, src0, row, 0) && RowsRank(a, SYMBOLS) <= |data|
    modifies grid
    ensures At(a, grid[..], data, old', dst, src, row + 1, 0)
  {
    hide Cell, Rank, IsPilot, Pos;
    var n := Len(b);
    PosUnique(a, row, Start(a) + n);
    PosShift(a, row, Start(a), n);
    PlainRun(a, row);
    MoreToCome(a, row, 0, n);
    MapRun(a, grid[..], data, old', row, 0, n);
    CopyRun(grid, dst0, data, src0, n);
    MapRowEnd(a, grid[..], data, old', row);
    NextRow(a, row);
    dst, src := dst0 + Width(b), src0 + n;
  }

  lemma PlainRun(a: Low, row: nat)
    requires !PilotRow(row)
    ensures NoPilots(a, row, 0, Len(a)) && Rank(a, row, Len(a)) == Rank(a, row, 0) + Len(a)
  {
    RunRank(a, row, 0, Len(a), Len(a));
  }

  lemma PosShift(a: Low, row: nat, c: nat, n: nat)
    ensures Pos(a, row, c) + n == Pos(a, row, c + n)
  {
  }

  lemma NextRow(a: Low, row: nat)
    ensures Pos(a, row + 1, Start(a)) == Pos(a, row, Start(a)) + Width(a) == (row + 1) * Width(a) + Start(a)
  {
    Distribute(Width(a), row, 1);
  }

  // The length that the program computes for a run.
  function CopyLength(a: Low, subframe: int, sym: nat, sc: int): int {
    var symp, sig := PilotOffset(a, sym), Signals(subframe, sym);
    if sc - Start(a) < symp then symp + Start(a) - sc
    else if sig && sc + 5 > SigStart(a) && sc + 5 <= SigStart(a) + 72 then SigStart(a) - sc
    else if sc + 5 > Len(a) + Start(a) then Len(a) + Start(a) - sc
    else 5
  }

  lemma CopyLengthIs(b: Low, a: Regular, subframe: int, row: nat, x: nat)
    requires a == AsMapped(b) && Standing(a, row, x) && PilotRow(row)
    ensures CopyLength(b, subframe, row, Start(a) + x) == RunLength(a, row, x) > 0
  {
    SigOnGrid(a);
  }

  // The central area begins at the end of the allocation or at least a block later.
  lemma SigOnGrid(a: Low)
    ensures SigStart(a) == Start(a) + Len(a) || SigStart(a) >= Start(a) + Len(a) + 12
  {
    assert SigStart(a) == 12 * (a.ndlrb / 2 - 3);
  }

  // Where the program goes on after a run of n columns from sc, in the row that starts at position base.
  function Onward(a: Low, subframe: int, sym: nat, sc: nat, n: nat, dst: nat): nat {
    var d := if Signals(subframe, sym) && sc + n == SigStart(a) then dst + 72
             else if sc + n == SigStart(a) then dst + n
             else dst + n + 1;
    Wrapped(a, d)
  }

  // Behind the allocation the next row begins.
  function Wrapped(a: Low, d: nat): nat {
    if d % Width(a) >= Len(a) + Start(a) then (d / Width(a) + 1) * Width(a) + Start(a) else d
  }

  lemma WrappedIs(a: Low, row: nat, c: nat)
    requires c < Width(a)
    ensures Wrapped(a, Pos(a, row, c)) == if c >= Len(a) + Start(a) then Pos(a, row + 1, Start(a)) else Pos(a, row, c)
  {
    PosUnique(a, row, c);
    NextRow(a, row);
    hide Pos, Width, Len, Start;
  }

  lemma InWidth(a: Low, x: nat)
    requires x <= Len(a)
    ensures Start(a) + x <= SigStart(a) < SigStart(a) + 72 <= Width(a)
  {
  }

  // It is behind the pilot, or at the start of the next row.
  lemma OnwardIs(a: Low, subframe: int, row: nat, x: nat, n: nat)
    requires x < Len(a) && 0 < n <= 5 && x + n <= Len(a)
    ensures Onward(a, subframe, row, Start(a) + x, n, Pos(a, row, Start(a) + x)) ==
            if x + n + 1 < Len(a) then Pos(a, row, Start(a) + x + n + 1) else Pos(a, row + 1, Start(a))
  {
    hide Pos, Width, SigStart, Len, Start, Signals, Wrapped;
    InWidth(a, Len(a));
    var sc := Start(a) + x;
    var m := if Signals(subframe, row) && sc + n == SigStart(a) then 72 else if sc + n == SigStart(a) then n else n + 1;
    WrappedIs(a, row, sc + m);
    PosShift(a, row, sc, m);
  }

  // After a run of n columns from x: the pilot is passed, and at the end of the allocation the row.
  lemma BehindRun(a: Regular, g: seq<int>, data: seq<int>, old': seq<int>, row: nat, x: nat, n: nat) returns (row': nat, x': nat)
    requires row < SYMBOLS && a.cfi <= row && PilotRow(row) && n > 0 && x + n <= Len(a) && Mapped(a, g, data, old', row, x + n)
    requires x + n < Len(a) ==> IsPilot(a, row, x + n) && (x + n + 1) % 6 == (PilotOffset(a, row) + 1) % 6
    ensures At(a, g, data, old', if x + n + 1 < Len(a) then Pos(a, row, Start(a) + x + n + 1) else Pos(a, row + 1, Start(a)),
               Rank(a, row, x + n), row', x')
    ensures row' > row || (row' == row && x' > x)
  {
    hide Cell, Rank, IsPilot, Pos, Mapped, PilotRow, PilotOffset, Start;
    row', x' := row, x + n;
    if x' < Len(a) {
      MapPilot(a, g, data, old', row, x');
      x' := x' + 1;
    }
    if x' == Len(a) {
      MapRowEnd(a, g, data, old', row);
      row', x' := row + 1, 0;
    }
  }

  // How many columns the next run takes, and where the program goes on behind it.
  method NextRun(b: Low, ghost a: Regular, subframe: int, dst0: nat, ghost row: nat, ghost x: nat) returns (n: nat, dst: nat)
    requires a == AsMapped(b) && row < SYMBOLS && PilotRow(row) && Standing(a, row, x) && dst0 == Pos(a, row, Start(a) + x)
    ensures n == RunLength(a, row, x) > 0 && x + n <= Len(a)
    ensures dst == if x + n + 1 < Len(a) then Pos(a, row, Start(a) + x + n + 1) else Pos(a, row + 1, Start(a))
  {
    hide AsMapped, IsPilot, Pos, CopyLength, Onward, RunLength, NoPilots, SigStart, Start, Signals;
    var w := Width(b);
    InWidth(a, x);
    PosUnique(a, row, Start(a) + x);
    var sc, sym := dst0 % w, dst0 / w;
    CopyLengthIs(b, a, subframe, row, x);
    n := CopyLength(b, subframe, sym, sc);
    RunFits(a, row, x);
    dst := Onward(b, subframe, sym, sc, n, dst0);
    OnwardIs(b, subframe, row, x, n);
    SamePos(b, a);
  }

  // A run of columns stays inside its row.
  lemma RunInside(a: Regular, row: nat, x: nat, n: nat)
    requires a.cfi <= row < SYMBOLS && x + n <= Len(a) && NoPilots(a, row, x, n)
    ensures Pos(a, row, Start(a) + x) + n <= SYMBOLS * Width(a) && Rank(a, row, x) + n <= RowsRank(a, SYMBOLS)
  {
    hide IsPilot, NoPilots, RowsRank, RowRank, SigStart, Start;
    InWidth(a, x + n);
    PosUnique(a, row, Start(a) + x + n);
    PosShift(a, row, Start(a) + x, n);
    RunCounted(a, row, x, n);
    MoreToCome(a, row, x, x + n);
  }

  method PilotRun(b: Low, ghost a: Regular, grid: array<int>, data: seq<int>, subframe: int, dst0: nat, src0: nat, ghost old': seq<int>, ghost row: nat, ghost x: nat)
      returns (dst: nat, src: nat, ghost row': nat, ghost x': nat)
    requires a == AsMapped(b) && row < SYMBOLS && PilotRow(row) && At(a, grid[..], data, old', dst0, src0, row, x) && RowsRank(a, SYMBOLS) <= |data|
    modifies grid
    ensures At(a, grid[..], data, old', dst, src, row', x') && (row' > row || (row' == row && x' > x))
  {
    hide AsMapped, Cell, Rank, IsPilot, Pos, RunLength, Mapped, RowsRank, NoPilots, SigStart, Start, Width, Len, PilotRow, PilotOffset;
    GridSize(a, grid[..], data, old', row, x);
    var n;
    n, dst := NextRun(b, a, subframe, dst0, row, x);
    RunFits(a, row, x);
    RunInside(a, row, x, n);
    MapRun(a, grid[..], data, old', row, x, n);
    CopyRun(grid, dst0, data, src0, n);
    src := src0 + n;
    row', x' := BehindRun(a, grid[..], data, old', row, x, n);
  }

  lemma SamePos(b: Low, a: Regular)
    requires a == AsMapped(b)
    ensures forall r: nat, c: nat :: Pos(b, r, c) == Pos(a, r, c)
  {
  }

  lemma GridSize(a: Low, g: seq<int>, data: seq<int>, old': seq<int>, row: nat, x: nat)
    requires Mapped(a, g, data, old', row, x)
    ensures |g| == SYMBOLS * Width(a)
  {
  }

  lemma RunCounted(a: Low, row: nat, x: nat, n: nat)
    requires NoPilots(a, row, x, n)
    ensures Rank(a, row, x + n) == Rank(a, row, x) + n
  {
    RunRank(a, row, x, n, n);
  }

  lemma NothingMapped(a: Low, g: seq<int>, data: seq<int>)
    requires |g| == SYMBOLS * Width(a)
    ensures Mapped(a, g, data, g, a.cfi, 0) && Rank(a, a.cfi, 0) == 0
  {
    hide IsPilot, Rank;
    forall r: nat, c: nat | r < SYMBOLS && c < Width(a)
      ensures Pos(a, r, c) < |g| && g[Pos(a, r, c)] == Cell(a, data, g, r, c, a.cfi, 0)
    {
      PosUnique(a, r, c);
    }
    NoRank(a);
  }

  lemma NoRank(a: Low)
    ensures Rank(a, a.cfi, 0) == 0
  {
  }

  /**
   Every data element of the allocation as mapped gets the next symbol, in increasing order of positions, its pilots are
   left free, nothing else is written, and exactly the counted number of symbols is used.
  */
  method AddPDSCH(b: Low, grid: array<int>, data: seq<int>, subframe: int) returns (src: nat)
    requires grid.Length == SYMBOLS * Width(b) && Count(b, subframe) <= |data|
    modifies grid
    ensures Mapped(AsMapped(b), grid[..], data, old(grid[..]), SYMBOLS, 0)
    ensures src == Count(b, subframe)
  {
    hide AsMapped, Mapped, Rank, Pos, RowsRank;
    ghost var a := AsMapped(b);
    SameCount(b, a, subframe);
    CountIsExact(a, subframe);
    ghost var was, row, x := grid[..], a.cfi, 0;
    var dst: nat := b.cfi * Width(b) + Start(b);
    src := 0;
    StartsThere(a);
    NothingMapped(a, was, data);
    while src < |data| && dst / Width(b) < SYMBOLS
      invariant row <= SYMBOLS && At(a, grid[..], data, was, dst, src, row, x)
      decreases SYMBOLS - row, Len(a) - x
    {
      PosUnique(a, row, Start(a) + x);
      var sym := dst / Width(b);
      if sym % 7 != 0 && sym % 7 != 4 {
        dst, src := PlainRow(b, a, grid, data, dst, src, was, row);
        row := row + 1;
      } else {
        dst, src, row, x := PilotRun(b, a, grid, data, subframe, dst, src, was, row, x);
      }
    }
    PosUnique(a, row, Start(a) + x);
    if row < SYMBOLS {
      NotDone(a, row, x);
    }
    EndRank(a);
  }

  lemma SameCount(b: Low, a: Regular, subframe: int)
    requires a == AsMapped(b)
    ensures Count(b, subframe) == Count(a, subframe) && a.cfi == b.cfi
  {
  }

  lemma StartsThere(a: Low)
    ensures a.cfi * Width(a) + Start(a) == Pos(a, a.cfi, Start(a))
  {
  }

  lemma NotDone(a: Regular, row: nat, x: nat)
    requires Standing(a, row, x) && row < SYMBOLS
    ensures Rank(a, row, x) < RowsRank(a, SYMBOLS)
  {
    MoreToCome(a, row, x, x);
  }

  lemma EndRank(a: Low)
    ensures Rank(a, SYMBOLS, 0) == RowsRank(a, SYMBOLS)
  {
  }

  // ------------------------------------------------------------ the mapping in numbers

  // Of the first x columns, those with a pilot at offset o of every six.
  lemma {:induction false} RowRankClosed(a: Low, r: nat, x: nat)
    ensures RowRank(a, r, x) == x - if PilotRow(r) then (x + 5 - PilotOffset(a, r)) / 6 else 0
  {
    if x > 0 {
      RowRankClosed(a, r, x - 1);
      OneMoreSixth(x, PilotOffset(a, r));
    }
  }

  lemma OneMoreSixth(x: nat, o: nat)
    requires 0 < x && o <= 5
    ensures (x + 5 - o) / 6 == (x - 1 + 5 - o) / 6 + if (x - 1) % 6 == o then 1 else 0
  {
  }

  // The offset at which the program leaves out a column in row r.
  function FreeOffset(b: Low, r: nat): nat {
    var o := if r == 7 then b.sym0 else b.sym4;
    if o == 0 then 5 else o
  }

  /**
   Which symbol goes to column x of the allocation in row r: rows begin at every 12 ndlrb positions, the allocation 12
   prbStart columns into them, and rows 4, 7 and 11 of the subframe leave out one column of every six. So the first symbol
   goes to position 12 ndlrb cfi + 12 prbStart.
  */
  lemma SymbolAt(b: Low, data: seq<int>, g0: seq<int>, g: seq<int>, r: nat, x: nat)
    requires Mapped(AsMapped(b), g, data, g0, 14, 0) && b.prbLen * ((14 - b.cfi) * 12 - 6) <= |data|
    requires b.cfi <= r < 14 && x < 12 * b.prbLen
    ensures var p := r * (12 * b.ndlrb) + 12 * b.prbStart + x;
            var o := FreeOffset(b, r);
            var before := b.prbLen * (12 * (r - b.cfi) - 2 * ((if r > 4 then 1 else 0) + (if r > 7 then 1 else 0) + if r > 11 then 1 else 0));
            var pilots := r == 4 || r == 7 || r == 11;
            var i := before + x - if pilots then (x + 5 - o) / 6 else 0;
            && p < |g| == |g0|
            && if pilots && x % 6 == o then g[p] == g0[p] else 0 <= i < |data| && g[p] == data[i]
  {
    CountIsExact(AsMapped(b), 1);
    assert RowsRank(AsMapped(b), SYMBOLS) <= |data|;
    MappedAt(b, data, g0, g, r, x);
    RankClosed(b, r, x);
    hide AsMapped, Mapped, Rank, IsPilot, RowsRank, FreeOffset;
  }

  lemma MappedAt(b: Low, data: seq<int>, g0: seq<int>, g: seq<int>, r: nat, x: nat)
    requires Mapped(AsMapped(b), g, data, g0, 14, 0) && RowsRank(AsMapped(b), SYMBOLS) <= |data| && b.cfi <= r < 14 && x < 12 * b.prbLen
    ensures var a, p := AsMapped(b), r * (12 * b.ndlrb) + 12 * b.prbStart + x;
            && p < |g| == |g0| && if IsPilot(a, r, x) then g[p] == g0[p] else Rank(a, r, x) < |data| && g[p] == data[Rank(a, r, x)]
  {
    hide IsPilot, RowRank, RowsRank;
    var a := AsMapped(b);
    MoreToCome(a, r, x, x);
    InWidth(a, x);
    MoreToCome(a, r, x, x + 1);
    OneMore(a, r, x);
    assert g[Pos(a, r, Start(a) + x)] == Cell(a, data, g0, r, Start(a) + x, SYMBOLS, 0);
  }

  lemma RankClosed(b: Low, r: nat, x: nat)
    requires b.cfi <= r < 14
    ensures var o := FreeOffset(b, r);
            var before := b.prbLen * (12 * (r - b.cfi) - 2 * ((if r > 4 then 1 else 0) + (if r > 7 then 1 else 0) + if r > 11 then 1 else 0));
            var pilots := r == 4 || r == 7 || r == 11;
            && Rank(AsMapped(b), r, x) == before + x - (if pilots then (x + 5 - o) / 6 else 0)
            && (IsPilot(AsMapped(b), r, x) <==> pilots && x % 6 == o)
  {
    hide RowRank, RowsRank;
    RowRankClosed(AsMapped(b), r, x);
    BlocksBefore(AsMapped(b), r);
  }

  lemma BlocksBefore(a: Low, r: nat)
    requires a.cfi <= r < 14
    ensures RowsRank(a, r) == a.prbLen * (12 * (r - a.cfi) - 2 * ((if r > 4 then 1 else 0) + (if r > 7 then 1 else 0) + if r > 11 then 1 else 0))
  {
    RowsClosed(a, r);
    hide RowsRank;
  }

  /** Outside the allocation, and in the control region, the grid is as it was. */
  lemma OutsideAlone(b: Low, data: seq<int>, g0: seq<int>, g: seq<int>, r: nat, c: nat)
    requires Mapped(AsMapped(b), g, data, g0, 14, 0) && r < 14 && c < 12 * b.ndlrb
    requires r < b.cfi || c < 12 * b.prbStart || 12 * (b.prbStart + b.prbLen) <= c
    ensures r * (12 * b.ndlrb) + c < |g| == |g0| && g[r * (12 * b.ndlrb) + c] == g0[r * (12 * b.ndlrb) + c]
  {
    hide IsPilot, Rank;
    var a := AsMapped(b);
    assert g[Pos(a, r, c)] == Cell(a, data, g0, r, c, SYMBOLS, 0);
  }

  // ------------------------------------------------------------ where it goes wrong

  // g0 before and g after the mapping, with symbols that can be told from what the grid held.
  ghost predicate Run(b: Low, data: seq<int>, g0: seq<int>, g: seq<int>) {
    && Mapped(AsMapped(b), g, data, g0, SYMBOLS, 0) && RowsRank(AsMapped(b), SYMBOLS) <= |data|
    && forall i, p :: 0 <= i < |data| && 0 <= p < |g0| ==> data[i] != g0[p]
  }

  // A column of the allocation that the program takes for data is overwritten.
  lemma Overwritten(b: Low, data: seq<int>, g0: seq<int>, g: seq<int>, r: nat, x: nat)
    requires Run(b, data, g0, g) && b.cfi <= r < SYMBOLS && x < Len(b) && !IsPilot(AsMapped(b), r, x)
    ensures Pos(b, r, Start(b) + x) < |g| == |g0| && g[Pos(b, r, Start(b) + x)] != g0[Pos(b, r, Start(b) + x)]
  {
    hide IsPilot, RowsRank;
    var a := AsMapped(b);
    MoreToCome(a, r, x, x);
    OneMore(a, r, x);
    MoreToCome(a, r, x, x + 1);
    InWidth(a, x);
    assert g[Pos(a, r, Start(a) + x)] == Cell(a, data, g0, r, Start(a) + x, SYMBOLS, 0);
  }

  // A column that it takes for a pilot, or that is no part of the allocation, is left alone.
  lemma LeftAlone(b: Low, data: seq<int>, g0: seq<int>, g: seq<int>, r: nat, c: nat)
    requires Run(b, data, g0, g) && r < SYMBOLS && c < Width(b)
    requires Start(b) <= c < Start(b) + Len(b) && b.cfi <= r ==> IsPilot(AsMapped(b), r, c - Start(b))
    ensures Pos(b, r, c) < |g| == |g0| && g[Pos(b, r, c)] == g0[Pos(b, r, c)]
  {
    hide IsPilot;
    var a := AsMapped(b);
    assert g[Pos(a, r, c)] == Cell(a, data, g0, r, c, SYMBOLS, 0);
  }

  /** The mapping keeps the pilots of the two offsets free exactly if neither offset is zero. */
  lemma RightIff(b: Low, data: seq<int>, g0: seq<int>, g: seq<int>)
    requires Run(b, data, g0, g)
    ensures Mapped(b, g, data, g0, SYMBOLS, 0) <==> b.sym0 > 0 && b.sym4 > 0
  {
    if b.sym0 == 0 || b.sym4 == 0 {
      var r := if b.sym0 == 0 then 7 else 4;
      Overwritten(b, data, g0, g, r, 0);
      InWidth(b, 0);
      assert Cell(b, data, g0, r, Start(b), SYMBOLS, 0) == g0[Pos(b, r, Start(b))];
    }
  }

  // ------------------------------------------------------------ reference signals (cellRS.zir)

  // The column, modulo 6, of the reference symbols of cell n in row r.
  function ReferenceOffset(n: nat, r: nat): (o: nat)
    ensures o < 6
  {
    ((if r % 7 == 0 then 0 else 3) + n % 6) % 6
  }

  predicate IsReference(n: nat, r: nat, c: nat) {
    PilotRow(r) && c % 6 == ReferenceOffset(n, r)
  }

  // Which of the four reference rows of a subframe row r is.
  function ReferenceIndex(r: nat): nat {
    r / 7 * 2 + if r % 7 == 4 then 1 else 0
  }

  function Place(w: nat, r: nat, c: nat): nat {
    r * w + c
  }

  // The grid with the reference symbols of the first k reference rows.
  ghost predicate Referenced(n: nat, w: nat, symbols: seq<seq<int>>, g0: seq<int>, g: seq<int>, k: nat) {
    && |g| == |g0| == SYMBOLS * w && |symbols| == 4 && (forall i :: 0 <= i < 4 ==> |symbols[i]| * 6 == w)
    && forall r: nat, c: nat :: r < SYMBOLS && c < w ==>
         && Place(w, r, c) < |g|
         && g[Place(w, r, c)] == if IsReference(n, r, c) && ReferenceIndex(r) < k then symbols[ReferenceIndex(r)][c / 6] else g0[Place(w, r, c)]
  }

  // The value of position p after the first m symbols of a row that begins at base.
  function InReferenceRow(g: seq<int>, base: nat, offset: nat, symbols: seq<int>, m: nat, p: nat): int
    requires m <= |symbols| && p < |g|
  {
    if base <= p < base + 6 * m && (p - base) % 6 == offset then symbols[(p - base) / 6] else g[p]
  }

  // The m-th reference symbol of a row goes to every sixth column.
  method ReferenceRow(grid: array<int>, base: nat, offset: nat, symbols: seq<int>)
    requires offset < 6 && base + 6 * |symbols| <= grid.Length
    modifies grid
    ensures forall p :: 0 <= p < grid.Length ==> grid[p] == InReferenceRow(old(grid[..]), base, offset, symbols, |symbols|, p)
  {
    for m := 0 to |symbols|
      invariant forall p :: 0 <= p < grid.Length ==> grid[p] == InReferenceRow(old(grid[..]), base, offset, symbols, m, p)
    {
      grid[base + 6 * m + offset] := symbols[m];
    }
  }

  /** cellRS: the reference symbols of a cell go to their columns of the four reference rows, and nowhere else. */
  method CellRS(grid: array<int>, n: nat, ndlrb: nat, symbols: seq<seq<int>>)
    requires grid.Length == SYMBOLS * (12 * ndlrb) && |symbols| == 4 && forall i :: 0 <= i < 4 ==> |symbols[i]| == 2 * ndlrb
    modifies grid
    ensures Referenced(n, 12 * ndlrb, symbols, old(grid[..]), grid[..], 4)
  {
    hide Referenced;
    var w := 12 * ndlrb;
    ghost var was := grid[..];
    NoReferences(n, w, symbols, was);
    for slot := 0 to 2
      invariant Referenced(n, w, symbols, was, grid[..], 2 * slot)
    {
      for lc := 0 to 2
        invariant Referenced(n, w, symbols, was, grid[..], 2 * slot + lc)
      {
        var row := 7 * slot + 4 * lc;
        ghost var g := grid[..];
        RowsInside(row, w);
        ReferenceRow(grid, row * w, ((if lc == 0 then 0 else 3) + n % 6) % 6, symbols[2 * slot + lc]);
        RowReferenced(n, w, symbols, was, g, grid[..], row, 2 * slot + lc);
      }
    }
  }

  lemma RowsInside(row: nat, w: nat)
    requires row < SYMBOLS
    ensures row * w + w <= SYMBOLS * w
  {
    MulMono(row + 1, SYMBOLS, w);
    Distribute(w, row, 1);
  }

  lemma NoReferences(n: nat, w: nat, symbols: seq<seq<int>>, g: seq<int>)
    requires |g| == SYMBOLS * w && |symbols| == 4 && forall i :: 0 <= i < 4 ==> |symbols[i]| * 6 == w
    ensures Referenced(n, w, symbols, g, g, 0)
  {
    forall r: nat, c: nat | r < SYMBOLS && c < w
      ensures Place(w, r, c) < |g|
    {
      RowsBelow(r, c, w);
    }
  }

  lemma RowReferenced(n: nat, w: nat, symbols: seq<seq<int>>, g0: seq<int>, g: seq<int>, g': seq<int>, row: nat, k: nat)
    requires Referenced(n, w, symbols, g0, g, k) && k < 4 && row == k / 2 * 7 + k % 2 * 4 && |g'| == |g|
    requires forall p :: 0 <= p < |g| ==> g'[p] == InReferenceRow(g, row * w, ReferenceOffset(n, row), symbols[k], |symbols[k]|, p)
    ensures Referenced(n, w, symbols, g0, g', k + 1)
  {
    hide IsReference, ReferenceIndex, Place, InReferenceRow;
    forall r: nat, c: nat | r < SYMBOLS && c < w
      ensures Place(w, r, c) < |g|
      ensures g'[Place(w, r, c)] == if IsReference(n, r, c) && ReferenceIndex(r) < k + 1 then symbols[ReferenceIndex(r)][c / 6] else g0[Place(w, r, c)]
    {
      assert g[Place(w, r, c)] == if IsReference(n, r, c) && ReferenceIndex(r) < k then symbols[ReferenceIndex(r)][c / 6] else g0[Place(w, r, c)];
      InRow(w, row, r, c);
      RowOfIndex(r, row, k);
      ReferenceHere(n, w, g, symbols[k], row, r, c);
    }
  }

  lemma ReferenceHere(n: nat, w: nat, g: seq<int>, symbols: seq<int>, row: nat, r: nat, c: nat)
    requires |symbols| * 6 == w && c < w && Place(w, r, c) < |g| && PilotRow(row)
    requires row * w <= Place(w, r, c) < row * w + w <==> r == row
    requires r == row ==> Place(w, r, c) - row * w == c
    ensures InReferenceRow(g, row * w, ReferenceOffset(n, row), symbols, |symbols|, Place(w, r, c)) ==
            if r == row && IsReference(n, r, c) then symbols[c / 6] else g[Place(w, r, c)]
  {
    hide Place, ReferenceOffset, PilotRow;
  }

  lemma RowOfIndex(r: nat, row: nat, k: nat)
    requires k < 4 && row == k / 2 * 7 + k % 2 * 4 && r < SYMBOLS
    ensures PilotRow(row) && (PilotRow(r) ==> (ReferenceIndex(r) == k <==> r == row))
    ensures forall n, c :: IsReference(n, r, c) ==> PilotRow(r)
  {
  }

  lemma InRow(w: nat, row: nat, r: nat, c: nat)
    requires c < w
    ensures row * w <= Place(w, r, c) < row * w + w <==> r == row
    ensures r == row ==> Place(w, r, c) - row * w == c
  {
    if r < row {
      MulMono(r + 1, row, w);
      Distribute(w, r, 1);
    } else if row < r {
      MulMono(row + 1, r, w);
      Distribute(w, row, 1);
    }
  }

  // The second offset is a function of the first, and three columns from it only from 3 on.
  lemma OffsetsOfCell(n: nat)
    ensures n % 3 == n % 6 % 3 && (n % 3 == (n % 6 + 3) % 6 <==> n % 6 >= 3)
  {
    DivModUnique(2 * (n / 6) + n % 6 / 3, 3, n % 6 % 3);
  }

  // In a cell with n % 6 at least 4 the mapper's pilots are the reference symbols.
  lemma SameColumn(b: Low, n: nat, r: nat, c: nat)
    requires b.sym0 == n % 6 && b.sym4 == n % 6 % 3 && n % 6 >= 4 && IsReference(n, r, c) && Start(b) <= c
    ensures IsPilot(AsMapped(b), r, c - Start(b))
  {
    ColumnOf(b, c - Start(b));
    hide Start;
  }

  lemma ColumnOf(b: Low, x: nat)
    ensures (Start(b) + x) % 6 == x % 6
  {
    ModPlusMultiple(x, 2 * b.prbStart, 6);
  }

  // In any other cell, row 4 has a reference symbol where the mapper sees none.
  lemma OtherColumn(b: Low, n: nat, x: nat)
    requires b.sym0 == n % 6 && b.sym4 == n % 6 % 3 && n % 6 < 4 && x == ReferenceOffset(n, 4)
    ensures !IsPilot(AsMapped(b), 4, x) && IsReference(n, 4, Start(b) + x)
  {
    ColumnOf(b, x);
    hide Start;
  }

  // The reference symbol in column c of row r is still there.
  ghost predicate Kept(b: Low, g0: seq<int>, g: seq<int>, r: nat, c: nat) {
    Pos(b, r, c) < |g| == |g0| && g[Pos(b, r, c)] == g0[Pos(b, r, c)]
  }

  /**
   The program maps cell n with the offsets n % 6 and n % 3 around the reference symbols already in the grid. None of
   them is overwritten exactly if n % 6 is 4 or 5: otherwise symbol 4 of a slot has its reference symbols elsewhere.
  */
  lemma ReferencesKeptIff(b: Low, n: nat, data: seq<int>, g0: seq<int>, g: seq<int>)
    requires b.sym0 == n % 6 && b.sym4 == n % 3 && Run(b, data, g0, g)
    ensures (forall r: nat, c: nat :: r < SYMBOLS && c < Width(b) && IsReference(n, r, c) ==> Kept(b, g0, g, r, c)) <==> n % 6 >= 4
  {
    OffsetsOfCell(n);
    hide Run, AsMapped, IsPilot, Start, Width, IsReference, Pos;
    if n % 6 >= 4 {
      forall r: nat, c: nat | r < SYMBOLS && c < Width(b) && IsReference(n, r, c)
        ensures Kept(b, g0, g, r, c)
      {
        if Start(b) <= c {
          SameColumn(b, n, r, c);
        }
        LeftAlone(b, data, g0, g, r, c);
      }
    } else {
      var x := ReferenceOffset(n, 4);
      OtherColumn(b, n, x);
      InWidth(b, x);
      Overwritten(b, data, g0, g, 4, x);
      assert !Kept(b, g0, g, 4, Start(b) + x);
    }
  }

  /** In cell 12, for one, the first reference symbol of the second slot is overwritten. */
  lemma CellTwelve(b: Low, data: seq<int>, g0: seq<int>, g: seq<int>)
    requires b.prbStart == 0 && b.sym0 == 12 % 6 && b.sym4 == 12 % 3 && Run(b, data, g0, g)
    ensures IsReference(12, 7, 0) && !Kept(b, g0, g, 7, 0)
  {
    Overwritten(b, data, g0, g, 7, 0);
  }
}
