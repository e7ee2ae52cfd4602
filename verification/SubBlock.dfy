/**
 The sub-block interleaver of section 5.1.4 of 3GPP TS 36.212: a matrix of 32
 columns is filled row by row (NULLs first), its columns are permuted, and it is
 read column by column.

 The functions say what the interleaver is; the methods are the loops of
 interleave.zir and of the receiver's variants.
*/
module SubBlock {
  import opened ModArith
  import opened Options

  datatype Mode = Conv | Turbo

  // The number of columns.
  const CC := 32

  /** A column permutation and its inverse. */
  datatype ColumnTable = ColumnTable(p: seq<nat>, inv: seq<nat>) {
    ghost predicate Valid() {
      && |p| == |inv| == CC
      && (forall j :: 0 <= j < CC ==> p[j] < CC && inv[p[j]] == j)
      && (forall c :: 0 <= c < CC ==> inv[c] < CC && p[inv[c]] == c)
    }
  }

  const P_TURBO: seq<nat> :=
    [0, 16, 8, 24, 4, 20, 12, 28, 2, 18, 10, 26, 6, 22, 14, 30,
     1, 17, 9, 25, 5, 21, 13, 29, 3, 19, 11, 27, 7, 23, 15, 31]

  const P_CONV: seq<nat> :=
    [1, 17, 9, 25, 5, 21, 13, 29, 3, 19, 11, 27, 7, 23, 15, 31,
     0, 16, 8, 24, 4, 20, 12, 28, 2, 18, 10, 26, 6, 22, 14, 30]

  const PINV_CONV: seq<nat> :=
    [16, 0, 24, 8, 20, 4, 28, 12, 18, 2, 26, 10, 22, 6, 30, 14,
     17, 1, 25, 9, 21, 5, 29, 13, 19, 3, 27, 11, 23, 7, 31, 15]

  type Columns = t: ColumnTable | t.Valid() witness (TurboColumns(); ColumnTable(P_TURBO, P_TURBO))

  // The turbo permutation reverses five bits, so it is its own inverse.
  function ColumnsOf(mode: Mode): Columns {
    TurboColumns();
    ConvColumns();
    ConvColumnsInverse();
    if mode == Conv then ColumnTable(P_CONV, PINV_CONV) else ColumnTable(P_TURBO, P_TURBO)
  }

  /** Both tables of the source are permutations of the 32 columns. */
  lemma TurboColumns()
    ensures forall j :: 0 <= j < CC ==> P_TURBO[j] < CC && P_TURBO[P_TURBO[j]] == j
  {
  }

  lemma ConvColumns()
    ensures forall j :: 0 <= j < CC ==> P_CONV[j] < CC && PINV_CONV[P_CONV[j]] == j
  {
  }

  lemma ConvColumnsInverse()
    ensures forall c :: 0 <= c < CC ==> PINV_CONV[c] < CC && P_CONV[PINV_CONV[c]] == c
  {
  }

  /** The turbo permutation reverses the five bits of a column number. */
  lemma BitReversal(j: nat)
    requires j < 32
    ensures P_TURBO[j] == 16 * (j % 2) + 8 * (j / 2 % 2) + 4 * (j / 4 % 2) + 2 * (j / 8 % 2) + j / 16
  {
    if j < 8 {
    } else if j < 16 {
    } else if j < 24 {
    } else {
    }
  }

  /** The convolutional one is the same with its halves exchanged. */
  lemma HalvesExchanged(j: nat)
    requires j < 16
    ensures P_CONV[j] == P_TURBO[j + 16] && P_CONV[j + 16] == P_TURBO[j]
  {
    if j < 4 {
    } else if j < 8 {
    } else if j < 12 {
    } else {
    }
  }

  /** Which table is whose. */
  lemma TablesOf()
    ensures ColumnsOf(Turbo).p == P_TURBO && ColumnsOf(Conv).p == P_CONV
  {
  }

  // Rows of the matrix: ceil(d / 32).
  function Rows(d: nat): nat { (d + CC - 1) / CC }

  // Entries of the matrix, NULLs included.
  function Size(d: nat): nat { CC * Rows(d) }

  // Number of NULLs, all at the front of the matrix.
  function Padding(d: nat): nat { Size(d) - d }

  // The matrix entry that output position k reads.
  function Source(c: Columns, d: nat, delta: nat, k: nat): (m: nat)
    requires k < Size(d)
    ensures m < Size(d)
  {
    DivBound(k, CC, Rows(d));
    (c.p[k / Rows(d)] + CC * (k % Rows(d)) + delta) % Size(d)
  }

  // The position, computed: undo the shift, then the column permutation.
  function ReaderOf(c: Columns, d: nat, delta: nat, m: nat): (k: nat)
    requires m < Size(d)
    ensures k < Size(d)
  {
    var n := (m - delta) % Size(d);
    MulMono(c.inv[n % CC], CC - 1, Rows(d));
    c.inv[n % CC] * Rows(d) + n / CC
  }

  lemma ReaderReads(c: Columns, d: nat, delta: nat, m: nat)
    requires m < Size(d)
    ensures Source(c, d, delta, ReaderOf(c, d, delta, m)) == m
  {
    var n, z := (m - delta) % Size(d), Size(d);
    DivModUnique(c.inv[n % CC], Rows(d), n / CC);
    assert Source(c, d, delta, ReaderOf(c, d, delta, m)) == (n + delta) % z by {
      assert c.p[c.inv[n % CC]] + CC * (n / CC) == n;
    }
    hide *;
    ModShift(m, delta, z);
  }

  // The reader of a matrix entry, in terms of the entry before the shift.
  lemma ReaderBeforeShift(c: Columns, d: nat, delta: nat, x: nat)
    requires x < Size(d)
    ensures ReaderOf(c, d, delta, (x + delta) % Size(d)) == c.inv[x % CC] * Rows(d) + x / CC
  {
    ModShift(x, delta, Size(d));
  }

  lemma ReaderIsUnique(c: Columns, d: nat, delta: nat, k: nat)
    requires k < Size(d)
    ensures ReaderOf(c, d, delta, Source(c, d, delta, k)) == k
  {
    var r := Rows(d);
    DivBound(k, CC, r);
    DivMod(k, r);
    var x := c.p[k / r] + CC * (k % r);
    assert x % CC == c.p[k / r] && x / CC == k % r;
    ReaderBeforeShift(c, d, delta, x);
  }

  // The output position that reads matrix entry m.
  ghost function Dest(c: Columns, d: nat, delta: nat, m: nat): (k: nat)
    requires m < Size(d)
    ensures k < Size(d) && Source(c, d, delta, k) == m
  {
    ReaderReads(c, d, delta, m);
    var k: nat :| k < Size(d) && Source(c, d, delta, k) == m;
    k
  }

  /** The interleaver is a bijection: every matrix entry is read at exactly one position. */
  lemma DestOfSource(c: Columns, d: nat, delta: nat, k: nat)
    requires k < Size(d)
    ensures Dest(c, d, delta, Source(c, d, delta, k)) == k
  {
    ReaderIsUnique(c, d, delta, k);
    ReaderIsUnique(c, d, delta, Dest(c, d, delta, Source(c, d, delta, k)));
  }

  /** Exactly d positions read a data entry; the others read padding. */
  lemma CountBelow(c: Columns, d: nat, delta: nat, m: nat)
    requires Padding(d) <= m <= Size(d)
    ensures |ReadersBelow(c, d, delta, m)| == m - Padding(d)
  {
    if m == Padding(d) {
      assert ReadersBelow(c, d, delta, m) == {};
    } else {
      CountBelow(c, d, delta, m - 1);
      ReadersStep(c, d, delta, m - 1);
    }
  }

  lemma ReadersStep(c: Columns, d: nat, delta: nat, m: nat)
    requires Padding(d) <= m < Size(d)
    ensures Dest(c, d, delta, m) !in ReadersBelow(c, d, delta, m)
    ensures ReadersBelow(c, d, delta, m + 1) == ReadersBelow(c, d, delta, m) + {Dest(c, d, delta, m)}
  {
    forall k: nat | k < Size(d)
      ensures Source(c, d, delta, k) == m <==> k == Dest(c, d, delta, m)
    {
      DestOfSource(c, d, delta, k);
    }
  }

  // The positions that read a data entry below m.
  ghost function ReadersBelow(c: Columns, d: nat, delta: nat, m: nat): set<nat>
  {
    set k: nat | k < Size(d) && Padding(d) <= Source(c, d, delta, k) < m
  }

  // ------------------------------------------------------------ the interleaver on sequences

  function Interleaved<T>(s: seq<T>, c: Columns, delta: nat): (w: seq<Option<T>>)
    ensures |w| == Size(|s|)
  {
    Entries(s, c, delta, Size(|s|))
  }

  function Entries<T>(s: seq<T>, c: Columns, delta: nat, n: nat): (w: seq<Option<T>>)
    requires n <= Size(|s|)
    ensures |w| == n
  {
    if n == 0 then [] else Entries(s, c, delta, n - 1) + [Entry(s, Source(c, |s|, delta, n - 1))]
  }

  lemma {:induction false} EntriesAt<T>(s: seq<T>, c: Columns, delta: nat, n: nat, k: nat)
    requires k < n <= Size(|s|)
    ensures Entries(s, c, delta, n)[k] == Entry(s, Source(c, |s|, delta, k))
  {
    if k < n - 1 {
      EntriesAt(s, c, delta, n - 1, k);
    }
  }

  lemma InterleavedAt<T>(s: seq<T>, c: Columns, delta: nat, k: nat)
    requires k < Size(|s|)
    ensures Interleaved(s, c, delta)[k] == Entry(s, Source(c, |s|, delta, k))
  {
    EntriesAt(s, c, delta, Size(|s|), k);
  }

  /**
   The interleaver as a matrix: row i of 32 columns holds entries 32 * i to 32 * i + 31 of the stream with its NULLs in
   front, and column j of the result is column p[j], read from top to bottom; a shift is cyclic in the whole matrix.
  */
  lemma ReadByColumns<T>(s: seq<T>, c: Columns, delta: nat, r: nat, i: nat, j: nat)
    requires r == (|s| + 31) / 32 && i < r && j < 32
    ensures j * r + i < Size(|s|) == 32 * r
    ensures var m := (32 * i + c.p[j] + delta) % (32 * r);
            Interleaved(s, c, delta)[j * r + i] == if m < 32 * r - |s| then None else Some(s[m - (32 * r - |s|)])
  {
    DivModUnique(j, r, i);
    MulMono(j, 31, r);
    InterleavedAt(s, c, delta, j * r + i);
  }

  // Entry m of the padded matrix.
  function Entry<T>(s: seq<T>, m: nat): Option<T>
    requires m < Size(|s|)
  {
    if m < Padding(|s|) then None else Some(s[m - Padding(|s|)])
  }

  // Data entry i as found in the interleaved sequence w.
  ghost function Read<T>(w: seq<Option<T>>, c: Columns, d: nat, delta: nat, i: nat): Option<T>
    requires |w| == Size(d) && i < d
  {
    w[Dest(c, d, delta, i + Padding(d))]
  }

  /** Deinterleaving undoes interleaving, for every stream, column permutation and shift. */
  lemma ReadInterleaved<T>(s: seq<T>, c: Columns, delta: nat, i: nat)
    requires i < |s|
    ensures Read(Interleaved(s, c, delta), c, |s|, delta, i) == Some(s[i])
  {
    InterleavedAt(s, c, delta, Dest(c, |s|, delta, i + Padding(|s|)));
  }

  // ------------------------------------------------------------ counting the entries that are not NULL

  function Rank<T>(w: seq<Option<T>>, n: nat): (r: nat)
    requires n <= |w|
    ensures r <= n
  {
    if n == 0 then 0 else Rank(w, n - 1) + (if w[n - 1].Some? then 1 else 0)
  }

  // The non-NULL values among the first n entries, in order.
  function Picked<T>(w: seq<Option<T>>, n: nat): (s: seq<T>)
    requires n <= |w|
    ensures |s| == Rank(w, n)
  {
    if n == 0 then [] else Picked(w, n - 1) + (if w[n - 1].Some? then [w[n - 1].value] else [])
  }

  /** The entry at index i, if not NULL, is the Rank(i)-th of the picked values. */
  lemma {:induction false} PickedAt<T>(w: seq<Option<T>>, i: nat, n: nat)
    requires i < n <= |w| && w[i].Some?
    ensures Rank(w, i) < Rank(w, n) && Picked(w, n)[Rank(w, i)] == w[i].value
  {
    if i < n - 1 {
      PickedAt(w, i, n - 1);
    }
  }

  lemma {:induction false} RankMonotone<T>(w: seq<Option<T>>, i: nat, n: nat)
    requires i <= n <= |w|
    ensures Rank(w, i) <= Rank(w, n) <= Rank(w, i) + (n - i)
  {
    if i < n {
      RankMonotone(w, i, n - 1);
    }
  }

  lemma {:induction false} RankIsCount<T>(w: seq<Option<T>>, n: nat)
    requires n <= |w|
    ensures Rank(w, n) == |set k: nat | k < n && w[k].Some?|
  {
    var now := set k: nat | k < n && w[k].Some?;
    if n == 0 {
      assert now == {};
    } else {
      RankIsCount(w, n - 1);
      var before := set k: nat | k < n - 1 && w[k].Some?;
      assert now == if w[n - 1].Some? then before + {n - 1} else before;
    }
  }

  // Ranks depend on where the NULLs are, not on the values.
  lemma {:induction false} RankSameShape<T, U>(v: seq<Option<T>>, w: seq<Option<U>>, n: nat)
    requires n <= |v| == |w|
    requires forall k :: 0 <= k < |v| ==> (v[k].Some? <==> w[k].Some?)
    ensures Rank(v, n) == Rank(w, n)
  {
    if n > 0 {
      RankSameShape(v, w, n - 1);
    }
  }

  /** Interleaving loses nothing: the output holds exactly one entry per input value. */
  lemma InterleavedRank<T>(s: seq<T>, c: Columns, delta: nat)
    ensures Rank(Interleaved(s, c, delta), Size(|s|)) == |s|
  {
    var w := Interleaved(s, c, delta);
    RankIsCount(w, Size(|s|));
    CountBelow(c, |s|, delta, Size(|s|));
    forall k: nat | k < Size(|s|)
      ensures w[k].Some? <==> Padding(|s|) <= Source(c, |s|, delta, k)
    {
      InterleavedAt(s, c, delta, k);
    }
    assert (set k: nat | k < Size(|s|) && w[k].Some?) == ReadersBelow(c, |s|, delta, Size(|s|));
  }
}
