/** Scattering a flat batch into one padded row for each request, and gathering the rows' outputs. */
module ConvPacking {
  import opened Convolutions
  import opened Sequences

  /** Request boundaries in a flat batch. */
  ghost predicate Bounds(starts: seq<nat>, n: nat, width: nat) {
    && |starts| == n + 1 && starts[0] == 0
    && forall i | 0 <= i < n :: starts[i] <= starts[i + 1] <= starts[i] + width
  }

  lemma {:induction false} BoundsOrdered(starts: seq<nat>, n: nat, width: nat, i: nat, j: nat)
    requires Bounds(starts, n, width) && i <= j <= n
    ensures starts[i] <= starts[j]
  {
    if i < j {
      BoundsOrdered(starts, n, width, i, j - 1);
    }
  }

  /** The part of a flat batch that belongs to one request. */
  function Chunk(x: seq<int>, starts: seq<nat>, i: nat): (chunk: seq<int>) {
    if i + 1 < |starts| && starts[i] <= starts[i + 1] <= |x| then x[starts[i]..starts[i + 1]] else []
  }

  lemma ChunkLength(x: seq<int>, starts: seq<nat>, n: nat, width: nat, i: nat)
    requires Bounds(starts, n, width) && starts[n] <= |x| && i < n
    ensures |Chunk(x, starts, i)| == starts[i + 1] - starts[i] <= width
  {
    BoundsOrdered(starts, n, width, i + 1, n);
  }

  // ----- where a flat position goes -----

  /** The request of a flat position, found among the ends; positions past the last end have none. */
  function RowOf(starts: seq<nat>, p: nat): nat
    requires starts != []
  {
    SearchRight(starts[1..], p)
  }

  lemma RowFound(starts: seq<nat>, n: nat, width: nat, p: nat)
    requires Bounds(starts, n, width)
    ensures p >= starts[n] ==> RowOf(starts, p) == n
    ensures p < starts[n] ==> RowOf(starts, p) < n && starts[RowOf(starts, p)] <= p < starts[RowOf(starts, p) + 1]
  {
    var ends := starts[1..];
    forall i, j | 0 <= i < j < |ends|
      ensures ends[i] <= ends[j]
    {
      BoundsOrdered(starts, n, width, i + 1, j + 1);
    }
    SearchRightIs(ends, p);
    var r := RowOf(starts, p);
    if r < n {
      assert ends[r] == starts[r + 1] > p;
      BoundsOrdered(starts, n, width, r + 1, n);
    }
    if r > 0 {
      assert ends[r - 1] == starts[r] <= p;
    }
  }

  lemma RowOfOwn(starts: seq<nat>, n: nat, width: nat, p: nat, i: nat)
    requires Bounds(starts, n, width) && i < n && starts[i] <= p < starts[i + 1]
    ensures p < starts[n] && RowOf(starts, p) == i
  {
    BoundsOrdered(starts, n, width, i + 1, n);
    RowFound(starts, n, width, p);
    var r := RowOf(starts, p);
    if r < i {
      BoundsOrdered(starts, n, width, r + 1, i);
    } else if r > i {
      BoundsOrdered(starts, n, width, i + 1, r);
    }
  }

  /** A real position's row and column; padding positions all go to the first column of a dummy row. */
  function PackSlot(starts: seq<nat>, n: nat, width: nat, p: nat): (int, int)
    requires |starts| == n + 1
  {
    var row := RowOf(starts, p);
    if p < starts[n] && row < n then (row, Clamp(p - starts[row], 0, width - 1)) else (n, 0)
  }

  /** Clamping never moves a real position, and only padding reaches the dummy row. */
  lemma PackSlotIs(starts: seq<nat>, n: nat, width: nat, p: nat)
    requires Bounds(starts, n, width) && width > 0
    ensures p >= starts[n] ==> PackSlot(starts, n, width, p) == (n, 0)
    ensures p < starts[n] ==>
              var (row, column) := PackSlot(starts, n, width, p);
              0 <= row < n && 0 <= column < width && p == starts[row] + column < starts[row + 1]
  {
    RowFound(starts, n, width, p);
  }

  // ----- packing -----

  /** A row of tokens filled up with zeros. */
  function ZeroFilled(row: seq<int>, width: nat): (r: seq<int>)
    ensures |row| <= width ==> |r| == width && r[..|row|] == row
  {
    row + Zeros(if |row| <= width then width - |row| else 0)
  }

  /** What a place in a packed row holds when the positions before `end` have been scattered. */
  function Cell(x: seq<int>, starts: seq<nat>, i: nat, c: nat, end: nat): int
    requires i + 1 < |starts|
  {
    var q := starts[i] + c;
    if q < starts[i + 1] && q < end && q < |x| then x[q] else 0
  }

  lemma CellStep(x: seq<int>, starts: seq<nat>, n: nat, width: nat, p: nat, i: nat, c: nat)
    requires Bounds(starts, n, width) && width > 0 && p < |x| && i < n && c < width
    ensures Cell(x, starts, i, c, p + 1)
         == if PackSlot(starts, n, width, p) == (i, c) then x[p] else Cell(x, starts, i, c, p)
  {
    PackSlotIs(starts, n, width, p);
    if starts[i] + c == p < starts[i + 1] {
      OwnSlot(starts, n, width, p, i);
    }
    hide PackSlot;
  }

  /** One more position scattered changes exactly its own place. */
  lemma CellsStep(x: seq<int>, starts: seq<nat>, n: nat, width: nat, p: nat)
    requires Bounds(starts, n, width) && width > 0 && p < |x|
    ensures var slot := PackSlot(starts, n, width, p);
            && 0 <= slot.0 <= n && 0 <= slot.1 < width
            && forall i, c | 0 <= i < n && 0 <= c < width ::
                 Cell(x, starts, i, c, p + 1) == if slot == (i, c) then x[p] else Cell(x, starts, i, c, p)
  {
    PackSlotIs(starts, n, width, p);
    hide PackSlot, Cell;
    forall i, c | 0 <= i < n && 0 <= c < width
      ensures Cell(x, starts, i, c, p + 1)
           == if PackSlot(starts, n, width, p) == (i, c) then x[p] else Cell(x, starts, i, c, p)
    {
      CellStep(x, starts, n, width, p, i, c);
    }
  }

  ghost predicate ScatteredTo(packed: array2<int>, x: seq<int>, starts: seq<nat>, n: nat, end: nat)
    requires |starts| == n + 1 && packed.Length0 == n + 1
    reads packed
  {
    forall i, c | 0 <= i < n && 0 <= c < packed.Length1 :: packed[i, c] == Cell(x, starts, i, c, end)
  }

  lemma NothingScattered(x: seq<int>, starts: seq<nat>, n: nat, width: nat)
    requires Bounds(starts, n, width)
    ensures |starts| == n + 1 && forall i, c: nat | 0 <= i < n :: Cell(x, starts, i, c, 0) == 0
  {
  }

  method Pack(x: seq<int>, starts: seq<nat>, n: nat, width: nat) returns (packed: array2<int>)
    requires Bounds(starts, n, width) && width > 0 && starts[n] <= |x|
    ensures fresh(packed) && packed.Length0 == n + 1 && packed.Length1 == width
    ensures forall i | 0 <= i < n :: PackedRow(packed, i) == ZeroFilled(Chunk(x, starts, i), width)
  {
    hide Bounds, Cell, PackSlot, Chunk, RowOf, Zeros;
    packed := new int[n + 1, width]((_, _) => 0);
    NothingScattered(x, starts, n, width);
    assert ScatteredTo(packed, x, starts, n, 0);
    for p := 0 to |x|
      invariant packed.Length0 == n + 1 && packed.Length1 == width && fresh(packed)
      invariant ScatteredTo(packed, x, starts, n, p)
    {
      CellsStep(x, starts, n, width, p);
      var slot := PackSlot(starts, n, width, p);
      packed[slot.0, slot.1] := x[p];
    }
    forall i | 0 <= i < n
      ensures PackedRow(packed, i) == ZeroFilled(Chunk(x, starts, i), width)
    {
      ScatteredIsChunk(packed, x, starts, n, width, i);
    }
  }

  lemma ScatteredIsChunk(packed: array2<int>, x: seq<int>, starts: seq<nat>, n: nat, width: nat, i: nat)
    requires Bounds(starts, n, width) && starts[n] <= |x| && i < n
    requires packed.Length0 == n + 1 && packed.Length1 == width && ScatteredTo(packed, x, starts, n, |x|)
    ensures PackedRow(packed, i) == ZeroFilled(Chunk(x, starts, i), width)
  {
    ChunkLength(x, starts, n, width, i);
    BoundsOrdered(starts, n, width, i + 1, n);
  }

  /** A position of a request goes to that request's row, at its place among its tokens. */
  lemma OwnSlot(starts: seq<nat>, n: nat, width: nat, p: nat, i: nat)
    requires Bounds(starts, n, width) && i < n && starts[i] <= p < starts[i + 1]
    ensures PackSlot(starts, n, width, p) == (i, p - starts[i])
  {
    RowOfOwn(starts, n, width, p, i);
  }

  function PackedRow(packed: array2<int>, i: nat): (row: seq<int>)
    requires i < packed.Length0
    reads packed
    ensures |row| == packed.Length1
  {
    seq(packed.Length1, c requires 0 <= c < packed.Length1 reads packed => packed[i, c])
  }

  /** The tokens of each request, from its packed row and the number it has. */
  method PackedChunks(x: seq<int>, starts: seq<nat>, n: nat, width: nat) returns (chunks: seq<seq<int>>)
    requires Bounds(starts, n, width) && width > 0 && starts[n] <= |x|
    ensures |chunks| == n && forall i | 0 <= i < n :: chunks[i] == Chunk(x, starts, i)
  {
    var packed := Pack(x, starts, n, width);
    chunks := [];
    for i := 0 to n
      modifies {}
      invariant |chunks| == i && forall k | 0 <= k < i :: chunks[k] == Chunk(x, starts, k)
    {
      ChunkLength(x, starts, n, width, i);
      ghost var own := Chunk(x, starts, i);
      assert PackedRow(packed, i) == ZeroFilled(own, width);
      chunks := chunks + [PackedRow(packed, i)[..starts[i + 1] - starts[i]]];
    }
  }

  // ----- unpacking -----

  /** Each row gives as many outputs as its request has tokens. */
  ghost predicate Sized(rows: seq<seq<int>>, starts: seq<nat>) {
    && |starts| == |rows| + 1
    && forall i | 0 <= i < |rows| :: starts[i + 1] == starts[i] + |rows[i]|
  }

  /** Outputs gathered back from the rows; padding positions output zero. */
  method Unpack(rows: seq<seq<int>>, starts: seq<nat>, width: nat, total: nat) returns (out: seq<int>)
    requires Bounds(starts, |rows|, width) && width > 0 && Sized(rows, starts) && starts[|rows|] <= total
    ensures |out| == total
    ensures forall i | 0 <= i < |rows| :: Chunk(out, starts, i) == rows[i]
    ensures out[starts[|rows|]..] == Zeros(total - starts[|rows|])
  {
    var n := |rows|;
    out := [];
    for p := 0 to total
      invariant |out| == p
      invariant forall q | 0 <= q < p :: GatheredAt(rows, starts, width, q, out[q])
    {
      PackSlotIs(starts, n, width, p);
      var slot := PackSlot(starts, n, width, p);
      out := out + [if slot.0 < n then rows[slot.0][slot.1] else 0];
    }
    forall i | 0 <= i < n
      ensures Chunk(out, starts, i) == rows[i]
    {
      ChunkGathered(rows, starts, width, out, i);
    }
    forall q | starts[n] <= q < total
      ensures out[q] == 0
    {
      PackSlotIs(starts, n, width, q);
      assert GatheredAt(rows, starts, width, q, out[q]);
    }
  }

  ghost predicate GatheredAt(rows: seq<seq<int>>, starts: seq<nat>, width: nat, q: nat, y: int)
    requires |starts| == |rows| + 1
  {
    var slot := PackSlot(starts, |rows|, width, q);
    y == if 0 <= slot.0 < |rows| && 0 <= slot.1 < |rows[slot.0]| then rows[slot.0][slot.1] else 0
  }

  lemma GatheredOwn(rows: seq<seq<int>>, starts: seq<nat>, width: nat, q: nat, y: int, i: nat)
    requires Bounds(starts, |rows|, width) && Sized(rows, starts) && i < |rows| && starts[i] <= q < starts[i + 1]
    requires GatheredAt(rows, starts, width, q, y)
    ensures y == rows[i][q - starts[i]]
  {
    OwnSlot(starts, |rows|, width, q, i);
    hide PackSlot, Bounds;
  }

  lemma ChunkGathered(rows: seq<seq<int>>, starts: seq<nat>, width: nat, out: seq<int>, i: nat)
    requires Bounds(starts, |rows|, width) && width > 0 && Sized(rows, starts) && starts[|rows|] <= |out| && i < |rows|
    requires forall q | 0 <= q < |out| :: GatheredAt(rows, starts, width, q, out[q])
    ensures Chunk(out, starts, i) == rows[i]
  {
    hide *;
    ChunkIsSlice(rows, starts, width, out, i);
    var from, end := starts[i], starts[i + 1];
    forall c: nat | c < |rows[i]|
      ensures out[from + c] == rows[i][c]
    {
      var q := from + c;
      assert from <= q < end && GatheredAt(rows, starts, width, q, out[q]);
      GatheredOwn(rows, starts, width, q, out[q], i);
    }
    SliceIs(out, from, rows[i]);
  }

  lemma ChunkIsSlice(rows: seq<seq<int>>, starts: seq<nat>, width: nat, out: seq<int>, i: nat)
    requires Bounds(starts, |rows|, width) && Sized(rows, starts) && starts[|rows|] <= |out| && i < |rows|
    ensures |starts| == |rows| + 1 && starts[i + 1] == starts[i] + |rows[i]| <= |out|
    ensures Chunk(out, starts, i) == out[starts[i]..starts[i] + |rows[i]|]
  {
    BoundsOrdered(starts, |rows|, width, i + 1, |rows|);
  }

  lemma SliceIs(out: seq<int>, from: nat, row: seq<int>)
    requires from + |row| <= |out| && forall c: nat | c < |row| :: out[from + c] == row[c]
    ensures out[from..from + |row|] == row
  {
  }
}
