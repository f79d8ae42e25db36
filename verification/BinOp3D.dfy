/** `BinOp3D`, and sorting rows together with a payload through one permutation. */
module BinOp3D {
  import opened Counting
  import opened BinPlacement
  import opened BinSorter
  import opened KokkosSort

  datatype Row = Row(x: real, y: real, z: real)

  datatype Cell = Cell(i: int, j: int, k: int)

  datatype Op3D = Op3D(nx: nat, ny: nat, nz: nat, mul: Row, min: Row) {
    function MaxBins(): nat {
      nx * ny * nz
    }

    function CellOf(r: Row): Cell {
      Cell(Strip(mul.x, min.x, r.x), Strip(mul.y, min.y, r.y), Strip(mul.z, min.z, r.z))
    }

    function Bin(r: Row): int {
      var c := CellOf(r);
      (c.i * ny + c.j) * nz + c.k
    }

    /** The comparison in a bin: the lexicographically greater row comes first. */
    function Op(): BinOp<Row> {
      BinOp(MaxBins(), r => Bin(r), (a: Row, b: Row) => Greater(a, b))
    }
  }

  predicate Greater(a: Row, b: Row) {
    if a.x > b.x then true
    else if a.x == b.x then
      if a.y > b.y then true
      else if a.y == b.y then a.z > b.z
      else false
    else false
  }

  function MakeOp3D(nx: nat, ny: nat, nz: nat, min: Row, max: Row): Op3D
    requires min.x != max.x && min.y != max.y && min.z != max.z
  {
    Op3D(nx, ny, nz, Row(Slope(nx, min.x, max.x), Slope(ny, min.y, max.y), Slope(nz, min.z, max.z)), min)
  }

  /** Half-open in every dimension. */
  ghost predicate Inside(r: Row, min: Row, max: Row) {
    min.x <= r.x < max.x && min.y <= r.y < max.y && min.z <= r.z < max.z
  }

  ghost predicate InGrid(op: Op3D, c: Cell) {
    0 <= c.i < op.nx && 0 <= c.j < op.ny && 0 <= c.k < op.nz
  }

  ghost predicate CellBefore(a: Cell, b: Cell) {
    a.i < b.i || (a.i == b.i && (a.j < b.j || (a.j == b.j && a.k < b.k)))
  }

  /** The row lies in cell `c` of the grid of `nx * ny * nz` equal cells on the box. */
  ghost predicate InCell(nx: nat, ny: nat, nz: nat, min: Row, max: Row, r: Row, c: Cell)
    requires 0 < nx && 0 < ny && 0 < nz
  {
    && Edge(nx, min.x, max.x, c.i) <= r.x < Edge(nx, min.x, max.x, c.i + 1)
    && Edge(ny, min.y, max.y, c.j) <= r.y < Edge(ny, min.y, max.y, c.j + 1)
    && Edge(nz, min.z, max.z, c.k) <= r.z < Edge(nz, min.z, max.z, c.k + 1)
  }

  /** The bin of a row of the box, from the cell it lies in. */
  lemma BinOfCell(nx: nat, ny: nat, nz: nat, min: Row, max: Row, r: Row, c: Cell)
    requires 0 < nx && 0 < ny && 0 < nz && Inside(r, min, max)
    ensures var op := MakeOp3D(nx, ny, nz, min, max);
            && op.MaxBins() == nx * ny * nz
            && (InCell(nx, ny, nz, min, max, r, c) <==> op.CellOf(r) == c)
            && (InCell(nx, ny, nz, min, max, r, c) ==> op.Bin(r) == (c.i * ny + c.j) * nz + c.k)
  {
    hide Strip, Slope, Edge;
    StripIsInterval(nx, min.x, max.x, r.x, c.i);
    StripIsInterval(ny, min.y, max.y, r.y, c.j);
    StripIsInterval(nz, min.z, max.z, r.z, c.k);
  }

  lemma CoordinateInGrid(n: nat, min: real, max: real, key: real)
    requires 0 < n && min <= key < max
    ensures 0 <= Strip(Slope(n, min, max), min, key) < n
  {
    Scaled(n, min, max, key);
  }

  lemma CellInGrid(nx: nat, ny: nat, nz: nat, min: Row, max: Row, r: Row)
    requires 0 < nx && 0 < ny && 0 < nz && Inside(r, min, max)
    ensures InGrid(MakeOp3D(nx, ny, nz, min, max), MakeOp3D(nx, ny, nz, min, max).CellOf(r))
  {
    hide Strip, Slope;
    CoordinateInGrid(nx, min.x, max.x, r.x);
    CoordinateInGrid(ny, min.y, max.y, r.y);
    CoordinateInGrid(nz, min.z, max.z, r.z);
  }

  /** Every row of the box lies in exactly one cell, and that is in the grid. */
  lemma OneCell(nx: nat, ny: nat, nz: nat, min: Row, max: Row, r: Row)
    requires 0 < nx && 0 < ny && 0 < nz && Inside(r, min, max)
    ensures exists c: Cell :: InCell(nx, ny, nz, min, max, r, c) && 0 <= c.i < nx && 0 <= c.j < ny && 0 <= c.k < nz
    ensures forall c: Cell, d: Cell :: InCell(nx, ny, nz, min, max, r, c) && InCell(nx, ny, nz, min, max, r, d) ==> c == d
  {
    var cell := MakeOp3D(nx, ny, nz, min, max).CellOf(r);
    CellInGrid(nx, ny, nz, min, max, r);
    hide InCell, Op3D.CellOf;
    forall c: Cell
      ensures InCell(nx, ny, nz, min, max, r, c) <==> c == cell
    {
      BinOfCell(nx, ny, nz, min, max, r, c);
    }
  }

  /** Two-digit numbers compare like their digits. */
  lemma Digits(n: nat, hi: int, lo: int, hi': int, lo': int)
    requires 0 <= lo < n && 0 <= lo' < n
    ensures hi * n + lo < hi' * n + lo' <==> hi < hi' || (hi == hi' && lo < lo')
  {
    if hi < hi' {
      MultiplesApart(n, hi, hi');
    } else if hi' < hi {
      MultiplesApart(n, hi', hi);
    }
  }

  lemma DigitsBelow(n: nat, m: nat, hi: int, lo: int)
    requires 0 <= lo < n && 0 <= hi < m
    ensures 0 <= hi * n + lo < m * n
  {
    MultiplesApart(n, hi, m);
    MultiplesApart(n, -1, hi);
  }

  /** The bin of a cell in the grid is in range, and bins compare like cells: lexicographically. */
  lemma Bins3D(op: Op3D, a: Row, b: Row)
    requires InGrid(op, op.CellOf(a)) && InGrid(op, op.CellOf(b))
    ensures 0 <= op.Bin(a) < op.MaxBins()
    ensures op.Bin(a) < op.Bin(b) <==> CellBefore(op.CellOf(a), op.CellOf(b))
    ensures op.Bin(a) == op.Bin(b) <==> op.CellOf(a) == op.CellOf(b)
  {
    var c, d := op.CellOf(a), op.CellOf(b);
    DigitsBelow(op.ny, op.nx, c.i, c.j);
    DigitsBelow(op.nz, op.nx * op.ny, c.i * op.ny + c.j, c.k);
    Digits(op.ny, c.i, c.j, d.i, d.j);
    Digits(op.ny, d.i, d.j, c.i, c.j);
    Digits(op.nz, c.i * op.ny + c.j, c.k, d.i * op.ny + d.j, d.k);
    Digits(op.nz, d.i * op.ny + d.j, d.k, c.i * op.ny + c.j, c.k);
  }

  lemma GreaterIsStrict(op: Op3D)
    ensures Strict(op.Op().before)
  {
  }

  // ---------------------------------------------------------------- rows with a payload

  function Pairs<K, V>(keys: seq<K>, values: seq<V>): (r: seq<(K, V)>)
    requires |keys| == |values|
    ensures |r| == |keys|
    ensures forall p: nat :: p < |r| ==> r[p] == (keys[p], values[p])
  {
    seq(|keys|, p requires 0 <= p < |keys| => (keys[p], values[p]))
  }

  /** Two sequences read through the same permutation keep their pairing. */
  lemma PairsStay<K, V>(keys: seq<K>, values: seq<V>, order: seq<nat>, first: nat, keys': seq<K>, values': seq<V>)
    requires ReadThrough(keys, order, first, keys') && ReadThrough(values, order, first, values')
    ensures multiset(Pairs(keys', values')) == multiset(Pairs(keys, values))
  {
    PermutedContents(Pairs(keys, values), order, first, Pairs(keys', values'));
  }

  ghost predicate CellsAscend(op: Op3D, rows: seq<Row>) {
    forall p: nat, q: nat :: p < q < |rows| ==> !CellBefore(op.CellOf(rows[q]), op.CellOf(rows[p]))
  }

  /** Rows of the same cell come in descending order. */
  ghost predicate DescendInCells(op: Op3D, rows: seq<Row>) {
    forall p: nat, q: nat :: p < q < |rows| && op.CellOf(rows[p]) == op.CellOf(rows[q]) ==> !Greater(rows[q], rows[p])
  }

  /** Rows in the order of the cells they lie in. */
  ghost predicate GridAscends(nx: nat, ny: nat, nz: nat, min: Row, max: Row, rows: seq<Row>)
    requires 0 < nx && 0 < ny && 0 < nz
  {
    forall p: nat, q: nat, c: Cell, d: Cell ::
      (p < q < |rows| && InCell(nx, ny, nz, min, max, rows[p], c) && InCell(nx, ny, nz, min, max, rows[q], d)) ==>
        !CellBefore(d, c)
  }

  /** `a` is lexicographically at or after `b`. */
  predicate AtOrAfter(a: Row, b: Row) {
    a.x > b.x || (a.x == b.x && (a.y > b.y || (a.y == b.y && a.z >= b.z)))
  }

  /** Rows that lie in one cell come in descending order of their coordinates. */
  ghost predicate GridDescends(nx: nat, ny: nat, nz: nat, min: Row, max: Row, rows: seq<Row>)
    requires 0 < nx && 0 < ny && 0 < nz
  {
    forall p: nat, q: nat, c: Cell ::
      (p < q < |rows| && InCell(nx, ny, nz, min, max, rows[p], c) && InCell(nx, ny, nz, min, max, rows[q], c)) ==>
        AtOrAfter(rows[p], rows[q])
  }

  ghost predicate AllInside(rows: seq<Row>, min: Row, max: Row) {
    forall p: nat :: p < |rows| ==> Inside(rows[p], min, max)
  }

  lemma CellsAreGrid(nx: nat, ny: nat, nz: nat, min: Row, max: Row, rows: seq<Row>)
    requires 0 < nx && 0 < ny && 0 < nz && min.x < max.x && min.y < max.y && min.z < max.z && AllInside(rows, min, max)
    ensures CellsAscend(MakeOp3D(nx, ny, nz, min, max), rows) ==> GridAscends(nx, ny, nz, min, max, rows)
    ensures DescendInCells(MakeOp3D(nx, ny, nz, min, max), rows) ==> GridDescends(nx, ny, nz, min, max, rows)
  {
    var op := MakeOp3D(nx, ny, nz, min, max);
    hide InCell, Op3D.CellOf, Op3D.Bin, MakeOp3D;
    if CellsAscend(op, rows) {
      forall p: nat, q: nat, c: Cell, d: Cell | p < q < |rows|
        && InCell(nx, ny, nz, min, max, rows[p], c) && InCell(nx, ny, nz, min, max, rows[q], d)
        ensures !CellBefore(d, c)
      {
        assert Inside(rows[p], min, max) && Inside(rows[q], min, max);
        BinOfCell(nx, ny, nz, min, max, rows[p], c);
        BinOfCell(nx, ny, nz, min, max, rows[q], d);
      }
    }
    if DescendInCells(op, rows) {
      forall p: nat, q: nat, c: Cell | p < q < |rows|
        && InCell(nx, ny, nz, min, max, rows[p], c) && InCell(nx, ny, nz, min, max, rows[q], c)
        ensures AtOrAfter(rows[p], rows[q])
      {
        assert Inside(rows[p], min, max) && Inside(rows[q], min, max);
        BinOfCell(nx, ny, nz, min, max, rows[p], c);
        BinOfCell(nx, ny, nz, min, max, rows[q], c);
      }
    }
  }

  lemma StillInside(rows: seq<Row>, order: seq<nat>, first: nat, rows': seq<Row>, min: Row, max: Row)
    requires ReadThrough(rows, order, first, rows') && AllInside(rows, min, max)
    ensures AllInside(rows', min, max)
  {
    hide Inside;
  }

  /** Two rows that differ in z only, each in its cell and bin; sorted, the lower cell comes first. */
  lemma CellExample()
    ensures var op := MakeOp3D(2, 2, 2, Row(0.0, 0.0, 0.0), Row(1.0, 1.0, 1.0));
            op.Bin(Row(0.1, 0.1, 0.9)) == 1 && op.Bin(Row(0.1, 0.1, 0.1)) == 0 && op.Bin(Row(0.9, 0.1, 0.1)) == 4
  {
    var min, max := Row(0.0, 0.0, 0.0), Row(1.0, 1.0, 1.0);
    BinOfCell(2, 2, 2, min, max, Row(0.1, 0.1, 0.9), Cell(0, 0, 1));
    BinOfCell(2, 2, 2, min, max, Row(0.1, 0.1, 0.1), Cell(0, 0, 0));
    BinOfCell(2, 2, 2, min, max, Row(0.9, 0.1, 0.1), Cell(1, 0, 0));
  }

  lemma RowsInOrder(op: Op3D, rows: seq<Row>, order: seq<nat>, first: nat, rows': seq<Row>)
    requires forall i: nat :: i < |rows| ==> InGrid(op, op.CellOf(rows[i]))
    requires InRange(op.Op(), rows) && ReadThrough(rows, order, first, rows')
    requires Grouped(order, BinsOf(op.Op(), rows), first)
    ensures CellsAscend(op, rows')
  {
    var bins := BinsOf(op.Op(), rows);
    forall p: nat, q: nat | p < q < |rows'|
      ensures !CellBefore(op.CellOf(rows'[q]), op.CellOf(rows'[p]))
    {
      BinsAscend(order, bins, first, p, q);
      Bins3D(op, rows'[q], rows'[p]);
    }
  }

  lemma CellsDescend(op: Op3D, keys: seq<Row>, begin: nat, end: nat, order: seq<nat>, rows': seq<Row>)
    requires begin <= end <= |keys| && InRange(op.Op(), keys[begin..end])
    requires ReadThrough(keys[begin..end], order, begin, rows')
    requires Grouped(order, BinsOf(op.Op(), keys[begin..end]), begin)
    requires SlicesSorted(order, BinsOf(op.Op(), keys[begin..end]), ByKey(keys, op.Op().before), Range(op.MaxBins()))
    ensures DescendInCells(op, rows')
  {
    hide Grouped, SlicesSorted, Range, Op3D.CellOf, Op3D.MaxBins;
    var bins := BinsOf(op.Op(), keys[begin..end]);
    forall p: nat, q: nat | p < q < |rows'| && op.CellOf(rows'[p]) == op.CellOf(rows'[q])
      ensures !Greater(rows'[q], rows'[p])
    {
      InBinSorted(order, bins, begin, ByKey(keys, op.Op().before), op.MaxBins(), p, q);
      assert rows'[p] == keys[order[p]] && rows'[q] == keys[order[q]];
    }
  }

  lemma RowsInRange(nx: nat, ny: nat, nz: nat, min: Row, max: Row, rows: seq<Row>)
    requires 0 < nx && 0 < ny && 0 < nz && min.x < max.x && min.y < max.y && min.z < max.z
    requires forall i: nat :: i < |rows| ==> Inside(rows[i], min, max)
    ensures var op := MakeOp3D(nx, ny, nz, min, max);
            InRange(op.Op(), rows) && forall i: nat :: i < |rows| ==> InGrid(op, op.CellOf(rows[i]))
  {
    var op := MakeOp3D(nx, ny, nz, min, max);
    forall i: nat | i < |rows|
      ensures InGrid(op, op.CellOf(rows[i])) && 0 <= op.Bin(rows[i]) < op.MaxBins()
    {
      CellInGrid(nx, ny, nz, min, max, rows[i]);
      Bins3D(op, rows[i], rows[i]);
    }
  }

  /**
   Binning rows and sorting them and a payload over the same range, for every interleaving: rows come in
   lexicographic order of their cells (and descend inside a cell when sorted within bins), every row
   keeps its payload, and nothing outside the range changes.
   */
  method SortRows<V(0)>(keys: array<Row>, payload: array<V>, begin: nat, end: nat, nx: nat, ny: nat, nz: nat,
                        min: Row, max: Row, within: bool, w: Schedules)
    requires begin <= end <= keys.Length && end <= payload.Length && keys as object != payload
    requires 0 < nx && 0 < ny && 0 < nz && min.x < max.x && min.y < max.y && min.z < max.z
    requires forall i: nat :: begin <= i < end ==> Inside(keys[i], min, max)
    requires Complete(w, end - begin, nx * ny * nz)
    modifies keys, payload
    ensures GridAscends(nx, ny, nz, min, max, keys[begin..end])
    ensures within ==> GridDescends(nx, ny, nz, min, max, keys[begin..end])
    ensures multiset(Pairs(keys[begin..end], payload[begin..end])) ==
            multiset(Pairs(old(keys[begin..end]), old(payload[begin..end])))
    ensures forall p: nat :: p < keys.Length && !(begin <= p < end) ==> keys[p] == old(keys[p])
    ensures forall p: nat :: p < payload.Length && !(begin <= p < end) ==> payload[p] == old(payload[p])
  {
    hide Permutation, Grouped, SlicesSorted, Strict, Complete, InRange, BinsOf, ByKey, ReadThrough, Inside, InGrid,
         CellsAscend, DescendInCells, GridAscends, GridDescends, Pairs, Op3D.CellOf, Op3D.Bin, Slope, Greater;
    var op := MakeOp3D(nx, ny, nz, min, max);
    ghost var rows, values := keys[..], payload[..];
    RowsInRange(nx, ny, nz, min, max, rows[begin..end]);
    GreaterIsStrict(op);
    var sorter := new Sorter(keys, begin, end, op.Op(), within);
    sorter.CreatePermuteVector(w);
    ghost var order := sorter.sortOrder[..];
    assert keys[..] == rows && payload[..] == values;
    var okKeys := sorter.Sort(keys, begin, end);
    ReadsThrough(rows, keys[..], order, begin, end, begin);
    var okValues := sorter.Sort(payload, begin, end);
    ReadsThrough(values, payload[..], order, begin, end, begin);
    RowsInOrder(op, rows[begin..end], order, begin, keys[begin..end]);
    if within {
      CellsDescend(op, rows, begin, end, order, keys[begin..end]);
    }
    StillInside(rows[begin..end], order, begin, keys[begin..end], min, max);
    CellsAreGrid(nx, ny, nz, min, max, keys[begin..end]);
    PairsStay(rows[begin..end], values[begin..end], order, begin, keys[begin..end], payload[begin..end]);
  }
}
