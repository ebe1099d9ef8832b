/** The puzzle state (board.go): an N×N grid of cells stored row-major, the
    stars required per line, and one membership list per region. The source
    mutates shared slice storage through value receivers; here every update
    returns the new board. */
module Boards {
  import opened Options
  import opened Squares

  datatype BoardError =
    | OutOfBounds(row: int, col: int)
    | RegionNotFound(row: int, col: int)

  /** The source's `(value, error)` return pair. When `err` is present,
      `value` is the placeholder the source returns beside the error. */
  datatype Checked<T> = Checked(value: T, err: Option<BoardError>) {
    predicate Ok() {
      err.None?
    }
  }

  datatype Board = Board(size: int, stars: int, squares: seq<Square>, regions: seq<seq<int>>)

  predicate InBounds(size: int, row: int, col: int) {
    0 <= row < size && 0 <= col < size
  }

  /** The grid holds exactly one cell per coordinate pair. */
  predicate HasGrid(b: Board) {
    0 <= b.size && |b.squares| == b.size * b.size
  }

  /** Multiplying by a non-negative factor preserves order. */
  lemma MulMonotone(n: int, a: int, b: int)
    requires 0 <= n && a <= b
    ensures n * a <= n * b
  {
    var d := b - a;
    assert n * b == n * a + n * d;
  }

  lemma RowMajorInRange(size: int, row: int, col: int)
    requires InBounds(size, row, col)
    ensures 0 <= size * row + col < size * size
  {
    MulMonotone(size, 0, row);
    MulMonotone(size, row, size - 1);
    assert size * (size - 1) == size * size - size;
  }

  /** A board of the given dimensions with every cell `Unknown` and every
      region list empty. A negative size is refused by the source's
      allocation of the region lists. */
  function NewBoard(size: int, stars: int): (b: Board)
    requires 0 <= size
    ensures b.size == size && b.stars == stars
    ensures HasGrid(b) && |b.regions| == size
    ensures forall k :: 0 <= k < |b.squares| ==> b.squares[k] == Unknown
    ensures forall k :: 0 <= k < |b.regions| ==> b.regions[k] == []
  {
    Board(size, stars, seq(size * size, _ => Unknown), seq(size, _ => []))
  }

  /** Row-major position of a cell, or an out-of-bounds error with -1. */
  function Index(b: Board, row: int, col: int): (r: Checked<int>)
    ensures r.Ok() <==> InBounds(b.size, row, col)
    ensures r.Ok() ==> 0 <= r.value < b.size * b.size && r.value == b.size * row + col
    ensures !r.Ok() ==> r == Checked(-1, Some(OutOfBounds(row, col)))
  {
    if row < 0 || col < 0 || row >= b.size || col >= b.size then
      Checked(-1, Some(OutOfBounds(row, col)))
    else
      RowMajorInRange(b.size, row, col);
      Checked(b.size * row + col, None)
  }

  /** Two distinct on-board cells never share a position. */
  lemma IndexInjective(b: Board, r1: int, c1: int, r2: int, c2: int)
    requires Index(b, r1, c1).Ok() && Index(b, r2, c2).Ok()
    requires Index(b, r1, c1).value == Index(b, r2, c2).value
    ensures r1 == r2 && c1 == c2
  {
    var n := b.size;
    assert n * r1 + c1 == n * r2 + c2;
    if r1 < r2 {
      assert n * (r1 + 1) == n * r1 + n;
      MulMonotone(n, r1 + 1, r2);
    } else if r2 < r1 {
      assert n * (r2 + 1) == n * r2 + n;
      MulMonotone(n, r2 + 1, r1);
    }
  }

  /** Every position of the grid decodes, by quotient and remainder, to the
      cell whose index it is. */
  lemma IndexDecodes(b: Board, i: int)
    requires 0 <= b.size && 0 <= i < b.size * b.size
    ensures b.size > 0
    ensures Index(b, i / b.size, i % b.size) == Checked(i, None)
  {
    var n := b.size;
    assert n != 0;
    var q, m := i / n, i % n;
    assert i == n * q + m;
    assert 0 <= m < n;
    if q >= n {
      MulMonotone(n, n, q);
    }
    assert 0 <= q < n;
  }

  /** The cell's state, or an out-of-bounds error with -1. */
  function Value(b: Board, row: int, col: int): (r: Checked<Square>)
    requires HasGrid(b)
    ensures r.err == Index(b, row, col).err
    ensures r.Ok() ==> r.value == b.squares[b.size * row + col]
    ensures !r.Ok() ==> r.value == -1
  {
    var i := Index(b, row, col);
    if !i.Ok() then Checked(-1, i.err) else Checked(b.squares[i.value], None)
  }

  /** Stores `v` in one cell. Out of bounds the board comes back unchanged
      with the error. */
  function SetValue(b: Board, row: int, col: int, v: Square): (r: Checked<Board>)
    requires HasGrid(b)
    ensures r.err == Index(b, row, col).err
    ensures !r.Ok() ==> r.value == b
    ensures r.value.size == b.size && r.value.stars == b.stars && r.value.regions == b.regions
    ensures HasGrid(r.value)
    ensures r.Ok() ==> r.value.squares[b.size * row + col] == v
    ensures forall k :: 0 <= k < |b.squares| && k != b.size * row + col ==>
              r.value.squares[k] == b.squares[k]
  {
    var i := Index(b, row, col);
    if !i.Ok() then Checked(b, i.err)
    else Checked(b.(squares := b.squares[i.value := v]), None)
  }

  /** After a write, the written cell reads back the new state and every other
      cell reads as before. */
  lemma {:induction false} ValueAfterSetValue(b: Board, row: int, col: int, v: Square, row': int, col': int)
    requires HasGrid(b)
    ensures Value(SetValue(b, row, col, v).value, row', col') ==
              if InBounds(b.size, row, col) && row' == row && col' == col then Checked(v, None)
              else Value(b, row', col')
  {
    var b' := SetValue(b, row, col, v).value;
    if InBounds(b.size, row, col) && InBounds(b.size, row', col') && (row', col') != (row, col) {
      if Index(b, row', col').value == Index(b, row, col).value {
        IndexInjective(b, row', col', row, col);
      }
    }
  }

  /** A new board reads `Unknown` at every cell and finds no region for any. */
  lemma NewBoardIsBlank(size: int, stars: int, row: int, col: int)
    requires 0 <= size && InBounds(size, row, col)
    ensures Value(NewBoard(size, stars), row, col) == Checked(Unknown, None)
    ensures Region(NewBoard(size, stars), row, col) == Checked(-1, Some(RegionNotFound(row, col)))
  {
  }

  /** The first list, from position `from` on, that contains `x`, or -1. */
  function FirstContaining(lists: seq<seq<int>>, x: int, from: nat): (k: int)
    requires from <= |lists|
    ensures k == -1 || from <= k < |lists|
    ensures k == -1 <==> forall j :: from <= j < |lists| ==> x !in lists[j]
    ensures k != -1 ==> x in lists[k] && forall j :: from <= j < k ==> x !in lists[j]
    decreases |lists| - from
  {
    if from == |lists| then -1
    else if x in lists[from] then from
    else FirstContaining(lists, x, from + 1)
  }

  /** The region a cell belongs to: the lowest-numbered region whose list
      holds the cell's position. Out of bounds, or when no list holds it,
      the result is -1 with an error. */
  function Region(b: Board, row: int, col: int): (r: Checked<int>)
    ensures r.Ok() ==> InBounds(b.size, row, col)
    ensures !InBounds(b.size, row, col) ==> r == Checked(-1, Some(OutOfBounds(row, col)))
    ensures r.Ok() ==>
              && 0 <= r.value < |b.regions|
              && b.size * row + col in b.regions[r.value]
              && forall k :: 0 <= k < r.value ==> b.size * row + col !in b.regions[k]
    ensures InBounds(b.size, row, col) && !r.Ok() ==>
              && r == Checked(-1, Some(RegionNotFound(row, col)))
              && forall k :: 0 <= k < |b.regions| ==> b.size * row + col !in b.regions[k]
  {
    var i := Index(b, row, col);
    if !i.Ok() then Checked(-1, i.err)
    else
      var k := FirstContaining(b.regions, i.value, 0);
      if k == -1 then Checked(-1, Some(RegionNotFound(row, col))) else Checked(k, None)
  }

  /** Appends a position to one region's list; an empty list (the source's
      nil slice) and a non-empty one end the same way. */
  function SetRegion(b: Board, index: int, region: int): (r: Board)
    requires 0 <= region < |b.regions|
    ensures r.size == b.size && r.stars == b.stars && r.squares == b.squares
    ensures r.regions == b.regions[region := b.regions[region] + [index]]
    ensures |r.regions| == |b.regions|
    ensures r.regions[region] == b.regions[region] + [index]
    ensures forall k :: 0 <= k < |b.regions| && k != region ==> r.regions[k] == b.regions[k]
  {
    if b.regions[region] == [] then
      assert b.regions[region] + [index] == [index];
      b.(regions := b.regions[region := [index]])
    else
      b.(regions := b.regions[region := b.regions[region] + [index]])
  }
}
