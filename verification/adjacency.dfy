/** The adjacency check the tests apply to a solved board (board_test.go):
    no two stars may touch, diagonals included. The check scans from every
    star only the five neighbours above, below, to the left and on the two
    left diagonals; the lemmas below show that this half-neighbourhood scan
    still finds every touching pair. */
module Adjacency {
  import opened Squares
  import opened Boards

  /** The cell (row, col) is on the board and holds a star. */
  predicate StarAt(b: Board, row: int, col: int)
    requires HasGrid(b)
  {
    var i := Index(b, row, col);
    i.Ok() && b.squares[i.value] == Star
  }

  /** Two different cells that share a side or a corner. */
  predicate Touching(r1: int, c1: int, r2: int, c2: int) {
    && -1 <= r1 - r2 <= 1
    && -1 <= c1 - c2 <= 1
    && (r1 != r2 || c1 != c2)
  }

  /** The 8-neighbourhood rule: no two stars touch. */
  ghost predicate NoAdjacentStars(b: Board)
    requires HasGrid(b)
  {
    forall r1, c1, r2, c2 :: StarAt(b, r1, c1) && StarAt(b, r2, c2) ==> !Touching(r1, c1, r2, c2)
  }

  /** The offsets the scan visits: rows -1 .. 1, columns -1 .. 0, never the
      cell itself. */
  predicate Scanned(dr: int, dc: int) {
    -1 <= dr <= 1 && -1 <= dc < 1 && !(dr == 0 && dc == 0)
  }

  predicate StarAtOffset(b: Board, row: int, col: int, dr: int, dc: int)
    requires HasGrid(b)
  {
    StarAt(b, row + dr, col + dc)
  }

  /** Some scanned, on-board neighbour of (row, col) holds a star. */
  ghost predicate ScanHits(b: Board, row: int, col: int)
    requires HasGrid(b)
  {
    exists dr, dc :: Scanned(dr, dc) && StarAtOffset(b, row, col, dr, dc)
  }

  /** Position `i` of the grid holds a star. */
  predicate StarCell(b: Board, i: int) {
    0 <= i < |b.squares| && b.squares[i] == Star
  }

  /** No star's scan finds a star, each position decoded to its row and
      column by quotient and remainder. */
  ghost predicate NoScanHits(b: Board)
    requires HasGrid(b)
  {
    forall i :: StarCell(b, i) ==> b.size > 0 && !ScanHits(b, i / b.size, i % b.size)
  }

  /** Looks for a star among the scanned neighbours of (row, col); a
      neighbour off the board is skipped. */
  method AnyAdjacentStars(b: Board, row: int, col: int) returns (found: bool)
    requires HasGrid(b)
    ensures found <==> ScanHits(b, row, col)
  {
    var r := -1;
    while r <= 1
      invariant -1 <= r <= 2
      invariant forall dr, dc :: -1 <= dr < r && Scanned(dr, dc) ==> !StarAtOffset(b, row, col, dr, dc)
    {
      var c := -1;
      while c < 1
        invariant -1 <= c <= 1
        invariant forall dr, dc :: -1 <= dr < r && Scanned(dr, dc) ==> !StarAtOffset(b, row, col, dr, dc)
        invariant forall dc :: -1 <= dc < c && Scanned(r, dc) ==> !StarAtOffset(b, row, col, r, dc)
      {
        if r == 0 && c == 0 {
          c := c + 1;
          continue;
        }
        var index := Index(b, row + r, col + c);
        if !index.Ok() {
          c := c + 1;
          continue;
        }
        if b.squares[index.value] == Star {
          assert StarAtOffset(b, row, col, r, c);
          return true;
        }
        c := c + 1;
      }
      r := r + 1;
    }
    return false;
  }

  /** True when no star's scan finds another star. */
  method EnsureNoAdjacentStars(b: Board) returns (ok: bool)
    requires HasGrid(b)
    ensures ok <==> NoScanHits(b)
    ensures ok <==> NoAdjacentStars(b)
  {
    HalfScanFindsEveryPair(b);
    var index := 0;
    while index < |b.squares|
      invariant 0 <= index <= |b.squares|
      invariant forall i :: StarCell(b, i) && i < index ==>
                  b.size > 0 && !ScanHits(b, i / b.size, i % b.size)
    {
      if b.squares[index] == Star {
        assert StarCell(b, index);
        IndexDecodes(b, index);
        var hit := AnyAdjacentStars(b, index / b.size, index % b.size);
        if hit {
          return false;
        }
      }
      index := index + 1;
    }
    return true;
  }

  /** The scan from every star detects a touching pair exactly when one
      exists: of two touching stars in different columns the one further
      right sees the other, and of two in one column each sees the other. */
  lemma HalfScanFindsEveryPair(b: Board)
    requires HasGrid(b)
    ensures NoScanHits(b) <==> NoAdjacentStars(b)
  {
    if NoScanHits(b) {
      forall r1, c1, r2, c2 | StarAt(b, r1, c1) && StarAt(b, r2, c2)
        ensures !Touching(r1, c1, r2, c2)
      {
        if Touching(r1, c1, r2, c2) {
          if c1 >= c2 {
            SeenFrom(b, r1, c1, r2, c2);
          } else {
            SeenFrom(b, r2, c2, r1, c1);
          }
        }
      }
    }
    if NoAdjacentStars(b) {
      forall i | StarCell(b, i)
        ensures b.size > 0 && !ScanHits(b, i / b.size, i % b.size)
      {
        IndexDecodes(b, i);
        var row, col := i / b.size, i % b.size;
        assert StarAt(b, row, col);
      }
    }
  }

  /** A star touching a star at (row, col) from a column no further right is
      found by the scan from (row, col). */
  lemma SeenFrom(b: Board, row: int, col: int, r: int, c: int)
    requires HasGrid(b)
    requires StarAt(b, row, col) && StarAt(b, r, c)
    requires Touching(row, col, r, c) && c <= col
    ensures !NoScanHits(b)
  {
    var i := Index(b, row, col).value;
    IndexDecodes(b, i);
    IndexInjective(b, i / b.size, i % b.size, row, col);
    assert Scanned(r - row, c - col) && StarAtOffset(b, row, col, r - row, c - col);
    assert StarCell(b, i) && ScanHits(b, i / b.size, i % b.size);
  }

  /** The scan never reads the cell it starts from: rewriting that cell does
      not change its outcome. */
  lemma ScanIgnoresCentre(b: Board, row: int, col: int, v: Square)
    requires HasGrid(b)
    ensures ScanHits(SetValue(b, row, col, v).value, row, col) <==> ScanHits(b, row, col)
  {
    var b' := SetValue(b, row, col, v).value;
    forall dr, dc | Scanned(dr, dc)
      ensures StarAtOffset(b', row, col, dr, dc) <==> StarAtOffset(b, row, col, dr, dc)
    {
      ValueAfterSetValue(b, row, col, v, row + dr, col + dc);
    }
    if ScanHits(b, row, col) {
      var dr, dc :| Scanned(dr, dc) && StarAtOffset(b, row, col, dr, dc);
      assert StarAtOffset(b', row, col, dr, dc);
    }
    if ScanHits(b', row, col) {
      var dr, dc :| Scanned(dr, dc) && StarAtOffset(b', row, col, dr, dc);
      assert StarAtOffset(b, row, col, dr, dc);
    }
  }

  /** In the first column the left-hand offsets fall off the board and are
      skipped; they do not wrap round to the end of the previous row. */
  lemma FirstColumnDoesNotWrap(b: Board, row: int)
    requires HasGrid(b)
    ensures ScanHits(b, row, 0) <==> StarAt(b, row - 1, 0) || StarAt(b, row + 1, 0)
  {
    if StarAt(b, row - 1, 0) {
      assert StarAtOffset(b, row, 0, -1, 0);
    }
    if StarAt(b, row + 1, 0) {
      assert StarAtOffset(b, row, 0, 1, 0);
    }
  }
}
