# Star Battle board layer in Dafny

A functional model of the data layer under a Star Battle puzzle solver: the
N×N grid of tri-state cells (unknown, star, not a star), the per-region
membership lists, loading a puzzle from its text, and the adjacency check the
test suite applies to a solved board. The solver itself is not part of this
model.

Modules, one per concern of the program:

- `Squares` (square.go): the cell state, an integer type with the named
  values `Unknown = 0`, `Star = 1`, `NotStar = 2`, and its one-character glyph.
- `Boards` (board.go): the `Board` value, row-major addressing, reading and
  writing a cell, and region lookup and assignment. The program returns
  `(value, error)` pairs; `Checked` models such a pair, with `-1` as the value
  beside an error, as in the program. The program mutates slice storage that
  is shared between copies of a board; here `SetValue` and `SetRegion`
  return the updated board instead.
- `Text`: the three string operations the loader uses. `Cut` splits at the
  first separator, `Split` at every separator, and `TrimSpace` strips white
  space.
- `Parsing` (board.go, `Parse`): the star-count prefix, the region tokens, the
  board side as the integer square root of the token count, and the
  assignment of each token's position to its region.
- `Adjacency` (board_test.go): `anyAdjacentStars` and `ensureNoAdjacentStars`.
  It also proves that scanning only half of each star's neighbourhood still
  finds every pair of touching stars.
- `Options`: the optional value returned by integer conversion.

## Model

| member | source | states |
|---|---|---|
| `Squares.Glyph` | square.go:11-22 | every state draws as one character; `*` exactly for a star, `x` exactly for a not-star, and a blank for unknown and for every value outside the three constants |
| `Squares.GlyphsDistinguishNamedSquares` | square.go:5-22 | among the three named states, two states have the same glyph only if they are the same state |
| `Boards.NewBoard` | board.go:20-29 | a new board has the given size and stars, size² cells all `Unknown` (the zero value) and size region lists all empty |
| `Boards.NewBoardIsBlank` | board.go:20-29 | on a new board every in-bounds cell reads `Unknown` and has no region (RegionNotFound) |
| `Boards.Index` | board.go:128-138 | succeeds exactly when `0 <= row, col < size`, and then gives `size*row+col`, which lies in `[0, size²)`; otherwise gives -1 with an OutOfBounds error naming the coordinates |
| `Boards.IndexInjective` | board.go:137 | distinct in-bounds cells have distinct positions |
| `Boards.IndexDecodes` | board.go:137 | a position `i` in `[0, size²)` decodes by quotient and remainder to the cell whose position is `i` |
| `Boards.Value` | board.go:140-148 | in bounds gives the cell stored at the cell's position; out of bounds gives -1 with the index error |
| `Boards.SetValue` | board.go:150-159 | in bounds stores the value at the cell's position and leaves every other cell, the size, the stars and the regions alone; out of bounds returns the index error and the board unchanged |
| `Boards.ValueAfterSetValue` | board.go:150-159 | after a write, the written cell reads back the new value and every other coordinate reads as before |
| `Boards.FirstContaining` | board.go:169-173 | returns the first list from a start position on that contains the value, or -1 exactly when none does |
| `Boards.Region` | board.go:161-176 | out of bounds gives -1 with OutOfBounds; otherwise the lowest region whose list holds the cell's position, or -1 with RegionNotFound exactly when no list holds it |
| `Boards.SetRegion` | board.go:178-185 | the region's list becomes the old list with the position appended, whether it was empty (nil) before or not; other regions, cells, size and stars are unchanged |
| `Text.Cut` | board.go:42 | found exactly when the separator occurs; then the text is `before`, separator, `after` with no separator in `before`; otherwise `before` is the whole text |
| `Text.CutAtFirstSeparator` | board.go:42 | a separator-free prefix followed by the separator is where the cut happens |
| `Text.Split` | board.go:55 | at least one piece, no piece contains the separator, and joining the pieces with the separator gives back the text |
| `Text.SplitJoin` | board.go:55 | splitting a join of separator-free pieces gives back the pieces |
| `Text.TrimLeft` | board.go:64 | removes only white space from the front and leaves text that does not start with white space |
| `Text.TrimRight` | board.go:64 | removes only white space from the back and leaves text that does not end with white space |
| `Text.TrimSpace` | board.go:64 | the result is a contiguous slice of the text with only white space cut from either side, neither starting nor ending with white space |
| `Parsing.SqrtFrom` | board.go:57-59 | searching upward from a lower bound finds the integer square root |
| `Parsing.FloorSqrt` | board.go:57-59 | the board side is the largest integer whose square does not exceed the token count |
| `Parsing.Body` | board.go:41-53 | without a `*` the region text is the whole text; with one it is what follows the first `*` |
| `Parsing.Values` | board.go:55-64 | one value per comma-separated piece of the region text, so there is always at least one value (splitting never yields an empty list), and the board side derived from the count is at least 1 |
| `Parsing.ClaimedMembers` | board.go:63-69 | a position is in the list claimed for value `v` exactly when it is in range and its token reads `v` |
| `Parsing.ClaimedAscending` | board.go:63-69 | positions are appended in increasing order, so no list repeats a position |
| `Parsing.TakeStep` | board.go:63-69 | appending a position to the region its token names moves it from that region's pending claim into its list, and leaves every other region's list plus claim unchanged |
| `Parsing.SkipStep` | board.go:63-69 | an unparsable token at a position is claimed by no region: every region's pending claim is the same with or without that position |
| `Parsing.AssignRegions` | board.go:63-69 | the load completes exactly when every parsed token names one of the regions; then each region's list is its old list followed by the positions whose token reads its number plus one, and unparsable tokens are skipped; otherwise it stops at a position whose token names no region, with every earlier token in range |
| `Parsing.Parse` | board.go:31-72 | fails on the star prefix exactly when there is a `*` and the text before it is not an integer; stars are 1 without `*` and that integer otherwise; the side is the floor square root of the token count; all cells `Unknown`; region `r` holds the positions whose token reads `r+1`, in order |
| `Parsing.ClaimedMembership` | board.go:63-69 | in a board built this way, a position is in region `r` exactly when its token reads `r+1` |
| `Parsing.AssignedOnce` | board.go:63-69 | no position is in two regions and no region list repeats a position |
| `Parsing.ClaimedPartition` | board.go:63-69 | with one in-range token per cell, every cell position is in some region and every listed position is a cell |
| `Parsing.ClaimedRegionLookup` | board.go:161-176 | the region lookup of a cell returns its token's value minus one, or RegionNotFound when its token did not parse |
| `Parsing.ParsedRegionLookup` | board.go:63-69 | on a loaded board, every in-bounds cell has a token, and its region is that token's value minus one, or RegionNotFound when the token did not parse |
| `Parsing.ParsedRegionsPartition` | board.go:63-69 | on a loaded board with size² parsable tokens the region lists partition the positions `0 .. size²-1`, each position in exactly one region |
| `Adjacency.AnyAdjacentStars` | board_test.go:288-312 | true exactly when a star sits at some on-board offset among rows -1..1 and columns -1..0, excluding the cell itself |
| `Adjacency.EnsureNoAdjacentStars` | board_test.go:273-286 | false exactly when some star, decoded by quotient and remainder, has a star in its scanned neighbours; and true exactly when no two distinct stars touch, diagonals included |
| `Adjacency.HalfScanFindsEveryPair` | board_test.go:273-312 | the half-neighbourhood scan from every star finds a touching pair exactly when one exists |
| `Adjacency.SeenFrom` | board_test.go:291-292 | a star touching another from a column no further right is found by the scan from the other |
| `Adjacency.ScanIgnoresCentre` | board_test.go:294-296 | rewriting the scanned cell itself never changes the scan's outcome |
| `Adjacency.FirstColumnDoesNotWrap` | board_test.go:298-303 | in the first column only the cells directly above and below count; left offsets are off the board and do not wrap to the previous row |

## Left out

- Reading the file and stopping the process (board.go:31-37, 49): `Parse`
  takes the file's text. A failed read is not modelled. A bad star count and
  a region number naming no region appear as `BadStarSpec` and
  `RegionOutOfRange`, standing for the fatal log and the index panic.
- Printing unparsable tokens (board.go:67): output only; the token is skipped.
- Integer conversion (`strconv.Atoi`): a parameter `atoi` from text to an
  optional integer. Its exact syntax and 64-bit range are not modelled.
- Text as bytes: the text is a sequence of Unicode scalar values, not UTF-8
  bytes. White space follows the Unicode White_Space property, as Go's
  `unicode.IsSpace` does.
- Floating-point square root (board.go:57-59): modelled as the integer floor
  square root. The two agree for every token count below 2^52.
- Machine integers: positions and counts are unbounded integers. The
  program's 64-bit arithmetic can wrap in two places: `region-1` at
  board.go:65 when the token reads the least 64-bit integer, and
  `row+r`, `column+c` at board_test.go:298 when a coordinate is at either
  64-bit extreme. In both places the wrapped value is still out of range,
  so the program ends as the model does: the index panic at board.go:179
  (`RegionOutOfRange`) and the skipped neighbour (`Index` fails).
- Boards.NewBoard: requires a non-negative size, so Go's panic on a
  negative size in `make` (board.go:26) is not modelled. `Parse` never
  builds a board of negative size.
- Shared storage: the program's value receivers share slice storage, so a
  "copy" of a board sees later writes. The model's boards are values.
- Terminal rendering (`Board.String`, `sectionColor`, board.go:74-126):
  presentation only.
- main.go and benchmark_test.go: command-line flags, timing, and the
  goroutine fan-out of the parallel solver.
- The solver and validity check (`Solve`, `SolveParallel`, `isValid`,
  `hasEnoughStars`): they are not part of this model. Their definitions are
  not among the files modelled here.
- The parse and solver tests (board_test.go:8-257): they run on puzzle files
  that are not part of this model.
