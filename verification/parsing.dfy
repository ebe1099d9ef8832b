/** The pure part of loading a puzzle (board.go, `Parse`): an optional
    `K*` prefix gives the stars per line, the rest is a comma-separated list
    of 1-based region numbers in row-major order, and the board side is the
    integer square root of the number of tokens. Reading the file is not part
    of this model; the integer conversion is the parameter `atoi`. */
module Parsing {
  import opened Options
  import opened Squares
  import opened Boards
  import opened Text

  /** How a load ends: with a board, or with the process stopping because
      the text before `*` is not an integer, or because a region number names
      no region. */
  datatype Parsed =
    | Loaded(board: Board)
    | BadStarSpec(spec: string)
    | RegionOutOfRange(position: nat, region: int)

  function SqrtFrom(n: nat, r: nat): (s: nat)
    requires r * r <= n
    ensures r <= s
    ensures s * s <= n < (s + 1) * (s + 1)
    decreases n - r * r
  {
    if n < (r + 1) * (r + 1) then r else SqrtFrom(n, r + 1)
  }

  /** The largest side whose square does not exceed `n`. */
  function FloorSqrt(n: nat): (r: nat)
    ensures r * r <= n < (r + 1) * (r + 1)
  {
    SqrtFrom(n, 0)
  }

  /** The text after the first `*`, or all of it when there is none. */
  function Body(data: string): (body: string)
    ensures '*' !in data ==> body == data
    ensures '*' in data ==> data == Cut(data, '*').before + "*" + body
  {
    var c := Cut(data, '*');
    if c.found then c.after else data
  }

  /** The region number read from each comma-separated token, white space
      trimmed; `None` where the token is not an integer. */
  function Values(data: string, atoi: string -> Option<int>): (v: seq<Option<int>>)
    ensures |v| == |Split(Body(data), ',')| && 1 <= |v|
    ensures 1 <= FloorSqrt(|v|)
  {
    var tokens := Split(Body(data), ',');
    seq(|tokens|, j requires 0 <= j < |tokens| => atoi(TrimSpace(tokens[j])))
  }

  /** The positions, from `from` on and in increasing order, whose value is
      `v`: the list a region ends up with. */
  ghost function Claimed(vals: seq<Option<int>>, v: int, from: nat): seq<int>
    decreases |vals| - from
  {
    if from >= |vals| then []
    else (if vals[from] == Some(v) then [from] else []) + Claimed(vals, v, from + 1)
  }

  lemma {:induction false} ClaimedMembers(vals: seq<Option<int>>, v: int, from: nat, j: int)
    ensures j in Claimed(vals, v, from) <==> from <= j < |vals| && vals[j] == Some(v)
    decreases |vals| - from
  {
    if from < |vals| {
      ClaimedMembers(vals, v, from + 1, j);
    }
  }

  lemma {:induction false} ClaimedAscending(vals: seq<Option<int>>, v: int, from: nat)
    ensures forall a, b :: 0 <= a < b < |Claimed(vals, v, from)| ==>
              from <= Claimed(vals, v, from)[a] < Claimed(vals, v, from)[b]
    decreases |vals| - from
  {
    if from < |vals| {
      var c := Claimed(vals, v, from);
      var rest := Claimed(vals, v, from + 1);
      var head := if vals[from] == Some(v) then [from] else [];
      assert c == head + rest;
      ClaimedAscending(vals, v, from + 1);
      forall k | 0 <= k < |rest| ensures from < rest[k] {
        ClaimedMembers(vals, v, from + 1, rest[k]);
      }
      forall a, b | 0 <= a < b < |c| ensures from <= c[a] < c[b] {
        if head == [] {
          assert c[a] == rest[a] && c[b] == rest[b];
        } else if a == 0 {
          assert c[b] == rest[b - 1];
        } else {
          assert c[a] == rest[a - 1] && c[b] == rest[b - 1];
        }
      }
    } else {
      assert Claimed(vals, v, from) == [];
    }
  }

  /** A position whose value is not `v` adds nothing to the claim for `v`. */
  lemma ClaimSkip(vals: seq<Option<int>>, from: nat, v: int)
    requires from < |vals| && vals[from] != Some(v)
    ensures Claimed(vals, v, from) == Claimed(vals, v, from + 1)
  {
    assert Claimed(vals, v, from) == [] + Claimed(vals, v, from + 1);
  }

  /** An unparsable token at position `from` is claimed by no region: the
      pending claim of every region number `v` is the same with or without
      that position. */
  lemma SkipStep(count: int, vals: seq<Option<int>>, from: nat)
    requires from < |vals|
    requires vals[from].None?
    ensures forall v :: 1 <= v <= count ==> Claimed(vals, v, from + 1) == Claimed(vals, v, from)
  {
    forall v | 1 <= v <= count
      ensures Claimed(vals, v, from + 1) == Claimed(vals, v, from)
    {
      ClaimSkip(vals, from, v);
    }
  }

  /** Appending position `from` to a list moves it out of that list's
      pending claim. */
  lemma ClaimTake(list: seq<int>, vals: seq<Option<int>>, from: nat, v: int)
    requires from < |vals| && vals[from] == Some(v)
    ensures list + [from] + Claimed(vals, v, from + 1) == list + Claimed(vals, v, from)
  {
    var rest := Claimed(vals, v, from + 1);
    assert Claimed(vals, v, from) == [from] + rest;
    assert list + [from] + rest == list + ([from] + rest);
  }

  /** Appending position `from` to list `v - 1` moves that position from
      the list's pending claim into the list; other lists are unaffected. */
  lemma TakeAt(lists: seq<seq<int>>, vals: seq<Option<int>>, from: nat, v: int, r: int)
    requires from < |vals| && vals[from] == Some(v) && 0 <= v - 1 < |lists|
    requires 0 <= r < |lists|
    ensures lists[v - 1 := lists[v - 1] + [from]][r] + Claimed(vals, r + 1, from + 1)
              == lists[r] + Claimed(vals, r + 1, from)
  {
    if r == v - 1 {
      ClaimTake(lists[r], vals, from, v);
    } else {
      ClaimSkip(vals, from, r + 1);
    }
  }

  lemma TakeStep(lists: seq<seq<int>>, vals: seq<Option<int>>, from: nat, v: int)
    requires from < |vals| && vals[from] == Some(v) && 0 <= v - 1 < |lists|
    ensures forall r :: 0 <= r < |lists| ==>
              lists[v - 1 := lists[v - 1] + [from]][r] + Claimed(vals, r + 1, from + 1)
                == lists[r] + Claimed(vals, r + 1, from)
  {
    forall r | 0 <= r < |lists|
      ensures lists[v - 1 := lists[v - 1] + [from]][r] + Claimed(vals, r + 1, from + 1)
                == lists[r] + Claimed(vals, r + 1, from)
    {
      TakeAt(lists, vals, from, v, r);
    }
  }

  /** Every parsed value from `from` on names one of `count` regions. */
  predicate RegionsInRange(vals: seq<Option<int>>, count: int, from: nat) {
    forall j :: from <= j < |vals| && vals[j].Some? ==> 1 <= vals[j].value <= count
  }

  lemma InRangeStep(vals: seq<Option<int>>, count: int, from: nat)
    requires from < |vals|
    ensures RegionsInRange(vals, count, from) <==>
              && (vals[from].Some? ==> 1 <= vals[from].value <= count)
              && RegionsInRange(vals, count, from + 1)
  {
  }

  /** Walks the values in position order: a value `v` appends the position to
      region `v - 1`, a missing value leaves the position without a region,
      and a value naming no region stops the load at that position. */
  function AssignRegions(b: Board, vals: seq<Option<int>>, from: nat): (p: Parsed)
    requires from <= |vals|
    ensures !p.BadStarSpec?
    ensures p.Loaded? <==> RegionsInRange(vals, |b.regions|, from)
    ensures p.Loaded? ==>
              && p.board.size == b.size && p.board.stars == b.stars && p.board.squares == b.squares
              && |p.board.regions| == |b.regions|
              && forall r :: 0 <= r < |b.regions| ==>
                   p.board.regions[r] == b.regions[r] + Claimed(vals, r + 1, from)
    ensures p.RegionOutOfRange? ==>
              && from <= p.position < |vals|
              && vals[p.position] == Some(p.region + 1)
              && !(0 <= p.region < |b.regions|)
              && forall j :: from <= j < p.position && vals[j].Some? ==> 1 <= vals[j].value <= |b.regions|
    decreases |vals| - from
  {
    if from == |vals| then Loaded(b)
    else
      InRangeStep(vals, |b.regions|, from);
      match vals[from]
      case None =>
        SkipStep(|b.regions|, vals, from);
        AssignRegions(b, vals, from + 1)
      case Some(v) =>
        if 0 <= v - 1 < |b.regions| then
          TakeStep(b.regions, vals, from, v);
          AssignRegions(SetRegion(b, from, v - 1), vals, from + 1)
        else
          RegionOutOfRange(from, v - 1)
  }

  /** Loads a puzzle from its text. */
  function Parse(data: string, atoi: string -> Option<int>): (p: Parsed)
    ensures p.BadStarSpec? <==> '*' in data && atoi(Cut(data, '*').before).None?
    ensures p.BadStarSpec? ==> p.spec == Cut(data, '*').before
    ensures p.Loaded? ==>
              p.board.stars == if '*' in data then atoi(Cut(data, '*').before).value else 1
    ensures !p.BadStarSpec? ==>
              (p.Loaded? <==> RegionsInRange(Values(data, atoi), FloorSqrt(|Values(data, atoi)|), 0))
    ensures p.Loaded? ==>
              var n := |Values(data, atoi)|;
              && p.board.size == FloorSqrt(n)
              && p.board.size * p.board.size <= n < (p.board.size + 1) * (p.board.size + 1)
              && HasGrid(p.board) && |p.board.regions| == p.board.size
              && (forall k :: 0 <= k < |p.board.squares| ==> p.board.squares[k] == Unknown)
              && ClaimedBy(p.board, Values(data, atoi))
  {
    var c := Cut(data, '*');
    if c.found && atoi(c.before).None? then BadStarSpec(c.before)
    else
      var stars := if c.found then atoi(c.before).value else 1;
      var vals := Values(data, atoi);
      AssignRegions(NewBoard(FloorSqrt(|vals|), stars), vals, 0)
  }

  /** Region `r` of `b` holds exactly the positions whose value is `r + 1`,
      in increasing order: the shape `Parse` leaves the region lists in. */
  ghost predicate ClaimedBy(b: Board, vals: seq<Option<int>>) {
    && |b.regions| == b.size
    && forall r :: 0 <= r < b.size ==> b.regions[r] == Claimed(vals, r + 1, 0)
  }

  /** Some region's list holds position `j`. */
  ghost predicate Covered(b: Board, j: int) {
    exists r :: 0 <= r < |b.regions| && j in b.regions[r]
  }

  /** A position is in region `r` exactly when its value reads `r + 1`. */
  lemma ClaimedMembership(b: Board, vals: seq<Option<int>>, r: int, j: int)
    requires ClaimedBy(b, vals) && 0 <= r < b.size
    ensures j in b.regions[r] <==> 0 <= j < |vals| && vals[j] == Some(r + 1)
  {
    ClaimedMembers(vals, r + 1, 0, j);
  }

  /** Each position is assigned at most once: no two regions share it and no
      list repeats it, because every list is in increasing order. */
  lemma AssignedOnce(b: Board, vals: seq<Option<int>>)
    requires ClaimedBy(b, vals)
    ensures forall r1, r2, j ::
              0 <= r1 < b.size && 0 <= r2 < b.size && j in b.regions[r1] && j in b.regions[r2] ==>
              r1 == r2
    ensures forall r, a, c :: 0 <= r < b.size && 0 <= a < c < |b.regions[r]| ==>
              b.regions[r][a] < b.regions[r][c]
  {
    forall r1, r2, j | 0 <= r1 < b.size && 0 <= r2 < b.size && j in b.regions[r1] && j in b.regions[r2]
      ensures r1 == r2
    {
      ClaimedMembership(b, vals, r1, j);
      ClaimedMembership(b, vals, r2, j);
    }
    forall r | 0 <= r < b.size
      ensures forall a, c :: 0 <= a < c < |b.regions[r]| ==> b.regions[r][a] < b.regions[r][c]
    {
      ClaimedAscending(vals, r + 1, 0);
    }
  }

  /** With one value per cell, each naming a region, the region lists cover
      every cell position and hold nothing else. */
  lemma ClaimedPartition(b: Board, vals: seq<Option<int>>)
    requires ClaimedBy(b, vals)
    requires |vals| == b.size * b.size
    requires RegionsInRange(vals, b.size, 0)
    requires forall j :: 0 <= j < |vals| ==> vals[j].Some?
    ensures forall j :: 0 <= j < b.size * b.size ==> Covered(b, j)
    ensures forall r, j :: 0 <= r < b.size && j in b.regions[r] ==> 0 <= j < b.size * b.size
  {
    forall j | 0 <= j < |vals|
      ensures Covered(b, j)
    {
      var r := vals[j].value - 1;
      ClaimedMembership(b, vals, r, j);
    }
    forall r, j | 0 <= r < b.size && j in b.regions[r]
      ensures 0 <= j < b.size * b.size
    {
      ClaimedMembership(b, vals, r, j);
    }
  }

  /** The region lookup of cell (row, col) returns the region its value
      names, and RegionNotFound when it has no value. */
  ghost predicate LookupMatchesValue(b: Board, vals: seq<Option<int>>, row: int, col: int) {
    var i := b.size * row + col;
    && 0 <= i < |vals|
    && Region(b, row, col) ==
         if vals[i].Some? then Checked(vals[i].value - 1, None)
         else Checked(-1, Some(RegionNotFound(row, col)))
  }

  lemma ClaimedRegionLookup(b: Board, vals: seq<Option<int>>, row: int, col: int)
    requires ClaimedBy(b, vals) && RegionsInRange(vals, b.size, 0)
    requires InBounds(b.size, row, col) && b.size * b.size <= |vals|
    ensures LookupMatchesValue(b, vals, row, col)
  {
    RowMajorInRange(b.size, row, col);
    var i := b.size * row + col;
    var found := Region(b, row, col);
    if vals[i].Some? {
      ClaimedMembership(b, vals, vals[i].value - 1, i);
    }
    if found.Ok() {
      ClaimedMembership(b, vals, found.value, i);
    }
  }

  /** On a loaded board each cell's region is the one its token names, and
      RegionNotFound when that token did not parse. */
  lemma ParsedRegionLookup(data: string, atoi: string -> Option<int>, row: int, col: int)
    requires Parse(data, atoi).Loaded?
    requires InBounds(Parse(data, atoi).board.size, row, col)
    ensures LookupMatchesValue(Parse(data, atoi).board, Values(data, atoi), row, col)
  {
    var b := Parse(data, atoi).board;
    var vals := Values(data, atoi);
    assert ClaimedBy(b, vals);
    assert RegionsInRange(vals, b.size, 0);
    assert b.size * b.size <= |vals|;
    ClaimedRegionLookup(b, vals, row, col);
  }

  /** On a loaded board whose text holds one parsable token per cell, the
      region lists partition the cell positions, each position once. */
  lemma ParsedRegionsPartition(data: string, atoi: string -> Option<int>)
    requires Parse(data, atoi).Loaded?
    requires |Values(data, atoi)| == Parse(data, atoi).board.size * Parse(data, atoi).board.size
    requires forall j :: 0 <= j < |Values(data, atoi)| ==> Values(data, atoi)[j].Some?
    ensures var b := Parse(data, atoi).board;
            forall j :: 0 <= j < b.size * b.size ==> Covered(b, j)
    ensures var b := Parse(data, atoi).board;
            forall r, j :: 0 <= r < b.size && j in b.regions[r] ==> 0 <= j < b.size * b.size
    ensures var b := Parse(data, atoi).board;
            forall r1, r2, j ::
              0 <= r1 < b.size && 0 <= r2 < b.size && j in b.regions[r1] && j in b.regions[r2] ==>
              r1 == r2
  {
    var b := Parse(data, atoi).board;
    var vals := Values(data, atoi);
    ClaimedPartition(b, vals);
    AssignedOnce(b, vals);
  }
}
