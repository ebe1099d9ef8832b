/** The three string operations the puzzle loader applies to the file's
    text: cutting at the first separator, splitting at every separator, and
    trimming white space. Text is a sequence of Unicode scalar values. */
module Text {

  datatype CutResult = CutResult(before: string, after: string, found: bool)

  /** Splits `s` around the first `sep`: when there is one, `s` is `before`,
      the separator, then `after`; otherwise `before` is all of `s`. */
  function Cut(s: string, sep: char): (r: CutResult)
    ensures r.found <==> sep in s
    ensures sep !in r.before
    ensures r.found ==> s == r.before + [sep] + r.after
    ensures !r.found ==> r.before == s && r.after == ""
  {
    if |s| == 0 then CutResult("", "", false)
    else if s[0] == sep then CutResult("", s[1..], true)
    else
      var rest := Cut(s[1..], sep);
      assert s == [s[0]] + s[1..];
      CutResult([s[0]] + rest.before, rest.after, rest.found)
  }

  /** A separator-free prefix followed by the separator is the cut point. */
  lemma {:induction false} CutAtFirstSeparator(a: string, b: string, sep: char)
    requires sep !in a
    ensures Cut(a + [sep] + b, sep) == CutResult(a, b, true)
    decreases |a|
  {
    var s := a + [sep] + b;
    if |a| == 0 {
      assert s == [sep] + b;
    } else {
      assert s[0] == a[0] != sep;
      assert s[1..] == a[1..] + [sep] + b;
      CutAtFirstSeparator(a[1..], b, sep);
      assert a == [a[0]] + a[1..];
    }
  }

  /** The pieces separated by `sep`, the inverse of `Split`. */
  function Join(pieces: seq<string>, sep: char): string
  {
    if |pieces| == 0 then ""
    else if |pieces| == 1 then pieces[0]
    else pieces[0] + [sep] + Join(pieces[1..], sep)
  }

  /** Every maximal separator-free run of `s`, in order; an empty `s` gives
      one empty piece and a trailing separator gives an empty last piece. */
  function Split(s: string, sep: char): (pieces: seq<string>)
    ensures |pieces| >= 1
    ensures forall k :: 0 <= k < |pieces| ==> sep !in pieces[k]
    ensures Join(pieces, sep) == s
    decreases |s|
  {
    var c := Cut(s, sep);
    if !c.found then [s]
    else
      var rest := Split(c.after, sep);
      assert ([c.before] + rest)[1..] == rest;
      [c.before] + rest
  }

  /** Splitting a join of separator-free pieces gives the pieces back. */
  lemma {:induction false} SplitJoin(pieces: seq<string>, sep: char)
    requires |pieces| >= 1
    requires forall k :: 0 <= k < |pieces| ==> sep !in pieces[k]
    ensures Split(Join(pieces, sep), sep) == pieces
    decreases |pieces|
  {
    if |pieces| > 1 {
      var rest := pieces[1..];
      CutAtFirstSeparator(pieces[0], Join(rest, sep), sep);
      SplitJoin(rest, sep);
      assert pieces == [pieces[0]] + rest;
    }
  }

  /** White space as the Unicode White_Space property defines it. */
  predicate IsSpace(c: char) {
    var n := c as int;
    || 0x09 <= n <= 0x0D
    || n == 0x20 || n == 0x85 || n == 0xA0 || n == 0x1680
    || 0x2000 <= n <= 0x200A
    || n == 0x2028 || n == 0x2029 || n == 0x202F || n == 0x205F || n == 0x3000
  }

  /** Drops the leading white space: what remains is a suffix of `s` that
      does not start with white space. */
  function TrimLeft(s: string): (r: string)
    ensures |r| <= |s| && r == s[|s| - |r|..]
    ensures forall k :: 0 <= k < |s| - |r| ==> IsSpace(s[k])
    ensures r == [] || !IsSpace(r[0])
  {
    if |s| > 0 && IsSpace(s[0]) then TrimLeft(s[1..]) else s
  }

  /** Drops the trailing white space: what remains is a prefix of `s` that
      does not end with white space. */
  function TrimRight(s: string): (r: string)
    ensures |r| <= |s| && r == s[..|r|]
    ensures forall k :: |r| <= k < |s| ==> IsSpace(s[k])
    ensures r == [] || !IsSpace(r[|r| - 1])
  {
    if |s| > 0 && IsSpace(s[|s| - 1]) then TrimRight(s[..|s| - 1]) else s
  }

  /** `r` is the slice of `s` starting at `lead`, and everything of `s`
      outside that slice is white space. */
  predicate TrimmedAt(s: string, r: string, lead: int) {
    && 0 <= lead <= lead + |r| <= |s|
    && r == s[lead..lead + |r|]
    && (forall k :: 0 <= k < lead ==> IsSpace(s[k]))
    && (forall k :: lead + |r| <= k < |s| ==> IsSpace(s[k]))
  }

  /** Cutting white space from the front and then from the back leaves a
      slice of `s` with only white space on either side of it. */
  lemma TrimmedSlice(s: string, l: string, r: string)
    requires |l| <= |s| && l == s[|s| - |l|..]
    requires forall k :: 0 <= k < |s| - |l| ==> IsSpace(s[k])
    requires |r| <= |l| && r == l[..|r|]
    requires forall k :: |r| <= k < |l| ==> IsSpace(l[k])
    requires l == [] || !IsSpace(l[0])
    requires r == [] || !IsSpace(r[|r| - 1])
    ensures r == [] || (!IsSpace(r[0]) && !IsSpace(r[|r| - 1]))
    ensures TrimmedAt(s, r, |s| - |l|)
  {
    var lead := |s| - |l|;
    if r != [] {
      assert r[0] == l[0];
    }
    assert s[lead..][..|r|] == s[lead..lead + |r|];
    forall k | lead + |r| <= k < |s|
      ensures IsSpace(s[k])
    {
      assert s[k] == l[k - lead];
    }
  }

  /** `s` without its leading and trailing white space. */
  function TrimSpace(s: string): (r: string)
    ensures r == [] || (!IsSpace(r[0]) && !IsSpace(r[|r| - 1]))
    ensures exists lead :: TrimmedAt(s, r, lead)
  {
    var l := TrimLeft(s);
    var r := TrimRight(l);
    TrimmedSlice(s, l, r);
    r
  }
}
