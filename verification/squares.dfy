/** The state of one cell of a Star Battle grid (square.go). */
module Squares {

  /** The source declares the cell state as a named integer type, so every
      integer is a `Square`; only the three constants below are meaningful. */
  newtype Square = int

  /** Numbered from zero in declaration order; `Unknown` is the zero value,
      which is what a freshly allocated grid holds. */
  const Unknown: Square := 0
  const Star: Square := 1
  const NotStar: Square := 2

  predicate IsNamed(s: Square) {
    s == Unknown || s == Star || s == NotStar
  }

  /** The one-character glyph a cell is drawn with. */
  function Glyph(s: Square): (g: string)
    ensures |g| == 1
    ensures g == "*" <==> s == Star
    ensures g == "x" <==> s == NotStar
    ensures g == " " <==> s != Star && s != NotStar
  {
    if s == Unknown then " "
    else if s == Star then "*"
    else if s == NotStar then "x"
    else " "
  }

  /** Among the three named states the glyph determines the state. */
  lemma GlyphsDistinguishNamedSquares(a: Square, b: Square)
    requires IsNamed(a) && IsNamed(b)
    ensures Glyph(a) == Glyph(b) <==> a == b
  {
  }
}
