/** The whitespace collapser: a candidate range loses the whitespace at its
    two edges before it is compared with the current selection. */
module Whitespace {
  import opened Ranges

  /** The characters matched by the regular-expression class `\s` of
      ECMAScript: the WhiteSpace and LineTerminator productions, with the
      space separators of the Unicode category Zs. */
  predicate IsWhitespace(c: char)
    ensures c < '\U{0080}' ==> (IsWhitespace(c) <==> c in "\t\n\U{000B}\U{000C}\r ")
  {
    c == '\t' || c == '\n' || c == '\U{000B}' || c == '\U{000C}' || c == '\r'
    || c == ' ' || c == '\U{00A0}' || c == '\U{1680}'
    || ('\U{2000}' <= c <= '\U{200A}')
    || c == '\U{2028}' || c == '\U{2029}' || c == '\U{202F}' || c == '\U{205F}'
    || c == '\U{3000}' || c == '\U{FEFF}'
  }

  /** Whether the character at offset `i` is whitespace. An offset outside
      the text reads as the empty string, which is not whitespace. */
  predicate WhitespaceAt(text: string, i: int)
    ensures (i < 0 || i >= |text|) ==> !WhitespaceAt(text, i)
  {
    0 <= i < |text| && IsWhitespace(text[i])
  }

  /** The first offset at or after `i` that is not whitespace. */
  function SkipForward(text: string, i: int): (k: int)
    ensures i <= k
    ensures !WhitespaceAt(text, k)
    ensures forall m :: i <= m < k ==> WhitespaceAt(text, m)
    decreases |text| - i
  {
    if WhitespaceAt(text, i) then SkipForward(text, i + 1) else i
  }

  /** The smallest end offset at or before `j` such that everything from it
      up to `j` is whitespace. */
  function SkipBackward(text: string, j: int): (k: int)
    ensures k <= j
    ensures !WhitespaceAt(text, k - 1)
    ensures forall m :: k <= m < j ==> WhitespaceAt(text, m)
    decreases j
  {
    if WhitespaceAt(text, j - 1) then SkipBackward(text, j - 1) else j
  }

  /** The two boundaries, each moved inward over the whitespace next to it.
      The scans are independent, so an all-whitespace range comes out with
      its start past its end. */
  function Collapse(text: string, r: Range): (c: Range)
    ensures r.start <= c.start && c.end <= r.end
    ensures !WhitespaceAt(text, c.start) && !WhitespaceAt(text, c.end - 1)
    ensures forall m :: r.start <= m < c.start ==> WhitespaceAt(text, m)
    ensures forall m :: c.end <= m < r.end ==> WhitespaceAt(text, m)
  {
    Range(SkipForward(text, r.start), SkipBackward(text, r.end))
  }

  /** The collapser as written: two loops counting the characters removed
      on each side. */
  method CollapseWhitespace(text: string, range: Range) returns (c: Range)
    ensures c == Collapse(text, range)
  {
    var i := range.start;
    var leftRemove := 0;
    while WhitespaceAt(text, i)
      invariant i == range.start + leftRemove
      invariant SkipForward(text, i) == SkipForward(text, range.start)
      decreases |text| - i
    {
      i := i + 1;
      leftRemove := leftRemove + 1;
    }
    var j := range.end - 1;
    var rightRemove := 0;
    while WhitespaceAt(text, j)
      invariant j == range.end - 1 - rightRemove
      invariant SkipBackward(text, j + 1) == SkipBackward(text, range.end)
      decreases j
    {
      j := j - 1;
      rightRemove := rightRemove + 1;
    }
    c := Range(range.start + leftRemove, range.end - rightRemove);
  }

  /** The four properties of `Collapse` determine its result: any range that
      moves each bound inward over whitespace only, and stops at the first
      non-whitespace character, is the collapsed range. */
  lemma CollapseUnique(text: string, r: Range, c: Range)
    requires r.start <= c.start && c.end <= r.end
    requires !WhitespaceAt(text, c.start) && !WhitespaceAt(text, c.end - 1)
    requires forall m :: r.start <= m < c.start ==> WhitespaceAt(text, m)
    requires forall m :: c.end <= m < r.end ==> WhitespaceAt(text, m)
    ensures c == Collapse(text, r)
  {
  }

  /** A range with a non-whitespace character (or the text edge) at each
      end is left as it is. */
  lemma CollapseFixedPoint(text: string, r: Range)
    requires !WhitespaceAt(text, r.start) && !WhitespaceAt(text, r.end - 1)
    ensures Collapse(text, r) == r
  {
  }

  /** Collapsing twice is collapsing once. */
  lemma CollapseIdempotent(text: string, r: Range)
    ensures Collapse(text, Collapse(text, r)) == Collapse(text, r)
  {
  }

  /** A non-empty range of whitespace only collapses to a range whose start
      lies past its end. */
  lemma CollapseAllWhitespace(text: string, r: Range)
    requires r.start < r.end
    requires forall m :: r.start <= m < r.end ==> WhitespaceAt(text, m)
    ensures Collapse(text, r).start >= r.end
    ensures Collapse(text, r).end <= r.start
    ensures Collapse(text, r).start > Collapse(text, r).end
  {
  }
}
