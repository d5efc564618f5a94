/** Character-offset ranges, the one value type shared by every part of the
    selection engine, and the optional result of growing one selection. */
module Ranges {

  /** A span `[start, end)` of the buffer. Both bounds are plain integers:
      the engine's arithmetic can move a bound below zero (a template span
      steps two characters backward) or past the other bound (collapsing a
      range that is all whitespace), so no ordering is imposed here. */
  datatype Range = Range(start: int, end: int)

  /** Present/absent result of growing a single selection. */
  datatype Option<+T> = None | Some(value: T)

  /** The acceptance test of the grow loop: the outer range `o` moves the
      start strictly outward while keeping the end, or moves the end
      strictly outward while keeping the start. */
  predicate Grows(o: Range, r: Range) {
    (o.start < r.start && o.end >= r.end) || (o.end > r.end && o.start <= r.start)
  }

  /** `o` encloses `r`, both bounds outward or flush. */
  predicate Encloses(o: Range, r: Range) {
    o.start <= r.start && r.end <= o.end
  }

  /** The range shrunk by one character on each side. */
  function Inner(o: Range): (i: Range)
    ensures i.end - i.start == o.end - o.start - 2
    ensures Encloses(o, i) && i != o
  {
    Range(o.start + 1, o.end - 1)
  }

  /** The asymmetric test is exactly strict enclosure: neither bound may
      move inward, and the two ranges differ. */
  lemma GrowsIsStrictEnclosure(o: Range, r: Range)
    ensures Grows(o, r) <==> Encloses(o, r) && o != r
  {
  }
}
