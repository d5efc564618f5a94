/** The grow operation of the TypeScript strategy: for every selection,
    resolve the ancestor path, accept the innermost node whose collapsed
    range grows the selection, optionally step inside brackets, and drop
    the selections that found nothing. */
module Strategy {
  import opened Ranges
  import opened Whitespace
  import opened SyntaxTree
  import opened NodeRanges

  /** The range a path entry offers: its mapped range, whitespace collapsed. */
  function Candidate(text: string, n: Node): (c: Range)
    ensures NodeToRange(n).start <= c.start && c.end <= NodeToRange(n).end
  {
    Collapse(text, NodeToRange(n))
  }

  /** Entry `i` is the one the grow loop accepts: it grows `r`, and no entry
      after it (deeper in the pre-order walk) does. */
  ghost predicate InnermostGrowing(text: string, path: seq<Node>, r: Range, i: int) {
    0 <= i < |path| && Grows(Candidate(text, path[i]), r)
    && forall j :: i < j < |path| ==> !Grows(Candidate(text, path[j]), r)
  }

  /** The loop from the last path entry to the first, stopping at the first
      candidate that grows `r`. */
  function FindCandidate(text: string, path: seq<Node>, r: Range): (k: Option<nat>)
    ensures k.Some? ==> InnermostGrowing(text, path, r, k.value)
    ensures k.None? ==> forall j :: 0 <= j < |path| ==> !Grows(Candidate(text, path[j]), r)
  {
    FindBelow(text, path, r, |path|)
  }

  /** The same loop, entered at index `n - 1`: the last entry below `n`
      whose candidate grows `r`. */
  function FindBelow(text: string, path: seq<Node>, r: Range, n: nat): (k: Option<nat>)
    requires n <= |path|
    requires forall j :: n <= j < |path| ==> !Grows(Candidate(text, path[j]), r)
    ensures k.Some? ==> InnermostGrowing(text, path, r, k.value)
    ensures k.None? ==> forall j :: 0 <= j < |path| ==> !Grows(Candidate(text, path[j]), r)
    decreases n
  {
    if n == 0 then None
    else if Grows(Candidate(text, path[n - 1]), r) then Some(n - 1)
    else FindBelow(text, path, r, n - 1)
  }

  /** The kinds whose range is delimited by a bracket pair. */
  predicate HasBrackets(k: Kind) {
    k.Block? || k.ObjectLiteralExpression? || k.ObjectBindingPattern?
  }

  /** Bracket exclusion for an accepted range `o`: when `r` is already the
      contents between the brackets, the brackets are taken too; otherwise
      the selection stops just inside them. The result never equals `r`. */
  function ExcludeBrackets(o: Range, r: Range): (x: Range)
    ensures x == o <==> r == Inner(o)
    ensures x != o ==> x == Inner(o)
    ensures x != r
  {
    if o.start + 1 == r.start && o.end - 1 == r.end then o else Inner(o)
  }

  /** Bracket exclusion does not keep growth: a selection that starts at
      the opening bracket and stops one character short of the end is grown
      by the candidate, yet the adjusted range gives up that bracket. */
  lemma ExcludeBracketsMayLoseStart(o: Range)
    requires o.start < o.end
    ensures var r := Range(o.start, o.end - 1);
      Grows(o, r) && !Encloses(ExcludeBrackets(o, r), r)
  {
  }

  /** `o` is what the grow rule returns when entry `i` is accepted: the
      candidate range itself, or for a bracketed node under bracket
      exclusion, the full range when `r` is already its contents and the
      contents otherwise. */
  ghost predicate AcceptedResult(text: string, path: seq<Node>, r: Range, i: int, excludeBrackets: bool, o: Range) {
    InnermostGrowing(text, path, r, i) &&
    var c := Candidate(text, path[i]);
    if excludeBrackets && HasBrackets(path[i].kind)
    then (r == Inner(c) ==> o == c) && (r != Inner(c) ==> o == Inner(c))
    else o == c
  }

  /** Grows one selection `r` of `text` parsed as `root`. The result is
      never the selection itself, and without bracket exclusion it strictly
      encloses it. */
  function GrowSelection(text: string, root: Node, r: Range, excludeBrackets: bool): (o: Option<Range>)
    ensures o.Some? ==> o.value != r
    ensures o.Some? && !excludeBrackets ==> Grows(o.value, r)
  {
    var path := PathToPosition(root, r.start, r.end);
    match FindCandidate(text, path, r)
    case None => None
    case Some(i) =>
      var c := Candidate(text, path[i]);
      Some(if excludeBrackets && HasBrackets(path[i].kind) then ExcludeBrackets(c, r) else c)
  }

  /** What growing one selection returns: nothing exactly when no path entry
      offers a growing candidate, and otherwise the innermost growing
      candidate, bracket-adjusted for a bracketed kind. */
  lemma GrowSelectionSpec(text: string, root: Node, r: Range, excludeBrackets: bool)
    ensures var path := PathToPosition(root, r.start, r.end);
      (GrowSelection(text, root, r, excludeBrackets).None?
       <==> forall x :: x in path ==> !Grows(Candidate(text, x), r))
    ensures var path := PathToPosition(root, r.start, r.end);
      var o := GrowSelection(text, root, r, excludeBrackets);
      o.Some? ==> exists i :: AcceptedResult(text, path, r, i, excludeBrackets, o.value)
  {
    var path := PathToPosition(root, r.start, r.end);
    var k := FindCandidate(text, path, r);
    if k.Some? {
      var i := k.value;
      var c := Candidate(text, path[i]);
      assert AcceptedResult(text, path, r, i, excludeBrackets,
        if excludeBrackets && HasBrackets(path[i].kind) then ExcludeBrackets(c, r) else c);
    }
  }

  /** In terms of the tree rather than the walk: a selection finds nothing
      exactly when no node whose span contains it offers a growing range. */
  lemma GrowSelectionNoneIffNoKeptNodeGrows(text: string, root: Node, r: Range, excludeBrackets: bool)
    ensures GrowSelection(text, root, r, excludeBrackets).None?
      <==> forall x :: Kept(root, x, r.start, r.end) ==> !Grows(Candidate(text, x), r)
  {
    GrowSelectionSpec(text, root, r, excludeBrackets);
    forall x {
      PathIsKept(root, x, r.start, r.end);
    }
  }

  /** The indices of the present entries, in increasing order. */
  function PresentIndices<T>(opts: seq<Option<T>>): (idx: seq<nat>)
    ensures |idx| <= |opts|
    ensures forall k :: 0 <= k < |idx| ==> idx[k] < |opts| && opts[idx[k]].Some?
    ensures forall k, l :: 0 <= k < l < |idx| ==> idx[k] < idx[l]
    ensures forall j :: 0 <= j < |opts| && opts[j].Some? ==> j in idx
    ensures |idx| == |opts| <==> forall j :: 0 <= j < |opts| ==> opts[j].Some?
  {
    PresentBelow(opts, |opts|)
  }

  /** The indices below `n` of the present entries, in increasing order. */
  function PresentBelow<T>(opts: seq<Option<T>>, n: nat): (idx: seq<nat>)
    requires n <= |opts|
    ensures |idx| <= n
    ensures forall k :: 0 <= k < |idx| ==> idx[k] < n && opts[idx[k]].Some?
    ensures forall k, l :: 0 <= k < l < |idx| ==> idx[k] < idx[l]
    ensures forall j :: 0 <= j < n && opts[j].Some? ==> j in idx
    ensures |idx| == n <==> forall j :: 0 <= j < n ==> opts[j].Some?
    decreases n
  {
    if n == 0 then []
    else PresentBelow(opts, n - 1) + (if opts[n - 1].Some? then [n - 1] else [])
  }

  /** The present values, in order: the `filter`/`map` pair at the end of
      the grow pipeline. */
  function Compact<T>(opts: seq<Option<T>>): (vs: seq<T>)
    ensures |vs| == |PresentIndices(opts)|
    ensures forall k :: 0 <= k < |vs| ==> opts[PresentIndices(opts)[k]] == Some(vs[k])
  {
    CompactBelow(opts, |opts|)
  }

  /** The values of the present entries below `n`, in order. */
  function CompactBelow<T>(opts: seq<Option<T>>, n: nat): (vs: seq<T>)
    requires n <= |opts|
    ensures |vs| == |PresentBelow(opts, n)|
    ensures forall k :: 0 <= k < |vs| ==> opts[PresentBelow(opts, n)[k]] == Some(vs[k])
    decreases n
  {
    if n == 0 then []
    else CompactBelow(opts, n - 1) + (if opts[n - 1].Some? then [opts[n - 1].value] else [])
  }

  /** The per-selection results, in selection order. */
  function GrowEach(text: string, selections: seq<Range>, root: Node, excludeBrackets: bool): (rs: seq<Option<Range>>)
    ensures |rs| == |selections|
    ensures forall k :: 0 <= k < |rs| ==> rs[k] == GrowSelection(text, root, selections[k], excludeBrackets)
  {
    seq(|selections|, k requires 0 <= k < |selections| => GrowSelection(text, root, selections[k], excludeBrackets))
  }

  /** `TypescriptStrategy.grow`: one output range per selection that found a
      candidate, in selection order; selections that found none are
      dropped. */
  function Grow(text: string, selections: seq<Range>, root: Node, excludeBrackets: bool): (out: seq<Range>)
    ensures |out| <= |selections|
    ensures |out| == |selections| <==>
      forall k :: 0 <= k < |selections| ==> GrowSelection(text, root, selections[k], excludeBrackets).Some?
    ensures var idx := PresentIndices(GrowEach(text, selections, root, excludeBrackets));
      |out| == |idx|
      && (forall k :: 0 <= k < |out| ==>
            idx[k] < |selections| && GrowSelection(text, root, selections[idx[k]], excludeBrackets) == Some(out[k]))
      && (forall k :: 0 <= k < |out| ==> out[k] != selections[idx[k]])
      && (!excludeBrackets ==> forall k :: 0 <= k < |out| ==> Grows(out[k], selections[idx[k]]))
  {
    var rs := GrowEach(text, selections, root, excludeBrackets);
    var out := Compact(rs);
    GrowOutputs(text, selections, root, excludeBrackets, rs, out);
    out
  }

  /** Each output of `Grow` is the grow result of the selection it comes
      from. */
  lemma GrowOutputs(text: string, selections: seq<Range>, root: Node, excludeBrackets: bool,
                    rs: seq<Option<Range>>, out: seq<Range>)
    requires rs == GrowEach(text, selections, root, excludeBrackets)
    requires out == Compact(rs)
    ensures var idx := PresentIndices(rs);
      |out| == |idx|
      && (forall k :: 0 <= k < |out| ==>
            idx[k] < |selections| && GrowSelection(text, root, selections[idx[k]], excludeBrackets) == Some(out[k]))
      && (forall k :: 0 <= k < |out| ==> out[k] != selections[idx[k]])
      && (!excludeBrackets ==> forall k :: 0 <= k < |out| ==> Grows(out[k], selections[idx[k]]))
  {
  }
}
