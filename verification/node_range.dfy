/** The node-to-range mapper: the selectable range of a syntax node, with
    fixed adjustments for the tokens of template literals. */
module NodeRanges {
  import opened Ranges
  import opened SyntaxTree

  /** The kinds whose range is adjusted. */
  predicate IsTemplatePart(k: Kind) {
    k.TemplateHead? || k.TemplateMiddle? || k.TemplateTail? || k.TemplateSpan?
  }

  /** The range of a node is its span `[fullStart, end]` moved by a start
      delta and an end delta that depend only on its kind. The mapping is
      total: every node has a range. */
  function NodeToRange(n: Node): (r: Range)
    ensures !IsTemplatePart(n.kind) ==> r == Range(n.fullStart, n.end)
    ensures n.kind.TemplateHead? ==> r.start == n.fullStart + 2 && r.end == n.end - 2
    ensures n.kind.TemplateTail? ==> r.start == n.fullStart + 1 && r.end == n.end - 1
    ensures n.kind.TemplateMiddle? ==> r.start == n.fullStart + 1 && r.end == n.end - 2
    ensures n.kind.TemplateSpan? ==>
      r.start == n.fullStart - 2 && r.end == n.end - n.kind.literalFullWidth + 1
  {
    match n.kind
    case TemplateHead => Range(n.fullStart + 2, n.end - 2)
    case TemplateTail => Range(n.fullStart + 1, n.end - 1)
    case TemplateMiddle => Range(n.fullStart + 1, n.end - 2)
    case TemplateSpan(w) => Range(n.fullStart - 2, n.end - w + 1)
    case _ => Range(n.fullStart, n.end)
  }

  /** A template span whose literal is its last child, ending where the span
      ends, and whose literal has no leading trivia, so that its full span
      starts at the `}` closing the substitution: the span's range runs from
      the `${` just before the span to just after that `}`, exactly the
      substitution `${ expression }`. The literal's full width counts any
      whitespace or comment before the `}`, so with such trivia the range
      stops before the `}` instead (`Scenarios.SpacedSubstitutionScenario`). */
  lemma TemplateSpanCoversSubstitution(text: string, n: Node)
    requires n.kind.TemplateSpan? && |n.children| > 0
    requires var lit := n.children[|n.children| - 1];
      (lit.kind.TemplateMiddle? || lit.kind.TemplateTail?)
      && lit.end == n.end && n.kind.literalFullWidth == lit.end - lit.fullStart
      && 2 <= n.fullStart <= lit.fullStart < |text|
      && text[n.fullStart - 2..n.fullStart] == "${" && text[lit.fullStart] == '}'
    ensures var lit := n.children[|n.children| - 1];
      NodeToRange(n) == Range(n.fullStart - 2, lit.fullStart + 1)
      && text[NodeToRange(n).start..NodeToRange(n).end]
         == "${" + text[n.fullStart..lit.fullStart] + "}"
  {
    var lit := n.children[|n.children| - 1];
    var r := NodeToRange(n);
    assert text[r.start..r.end]
      == text[r.start..n.fullStart] + text[n.fullStart..lit.fullStart] + text[lit.fullStart..r.end];
  }

  /** The mapper depends only on positions relative to the node: moving a
      node by `k` characters moves its range by `k`. */
  lemma NodeToRangeShift(n: Node, k: int)
    ensures var m := Node(n.kind, n.fullStart + k, n.end + k, n.children);
      NodeToRange(m) == Range(NodeToRange(n).start + k, NodeToRange(n).end + k)
  {
  }
}
