/** Worked scenarios on small sources, each with the tree the TypeScript
    parser produces for it. */
module Scenarios {
  import opened Ranges
  import opened Whitespace
  import opened SyntaxTree
  import opened NodeRanges
  import opened Strategy

  function Leaf(k: Kind, fullStart: int, end: int): Node {
    Node(k, fullStart, end, [])
  }

  /** `` `a${b}c` ``: offsets 0 backtick, 1 `a`, 2 `$`, 3 `{`, 4 `b`, 5 `}`,
      6 `c`, 7 backtick. */
  const TemplateText: string := "`a${b}c`"

  const IdentB: Node := Leaf(Other, 4, 5)
  const Tail: Node := Leaf(TemplateTail, 5, 8)
  const Span: Node := Node(TemplateSpan(3), 4, 8, [IdentB] + [Tail])
  const Head: Node := Leaf(TemplateHead, 0, 4)
  const TemplateExpr: Node := Node(Other, 0, 8, [Head] + [Span])
  const TemplateStmt: Node := Node(Other, 0, 8, [TemplateExpr])
  const TemplateEof: Node := Leaf(Other, 8, 8)
  const TemplateFile: Node := Node(Other, 0, 8, [TemplateStmt] + [TemplateEof])

  lemma TemplatePathAtCursor()
    ensures PathToPosition(TemplateFile, 4, 4) == [TemplateFile, TemplateStmt, TemplateExpr, Head, Span, IdentB]
  {
    PathOfChildrenCons(IdentB, [Tail], 4, 4);
    PathOfChildrenCons(Head, [Span], 4, 4);
    PathOfChildrenCons(TemplateExpr, [], 4, 4);
    PathOfChildrenCons(TemplateStmt, [TemplateEof], 4, 4);
    assert PathToPosition(Span, 4, 4) == [Span, IdentB];
    assert PathToPosition(TemplateExpr, 4, 4) == [TemplateExpr, Head, Span, IdentB];
    assert [TemplateExpr] + [] == [TemplateExpr];
    assert PathToPosition(TemplateStmt, 4, 4) == [TemplateStmt, TemplateExpr, Head, Span, IdentB];
  }

  lemma TemplatePathAtB()
    ensures PathToPosition(TemplateFile, 4, 5) == [TemplateFile, TemplateStmt, TemplateExpr, Span, IdentB]
  {
    PathOfChildrenCons(IdentB, [Tail], 4, 5);
    PathOfChildrenCons(Head, [Span], 4, 5);
    PathOfChildrenCons(TemplateExpr, [], 4, 5);
    PathOfChildrenCons(TemplateStmt, [TemplateEof], 4, 5);
    assert PathToPosition(Span, 4, 5) == [Span, IdentB];
    assert PathToPosition(TemplateExpr, 4, 5) == [TemplateExpr, Span, IdentB];
    assert [TemplateExpr] + [] == [TemplateExpr];
    assert PathToPosition(TemplateStmt, 4, 5) == [TemplateStmt, TemplateExpr, Span, IdentB];
  }

  lemma IdentBCandidate()
    ensures Candidate(TemplateText, IdentB) == Range(4, 5)
  {
    assert !WhitespaceAt(TemplateText, 4);
    CollapseFixedPoint(TemplateText, Range(4, 5));
  }

  lemma SpanCandidate()
    ensures Candidate(TemplateText, Span) == Range(2, 6)
  {
    assert NodeToRange(Span) == Range(2, 6);
    assert !WhitespaceAt(TemplateText, 2) && !WhitespaceAt(TemplateText, 5);
    CollapseFixedPoint(TemplateText, Range(2, 6));
  }

  /** A cursor just before `b` grows to `b`. */
  lemma TemplateCursorScenario()
    ensures GrowSelection(TemplateText, TemplateFile, Range(4, 4), false) == Some(Range(4, 5))
  {
    TemplatePathAtCursor();
    var p := PathToPosition(TemplateFile, 4, 4);
    IdentBCandidate();
    assert FindCandidate(TemplateText, p, Range(4, 4)) == Some(5);
  }

  /** `b` grows to the whole substitution `${b}`: the span's range starts
      two characters before the span. */
  lemma TemplateSubstitutionScenario()
    ensures GrowSelection(TemplateText, TemplateFile, Range(4, 5), false) == Some(Range(2, 6))
  {
    TemplatePathAtB();
    var q := PathToPosition(TemplateFile, 4, 5);
    IdentBCandidate();
    SpanCandidate();
    assert FindCandidate(TemplateText, q, Range(4, 5)) == Some(3);
  }

  /** `` `a${ b }c` ``: offsets 2 `$`, 3 `{`, 4 space, 5 `b`, 6 space, 7 `}`.
      The space before `}` is leading trivia of the tail, so the tail's full
      span is `[6, 10)`, four characters wide. */
  const SpacedText: string := "`a${ b }c`"

  const SpacedIdent: Node := Leaf(Other, 4, 6)
  const SpacedTail: Node := Leaf(TemplateTail, 6, 10)
  const SpacedSpan: Node := Node(TemplateSpan(4), 4, 10, [SpacedIdent] + [SpacedTail])
  const SpacedHead: Node := Leaf(TemplateHead, 0, 4)
  const SpacedExpr: Node := Node(Other, 0, 10, [SpacedHead] + [SpacedSpan])
  const SpacedStmt: Node := Node(Other, 0, 10, [SpacedExpr])
  const SpacedEof: Node := Leaf(Other, 10, 10)
  const SpacedFile: Node := Node(Other, 0, 10, [SpacedStmt] + [SpacedEof])

  lemma SpacedPathAtB()
    ensures PathToPosition(SpacedFile, 5, 6) == [SpacedFile, SpacedStmt, SpacedExpr, SpacedSpan, SpacedIdent]
  {
    PathOfChildrenCons(SpacedIdent, [SpacedTail], 5, 6);
    PathOfChildrenCons(SpacedHead, [SpacedSpan], 5, 6);
    PathOfChildrenCons(SpacedExpr, [], 5, 6);
    PathOfChildrenCons(SpacedStmt, [SpacedEof], 5, 6);
    assert PathToPosition(SpacedSpan, 5, 6) == [SpacedSpan, SpacedIdent];
    assert PathToPosition(SpacedExpr, 5, 6) == [SpacedExpr, SpacedSpan, SpacedIdent];
    assert [SpacedExpr] + [] == [SpacedExpr];
    assert PathToPosition(SpacedStmt, 5, 6) == [SpacedStmt, SpacedExpr, SpacedSpan, SpacedIdent];
  }

  lemma SpacedIdentCandidate()
    ensures Candidate(SpacedText, SpacedIdent) == Range(5, 6)
  {
    assert WhitespaceAt(SpacedText, 4) && !WhitespaceAt(SpacedText, 5);
    CollapseUnique(SpacedText, Range(4, 6), Range(5, 6));
  }

  lemma SpacedSpanCandidate()
    ensures NodeToRange(SpacedSpan) == Range(2, 7)
    ensures Candidate(SpacedText, SpacedSpan) == Range(2, 6)
  {
    assert NodeToRange(SpacedSpan) == Range(2, 7);
    assert !WhitespaceAt(SpacedText, 2) && WhitespaceAt(SpacedText, 6) && !WhitespaceAt(SpacedText, 5);
    CollapseUnique(SpacedText, Range(2, 7), Range(2, 6));
  }

  /** With a space before the closing brace, `b` grows to `${ b`: the span's
      range ends one character past the tail's full start, at the space, and
      collapsing drops the space; the `}` at offset 7 is never selected. */
  lemma SpacedSubstitutionScenario()
    ensures SpacedText[7] == '}'
    ensures NodeToRange(SpacedSpan) == Range(2, 7)
    ensures GrowSelection(SpacedText, SpacedFile, Range(5, 6), false) == Some(Range(2, 6))
  {
    SpacedPathAtB();
    var q := PathToPosition(SpacedFile, 5, 6);
    SpacedIdentCandidate();
    SpacedSpanCandidate();
    assert FindCandidate(SpacedText, q, Range(5, 6)) == Some(3);
  }

  /** `({ x: 1 })`: offsets 0 `(`, 1 `{`, 3 `x`, 4 `:`, 6 `1`, 8 `}`, 9 `)`. */
  const ObjectText: string := "({ x: 1 })"

  const IdentX: Node := Leaf(Other, 2, 4)
  const One: Node := Leaf(Other, 5, 7)
  const Property: Node := Node(Other, 2, 7, [IdentX] + [One])
  const Object: Node := Node(ObjectLiteralExpression, 1, 9, [Property])
  const Parens: Node := Node(Other, 0, 10, [Object])
  const ObjectStmt: Node := Node(Other, 0, 10, [Parens])
  const ObjectEof: Node := Leaf(Other, 10, 10)
  const ObjectFile: Node := Node(Other, 0, 10, [ObjectStmt] + [ObjectEof])

  lemma ObjectPathAtContents()
    ensures PathToPosition(ObjectFile, 3, 7) == [ObjectFile, ObjectStmt, Parens, Object, Property]
  {
    PathOfChildrenCons(IdentX, [One], 3, 7);
    PathOfChildrenCons(Property, [], 3, 7);
    PathOfChildrenCons(Object, [], 3, 7);
    PathOfChildrenCons(Parens, [], 3, 7);
    PathOfChildrenCons(ObjectStmt, [ObjectEof], 3, 7);
    assert [Property] + [] == [Property];
    assert [Object] + [] == [Object];
    assert [Parens] + [] == [Parens];
    assert PathToPosition(Property, 3, 7) == [Property];
    assert PathToPosition(Object, 3, 7) == [Object, Property];
    assert PathToPosition(Parens, 3, 7) == [Parens, Object, Property];
  }

  lemma ObjectPathInsideBraces()
    ensures PathToPosition(ObjectFile, 2, 8) == [ObjectFile, ObjectStmt, Parens, Object]
  {
    PathOfChildrenCons(Property, [], 2, 8);
    PathOfChildrenCons(Object, [], 2, 8);
    PathOfChildrenCons(Parens, [], 2, 8);
    PathOfChildrenCons(ObjectStmt, [ObjectEof], 2, 8);
    assert [Property] + [] == [Property];
    assert [Object] + [] == [Object];
    assert [Parens] + [] == [Parens];
    assert PathToPosition(Object, 2, 8) == [Object];
    assert PathToPosition(Parens, 2, 8) == [Parens, Object];
  }

  lemma ObjectPathWholeFile()
    ensures PathToPosition(ObjectFile, 0, 10) == [ObjectFile, ObjectStmt, Parens]
  {
    PathOfChildrenCons(Object, [], 0, 10);
    PathOfChildrenCons(Parens, [], 0, 10);
    PathOfChildrenCons(ObjectStmt, [ObjectEof], 0, 10);
    assert [Object] + [] == [Object];
    assert [Parens] + [] == [Parens];
    assert PathToPosition(Parens, 0, 10) == [Parens];
  }

  lemma PropertyCandidate()
    ensures Candidate(ObjectText, Property) == Range(3, 7)
  {
    assert WhitespaceAt(ObjectText, 2);
    assert !WhitespaceAt(ObjectText, 3) && !WhitespaceAt(ObjectText, 6);
    CollapseUnique(ObjectText, Range(2, 7), Range(3, 7));
  }

  lemma ObjectCandidate()
    ensures Candidate(ObjectText, Object) == Range(1, 9)
  {
    assert !WhitespaceAt(ObjectText, 1) && !WhitespaceAt(ObjectText, 8);
    CollapseFixedPoint(ObjectText, Range(1, 9));
  }

  lemma OuterCandidates()
    ensures Candidate(ObjectText, ObjectFile) == Range(0, 10)
    ensures Candidate(ObjectText, ObjectStmt) == Range(0, 10)
    ensures Candidate(ObjectText, Parens) == Range(0, 10)
  {
    assert !WhitespaceAt(ObjectText, 0) && !WhitespaceAt(ObjectText, 9);
    CollapseFixedPoint(ObjectText, Range(0, 10));
  }

  /** With bracket exclusion, `x: 1` first grows to the contents between
      the braces, ` x: 1 `. */
  lemma BracketContentsScenario()
    ensures GrowSelection(ObjectText, ObjectFile, Range(3, 7), true) == Some(Range(2, 8))
  {
    ObjectPathAtContents();
    var p := PathToPosition(ObjectFile, 3, 7);
    PropertyCandidate();
    ObjectCandidate();
    assert FindCandidate(ObjectText, p, Range(3, 7)) == Some(3);
  }

  /** From the contents, the next grow takes the braces. */
  lemma BracketFullScenario()
    ensures GrowSelection(ObjectText, ObjectFile, Range(2, 8), true) == Some(Range(1, 9))
  {
    ObjectPathInsideBraces();
    var p := PathToPosition(ObjectFile, 2, 8);
    ObjectCandidate();
    assert FindCandidate(ObjectText, p, Range(2, 8)) == Some(3);
  }

  /** Without bracket exclusion, `x: 1` takes the braces at once. */
  lemma NoBracketExclusionScenario()
    ensures GrowSelection(ObjectText, ObjectFile, Range(3, 7), false) == Some(Range(1, 9))
  {
    ObjectPathAtContents();
    var p := PathToPosition(ObjectFile, 3, 7);
    PropertyCandidate();
    ObjectCandidate();
    assert FindCandidate(ObjectText, p, Range(3, 7)) == Some(3);
  }

  /** The whole file has nothing larger to grow to. */
  lemma WholeFileScenario()
    ensures GrowSelection(ObjectText, ObjectFile, Range(0, 10), true) == None
  {
    ObjectPathWholeFile();
    var p := PathToPosition(ObjectFile, 0, 10);
    OuterCandidates();
    assert forall j :: 0 <= j < |p| ==> !Grows(Candidate(ObjectText, p[j]), Range(0, 10));
    assert FindCandidate(ObjectText, p, Range(0, 10)) == None;
  }

  /** Of two selections, a first that grows and a second that does not
      yield the first one's result alone. */
  lemma GrowFirstOfTwo(text: string, root: Node, a: Range, b: Range, excludeBrackets: bool, x: Range)
    requires GrowSelection(text, root, a, excludeBrackets) == Some(x)
    requires GrowSelection(text, root, b, excludeBrackets) == None
    ensures Grow(text, [a, b], root, excludeBrackets) == [x]
  {
    var rs := GrowEach(text, [a, b], root, excludeBrackets);
    assert rs[0] == Some(x) && rs[1] == None;
    assert CompactBelow(rs, 1) == [x];
    assert CompactBelow(rs, 2) == [x];
  }

  /** Two selections, the second already the whole file: only the first
      yields a range. */
  lemma PartialScenario()
    ensures Grow(ObjectText, [Range(3, 7), Range(0, 10)], ObjectFile, true) == [Range(2, 8)]
  {
    BracketContentsScenario();
    WholeFileScenario();
    GrowFirstOfTwo(ObjectText, ObjectFile, Range(3, 7), Range(0, 10), true, Range(2, 8));
  }

  /** Siblings whose spans touch at the cursor are both on the path. */
  lemma TouchingSiblingsScenario()
    ensures var a := Leaf(Other, 0, 3);
      var b := Leaf(Other, 3, 5);
      var root := Node(Other, 0, 5, [a] + [b]);
      PathToPosition(root, 3, 3) == [root, a, b]
  {
    var a := Leaf(Other, 0, 3);
    var b := Leaf(Other, 3, 5);
    PathOfChildrenCons(a, [b], 3, 3);
    PathOfChildrenCons(b, [], 3, 3);
    assert [b] + [] == [b];
  }

  /** A range of whitespace only collapses to a start past its end. */
  lemma AllWhitespaceScenario()
    ensures Collapse("  ", Range(0, 2)) == Range(2, 0)
  {
    CollapseAllWhitespace("  ", Range(0, 2));
    assert !WhitespaceAt("  ", 2) && !WhitespaceAt("  ", -1);
  }
}
