# very-smart-select: the range-computation engine, in Dafny

This project models the grow operation of the VS Code extension
very-smart-select for TypeScript and JavaScript buffers. Given the buffer
text, its syntax tree and the current selections, grow works out the next
enclosing syntactic range for each selection. It runs in four steps:

- **Ancestor path** (`SyntaxTree`). A pre-order walk keeps every node whose
  full span `[fullStart, end]` contains the selection. It descends only into
  the nodes it keeps.
- **Node ranges** (`NodeRanges`). Each node maps to a range: its full span,
  moved by fixed deltas for the tokens of template literals.
- **Whitespace collapse** (`Whitespace`). Each candidate range moves its
  start forward and its end backward over whitespace. The two scans are
  independent of each other.
- **Grow** (`Strategy`). The path is scanned from its innermost entry
  outwards. The first collapsed candidate that grows the selection on one
  side, without giving ground on the other, is accepted. Bracket exclusion
  may then adjust it. A selection with no accepted candidate is dropped from
  the output.

`Ranges` holds the shared `Range` value and the growth test. `Scenarios`
works the engine through small sources, each with the tree the TypeScript
parser builds for it.

The model follows the code, including where its behaviour is easy to
misread:

- A collapsed range can have its start past its end
  (`Scenarios.AllWhitespaceScenario`).
- A template span's range starts two characters before the span, so growing
  from `b` in `` `a${b}c` `` selects `${b}` (`Scenarios.TemplateSubstitutionScenario`).
- The span's range ends one character past its literal's full start. When
  whitespace precedes the closing `}`, that whitespace is the literal's
  leading trivia, so growing from `b` in `` `a${ b }c` `` selects `${ b`
  and never the `}` (`Scenarios.SpacedSubstitutionScenario`).
- With bracket exclusion, growing from `x: 1` in `({ x: 1 })` first selects
  ` x: 1 ` and only then `{ x: 1 }` (`Scenarios.BracketContentsScenario`,
  `Scenarios.BracketFullScenario`).
- Nothing clamps a returned range to `0 <= start <= end <= |text|`.
- The growth test never accepts a range that moves one bound inward
  (`Ranges.GrowsIsStrictEnclosure`). Only the bracket adjustment can do that
  (`Strategy.ExcludeBracketsMayLoseStart`).

## Model

| member | source | states |
|---|---|---|
| Ranges.GrowsIsStrictEnclosure | src/languages/typescript.ts:99-102 | the asymmetric "grows on one side" test holds exactly when the candidate encloses the selection and differs from it |
| Ranges.Inner | src/languages/typescript.ts:119-122 | shrinking by one character on each side keeps the range inside the original, two characters narrower |
| Whitespace.IsWhitespace | src/languages/typescript.ts:32 | the `\s` class; among ASCII characters exactly tab, line feed, vertical tab, form feed, carriage return and space |
| Whitespace.WhitespaceAt | src/languages/typescript.ts:37 | an offset outside the text reads as the empty string and so is never whitespace |
| Whitespace.SkipForward | src/languages/typescript.ts:35-40 | the left scan stops at the first offset at or after the start that is not whitespace (offsets outside the text count as non-whitespace), and everything it skipped is whitespace |
| Whitespace.SkipBackward | src/languages/typescript.ts:41-46 | the right scan stops at the first end whose previous character is not whitespace, and everything it skipped is whitespace |
| Whitespace.Collapse | src/languages/typescript.ts:34-51 | the collapsed range only moves bounds inward, over whitespace only, and stops with a non-whitespace character (or the text edge) at each end |
| Whitespace.CollapseWhitespace | src/languages/typescript.ts:34-51 | the two counting loops compute exactly the collapsed range |
| Whitespace.CollapseUnique | src/languages/typescript.ts:34-51 | any range meeting the four collapse properties is the collapsed range |
| Whitespace.CollapseFixedPoint | src/languages/typescript.ts:34-51 | a range with a non-whitespace character or the text edge at each end is left unchanged |
| Whitespace.CollapseIdempotent | src/languages/typescript.ts:34-51 | collapsing twice gives the same range as collapsing once |
| Whitespace.CollapseAllWhitespace | src/languages/typescript.ts:34-51 | a non-empty all-whitespace range collapses to one whose start lies past its end |
| SyntaxTree.Contains | src/languages/typescript.ts:15-17 | a node is kept when its full start is at or before the range's start and its end at or after the range's end |
| SyntaxTree.PathToPosition | src/languages/typescript.ts:14-30 | every path node's full span contains the range; the path is empty exactly when the root does not contain it, and otherwise starts with the root |
| SyntaxTree.PathOfChildren | src/languages/typescript.ts:21-23 | every node collected from the children contains the range |
| SyntaxTree.PathIsKept | src/languages/typescript.ts:14-24 | a node is on the path exactly when it is reachable from the root along a chain of nodes that all contain the range |
| SyntaxTree.ChildrenPathIsKept | src/languages/typescript.ts:21-23 | a node is collected from a list of siblings exactly when it is kept under one of them |
| SyntaxTree.PathParentsFirst | src/languages/typescript.ts:17-23 | every path entry after the root is a child of an earlier entry |
| SyntaxTree.ChildrenParentsFirst | src/languages/typescript.ts:21-23 | every entry collected from siblings is one of them or a child of an earlier entry |
| NodeRanges.NodeToRange | src/languages/typescript.ts:53-76 | non-template nodes map to their full span; head, tail and middle use the deltas (+2,-2), (+1,-1) and (+1,-2); a template span uses (-2, 1 - literal width) |
| NodeRanges.TemplateSpanCoversSubstitution | src/languages/typescript.ts:68-71 | a template span whose literal ends it, and whose literal has no leading trivia before its `}`, covers exactly the substitution `${ expression }` |
| NodeRanges.NodeToRangeShift | src/languages/typescript.ts:72-75 | moving a node by k characters moves its range by k |
| Strategy.Candidate | src/languages/typescript.ts:94-98 | a path entry's candidate is its mapped range collapsed, and lies within the mapped range |
| Strategy.FindBelow | src/languages/typescript.ts:92-107 | scanning down from a given index, the result is the last growing entry below it, or none when no entry grows |
| Strategy.FindCandidate | src/languages/typescript.ts:92-107 | the accepted index is the last path entry whose collapsed range grows the selection; none is found exactly when no entry grows it |
| Strategy.HasBrackets | src/languages/typescript.ts:114-115 | bracket exclusion applies to exactly three kinds: block, object literal expression and object binding pattern |
| Strategy.ExcludeBrackets | src/languages/typescript.ts:112-124 | the full range is kept exactly when the selection is its inside; otherwise the inside is returned; the result never equals the selection |
| Strategy.ExcludeBracketsMayLoseStart | src/languages/typescript.ts:116-122 | a selection from the opening bracket to one short of the end is grown by the candidate, but the adjusted range does not enclose it |
| Strategy.GrowSelection | src/languages/typescript.ts:88-125 | a grown selection never equals the selection itself, and strictly encloses it when brackets are not excluded |
| Strategy.GrowSelectionSpec | src/languages/typescript.ts:89-125 | no result exactly when no path entry grows the selection; otherwise the innermost growing candidate, bracket-adjusted for bracketed kinds |
| Strategy.GrowSelectionNoneIffNoKeptNodeGrows | src/languages/typescript.ts:89-110 | a selection is dropped exactly when no node containing it offers a growing collapsed range |
| Strategy.PresentIndices | src/languages/typescript.ts:127-128 | the positions of the present results, strictly increasing, all of them; as many as the inputs exactly when every result is present |
| Strategy.PresentBelow | src/languages/typescript.ts:127 | the positions below a bound of the present results, strictly increasing and complete |
| Strategy.CompactBelow | src/languages/typescript.ts:127-128 | the present values below a bound, the k-th one taken from the k-th present position |
| Strategy.Compact | src/languages/typescript.ts:127-128 | the output lists the present values in order, the k-th one taken from the k-th present position |
| Strategy.GrowEach | src/languages/typescript.ts:87-88 | one grow result per selection, in selection order |
| Strategy.GrowOutputs | src/languages/typescript.ts:87-129 | each output is the grow result of the selection at the matching present position, and never equals that selection |
| Strategy.Grow | src/languages/typescript.ts:79-130 | at most one output per selection, in selection order, each the grow result of its selection and never equal to it; as many outputs as selections exactly when every selection grows |
| Scenarios.TemplateCursorScenario | src/languages/typescript.ts:17-23 | in `` `a${b}c` `` a cursor just before `b` grows to `b` |
| Scenarios.TemplateSubstitutionScenario | src/languages/typescript.ts:68-71 | in `` `a${b}c` `` the selection `b` grows to `${b}` |
| Scenarios.SpacedSubstitutionScenario | src/languages/typescript.ts:68-75 | in `` `a${ b }c` `` the span maps to `[2, 7)`, ending at the space before `}`, and `b` grows to `${ b`, leaving out the `}` |
| Scenarios.BracketContentsScenario | src/languages/typescript.ts:119-122 | in `({ x: 1 })` with bracket exclusion, `x: 1` grows to the inside of the braces |
| Scenarios.BracketFullScenario | src/languages/typescript.ts:116-118 | from the inside of the braces the next grow takes the braces |
| Scenarios.NoBracketExclusionScenario | src/languages/typescript.ts:111-112 | without bracket exclusion, `x: 1` grows straight to `{ x: 1 }` |
| Scenarios.WholeFileScenario | src/languages/typescript.ts:108-110 | a selection of the whole file finds no candidate |
| Scenarios.GrowFirstOfTwo | src/languages/typescript.ts:127-129 | of two selections, a first that grows and a second that does not give exactly the first one's result |
| Scenarios.PartialScenario | src/languages/typescript.ts:127-129 | of two selections, only the one that grows yields an output |
| Scenarios.TouchingSiblingsScenario | src/languages/typescript.ts:17-23 | two siblings whose spans touch at the cursor are both on the path |
| Scenarios.AllWhitespaceScenario | src/languages/typescript.ts:34-51 | collapsing `"  "` over `[0, 2)` gives the inverted range `[2, 0)` |

## Left out

- Parsing (`createSourceFile`) and the kind tests `isBlock`, `isTemplateSpan`
  and the others. The tree is an input value, and each node carries a kind
  tag. A template span carries the full width of its literal.
- Editor plumbing: reading the selections and the document text, and
  converting positions to offsets. The text and the offset ranges are
  parameters.
- Offsets are indices into a sequence of characters. The source indexes
  UTF-16 code units, so a character outside the Basic Multilingual Plane
  counts once here and twice there.
- `IsWhitespace` lists the characters of the ECMAScript `\s` class by hand.
  It does not track later Unicode versions.
- The undefined result of `nodeToRange`. Its type allows one, and the grow
  loop skips such a candidate, but the function never returns it. The model
  is total and has no skip branch.
- src/extension.ts: command registration, the active-editor lookup and the
  language-id table are host glue with no algorithmic content.
- src/api.ts: its `Range` shape is `Ranges.Range`. Its `SelectionStrategy`
  interface declares `grow(editor)` and `shrink(editor)`, which does not
  match the strategy's `grow(editor, excludeBrackets)`.
- Shrinking and the selection-history stack. src/extension.ts:10-12 and
  49-55 register a shrink command that calls `strategy.shrink`, but
  `TypescriptStrategy` defines no `shrink`, and no code keeps a selection
  history. There is no shrink behaviour to model.
- Expanding a selection outward over whitespace before the walk. Grow hands
  each selection's offsets to the walk unchanged
  (src/languages/typescript.ts:81-89), so the model has no such step.
