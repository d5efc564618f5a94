/** The parser's output as an immutable tree, and the ancestor-path
    resolver that collects every node whose full span contains a range. */
module SyntaxTree {

  /** The node kinds the engine distinguishes. A template span also carries
      the full width of its literal (the middle or tail token that follows
      the embedded expression). */
  datatype Kind =
    | TemplateHead
    | TemplateMiddle
    | TemplateTail
    | TemplateSpan(literalFullWidth: nat)
    | Block
    | ObjectLiteralExpression
    | ObjectBindingPattern
    | Other

  /** A syntax node: its full start (leading trivia included), its end, and
      its children in source order. */
  datatype Node = Node(kind: Kind, fullStart: int, end: int, children: seq<Node>)

  /** The node's full span `[fullStart, end]` contains `[s, e]`. */
  predicate Contains(n: Node, s: int, e: int) {
    n.fullStart <= s && e <= n.end
  }

  /** Pre-order walk from `n`: a node that contains `[s, e]` is appended and
      its children are visited in order; a node that does not is pruned with
      its whole subtree. */
  function PathToPosition(n: Node, s: int, e: int): (p: seq<Node>)
    ensures forall x :: x in p ==> Contains(x, s, e)
    ensures p == [] <==> !Contains(n, s, e)
    ensures p != [] ==> p[0] == n
    decreases n
  {
    if s < n.fullStart || e > n.end then []
    else [n] + PathOfChildren(n.children, s, e)
  }

  /** The walk over a sequence of siblings, concatenated in order. */
  function PathOfChildren(cs: seq<Node>, s: int, e: int): (p: seq<Node>)
    ensures forall x :: x in p ==> Contains(x, s, e)
    decreases cs
  {
    if cs == [] then []
    else PathToPosition(cs[0], s, e) + PathOfChildren(cs[1..], s, e)
  }

  /** The walk over siblings visits the first sibling's subtree, then the
      rest. */
  lemma PathOfChildrenCons(c: Node, cs: seq<Node>, s: int, e: int)
    ensures PathOfChildren([c] + cs, s, e) == PathToPosition(c, s, e) + PathOfChildren(cs, s, e)
  {
    assert ([c] + cs)[1..] == cs;
  }

  /** Reference definition of the nodes the walk keeps: `x` is reachable
      from `root` along a chain of parent-to-child steps on which every node
      contains `[s, e]`. */
  ghost predicate Kept(root: Node, x: Node, s: int, e: int)
    decreases root
  {
    Contains(root, s, e) && (x == root || exists c :: c in root.children && Kept(c, x, s, e))
  }

  /** A node is on the path exactly when it is kept. */
  lemma {:induction false} PathIsKept(root: Node, x: Node, s: int, e: int)
    ensures x in PathToPosition(root, s, e) <==> Kept(root, x, s, e)
    decreases root
  {
    if Contains(root, s, e) {
      ChildrenPathIsKept(root.children, x, s, e);
    }
  }

  lemma {:induction false} ChildrenPathIsKept(cs: seq<Node>, x: Node, s: int, e: int)
    ensures x in PathOfChildren(cs, s, e) <==> exists c :: c in cs && Kept(c, x, s, e)
    decreases cs
  {
    if cs != [] {
      PathIsKept(cs[0], x, s, e);
      ChildrenPathIsKept(cs[1..], x, s, e);
      var p := PathOfChildren(cs, s, e);
      assert p == PathToPosition(cs[0], s, e) + PathOfChildren(cs[1..], s, e);
      if x in p {
        if x in PathToPosition(cs[0], s, e) {
          assert cs[0] in cs;
        } else {
          var c :| c in cs[1..] && Kept(c, x, s, e);
          assert c in cs;
        }
      }
      if exists c :: c in cs && Kept(c, x, s, e) {
        var c :| c in cs && Kept(c, x, s, e);
        if c != cs[0] {
          assert c in cs[1..];
        }
      }
    }
  }

  /** Entry `j` of `p` has its parent somewhere before it. */
  ghost predicate ParentEarlier(p: seq<Node>, j: int)
    requires 0 <= j < |p|
  {
    exists i :: 0 <= i < j && p[j] in p[i].children
  }

  /** Every entry of the path other than the first (the root) is a child of
      an earlier entry: the walk is pre-order and only descends into nodes
      it kept. */
  lemma {:induction false} PathParentsFirst(n: Node, s: int, e: int)
    ensures forall j :: 0 < j < |PathToPosition(n, s, e)| ==> ParentEarlier(PathToPosition(n, s, e), j)
    decreases n
  {
    var p := PathToPosition(n, s, e);
    if p != [] {
      var q := PathOfChildren(n.children, s, e);
      ChildrenParentsFirst(n.children, s, e);
      assert p == [n] + q;
      forall j | 0 < j < |p|
        ensures ParentEarlier(p, j)
      {
        assert p[j] == q[j - 1];
        if q[j - 1] in n.children {
          assert p[0] == n;
        } else {
          assert ParentEarlier(q, j - 1);
          var i :| 0 <= i < j - 1 && q[j - 1] in q[i].children;
          assert p[i + 1] == q[i];
        }
      }
    }
  }

  lemma {:induction false} ChildrenParentsFirst(cs: seq<Node>, s: int, e: int)
    ensures forall j :: 0 <= j < |PathOfChildren(cs, s, e)| ==>
      PathOfChildren(cs, s, e)[j] in cs || ParentEarlier(PathOfChildren(cs, s, e), j)
    decreases cs
  {
    var q := PathOfChildren(cs, s, e);
    if cs != [] {
      var a := PathToPosition(cs[0], s, e);
      var b := PathOfChildren(cs[1..], s, e);
      PathParentsFirst(cs[0], s, e);
      ChildrenParentsFirst(cs[1..], s, e);
      assert q == a + b;
      forall j | 0 <= j < |q|
        ensures q[j] in cs || ParentEarlier(q, j)
      {
        if j < |a| {
          assert q[j] == a[j];
          if j == 0 {
            assert q[j] == cs[0];
          } else {
            assert ParentEarlier(a, j);
            var i :| 0 <= i < j && a[j] in a[i].children;
            assert q[i] == a[i];
          }
        } else {
          var k := j - |a|;
          assert q[j] == b[k];
          if b[k] in cs[1..] {
            assert q[j] in cs;
          } else {
            assert ParentEarlier(b, k);
            var i :| 0 <= i < k && b[k] in b[i].children;
            assert q[i + |a|] == b[i];
          }
        }
      }
    }
  }
}
