/**
 Deep copy of a YAML node graph on the heap. Nodes may be shared and, through aliases, may form cycles; the table of
 copies made so far both preserves sharing and makes the recursion stop.
 */
module NodeCopy {

  class Node {
    var kind: int
    var tag: string
    var value: string
    var style: int
    var comments: string
    var alias: Node?
    var content: seq<Node?>

    constructor ShallowCopy(n: Node)
      ensures SameScalars(n, this) && alias == n.alias && content == n.content
    {
      kind, tag, value, style, comments := n.kind, n.tag, n.value, n.style, n.comments;
      alias, content := n.alias, n.content;
    }
  }

  predicate SameScalars(a: Node, b: Node)
    reads a, b
  {
    a.kind == b.kind && a.tag == b.tag && a.value == b.value && a.style == b.style && a.comments == b.comments
  }

  /** Every edge of a node of the graph stays in the graph. */
  ghost predicate Closed(graph: set<Node>)
    reads graph
  {
    forall x :: x in graph ==>
      && (x.alias == null || x.alias in graph)
      && forall i :: 0 <= i < |x.content| ==> x.content[i] == null || x.content[i] in graph
  }

  type Copies = map<Node, Node>

  ghost predicate Injective(copies: Copies) {
    forall x, y :: x in copies && y in copies && copies[x] == copies[y] ==> x == y
  }

  /** The edge to `x` corresponds to the edge to `y`. */
  ghost predicate Corresponds(copies: Copies, x: Node?, y: Node?) {
    if x == null then y == null else x in copies && y == copies[x]
  }

  /**
   The copy of `x` has the fields of `x`, and its edges lead to the copies of the nodes that the edges of `x` lead to.
   */
  ghost predicate Mirrors(copies: Copies, x: Node)
    requires x in copies
    reads x, copies[x]
  {
    var y := copies[x];
    && SameScalars(x, y)
    && Corresponds(copies, x.alias, y.alias)
    && |y.content| == |x.content|
    && forall i :: 0 <= i < |x.content| ==> Corresponds(copies, x.content[i], y.content[i])
  }

  /** A table of copies of part of the graph; the copies of the `open` nodes are still being filled in. */
  ghost predicate Table(graph: set<Node>, copies: Copies, open: set<Node>)
    reads graph, copies.Values
  {
    && copies.Keys <= graph && copies.Values !! graph && Injective(copies)
    && forall x :: x in copies && x !in open ==> x in graph && copies[x] in copies.Values && Mirrors(copies, x)
  }

  ghost predicate Extends(copies': Copies, copies: Copies) {
    copies.Keys <= copies'.Keys && forall x :: x in copies ==> copies'[x] == copies[x]
  }

  lemma TableFacts(graph: set<Node>, copies: Copies, open: set<Node>)
    requires Table(graph, copies, open)
    ensures copies.Keys <= graph && forall x :: x in copies ==> copies[x] in copies.Values && copies[x] !in graph
  {
  }

  method DeepCopySeen(n: Node?, seen: Copies, ghost graph: set<Node>, ghost open: set<Node>)
    returns (cp: Node?, seen': Copies)
    requires Closed(graph) && (n == null || n in graph)
    requires Table(graph, seen, open) && open <= seen.Keys
    ensures Table(graph, seen', open) && Extends(seen', seen)
    ensures Corresponds(seen', n, cp)
    ensures forall x :: x in seen' && x !in seen ==> fresh(seen'[x])
    decreases graph - seen.Keys, 0
  {
    if n == null {
      return null, seen;
    }
    if n in seen {
      return seen[n], seen;
    }
    var copy := new Node.ShallowCopy(n);
    seen' := seen[n := copy];
    assert n in graph - seen.Keys && n !in graph - seen'.Keys;
    seen' := FillIn(n, copy, seen', graph, open + {n});
    assert forall x :: x in seen' && x !in open && x != n ==> Mirrors(seen', x);
    return copy, seen';
  }

  /** Fills in the edges of the copy of `n`. */
  method FillIn(n: Node, copy: Node, seen: Copies, ghost graph: set<Node>, ghost open: set<Node>)
    returns (seen': Copies)
    requires Closed(graph) && Table(graph, seen, open) && open <= seen.Keys
    requires n in open && seen[n] == copy
    requires SameScalars(n, copy) && copy.alias == n.alias && copy.content == n.content
    modifies copy
    ensures Table(graph, seen', open) && Extends(seen', seen) && Mirrors(seen', n)
    ensures forall x :: x in seen' && x !in seen ==> fresh(seen'[x])
    decreases graph - seen.Keys, 2
  {
    seen' := seen;
    if n.alias != null {
      var target;
      target, seen' := DeepCopySeen(n.alias, seen', graph, open);
      SetAlias(copy, target, n, seen', graph, open);
    }
    if |n.content| > 0 {
      seen' := FillContent(n, copy, seen', graph, open);
    }
  }

  method FillContent(n: Node, copy: Node, seen: Copies, ghost graph: set<Node>, ghost open: set<Node>)
    returns (seen': Copies)
    requires Closed(graph) && Table(graph, seen, open) && open <= seen.Keys
    requires n in open && seen[n] == copy
    modifies copy`content
    ensures Table(graph, seen', open) && Extends(seen', seen)
    ensures |copy.content| == |n.content|
    ensures forall i :: 0 <= i < |n.content| ==> Corresponds(seen', n.content[i], copy.content[i])
    ensures forall x :: x in seen' && x !in seen ==> fresh(seen'[x])
    decreases graph - seen.Keys, 1
  {
    seen' := seen;
    SetContent(copy, seq(|n.content|, i => null), n, seen, graph, open);
    for i := 0 to |n.content|
      invariant Table(graph, seen', open) && Extends(seen', seen)
      invariant |copy.content| == |n.content|
      invariant forall j :: 0 <= j < i ==> Corresponds(seen', n.content[j], copy.content[j])
      invariant forall x :: x in seen' && x !in seen ==> fresh(seen'[x])
    {
      var child;
      child, seen' := DeepCopySeen(n.content[i], seen', graph, open);
      SetContent(copy, copy.content[i := child], n, seen', graph, open);
    }
  }

  method SetAlias(copy: Node, alias: Node?, ghost n: Node, ghost copies: Copies, ghost graph: set<Node>,
                  ghost open: set<Node>)
    requires Table(graph, copies, open) && n in open && n in copies && copies[n] == copy
    modifies copy`alias
    ensures copy.alias == alias && Table(graph, copies, open) && copy !in graph
  {
    TableFacts(graph, copies, open);
    copy.alias := alias;
    forall x | x in copies && x !in open ensures Mirrors(copies, x) {
      assert old(Mirrors(copies, x));
      assert copies[x] != copies[n];
    }
  }

  method SetContent(copy: Node, content: seq<Node?>, ghost n: Node, ghost copies: Copies, ghost graph: set<Node>,
                    ghost open: set<Node>)
    requires Table(graph, copies, open) && n in open && n in copies && copies[n] == copy
    modifies copy`content
    ensures copy.content == content && Table(graph, copies, open) && copy !in graph
  {
    TableFacts(graph, copies, open);
    copy.content := content;
    forall x | x in copies && x !in open ensures Mirrors(copies, x) {
      assert old(Mirrors(copies, x));
      assert copies[x] != copies[n];
    }
  }

  /** Everything a node leads to. */
  ghost predicate Contains(graph: set<Node>, n: Node)
    reads graph
  {
    n in graph && Closed(graph)
  }

  /**
   The copy of a graph. `graph` is any finite set around `n` that is closed under links, such as the set of nodes
   reachable from `n`. The copied nodes contain `n`, are closed under links and lie in `graph`, so they contain
   everything reachable from `n`, and nothing else if `graph` is that set. The copy is isomorphic to them and made
   of new nodes only. Nothing that existed before changes, since the method modifies nothing.
   */
  method DeepCopyNode(n: Node, ghost graph: set<Node>) returns (cp: Node, ghost copies: Copies)
    requires Contains(graph, n)
    ensures n in copies && cp == copies[n]
    ensures copies.Keys <= graph && Closed(copies.Keys) && Injective(copies)
    ensures forall x :: x in copies ==> fresh(copies[x]) && Mirrors(copies, x)
  {
    var r, seen := DeepCopySeen(n, map[], graph, {});
    cp, copies := r, seen;
    assert forall x :: x in copies ==> Mirrors(copies, x);
  }
}
