/**
 * The host's sitemap: a forest of page and folder nodes (`$axure.document.sitemap.rootNodes`),
 * and its depth-first, left-to-right pre-order, which every flattener and exporter follows.
 */
module Sitemap {
  import opened Wrappers

  /**
   * A sitemap node as the host supplies it. An absent `id` or `url` is None (JavaScript
   * `undefined`); an absent `children` array is the empty sequence, which every traversal
   * treats exactly as an absent one.
   */
  datatype Node = Node(id: Option<string>, pageName: string, nodeType: string, url: Option<string>, children: seq<Node>)

  /** JavaScript truthiness of an optional string: present and not empty. */
  predicate Truthy(s: Option<string>)
  {
    s.Some? && s.value != ""
  }

  /** The number of nodes of a forest, at every depth. */
  function Count(nodes: seq<Node>): nat
    decreases nodes
  {
    if nodes == [] then 0 else 1 + Count(nodes[0].children) + Count(nodes[1..])
  }

  /** The nodes of a forest in pre-order: each node, then its descendants, then its next sibling. */
  function Flat(nodes: seq<Node>): (r: seq<Node>)
    ensures |r| == Count(nodes)
    decreases nodes
  {
    if nodes == [] then [] else [nodes[0]] + Flat(nodes[0].children) + Flat(nodes[1..])
  }

  /** A node met by a traversal, with its depth (the depth of the forest's roots is the start depth). */
  datatype Visit = Visit(node: Node, depth: nat)

  /** The pre-order of a forest whose roots are at depth `depth`, each node with its depth. */
  function Visits(nodes: seq<Node>, depth: nat): (r: seq<Visit>)
    ensures |r| == Count(nodes)
    decreases nodes
  {
    if nodes == [] then []
    else [Visit(nodes[0], depth)] + Visits(nodes[0].children, depth + 1) + Visits(nodes[1..], depth)
  }

  /** The pre-order of two forests side by side is the first's followed by the second's. */
  lemma {:induction false} FlatAppend(a: seq<Node>, b: seq<Node>)
    ensures Flat(a + b) == Flat(a) + Flat(b)
    ensures Count(a + b) == Count(a) + Count(b)
  {
    if a != [] {
      assert (a + b)[0] == a[0];
      assert (a + b)[1..] == a[1..] + b;
      FlatAppend(a[1..], b);
      AppendAssoc([a[0]] + Flat(a[0].children), Flat(a[1..]), Flat(b));
    } else {
      assert a + b == b;
    }
  }

  /** The same for the pre-order with depths. */
  lemma {:induction false} VisitsAppend(a: seq<Node>, b: seq<Node>, depth: nat)
    ensures Visits(a + b, depth) == Visits(a, depth) + Visits(b, depth)
  {
    if a != [] {
      assert (a + b)[0] == a[0];
      assert (a + b)[1..] == a[1..] + b;
      VisitsAppend(a[1..], b, depth);
      AppendAssoc([Visit(a[0], depth)] + Visits(a[0].children, depth + 1), Visits(a[1..], depth), Visits(b, depth));
    } else {
      assert a + b == b;
    }
  }

  lemma AppendAssoc<T>(a: seq<T>, b: seq<T>, c: seq<T>)
    ensures (a + b) + c == a + (b + c)
  {
  }

  /** The pre-order with depths lists exactly the nodes of Flat, position by position. */
  lemma {:induction false} VisitsAreFlat(nodes: seq<Node>, depth: nat)
    ensures forall k :: 0 <= k < Count(nodes) ==> Visits(nodes, depth)[k].node == Flat(nodes)[k]
    decreases nodes
  {
    if nodes != [] {
      VisitsAreFlat(nodes[0].children, depth + 1);
      VisitsAreFlat(nodes[1..], depth);
    }
  }

  /** Every depth in the pre-order is at least the start depth. */
  lemma {:induction false} VisitsDepthBound(nodes: seq<Node>, depth: nat)
    ensures forall k :: 0 <= k < Count(nodes) ==> Visits(nodes, depth)[k].depth >= depth
    decreases nodes
  {
    if nodes != [] {
      VisitsDepthBound(nodes[0].children, depth + 1);
      VisitsDepthBound(nodes[1..], depth);
    }
  }
}
