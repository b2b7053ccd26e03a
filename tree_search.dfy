/**
 * The two sitemap searches of the start-here flow: `findCurrentNode`, the first node in
 * pre-order with a given id, and `findNodeByUrl`, the id of the first node whose page url
 * (with `.html` removed) is the page parameter. Both are `for…of` loops over one level that
 * recurse into `children` and return early.
 */
module TreeSearch {
  import opened Wrappers
  import opened Text
  import opened Sitemap

  /** The first node of a pre-order listing whose id is id (`===` on an optional string). */
  function FirstWithId(flat: seq<Node>, id: Option<string>): Option<Node>
  {
    if flat == [] then None
    else if flat[0].id == id then Some(flat[0])
    else FirstWithId(flat[1..], id)
  }

  /** Position k holds the first node of a pre-order listing whose id is id. */
  predicate FirstAt(flat: seq<Node>, id: Option<string>, k: nat)
  {
    k < |flat| && flat[k].id == id && forall j :: 0 <= j < k ==> flat[j].id != id
  }

  /** FirstWithId finds nothing exactly when no node has the id, and otherwise the earliest one that has it. */
  lemma {:induction false} FirstWithIdMeaning(flat: seq<Node>, id: Option<string>)
    ensures FirstWithId(flat, id).None? <==> forall k :: 0 <= k < |flat| ==> flat[k].id != id
    ensures FirstWithId(flat, id).Some? ==>
      exists k :: 0 <= k < |flat| && flat[k] == FirstWithId(flat, id).value && flat[k].id == id &&
                  forall j :: 0 <= j < k ==> flat[j].id != id
  {
    if flat != [] && flat[0].id != id {
      FirstWithIdMeaning(flat[1..], id);
      forall k | 1 <= k < |flat| ensures flat[k] == flat[1..][k - 1] {
      }
      if FirstWithId(flat[1..], id).Some? {
        var k :| 0 <= k < |flat[1..]| && flat[1..][k] == FirstWithId(flat, id).value && flat[1..][k].id == id &&
                  forall j :: 0 <= j < k ==> flat[1..][j].id != id;
        assert flat[k + 1] == FirstWithId(flat, id).value;
        forall j | 0 <= j < k + 1 ensures flat[j].id != id {
          if j > 0 {
            assert flat[j] == flat[1..][j - 1];
          }
        }
      }
    }
  }

  /** Searching two listings one after the other finds the first's match, or else the second's. */
  lemma {:induction false} FirstWithIdAppend(a: seq<Node>, b: seq<Node>, id: Option<string>)
    ensures FirstWithId(a + b, id) == if FirstWithId(a, id).Some? then FirstWithId(a, id) else FirstWithId(b, id)
  {
    if a == [] {
      assert a + b == b;
    } else {
      assert (a + b)[0] == a[0];
      assert (a + b)[1..] == a[1..] + b;
      FirstWithIdAppend(a[1..], b, id);
    }
  }

  /** The pre-order of a forest from position i: the node there, its descendants, then the later siblings. */
  lemma FlatFrom(nodes: seq<Node>, i: nat)
    requires i < |nodes|
    ensures Flat(nodes[i..]) == [nodes[i]] + (Flat(nodes[i].children) + Flat(nodes[i + 1..]))
  {
    assert nodes[i..][0] == nodes[i];
    assert nodes[i..][1..] == nodes[i + 1..];
    AppendAssoc([nodes[i]], Flat(nodes[i].children), Flat(nodes[i + 1..]));
  }

  /** `findCurrentNode(nodes, currentId)`: the first node in pre-order whose id is currentId, or null. */
  method FindCurrentNode(nodes: seq<Node>, currentId: Option<string>) returns (r: Option<Node>)
    ensures r == FirstWithId(Flat(nodes), currentId)
    decreases nodes
  {
    assert nodes[0..] == nodes;
    for i := 0 to |nodes|
      invariant FirstWithId(Flat(nodes), currentId) == FirstWithId(Flat(nodes[i..]), currentId)
    {
      var node := nodes[i];
      FlatFrom(nodes, i);
      if node.id == currentId {
        return Some(node);
      }
      var rest := Flat(node.children) + Flat(nodes[i + 1..]);
      assert ([node] + rest)[1..] == rest;
      FirstWithIdAppend(Flat(node.children), Flat(nodes[i + 1..]), currentId);
      if node.children != [] {
        var found := FindCurrentNode(node.children, currentId);
        if found.Some? {
          return found;
        }
      }
    }
    assert nodes[|nodes|..] == [];
    return None;
  }

  /** `node.url && node.url.replace(".html", "") === pageParam`. */
  predicate UrlMatch(n: Node, pageParam: string)
  {
    Truthy(n.url) && RemoveFirst(n.url.value, ".html") == pageParam
  }

  /**
   * What `findNodeByUrl` returns at one level: a matching node's id as it is (even an absent
   * or empty one), or else a truthy id found among its children, or else the answer for the
   * later siblings; None is `null` or `undefined`.
   */
  function UrlLookup(nodes: seq<Node>, pageParam: string): Option<string>
    decreases nodes
  {
    if nodes == [] then None
    else if UrlMatch(nodes[0], pageParam) then nodes[0].id
    else
      var found := UrlLookup(nodes[0].children, pageParam);
      if Truthy(found) then found else UrlLookup(nodes[1..], pageParam)
  }

  /** `findNodeByUrl(nodes)`: the loop over one level with early returns and recursion into children. */
  method FindNodeByUrl(nodes: seq<Node>, pageParam: string) returns (r: Option<string>)
    ensures r == UrlLookup(nodes, pageParam)
    decreases nodes
  {
    assert nodes[0..] == nodes;
    for i := 0 to |nodes|
      invariant UrlLookup(nodes, pageParam) == UrlLookup(nodes[i..], pageParam)
    {
      var node := nodes[i];
      assert nodes[i..][0] == node;
      assert nodes[i..][1..] == nodes[i + 1..];
      if node.url.Some? && node.url.value != "" && RemoveFirst(node.url.value, ".html") == pageParam {
        return node.id;
      }
      if node.children != [] {
        var found := FindNodeByUrl(node.children, pageParam);
        if found.Some? && found.value != "" {
          return found;
        }
      }
    }
    return None;
  }

  /** None of the first k nodes of a pre-order listing has a matching url. */
  predicate NoUrlMatchBefore(flat: seq<Node>, pageParam: string, k: nat)
    requires k <= |flat|
  {
    forall j :: 0 <= j < k ==> !UrlMatch(flat[j], pageParam)
  }

  /** The pre-order of a non-empty forest splits into its first node, that node's descendants and the rest. */
  lemma FlatParts(nodes: seq<Node>, k: nat)
    requires nodes != [] && k < Count(nodes)
    ensures var n, c := nodes[0], Count(nodes[0].children);
      && (k == 0 ==> Flat(nodes)[k] == n)
      && (0 < k <= c ==> Flat(nodes)[k] == Flat(n.children)[k - 1])
      && (c < k ==> Flat(nodes)[k] == Flat(nodes[1..])[k - 1 - c])
  {
  }

  /** A match-free start of a forest's listing gives a match-free start of its first node's descendants. */
  lemma ChildrenBefore(nodes: seq<Node>, pageParam: string, m: nat)
    requires nodes != [] && m <= Count(nodes[0].children)
    requires NoUrlMatchBefore(Flat(nodes), pageParam, m + 1)
    ensures NoUrlMatchBefore(Flat(nodes[0].children), pageParam, m)
  {
    forall j | 0 <= j < m ensures !UrlMatch(Flat(nodes[0].children)[j], pageParam) {
      FlatParts(nodes, j + 1);
    }
  }

  /** The same for the later siblings, past the first node and its descendants. */
  lemma RestBefore(nodes: seq<Node>, pageParam: string, m: nat)
    requires nodes != [] && m <= Count(nodes[1..])
    requires NoUrlMatchBefore(Flat(nodes), pageParam, 1 + Count(nodes[0].children) + m)
    ensures NoUrlMatchBefore(Flat(nodes[1..]), pageParam, m)
  {
    var c := Count(nodes[0].children);
    forall j | 0 <= j < m ensures !UrlMatch(Flat(nodes[1..])[j], pageParam) {
      FlatParts(nodes, j + 1 + c);
    }
  }

  /** Without a matching url anywhere, `findNodeByUrl` returns null. */
  lemma {:induction false} UrlLookupNone(nodes: seq<Node>, pageParam: string)
    requires NoUrlMatchBefore(Flat(nodes), pageParam, Count(nodes))
    ensures UrlLookup(nodes, pageParam) == None
    decreases nodes
  {
    if nodes != [] {
      var c := Count(nodes[0].children);
      FlatParts(nodes, 0);
      ChildrenBefore(nodes, pageParam, c);
      RestBefore(nodes, pageParam, Count(nodes[1..]));
      UrlLookupNone(nodes[0].children, pageParam);
      UrlLookupNone(nodes[1..], pageParam);
    }
  }

  /**
   * When the first node in pre-order with a matching url has a truthy id, `findNodeByUrl`
   * returns that id.
   */
  lemma {:induction false} UrlLookupFirst(nodes: seq<Node>, pageParam: string, k: nat)
    requires k < Count(nodes)
    requires UrlMatch(Flat(nodes)[k], pageParam) && Truthy(Flat(nodes)[k].id)
    requires NoUrlMatchBefore(Flat(nodes), pageParam, k)
    ensures UrlLookup(nodes, pageParam) == Flat(nodes)[k].id
    decreases nodes
  {
    var n, c := nodes[0], Count(nodes[0].children);
    FlatParts(nodes, k);
    if k > 0 {
      FlatParts(nodes, 0);
      assert !UrlMatch(n, pageParam);
      if k <= c {
        ChildrenBefore(nodes, pageParam, k - 1);
        UrlLookupFirst(n.children, pageParam, k - 1);
      } else {
        ChildrenBefore(nodes, pageParam, c);
        UrlLookupNone(n.children, pageParam);
        RestBefore(nodes, pageParam, k - 1 - c);
        UrlLookupFirst(nodes[1..], pageParam, k - 1 - c);
      }
    }
  }

  /** A truthy answer of `findNodeByUrl` is the id of some node whose url matches. */
  lemma {:induction false} UrlLookupFound(nodes: seq<Node>, pageParam: string)
    requires Truthy(UrlLookup(nodes, pageParam))
    ensures exists k :: 0 <= k < Count(nodes) && UrlMatch(Flat(nodes)[k], pageParam) &&
                        Flat(nodes)[k].id == UrlLookup(nodes, pageParam)
    decreases nodes
  {
    var n, c := nodes[0], Count(nodes[0].children);
    FlatParts(nodes, 0);
    if !UrlMatch(n, pageParam) {
      var found := UrlLookup(n.children, pageParam);
      if Truthy(found) {
        UrlLookupFound(n.children, pageParam);
        var k :| 0 <= k < c && UrlMatch(Flat(n.children)[k], pageParam) && Flat(n.children)[k].id == found;
        FlatParts(nodes, k + 1);
      } else {
        var r := UrlLookup(nodes[1..], pageParam);
        UrlLookupFound(nodes[1..], pageParam);
        var k :| 0 <= k < Count(nodes[1..]) && UrlMatch(Flat(nodes[1..])[k], pageParam) && Flat(nodes[1..])[k].id == r;
        FlatParts(nodes, k + 1 + c);
      }
    }
  }
}
