/**
 * `SitemapProcessor.processSitemap` of src/components/SitemapProcessor.js: a `flatMap`
 * recursion that turns the sitemap forest into a flat, pre-order list of records, each
 * carrying the id of the node it was recursed from. A node without a truthy id gets
 * `"f"` followed by the decimal of a 32-bit string hash of its parent's id (or, for a root,
 * of its own page name).
 */
module HashFlatten {
  import opened Wrappers
  import opened Text
  import opened Sitemap

  /** A processed node: `{ id, name, parentId, type }`; a root's parentId is None (`null`). */
  datatype Record = Record(id: string, name: string, parentId: Option<string>, nodeType: string)

  const Uint32Modulus: nat := 0x1_0000_0000

  /**
   * `s.split('').reduce((a, c) => (a * 31 + c.charCodeAt(0)) >>> 0, 0)`: each step
   * multiplies by 31, adds the character code and wraps to an unsigned 32-bit value.
   */
  function Hash(s: string): (h: nat)
    ensures h < Uint32Modulus
  {
    if s == [] then 0 else (Hash(s[..|s| - 1]) * 31 + (s[|s| - 1] as int)) % Uint32Modulus
  }

  /** The same polynomial in 31 over the character codes, computed without any wrapping. */
  function Polynomial(s: string): nat
  {
    if s == [] then 0 else Polynomial(s[..|s| - 1]) * 31 + (s[|s| - 1] as int)
  }

  /** One wrapped step agrees with the unwrapped step, modulo 2^32. */
  lemma ModStep(a: nat, c: nat)
    ensures ((a % Uint32Modulus) * 31 + c) % Uint32Modulus == (a * 31 + c) % Uint32Modulus
  {
    var q := a / Uint32Modulus;
    assert a == q * Uint32Modulus + a % Uint32Modulus;
  }

  /** Wrapping after every step gives the exact polynomial reduced once, modulo 2^32. */
  lemma {:induction false} HashIsPolynomial(s: string)
    ensures Hash(s) == Polynomial(s) % Uint32Modulus
  {
    if s != [] {
      HashIsPolynomial(s[..|s| - 1]);
      ModStep(Polynomial(s[..|s| - 1]), s[|s| - 1] as int);
    }
  }

  /** `node.id || \`f${hash(parentId || node.pageName)}\``: never empty, so always truthy. */
  function AssignedId(node: Node, parentId: Option<string>): (id: string)
    ensures id != ""
    ensures Truthy(node.id) ==> id == node.id.value
    ensures !Truthy(node.id) ==> id[0] == 'f'
  {
    if Truthy(node.id) then node.id.value
    else "f" + NatToString(Hash(if Truthy(parentId) then parentId.value else node.pageName))
  }

  /** `processSitemap(nodes, parentId)`: one record per node, then its descendants' records. */
  function Flatten(nodes: seq<Node>, parentId: Option<string>): (r: seq<Record>)
    ensures |r| == Count(nodes)
    decreases nodes
  {
    if nodes == [] then []
    else
      var node := nodes[0];
      var id := AssignedId(node, parentId);
      [Record(id, node.pageName, parentId, node.nodeType)] + Flatten(node.children, Some(id)) + Flatten(nodes[1..], parentId)
  }

  /** Flattening side-by-side forests under one parent concatenates their results. */
  lemma {:induction false} FlattenAppend(a: seq<Node>, b: seq<Node>, parentId: Option<string>)
    ensures Flatten(a + b, parentId) == Flatten(a, parentId) + Flatten(b, parentId)
  {
    if a != [] {
      assert (a + b)[0] == a[0];
      assert (a + b)[1..] == a[1..] + b;
      FlattenAppend(a[1..], b, parentId);
    } else {
      assert a + b == b;
    }
  }

  /**
   * The k-th record describes the k-th node of the pre-order: same page name, same type,
   * and the node's own id whenever that id is truthy.
   */
  lemma {:induction false} FlattenFollowsPreOrder(nodes: seq<Node>, parentId: Option<string>)
    ensures forall k :: 0 <= k < Count(nodes) ==>
      var rec, node := Flatten(nodes, parentId)[k], Flat(nodes)[k];
      rec.name == node.pageName && rec.nodeType == node.nodeType &&
      (Truthy(node.id) ==> rec.id == node.id.value)
    decreases nodes
  {
    if nodes != [] {
      FlattenFollowsPreOrder(nodes[0].children, Some(AssignedId(nodes[0], parentId)));
      FlattenFollowsPreOrder(nodes[1..], parentId);
    }
  }

  /**
   * The parent link of every record: a record at the roots' depth carries the outer
   * parentId; any deeper record carries the id of its enclosing node, which is the
   * latest earlier record one level up (every record between the two is deeper than it).
   */
  ghost predicate ParentLinked(recs: seq<Record>, vs: seq<Visit>, parentId: Option<string>, depth: nat)
    requires |recs| == |vs|
  {
    forall k :: 0 <= k < |recs| ==> LinkedAt(recs, vs, parentId, depth, k)
  }

  ghost predicate LinkedAt(recs: seq<Record>, vs: seq<Visit>, parentId: Option<string>, depth: nat, k: nat)
    requires k < |recs| == |vs|
  {
    && (vs[k].depth == depth ==> recs[k].parentId == parentId)
    && (vs[k].depth > depth ==> exists j :: 0 <= j < k && Encloses(recs, vs, j, k))
  }

  /** Visit j is the node that visit k was recursed from, and record k points to record j. */
  ghost predicate Encloses(recs: seq<Record>, vs: seq<Visit>, j: nat, k: nat)
    requires j < k < |recs| == |vs|
  {
    && vs[j].depth + 1 == vs[k].depth
    && recs[k].parentId == Some(recs[j].id)
    && DeeperBetween(vs, j, k)
  }

  /** Every visit strictly between j and k is deeper than visit j. */
  ghost predicate DeeperBetween(vs: seq<Visit>, j: nat, k: nat)
    requires j < k <= |vs|
  {
    forall i :: j < i < k ==> vs[i].depth > vs[j].depth
  }

  /** Records of the first root's children block, behind the root record, keep their links. */
  lemma ChildBlockLinked(recs: seq<Record>, vs: seq<Visit>, fc: seq<Record>, vc: seq<Visit>, depth: nat, k: nat)
    requires |fc| == |vc| && |recs| == |vs| && 1 <= k <= |fc| < |recs|
    requires recs[1..|fc| + 1] == fc && vs[1..|vc| + 1] == vc && vs[0].depth == depth
    requires ParentLinked(fc, vc, Some(recs[0].id), depth + 1)
    requires forall i :: 0 <= i < |vc| ==> vc[i].depth >= depth + 1
    ensures exists j :: 0 <= j < k && Encloses(recs, vs, j, k)
  {
    assert recs[k] == fc[k - 1] && vs[k] == vc[k - 1];
    assert LinkedAt(fc, vc, Some(recs[0].id), depth + 1, k - 1);
    if vc[k - 1].depth == depth + 1 {
      forall i | 0 < i < k ensures vs[i].depth > vs[0].depth {
        assert vs[i] == vc[i - 1];
      }
      assert Encloses(recs, vs, 0, k);
    } else {
      var j' :| 0 <= j' < k - 1 && Encloses(fc, vc, j', k - 1);
      assert recs[j' + 1] == fc[j'] && vs[j' + 1] == vc[j'];
      forall i | j' + 1 < i < k ensures vs[i].depth > vs[j' + 1].depth {
        assert vs[i] == vc[i - 1];
      }
      assert Encloses(recs, vs, j' + 1, k);
    }
  }

  /** Records of the remaining roots' block, behind the first root's block, keep their links. */
  lemma RestBlockLinked(recs: seq<Record>, vs: seq<Visit>, fr: seq<Record>, vr: seq<Visit>, n: nat,
                        parentId: Option<string>, depth: nat, k: nat)
    requires |fr| == |vr| && |recs| == |vs| == n + 1 + |fr| && n + 1 <= k < |recs|
    requires recs[n + 1..] == fr && vs[n + 1..] == vr
    requires ParentLinked(fr, vr, parentId, depth)
    ensures LinkedAt(recs, vs, parentId, depth, k)
  {
    var k' := k - 1 - n;
    assert recs[k] == fr[k'] && vs[k] == vr[k'];
    assert LinkedAt(fr, vr, parentId, depth, k');
    if vr[k'].depth > depth {
      var j' :| 0 <= j' < k' && Encloses(fr, vr, j', k');
      var j := j' + 1 + n;
      assert recs[j] == fr[j'] && vs[j] == vr[j'];
      forall i | j < i < k ensures vs[i].depth > vs[j].depth {
        assert vs[i] == vr[i - 1 - n];
      }
      assert Encloses(recs, vs, j, k);
    }
  }

  lemma {:induction false} FlattenParentLinked(nodes: seq<Node>, parentId: Option<string>, depth: nat)
    ensures ParentLinked(Flatten(nodes, parentId), Visits(nodes, depth), parentId, depth)
    decreases nodes
  {
    if nodes != [] {
      var node := nodes[0];
      var id := AssignedId(node, parentId);
      var fc, fr := Flatten(node.children, Some(id)), Flatten(nodes[1..], parentId);
      var vc, vr := Visits(node.children, depth + 1), Visits(nodes[1..], depth);
      var recs, vs := Flatten(nodes, parentId), Visits(nodes, depth);
      var n := |fc|;
      assert recs == [Record(id, node.pageName, parentId, node.nodeType)] + fc + fr;
      assert vs == [Visit(node, depth)] + vc + vr;
      assert recs[1..n + 1] == fc && vs[1..n + 1] == vc;
      assert recs[n + 1..] == fr && vs[n + 1..] == vr;
      FlattenParentLinked(node.children, Some(id), depth + 1);
      FlattenParentLinked(nodes[1..], parentId, depth);
      VisitsDepthBound(node.children, depth + 1);
      forall k | 0 <= k < |recs|
        ensures LinkedAt(recs, vs, parentId, depth, k)
      {
        if 1 <= k <= n {
          ChildBlockLinked(recs, vs, fc, vc, depth, k);
          assert vs[k] == vc[k - 1];
        } else if k > n {
          RestBlockLinked(recs, vs, fr, vr, n, parentId, depth, k);
        }
      }
    }
  }

  /** Every record of a top-level flatten either is a root (parentId null) or points to an earlier record. */
  lemma ParentPrecedes(nodes: seq<Node>)
    ensures forall k :: 0 <= k < Count(nodes) ==>
      var recs := Flatten(nodes, None);
      recs[k].parentId.None? ||
      exists j :: 0 <= j < k && recs[j].id == recs[k].parentId.value
  {
    var recs, vs := Flatten(nodes, None), Visits(nodes, 0);
    FlattenParentLinked(nodes, None, 0);
    forall k | 0 <= k < |recs| && recs[k].parentId.Some?
      ensures exists j :: 0 <= j < k && recs[j].id == recs[k].parentId.value
    {
      assert LinkedAt(recs, vs, None, 0, k);
      assert vs[k].depth != 0;
      var j :| 0 <= j < k && Encloses(recs, vs, j, k);
    }
  }

  /** Two id-less siblings under the same (truthy) parent are given the same id, whatever their names. */
  lemma IdlessSiblingsCollide(a: Node, b: Node, parentId: Option<string>)
    requires !Truthy(a.id) && !Truthy(b.id) && Truthy(parentId)
    ensures AssignedId(a, parentId) == AssignedId(b, parentId)
  {
  }

  /** A one-page forest with two id-less folders: both folder records get the same id. */
  lemma IdlessSiblingsExample()
    ensures
      var recs := Flatten([Node(Some("r"), "Root", "Wireframe", None,
                                [Node(None, "A", "Folder", None, []), Node(None, "B", "Folder", None, [])])], None);
      |recs| == 3 && recs[1].name != recs[2].name && recs[1].id == recs[2].id
  {
    var a, b := Node(None, "A", "Folder", None, []), Node(None, "B", "Folder", None, []);
    var id := AssignedId(a, Some("r"));
    assert Flatten([b], Some("r")) == [Record(id, "B", Some("r"), "Folder")];
    assert Flatten([a, b], Some("r")) == [Record(id, "A", Some("r"), "Folder"), Record(id, "B", Some("r"), "Folder")];
  }

  /** The two-page forest `Home > About`: records in pre-order, linked by parentId. */
  lemma HomeAboutExample()
    ensures
      var about := Node(Some("2"), "About", "page", None, []);
      Flatten([Node(Some("1"), "Home", "page", None, [about])], None) ==
        [Record("1", "Home", None, "page"), Record("2", "About", Some("1"), "page")]
  {
  }
}
