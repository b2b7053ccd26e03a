/**
 * The level-carrying `processSitemap` shared, line for line, by axure-to-mermaid.js,
 * axure-to-mermaid-injected.js and `SitemapProcessor` in dist/axure-to-mermaid-injected.js:
 * a recursion that pushes one record per node onto a shared accumulator, in pre-order,
 * with the node's depth as `level` (roots at 1) and the enclosing node's id as `parentId`.
 * A node without a truthy id gets `folder_` followed by a random suffix; the suffixes are a
 * parameter here, indexed by the position at which the record is pushed.
 */
module LevelFlatten {
  import opened Wrappers
  import opened Sitemap

  /** A processed node: `{ id, name, level, parentId, type }`. */
  datatype LevelRecord = LevelRecord(id: string, name: string, level: nat, parentId: Option<string>, nodeType: string)

  const FolderPrefix: string := "folder_"

  /** `node.id || \`folder_${random}\``, the random part being `supply(pos)`. */
  function LevelId(node: Node, pos: nat, supply: nat -> string): (id: string)
    ensures id != ""
    ensures Truthy(node.id) ==> id == node.id.value
    ensures !Truthy(node.id) ==> id == FolderPrefix + supply(pos)
  {
    if Truthy(node.id) then node.id.value else FolderPrefix + supply(pos)
  }

  /** A forest's node count, split before its last root. */
  lemma CountSnoc(nodes: seq<Node>)
    requires nodes != []
    ensures Count(nodes) == Count(nodes[..|nodes| - 1]) + 1 + Count(nodes[|nodes| - 1].children)
  {
    var last := nodes[|nodes| - 1];
    assert nodes == nodes[..|nodes| - 1] + [last];
    FlatAppend(nodes[..|nodes| - 1], [last]);
    assert [last][1..] == [];
  }

  /**
   * The records `processSitemap(nodes, level, parentId, result)` appends to an accumulator
   * that already holds `start` records: the records of every root but the last, then the
   * last root's records, pushed from the position where the others stop.
   */
  function Flatten(nodes: seq<Node>, level: nat, parentId: Option<string>, start: nat, supply: nat -> string): (r: seq<LevelRecord>)
    ensures |r| == Count(nodes)
    decreases nodes
  {
    if nodes == [] then []
    else
      CountSnoc(nodes);
      var fp := Flatten(nodes[..|nodes| - 1], level, parentId, start, supply);
      fp + FlattenNode(nodes[|nodes| - 1], level, parentId, start + |fp|, supply)
  }

  /** The records of one node pushed at position `start`: its own, then its descendants' one level deeper. */
  function FlattenNode(node: Node, level: nat, parentId: Option<string>, start: nat, supply: nat -> string): (r: seq<LevelRecord>)
    ensures |r| == 1 + Count(node.children)
    decreases node
  {
    var id := LevelId(node, start, supply);
    [LevelRecord(id, node.pageName, level, parentId, node.nodeType)] +
      Flatten(node.children, level + 1, Some(id), start + 1, supply)
  }

  /** A forest with one more root: that root's records follow, pushed from position `mid` where the others stop. */
  lemma FlattenSnoc(prefix: seq<Node>, last: Node, level: nat, parentId: Option<string>, start: nat, mid: nat,
                    supply: nat -> string)
    requires mid == start + |Flatten(prefix, level, parentId, start, supply)|
    ensures Flatten(prefix + [last], level, parentId, start, supply) ==
      Flatten(prefix, level, parentId, start, supply) + FlattenNode(last, level, parentId, mid, supply)
  {
    var s := prefix + [last];
    assert s[..|s| - 1] == prefix && s[|s| - 1] == last;
  }

  /** The same, for the first i + 1 roots of a forest. */
  lemma FlattenTake(nodes: seq<Node>, i: nat, level: nat, parentId: Option<string>, start: nat, mid: nat,
                    supply: nat -> string)
    requires i < |nodes| && mid == start + |Flatten(nodes[..i], level, parentId, start, supply)|
    ensures Flatten(nodes[..i + 1], level, parentId, start, supply) ==
      Flatten(nodes[..i], level, parentId, start, supply) + FlattenNode(nodes[i], level, parentId, mid, supply)
  {
    assert nodes[..i + 1] == nodes[..i] + [nodes[i]];
    FlattenSnoc(nodes[..i], nodes[i], level, parentId, start, mid, supply);
  }

  /** The accumulator after one more root's records is the accumulator for one more root. */
  lemma ForEachStep(nodes: seq<Node>, i: nat, level: nat, parentId: Option<string>, result: seq<LevelRecord>,
                    pre: seq<LevelRecord>, supply: nat -> string)
    requires i < |nodes| && pre == result + Flatten(nodes[..i], level, parentId, |result|, supply)
    ensures pre + FlattenNode(nodes[i], level, parentId, |pre|, supply) ==
      result + Flatten(nodes[..i + 1], level, parentId, |result|, supply)
  {
    var fp := Flatten(nodes[..i], level, parentId, |result|, supply);
    FlattenTake(nodes, i, level, parentId, |result|, |pre|, supply);
    AppendAssoc(result, fp, FlattenNode(nodes[i], level, parentId, |pre|, supply));
  }

  /** Pushing a node's record at the end of `pre` and then its descendants' records appends the node's records. */
  lemma PushStep(node: Node, level: nat, parentId: Option<string>, pre: seq<LevelRecord>, post: seq<LevelRecord>,
                 supply: nat -> string)
    requires var id := LevelId(node, |pre|, supply);
      var pushed := pre + [LevelRecord(id, node.pageName, level, parentId, node.nodeType)];
      post == pushed + Flatten(node.children, level + 1, Some(id), |pushed|, supply)
    ensures post == pre + FlattenNode(node, level, parentId, |pre|, supply)
  {
  }

  /**
   * `processSitemap(nodes, level, parentId, result)`: for each node, pushes its record and
   * recurses into its children; `result` is the accumulator, returned grown.
   */
  method ProcessSitemap(nodes: seq<Node>, level: nat, parentId: Option<string>, result: seq<LevelRecord>,
                        supply: nat -> string) returns (r: seq<LevelRecord>)
    ensures r == result + Flatten(nodes, level, parentId, |result|, supply)
    decreases nodes
  {
    r := result;
    for i := 0 to |nodes|
      invariant r == result + Flatten(nodes[..i], level, parentId, |result|, supply)
    {
      var node := nodes[i];
      ghost var pre := r;
      var nodeId := LevelId(node, |r|, supply);
      r := r + [LevelRecord(nodeId, node.pageName, level, parentId, node.nodeType)];
      if node.children != [] {
        r := ProcessSitemap(node.children, level + 1, Some(nodeId), r, supply);
      }
      PushStep(node, level, parentId, pre, r, supply);
      ForEachStep(nodes, i, level, parentId, result, pre, supply);
    }
    assert nodes[..|nodes|] == nodes;
  }

  /** Record rec is the one pushed for visit v at accumulator position pos. */
  predicate Describes(rec: LevelRecord, v: Visit, pos: nat, supply: nat -> string)
  {
    && rec.name == v.node.pageName && rec.nodeType == v.node.nodeType
    && rec.level == v.depth
    && rec.id == LevelId(v.node, pos, supply)
  }

  /** The record at position k of a forest's records, pushed at position pos, describes the visit at position k. */
  lemma {:induction false} FlattenDescribes(nodes: seq<Node>, level: nat, parentId: Option<string>,
                                            start: nat, supply: nat -> string, k: nat, pos: nat)
    requires k < Count(nodes) && pos == start + k
    ensures Describes(Flatten(nodes, level, parentId, start, supply)[k], Visits(nodes, level)[k], pos, supply)
    decreases nodes, 1
  {
    var prefix, last := nodes[..|nodes| - 1], nodes[|nodes| - 1];
    assert nodes == prefix + [last];
    CountSnoc(nodes);
    if k < Count(prefix) {
      FlattenDescribes(prefix, level, parentId, start, supply, k, pos);
      DescribesInPrefix(prefix, last, level, parentId, start, supply, k, pos);
    } else {
      var mid := start + Count(prefix);
      NodeDescribes(last, level, parentId, mid, supply, k - Count(prefix), pos);
      DescribesInLast(prefix, last, level, parentId, start, mid, supply, k, k - Count(prefix), pos);
    }
  }

  /** A record of the older roots keeps its description when one more root follows. */
  lemma DescribesInPrefix(prefix: seq<Node>, last: Node, level: nat, parentId: Option<string>,
                          start: nat, supply: nat -> string, k: nat, pos: nat)
    requires k < Count(prefix)
    requires Describes(Flatten(prefix, level, parentId, start, supply)[k], Visits(prefix, level)[k], pos, supply)
    ensures Describes(Flatten(prefix + [last], level, parentId, start, supply)[k], Visits(prefix + [last], level)[k], pos, supply)
  {
    var fp := Flatten(prefix, level, parentId, start, supply);
    VisitsAppend(prefix, [last], level);
    FlattenSnoc(prefix, last, level, parentId, start, start + |fp|, supply);
    DescribesSplit(Flatten(prefix + [last], level, parentId, start, supply), Visits(prefix + [last], level),
                   fp, FlattenNode(last, level, parentId, start + |fp|, supply), Visits(prefix, level), Visits([last], level),
                   k, pos, supply);
  }

  /** A record of the new root, at offset j behind the older roots' records, describes its visit. */
  lemma DescribesInLast(prefix: seq<Node>, last: Node, level: nat, parentId: Option<string>,
                        start: nat, mid: nat, supply: nat -> string, k: nat, j: nat, pos: nat)
    requires mid == start + Count(prefix) && k == Count(prefix) + j && j < 1 + Count(last.children)
    requires Describes(FlattenNode(last, level, parentId, mid, supply)[j], Visits([last], level)[j], pos, supply)
    ensures Describes(Flatten(prefix + [last], level, parentId, start, supply)[k], Visits(prefix + [last], level)[k], pos, supply)
  {
    VisitsAppend(prefix, [last], level);
    FlattenSnoc(prefix, last, level, parentId, start, mid, supply);
    DescribesSplit(Flatten(prefix + [last], level, parentId, start, supply), Visits(prefix + [last], level),
                   Flatten(prefix, level, parentId, start, supply), FlattenNode(last, level, parentId, mid, supply),
                   Visits(prefix, level), Visits([last], level), k, pos, supply);
  }

  /** Describing carries over from the two halves of a record sequence and a visit sequence to the whole. */
  lemma DescribesSplit(recs: seq<LevelRecord>, vs: seq<Visit>, fp: seq<LevelRecord>, fn: seq<LevelRecord>,
                       vp: seq<Visit>, vn: seq<Visit>, k: nat, pos: nat, supply: nat -> string)
    requires recs == fp + fn && vs == vp + vn && |fp| == |vp| && |fn| == |vn| && k < |recs|
    requires k < |fp| ==> Describes(fp[k], vp[k], pos, supply)
    requires k >= |fp| ==> Describes(fn[k - |fp|], vn[k - |fp|], pos, supply)
    ensures Describes(recs[k], vs[k], pos, supply)
  {
  }

  /** The same for the records of one node and the visits of the forest `[node]`. */
  lemma {:induction false} NodeDescribes(node: Node, level: nat, parentId: Option<string>,
                                         start: nat, supply: nat -> string, k: nat, pos: nat)
    requires k < 1 + Count(node.children) && pos == start + k
    ensures Describes(FlattenNode(node, level, parentId, start, supply)[k], Visits([node], level)[k], pos, supply)
    decreases node, 0
  {
    assert [node][1..] == [];
    assert Visits([node], level) == [Visit(node, level)] + Visits(node.children, level + 1);
    if k > 0 {
      FlattenDescribes(node.children, level + 1, Some(LevelId(node, start, supply)), start + 1, supply, k - 1, pos);
    }
  }

  /**
   * The k-th record describes the k-th node of the pre-order: its page name and type, its
   * depth as level, and the node's own id when truthy, otherwise `folder_` plus the suffix
   * drawn at its position.
   */
  lemma FlattenFollowsPreOrder(nodes: seq<Node>, level: nat, parentId: Option<string>, start: nat, supply: nat -> string)
    ensures forall k :: 0 <= k < Count(nodes) ==>
      Describes(Flatten(nodes, level, parentId, start, supply)[k], Visits(nodes, level)[k], start + k, supply)
  {
    forall k | 0 <= k < Count(nodes)
      ensures Describes(Flatten(nodes, level, parentId, start, supply)[k], Visits(nodes, level)[k], start + k, supply)
    {
      FlattenDescribes(nodes, level, parentId, start, supply, k, start + k);
    }
  }

  /** Every level is at least the roots' level. */
  lemma {:induction false} LevelBound(nodes: seq<Node>, level: nat, parentId: Option<string>, start: nat, supply: nat -> string)
    ensures forall k :: 0 <= k < Count(nodes) ==> Flatten(nodes, level, parentId, start, supply)[k].level >= level
  {
    forall k | 0 <= k < Count(nodes) ensures Flatten(nodes, level, parentId, start, supply)[k].level >= level {
      FlattenDescribes(nodes, level, parentId, start, supply, k, start + k);
      VisitsDepthBound(nodes, level);
    }
  }

  /**
   * The parent link of every record: a record at the roots' level has the outer parentId;
   * a deeper one points to an earlier record one level up with nothing at or above that
   * level in between, i.e. to the node it was recursed from.
   */
  ghost predicate LevelLinked(recs: seq<LevelRecord>, parentId: Option<string>, level: nat)
  {
    forall k :: 0 <= k < |recs| ==> LinkedAt(recs, parentId, level, k)
  }

  ghost predicate LinkedAt(recs: seq<LevelRecord>, parentId: Option<string>, level: nat, k: nat)
    requires k < |recs|
  {
    && (recs[k].level == level ==> recs[k].parentId == parentId)
    && (recs[k].level > level ==> exists j :: 0 <= j < k && Encloses(recs, j, k))
  }

  /** Record j is the one record k was recursed from. */
  ghost predicate Encloses(recs: seq<LevelRecord>, j: nat, k: nat)
    requires j < k < |recs|
  {
    && recs[j].level + 1 == recs[k].level
    && recs[k].parentId == Some(recs[j].id)
    && DeeperBetween(recs, j, k)
  }

  ghost predicate DeeperBetween(recs: seq<LevelRecord>, j: nat, k: nat)
    requires j < k <= |recs|
  {
    forall i :: j < i < k ==> recs[i].level > recs[j].level
  }

  /** A record of the children's block, behind the node's own record, is linked inside the node's records. */
  lemma ChildBlockLinked(recs: seq<LevelRecord>, fc: seq<LevelRecord>, level: nat, k: nat)
    requires 1 <= k <= |fc| && |recs| == |fc| + 1
    requires recs[1..] == fc && recs[0].level == level
    requires LevelLinked(fc, Some(recs[0].id), level + 1)
    requires forall i :: 0 <= i < |fc| ==> fc[i].level >= level + 1
    ensures exists j :: 0 <= j < k && Encloses(recs, j, k)
  {
    assert recs[k] == fc[k - 1];
    assert LinkedAt(fc, Some(recs[0].id), level + 1, k - 1);
    if fc[k - 1].level == level + 1 {
      forall i | 0 < i < k ensures recs[i].level > recs[0].level {
        assert recs[i] == fc[i - 1];
      }
      assert Encloses(recs, 0, k);
    } else {
      var j' :| 0 <= j' < k - 1 && Encloses(fc, j', k - 1);
      assert recs[j' + 1] == fc[j'];
      forall i | j' + 1 < i < k ensures recs[i].level > recs[j' + 1].level {
        assert recs[i] == fc[i - 1];
      }
      assert Encloses(recs, j' + 1, k);
    }
  }

  /** A record of the leading block keeps its link once more records follow. */
  lemma PrefixLinked(recs: seq<LevelRecord>, fp: seq<LevelRecord>, parentId: Option<string>, level: nat, k: nat)
    requires k < |fp| <= |recs| && recs[..|fp|] == fp
    requires LinkedAt(fp, parentId, level, k)
    ensures LinkedAt(recs, parentId, level, k)
  {
    assert recs[k] == fp[k];
    if fp[k].level > level {
      var j :| 0 <= j < k && Encloses(fp, j, k);
      assert recs[j] == fp[j];
      forall i | j < i < k ensures recs[i].level > recs[j].level {
        assert recs[i] == fp[i];
      }
      assert Encloses(recs, j, k);
    }
  }

  /** A record of the trailing block keeps its link behind the leading block. */
  lemma SuffixLinked(recs: seq<LevelRecord>, fn: seq<LevelRecord>, off: nat, parentId: Option<string>, level: nat, k: nat)
    requires off <= k < |recs| && recs[off..] == fn
    requires LinkedAt(fn, parentId, level, k - off)
    ensures LinkedAt(recs, parentId, level, k)
  {
    var k' := k - off;
    assert recs[k] == fn[k'];
    if fn[k'].level > level {
      var j' :| 0 <= j' < k' && Encloses(fn, j', k');
      var j := j' + off;
      assert recs[j] == fn[j'];
      forall i | j < i < k ensures recs[i].level > recs[j].level {
        assert recs[i] == fn[i - off];
      }
      assert Encloses(recs, j, k);
    }
  }

  /** Roots carry the outer parentId; every deeper record is linked to its enclosing record. */
  lemma {:induction false} FlattenLevelLinked(nodes: seq<Node>, level: nat, parentId: Option<string>,
                                              start: nat, supply: nat -> string)
    ensures LevelLinked(Flatten(nodes, level, parentId, start, supply), parentId, level)
    decreases nodes, 1
  {
    if nodes != [] {
      var prefix, last := nodes[..|nodes| - 1], nodes[|nodes| - 1];
      var fp := Flatten(prefix, level, parentId, start, supply);
      var fn := FlattenNode(last, level, parentId, start + Count(prefix), supply);
      var recs := Flatten(nodes, level, parentId, start, supply);
      assert recs == fp + fn;
      assert recs[..|fp|] == fp && recs[|fp|..] == fn;
      FlattenLevelLinked(prefix, level, parentId, start, supply);
      NodeLevelLinked(last, level, parentId, start + Count(prefix), supply);
      forall k | 0 <= k < |recs| ensures LinkedAt(recs, parentId, level, k) {
        if k < |fp| {
          PrefixLinked(recs, fp, parentId, level, k);
        } else {
          SuffixLinked(recs, fn, |fp|, parentId, level, k);
        }
      }
    }
  }

  /** The same for the records of one node: its own record is at the roots' level. */
  lemma {:induction false} NodeLevelLinked(node: Node, level: nat, parentId: Option<string>,
                                           start: nat, supply: nat -> string)
    ensures LevelLinked(FlattenNode(node, level, parentId, start, supply), parentId, level)
    decreases node, 0
  {
    var id := LevelId(node, start, supply);
    var fc := Flatten(node.children, level + 1, Some(id), start + 1, supply);
    var recs := FlattenNode(node, level, parentId, start, supply);
    assert recs[1..] == fc;
    FlattenLevelLinked(node.children, level + 1, Some(id), start + 1, supply);
    LevelBound(node.children, level + 1, Some(id), start + 1, supply);
    forall k | 0 <= k < |recs| ensures LinkedAt(recs, parentId, level, k) {
      if k > 0 {
        ChildBlockLinked(recs, fc, level, k);
        assert recs[k] == fc[k - 1];
      }
    }
  }

  /** A node's records: its own record first, at `level` under `parentId`; every other record deeper and with a parent. */
  lemma NodeIsSoleRoot(node: Node, level: nat, parentId: Option<string>, start: nat, supply: nat -> string)
    ensures var recs := FlattenNode(node, level, parentId, start, supply);
      && recs[0].level == level && recs[0].parentId == parentId && recs[0].name == node.pageName
      && forall k :: 1 <= k < |recs| ==> recs[k].level > level && recs[k].parentId.Some?
  {
    var id := LevelId(node, start, supply);
    var fc := Flatten(node.children, level + 1, Some(id), start + 1, supply);
    var recs := FlattenNode(node, level, parentId, start, supply);
    assert recs[1..] == fc;
    LevelBound(node.children, level + 1, Some(id), start + 1, supply);
    FlattenLevelLinked(node.children, level + 1, Some(id), start + 1, supply);
    forall k | 1 <= k < |recs| ensures recs[k].level > level && recs[k].parentId.Some? {
      assert recs[k] == fc[k - 1];
      assert LinkedAt(fc, Some(id), level + 1, k - 1);
    }
  }

  /**
   * Start-here re-flattens `[selectedNode]` from the top: the selection becomes the first
   * record and the only one at level 1 with a null parent; every other record lies deeper
   * and has a parent.
   */
  lemma SelectionIsSoleRoot(selected: Node, supply: nat -> string)
    ensures var recs := Flatten([selected], 1, None, 0, supply);
      && recs[0].level == 1 && recs[0].parentId == None && recs[0].name == selected.pageName
      && forall k :: 1 <= k < |recs| ==> recs[k].level >= 2 && recs[k].parentId.Some?
  {
    FlattenSnoc([], selected, 1, None, 0, 0, supply);
    assert [] + [selected] == [selected];
    assert Flatten([selected], 1, None, 0, supply) == FlattenNode(selected, 1, None, 0, supply);
    NodeIsSoleRoot(selected, 1, None, 0, supply);
  }
}
