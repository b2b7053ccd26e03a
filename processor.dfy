/**
 * The `SitemapProcessor` class of src/components/SitemapProcessor.js: `initialize` keeps
 * the processed records and fills an id → record map; `generateMermaidMarkup` renders all
 * records, or only those whose parent chain through that map reaches a start id;
 * `findCurrentNode` looks an id up in the map.
 */
module Processor {
  import opened Wrappers
  import opened Sitemap
  import opened HashFlatten
  import opened ParentGroups

  /** The map `forEach(node => nodeMap.set(node.id, node))` builds: a later record overrides an earlier one with its id. */
  function Index(rs: seq<Record>): (m: map<string, Record>)
    ensures m.Keys == set r | r in rs :: r.id
    ensures forall k :: k in m ==> m[k].id == k
  {
    if rs == [] then map[] else Index(rs[..|rs| - 1])[rs[|rs| - 1].id := rs[|rs| - 1]]
  }

  /** The map holds, for each id, the last record carrying it. */
  lemma {:induction false} IndexLast(rs: seq<Record>, j: nat)
    requires j < |rs|
    requires forall i :: j < i < |rs| ==> rs[i].id != rs[j].id
    ensures rs[j].id in Index(rs) && Index(rs)[rs[j].id] == rs[j]
  {
    if j < |rs| - 1 {
      IndexLast(rs[..|rs| - 1], j);
    }
  }

  /** Walking up from r through m, by at most `fuel` parent lookups, meets a record with id target. */
  function Reaches(m: map<string, Record>, r: Record, target: string, fuel: nat): bool
    decreases fuel
  {
    r.id == target ||
    (fuel > 0 && r.parentId.Some? && r.parentId.value in m && Reaches(m, m[r.parentId.value], target, fuel - 1))
  }

  /** Walking up from r through m, a parent lookup misses within `fuel` lookups, so the walk stops. */
  function WalkEnds(m: map<string, Record>, r: Record, fuel: nat): bool
    decreases fuel
  {
    r.parentId.None? || r.parentId.value !in m || (fuel > 0 && WalkEnds(m, m[r.parentId.value], fuel - 1))
  }

  /**
   * Walking up from r through m, within `fuel` parent lookups, meets a record with id target or
   * a parent lookup that misses: the loop of `#isNodeInSubtree` returns.
   */
  function WalkStops(m: map<string, Record>, r: Record, target: string, fuel: nat): bool
    decreases fuel
  {
    r.id == target || r.parentId.None? || r.parentId.value !in m ||
    (fuel > 0 && WalkStops(m, m[r.parentId.value], target, fuel - 1))
  }

  /** r lies in the subtree of target: its parent chain through m (r included) reaches a record with id target. */
  ghost predicate InSubtree(m: map<string, Record>, r: Record, target: string)
  {
    exists fuel: nat :: Reaches(m, r, target, fuel)
  }

  /** The parent walk from r eventually stops (it does not run round a cycle of parent ids). */
  ghost predicate Terminates(m: map<string, Record>, r: Record)
  {
    exists fuel: nat :: WalkEnds(m, r, fuel)
  }

  /** The subtree test for target returns from r: its walk meets target or a missed lookup. */
  ghost predicate StopsAt(m: map<string, Record>, r: Record, target: string)
  {
    exists fuel: nat :: WalkStops(m, r, target, fuel)
  }

  /** A walk that stops whatever the target stops for the target at hand. */
  lemma {:induction false} WalkEndsStops(m: map<string, Record>, r: Record, target: string, fuel: nat)
    requires WalkEnds(m, r, fuel)
    ensures WalkStops(m, r, target, fuel)
    decreases fuel
  {
    if r.parentId.Some? && r.parentId.value in m {
      WalkEndsStops(m, m[r.parentId.value], target, fuel - 1);
    }
  }

  /** A walk that ends stops the subtree test for every target. */
  lemma TerminatesStops(m: map<string, Record>, r: Record, target: string)
    requires Terminates(m, r)
    ensures StopsAt(m, r, target)
  {
    var fuel: nat :| WalkEnds(m, r, fuel);
    WalkEndsStops(m, r, target, fuel);
  }

  lemma {:induction false} WalkEndsMonotonic(m: map<string, Record>, r: Record, fuel: nat, more: nat)
    requires WalkEnds(m, r, fuel) && fuel <= more
    ensures WalkEnds(m, r, more)
    decreases fuel
  {
    if r.parentId.Some? && r.parentId.value in m {
      WalkEndsMonotonic(m, m[r.parentId.value], fuel - 1, more - 1);
    }
  }

  /** One step up the chain: a record that is not the target is in the subtree exactly when its parent is. */
  lemma InSubtreeStep(m: map<string, Record>, r: Record, target: string)
    requires r.id != target && r.parentId.Some? && r.parentId.value in m
    ensures InSubtree(m, r, target) <==> InSubtree(m, m[r.parentId.value], target)
  {
    var up := m[r.parentId.value];
    if InSubtree(m, r, target) {
      var f: nat :| Reaches(m, r, target, f);
      assert Reaches(m, up, target, f - 1);
    }
    if InSubtree(m, up, target) {
      var f: nat :| Reaches(m, up, target, f);
      assert Reaches(m, r, target, f + 1);
    }
  }

  /** No two records share an id. */
  predicate DistinctIds(rs: seq<Record>)
  {
    forall i, j :: 0 <= i < j < |rs| ==> rs[i].id != rs[j].id
  }

  /** The records of rs in the subtree of target, in their original order (`processedNodes.filter`). */
  ghost function Subtree(rs: seq<Record>, m: map<string, Record>, target: string): seq<Record>
  {
    if rs == [] then []
    else Subtree(rs[..|rs| - 1], m, target) + (if InSubtree(m, rs[|rs| - 1], target) then [rs[|rs| - 1]] else [])
  }

  /** A record is kept exactly when it is in the subtree; the start record itself always is. */
  lemma {:induction false} SubtreeMembers(rs: seq<Record>, m: map<string, Record>, target: string)
    ensures forall r :: r in Subtree(rs, m, target) <==> r in rs && InSubtree(m, r, target)
    ensures forall r :: r in rs && r.id == target ==> r in Subtree(rs, m, target)
  {
    if rs != [] {
      SubtreeMembers(rs[..|rs| - 1], m, target);
      assert rs == rs[..|rs| - 1] + [rs[|rs| - 1]];
      forall r | r in rs && r.id == target ensures InSubtree(m, r, target) {
        assert Reaches(m, r, target, 0);
      }
    }
  }

  /** The exceptions `generateMermaidMarkup` can raise. */
  datatype MarkupError =
    | NotInitialized      // `Sitemap not initialized. Call initialize() first.`
    | StartNodeUndefined  // TypeError: `startNode.id` of an id missing from the map

  class SitemapProcessor {
    var processedNodes: Option<seq<Record>>
    var nodeMap: map<string, Record>

    /** Every map entry is filed under its own id. */
    ghost predicate Valid()
      reads this
    {
      forall k :: k in nodeMap ==> nodeMap[k].id == k
    }

    /**
     * The subtree test for target returns on every processed record: the filter of
     * `#getSubtreeNodes(target)` does not run round a cycle of parent ids.
     */
    ghost predicate WalksStopAt(target: string)
      reads this
    {
      processedNodes.Some? ==> forall r :: r in processedNodes.value ==> StopsAt(nodeMap, r, target)
    }

    constructor ()
      ensures Valid() && processedNodes == None && nodeMap == map[]
    {
      processedNodes := None;
      nodeMap := map[];
    }

    /** `initialize(nodes)`: processes the forest and adds every record to the map, which is never cleared. */
    method Initialize(nodes: seq<Node>) returns (processed: seq<Record>)
      requires Valid()
      modifies this
      ensures Valid()
      ensures processed == Flatten(nodes, None) && processedNodes == Some(processed)
      ensures nodeMap == old(nodeMap) + Index(processed)
    {
      processed := Flatten(nodes, None);
      processedNodes := Some(processed);
      ghost var before := nodeMap;
      for i := 0 to |processed|
        invariant processedNodes == Some(processed)
        invariant nodeMap == before + Index(processed[..i])
      {
        IndexSnoc(before, processed, i);
        nodeMap := nodeMap[processed[i].id := processed[i]];
      }
      assert processed[..|processed|] == processed;
      IndexedUnion(before, Index(processed));
    }

    /** `findCurrentNode(currentId)`: the map's record for the id, or null. */
    function FindCurrentNode(currentId: string): (r: Option<Record>)
      reads this
      requires Valid()
      ensures r.Some? <==> currentId in nodeMap
      ensures r.Some? ==> r.value.id == currentId
    {
      if currentId in nodeMap then Some(nodeMap[currentId]) else None
    }

    /** `#isNodeInSubtree(node, startNode)`: walks up from node through the map until it meets startNode's id. */
    method IsNodeInSubtree(node: Record, startNode: Record, ghost fuel: nat) returns (b: bool)
      requires WalkStops(nodeMap, node, startNode.id, fuel)
      ensures b <==> InSubtree(nodeMap, node, startNode.id)
    {
      var current := node;
      ghost var f := fuel;
      while true
        invariant WalkStops(nodeMap, current, startNode.id, f)
        invariant InSubtree(nodeMap, node, startNode.id) <==> InSubtree(nodeMap, current, startNode.id)
        decreases f
      {
        if current.id == startNode.id {
          assert Reaches(nodeMap, current, startNode.id, 0);
          return true;
        }
        if current.parentId.None? || current.parentId.value !in nodeMap {
          assert forall g: nat :: !Reaches(nodeMap, current, startNode.id, g);
          return false;
        }
        InSubtreeStep(nodeMap, current, startNode.id);
        current, f := nodeMap[current.parentId.value], f - 1;
      }
    }

    /** `#getSubtreeNodes(startNodeId)`: the processed records in the start node's subtree. */
    method GetSubtreeNodes(startNodeId: string) returns (r: Result<seq<Record>, MarkupError>)
      requires Valid() && processedNodes.Some?
      requires startNodeId in nodeMap ==> WalksStopAt(startNodeId)
      ensures startNodeId !in nodeMap && processedNodes.value != [] ==> r == Err(StartNodeUndefined)
      ensures startNodeId in nodeMap || processedNodes.value == [] ==>
                r == Ok(Subtree(processedNodes.value, nodeMap, startNodeId))
    {
      var nodes := processedNodes.value;
      var startNode := FindCurrentNode(startNodeId);
      if startNode.None? {
        if nodes != [] {
          return Err(StartNodeUndefined);
        }
        return Ok([]);
      }
      var kept := [];
      for i := 0 to |nodes|
        invariant kept == Subtree(nodes[..i], nodeMap, startNodeId)
      {
        assert nodes[..i + 1][..i] == nodes[..i];
        assert nodes[i] in nodes;
        ghost var fuel: nat :| WalkStops(nodeMap, nodes[i], startNodeId, fuel);
        var inside := IsNodeInSubtree(nodes[i], startNode.value, fuel);
        if inside {
          kept := kept + [nodes[i]];
        }
      }
      assert nodes[..|nodes|] == nodes;
      return Ok(kept);
    }

    /** `generateMermaidMarkup(startNodeId)`: all records for a falsy start id, else the start node's subtree. */
    method GenerateMermaidMarkup(startNodeId: Option<string>) returns (r: Result<string, MarkupError>)
      requires Valid()
      requires processedNodes.Some? && Truthy(startNodeId) && startNodeId.value in nodeMap ==>
        WalksStopAt(startNodeId.value)
      ensures processedNodes.None? ==> r == Err(NotInitialized)
      ensures processedNodes.Some? && !Truthy(startNodeId) ==> r == Ok(Render(GroupsOf(processedNodes.value)))
      ensures processedNodes.Some? && Truthy(startNodeId) ==>
        if startNodeId.value !in nodeMap && processedNodes.value != [] then r == Err(StartNodeUndefined)
        else r == Ok(Render(GroupsOf(Subtree(processedNodes.value, nodeMap, startNodeId.value))))
    {
      if processedNodes.None? {
        return Err(NotInitialized);
      }
      var relevant := processedNodes.value;
      if Truthy(startNodeId) {
        var sub := GetSubtreeNodes(startNodeId.value);
        if sub.Err? {
          return Err(sub.error);
        }
        relevant := sub.value;
      }
      var text := GenerateMarkup(relevant);
      return Ok(text);
    }
  }

  lemma IndexSnoc(older: map<string, Record>, rs: seq<Record>, i: nat)
    requires i < |rs|
    ensures (older + Index(rs[..i]))[rs[i].id := rs[i]] == older + Index(rs[..i + 1])
  {
    assert rs[..i + 1][..i] == rs[..i];
  }

  /** Adding the map of a record sequence to a map filed by id keeps it filed by id. */
  lemma IndexedUnion(older: map<string, Record>, newer: map<string, Record>)
    requires forall k :: k in older ==> older[k].id == k
    requires forall k :: k in newer ==> newer[k].id == k
    ensures forall k :: k in older + newer ==> (older + newer)[k].id == k
  {
  }

  /**
   * When the processed ids are distinct, every parent walk in the map that `initialize`
   * leaves behind stops, whatever older entries the map still holds.
   */
  lemma DistinctIdsWalksEnd(nodes: seq<Node>, older: map<string, Record>)
    requires DistinctIds(Flatten(nodes, None))
    ensures var recs := Flatten(nodes, None);
      forall r :: r in recs ==> Terminates(older + Index(recs), r)
  {
    var recs := Flatten(nodes, None);
    var m := older + Index(recs);
    ParentPrecedes(nodes);
    assert |recs| == Count(nodes);
    forall i | 0 <= i < |recs| ensures recs[i].id in m && m[recs[i].id] == recs[i] {
      IndexLast(recs, i);
    }
    forall k | 0 <= k < |recs| ensures WalkEnds(m, recs[k], k) {
      WalkEndsAt(recs, m, k);
    }
    forall r | r in recs ensures Terminates(m, r) {
      var k :| 0 <= k < |recs| && recs[k] == r;
      assert WalkEnds(m, recs[k], k);
    }
  }

  lemma {:induction false} WalkEndsAt(recs: seq<Record>, m: map<string, Record>, k: nat)
    requires k < |recs|
    requires forall i :: 0 <= i < |recs| ==> recs[i].id in m && m[recs[i].id] == recs[i]
    requires forall i :: 0 <= i < |recs| ==>
      recs[i].parentId.None? || exists j :: 0 <= j < i && recs[j].id == recs[i].parentId.value
    ensures WalkEnds(m, recs[k], k)
    decreases k
  {
    if recs[k].parentId.Some? {
      var j :| 0 <= j < k && recs[j].id == recs[k].parentId.value;
      WalkEndsAt(recs, m, j);
      WalkEndsMonotonic(m, recs[j], j, k - 1);
      WalkStep(m, recs[k], recs[j], k - 1);
    }
  }

  /** A walk ends from r when r's parent is in m and the walk ends from that parent with one step less. */
  lemma WalkStep(m: map<string, Record>, r: Record, p: Record, fuel: nat)
    requires r.parentId.Some? && r.parentId.value in m && m[r.parentId.value] == p
    requires WalkEnds(m, p, fuel)
    ensures WalkEnds(m, r, fuel + 1)
  {
  }
}
