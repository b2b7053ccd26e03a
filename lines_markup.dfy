/**
 * `generateMermaidMarkup` of the bundled toolbar's `SitemapProcessor`: collects the markup
 * as a list of lines, one tier block per level from 1 to the deepest level, and joins
 * the lines with newlines.
 */
module LinesMarkup {
  import opened Wrappers
  import opened Text
  import opened Sitemap
  import opened LevelFlatten
  import opened LevelTiers
  import opened ParentGroups

  /** The lines the list starts with: `graph TD`, the classDef line (unindented here), a blank line. */
  const Preamble: seq<string> := ["graph TD", "classDef containers fill:transparent,stroke-width:0", ""]

  /** The lines the loop pushes for level l: a blank line, the subgraph line, the node lines, `  end` and a blank line. */
  function Block(recs: seq<LevelRecord>, l: nat): (b: seq<string>)
    ensures |b| == 4 + |Tier(recs, l)|
  {
    ["", SubgraphLine(l)] + TierLines(Tier(recs, l), l) + ["  end", ""]
  }

  /** The blocks of levels 1..m, in ascending order. */
  function Blocks(recs: seq<LevelRecord>, m: nat): (bs: seq<string>)
    ensures |bs| == 4 * m + TierSizes(recs, m)
  {
    if m == 0 then [] else Blocks(recs, m - 1) + Block(recs, m)
  }

  /** Every pushed line: the preamble, the blocks, a blank line and the class line. */
  function Lines(recs: seq<LevelRecord>): seq<string>
  {
    var m := MaxLevel(recs);
    Preamble + Blocks(recs, m) + ["", LevelClassLine(m)]
  }

  /** `lines.join("\n")`. */
  function Markup(recs: seq<LevelRecord>): string
  {
    Join(Lines(recs), "\n")
  }

  /** `generateMermaidMarkup(nodes)`: the level loop and the per-tier `forEach`, pushing onto `lines`. */
  method GenerateMermaidMarkup(nodes: seq<LevelRecord>) returns (text: string)
    ensures text == Markup(nodes)
  {
    var lines := Preamble;
    var maxLevel := MaxLevel(nodes);
    for level := 1 to maxLevel + 1
      invariant lines == Preamble + Blocks(nodes, level - 1)
    {
      var tierNodes := Tier(nodes, level);
      ghost var before := lines;
      lines := lines + [""];
      lines := lines + [SubgraphLine(level)];
      ghost var head := lines;
      for j := 0 to |tierNodes|
        invariant lines == head + TierLines(tierNodes[..j], level)
      {
        var node := tierNodes[j];
        var line;
        if level == 1 {
          line := "    " + node.id + "[\"" + node.name + "\"]";
        } else {
          line := "    " + ParentText(node.parentId) + " --- " + node.id + "[\"" + node.name + "\"]";
        }
        lines := lines + [line];
        TierLinesSnoc(tierNodes, level, j);
        AppendAssoc(head, TierLines(tierNodes[..j], level), [line]);
      }
      assert tierNodes[..|tierNodes|] == tierNodes;
      lines := lines + ["  end", ""];
      BlockShape(before, "", SubgraphLine(level), TierLines(tierNodes, level), ["  end", ""]);
      AppendAssoc(Preamble, Blocks(nodes, level - 1), Block(nodes, level));
    }
    lines := lines + [""];
    lines := lines + [LevelClassLine(maxLevel)];
    SnocTwo(Preamble + Blocks(nodes, maxLevel), "", LevelClassLine(maxLevel));
    assert lines == Lines(nodes);
    text := Join(lines, "\n");
  }

  /** Two single pushes and two appends combine into one append. */
  lemma BlockShape<T>(a: seq<T>, x: T, y: T, ts: seq<T>, e: seq<T>)
    ensures ((a + [x]) + [y]) + ts + e == a + (([x, y] + ts) + e)
  {
  }

  lemma SnocTwo<T>(a: seq<T>, x: T, y: T)
    ensures (a + [x]) + [y] == a + [x, y]
  {
  }

  /** Where the block of level l starts among the blocks. */
  function BlockStart(recs: seq<LevelRecord>, l: nat): nat
    requires l >= 1
  {
    4 * (l - 1) + TierSizes(recs, l - 1)
  }

  /** The blocks of the levels up to l come first among the blocks of the levels up to m. */
  lemma {:induction false} BlocksPrefix(recs: seq<LevelRecord>, l: nat, m: nat)
    requires l <= m
    ensures |Blocks(recs, l)| <= |Blocks(recs, m)| && Blocks(recs, m)[..|Blocks(recs, l)|] == Blocks(recs, l)
    decreases m - l
  {
    if l < m {
      BlocksPrefix(recs, l, m - 1);
      PrefixOfAppend(Blocks(recs, m - 1), Block(recs, m), Blocks(recs, l));
    }
  }

  lemma PrefixOfAppend<T>(q: seq<T>, r: seq<T>, p: seq<T>)
    requires |p| <= |q| && q[..|p|] == p
    ensures (q + r)[..|p|] == p
  {
    assert (q + r)[..|p|] == q[..|p|];
  }

  /**
   * Tier l's block sits in the list of lines right after the preamble and the blocks of
   * the levels below it: a blank line, `  subgraph tier{l}[" "]`, the node lines of exactly
   * tier l's records in input order, `  end` and a blank line.
   */
  lemma BlockAt(recs: seq<LevelRecord>, l: nat)
    requires 1 <= l <= MaxLevel(recs)
    ensures var at := |Preamble| + BlockStart(recs, l);
      at + |Block(recs, l)| <= |Lines(recs)| && Lines(recs)[at..at + |Block(recs, l)|] == Block(recs, l)
  {
    var m := MaxLevel(recs);
    BlocksPrefix(recs, l, m);
    var b0, blk, bm, tail := Blocks(recs, l - 1), Block(recs, l), Blocks(recs, m), ["", LevelClassLine(m)];
    assert Blocks(recs, l) == b0 + blk;
    SliceAt(Preamble, bm, tail, b0, blk);
    var at := |Preamble| + |b0|;
    assert at == |Preamble| + BlockStart(recs, l);
    assert Lines(recs) == Preamble + bm + tail;
  }

  lemma SliceAt<T>(pre: seq<T>, bm: seq<T>, tail: seq<T>, b0: seq<T>, blk: seq<T>)
    requires |b0 + blk| <= |bm| && bm[..|b0 + blk|] == b0 + blk
    ensures var at := |pre| + |b0|;
      at + |blk| <= |pre + bm + tail| && (pre + bm + tail)[at..at + |blk|] == blk
  {
    var at := |pre| + |b0|;
    forall i | 0 <= i < |blk| ensures (pre + bm + tail)[at + i] == blk[i] {
      assert bm[|b0| + i] == (b0 + blk)[|b0| + i];
    }
  }

  /**
   * With every level at least 1 (as `processSitemap` produces), the list holds one line per
   * node besides the three preamble lines, four lines per tier and the two closing lines.
   */
  lemma LineCount(recs: seq<LevelRecord>)
    requires forall k :: 0 <= k < |recs| ==> recs[k].level >= 1
    ensures |Lines(recs)| == 5 + 4 * MaxLevel(recs) + |recs|
    ensures Lines(recs)[|Lines(recs)| - 1] == LevelClassLine(MaxLevel(recs))
  {
    AllTiered(recs);
  }
}
