/**
 * `generateMermaidMarkup` of the two stand-alone scripts: a Mermaid front matter carrying
 * the project's title, then one tier block per level from 1 to the deepest level, built
 * by appending to one string, and the class line with no newline after it.
 */
module TitledMarkup {
  import opened Text
  import opened Sitemap
  import opened LevelFlatten
  import opened LevelTiers

  /** Lines written out, each followed by a newline. */
  function LinesText(ls: seq<string>): string
  {
    if ls == [] then "" else LinesText(ls[..|ls| - 1]) + ls[|ls| - 1] + "\n"
  }

  /** The front matter as the template writes it, cut after each of its newlines. */
  function FrontMatter(projectName: string): string
  {
    "---\n" + "config:\n" + "  title: " + projectName + " Sitemap\n" + "---\n" + "\n" + "graph TD\n" +
      "  classDef containers fill:transparent,stroke-width:0\n" + "\n"
  }

  /** The eight lines of the front matter. */
  function FrontLines(projectName: string): seq<string>
  {
    ["---", "config:", "  title: " + projectName + " Sitemap", "---", "", "graph TD",
     "  classDef containers fill:transparent,stroke-width:0", ""]
  }

  /** The lines the loop appends for level l: the subgraph line, the node lines, `  end` and a blank line. */
  function TierBlock(recs: seq<LevelRecord>, l: nat): (b: seq<string>)
    ensures |b| == 3 + |Tier(recs, l)|
  {
    [SubgraphLine(l)] + TierLines(Tier(recs, l), l) + ["  end", ""]
  }

  /** The blocks of the levels 1..m, in ascending order. */
  function TierBlocks(recs: seq<LevelRecord>, m: nat): (bs: seq<string>)
    ensures |bs| == 3 * m + TierSizes(recs, m)
  {
    if m == 0 then [] else TierBlocks(recs, m - 1) + TierBlock(recs, m)
  }

  /** The whole text for a project name and the flattened records. */
  function Markup(projectName: string, recs: seq<LevelRecord>): string
  {
    var m := MaxLevel(recs);
    FrontMatter(projectName) + LinesText(TierBlocks(recs, m)) + LevelClassLine(m)
  }

  /** `generateMermaidMarkup(nodes)` with `project.name` passed in: the level loop appending with `+=`. */
  method GenerateMermaidMarkup(projectName: string, nodes: seq<LevelRecord>) returns (mermaidText: string)
    ensures mermaidText == Markup(projectName, nodes)
  {
    ghost var front := FrontMatter(projectName);
    mermaidText := FrontMatter(projectName);
    assert mermaidText == front + LinesText([]);
    var maxLevel := MaxLevel(nodes);
    for level := 1 to maxLevel + 1
      invariant mermaidText == front + LinesText(TierBlocks(nodes, level - 1))
    {
      mermaidText := AppendTier(mermaidText, nodes, level, front);
    }
    mermaidText := mermaidText + LevelClassLine(maxLevel);
  }

  /** One pass of the level loop: the subgraph line, the tier's node lines and `  end` with a blank line. */
  method AppendTier(text: string, nodes: seq<LevelRecord>, level: nat, ghost front: string) returns (mermaidText: string)
    requires level >= 1
    requires text == front + LinesText(TierBlocks(nodes, level - 1))
    ensures mermaidText == front + LinesText(TierBlocks(nodes, level))
  {
    var tierNodes := Tier(nodes, level);
    ghost var before := TierBlocks(nodes, level - 1);
    mermaidText := text + SubgraphLine(level) + "\n";
    AppendLine(front, before, SubgraphLine(level));
    ghost var head := before + [SubgraphLine(level)];
    assert head + TierLines(tierNodes[..0], level) == head;
    for j := 0 to |tierNodes|
      invariant mermaidText == front + LinesText(head + TierLines(tierNodes[..j], level))
    {
      var node := tierNodes[j];
      var line;
      if level == 1 {
        line := "    " + node.id + "[\"" + node.name + "\"]";
      } else {
        line := "    " + ParentText(node.parentId) + " --- " + node.id + "[\"" + node.name + "\"]";
      }
      mermaidText := mermaidText + line + "\n";
      TierLinesSnoc(tierNodes, level, j);
      AppendAssoc(head, TierLines(tierNodes[..j], level), [line]);
      AppendLine(front, head + TierLines(tierNodes[..j], level), line);
    }
    assert tierNodes[..|tierNodes|] == tierNodes;
    ghost var body := head + TierLines(tierNodes, level);
    mermaidText := mermaidText + "  end\n\n";
    EndLines(front, body, mermaidText);
    BlockAppended(before, SubgraphLine(level), TierLines(tierNodes, level), ["  end", ""]);
  }

  /** Appending a line and a newline behind a prefix and written-out lines writes out one more line. */
  lemma AppendLine(front: string, ls: seq<string>, line: string)
    ensures front + LinesText(ls) + line + "\n" == front + LinesText(ls + [line])
  {
    LinesTextSnoc(ls, line);
  }

  lemma LinesTextSnoc(ls: seq<string>, l: string)
    ensures LinesText(ls + [l]) == LinesText(ls) + l + "\n"
  {
    assert (ls + [l])[..|ls|] == ls;
  }

  /** `  end\n\n` writes out the lines `  end` and a blank one. */
  lemma EndLines(front: string, body: seq<string>, text: string)
    requires text == front + LinesText(body) + "  end\n\n"
    ensures text == front + LinesText(body + ["  end", ""])
  {
    LinesTextSnoc(body, "  end");
    LinesTextSnoc(body + ["  end"], "");
    assert body + ["  end"] + [""] == body + ["  end", ""];
  }

  lemma BlockAppended<T>(a: seq<T>, x: T, ts: seq<T>, e: seq<T>)
    ensures (a + [x]) + ts + e == a + (([x] + ts) + e)
  {
  }

  /** The front matter writes out the eight front lines. */
  lemma FrontMatterLines(projectName: string)
    ensures FrontMatter(projectName) == LinesText(FrontLines(projectName))
  {
    var ls := FrontLines(projectName);
    assert ls[..0] == [];
    LineStep(ls, 0, "---\n");
    assert LinesText(ls[..1]) == "---\n";
    LineStep(ls, 1, "config:\n");
    AppendAssoc("  title: " + projectName, " Sitemap", "\n");
    LineStep(ls, 2, "  title: " + projectName + " Sitemap\n");
    AppendAssoc("---\n" + "config:\n", "  title: " + projectName, " Sitemap\n");
    AppendAssoc("---\n" + "config:\n" + "  title: ", projectName, " Sitemap\n");
    AppendAssoc("---\n" + "config:\n", "  title: ", projectName);
    LineStep(ls, 3, "---\n");
    LineStep(ls, 4, "\n");
    LineStep(ls, 5, "graph TD\n");
    LineStep(ls, 6, "  classDef containers fill:transparent,stroke-width:0\n");
    LineStep(ls, 7, "\n");
    assert ls[..8] == ls;
  }

  /** Writing out one more line appends that line and its newline. */
  lemma LineStep(ls: seq<string>, k: nat, piece: string)
    requires k < |ls| && piece == ls[k] + "\n"
    ensures LinesText(ls[..k + 1]) == LinesText(ls[..k]) + piece
  {
    assert ls[..k + 1] == ls[..k] + [ls[k]];
    LinesTextSnoc(ls[..k], ls[k]);
    AppendAssoc(LinesText(ls[..k]), ls[k], "\n");
  }

  /** The number of newline characters in s. */
  function Newlines(s: string): nat
  {
    if s == [] then 0 else Newlines(s[..|s| - 1]) + (if s[|s| - 1] == '\n' then 1 else 0)
  }

  lemma {:induction false} NewlinesAppend(a: string, b: string)
    ensures Newlines(a + b) == Newlines(a) + Newlines(b)
    decreases |b|
  {
    if b != [] {
      var b' := b[..|b| - 1];
      assert (a + b)[..|a + b| - 1] == a + b';
      NewlinesAppend(a, b');
    } else {
      assert a + b == a;
    }
  }

  lemma {:induction false} NoNewlines(s: string)
    requires '\n' !in s
    ensures Newlines(s) == 0
    decreases |s|
  {
    if s != [] {
      NoNewlines(s[..|s| - 1]);
    }
  }

  /** Written-out lines without newlines of their own hold one newline each. */
  lemma {:induction false} LinesTextNewlines(ls: seq<string>)
    requires forall k :: 0 <= k < |ls| ==> '\n' !in ls[k]
    ensures Newlines(LinesText(ls)) == |ls|
    decreases |ls|
  {
    if ls != [] {
      var init, last := ls[..|ls| - 1], ls[|ls| - 1];
      LinesTextNewlines(init);
      NewlinesAppend(LinesText(init), last);
      NoNewlines(last);
      NewlinesAppend(LinesText(init) + last, "\n");
      assert Newlines("\n") == 1 by {
        assert "\n"[..0] == "";
      }
    }
  }

  /** No id, parent id or name of the records holds a newline. */
  predicate OneLineNames(recs: seq<LevelRecord>)
  {
    forall k :: 0 <= k < |recs| ==>
      '\n' !in recs[k].id && '\n' !in recs[k].name && '\n' !in ParentText(recs[k].parentId)
  }

  lemma TierBlockOneLine(recs: seq<LevelRecord>, l: nat)
    requires OneLineNames(recs)
    ensures forall k :: 0 <= k < |TierBlock(recs, l)| ==> '\n' !in TierBlock(recs, l)[k]
  {
    var tier := Tier(recs, l);
    var b := TierBlock(recs, l);
    TierMembers(recs, l);
    forall k | 0 <= k < |b| ensures '\n' !in b[k] {
      if k == 0 {
        SubgraphOneLine(l);
      } else if k <= |tier| {
        assert b[k] == NodeLine(tier[k - 1], l);
        assert tier[k - 1] in recs;
      }
    }
  }

  lemma SubgraphOneLine(l: nat)
    ensures '\n' !in SubgraphLine(l)
  {
    var digits := NatToString(l);
    assert SubgraphLine(l) == "  subgraph tier" + digits + "[\" \"]";
    assert '\n' !in digits;
  }

  lemma {:induction false} BlocksOneLine(recs: seq<LevelRecord>, m: nat)
    requires OneLineNames(recs)
    ensures forall k :: 0 <= k < |TierBlocks(recs, m)| ==> '\n' !in TierBlocks(recs, m)[k]
  {
    if m > 0 {
      BlocksOneLine(recs, m - 1);
      TierBlockOneLine(recs, m);
    }
  }

  lemma ClassLineOneLine(m: nat)
    ensures '\n' !in LevelClassLine(m)
    ensures LevelClassLine(m)[|LevelClassLine(m)| - 1] == 's'
  {
    forall k | 0 <= k < m ensures '\n' !in TierNames(m)[k] {
      var digits := NatToString(k + 1);
      assert TierNames(m)[k] == "tier" + digits;
      assert '\n' !in digits;
    }
    JoinFree(TierNames(m), ",", '\n');
  }

  /**
   * With one-line names and every level at least 1, the text has, besides the newlines of
   * the front matter, exactly one newline per node and three per tier.
   */
  lemma LineCount(projectName: string, recs: seq<LevelRecord>)
    requires OneLineNames(recs)
    requires forall k :: 0 <= k < |recs| ==> recs[k].level >= 1
    ensures Newlines(Markup(projectName, recs)) == Newlines(FrontMatter(projectName)) + 3 * MaxLevel(recs) + |recs|
  {
    var m := MaxLevel(recs);
    var bs, cl := TierBlocks(recs, m), LevelClassLine(m);
    BlocksOneLine(recs, m);
    AllTiered(recs);
    LinesTextNewlines(bs);
    NewlinesAppend(FrontMatter(projectName), LinesText(bs));
    ClassLineOneLine(m);
    NoNewlines(cl);
    NewlinesAppend(FrontMatter(projectName) + LinesText(bs), cl);
  }

  /** The text opens with the front matter and ends with the class line, with no newline after it. */
  lemma Ends(projectName: string, recs: seq<LevelRecord>)
    ensures var text, cl := Markup(projectName, recs), LevelClassLine(MaxLevel(recs));
      && |FrontMatter(projectName)| + |cl| <= |text|
      && text[..|FrontMatter(projectName)|] == FrontMatter(projectName)
      && text[|text| - |cl|..] == cl
      && text[|text| - 1] == 's'
  {
    var m := MaxLevel(recs);
    ClassLineOneLine(m);
    PrefixSuffix(FrontMatter(projectName), LinesText(TierBlocks(recs, m)), LevelClassLine(m));
  }

  lemma PrefixSuffix<T>(a: seq<T>, b: seq<T>, c: seq<T>)
    ensures var s := a + b + c; |a| + |c| <= |s| && s[..|a|] == a && s[|s| - |c|..] == c
  {
    var s := a + b + c;
    assert s[..|a|] == a;
    assert s[|s| - |c|..] == c;
  }

  lemma {:induction false} LinesTextAppend(a: seq<string>, b: seq<string>)
    ensures LinesText(a + b) == LinesText(a) + LinesText(b)
    decreases |b|
  {
    if b == [] {
      assert a + b == a;
    } else {
      var b', l := b[..|b| - 1], b[|b| - 1];
      assert a + b == (a + b') + [l];
      assert b == b' + [l];
      LinesTextAppend(a, b');
      LinesTextSnoc(a + b', l);
      LinesTextSnoc(b', l);
    }
  }
}
