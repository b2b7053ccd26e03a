/**
 * The copy-sitemap bookmarklet: one row per sitemap node in pre-order, one cell per
 * configured column (the page column indented by depth), an optional header row of the
 * column names, and the rows written out tab-separated, one line each.
 */
module SitemapTsv {
  import opened Wrappers
  import opened Text
  import opened Sitemap

  /** The configuration block of the bookmarklet. */
  datatype Config = Config(columnOrder: seq<string>, includeHeader: bool, indentChildren: bool, indentSpaces: nat)

  /** The configuration as shipped. */
  const DefaultConfig: Config := Config(["id", "page", "type", "url"], true, true, 4)

  /** An optional value as `row.join` writes it: an absent one as nothing. */
  function Blank(s: Option<string>): string
  {
    if s.None? then "" else s.value
  }

  /** The `switch (column)` of the row map, for the node met at the given depth. */
  function Cell(cfg: Config, column: string, v: Visit): (c: string)
    ensures column !in {"id", "page", "type", "url"} ==> c == ""
  {
    if column == "id" then Blank(v.node.id)
    else if column == "page" then (if cfg.indentChildren then Spaces(cfg.indentSpaces * v.depth) else "") + v.node.pageName
    else if column == "type" then v.node.nodeType
    else if column == "url" then Blank(v.node.url)
    else ""
  }

  /** `columnOrder.map(...)`: the row of one node. */
  function RowOf(cfg: Config, v: Visit): (row: seq<string>)
    ensures |row| == |cfg.columnOrder|
  {
    seq(|cfg.columnOrder|, j requires 0 <= j < |cfg.columnOrder| => Cell(cfg, cfg.columnOrder[j], v))
  }

  /** The rows of a list of visits, one each, in order. */
  function Rows(cfg: Config, vs: seq<Visit>): (rows: seq<seq<string>>)
    ensures |rows| == |vs|
  {
    seq(|vs|, i requires 0 <= i < |vs| => RowOf(cfg, vs[i]))
  }

  lemma RowsAppend(cfg: Config, a: seq<Visit>, b: seq<Visit>)
    ensures Rows(cfg, a + b) == Rows(cfg, a) + Rows(cfg, b)
  {
    var l, r := Rows(cfg, a + b), Rows(cfg, a) + Rows(cfg, b);
    forall i | 0 <= i < |l| ensures l[i] == r[i] {
      if i < |a| {
        assert (a + b)[i] == a[i];
      } else {
        assert (a + b)[i] == b[i - |a|];
      }
    }
  }

  /** The visits of a forest up to root i + 1: those up to root i, then root i's own. */
  lemma VisitsStep(tree: seq<Node>, i: nat, level: nat)
    requires i < |tree|
    ensures Visits(tree[..i + 1], level) ==
      Visits(tree[..i], level) + ([Visit(tree[i], level)] + Visits(tree[i].children, level + 1))
  {
    assert tree[..i + 1] == tree[..i] + [tree[i]];
    VisitsAppend(tree[..i], [tree[i]], level);
    assert [tree[i]][1..] == [];
    assert Visits([tree[i]], level) == [Visit(tree[i], level)] + Visits(tree[i].children, level + 1) + [];
  }

  /** `traverseAndCopyTree(tree, level)`: pushes each node's row, then its children's rows. */
  method TraverseAndCopyTree(cfg: Config, tree: seq<Node>, level: nat) returns (convertedTree: seq<seq<string>>)
    ensures convertedTree == Rows(cfg, Visits(tree, level))
    decreases tree
  {
    convertedTree := [];
    for i := 0 to |tree|
      invariant convertedTree == Rows(cfg, Visits(tree[..i], level))
    {
      var node := tree[i];
      var indent := if cfg.indentChildren then Spaces(cfg.indentSpaces * level) else "";
      var indentedPage := indent + node.pageName;
      var row := seq(|cfg.columnOrder|, j requires 0 <= j < |cfg.columnOrder| =>
        var column := cfg.columnOrder[j];
        if column == "id" then Blank(node.id)
        else if column == "page" then indentedPage
        else if column == "type" then node.nodeType
        else if column == "url" then Blank(node.url)
        else "");
      assert row == RowOf(cfg, Visit(node, level));
      ghost var before := convertedTree;
      convertedTree := convertedTree + [row];
      ghost var childRows := [];
      if node.children != [] {
        var found := TraverseAndCopyTree(cfg, node.children, level + 1);
        convertedTree := convertedTree + found;
        childRows := found;
      } else {
        assert convertedTree == convertedTree + childRows;
      }
      TraverseStep(cfg, tree, i, level, before, row, childRows);
    }
    assert tree[..|tree|] == tree;
  }

  /** One pass of the loop: the rows so far, the node's row and its children's rows are the rows up to the next root. */
  lemma TraverseStep(cfg: Config, tree: seq<Node>, i: nat, level: nat, before: seq<seq<string>>, row: seq<string>,
                     childRows: seq<seq<string>>)
    requires i < |tree|
    requires before == Rows(cfg, Visits(tree[..i], level))
    requires row == RowOf(cfg, Visit(tree[i], level))
    requires childRows == Rows(cfg, Visits(tree[i].children, level + 1))
    ensures before + [row] + childRows == Rows(cfg, Visits(tree[..i + 1], level))
  {
    var node := tree[i];
    VisitsStep(tree, i, level);
    RowsAppend(cfg, Visits(tree[..i], level), [Visit(node, level)] + Visits(node.children, level + 1));
    RowsAppend(cfg, [Visit(node, level)], Visits(node.children, level + 1));
    AppendAssoc(before, [row], childRows);
  }

  /** `row.join('\t')` for every row. */
  function TsvLines(data: seq<seq<string>>): (lines: seq<string>)
    ensures |lines| == |data|
  {
    seq(|data|, i requires 0 <= i < |data| => Join(data[i], "\t"))
  }

  /** What `convertToTSV` builds: each row joined by tabs and ended by a newline. */
  function Tsv(data: seq<seq<string>>): string
  {
    if data == [] then "" else Tsv(data[..|data| - 1]) + Join(data[|data| - 1], "\t") + "\n"
  }

  /** `convertToTSV(data)`: the indexed loop appending with `+=`. */
  method ConvertToTsv(data: seq<seq<string>>) returns (tsv: string)
    ensures tsv == Tsv(data)
  {
    tsv := "";
    for i := 0 to |data|
      invariant tsv == Tsv(data[..i])
    {
      var row := data[i];
      assert data[..i + 1][..i] == data[..i];
      tsv := tsv + Join(row, "\t") + "\n";
    }
    assert data[..|data|] == data;
  }

  /** The rows the bookmarklet writes: the header row of column names when configured, then the tree's rows. */
  function TsvData(cfg: Config, tree: seq<Node>): seq<seq<string>>
  {
    (if cfg.includeHeader then [cfg.columnOrder] else []) + Rows(cfg, Visits(tree, 0))
  }

  /** The bookmarklet's body: traverse from level 0, `unshift` the header, convert; the text goes to the clipboard. */
  method CopySitemap(cfg: Config, sitemapArray: seq<Node>) returns (tsvOutput: string)
    ensures tsvOutput == Tsv(TsvData(cfg, sitemapArray))
  {
    var tsvData := TraverseAndCopyTree(cfg, sitemapArray, 0);
    if cfg.includeHeader {
      tsvData := [cfg.columnOrder] + tsvData;
    } else {
      assert [] + tsvData == tsvData;
    }
    tsvOutput := ConvertToTsv(tsvData);
  }

  /**
   * The rows are one per node in pre-order with one cell per column; the header, when
   * configured, comes first; a page cell is the node's name behind `indentSpaces` spaces per
   * level of depth, roots at depth 0.
   */
  lemma TsvDataShape(cfg: Config, tree: seq<Node>, k: nat, j: nat)
    requires k < Count(tree) && j < |cfg.columnOrder|
    ensures var data, h := TsvData(cfg, tree), if cfg.includeHeader then 1 else 0;
      && |data| == h + Count(tree)
      && (cfg.includeHeader ==> data[0] == cfg.columnOrder)
      && |data[h + k]| == |cfg.columnOrder|
      && data[h + k][j] == Cell(cfg, cfg.columnOrder[j], Visit(Flat(tree)[k], Visits(tree, 0)[k].depth))
  {
    VisitsAreFlat(tree, 0);
    var data, h := TsvData(cfg, tree), if cfg.includeHeader then 1 else 0;
    var rows := Rows(cfg, Visits(tree, 0));
    assert data[h + k] == rows[k];
    assert Visits(tree, 0)[k] == Visit(Flat(tree)[k], Visits(tree, 0)[k].depth);
  }

  /** The written-out rows are their tab-joined lines, each followed by a newline. */
  lemma {:induction false} TsvIsJoin(data: seq<seq<string>>)
    ensures Tsv(data) == Join(TsvLines(data) + [""], "\n")
    decreases |data|
  {
    if data == [] {
      assert TsvLines(data) + [""] == [""];
    } else {
      var init := data[..|data| - 1];
      var line := Join(data[|data| - 1], "\t");
      TsvIsJoin(init);
      TsvLinesSnoc(data);
      LineSnoc(TsvLines(init), line);
    }
  }

  lemma TsvLinesSnoc(data: seq<seq<string>>)
    requires data != []
    ensures TsvLines(data) == TsvLines(data[..|data| - 1]) + [Join(data[|data| - 1], "\t")]
  {
    var init := data[..|data| - 1];
    forall i | 0 <= i < |init| ensures TsvLines(data)[i] == TsvLines(init)[i] {
      assert data[i] == init[i];
    }
  }

  /** One more line and newline behind newline-joined lines ending in an empty one. */
  lemma LineSnoc(ls: seq<string>, line: string)
    ensures Join(ls + [""], "\n") + line + "\n" == Join(ls + [line] + [""], "\n")
  {
    JoinAppend(ls + [line], [""], "\n");
    if ls == [] {
      assert ls + [""] == [""];
      assert ls + [line] == [line];
    } else {
      JoinAppend(ls, [""], "\n");
      JoinAppend(ls, [line], "\n");
    }
  }

  /**
   * When no cell holds a tab or a newline and every row has a cell, the output reads back:
   * split at newlines it gives one line per row and a final empty string, and each line split
   * at tabs gives back its row.
   */
  lemma TsvReadsBack(data: seq<seq<string>>)
    requires forall i :: 0 <= i < |data| ==> |data[i]| >= 1
    requires forall i, j :: 0 <= i < |data| && 0 <= j < |data[i]| ==> '\t' !in data[i][j] && '\n' !in data[i][j]
    ensures var lines := Split(Tsv(data), '\n');
      && |lines| == |data| + 1 && lines[|data|] == ""
      && forall i :: 0 <= i < |data| ==> Split(lines[i], '\t') == data[i]
  {
    var ls := TsvLines(data);
    forall i | 0 <= i < |data| ensures '\n' !in ls[i] && Split(ls[i], '\t') == data[i] {
      JoinFree(data[i], "\t", '\n');
      SplitJoin(data[i], '\t');
    }
    TsvIsJoin(data);
    SplitJoin(ls + [""], '\n');
  }
}
