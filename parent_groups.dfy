/**
 * `#generateMarkup` of src/components/SitemapProcessor.js: the records are grouped by
 * parentId in a `Map` of `Set`s (first-seen key order, insertion order within a set, an
 * identical entry stored once), and each group becomes one `subgraph tier{i}` block,
 * numbered from 0.
 */
module ParentGroups {
  import opened Wrappers
  import opened Text
  import opened Sitemap
  import opened HashFlatten

  /** A group of the `Map`: its parentId key and the entries of its `Set`, in insertion order. */
  datatype Group = Group(key: Option<string>, entries: seq<string>)

  /** A record's entry: `id["name"]`, followed by the edge line `parentId --- id` when parentId is truthy. */
  function Entry(r: Record): string
  {
    r.id + "[\"" + r.name + "\"]" + (if Truthy(r.parentId) then "\n      " + r.parentId.value + " --- " + r.id else "")
  }

  /** The parentIds of the records, as a set. */
  function ParentIds(rs: seq<Record>): set<Option<string>>
  {
    set r | r in rs :: r.parentId
  }

  /** The entries of the records whose parentId is key, as a set. */
  function EntriesWithKey(rs: seq<Record>, key: Option<string>): set<string>
  {
    set r | r in rs && r.parentId == key :: Entry(r)
  }

  predicate Distinct<T(==)>(s: seq<T>)
  {
    forall i, j :: 0 <= i < j < |s| ==> s[i] != s[j]
  }

  /** The distinct parentIds of the records, in the order they are first met. */
  function Keys(rs: seq<Record>): (ks: seq<Option<string>>)
    ensures Distinct(ks)
    ensures forall k :: k in ks <==> k in ParentIds(rs)
  {
    if rs == [] then []
    else
      var prev, last := Keys(rs[..|rs| - 1]), rs[|rs| - 1];
      assert rs == rs[..|rs| - 1] + [last];
      assert ParentIds(rs) == ParentIds(rs[..|rs| - 1]) + {last.parentId};
      if last.parentId in prev then prev else prev + [last.parentId]
  }

  /** The distinct entries of the records under key, in the order they are first met. */
  function EntriesFor(rs: seq<Record>, key: Option<string>): (es: seq<string>)
    ensures Distinct(es)
    ensures forall e :: e in es <==> e in EntriesWithKey(rs, key)
  {
    if rs == [] then []
    else
      var prev, last := EntriesFor(rs[..|rs| - 1], key), rs[|rs| - 1];
      assert rs == rs[..|rs| - 1] + [last];
      assert EntriesWithKey(rs, key) ==
        EntriesWithKey(rs[..|rs| - 1], key) + (if last.parentId == key then {Entry(last)} else {});
      if last.parentId == key && Entry(last) !in prev then prev + [Entry(last)] else prev
  }

  /** The groups the reduce builds: one per distinct parentId, in first-seen order. */
  function GroupsOf(rs: seq<Record>): (gs: seq<Group>)
    ensures |gs| == |Keys(rs)|
    ensures forall i :: 0 <= i < |gs| ==> gs[i] == Group(Keys(rs)[i], EntriesFor(rs, Keys(rs)[i]))
  {
    var ks := Keys(rs);
    seq(|ks|, i requires 0 <= i < |ks| => Group(ks[i], EntriesFor(rs, ks[i])))
  }

  /** As many tiers as there are distinct parentIds among the records. */
  lemma TierCount(rs: seq<Record>)
    ensures |GroupsOf(rs)| == |ParentIds(rs)|
  {
    DistinctCard(Keys(rs));
    assert (set k | k in Keys(rs)) == ParentIds(rs);
  }

  lemma {:induction false} DistinctCard<T>(s: seq<T>)
    requires Distinct(s)
    ensures |set x | x in s| == |s|
  {
    if s != [] {
      var init := s[..|s| - 1];
      DistinctCard(init);
      assert (set x | x in s) == (set x | x in init) + {s[|s| - 1]};
      assert s[|s| - 1] !in init;
    }
  }

  /** The position of the group with the given key, or |groups| when there is none (`acc.get(key)`). */
  function FindGroup(groups: seq<Group>, key: Option<string>): (i: nat)
    ensures i <= |groups|
    ensures i < |groups| ==> groups[i].key == key
    ensures forall j :: 0 <= j < i ==> groups[j].key != key
  {
    if groups == [] then 0
    else if groups[0].key == key then 0
    else FindGroup(groups[1..], key) + 1
  }

  /** No entries are filed under a key that no record has. */
  lemma {:induction false} EntriesForAbsent(rs: seq<Record>, key: Option<string>)
    requires forall r :: r in rs ==> r.parentId != key
    ensures EntriesFor(rs, key) == []
  {
    if rs != [] {
      EntriesForAbsent(rs[..|rs| - 1], key);
    }
  }

  /** One more record leaves the entries of every other key unchanged. */
  lemma EntriesForOther(rs: seq<Record>, r: Record, key: Option<string>)
    requires key != r.parentId
    ensures EntriesFor(rs + [r], key) == EntriesFor(rs, key)
  {
    assert (rs + [r])[..|rs|] == rs;
  }

  /** A record with a key no earlier record has opens that key's entries and adds it last to the keys. */
  lemma SnocNewKey(rs: seq<Record>, r: Record)
    requires r.parentId !in Keys(rs)
    ensures Keys(rs + [r]) == Keys(rs) + [r.parentId]
    ensures EntriesFor(rs + [r], r.parentId) == [Entry(r)]
  {
    assert (rs + [r])[..|rs|] == rs;
    forall q | q in rs ensures q.parentId != r.parentId {
      assert q.parentId in ParentIds(rs);
    }
    EntriesForAbsent(rs, r.parentId);
  }

  /** When a record's key is new, the loop's new group lands where Keys puts it. */
  lemma GroupsSnocNew(rs: seq<Record>, r: Record)
    requires r.parentId !in Keys(rs)
    ensures GroupsOf(rs + [r]) == GroupsOf(rs) + [Group(r.parentId, [Entry(r)])]
  {
    var ks := Keys(rs);
    SnocNewKey(rs, r);
    var gs, gs' := GroupsOf(rs), GroupsOf(rs + [r]);
    var want := gs + [Group(r.parentId, [Entry(r)])];
    assert |gs'| == |ks| + 1 == |want|;
    forall i | 0 <= i < |ks| ensures gs'[i] == want[i] {
      assert ks[i] != r.parentId;
      EntriesForOther(rs, r, ks[i]);
    }
    assert gs'[|ks|] == want[|ks|];
    assert gs' == want;
  }

  /** When a record's key is known, only that key's group can change, by one new entry at most. */
  lemma GroupsSnocKnown(rs: seq<Record>, r: Record, t: nat)
    requires t < |Keys(rs)| && Keys(rs)[t] == r.parentId
    ensures GroupsOf(rs + [r]) == GroupsOf(rs)[t := Group(r.parentId,
      if Entry(r) in EntriesFor(rs, r.parentId) then EntriesFor(rs, r.parentId)
      else EntriesFor(rs, r.parentId) + [Entry(r)])]
  {
    var rs' := rs + [r];
    assert rs'[..|rs'| - 1] == rs;
    var ks := Keys(rs);
    assert Keys(rs') == ks;
    forall i | 0 <= i < |ks| && i != t ensures EntriesFor(rs', ks[i]) == EntriesFor(rs, ks[i]) {
      assert ks[i] != r.parentId;
    }
  }

  /** The reduce of `#generateMarkup`: builds the Map of Sets, one record at a time. */
  method BuildGroups(nodes: seq<Record>) returns (groups: seq<Group>)
    ensures groups == GroupsOf(nodes)
  {
    groups := [];
    for i := 0 to |nodes|
      invariant groups == GroupsOf(nodes[..i])
    {
      var node := nodes[i];
      assert nodes[..i + 1] == nodes[..i] + [node];
      var t := FindGroup(groups, node.parentId);
      var entry := Entry(node);
      if t < |groups| {
        GroupsSnocKnown(nodes[..i], node, t);
        if entry !in groups[t].entries {
          groups := groups[t := Group(node.parentId, groups[t].entries + [entry])];
        }
      } else {
        assert node.parentId !in Keys(nodes[..i]);
        GroupsSnocNew(nodes[..i], node);
        groups := groups + [Group(node.parentId, [entry])];
      }
    }
    assert nodes[..|nodes|] == nodes;
  }

  /** The container style every tier uses. */
  const ClassDef := "  classDef containers fill:transparent,stroke-width:0"

  const Header: seq<string> := ["graph TD", "", ClassDef, ""]

  /** The tier name of the i-th group. */
  function TierName(i: nat): string
  {
    "tier" + NatToString(i)
  }

  /** `  subgraph tier{i}[" "]`, the entries one per line, `  end` and a blank line. */
  function Block(i: nat, g: Group): string
  {
    "  subgraph " + TierName(i) + "[\" \"]\n      " + Join(g.entries, "\n      ") + "\n  end\n\n"
  }

  /** `  class tier0,…,tier{n-1} containers`. */
  function ClassLine(n: nat): string
  {
    "  class " + Join(seq(n, i requires 0 <= i => TierName(i)), ",") + " containers"
  }

  /** The whole markup: header lines, one block per group, the class line, joined by newlines. */
  function Render(groups: seq<Group>): string
  {
    Join(Header + seq(|groups|, i requires 0 <= i < |groups| => Block(i, groups[i])) + [ClassLine(|groups|)], "\n")
  }

  /** `#generateMarkup(nodes)`. */
  method GenerateMarkup(nodes: seq<Record>) returns (text: string)
    ensures text == Render(GroupsOf(nodes))
  {
    var groups := BuildGroups(nodes);
    text := Render(groups);
  }

  /** The header lines joined: `graph TD`, a blank line, the classDef line, a blank line. */
  const HeadText := "graph TD" + "\n\n" + ClassDef + "\n\n"

  lemma HeaderJoin()
    ensures Join(Header, "\n") + "\n" == HeadText
  {
    assert Join(Header[3..], "\n") == "";
    assert Join(Header[2..], "\n") == ClassDef + "\n" + "";
    assert Join(Header[1..], "\n") == "" + "\n" + Join(Header[2..], "\n");
    assert Join(Header, "\n") == "graph TD" + "\n" + Join(Header[1..], "\n");
  }

  /** The blocks and the class line joined end with the class line. */
  lemma TailJoin(blocks: seq<string>, cl: string)
    ensures exists rest :: Join(blocks + [cl], "\n") == rest + cl
  {
    if blocks == [] {
      assert blocks + [cl] == [cl];
      assert Join(blocks + [cl], "\n") == "" + cl;
    } else {
      JoinAppend(blocks, [cl], "\n");
      assert Join(blocks + [cl], "\n") == (Join(blocks, "\n") + "\n") + cl;
    }
  }

  /** The markup opens with `graph TD`, a blank line, the classDef line, a blank line, and ends with the class line. */
  lemma RenderShape(groups: seq<Group>)
    ensures var text, cl := Render(groups), ClassLine(|groups|);
      |HeadText| + |cl| <= |text| && text[..|HeadText|] == HeadText && text[|text| - |cl|..] == cl
  {
    var cl := ClassLine(|groups|);
    var blocks := seq(|groups|, i requires 0 <= i < |groups| => Block(i, groups[i]));
    var tail := blocks + [cl];
    JoinAppend(Header, tail, "\n");
    assert Header + blocks + [cl] == Header + tail;
    HeaderJoin();
    TailJoin(blocks, cl);
    var rest :| Join(tail, "\n") == rest + cl;
    var text := Render(groups);
    assert text == HeadText + rest + cl;
    assert text[..|HeadText|] == HeadText;
    assert text[|text| - |cl|..] == cl;
  }

  /** Every record's entry appears in the markup, in the block of the tier its parentId keys. */
  lemma EntryRendered(rs: seq<Record>, k: nat)
    requires k < |rs|
    ensures exists t :: 0 <= t < |Keys(rs)| && Keys(rs)[t] == rs[k].parentId &&
                        Contains(Block(t, GroupsOf(rs)[t]), Entry(rs[k])) &&
                        Contains(Render(GroupsOf(rs)), Block(t, GroupsOf(rs)[t]))
  {
    var r := rs[k];
    var gs := GroupsOf(rs);
    assert r.parentId in ParentIds(rs);
    var t :| 0 <= t < |Keys(rs)| && Keys(rs)[t] == r.parentId;
    assert Entry(r) in EntriesWithKey(rs, r.parentId);
    EntryInBlock(t, gs[t], Entry(r));
    BlockInRender(gs, t);
  }

  /** An entry of a group appears in that group's block. */
  lemma EntryInBlock(t: nat, g: Group, entry: string)
    requires entry in g.entries
    ensures Contains(Block(t, g), entry)
  {
    var es := g.entries;
    var e :| 0 <= e < |es| && es[e] == entry;
    JoinContains(es, "\n      ", e);
    ContainsMiddle("  subgraph " + TierName(t) + "[\" \"]\n      ", Join(es, "\n      "), "\n  end\n\n");
    ContainsTrans(Block(t, g), Join(es, "\n      "), entry);
  }

  /** Every group's block appears in the markup. */
  lemma BlockInRender(gs: seq<Group>, t: nat)
    requires t < |gs|
    ensures Contains(Render(gs), Block(t, gs[t]))
  {
    var parts := Header + seq(|gs|, i requires 0 <= i < |gs| => Block(i, gs[i])) + [ClassLine(|gs|)];
    assert parts[|Header| + t] == Block(t, gs[t]);
    JoinContains(parts, "\n", |Header| + t);
  }
}
