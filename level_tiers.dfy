/**
 * What the two level-based `generateMermaidMarkup` versions share: the deepest level
 * (`Math.max` over the levels), a tier (`nodes.filter(n => n.level === level)`), the text
 * of one node line, and the closing `class tier1,…,tierM containers` line.
 */
module LevelTiers {
  import opened Wrappers
  import opened Text
  import opened Sitemap
  import opened LevelFlatten
  import opened ParentGroups

  /**
   * `Math.max(...nodes.map(n => n.level))`. For an empty list JavaScript gives -Infinity;
   * here it is 0, which leaves the tier loop and the tier list of the class line empty
   * exactly as -Infinity does.
   */
  function MaxLevel(recs: seq<LevelRecord>): nat
  {
    if recs == [] then 0
    else
      var rest := MaxLevel(recs[1..]);
      if recs[0].level >= rest then recs[0].level else rest
  }

  /** The deepest level bounds every level and is the level of some record; 0 for no records. */
  lemma {:induction false} MaxLevelIsMax(recs: seq<LevelRecord>)
    ensures forall k :: 0 <= k < |recs| ==> recs[k].level <= MaxLevel(recs)
    ensures recs == [] ==> MaxLevel(recs) == 0
    ensures recs != [] ==> exists k :: 0 <= k < |recs| && recs[k].level == MaxLevel(recs)
  {
    if recs != [] {
      MaxLevelIsMax(recs[1..]);
      forall k | 1 <= k < |recs| ensures recs[k].level <= MaxLevel(recs) {
        assert recs[k] == recs[1..][k - 1];
      }
      if recs[1..] != [] && recs[0].level < MaxLevel(recs[1..]) {
        var k :| 0 <= k < |recs[1..]| && recs[1..][k].level == MaxLevel(recs[1..]);
        assert recs[k + 1].level == MaxLevel(recs);
      }
    }
  }

  /** `nodes.filter(n => n.level === level)`. */
  function Tier(recs: seq<LevelRecord>, level: nat): (t: seq<LevelRecord>)
    ensures |t| <= |recs|
  {
    if recs == [] then []
    else (if recs[0].level == level then [recs[0]] else []) + Tier(recs[1..], level)
  }

  /** A tier holds exactly the records of its level. */
  lemma {:induction false} TierMembers(recs: seq<LevelRecord>, level: nat)
    ensures forall x :: x in Tier(recs, level) <==> x in recs && x.level == level
  {
    if recs != [] {
      TierMembers(recs[1..], level);
      assert recs == [recs[0]] + recs[1..];
    }
  }

  /** A tier keeps the input order: the tier of a concatenation is the concatenation of the tiers. */
  lemma {:induction false} TierAppend(a: seq<LevelRecord>, b: seq<LevelRecord>, level: nat)
    ensures Tier(a + b, level) == Tier(a, level) + Tier(b, level)
  {
    if a == [] {
      assert a + b == b;
    } else {
      assert (a + b)[0] == a[0];
      assert (a + b)[1..] == a[1..] + b;
      TierAppend(a[1..], b, level);
      var h := if a[0].level == level then [a[0]] else [];
      AppendAssoc(h, Tier(a[1..], level), Tier(b, level));
    }
  }

  /** The number of records in the tiers 1..m together. */
  function TierSizes(recs: seq<LevelRecord>, m: nat): nat
  {
    if m == 0 then 0 else TierSizes(recs, m - 1) + |Tier(recs, m)|
  }

  lemma {:induction false} TierSizesCons(recs: seq<LevelRecord>, m: nat)
    requires recs != []
    ensures TierSizes(recs, m) == (if 1 <= recs[0].level <= m then 1 else 0) + TierSizes(recs[1..], m)
  {
    if m > 0 {
      TierSizesCons(recs, m - 1);
      assert |Tier(recs, m)| == (if recs[0].level == m then 1 else 0) + |Tier(recs[1..], m)|;
      assert TierSizes(recs[1..], m) == TierSizes(recs[1..], m - 1) + |Tier(recs[1..], m)|;
    }
  }

  /** When every level lies in 1..m, each record is in exactly one of the tiers 1..m. */
  lemma {:induction false} TiersPartition(recs: seq<LevelRecord>, m: nat)
    requires forall k :: 0 <= k < |recs| ==> 1 <= recs[k].level <= m
    ensures TierSizes(recs, m) == |recs|
  {
    if recs == [] {
      TierSizesEmpty(m);
    } else {
      TierSizesCons(recs, m);
      TiersPartition(recs[1..], m);
    }
  }

  lemma {:induction false} TierSizesEmpty(m: nat)
    ensures TierSizes([], m) == 0
  {
    if m > 0 {
      TierSizesEmpty(m - 1);
    }
  }

  /** Records whose levels start at 1 fill the tiers 1..MaxLevel without one left over. */
  lemma AllTiered(recs: seq<LevelRecord>)
    requires forall k :: 0 <= k < |recs| ==> recs[k].level >= 1
    ensures TierSizes(recs, MaxLevel(recs)) == |recs|
  {
    MaxLevelIsMax(recs);
    TiersPartition(recs, MaxLevel(recs));
  }

  /** A parentId as a template literal renders it: `null` for none. */
  function ParentText(p: Option<string>): string
  {
    if p.None? then "null" else p.value
  }

  /** One node line of a tier: `    id["name"]` in tier 1, `    parentId --- id["name"]` below it. */
  function NodeLine(rec: LevelRecord, level: nat): string
  {
    if level == 1 then "    " + rec.id + "[\"" + rec.name + "\"]"
    else "    " + ParentText(rec.parentId) + " --- " + rec.id + "[\"" + rec.name + "\"]"
  }

  /** The node lines of one tier, in tier order. */
  function TierLines(tier: seq<LevelRecord>, level: nat): (ls: seq<string>)
    ensures |ls| == |tier|
  {
    seq(|tier|, i requires 0 <= i < |tier| => NodeLine(tier[i], level))
  }

  /** The subgraph line of tier l. */
  function SubgraphLine(l: nat): string
  {
    "  subgraph " + TierName(l) + "[\" \"]"
  }

  lemma TierLinesSnoc(tier: seq<LevelRecord>, level: nat, j: nat)
    requires j < |tier|
    ensures TierLines(tier[..j + 1], level) == TierLines(tier[..j], level) + [NodeLine(tier[j], level)]
  {
    var a, b := TierLines(tier[..j + 1], level), TierLines(tier[..j], level) + [NodeLine(tier[j], level)];
    forall i | 0 <= i < |a| ensures a[i] == b[i] {
      if i < j {
        assert tier[..j + 1][i] == tier[..j][i];
      }
    }
  }

  /** `Array.from({length: m}, (_, i) => `tier${i + 1}`)`. */
  function TierNames(m: nat): seq<string>
  {
    seq(m, i requires 0 <= i => TierName(i + 1))
  }

  /** `  class tier1,…,tierM containers`. */
  function LevelClassLine(m: nat): string
  {
    "  class " + Join(TierNames(m), ",") + " containers"
  }

  /** The class line lists exactly tier1..tierM: splitting its list at the commas gives them back. */
  lemma ClassLineNamesTiers(m: nat)
    requires m >= 1
    ensures Split(Join(TierNames(m), ","), ',') == TierNames(m)
    ensures forall i :: 0 <= i < m ==> TierNames(m)[i] == "tier" + NatToString(i + 1)
  {
    forall k | 0 <= k < m ensures ',' !in TierNames(m)[k] {
      var digits := NatToString(k + 1);
      assert TierNames(m)[k] == "tier" + digits;
      forall j | 0 <= j < |TierNames(m)[k]| ensures TierNames(m)[k][j] != ',' {
        if j >= 4 {
          assert TierNames(m)[k][j] == digits[j - 4];
        }
      }
    }
    SplitJoin(TierNames(m), ',');
  }
}
