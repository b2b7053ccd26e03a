/**
 * String helpers shared by every markup and export generator: decimal rendering of
 * numbers (JavaScript template interpolation of an integer), `Array.prototype.join`,
 * `String.prototype.repeat` for spaces, splitting on a separator, and
 * `String.prototype.replace` with a literal pattern (first occurrence only).
 */
module Text {

  /** The character of a decimal digit. */
  function Digit(d: nat): (c: char)
    requires d < 10
    ensures '0' <= c <= '9'
    ensures (c as int) - ('0' as int) == d
  {
    (('0' as int) + d) as char
  }

  /** The decimal digits of n, as a template literal `${n}` renders a non-negative integer. */
  function NatToString(n: nat): (s: string)
    ensures 1 <= |s|
    ensures forall i :: 0 <= i < |s| ==> '0' <= s[i] <= '9'
  {
    if n < 10 then [Digit(n)] else NatToString(n / 10) + [Digit(n % 10)]
  }

  /** The value of a string of decimal digits (the inverse of NatToString). */
  function ParseDigits(s: string): nat
  {
    if s == [] then 0
    else
      var d := (s[|s| - 1] as int) - ('0' as int);
      ParseDigits(s[..|s| - 1]) * 10 + (if 0 <= d then d else 0)
  }

  /** Reading back the decimal rendering of n gives n. */
  lemma {:induction false} ParseNatToString(n: nat)
    ensures ParseDigits(NatToString(n)) == n
  {
    var s := NatToString(n);
    if n >= 10 {
      ParseNatToString(n / 10);
      assert s[..|s| - 1] == NatToString(n / 10);
    }
  }

  /** Distinct numbers have distinct decimal renderings, so tier and hash ids never collide by rendering. */
  lemma NatToStringInjective(m: nat, n: nat)
    requires NatToString(m) == NatToString(n)
    ensures m == n
  {
    ParseNatToString(m);
    ParseNatToString(n);
  }

  /** `parts.join(sep)`: the parts with sep between consecutive ones. */
  function Join(parts: seq<string>, sep: string): string
  {
    if |parts| == 0 then ""
    else if |parts| == 1 then parts[0]
    else parts[0] + sep + Join(parts[1..], sep)
  }

  /** `' '.repeat(n)`. */
  function Spaces(n: nat): (s: string)
    ensures |s| == n
    ensures forall i :: 0 <= i < n ==> s[i] == ' '
  {
    seq(n, _ => ' ')
  }

  /** Splits s at every occurrence of the character sep (`s.split(sep)`): never empty. */
  function Split(s: string, sep: char): (parts: seq<string>)
    ensures |parts| >= 1
    decreases |s|
  {
    if sep !in s then [s]
    else
      var i := IndexOf(s, sep);
      [s[..i]] + Split(s[i + 1..], sep)
  }

  /** The position of the first occurrence of c in s. */
  function IndexOf(s: string, c: char): (i: nat)
    requires c in s
    ensures i < |s| && s[i] == c && c !in s[..i]
  {
    if s[0] == c then 0 else IndexOf(s[1..], c) + 1
  }

  /** Splitting a join on a separator that occurs in no part gives the parts back. */
  lemma {:induction false} SplitJoin(parts: seq<string>, sep: char)
    requires |parts| >= 1
    requires forall k :: 0 <= k < |parts| ==> sep !in parts[k]
    ensures Split(Join(parts, [sep]), sep) == parts
  {
    if |parts| > 1 {
      var rest := Join(parts[1..], [sep]);
      SplitFirst(parts[0], sep, rest);
      SplitJoin(parts[1..], sep);
    }
  }

  /** Splitting a piece without the separator, the separator and a rest cuts at that separator. */
  lemma SplitFirst(a: string, sep: char, rest: string)
    requires sep !in a
    ensures Split(a + [sep] + rest, sep) == [a] + Split(rest, sep)
  {
    var s := a + [sep] + rest;
    assert s[|a|] == sep;
    assert forall j :: 0 <= j < |a| ==> s[j] == a[j];
    var i := IndexOf(s, sep);
    assert i == |a|;
    assert s[..i] == a;
    assert s[i + 1..] == rest;
  }

  /** True when pat occurs in s starting at position i. */
  predicate OccursAt(s: string, pat: string, i: nat)
  {
    i + |pat| <= |s| && s[i..i + |pat|] == pat
  }

  /** `s.replace(pat, "")` for a literal pattern: removes the first occurrence of pat, if any. */
  function RemoveFirst(s: string, pat: string): (r: string)
    decreases |s|
  {
    if |s| < |pat| then s
    else if s[..|pat|] == pat then s[|pat|..]
    else [s[0]] + RemoveFirst(s[1..], pat)
  }

  /** RemoveFirst leaves a string without an occurrence of pat unchanged. */
  lemma {:induction false} RemoveFirstAbsent(s: string, pat: string)
    requires forall i :: 0 <= i <= |s| ==> !OccursAt(s, pat, i)
    ensures RemoveFirst(s, pat) == s
  {
    if |s| >= |pat| {
      assert !OccursAt(s, pat, 0);
      assert s[0..|pat|] == s[..|pat|];
      forall i | 0 <= i <= |s[1..]|
        ensures !OccursAt(s[1..], pat, i)
      {
        assert !OccursAt(s, pat, i + 1);
        if i + |pat| <= |s[1..]| {
          assert s[1..][i..i + |pat|] == s[i + 1..i + 1 + |pat|];
        }
      }
      RemoveFirstAbsent(s[1..], pat);
    }
  }

  /** RemoveFirst cuts out exactly the first occurrence of pat. */
  lemma {:induction false} RemoveFirstCuts(s: string, pat: string, i: nat)
    requires OccursAt(s, pat, i)
    requires forall j :: 0 <= j < i ==> !OccursAt(s, pat, j)
    ensures RemoveFirst(s, pat) == s[..i] + s[i + |pat|..]
  {
    if i == 0 {
      assert s[0..|pat|] == s[..|pat|];
    } else {
      assert !OccursAt(s, pat, 0);
      assert s[0..|pat|] == s[..|pat|];
      assert RemoveFirst(s, pat) == [s[0]] + RemoveFirst(s[1..], pat);
      TailOccurs(s, pat, i);
      RemoveFirstCuts(s[1..], pat, i - 1);
      ConsCut(s, i, |pat|);
    }
  }

  /** The first occurrence at i > 0 is the first occurrence at i - 1 of the tail. */
  lemma TailOccurs(s: string, pat: string, i: nat)
    requires 0 < i && OccursAt(s, pat, i)
    requires forall j :: 0 <= j < i ==> !OccursAt(s, pat, j)
    ensures OccursAt(s[1..], pat, i - 1)
    ensures forall j :: 0 <= j < i - 1 ==> !OccursAt(s[1..], pat, j)
  {
    var t := s[1..];
    assert t[i - 1..i - 1 + |pat|] == s[i..i + |pat|];
    forall j | 0 <= j < i - 1
      ensures !OccursAt(t, pat, j)
    {
      assert !OccursAt(s, pat, j + 1);
      assert t[j..j + |pat|] == s[j + 1..j + 1 + |pat|];
    }
  }

  lemma ConsCut(s: string, i: nat, m: nat)
    requires 0 < i && i + m <= |s|
    ensures [s[0]] + (s[1..][..i - 1] + s[1..][i - 1 + m..]) == s[..i] + s[i + m..]
  {
    var t := s[1..];
    assert t[..i - 1] == s[1..i];
    assert t[i - 1 + m..] == s[i + m..];
    assert [s[0]] + s[1..i] == s[..i];
  }

  /** x occurs in s as a contiguous piece. */
  ghost predicate Contains(s: string, x: string)
  {
    exists i: nat :: OccursAt(s, x, i)
  }

  lemma ContainsMiddle(a: string, x: string, b: string)
    ensures Contains(a + x + b, x)
  {
    assert (a + x + b)[|a|..|a| + |x|] == x;
    assert OccursAt(a + x + b, x, |a|);
  }

  lemma ContainsTrans(s: string, t: string, u: string)
    requires Contains(s, t) && Contains(t, u)
    ensures Contains(s, u)
  {
    var i: nat :| OccursAt(s, t, i);
    var j: nat :| OccursAt(t, u, j);
    forall m | 0 <= m < |u| ensures s[i + j + m] == u[m] {
      assert t[j + m] == u[m];
      assert s[i + (j + m)] == t[j + m];
    }
    assert s[i + j..i + j + |u|] == u;
    assert OccursAt(s, u, i + j);
  }

  /** Every part of a join occurs in it. */
  lemma {:induction false} JoinContains(parts: seq<string>, sep: string, k: nat)
    requires k < |parts|
    ensures Contains(Join(parts, sep), parts[k])
  {
    if |parts| == 1 {
      ContainsMiddle("", parts[0], "");
      assert "" + parts[0] + "" == parts[0];
    } else if k == 0 {
      ContainsMiddle("", parts[0], sep + Join(parts[1..], sep));
      assert "" + parts[0] + (sep + Join(parts[1..], sep)) == Join(parts, sep);
    } else {
      JoinContains(parts[1..], sep, k - 1);
      ContainsMiddle(parts[0] + sep, Join(parts[1..], sep), "");
      assert parts[0] + sep + Join(parts[1..], sep) + "" == Join(parts, sep);
      ContainsTrans(Join(parts, sep), Join(parts[1..], sep), parts[k]);
    }
  }

  /** Joining two non-empty lists is joining each and putting the separator between. */
  lemma {:induction false} JoinAppend(xs: seq<string>, ys: seq<string>, sep: string)
    requires |xs| >= 1 && |ys| >= 1
    ensures Join(xs + ys, sep) == Join(xs, sep) + sep + Join(ys, sep)
  {
    if |xs| > 1 {
      assert (xs + ys)[1..] == xs[1..] + ys;
      JoinAppend(xs[1..], ys, sep);
    }
  }

  /** A character in neither the parts nor the separator is not in their join. */
  lemma {:induction false} JoinFree(parts: seq<string>, sep: string, c: char)
    requires c !in sep && forall k :: 0 <= k < |parts| ==> c !in parts[k]
    ensures c !in Join(parts, sep)
  {
    if |parts| > 1 {
      JoinFree(parts[1..], sep, c);
    }
  }
}
