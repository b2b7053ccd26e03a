/**
 * A JavaScript `Set` as the model keeps it: a sequence in insertion order holding each
 * element once, with `add` appending an element that is not there yet and `delete` dropping it.
 */
module JsSet {

  predicate NoDuplicates<T(==)>(s: seq<T>)
  {
    forall i, j :: 0 <= i < j < |s| ==> s[i] != s[j]
  }

  /** `set.add(v)`: appended unless already there. */
  function Added<T(==,!new)>(s: seq<T>, v: T): (r: seq<T>)
    ensures forall x :: x in r <==> x in s || x == v
    ensures NoDuplicates(s) ==> NoDuplicates(r)
    ensures v in s ==> r == s
  {
    if v in s then s else s + [v]
  }

  /** `set.delete(v)`. */
  function Removed<T(==)>(s: seq<T>, v: T): (r: seq<T>)
    ensures |r| <= |s|
  {
    if s == [] then []
    else (if s[0] == v then [] else [s[0]]) + Removed(s[1..], v)
  }

  /** Deleting keeps exactly the other elements. */
  lemma {:induction false} RemovedMembers<T>(s: seq<T>, v: T)
    ensures forall x :: x in Removed(s, v) <==> x in s && x != v
  {
    if s != [] {
      RemovedMembers(s[1..], v);
      assert s == [s[0]] + s[1..];
    }
  }

  /** Deleting keeps a set free of duplicates. */
  lemma {:induction false} RemovedNoDuplicates<T>(s: seq<T>, v: T)
    requires NoDuplicates(s)
    ensures NoDuplicates(Removed(s, v))
  {
    if s != [] {
      var rest := Removed(s[1..], v);
      RemovedNoDuplicates(s[1..], v);
      RemovedMembers(s[1..], v);
      assert s[0] !in s[1..] by {
        forall k | 0 <= k < |s[1..]| ensures s[1..][k] != s[0] {
          assert s[1..][k] == s[k + 1];
        }
      }
      if s[0] != v {
        var r := [s[0]] + rest;
        forall i, j | 0 <= i < j < |r| ensures r[i] != r[j] {
          if i == 0 {
            assert r[j] == rest[j - 1];
            assert r[j] in rest;
          } else {
            assert r[i] == rest[i - 1] && r[j] == rest[j - 1];
          }
        }
      } else {
        assert Removed(s, v) == [] + rest;
      }
    }
  }

  lemma {:induction false} RemovedAbsent<T>(s: seq<T>, v: T)
    requires v !in s
    ensures Removed(s, v) == s
  {
    if s != [] {
      RemovedAbsent(s[1..], v);
      assert s == [s[0]] + s[1..];
    }
  }

  lemma {:induction false} RemovedAppend<T>(a: seq<T>, b: seq<T>, v: T)
    ensures Removed(a + b, v) == Removed(a, v) + Removed(b, v)
  {
    if a == [] {
      assert a + b == b;
    } else {
      assert (a + b)[0] == a[0];
      assert (a + b)[1..] == a[1..] + b;
      RemovedAppend(a[1..], b, v);
      var h := if a[0] == v then [] else [a[0]];
      assert h + (Removed(a[1..], v) + Removed(b, v)) == (h + Removed(a[1..], v)) + Removed(b, v);
    }
  }

  /** Deleting a callback that sits once between a and b leaves a and b. */
  lemma {:induction false} RemovedMiddle<T>(a: seq<T>, x: T, b: seq<T>)
    requires x !in a && x !in b
    ensures Removed(a + [x] + b, x) == a + b
  {
    if a == [] {
      assert a + [x] + b == [x] + b;
      assert ([x] + b)[1..] == b;
      RemovedAbsent(b, x);
    } else {
      assert (a + [x] + b)[0] == a[0];
      assert (a + [x] + b)[1..] == a[1..] + [x] + b;
      RemovedMiddle(a[1..], x, b);
      assert a + b == [a[0]] + (a[1..] + b);
    }
  }
}
