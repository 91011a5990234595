/**
  `[...new Set(values)].sort()`: the distinct values in ascending order. Default `sort` compares
  strings code unit by code unit; the model compares characters (see README).
*/
module StringOrder {

  /** `a` sorts strictly before `b`: lexicographic, a proper prefix first. */
  predicate Below(a: string, b: string)
    decreases |a|
  {
    || (a == [] && b != [])
    || (a != [] && b != [] && (a[0] < b[0] || (a[0] == b[0] && Below(a[1..], b[1..]))))
  }

  lemma {:induction false} BelowIrreflexive(a: string)
    ensures !Below(a, a)
    decreases |a|
  {
    if a != [] {
      BelowIrreflexive(a[1..]);
    }
  }

  lemma {:induction false} BelowTransitive(a: string, b: string, c: string)
    requires Below(a, b) && Below(b, c)
    ensures Below(a, c)
    decreases |a|
  {
    if a != [] && b != [] && c != [] && a[0] == b[0] == c[0] {
      BelowTransitive(a[1..], b[1..], c[1..]);
    }
  }

  lemma {:induction false} BelowTotal(a: string, b: string)
    requires a != b
    ensures Below(a, b) || Below(b, a)
    decreases |a|
  {
    if a != [] && b != [] && a[0] == b[0] {
      assert a == [a[0]] + a[1..] && b == [b[0]] + b[1..];
      BelowTotal(a[1..], b[1..]);
    }
  }

  lemma BelowAsymmetric(a: string, b: string)
    requires Below(a, b)
    ensures !Below(b, a)
  {
    if Below(b, a) {
      BelowTransitive(a, b, a);
      BelowIrreflexive(a);
    }
  }

  predicate StrictlyAscending(s: seq<string>) {
    forall i, j :: 0 <= i < j < |s| ==> Below(s[i], s[j])
  }

  /** Adds `x` to an ascending duplicate-free list, at its place, unless it is there. */
  function Insert(x: string, s: seq<string>): (r: seq<string>)
    requires StrictlyAscending(s)
    ensures StrictlyAscending(r)
    ensures forall y :: y in r <==> y in s || y == x
    decreases |s|
  {
    if s == [] then [x]
    else if x == s[0] then s
    else if Below(x, s[0]) then
      assert forall j :: 0 < j < |s| ==> Below(x, s[j]) by {
        forall j | 0 < j < |s| ensures Below(x, s[j]) { BelowTransitive(x, s[0], s[j]); }
      }
      [x] + s
    else
      BelowTotal(x, s[0]);
      var rest := Insert(x, s[1..]);
      assert forall y :: y in rest ==> Below(s[0], y);
      [s[0]] + rest
  }

  /** The distinct values of `xs`, strictly ascending. */
  function SortedSet(xs: seq<string>): (r: seq<string>)
    ensures StrictlyAscending(r)
    ensures forall y :: y in r <==> y in xs
    decreases |xs|
  {
    if xs == [] then [] else Insert(xs[|xs| - 1], SortedSet(xs[..|xs| - 1]))
  }

  /** A strictly ascending list is determined by its elements. */
  lemma {:induction false} AscendingUnique(a: seq<string>, b: seq<string>)
    requires StrictlyAscending(a) && StrictlyAscending(b)
    requires forall y :: y in a <==> y in b
    ensures a == b
    decreases |a|
  {
    if a != [] { assert a[0] in a; }
    if b != [] { assert b[0] in b; }
    if a != [] && b != [] {
      if a[0] != b[0] {
        assert a[0] in a && b[0] in b;
        var i :| 0 <= i < |b| && b[i] == a[0];
        var j :| 0 <= j < |a| && a[j] == b[0];
        assert Below(b[0], a[0]) by { assert i != 0; }
        assert Below(a[0], b[0]) by { assert j != 0; }
        BelowAsymmetric(a[0], b[0]);
      }
      forall y ensures y in a[1..] <==> y in b[1..] {
        if y in a[1..] {
          var k :| 0 <= k < |a| - 1 && a[1..][k] == y;
          assert a[k + 1] == y && Below(a[0], y);
          BelowIrreflexive(y);
          assert y in b && y != b[0];
          var m :| 0 <= m < |b| && b[m] == y;
          assert b[1..][m - 1] == y;
        }
        if y in b[1..] {
          var k :| 0 <= k < |b| - 1 && b[1..][k] == y;
          assert b[k + 1] == y && Below(b[0], y);
          BelowIrreflexive(y);
          assert y in a && y != a[0];
          var m :| 0 <= m < |a| && a[m] == y;
          assert a[1..][m - 1] == y;
        }
      }
      AscendingUnique(a[1..], b[1..]);
      assert a == [a[0]] + a[1..] && b == [b[0]] + b[1..];
    }
  }
}
