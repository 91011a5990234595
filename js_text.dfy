/**
  The JavaScript string built-ins the store and the CSV codec rely on, on `string` = `seq<char>`:
  `trim`, ASCII `toLowerCase`, `includes`, `split` and `join` with a separator, the two global
  `replace(/"/g, ...)` calls, and `Number.prototype.toString` on the id counter.
*/
module JsText {

  /** Characters removed by `String.prototype.trim`: ECMAScript WhiteSpace and LineTerminator. */
  predicate IsSpace(c: char) {
    || c == '\t' || c == '\n' || c == '\U{000B}' || c == '\U{000C}' || c == '\r' || c == ' '
    || c == '\U{00A0}' || c == '\U{1680}' || ('\U{2000}' <= c <= '\U{200A}')
    || c == '\U{2028}' || c == '\U{2029}' || c == '\U{202F}' || c == '\U{205F}'
    || c == '\U{3000}' || c == '\U{FEFF}'
  }

  /** No whitespace at either end: what `trim` returns. */
  predicate IsTrimmed(s: string) {
    s == [] || (!IsSpace(s[0]) && !IsSpace(s[|s| - 1]))
  }

  /** `s.trimStart()`: drops leading whitespace. */
  function TrimStart(s: string): string
    decreases |s|
  {
    if s != [] && IsSpace(s[0]) then TrimStart(s[1..]) else s
  }

  /** `s.trimStart()` is the longest suffix of `s` that does not start with whitespace. */
  lemma {:induction false} TrimStartSpec(s: string)
    ensures var r := TrimStart(s); |r| <= |s| && r == s[|s| - |r|..]
    ensures forall i :: 0 <= i < |s| - |TrimStart(s)| ==> IsSpace(s[i])
    ensures TrimStart(s) == [] || !IsSpace(TrimStart(s)[0])
    decreases |s|
  {
    if s != [] && IsSpace(s[0]) {
      TrimStartSpec(s[1..]);
      assert forall i :: 1 <= i < |s| - |TrimStart(s)| ==> s[i] == s[1..][i - 1];
    }
  }

  /** `s.trimEnd()`: drops trailing whitespace. */
  function TrimEnd(s: string): string
    decreases |s|
  {
    if s != [] && IsSpace(s[|s| - 1]) then TrimEnd(s[..|s| - 1]) else s
  }

  /** `s.trimEnd()` is the longest prefix of `s` that does not end with whitespace. */
  lemma {:induction false} TrimEndSpec(s: string)
    ensures var r := TrimEnd(s); |r| <= |s| && r == s[..|r|]
    ensures forall i :: |TrimEnd(s)| <= i < |s| ==> IsSpace(s[i])
    ensures TrimEnd(s) == [] || !IsSpace(TrimEnd(s)[|TrimEnd(s)| - 1])
    decreases |s|
  {
    if s != [] && IsSpace(s[|s| - 1]) {
      TrimEndSpec(s[..|s| - 1]);
    }
  }

  /** `s.trim()`. */
  function Trim(s: string): string {
    TrimEnd(TrimStart(s))
  }

  /** The result of `trim` has no whitespace at either end, and a string that has none is kept. */
  lemma TrimSpec(s: string)
    ensures |Trim(s)| <= |s|
    ensures IsTrimmed(Trim(s))
    ensures IsTrimmed(s) ==> Trim(s) == s
  {
    var t := TrimStart(s);
    TrimStartSpec(s);
    TrimEndSpec(t);
    var r := TrimEnd(t);
    assert r != [] ==> r[0] == t[0];
  }

  /** Trimming only removes characters. */
  lemma TrimWithin(s: string)
    ensures forall c :: c in Trim(s) ==> c in s
  {
    var t := TrimStart(s);
    TrimStartSpec(s);
    TrimEndSpec(t);
    assert forall c :: c in t ==> c in s;
  }

  /** A trimmed string is empty exactly when the original was all whitespace. */
  lemma TrimEmpty(s: string)
    ensures Trim(s) == [] <==> forall i :: 0 <= i < |s| ==> IsSpace(s[i])
  {
    var t := TrimStart(s);
    TrimStartSpec(s);
    TrimEndSpec(t);
    if t != [] {
      assert !IsSpace(t[0]) && t[0] == s[|s| - |t|];
    }
  }

  /** ASCII case folding; the model does not cover Unicode `toLowerCase`. */
  function LowerChar(c: char): char {
    if 'A' <= c <= 'Z' then (c as int + 32) as char else c
  }

  function Lower(s: string): (r: string)
    ensures |r| == |s|
    ensures forall i :: 0 <= i < |s| ==> r[i] == LowerChar(s[i])
  {
    seq(|s|, i requires 0 <= i < |s| => LowerChar(s[i]))
  }

  /** `s.includes(sub)`: `sub` occurs in `s` at some position. */
  predicate Contains(s: string, sub: string)
    decreases |s|
  {
    sub <= s || (s != [] && Contains(s[1..], sub))
  }

  /** `sub` occurs in `s` starting at index `i`. */
  predicate OccursAt(s: string, sub: string, i: int) {
    0 <= i <= |s| - |sub| && s[i..i + |sub|] == sub
  }

  /** `Contains` means an occurrence at some index, in both directions. */
  lemma {:induction false} ContainsIff(s: string, sub: string)
    ensures Contains(s, sub) <==> exists i :: OccursAt(s, sub, i)
    decreases |s|
  {
    if sub <= s {
      assert OccursAt(s, sub, 0);
    } else if s != [] {
      ContainsIff(s[1..], sub);
      if exists i :: OccursAt(s, sub, i) {
        var i :| OccursAt(s, sub, i);
        assert i != 0;
        assert OccursAt(s[1..], sub, i - 1);
      }
      if exists j :: OccursAt(s[1..], sub, j) {
        var j :| OccursAt(s[1..], sub, j);
        assert s[j + 1..j + 1 + |sub|] == s[1..][j..j + |sub|];
        assert OccursAt(s, sub, j + 1);
      }
    }
  }

  /** `s.includes(c)` for a one-character string is membership. */
  lemma ContainsChar(s: string, c: char)
    ensures Contains(s, [c]) <==> c in s
  {
    ContainsIff(s, [c]);
    if c in s {
      var i :| 0 <= i < |s| && s[i] == c;
      assert s[i..i + 1] == [c];
      assert OccursAt(s, [c], i);
    }
    if exists i :: OccursAt(s, [c], i) {
      var i :| OccursAt(s, [c], i);
      assert s[i] == s[i..i + 1][0] == c;
    }
  }

  /** `s.split(sep)` for a one-character separator: the pieces between separators, never empty. */
  function Split(s: string, sep: char): (r: seq<string>)
    ensures |r| >= 1
    ensures forall k :: 0 <= k < |r| ==> sep !in r[k]
    decreases |s|
  {
    if s == [] then [[]]
    else
      var rest := Split(s[1..], sep);
      if s[0] == sep then [[]] + rest else [[s[0]] + rest[0]] + rest[1..]
  }

  /** `parts.join(sep)`. */
  function Join(parts: seq<string>, sep: string): string
    decreases |parts|
  {
    if parts == [] then []
    else if |parts| == 1 then parts[0]
    else parts[0] + sep + Join(parts[1..], sep)
  }

  /** A join starts where its first piece starts... */
  lemma JoinFirst(parts: seq<string>, sep: string)
    requires |parts| >= 1 && parts[0] != []
    ensures Join(parts, sep) != [] && Join(parts, sep)[0] == parts[0][0]
  {
  }

  /** ...and ends where its last piece ends. */
  lemma {:induction false} JoinLast(parts: seq<string>, sep: string)
    requires |parts| >= 1 && parts[|parts| - 1] != []
    ensures var j := Join(parts, sep); j != [] && j[|j| - 1] == parts[|parts| - 1][|parts[|parts| - 1]| - 1]
    decreases |parts|
  {
    if |parts| > 1 {
      JoinLast(parts[1..], sep);
    }
  }

  /** Joining two non-empty lists of pieces is joining each and putting the separator between. */
  lemma {:induction false} JoinAppend(a: seq<string>, b: seq<string>, sep: string)
    requires |a| >= 1 && |b| >= 1
    ensures Join(a + b, sep) == Join(a, sep) + sep + Join(b, sep)
    decreases |a|
  {
    if |a| > 1 {
      JoinAppend(a[1..], b, sep);
      assert (a + b)[1..] == a[1..] + b;
    } else {
      assert (a + b)[1..] == b;
    }
  }

  /** A character absent from every piece and from the separator is absent from the join. */
  lemma {:induction false} JoinExcludes(parts: seq<string>, sep: string, c: char)
    requires forall k :: 0 <= k < |parts| ==> c !in parts[k]
    requires c !in sep
    ensures c !in Join(parts, sep)
    decreases |parts|
  {
    if |parts| > 1 {
      JoinExcludes(parts[1..], sep, c);
    }
  }

  /** A separator-free prefix stays in the first piece. */
  lemma {:induction false} SplitPrefix(p: string, t: string, sep: char)
    requires sep !in p
    ensures Split(p + t, sep) == [p + Split(t, sep)[0]] + Split(t, sep)[1..]
    decreases |p|
  {
    if p != [] {
      assert (p + t)[0] == p[0] != sep && (p + t)[1..] == p[1..] + t;
      SplitPrefix(p[1..], t, sep);
      var st := Split(t, sep);
      var rest := Split(p[1..] + t, sep);
      assert Split(p + t, sep) == [[p[0]] + rest[0]] + rest[1..];
      assert [p[0]] + (p[1..] + st[0]) == p + st[0];
    } else {
      var st := Split(t, sep);
      assert p + t == t && p + st[0] == st[0] && [st[0]] + st[1..] == st;
    }
  }

  /** Splitting a join of separator-free pieces gives the pieces back. */
  lemma {:induction false} SplitJoin(parts: seq<string>, sep: char)
    requires |parts| >= 1
    requires forall k :: 0 <= k < |parts| ==> sep !in parts[k]
    ensures Split(Join(parts, [sep]), sep) == parts
    decreases |parts|
  {
    if |parts| == 1 {
      SplitPrefix(parts[0], [], sep);
      assert parts[0] + [] == parts[0] && Split([], sep) == [[]];
      assert [parts[0]] == parts;
    } else {
      var rest := Join(parts[1..], [sep]);
      SplitJoin(parts[1..], sep);
      assert Join(parts, [sep]) == parts[0] + ([sep] + rest);
      SplitPrefix(parts[0], [sep] + rest, sep);
      assert ([sep] + rest)[0] == sep && ([sep] + rest)[1..] == rest;
      assert Split([sep] + rest, sep) == [[]] + parts[1..];
      assert parts[0] + [] == parts[0] && [parts[0]] + parts[1..] == parts;
    }
  }

  /** Joining the pieces of a split with the same separator gives the string back. */
  lemma {:induction false} JoinSplit(s: string, sep: char)
    ensures Join(Split(s, sep), [sep]) == s
    decreases |s|
  {
    if s != [] {
      var rest := Split(s[1..], sep);
      JoinSplit(s[1..], sep);
      if s[0] != sep {
        if |rest| == 1 {
          assert s == [s[0]] + rest[0];
        } else {
          assert Join(rest, [sep]) == rest[0] + [sep] + Join(rest[1..], [sep]);
          assert s == ([s[0]] + rest[0]) + [sep] + Join(rest[1..], [sep]);
        }
      }
    }
  }

  /** `s.replace(/"/g, '')`: every double quote removed, the rest kept in order. */
  function RemoveQuotes(s: string): (r: string)
    ensures '"' !in r
    ensures '"' !in s ==> r == s
    decreases |s|
  {
    if s == [] then []
    else (if s[0] == '"' then [] else [s[0]]) + RemoveQuotes(s[1..])
  }

  /** Removing quotes adds no character. */
  lemma {:induction false} RemoveQuotesWithin(s: string, c: char)
    requires c !in s
    ensures c !in RemoveQuotes(s)
    decreases |s|
  {
    if s != [] {
      RemoveQuotesWithin(s[1..], c);
    }
  }

  /** `s.replace(/"/g, '""')`: every double quote written twice. */
  function DoubleQuotes(s: string): string
    decreases |s|
  {
    if s == [] then []
    else (if s[0] == '"' then "\"\"" else [s[0]]) + DoubleQuotes(s[1..])
  }

  /** Doubling quotes adds no other character. */
  lemma {:induction false} DoubleQuotesWithin(s: string, c: char)
    requires c != '"' && c !in s
    ensures c !in DoubleQuotes(s)
    decreases |s|
  {
    if s != [] {
      DoubleQuotesWithin(s[1..], c);
    }
  }

  /** The decimal digit for `d`. */
  function DigitChar(d: nat): (c: char)
    requires d < 10
    ensures '0' <= c <= '9'
  {
    ('0' as int + d) as char
  }

  /** `n.toString()` for a non-negative integer: its decimal numeral. */
  function NatToString(n: nat): (r: string)
    ensures |r| >= 1
    ensures (|r| == 1) == (n < 10)
    ensures forall i :: 0 <= i < |r| ==> '0' <= r[i] <= '9'
  {
    if n < 10 then [DigitChar(n)] else NatToString(n / 10) + [DigitChar(n % 10)]
  }

  /** Distinct counters give distinct ids. */
  lemma {:induction false} NatToStringInjective(a: nat, b: nat)
    requires NatToString(a) == NatToString(b)
    ensures a == b
  {
    if a >= 10 && b >= 10 {
      var sa, sb := NatToString(a), NatToString(b);
      assert sa[|sa| - 1] == DigitChar(a % 10) && sb[|sb| - 1] == DigitChar(b % 10);
      assert sa[..|sa| - 1] == NatToString(a / 10);
      assert sb[..|sb| - 1] == NatToString(b / 10);
      NatToStringInjective(a / 10, b / 10);
    }
  }
}
