/**
  A plain JavaScript object whose values are strings (a CSV row object, an export row), as its
  own-key entries in insertion order. Property assignment overwrites an existing key in place and
  appends a new one, so keys stay distinct.
*/
module JsObject {
  import opened Wrappers

  type Obj = seq<(string, string)>

  /** `Object.keys(o)`. */
  function Keys(o: Obj): (ks: seq<string>)
    ensures |ks| == |o|
    ensures forall i :: 0 <= i < |o| ==> ks[i] == o[i].0
  {
    seq(|o|, i requires 0 <= i < |o| => o[i].0)
  }

  /** `o[k]`: the value of the first entry with key `k`, or `undefined`. */
  function Get(o: Obj, k: string): Option<string>
    decreases |o|
  {
    if o == [] then None
    else if o[0].0 == k then Some(o[0].1)
    else Get(o[1..], k)
  }

  /** `o[k]` is `undefined` exactly when no entry has key `k`; otherwise it is the value of the
      first entry with that key. */
  lemma {:induction false} GetFirst(o: Obj, k: string)
    ensures Get(o, k).None? <==> forall i :: 0 <= i < |o| ==> o[i].0 != k
    ensures Get(o, k).Some? ==>
      exists i :: 0 <= i < |o| && o[i] == (k, Get(o, k).value) && (forall j :: 0 <= j < i ==> o[j].0 != k)
    decreases |o|
  {
    if o != [] && o[0].0 != k {
      GetFirst(o[1..], k);
      if Get(o, k).Some? {
        var i :| 0 <= i < |o| - 1 && o[1..][i] == (k, Get(o, k).value) && (forall j :: 0 <= j < i ==> o[1..][j].0 != k);
        assert o[i + 1] == (k, Get(o, k).value);
        assert forall j :: 0 < j < i + 1 ==> o[j].0 == o[1..][j - 1].0;
      }
    } else if o != [] {
      assert o[0] == (k, Get(o, k).value);
    }
  }

  /** `o[k] = v`. */
  function Put(o: Obj, k: string, v: string): Obj
    decreases |o|
  {
    if o == [] then [(k, v)]
    else if o[0].0 == k then [(k, v)] + o[1..]
    else [o[0]] + Put(o[1..], k, v)
  }

  /** Assignment keeps the keys and their order, adding a new key at the end. */
  lemma {:induction false} PutKeys(o: Obj, k: string, v: string)
    ensures Keys(Put(o, k, v)) == if k in Keys(o) then Keys(o) else Keys(o) + [k]
    decreases |o|
  {
    if o == [] {
      assert Keys(Put(o, k, v)) == [k];
    } else {
      var rest := o[1..];
      assert o == [o[0]] + rest;
      KeysCons(o[0], rest);
      if o[0].0 == k {
        KeysCons((k, v), rest);
      } else {
        PutKeys(rest, k, v);
        KeysCons(o[0], Put(rest, k, v));
        assert k in Keys(o) <==> k in Keys(rest);
        if k !in Keys(o) {
          assert [o[0].0] + (Keys(rest) + [k]) == ([o[0].0] + Keys(rest)) + [k];
        }
      }
    }
  }

  /** The keys of an entry followed by an object. */
  lemma KeysCons(e: (string, string), o: Obj)
    ensures Keys([e] + o) == [e.0] + Keys(o)
  {
  }

  /** After `o[k] = v`, reading `k` gives `v` and every other key reads as before. */
  lemma {:induction false} GetPut(o: Obj, k: string, v: string, k': string)
    ensures Get(Put(o, k, v), k') == if k' == k then Some(v) else Get(o, k')
    decreases |o|
  {
    if o != [] && o[0].0 != k {
      GetPut(o[1..], k, v, k');
    }
  }

  /** `o[k] || ''` on a string-valued object: the value, or `''` when the key is missing. */
  function GetOrEmpty(o: Obj, k: string): (s: string)
    ensures Get(o, k).Some? ==> s == Get(o, k).value
    ensures Get(o, k).None? ==> s == ""
  {
    match Get(o, k)
    case Some(v) => v
    case None => ""
  }

  /** `o[k]` is truthy: present and not the empty string. */
  predicate Truthy(o: Obj, k: string) {
    Get(o, k).Some? && Get(o, k).value != ""
  }
}
