/** JavaScript values and plain objects, as far as the components use them.
    A plain object is a sequence of (key, value) pairs in insertion order:
    that is the order `Object.values` and object spread walk its own keys
    when no key is integer-like (JavaScript lists integer-like keys first, in
    ascending order; no key of the forms modelled here is one). */
module Js {

  /** A property value. `Str` holds the string form a value takes under
      `String(...)` or a template literal; `null` and `undefined` are kept
      apart because `===` tells them apart. */
  datatype Value = Undefined | Null | Str(s: string)

  /** A plain object: its own properties in insertion order. */
  type Record = seq<(string, Value)>

  /** Outcome of a network call: a 2xx reply with its decoded body, a non-2xx
      reply, or a thrown error (no backend URL, transport failure). A 2xx body
      that is not JSON arrives as an `Ok` body, `{ error: 'Invalid JSON response' }`. */
  datatype Reply<+T> = Ok(body: T) | NotOk | Threw

  datatype Option<+T> = None | Some(value: T)

  /** JavaScript truthiness of a string-valued property. */
  predicate Truthy(v: Value) {
    v.Str? && v.s != ""
  }

  /** `v || ''` */
  function OrEmpty(v: Value): (r: string)
    ensures Truthy(v) ==> r == v.s
    ensures !Truthy(v) ==> r == ""
  {
    if Truthy(v) then v.s else ""
  }

  /** `v ?? ''` followed by string conversion: only null and undefined collapse. */
  function OrEmptyNullish(v: Value): (r: string)
    ensures v.Str? ==> r == v.s
    ensures !v.Str? ==> r == ""
  {
    match v
    case Str(s) => s
    case _ => ""
  }

  function Keys(r: Record): (ks: seq<string>)
    ensures |ks| == |r|
    ensures forall i :: 0 <= i < |r| ==> ks[i] == r[i].0
  {
    if r == [] then [] else [r[0].0] + Keys(r[1..])
  }

  /** Own keys of a JavaScript object are pairwise distinct. */
  predicate UniqueKeys(r: Record) {
    forall i, j :: 0 <= i < j < |r| ==> r[i].0 != r[j].0
  }

  /** `r[k]`; a missing key reads as `undefined`. */
  function Get(r: Record, k: string): (v: Value)
    ensures k !in Keys(r) ==> v == Undefined
  {
    if r == [] then Undefined
    else if r[0].0 == k then r[0].1
    else Get(r[1..], k)
  }

  /** `{ ...r, [k]: v }`: an existing key keeps its position, a new one goes last. */
  function Set(r: Record, k: string, v: Value): Record {
    if r == [] then [(k, v)]
    else if r[0].0 == k then [(k, v)] + r[1..]
    else [r[0]] + Set(r[1..], k, v)
  }

  /** `{ ...a, ...b }` */
  function Merge(a: Record, b: Record): Record
    decreases |b|
  {
    if b == [] then a else Merge(Set(a, b[0].0, b[0].1), b[1..])
  }

  /** `Object.values(r).filter(v => v != null).map(String)` */
  function PresentTexts(r: Record): (ts: seq<string>)
    ensures |ts| <= |r|
  {
    if r == [] then []
    else (if r[0].1.Str? then [r[0].1.s] else []) + PresentTexts(r[1..])
  }

  lemma {:induction false} KeysIn(r: Record, i: nat)
    requires i < |r|
    ensures r[i].0 in Keys(r)
  {
    assert Keys(r)[i] == r[i].0;
  }

  /** Writing a key and reading any key back. */
  lemma {:induction false} GetSet(r: Record, k: string, v: Value, j: string)
    ensures Get(Set(r, k, v), j) == if j == k then v else Get(r, j)
  {
    if r != [] && r[0].0 != k {
      GetSet(r[1..], k, v, j);
    }
  }

  /** Writing a key keeps the key order and adds the key at the end when new. */
  lemma {:induction false} KeysSet(r: Record, k: string, v: Value)
    ensures Keys(Set(r, k, v)) == if k in Keys(r) then Keys(r) else Keys(r) + [k]
  {
    if r != [] && r[0].0 != k {
      KeysSet(r[1..], k, v);
      assert Keys(r) == [r[0].0] + Keys(r[1..]);
    }
  }

  /** Writing a key keeps the keys distinct. */
  lemma {:induction false} SetUnique(r: Record, k: string, v: Value)
    requires UniqueKeys(r)
    ensures UniqueKeys(Set(r, k, v))
  {
    KeysSet(r, k, v);
    var s := Set(r, k, v);
    assert Keys(s) == if k in Keys(r) then Keys(r) else Keys(r) + [k];
    forall i, j | 0 <= i < j < |s| ensures s[i].0 != s[j].0 {
      assert Keys(s)[i] == s[i].0 && Keys(s)[j] == s[j].0;
      if j < |r| {
        assert Keys(r)[i] == r[i].0 && Keys(r)[j] == r[j].0;
      } else {
        assert s[j].0 == k && k !in Keys(r);
        assert Keys(r)[i] == r[i].0;
      }
    }
  }

  /** Spreading `b` over `a`: keys of `b` take `b`'s value, the others keep `a`'s. */
  lemma {:induction false} GetMerge(a: Record, b: Record, k: string)
    requires UniqueKeys(b)
    ensures Get(Merge(a, b), k) == if k in Keys(b) then Get(b, k) else Get(a, k)
    decreases |b|
  {
    if b != [] {
      var a' := Set(a, b[0].0, b[0].1);
      assert UniqueKeys(b[1..]);
      GetMerge(a', b[1..], k);
      GetSet(a, b[0].0, b[0].1, k);
      assert Keys(b) == [b[0].0] + Keys(b[1..]);
      if k == b[0].0 {
        assert k !in Keys(b[1..]) by {
          forall i | 0 <= i < |b[1..]| ensures Keys(b[1..])[i] != k {
            assert b[1..][i] == b[i + 1];
          }
        }
      }
    }
  }

  /** With distinct keys, reading the key stored at a position gives the value stored there. */
  lemma {:induction false} GetAt(r: Record, i: nat)
    requires UniqueKeys(r) && i < |r|
    ensures Get(r, r[i].0) == r[i].1
  {
    if i > 0 {
      assert UniqueKeys(r[1..]);
      assert r[1..][i - 1] == r[i];
      GetAt(r[1..], i - 1);
    }
  }
}
