/** `Array.prototype.filter` and the facts about it that the components rely on. */
module Seqs {

  /** `s.filter(p)`: the elements satisfying `p`, in their original order. */
  function Filter<T(==)>(s: seq<T>, p: T -> bool): (r: seq<T>)
    ensures |r| <= |s|
    ensures forall i :: 0 <= i < |r| ==> r[i] in s && p(r[i])
    ensures forall i :: 0 <= i < |s| && p(s[i]) ==> s[i] in r
  {
    if s == [] then []
    else if p(s[0]) then [s[0]] + Filter(s[1..], p)
    else Filter(s[1..], p)
  }

  /** `r` can be obtained from `s` by deleting elements: order is preserved. */
  ghost predicate SubsequenceOf<T>(r: seq<T>, s: seq<T>)
    decreases |s|
  {
    if r == [] then true
    else if s == [] then false
    else (r[0] == s[0] && SubsequenceOf(r[1..], s[1..])) || SubsequenceOf(r, s[1..])
  }

  lemma {:induction false} FilterIsSubsequence<T>(s: seq<T>, p: T -> bool)
    ensures SubsequenceOf(Filter(s, p), s)
  {
    if s != [] {
      FilterIsSubsequence(s[1..], p);
      var r := Filter(s, p);
      if p(s[0]) {
        assert r[0] == s[0] && r[1..] == Filter(s[1..], p);
      }
    }
  }

  /** Filtering twice with the same predicate changes nothing more. */
  lemma {:induction false} FilterIdempotent<T>(s: seq<T>, p: T -> bool)
    ensures Filter(Filter(s, p), p) == Filter(s, p)
  {
    if s != [] {
      FilterIdempotent(s[1..], p);
      if p(s[0]) {
        assert Filter(s, p) == [s[0]] + Filter(s[1..], p);
        assert Filter(s, p)[1..] == Filter(s[1..], p);
      }
    }
  }

  /** Two filters applied in either order give the same sequence. */
  lemma {:induction false} FilterCommute<T>(s: seq<T>, p: T -> bool, q: T -> bool)
    ensures Filter(Filter(s, p), q) == Filter(Filter(s, q), p)
  {
    if s != [] {
      FilterCommute(s[1..], p, q);
      var fp, fq := Filter(s, p), Filter(s, q);
      if p(s[0]) { assert fp[0] == s[0] && fp[1..] == Filter(s[1..], p); }
      if q(s[0]) { assert fq[0] == s[0] && fq[1..] == Filter(s[1..], q); }
    }
  }

  /** Predicates that agree everywhere filter alike. */
  lemma {:induction false} FilterCongruent<T>(s: seq<T>, p: T -> bool, q: T -> bool)
    requires forall x :: x in s ==> p(x) == q(x)
    ensures Filter(s, p) == Filter(s, q)
  {
    if s != [] {
      assert s[0] in s;
      forall x | x in s[1..] ensures p(x) == q(x) { assert x in s; }
      FilterCongruent(s[1..], p, q);
    }
  }

  /** Nothing is dropped exactly when every element passes. */
  lemma {:induction false} FilterKeepsAll<T>(s: seq<T>, p: T -> bool)
    ensures Filter(s, p) == s <==> forall x :: x in s ==> p(x)
  {
    if s != [] {
      FilterKeepsAll(s[1..], p);
      if !p(s[0]) {
        assert |Filter(s, p)| <= |s[1..]| < |s|;
      } else {
        assert Filter(s, p) == [s[0]] + Filter(s[1..], p);
        assert s == [s[0]] + s[1..];
        if Filter(s, p) == s {
          assert Filter(s[1..], p) == s[1..];
        }
        forall x | x in s ensures x == s[0] || x in s[1..] {
        }
      }
    }
  }

  /** Filtering keeps elements whose keys were pairwise distinct pairwise distinct. */
  lemma {:induction false} FilterKeepsKeysDistinct<T, K>(s: seq<T>, p: T -> bool, key: T -> K)
    requires forall i, j :: 0 <= i < j < |s| ==> key(s[i]) != key(s[j])
    ensures forall i, j :: 0 <= i < j < |Filter(s, p)| ==> key(Filter(s, p)[i]) != key(Filter(s, p)[j])
  {
    if s != [] {
      var s' := s[1..];
      assert forall i, j :: 0 <= i < j < |s'| ==> key(s'[i]) != key(s'[j]) by {
        forall i, j | 0 <= i < j < |s'| ensures key(s'[i]) != key(s'[j]) {
          assert s'[i] == s[i + 1] && s'[j] == s[j + 1];
        }
      }
      FilterKeepsKeysDistinct(s', p, key);
      var t := Filter(s', p);
      if p(s[0]) {
        var r := Filter(s, p);
        assert r == [s[0]] + t;
        forall j | 0 <= j < |t| ensures key(s[0]) != key(t[j]) {
          var k :| 0 <= k < |s[1..]| && s[1..][k] == t[j];
          assert s[k + 1] == t[j];
        }
        assert forall i, j :: 0 <= i < j < |t| ==> key(t[i]) != key(t[j]);
        forall i, j | 0 <= i < j < |r| ensures key(r[i]) != key(r[j]) {
          assert r[j] == t[j - 1];
          if i > 0 {
            assert r[i] == t[i - 1];
          } else {
            assert r[i] == s[0];
          }
        }
      }
    }
  }

  function OtherKey<T, K(==)>(key: T -> K, k: K): T -> bool {
    x => key(x) != k
  }

  /** `s.filter(x => x.id !== k)` with `key` reading the id: delete by key. */
  function WithoutKey<T(==), K(==)>(s: seq<T>, key: T -> K, k: K): seq<T> {
    Filter(s, OtherKey(key, k))
  }

  /** Deleting by key keeps, in order, exactly the elements with another key. */
  lemma WithoutKeySpec<T, K>(s: seq<T>, key: T -> K, k: K)
    ensures SubsequenceOf(WithoutKey(s, key, k), s)
    ensures forall i :: 0 <= i < |WithoutKey(s, key, k)| ==> key(WithoutKey(s, key, k)[i]) != k
    ensures forall i :: 0 <= i < |s| && key(s[i]) != k ==> s[i] in WithoutKey(s, key, k)
  {
    FilterIsSubsequence(s, OtherKey(key, k));
    forall i | 0 <= i < |WithoutKey(s, key, k)| ensures key(WithoutKey(s, key, k)[i]) != k {
      assert OtherKey(key, k)(WithoutKey(s, key, k)[i]);
    }
  }
}
