/**
 * The two list idioms the Java code uses for selection: `stream().filter(p)`
 * and "the first element satisfying p" (`filter(p).findFirst()`, or a
 * for-each loop with an early return).
 */
module Seqs {

  /** The position of the first element satisfying `p`, or -1 when there is none. */
  function FirstIndex<T>(s: seq<T>, p: T -> bool): (k: int)
    ensures -1 <= k < |s|
    ensures k >= 0 ==> p(s[k])
    ensures forall j :: 0 <= j < |s| && (k < 0 || j < k) ==> !p(s[j])
  {
    if s == [] then -1
    else if p(s[0]) then 0
    else
      var k := FirstIndex(s[1..], p);
      if k < 0 then -1 else k + 1
  }

  /** `s.stream().filter(p).toList()`: the elements satisfying `p`, in order. */
  function Filter<T>(s: seq<T>, p: T -> bool): (r: seq<T>)
    ensures |r| <= |s|
    ensures forall i :: 0 <= i < |r| ==> r[i] in s && p(r[i])
  {
    if s == [] then [] else (if p(s[0]) then [s[0]] else []) + Filter(s[1..], p)
  }

  /** The filtered list is empty exactly when no element satisfies `p`; otherwise it starts with the first one. */
  lemma {:induction false} FilterHead<T>(s: seq<T>, p: T -> bool)
    ensures |Filter(s, p)| > 0 <==> FirstIndex(s, p) >= 0
    ensures FirstIndex(s, p) >= 0 ==> Filter(s, p)[0] == s[FirstIndex(s, p)]
  {
    if s != [] && !p(s[0]) {
      FilterHead(s[1..], p);
      assert Filter(s, p) == Filter(s[1..], p);
    }
  }

  /**
   * Searching the filtered list for `q` finds the first element of the
   * original list that satisfies both `p` and `q`.
   */
  lemma {:induction false} FilterThenFirst<T>(s: seq<T>, p: T -> bool, q: T -> bool, pq: T -> bool)
    requires forall x :: pq(x) == (p(x) && q(x))
    ensures FirstIndex(Filter(s, p), q) < 0 <==> FirstIndex(s, pq) < 0
    ensures FirstIndex(s, pq) >= 0 ==> Filter(s, p)[FirstIndex(Filter(s, p), q)] == s[FirstIndex(s, pq)]
  {
    if s != [] {
      FilterThenFirst(s[1..], p, q, pq);
      var rest := Filter(s[1..], p);
      if p(s[0]) {
        assert Filter(s, p) == [s[0]] + rest;
        if !q(s[0]) {
          assert Filter(s, p)[1..] == rest;
        }
      } else {
        assert Filter(s, p) == rest;
      }
    }
  }
}
