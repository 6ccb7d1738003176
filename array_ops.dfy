/** Models of the `Array.prototype` methods the core relies on:
    `findIndex`, `find` and `filter` (ECMA-262, sections 23.1.3.10, 23.1.3.9
    and 23.1.3.8). A callback is a total predicate on the element. */
module ArrayOps {
  import opened Options

  /** `findIndex`: the first index whose element satisfies `p`, or -1. */
  function FindIndex<T>(s: seq<T>, p: T -> bool): (r: int)
    ensures -1 <= r < |s|
    ensures 0 <= r ==> p(s[r])
    ensures 0 <= r ==> forall j :: 0 <= j < r ==> !p(s[j])
    ensures r == -1 <==> forall j :: 0 <= j < |s| ==> !p(s[j])
  {
    if s == [] then -1
    else if p(s[0]) then 0
    else
      var k := FindIndex(s[1..], p);
      assert forall j :: 1 <= j < |s| ==> s[j] == s[1..][j - 1];
      if k == -1 then -1 else k + 1
  }

  /** `findIndex` on a non-empty sequence, one element at a time. */
  lemma FindIndexCons<T>(s: seq<T>, p: T -> bool)
    requires s != []
    ensures FindIndex(s, p) == if p(s[0]) then 0
                               else if FindIndex(s[1..], p) == -1 then -1
                               else FindIndex(s[1..], p) + 1
  {
  }

  /** `find`: the first element that satisfies `p`, or `undefined`. */
  function Find<T>(s: seq<T>, p: T -> bool): (r: Option<T>)
    ensures r.None? <==> forall j :: 0 <= j < |s| ==> !p(s[j])
    ensures r.Some? ==> exists i :: 0 <= i < |s| && s[i] == r.value && p(s[i]) &&
                                    forall j :: 0 <= j < i ==> !p(s[j])
  {
    var i := FindIndex(s, p);
    if i == -1 then None else Some(s[i])
  }

  /** `filter`: the elements that satisfy `p`, in their original order. */
  function Filter<T>(s: seq<T>, p: T -> bool): (r: seq<T>)
    ensures |r| <= |s|
  {
    if s == [] then [] else (if p(s[0]) then [s[0]] else []) + Filter(s[1..], p)
  }

  /** What `filter` keeps: only elements that pass, all drawn from the
      input, and every element of the input that passes. */
  lemma {:induction false} FilterMembers<T>(s: seq<T>, p: T -> bool)
    ensures forall i :: 0 <= i < |Filter(s, p)| ==> p(Filter(s, p)[i])
    ensures forall i :: 0 <= i < |Filter(s, p)| ==> Filter(s, p)[i] in s
    ensures forall i :: 0 <= i < |s| && p(s[i]) ==> s[i] in Filter(s, p)
  {
    if s != [] {
      FilterMembers(s[1..], p);
      assert forall i :: 1 <= i < |s| ==> s[i] == s[1..][i - 1];
    }
  }

  /** Filtering distributes over concatenation, so `filter` keeps order. */
  lemma {:induction false} FilterAppend<T>(a: seq<T>, b: seq<T>, p: T -> bool)
    ensures Filter(a + b, p) == Filter(a, p) + Filter(b, p)
  {
    if a == [] {
      assert a + b == b;
    } else {
      var head := if p(a[0]) then [a[0]] else [];
      assert (a + b)[0] == a[0];
      assert (a + b)[1..] == a[1..] + b;
      assert Filter(a + b, p) == head + Filter(a[1..] + b, p);
      FilterAppend(a[1..], b, p);
      ConcatAssoc(head, Filter(a[1..], p), Filter(b, p));
    }
  }

  /** Two positions of a filtered sequence come from two positions of the
      input in the same order. */
  lemma {:induction false} FilterKeepsOrder<T>(s: seq<T>, p: T -> bool, i: nat, j: nat)
    requires i < j < |Filter(s, p)|
    ensures exists a, b :: 0 <= a < b < |s| && s[a] == Filter(s, p)[i] && s[b] == Filter(s, p)[j]
  {
    var rest := Filter(s[1..], p);
    if p(s[0]) {
      assert Filter(s, p) == [s[0]] + rest;
      if i == 0 {
        FilterMembers(s[1..], p);
        assert rest[j - 1] in rest;
        var b' :| 0 <= b' < |s[1..]| && s[1..][b'] == rest[j - 1];
        assert s[0] == Filter(s, p)[i] && s[b' + 1] == Filter(s, p)[j];
      } else {
        FilterKeepsOrder(s[1..], p, i - 1, j - 1);
        var a', b' :| 0 <= a' < b' < |s[1..]| && s[1..][a'] == rest[i - 1] && s[1..][b'] == rest[j - 1];
        assert s[a' + 1] == Filter(s, p)[i] && s[b' + 1] == Filter(s, p)[j];
      }
    } else {
      assert Filter(s, p) == rest;
      FilterKeepsOrder(s[1..], p, i, j);
      var a', b' :| 0 <= a' < b' < |s[1..]| && s[1..][a'] == rest[i] && s[1..][b'] == rest[j];
      assert s[a' + 1] == Filter(s, p)[i] && s[b' + 1] == Filter(s, p)[j];
    }
  }

  lemma ConcatAssoc<T>(a: seq<T>, b: seq<T>, c: seq<T>)
    ensures a + (b + c) == (a + b) + c
  {
  }

  /** Putting the same element in front of two sequences keeps an equation
      between their filtered forms. */
  lemma {:induction false} FilterConsAppend<T>(a: T, s: seq<T>, t: seq<T>, u: seq<T>, p: T -> bool)
    requires Filter(s, p) == Filter(t, p) + Filter(u, p)
    ensures Filter([a] + s, p) == Filter([a] + t, p) + Filter(u, p)
  {
    FilterAppend([a], s, p);
    FilterAppend([a], t, p);
    var head, fs, ft, fu := Filter([a], p), Filter(s, p), Filter(t, p), Filter(u, p);
    ConcatAssoc(head, ft, fu);
  }

  /** The head of a filtered sequence is the element `findIndex` finds. */
  lemma {:induction false} FilterHead<T>(s: seq<T>, p: T -> bool)
    ensures Filter(s, p) != [] <==> FindIndex(s, p) != -1
    ensures Filter(s, p) != [] ==> Filter(s, p)[0] == s[FindIndex(s, p)]
  {
    if s != [] && !p(s[0]) {
      FilterHead(s[1..], p);
    }
  }
}
