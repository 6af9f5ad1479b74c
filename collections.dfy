/** Linq-style queries over the model's tables (sequences in query order). */
module Collections {
  import opened Wrappers

  /** Enumerable.Where: the elements satisfying `p`, in their original order. */
  function Filter<T>(s: seq<T>, p: T -> bool): (r: seq<T>)
    ensures |r| <= |s|
    ensures forall i :: 0 <= i < |r| ==> p(r[i])
    ensures forall i :: 0 <= i < |r| ==> r[i] in s
    ensures forall i :: 0 <= i < |s| && p(s[i]) ==> s[i] in r
  {
    if |s| == 0 then []
    else if p(s[0]) then [s[0]] + Filter(s[1..], p)
    else Filter(s[1..], p)
  }

  /** Each element satisfying `p` is kept as often as it occurs, every other one is dropped. */
  lemma {:induction false} FilterMultiset<T(!new)>(s: seq<T>, p: T -> bool)
    ensures forall x :: multiset(Filter(s, p))[x] == if p(x) then multiset(s)[x] else 0
  {
    if |s| > 0 {
      FilterMultiset(s[1..], p);
      assert s == [s[0]] + s[1..];
    }
  }

  /**
    Filtering keeps the original order: two kept elements come from
    positions of `s` in the same order.
  */
  lemma {:induction false} FilterOrder<T>(s: seq<T>, p: T -> bool, i: nat, j: nat) returns (a: nat, b: nat)
    requires i < j < |Filter(s, p)|
    ensures a < b < |s| && s[a] == Filter(s, p)[i] && s[b] == Filter(s, p)[j]
  {
    var tail := s[1..];
    var rest := Filter(tail, p);
    if p(s[0]) {
      assert Filter(s, p) == [s[0]] + rest;
      if i == 0 {
        assert rest[j - 1] in tail;
        var k :| 0 <= k < |tail| && tail[k] == rest[j - 1];
        a, b := 0, k + 1;
      } else {
        var a', b' := FilterOrder(tail, p, i - 1, j - 1);
        a, b := a' + 1, b' + 1;
      }
    } else {
      assert Filter(s, p) == rest;
      var a', b' := FilterOrder(tail, p, i, j);
      a, b := a' + 1, b' + 1;
    }
  }

  /** No element occurs twice. */
  predicate Distinct<T(==)>(s: seq<T>) {
    forall i, j :: 0 <= i < j < |s| ==> s[i] != s[j]
  }

  /** Filtering a sequence without repetitions gives one without repetitions. */
  lemma {:induction false} FilterDistinct<T(!new)>(s: seq<T>, p: T -> bool)
    requires Distinct(s)
    ensures Distinct(Filter(s, p))
  {
    if |s| > 0 {
      var tail := s[1..];
      assert Distinct(tail) by {
        assert forall i :: 0 <= i < |tail| ==> tail[i] == s[i + 1];
      }
      FilterDistinct(tail, p);
      var rest := Filter(tail, p);
      if p(s[0]) {
        var r := [s[0]] + rest;
        assert Filter(s, p) == r;
        forall i, j | 0 <= i < j < |r| ensures r[i] != r[j] {
          assert r[j] == rest[j - 1] && rest[j - 1] in tail;
          if i == 0 {
            var k :| 0 <= k < |tail| && tail[k] == rest[j - 1];
            assert s[k + 1] == tail[k];
          } else {
            assert r[i] == rest[i - 1];
          }
        }
      } else {
        assert Filter(s, p) == rest;
      }
    }
  }

  /** The index of the first element satisfying `p` (what FirstOrDefault selects). */
  function FirstIndex<T>(s: seq<T>, p: T -> bool): (r: Option<nat>)
    ensures r.Some? ==> r.value < |s| && p(s[r.value]) && forall j :: 0 <= j < r.value ==> !p(s[j])
    ensures r.None? <==> forall j :: 0 <= j < |s| ==> !p(s[j])
  {
    if |s| == 0 then None
    else if p(s[0]) then Some(0)
    else match FirstIndex(s[1..], p)
      case None => None
      case Some(k) => Some(k + 1)
  }

  /** Enumerable.FirstOrDefault for a sequence of non-null values. */
  function FirstOrNone<T>(s: seq<T>, p: T -> bool): (r: Option<T>)
    ensures r.None? <==> forall j :: 0 <= j < |s| ==> !p(s[j])
    ensures r.Some? ==> exists i :: 0 <= i < |s| && s[i] == r.value && p(s[i]) && forall j :: 0 <= j < i ==> !p(s[j])
  {
    if |s| == 0 then None
    else if p(s[0]) then Some(s[0])
    else
      var r := FirstOrNone(s[1..], p);
      assert forall j :: 1 <= j < |s| ==> s[1..][j - 1] == s[j];
      r
  }
}
