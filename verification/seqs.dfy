/** The three array combinators the source leans on — `Array.prototype.find`
    (by position), `Array.prototype.filter` and counting with
    `filter(p).length` — each defined once with the contract every caller uses. */
module Seqs {
  import opened Wrappers

  /** Position of the first element satisfying `p`, as `findIndex` returns it
      (`None` for JavaScript's `-1`). */
  function FindIndex<T>(s: seq<T>, p: T -> bool): (r: Option<nat>)
    ensures r.None? <==> forall i :: 0 <= i < |s| ==> !p(s[i])
    ensures r.Some? ==> r.value < |s| && p(s[r.value])
    ensures r.Some? ==> forall i :: 0 <= i < r.value ==> !p(s[i])
  {
    if s == [] then None
    else if p(s[0]) then Some(0)
    else match FindIndex(s[1..], p)
      case None => None
      case Some(i) => Some(i + 1)
  }

  /** The first position that satisfies `p` is the one `FindIndex` returns. */
  lemma FindIndexAt<T>(s: seq<T>, p: T -> bool, i: nat)
    requires i < |s| && p(s[i])
    requires forall j :: 0 <= j < i ==> !p(s[j])
    ensures FindIndex(s, p) == Some(i)
  {
  }

  /** `FindIndex` over a sequence listing every value of `K`, value `k` at
      position `pos(k)`: no value placed before the result satisfies `p`, and
      none at all when there is no result. */
  lemma FindIndexEnumerated<K>(order: seq<K>, pos: K -> nat, p: K -> bool)
    requires forall k :: pos(k) < |order| && order[pos(k)] == k
    ensures FindIndex(order, p).None? ==> forall k :: !p(k)
    ensures FindIndex(order, p).Some? ==> forall k :: pos(k) < FindIndex(order, p).value ==> !p(k)
  {
    var r := FindIndex(order, p);
    forall k | r.None? || pos(k) < r.value
      ensures !p(k)
    {
      assert order[pos(k)] == k;
    }
  }

  /** No element occurs twice. */
  predicate NoRepeats<T(==)>(s: seq<T>) {
    forall i, j :: 0 <= i < j < |s| ==> s[i] != s[j]
  }

  /** The elements of `s` satisfying `p`, in their original order. */
  function Filter<T>(s: seq<T>, p: T -> bool): (r: seq<T>)
    ensures |r| <= |s|
    ensures forall x :: x in r ==> x in s && p(x)
    ensures forall x :: x in s && p(x) ==> x in r
  {
    if s == [] then []
    else
      assert s == [s[0]] + s[1..];
      (if p(s[0]) then [s[0]] else []) + Filter(s[1..], p)
  }

  /** Filtering commutes with concatenation, so the relative order of the kept
      elements is the order they had in the input. */
  lemma {:induction false} FilterAppend<T>(a: seq<T>, b: seq<T>, p: T -> bool)
    ensures Filter(a + b, p) == Filter(a, p) + Filter(b, p)
  {
    if a == [] {
      assert a + b == b;
    } else {
      assert (a + b)[1..] == a[1..] + b;
      FilterAppend(a[1..], b, p);
    }
  }

  /** A filter whose predicate holds everywhere changes nothing. */
  lemma {:induction false} FilterAll<T>(s: seq<T>, p: T -> bool)
    requires forall i :: 0 <= i < |s| ==> p(s[i])
    ensures Filter(s, p) == s
  {
    if s != [] {
      FilterAll(s[1..], p);
    }
  }

  /** Number of elements satisfying `p` — `s.filter(p).length`. */
  function Count<T>(s: seq<T>, p: T -> bool): (n: nat)
    ensures n <= |s|
  {
    if s == [] then 0
    else Count(s[..|s| - 1], p) + (if p(s[|s| - 1]) then 1 else 0)
  }

  lemma {:induction false} CountIsFilterLength<T>(s: seq<T>, p: T -> bool)
    ensures Count(s, p) == |Filter(s, p)|
  {
    if s != [] {
      var init := s[..|s| - 1];
      assert s == init + [s[|s| - 1]];
      FilterAppend(init, [s[|s| - 1]], p);
      CountIsFilterLength(init, p);
    }
  }

  /** The elements satisfying `p` and those that do not partition the sequence. */
  lemma {:induction false} CountComplement<T>(s: seq<T>, p: T -> bool, q: T -> bool)
    requires forall x :: q(x) == !p(x)
    ensures Count(s, p) + Count(s, q) == |s|
  {
    if s != [] {
      CountComplement(s[..|s| - 1], p, q);
    }
  }

  /** Three predicates no element satisfies two of count at most `|s|` together. */
  lemma {:induction false} CountDisjoint3<T>(s: seq<T>, p: T -> bool, q: T -> bool, r: T -> bool)
    requires forall x :: !(p(x) && q(x)) && !(p(x) && r(x)) && !(q(x) && r(x))
    ensures Count(s, p) + Count(s, q) + Count(s, r) <= |s|
  {
    if s != [] {
      CountDisjoint3(s[..|s| - 1], p, q, r);
    }
  }

  /** Counting inside a filtered sequence is counting the conjunction. */
  lemma {:induction false} CountOfFilter<T>(s: seq<T>, p: T -> bool, q: T -> bool, pq: T -> bool)
    requires forall x :: pq(x) == (p(x) && q(x))
    ensures Count(Filter(s, p), q) == Count(s, pq)
  {
    if s != [] {
      var init := s[..|s| - 1];
      var last := s[|s| - 1];
      assert s == init + [last];
      FilterAppend(init, [last], p);
      CountOfFilter(init, p, q, pq);
      var fi := Filter(init, p);
      assert [last][1..] == [];
      assert Filter([last], p) == (if p(last) then [last] else []) + Filter([], p);
      if p(last) {
        var f := fi + [last];
        assert Filter(s, p) == f;
        assert f[..|f| - 1] == fi && f[|f| - 1] == last;
        assert Count(f, q) == Count(fi, q) + (if q(last) then 1 else 0);
      } else {
        assert Filter(s, p) == fi + [];
        assert fi + [] == fi;
      }
      assert Count(s, pq) == Count(init, pq) + (if pq(last) then 1 else 0);
    }
  }
}
