/**
 * Sequence helpers shared by every screen of the trip app: the optional value
 * that stands in for `null`/`undefined`, JavaScript's `Array.prototype.filter`
 * and `find`, the order-keeping subsequence relation, duplicate-free lists and
 * the "remove if present, else append" toggle used by the participant pickers.
 */
module Collections {

  /** A value that may be missing (`null`, `undefined` or an absent storage key). */
  datatype Option<+T> = None | Some(value: T)

  /** `s` has no element twice. */
  predicate NoDuplicates<T(==)>(s: seq<T>) {
    forall i, j :: 0 <= i < j < |s| ==> s[i] != s[j]
  }

  /** `r` can be obtained from `s` by deleting elements, so `r` keeps the order of `s`. */
  predicate IsSubsequence<T(==)>(r: seq<T>, s: seq<T>) {
    if r == [] then true
    else if s == [] then false
    else (r[0] == s[0] && IsSubsequence(r[1..], s[1..])) || IsSubsequence(r, s[1..])
  }

  /** `Array.prototype.filter`: the elements satisfying `keep`, in their original order. */
  function Filter<T(==,!new)>(s: seq<T>, keep: T -> bool): (r: seq<T>)
    ensures |r| <= |s|
    ensures forall x :: x in r <==> x in s && keep(x)
    ensures forall x :: multiset(r)[x] == if keep(x) then multiset(s)[x] else 0
    ensures IsSubsequence(r, s)
  {
    if s == [] then []
    else
      assert s == [s[0]] + s[1..];
      var rest := Filter(s[1..], keep);
      if keep(s[0]) then [s[0]] + rest else rest
  }

  /** Filtering `[x] + t` decides `x` and filters `t`. */
  lemma FilterCons<T(!new)>(x: T, t: seq<T>, keep: T -> bool)
    ensures Filter([x] + t, keep) == if keep(x) then [x] + Filter(t, keep) else Filter(t, keep)
  {
    assert ([x] + t)[0] == x && ([x] + t)[1..] == t;
  }

  lemma {:induction false} FilterAppend<T(!new)>(a: seq<T>, b: seq<T>, keep: T -> bool)
    ensures Filter(a + b, keep) == Filter(a, keep) + Filter(b, keep)
  {
    if a == [] {
      assert a + b == b;
    } else {
      var x, t := a[0], a[1..];
      FilterAppend(t, b, keep);
      FilterAppendStep(x, t, b, keep);
      SplitHead(a, b);
    }
  }

  lemma SplitHead<T>(a: seq<T>, b: seq<T>)
    requires a != []
    ensures a == [a[0]] + a[1..]
    ensures a + b == [a[0]] + (a[1..] + b)
  {
  }

  /** The inductive step of `FilterAppend`: put one element in front of the first list. */
  lemma FilterAppendStep<T(!new)>(x: T, t: seq<T>, b: seq<T>, keep: T -> bool)
    requires Filter(t + b, keep) == Filter(t, keep) + Filter(b, keep)
    ensures Filter([x] + (t + b), keep) == Filter([x] + t, keep) + Filter(b, keep)
  {
    FilterCons(x, t, keep);
    FilterCons(x, t + b, keep);
    ConsAssoc(x, Filter(t, keep), Filter(b, keep));
  }

  lemma ConsAssoc<T>(x: T, p: seq<T>, q: seq<T>)
    ensures [x] + (p + q) == ([x] + p) + q
  {
  }

  /** Filtering keeps a list unchanged when every element passes. */
  lemma {:induction false} FilterKeepsAll<T(!new)>(s: seq<T>, keep: T -> bool)
    requires forall x :: x in s ==> keep(x)
    ensures Filter(s, keep) == s
  {
    if s != [] {
      FilterKeepsAll(s[1..], keep);
    }
  }

  lemma {:induction false} FilterNoDuplicates<T(!new)>(s: seq<T>, keep: T -> bool)
    requires NoDuplicates(s)
    ensures NoDuplicates(Filter(s, keep))
  {
    if s != [] {
      assert NoDuplicates(s[1..]) by {
        forall i, j | 0 <= i < j < |s[1..]| ensures s[1..][i] != s[1..][j] {
          assert s[1..][i] == s[i + 1] && s[1..][j] == s[j + 1];
        }
      }
      FilterNoDuplicates(s[1..], keep);
      var rest := Filter(s[1..], keep);
      if keep(s[0]) {
        assert s[0] !in s[1..] by {
          forall k | 0 <= k < |s[1..]| ensures s[1..][k] != s[0] {
            assert s[1..][k] == s[k + 1];
          }
        }
        ConsNoDuplicates(s[0], rest);
      }
    }
  }

  lemma ConsNoDuplicates<T>(x: T, s: seq<T>)
    requires x !in s && NoDuplicates(s)
    ensures NoDuplicates([x] + s)
  {
    var r := [x] + s;
    forall i, j | 0 <= i < j < |r| ensures r[i] != r[j] {
      if i == 0 {
        assert r[j] == s[j - 1];
      } else {
        assert r[i] == s[i - 1] && r[j] == s[j - 1];
      }
    }
  }

  lemma SnocNoDuplicates<T>(s: seq<T>, x: T)
    requires x !in s && NoDuplicates(s)
    ensures NoDuplicates(s + [x])
  {
    var r := s + [x];
    forall i, j | 0 <= i < j < |r| ensures r[i] != r[j] {
      if j == |s| {
        assert r[i] == s[i];
      } else {
        assert r[i] == s[i] && r[j] == s[j];
      }
    }
  }

  /** Two lists with the same multiset have the same elements. */
  lemma SameMultisetSameElements<T>(a: seq<T>, b: seq<T>)
    requires multiset(a) == multiset(b)
    ensures forall x :: x in a <==> x in b
  {
    forall x ensures x in a <==> x in b {
      assert x in a <==> x in multiset(a);
      assert x in b <==> x in multiset(b);
    }
  }

  /** Number of occurrences of `x` in `s`. */
  function Count<T(==)>(s: seq<T>, x: T): (n: nat)
    ensures n == 0 <==> x !in s
    ensures n <= |s|
  {
    if s == [] then 0 else (if s[0] == x then 1 else 0) + Count(s[1..], x)
  }

  /** `Array.prototype.find`: the first element satisfying `hit`. */
  function Find<T>(s: seq<T>, hit: T -> bool): (r: Option<T>)
    ensures r.None? <==> forall i :: 0 <= i < |s| ==> !hit(s[i])
    ensures r.Some? ==> exists i :: 0 <= i < |s| && s[i] == r.value && hit(s[i])
                          && forall k :: 0 <= k < i ==> !hit(s[k])
  {
    if s == [] then None
    else if hit(s[0]) then Some(s[0])
    else
      var r := Find(s[1..], hit);
      assert forall i :: 1 <= i < |s| ==> s[i] == s[1..][i - 1];
      r
  }

  /**
   * `Array.prototype.map` with a conditional body, `s.map(x => hit(x) ? f(x) : x)`:
   * the shape of every "update the record with this id" in the app.
   */
  function MapWhere<T>(s: seq<T>, hit: T -> bool, f: T -> T): (r: seq<T>)
    ensures |r| == |s|
    ensures forall i :: 0 <= i < |s| ==> r[i] == if hit(s[i]) then f(s[i]) else s[i]
  {
    if s == [] then []
    else [if hit(s[0]) then f(s[0]) else s[0]] + MapWhere(s[1..], hit, f)
  }

  /**
   * The participant picker's click handler: drop every occurrence of `x`
   * when it is listed, otherwise append it.
   */
  function Toggle<T(==,!new)>(s: seq<T>, x: T): (r: seq<T>)
    ensures x in r <==> x !in s
    ensures forall y :: y != x ==> (y in r <==> y in s)
    ensures NoDuplicates(s) ==> NoDuplicates(r)
  {
    if x in s then
      var r := Filter(s, y => y != x);
      assert NoDuplicates(s) ==> NoDuplicates(r) by {
        if NoDuplicates(s) { FilterNoDuplicates(s, y => y != x); }
      }
      r
    else
      assert NoDuplicates(s) ==> NoDuplicates(s + [x]) by {
        if NoDuplicates(s) { SnocNoDuplicates(s, x); }
      }
      s + [x]
  }

  /** Toggling an absent id twice gives back exactly the original list. */
  lemma ToggleTwiceAbsent<T(!new)>(s: seq<T>, x: T)
    requires x !in s
    ensures Toggle(Toggle(s, x), x) == s
  {
    FilterAppend(s, [x], y => y != x);
    FilterKeepsAll(s, y => y != x);
    assert Filter([x], y => y != x) == [];
  }

  /**
   * Toggling twice always restores the set of listed ids; on a duplicate-free
   * list the order may change only when the id was present (it moves to the end).
   */
  lemma ToggleTwiceSameSet<T(!new)>(s: seq<T>, x: T)
    ensures forall y :: y in Toggle(Toggle(s, x), x) <==> y in s
  {
  }

  /**
   * Every element once. The body keeps first occurrences in their order; the
   * contract promises only the elements and the absence of repetitions.
   */
  function Dedup<T(==,!new)>(s: seq<T>): (r: seq<T>)
    ensures NoDuplicates(r)
    ensures forall x :: x in r <==> x in s
    ensures |r| <= |s|
  {
    if s == [] then []
    else
      var d := Dedup(s[..|s| - 1]);
      var x := s[|s| - 1];
      assert forall y :: y in s <==> y in s[..|s| - 1] || y == x by {
        assert s == s[..|s| - 1] + [x];
      }
      if x in d then d
      else
        SnocNoDuplicates(d, x);
        d + [x]
  }

  /** A list without repetitions has as many distinct elements as entries. */
  lemma {:induction false} DistinctElementsCount<T>(s: seq<T>)
    requires NoDuplicates(s)
    ensures |set x | x in s| == |s|
  {
    if s != [] {
      var t := s[1..];
      assert NoDuplicates(t) by {
        forall i, j | 0 <= i < j < |t| ensures t[i] != t[j] {
          assert t[i] == s[i + 1] && t[j] == s[j + 1];
        }
      }
      DistinctElementsCount(t);
      assert s[0] !in t by {
        forall k | 0 <= k < |t| ensures t[k] != s[0] {
          assert t[k] == s[k + 1];
        }
      }
      assert (set x | x in s) == {s[0]} + (set x | x in t) by {
        assert s == [s[0]] + t;
      }
    }
  }

  /** A subset is no larger than its superset. */
  lemma SubsetCount<T>(a: set<T>, b: set<T>)
    requires a <= b
    ensures |a| <= |b|
  {
    assert b == a + (b - a);
  }
}
