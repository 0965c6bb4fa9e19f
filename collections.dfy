/**
 * Sequence operations the handlers are built from: SQL `WHERE` and JavaScript
 * `filter` (Filter), `ORDER BY ... DESC` over a table kept in insertion order
 * (Reverse), and `ORDER BY <text column>` (SortBy, under code-point order LexLe).
 */
module Collections {

  // ---------------------------------------------------------------- filtering

  /** The elements of `s` that satisfy `keep`, in their original order. */
  function Filter<T>(s: seq<T>, keep: T -> bool): (r: seq<T>)
    ensures |r| <= |s|
    ensures forall i :: 0 <= i < |r| ==> r[i] in s && keep(r[i])
    ensures forall i :: 0 <= i < |s| && keep(s[i]) ==> s[i] in r
  {
    if s == [] then [] else (if keep(s[0]) then [s[0]] else []) + Filter(s[1..], keep)
  }

  /** Filtering distributes over concatenation: it never reorders elements. */
  lemma {:induction false} FilterConcat<T>(a: seq<T>, b: seq<T>, keep: T -> bool)
    ensures Filter(a + b, keep) == Filter(a, keep) + Filter(b, keep)
  {
    if a == [] {
      assert a + b == b;
    } else {
      assert (a + b)[1..] == a[1..] + b;
      FilterConcat(a[1..], b, keep);
    }
  }

  /** A filter that keeps every element leaves the sequence as it is. */
  lemma {:induction false} FilterAll<T>(s: seq<T>, keep: T -> bool)
    requires forall i :: 0 <= i < |s| ==> keep(s[i])
    ensures Filter(s, keep) == s
  {
    if s != [] {
      FilterAll(s[1..], keep);
    }
  }

  /** A filter that keeps no element gives the empty sequence. */
  lemma {:induction false} FilterNone<T>(s: seq<T>, keep: T -> bool)
    requires forall i :: 0 <= i < |s| ==> !keep(s[i])
    ensures Filter(s, keep) == []
  {
    if s != [] {
      FilterNone(s[1..], keep);
    }
  }

  /** `f` applied to every element, in order: a SQL projection or a JavaScript `map`. */
  function Map<T, U>(s: seq<T>, f: T -> U): (r: seq<U>)
    ensures |r| == |s|
    ensures forall i :: 0 <= i < |s| ==> r[i] == f(s[i])
  {
    if s == [] then [] else [f(s[0])] + Map(s[1..], f)
  }

  /** The elements of a mapped sequence are exactly the images of the
      original's elements. */
  lemma MapMembers<T, U>(s: seq<T>, f: T -> U)
    ensures forall x :: x in s ==> f(x) in Map(s, f)
    ensures forall y :: y in Map(s, f) ==> exists x :: x in s && f(x) == y
  {
    var r := Map(s, f);
    forall y | y in r ensures exists x :: x in s && f(x) == y {
      var i :| 0 <= i < |r| && r[i] == y;
      assert s[i] in s;
    }
    forall x | x in s ensures f(x) in r {
      var i :| 0 <= i < |s| && s[i] == x;
      assert r[i] == f(x);
    }
  }

  // ------------------------------------------------------- pairwise relations

  /** `rel` holds of every pair of elements taken in sequence order. */
  predicate Pairwise<T>(s: seq<T>, rel: (T, T) -> bool) {
    forall i, j :: 0 <= i < j < |s| ==> rel(s[i], s[j])
  }

  /** A filter keeps every pairwise (order) relation of its input. */
  lemma {:induction false} FilterPairwise<T>(s: seq<T>, keep: T -> bool, rel: (T, T) -> bool)
    requires Pairwise(s, rel)
    ensures Pairwise(Filter(s, keep), rel)
  {
    if s != [] {
      var tail := Filter(s[1..], keep);
      assert Pairwise(s[1..], rel) by {
        forall i, j | 0 <= i < j < |s[1..]| ensures rel(s[1..][i], s[1..][j]) {
          assert s[1..][i] == s[i + 1] && s[1..][j] == s[j + 1];
        }
      }
      FilterPairwise(s[1..], keep, rel);
      if keep(s[0]) {
        forall y | y in tail ensures rel(s[0], y) {
          var j :| 0 <= j < |s[1..]| && s[1..][j] == y;
          assert s[j + 1] == y;
        }
        assert Filter(s, keep) == [s[0]] + tail;
      } else {
        assert Filter(s, keep) == tail;
      }
    }
  }

  /** Appending an element related to everything before it keeps the relation. */
  lemma PairwiseAppend<T>(s: seq<T>, x: T, rel: (T, T) -> bool)
    requires Pairwise(s, rel)
    requires forall i :: 0 <= i < |s| ==> rel(s[i], x)
    ensures Pairwise(s + [x], rel)
  {
    forall i, j | 0 <= i < j < |s + [x]| ensures rel((s + [x])[i], (s + [x])[j]) {
      if j < |s| {
        assert (s + [x])[i] == s[i] && (s + [x])[j] == s[j];
      } else {
        assert (s + [x])[i] == s[i];
      }
    }
  }

  // ---------------------------------------------------------------- reversing

  /** `s` back to front: newest first over a table kept oldest first. */
  function Reverse<T>(s: seq<T>): (r: seq<T>)
    ensures |r| == |s|
    ensures forall i :: 0 <= i < |s| ==> r[i] == s[|s| - 1 - i]
  {
    if s == [] then [] else Reverse(s[1..]) + [s[0]]
  }

  /** Reversing turns an order relation around. */
  lemma PairwiseReverse<T>(s: seq<T>, rel: (T, T) -> bool)
    requires Pairwise(s, rel)
    ensures forall i, j :: 0 <= i < j < |s| ==> rel(Reverse(s)[j], Reverse(s)[i])
  {
    var r := Reverse(s);
    forall i, j | 0 <= i < j < |s| ensures rel(r[j], r[i]) {
      assert r[j] == s[|s| - 1 - j] && r[i] == s[|s| - 1 - i];
    }
  }

  // ------------------------------------------------- text order and sorting

  /** `a` sorts no later than `b` when both are compared character by character
      on their code points (the "C" collation); a prefix sorts first. */
  predicate LexLe(a: string, b: string)
    decreases |a|
  {
    a == [] || (b != [] && (a[0] < b[0] || (a[0] == b[0] && LexLe(a[1..], b[1..]))))
  }

  lemma {:induction false} LexLeTotal(a: string, b: string)
    ensures LexLe(a, b) || LexLe(b, a)
    decreases |a|
  {
    if a != [] && b != [] && a[0] == b[0] {
      LexLeTotal(a[1..], b[1..]);
    }
  }

  lemma {:induction false} LexLeTrans(a: string, b: string, c: string)
    requires LexLe(a, b) && LexLe(b, c)
    ensures LexLe(a, c)
    decreases |a|
  {
    if a != [] && a[0] == b[0] && b[0] == c[0] {
      LexLeTrans(a[1..], b[1..], c[1..]);
    }
  }

  /** `s` is in ascending `key` order. */
  predicate SortedBy<T>(s: seq<T>, key: T -> string) {
    forall i, j :: 0 <= i < j < |s| ==> LexLe(key(s[i]), key(s[j]))
  }

  /** Inserts `x` into the sorted `s`, after every element it does not sort before. */
  function InsertBy<T>(x: T, s: seq<T>, key: T -> string): (r: seq<T>)
    requires SortedBy(s, key)
    ensures SortedBy(r, key)
    ensures multiset(r) == multiset(s) + multiset{x}
  {
    if s == [] then [x]
    else if LexLe(key(x), key(s[0])) then
      BelowHeadBelowAll(x, s, key);
      SortedCons(x, s, key);
      [x] + s
    else
      SortedTail(s, key);
      var rest := InsertBy(x, s[1..], key);
      LexLeTotal(key(x), key(s[0]));
      HeadBelowTail(s, key);
      HeadBelowInserted(s[0], x, s[1..], rest, key);
      SortedCons(s[0], rest, key);
      assert s == [s[0]] + s[1..];
      [s[0]] + rest
  }

  /** The tail of a sorted sequence is sorted. */
  lemma SortedTail<T>(s: seq<T>, key: T -> string)
    requires s != [] && SortedBy(s, key)
    ensures SortedBy(s[1..], key)
  {
    forall i, j | 0 <= i < j < |s[1..]| ensures LexLe(key(s[1..][i]), key(s[1..][j])) {
      assert s[1..][i] == s[i + 1] && s[1..][j] == s[j + 1];
    }
  }

  /** An element that sorts no later than a sorted sequence's first element
      sorts no later than any of its elements. */
  lemma BelowHeadBelowAll<T>(x: T, s: seq<T>, key: T -> string)
    requires s != [] && SortedBy(s, key) && LexLe(key(x), key(s[0]))
    ensures forall y :: y in s ==> LexLe(key(x), key(y))
  {
    forall y | y in s ensures LexLe(key(x), key(y)) {
      var j :| 0 <= j < |s| && s[j] == y;
      if j > 0 { LexLeTrans(key(x), key(s[0]), key(s[j])); }
    }
  }

  /** The first element of a sorted sequence sorts no later than the rest. */
  lemma HeadBelowTail<T>(s: seq<T>, key: T -> string)
    requires s != [] && SortedBy(s, key)
    ensures forall y :: y in s[1..] ==> LexLe(key(s[0]), key(y))
  {
    forall y | y in s[1..] ensures LexLe(key(s[0]), key(y)) {
      var j :| 0 <= j < |s[1..]| && s[1..][j] == y;
      assert s[j + 1] == y;
    }
  }

  /** Prefixing an element that sorts no later than every element keeps a
      sequence sorted. */
  lemma SortedCons<T>(h: T, t: seq<T>, key: T -> string)
    requires SortedBy(t, key) && forall y :: y in t ==> LexLe(key(h), key(y))
    ensures SortedBy([h] + t, key)
  {
    forall i, j | 0 <= i < j < |[h] + t| ensures LexLe(key(([h] + t)[i]), key(([h] + t)[j])) {
      assert ([h] + t)[j] == t[j - 1];
      if i > 0 {
        assert ([h] + t)[i] == t[i - 1];
      }
    }
  }

  /** A lower bound of `t` and of `x` bounds anything holding `t` and `x`. */
  lemma HeadBelowInserted<T>(h: T, x: T, t: seq<T>, rest: seq<T>, key: T -> string)
    requires forall y :: y in t ==> LexLe(key(h), key(y))
    requires LexLe(key(h), key(x))
    requires multiset(rest) == multiset(t) + multiset{x}
    ensures forall y :: y in rest ==> LexLe(key(h), key(y))
  {
    forall y | y in rest ensures LexLe(key(h), key(y)) {
      assert y in multiset(rest);
      if y != x {
        assert y in multiset(t);
      }
    }
  }

  /** `s` rearranged into ascending `key` order (insertion sort). */
  function SortBy<T>(s: seq<T>, key: T -> string): (r: seq<T>)
    ensures SortedBy(r, key)
    ensures multiset(r) == multiset(s)
  {
    if s == [] then []
    else
      assert s == [s[0]] + s[1..];
      InsertBy(s[0], SortBy(s[1..], key), key)
  }
}
