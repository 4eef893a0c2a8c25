/** Sequence helpers with the meaning of the Kotlin and Python collection
    operations the sources use: `indexOf`, `distinct` / `dict.fromkeys`,
    `filter` and `getOrElse`. */
module Seqs {
  import opened Wrappers

  ghost predicate NoDup<T>(s: seq<T>) {
    forall i, j :: 0 <= i < j < |s| ==> s[i] != s[j]
  }

  /** Kotlin's `indexOf`: the index of the first element equal to `x`, or -1. */
  function IndexOf<T(==)>(s: seq<T>, x: T): (r: int)
    ensures -1 <= r < |s|
    ensures r == -1 <==> x !in s
    ensures 0 <= r ==> s[r] == x && forall j :: 0 <= j < r ==> s[j] != x
  {
    if |s| == 0 then -1
    else if s[0] == x then 0
    else
      var k := IndexOf(s[1..], x);
      if k == -1 then -1 else k + 1
  }

  /** Kotlin's `getOrElse(index) { default }`: the element at `i` when `i` is
      a valid index, otherwise `default`. */
  function GetOrElse<T>(s: seq<T>, i: int, default: T): (r: T)
    ensures 0 <= i < |s| ==> r == s[i]
    ensures !(0 <= i < |s|) ==> r == default
  {
    if 0 <= i < |s| then s[i] else default
  }

  /** Kotlin's `firstOrNull()`. */
  function FirstOrNull<T>(s: seq<T>): (r: Option<T>)
    ensures r.None? <==> |s| == 0
    ensures r.Some? ==> r.value == s[0]
  {
    if |s| == 0 then None else Some(s[0])
  }

  /** Kotlin's `lastOrNull()`. */
  function LastOrNull<T>(s: seq<T>): (r: Option<T>)
    ensures r.None? <==> |s| == 0
    ensures r.Some? ==> r.value == s[|s| - 1]
  {
    if |s| == 0 then None else Some(s[|s| - 1])
  }

  lemma {:induction false} IndexOfAppend<T>(s: seq<T>, y: T, x: T)
    ensures x in s ==> IndexOf(s + [y], x) == IndexOf(s, x)
    ensures x !in s && x == y ==> IndexOf(s + [y], x) == |s|
  {
    if |s| > 0 && s[0] != x {
      assert (s + [y])[1..] == s[1..] + [y];
      IndexOfAppend(s[1..], y, x);
    }
  }

  /** Order-preserving de-duplication keeping the first occurrence of every
      element: Python's `list(dict.fromkeys(xs))` and Kotlin's `distinct()`. */
  function Distinct<T(==)>(s: seq<T>): (r: seq<T>)
    ensures NoDup(r)
    ensures forall i :: 0 <= i < |r| ==> r[i] in s
    ensures forall i :: 0 <= i < |s| ==> s[i] in r
    ensures forall i, j :: 0 <= i < j < |r| ==> IndexOf(s, r[i]) < IndexOf(s, r[j])
    decreases |s|
  {
    if |s| == 0 then []
    else
      var init := s[..|s| - 1];
      var last := s[|s| - 1];
      assert s == init + [last];
      var d := Distinct(init);
      forall x | x in init
        ensures IndexOf(s, x) == IndexOf(init, x)
      {
        IndexOfAppend(init, last, x);
      }
      if last in d then d
      else
        IndexOfAppend(init, last, last);
        d + [last]
  }

  /** Appending one element to the input appends it to the result exactly
      when it is new. */
  lemma {:induction false} DistinctSnoc<T>(init: seq<T>, last: T)
    ensures Distinct(init + [last]) == if last in Distinct(init) then Distinct(init) else Distinct(init) + [last]
  {
    var s := init + [last];
    assert s[..|s| - 1] == init;
  }

  lemma {:induction false} DistinctOfNoDup<T>(s: seq<T>)
    requires NoDup(s)
    ensures Distinct(s) == s
    decreases |s|
  {
    if |s| > 0 {
      var init := s[..|s| - 1];
      var last := s[|s| - 1];
      assert s == init + [last];
      assert NoDup(init) by {
        forall i, j | 0 <= i < j < |init| ensures init[i] != init[j] {
          assert init[i] == s[i] && init[j] == s[j];
        }
      }
      DistinctOfNoDup(init);
      assert last !in init by {
        forall k | 0 <= k < |init| ensures init[k] != last {
          assert init[k] == s[k];
        }
      }
      DistinctSnoc(init, last);
    }
  }

  /** De-duplication is idempotent. */
  lemma {:induction false} DistinctIdempotent<T>(s: seq<T>)
    ensures Distinct(Distinct(s)) == Distinct(s)
  {
    DistinctOfNoDup(Distinct(s));
  }

  /** Kotlin's `filter` / a Python comprehension with a condition; keeps the
      order of the kept elements. */
  function Filter<T(!new)>(s: seq<T>, p: T -> bool): (r: seq<T>)
    ensures |r| <= |s|
    ensures forall x :: x in r <==> x in s && p(x)
    ensures forall i :: 0 <= i < |r| ==> p(r[i])
    decreases |s|
  {
    if |s| == 0 then []
    else if p(s[0]) then [s[0]] + Filter(s[1..], p)
    else Filter(s[1..], p)
  }

  lemma {:induction false} FilterAppend<T(!new)>(s: seq<T>, t: seq<T>, p: T -> bool)
    ensures Filter(s + t, p) == Filter(s, p) + Filter(t, p)
    decreases |s|
  {
    if |s| > 0 {
      assert (s + t)[0] == s[0];
      assert (s + t)[1..] == s[1..] + t;
      FilterAppend(s[1..], t, p);
      if !p(s[0]) {
        assert Filter(s + t, p) == Filter(s[1..] + t, p);
        assert Filter(s, p) == Filter(s[1..], p);
      } else {
        calc {
          Filter(s + t, p);
          [s[0]] + Filter(s[1..] + t, p);
          [s[0]] + (Filter(s[1..], p) + Filter(t, p));
          ([s[0]] + Filter(s[1..], p)) + Filter(t, p);
        }
      }
    } else {
      assert s + t == t;
    }
  }

  /** Filtering keeps every element whose predicate holds when all do. */
  lemma {:induction false} FilterAll<T(!new)>(s: seq<T>, p: T -> bool)
    requires forall i :: 0 <= i < |s| ==> p(s[i])
    ensures Filter(s, p) == s
    decreases |s|
  {
    if |s| > 0 {
      FilterAll(s[1..], p);
    }
  }

  /** The input position of the `i`-th kept element. */
  function FilterPos<T(!new)>(s: seq<T>, p: T -> bool, i: int): (k: int)
    requires 0 <= i < |Filter(s, p)|
    ensures i <= k < |s| && s[k] == Filter(s, p)[i]
    decreases |s|
  {
    if p(s[0]) then
      if i == 0 then 0 else FilterPos(s[1..], p, i - 1) + 1
    else FilterPos(s[1..], p, i) + 1
  }

  /** Kept elements keep their relative order. */
  lemma {:induction false} FilterPosMonotone<T(!new)>(s: seq<T>, p: T -> bool, i: int, j: int)
    requires 0 <= i < j < |Filter(s, p)|
    ensures FilterPos(s, p, i) < FilterPos(s, p, j)
    decreases |s|
  {
    var t := Filter(s[1..], p);
    if p(s[0]) {
      assert Filter(s, p) == [s[0]] + t;
      if i > 0 {
        assert FilterPos(s[1..], p, i - 1) < FilterPos(s[1..], p, j - 1) by {
          FilterPosMonotone(s[1..], p, i - 1, j - 1);
        }
      }
    } else {
      assert Filter(s, p) == t;
      assert FilterPos(s[1..], p, i) < FilterPos(s[1..], p, j) by {
        FilterPosMonotone(s[1..], p, i, j);
      }
    }
  }

  /** No input element before the position of a kept element's first
      occurrence equals it. */
  lemma {:induction false} FilterPosFirst<T(!new)>(s: seq<T>, p: T -> bool, i: int)
    requires 0 <= i < |Filter(s, p)|
    requires forall j :: 0 <= j < i ==> Filter(s, p)[j] != Filter(s, p)[i]
    ensures forall k :: 0 <= k < FilterPos(s, p, i) ==> s[k] != Filter(s, p)[i]
    decreases |s|
  {
    var r := Filter(s, p);
    var t := Filter(s[1..], p);
    if p(s[0]) {
      assert r == [s[0]] + t;
      if i > 0 {
        var n := FilterPos(s[1..], p, i - 1);
        assert r[0] != r[i] && r[i] == t[i - 1];
        assert forall k :: 0 <= k < n ==> s[1..][k] != t[i - 1] by {
          assert forall j :: 0 <= j < i - 1 ==> t[j] == r[j + 1];
          FilterPosFirst(s[1..], p, i - 1);
        }
        assert FilterPos(s, p, i) == n + 1;
        forall k | 0 <= k < n + 1
          ensures s[k] != r[i]
        {
          if k > 0 {
            assert s[k] == s[1..][k - 1];
          }
        }
      }
    } else {
      var n := FilterPos(s[1..], p, i);
      assert r == t && p(r[i]);
      assert forall k :: 0 <= k < n ==> s[1..][k] != t[i] by {
        FilterPosFirst(s[1..], p, i);
      }
      assert FilterPos(s, p, i) == n + 1;
      forall k | 0 <= k < n + 1
        ensures s[k] != r[i]
      {
        if k > 0 {
          assert s[k] == s[1..][k - 1];
        }
      }
    }
  }

  /** Kotlin's `firstOrNull { p }`. */
  function FirstWhere<T>(s: seq<T>, p: T -> bool): (r: Option<T>)
    ensures r.None? <==> forall i :: 0 <= i < |s| ==> !p(s[i])
    ensures r.Some? ==> exists i :: 0 <= i < |s| && s[i] == r.value && p(s[i]) && (forall j :: 0 <= j < i ==> !p(s[j]))
    decreases |s|
  {
    if |s| == 0 then None
    else if p(s[0]) then Some(s[0])
    else
      var r := FirstWhere(s[1..], p);
      assert forall i :: 1 <= i < |s| ==> s[i] == s[1..][i - 1];
      r
  }

  /** The first element satisfying `p` is the head of the filtered sequence. */
  lemma {:induction false} FirstWhereIsFilterHead<T(!new)>(s: seq<T>, p: T -> bool)
    ensures FirstWhere(s, p) == FirstOrNull(Filter(s, p))
    decreases |s|
  {
    if |s| > 0 && !p(s[0]) {
      FirstWhereIsFilterHead(s[1..], p);
    }
  }
}
