/** Cyclic stepping through a list, an array or the constants of an enum:
    the element after (before) the cursor, wrapping around at the ends and
    restarting from the first (last) element when the cursor is absent. */
module Cycle {
  import opened Wrappers
  import opened Seqs

  /** The nullable `next`: `null` only for an empty list. */
  function Next<T(==)>(s: seq<T>, cur: T): (r: Option<T>)
    ensures |s| == 0 ==> r.None?
    ensures |s| > 0 ==> r.Some? && r.value in s
    ensures 0 <= IndexOf(s, cur) < |s| - 1 ==> r == Some(s[IndexOf(s, cur) + 1])
    ensures |s| > 0 && (cur !in s || IndexOf(s, cur) == |s| - 1) ==> r == Some(s[0])
  {
    var i := IndexOf(s, cur) + 1;
    if 0 <= i < |s| then Some(s[i]) else FirstOrNull(s)
  }

  /** The nullable `previous`: `null` only for an empty list. */
  function Previous<T(==)>(s: seq<T>, cur: T): (r: Option<T>)
    ensures |s| == 0 ==> r.None?
    ensures |s| > 0 ==> r.Some? && r.value in s
    ensures 0 < IndexOf(s, cur) ==> r == Some(s[IndexOf(s, cur) - 1])
    ensures |s| > 0 && (cur !in s || IndexOf(s, cur) == 0) ==> r == Some(s[|s| - 1])
  {
    var i := IndexOf(s, cur) - 1;
    if 0 <= i < |s| then Some(s[i]) else LastOrNull(s)
  }

  /** The non-null `next`: on an empty collection `first()` throws. */
  function NextOrThrow<T(==)>(s: seq<T>, cur: T): (r: Result<T>)
    ensures r.Err? <==> |s| == 0
    ensures r.Ok? ==> Next(s, cur) == Some(r.value)
  {
    var i := IndexOf(s, cur) + 1;
    if 0 <= i < |s| then Ok(s[i])
    else if |s| == 0 then Err("NoSuchElementException: List is empty.")
    else Ok(s[0])
  }

  /** The non-null `previous`: on an empty collection `last()` throws. */
  function PreviousOrThrow<T(==)>(s: seq<T>, cur: T): (r: Result<T>)
    ensures r.Err? <==> |s| == 0
    ensures r.Ok? ==> Previous(s, cur) == Some(r.value)
  {
    var i := IndexOf(s, cur) - 1;
    if 0 <= i < |s| then Ok(s[i])
    else if |s| == 0 then Err("NoSuchElementException: List is empty.")
    else Ok(s[|s| - 1])
  }

  /** On a list without repeats, `next` advances the position by one,
      from the last position to the first. */
  lemma {:induction false} NextStep<T>(s: seq<T>, cur: T)
    requires NoDup(s) && cur in s
    ensures IndexOf(s, Next(s, cur).value) == if IndexOf(s, cur) == |s| - 1 then 0 else IndexOf(s, cur) + 1
  {
    var i := IndexOf(s, cur);
    var k := if i == |s| - 1 then 0 else i + 1;
    assert s[k] == Next(s, cur).value;
    IndexOfNoDup(s, k);
  }

  /** On a list without repeats, `previous` moves the position back by one,
      from the first position to the last. */
  lemma {:induction false} PreviousStep<T>(s: seq<T>, cur: T)
    requires NoDup(s) && cur in s
    ensures IndexOf(s, Previous(s, cur).value) == if IndexOf(s, cur) == 0 then |s| - 1 else IndexOf(s, cur) - 1
  {
    var i := IndexOf(s, cur);
    var k := if i == 0 then |s| - 1 else i - 1;
    assert s[k] == Previous(s, cur).value;
    IndexOfNoDup(s, k);
  }

  lemma {:induction false} IndexOfNoDup<T>(s: seq<T>, k: int)
    requires NoDup(s) && 0 <= k < |s|
    ensures IndexOf(s, s[k]) == k
  {
  }

  /** `previous` undoes `next` and `next` undoes `previous`. */
  lemma {:induction false} PreviousOfNext<T>(s: seq<T>, cur: T)
    requires NoDup(s) && cur in s
    ensures Previous(s, Next(s, cur).value) == Some(cur)
  {
    NextStep(s, cur);
    PreviousStep(s, Next(s, cur).value);
  }

  lemma {:induction false} NextOfPrevious<T>(s: seq<T>, cur: T)
    requires NoDup(s) && cur in s
    ensures Next(s, Previous(s, cur).value) == Some(cur)
  {
    PreviousStep(s, cur);
    NextStep(s, Previous(s, cur).value);
  }

  /** `k` steps of `next` from `cur`. */
  function NextN<T(==)>(s: seq<T>, cur: T, k: nat): (r: T)
    requires cur in s
    ensures r in s
    decreases k
  {
    if k == 0 then cur else NextN(s, Next(s, cur).value, k - 1)
  }

  /** `x` reduced below `n` by repeated subtraction: the remainder. */
  function Wrap(x: nat, n: nat): (r: nat)
    requires n > 0
    ensures r < n
    decreases x
  {
    if x < n then x else Wrap(x - n, n)
  }

  /** `k` steps advance the position by `k`, wrapping around the length. */
  lemma {:induction false} NextNStep<T>(s: seq<T>, cur: T, k: nat)
    requires NoDup(s) && cur in s
    ensures IndexOf(s, NextN(s, cur, k)) == Wrap(IndexOf(s, cur) + k, |s|)
    decreases k
  {
    if k > 0 {
      var i := IndexOf(s, cur);
      var nxt := Next(s, cur).value;
      NextStep(s, cur);
      NextNStep(s, nxt, k - 1);
      WrapStep(i, k, |s|);
    }
  }

  /** Moving the start one position on, wrapping at the end, and taking one
      step fewer lands in the same place. */
  lemma {:induction false} WrapStep(i: nat, k: nat, n: nat)
    requires i < n && k > 0
    ensures Wrap((if i == n - 1 then 0 else i + 1) + k - 1, n) == Wrap(i + k, n)
  {
    if i == n - 1 {
      assert Wrap(i + k, n) == Wrap(k - 1, n);
    }
  }

  /** One more full length wraps back to the same position. */
  lemma {:induction false} WrapOnce(i: nat, n: nat)
    requires i < n
    ensures Wrap(i + n, n) == i
  {
    assert Wrap(i + n, n) == Wrap(i, n);
  }

  /** Stepping once around a list without repeats returns to the start. */
  lemma {:induction false} NextCycle<T>(s: seq<T>, cur: T)
    requires NoDup(s) && cur in s
    ensures NextN(s, cur, |s|) == cur
  {
    AroundIndex(s, cur);
    SameIndex(s, NextN(s, cur, |s|), cur);
  }

  /** A full round ends at the starting position. */
  lemma {:induction false} AroundIndex<T>(s: seq<T>, cur: T)
    requires NoDup(s) && cur in s
    ensures IndexOf(s, NextN(s, cur, |s|)) == IndexOf(s, cur)
  {
    NextNStep(s, cur, |s|);
    WrapOnce(IndexOf(s, cur), |s|);
  }

  /** Two elements of a list at the same position are equal. */
  lemma {:induction false} SameIndex<T>(s: seq<T>, x: T, y: T)
    requires x in s && y in s && IndexOf(s, x) == IndexOf(s, y)
    ensures x == y
  {
  }

  /** The ordinal after `i`, wrapping at `n`. */
  lemma {:induction false} ModSucc(i: int, n: int)
    requires 0 <= i < n
    ensures (i + 1) % n == if i + 1 < n then i + 1 else 0
  {
  }

  /** The ordinal before `i`, wrapping at `n`. */
  lemma {:induction false} ModPred(i: int, n: int)
    requires 0 <= i < n
    ensures (i + n - 1) % n == if i > 0 then i - 1 else n - 1
  {
    if i > 0 {
      assert i + n - 1 == (i - 1) + n;
    }
  }

  /** The constant after `e` in declaration order, the first after the
      last; `values` lists every constant of the enum once. */
  function EnumNext<T(==)>(values: seq<T>, e: T): (r: T)
    requires e in values
    ensures r == values[(IndexOf(values, e) + 1) % |values|]
  {
    ModSucc(IndexOf(values, e), |values|);
    Next(values, e).value
  }

  /** The constant before `e` in declaration order, the last before the
      first. */
  function EnumPrevious<T(==)>(values: seq<T>, e: T): (r: T)
    requires e in values
    ensures r == values[(IndexOf(values, e) + |values| - 1) % |values|]
  {
    ModPred(IndexOf(values, e), |values|);
    Previous(values, e).value
  }

  /** Over constants listed once each, `previous` undoes `next` and `next`
      undoes `previous`. */
  lemma {:induction false} EnumStepsUndo<T>(values: seq<T>, e: T)
    requires NoDup(values) && e in values
    ensures EnumPrevious(values, EnumNext(values, e)) == e
    ensures EnumNext(values, EnumPrevious(values, e)) == e
  {
    PreviousOfNext(values, e);
    NextOfPrevious(values, e);
  }
}
