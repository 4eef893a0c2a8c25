/** Ordering of strings and the two list operations Kotlin code applies
    with a string key: `sortedBy` and `distinctBy`. */
module Sorting {
  import opened Wrappers
  import opened Seqs

  /** The UTF-16 code units of a character, as Java and Kotlin store it:
      the scalar value itself below U+10000, otherwise a high and a low
      surrogate. */
  function CharUnits(c: char): (r: seq<int>)
    ensures |r| == 1 <==> c as int < 0x1_0000
    ensures |r| == 1 ==> r[0] == c as int
    ensures |r| == 2 ==> 0xD800 <= r[0] < 0xDC00 && 0xDC00 <= r[1] < 0xE000
    ensures |r| == 2 ==> (r[0] - 0xD800) * 0x400 + (r[1] - 0xDC00) + 0x1_0000 == c as int
  {
    var v := c as int;
    if v < 0x1_0000 then [v]
    else [0xD800 + (v - 0x1_0000) / 0x400, 0xDC00 + (v - 0x1_0000) % 0x400]
  }

  /** The UTF-16 encoding of a string. */
  function Utf16(s: string): (r: seq<int>)
    ensures |s| <= |r| <= 2 * |s|
    decreases |s|
  {
    if |s| == 0 then [] else CharUnits(s[0]) + Utf16(s[1..])
  }

  /** Two characters whose encodings start two equal code-unit sequences
      are equal, and so are the rests. */
  lemma {:induction false} CharUnitsPrefix(x: char, y: char, xs: seq<int>, ys: seq<int>)
    requires CharUnits(x) + xs == CharUnits(y) + ys
    ensures x == y && xs == ys
  {
    var ux := CharUnits(x);
    var uy := CharUnits(y);
    assert ux[0] == (ux + xs)[0] == (uy + ys)[0] == uy[0];
    if |ux| == 2 && |uy| == 2 {
      assert ux[1] == (ux + xs)[1] == (uy + ys)[1] == uy[1];
    }
    assert xs == (ux + xs)[|ux|..];
    assert ys == (uy + ys)[|uy|..];
  }

  /** Different strings have different encodings. */
  lemma {:induction false} Utf16Injective(a: string, b: string)
    requires Utf16(a) == Utf16(b)
    ensures a == b
    decreases |a|
  {
    if |a| > 0 && |b| > 0 {
      CharUnitsPrefix(a[0], b[0], Utf16(a[1..]), Utf16(b[1..]));
      Utf16Injective(a[1..], b[1..]);
      assert a == [a[0]] + a[1..];
      assert b == [b[0]] + b[1..];
    }
  }

  /** Lexicographic order of code-unit sequences. */
  predicate UnitsLe(a: seq<int>, b: seq<int>)
    decreases |a|
  {
    |a| == 0 || (|b| > 0 && (a[0] < b[0] || (a[0] == b[0] && UnitsLe(a[1..], b[1..]))))
  }

  lemma {:induction false} UnitsLeTotal(a: seq<int>, b: seq<int>)
    ensures UnitsLe(a, b) || UnitsLe(b, a)
    decreases |a|
  {
    if |a| > 0 && |b| > 0 && a[0] == b[0] {
      UnitsLeTotal(a[1..], b[1..]);
    }
  }

  lemma {:induction false} UnitsLeTrans(a: seq<int>, b: seq<int>, c: seq<int>)
    requires UnitsLe(a, b) && UnitsLe(b, c)
    ensures UnitsLe(a, c)
    decreases |a|
  {
    if |a| > 0 && |b| > 0 && |c| > 0 && a[0] == b[0] && b[0] == c[0] {
      UnitsLeTrans(a[1..], b[1..], c[1..]);
    }
  }

  lemma {:induction false} UnitsLeAntisym(a: seq<int>, b: seq<int>)
    requires UnitsLe(a, b) && UnitsLe(b, a)
    ensures a == b
    decreases |a|
  {
    if |a| > 0 {
      UnitsLeAntisym(a[1..], b[1..]);
      assert a == [a[0]] + a[1..];
      assert b == [b[0]] + b[1..];
    }
  }

  /** `a.compareTo(b) <= 0` on Kotlin strings: lexicographic order of the
      UTF-16 code units. */
  predicate LexLe(a: string, b: string) {
    UnitsLe(Utf16(a), Utf16(b))
  }

  lemma {:induction false} LexLeTotal(a: string, b: string)
    ensures LexLe(a, b) || LexLe(b, a)
  {
    UnitsLeTotal(Utf16(a), Utf16(b));
  }

  lemma {:induction false} LexLeTrans(a: string, b: string, c: string)
    requires LexLe(a, b) && LexLe(b, c)
    ensures LexLe(a, c)
  {
    UnitsLeTrans(Utf16(a), Utf16(b), Utf16(c));
  }

  lemma {:induction false} LexLeAntisym(a: string, b: string)
    requires LexLe(a, b) && LexLe(b, a)
    ensures a == b
  {
    UnitsLeAntisym(Utf16(a), Utf16(b));
    Utf16Injective(a, b);
  }

  /** Code-unit order is not code-point order: a character beyond U+FFFF
      starts with a surrogate, which sorts below U+E000..U+FFFF. So
      U+1F600 sorts before U+FF21, although its scalar value is larger. */
  lemma SupplementaryBeforeHighBmp()
    ensures LexLe("\U{1F600}", "\U{FF21}") && !LexLe("\U{FF21}", "\U{1F600}")
  {
    assert Utf16("\U{1F600}") == [0xD83D, 0xDE00];
    assert Utf16("\U{FF21}") == [0xFF21];
  }

  ghost predicate SortedBy<T>(s: seq<T>, key: T -> string) {
    forall i, j :: 0 <= i < j < |s| ==> LexLe(key(s[i]), key(s[j]))
  }

  lemma {:induction false} SortedTail<T>(s: seq<T>, key: T -> string)
    requires |s| > 0 && SortedBy(s, key)
    ensures SortedBy(s[1..], key)
  {
    forall i, j | 0 <= i < j < |s[1..]| ensures LexLe(key(s[1..][i]), key(s[1..][j])) {
      assert s[1..][i] == s[i + 1] && s[1..][j] == s[j + 1];
    }
  }

  /** The condition "has key `k`", as the selector of one key's elements. */
  function HasKey<T>(key: T -> string, k: string): T -> bool {
    x => key(x) == k
  }

  /** Inserts `x` before the first element whose key is not smaller. */
  function Insert<T>(x: T, s: seq<T>, key: T -> string): (r: seq<T>)
    requires SortedBy(s, key)
    ensures SortedBy(r, key)
    ensures multiset(r) == multiset(s) + multiset{x}
    ensures |r| == |s| + 1
    decreases |s|
  {
    if |s| == 0 then [x]
    else if LexLe(key(x), key(s[0])) then
      HeadBelow(x, s, key);
      ConsSorted(x, s, key);
      [x] + s
    else
      LexLeTotal(key(x), key(s[0]));
      var t := Insert(x, s[1..], key);
      InsertBelow(x, s, key, t);
      ConsSorted(s[0], t, key);
      assert s == [s[0]] + s[1..];
      [s[0]] + t
  }

  /** A key not above a sorted sequence's first key is below all its keys. */
  lemma {:induction false} HeadBelow<T>(x: T, s: seq<T>, key: T -> string)
    requires |s| > 0 && SortedBy(s, key) && LexLe(key(x), key(s[0]))
    ensures forall j :: 0 <= j < |s| ==> LexLe(key(x), key(s[j]))
  {
    forall j | 0 < j < |s| ensures LexLe(key(x), key(s[j])) {
      LexLeTrans(key(x), key(s[0]), key(s[j]));
    }
  }

  /** The first element of a sorted sequence is below everything the
      insertion into the rest holds. */
  lemma {:induction false} InsertBelow<T>(x: T, s: seq<T>, key: T -> string, t: seq<T>)
    requires |s| > 0 && SortedBy(s, key) && LexLe(key(s[0]), key(x))
    requires multiset(t) == multiset(s[1..]) + multiset{x}
    ensures forall j :: 0 <= j < |t| ==> LexLe(key(s[0]), key(t[j]))
  {
    forall j | 0 <= j < |t| ensures LexLe(key(s[0]), key(t[j])) {
      assert t[j] in multiset(t);
      if t[j] != x {
        assert t[j] in multiset(s[1..]);
        var k :| 0 <= k < |s[1..]| && s[1..][k] == t[j];
        assert s[k + 1] == t[j];
      }
    }
  }

  /** A sorted sequence stays sorted behind an element not above any of
      its keys. */
  lemma {:induction false} ConsSorted<T>(h: T, t: seq<T>, key: T -> string)
    requires SortedBy(t, key) && forall j :: 0 <= j < |t| ==> LexLe(key(h), key(t[j]))
    ensures SortedBy([h] + t, key)
  {
    var r := [h] + t;
    forall i, j | 0 <= i < j < |r| ensures LexLe(key(r[i]), key(r[j])) {
      assert r[j] == t[j - 1];
      if i > 0 {
        assert r[i] == t[i - 1];
      }
    }
  }

  /** Filtering keeps a sorted sequence sorted. */
  lemma {:induction false} FilterSorted<T(!new)>(s: seq<T>, p: T -> bool, key: T -> string)
    requires SortedBy(s, key)
    ensures SortedBy(Filter(s, p), key)
    decreases |s|
  {
    if |s| > 0 {
      var t := s[1..];
      assert SortedBy(t, key) by {
        forall i, j | 0 <= i < j < |t| ensures LexLe(key(t[i]), key(t[j])) {
          assert t[i] == s[i + 1] && t[j] == s[j + 1];
        }
      }
      FilterSorted(t, p, key);
      if p(s[0]) {
        var ft := Filter(t, p);
        forall j | 0 <= j < |ft| ensures LexLe(key(s[0]), key(ft[j])) {
          assert ft[j] in t;
          var k :| 0 <= k < |t| && t[k] == ft[j];
          assert s[k + 1] == ft[j];
        }
        ConsSorted(s[0], ft, key);
      }
    }
  }

  /** Insertion puts `x` behind no element of its own key: the elements of
      any one key come out in the order they have in `[x] + s`. */
  lemma {:induction false} InsertStable<T(!new)>(x: T, s: seq<T>, key: T -> string, k: string)
    requires SortedBy(s, key)
    ensures Filter(Insert(x, s, key), HasKey(key, k)) == Filter([x] + s, HasKey(key, k))
    decreases |s|
  {
    if |s| > 0 && !LexLe(key(x), key(s[0])) {
      var p := HasKey(key, k);
      var t := s[1..];
      SortedTail(s, key);
      InsertStable(x, t, key, k);
      LexLeTotal(key(x), key(x));
      assert key(s[0]) != key(x);
      var ins := Insert(x, t, key);
      assert Insert(x, s, key) == [s[0]] + ins;
      assert ([s[0]] + ins)[1..] == ins;
      assert ([x] + t)[1..] == t;
      assert ([x] + s)[1..] == s;
      assert s == [s[0]] + t;
    }
  }

  /** One step of `SortBy`: inserting the head into the sorted rest keeps
      every key's elements in input order. */
  lemma {:induction false} SortStep<T(!new)>(s: seq<T>, t: seq<T>, key: T -> string)
    requires |s| > 0 && SortedBy(t, key)
    requires forall k :: Filter(t, HasKey(key, k)) == Filter(s[1..], HasKey(key, k))
    ensures forall k :: Filter(Insert(s[0], t, key), HasKey(key, k)) == Filter(s, HasKey(key, k))
  {
    forall k ensures Filter(Insert(s[0], t, key), HasKey(key, k)) == Filter(s, HasKey(key, k)) {
      InsertStable(s[0], t, key, k);
      assert ([s[0]] + t)[1..] == t;
    }
  }

  /** `sortedBy(key)`: the same elements, ordered by key, and stable: the
      elements of each key keep their relative order. */
  function SortBy<T(!new)>(s: seq<T>, key: T -> string): (r: seq<T>)
    ensures SortedBy(r, key)
    ensures multiset(r) == multiset(s)
    ensures |r| == |s|
    ensures forall k :: Filter(r, HasKey(key, k)) == Filter(s, HasKey(key, k))
    decreases |s|
  {
    if |s| == 0 then []
    else
      assert s == [s[0]] + s[1..];
      var t := SortBy(s[1..], key);
      SortStep(s, t, key);
      Insert(s[0], t, key)
  }

  /** The keys of a sequence, in order. */
  function Keys<T>(s: seq<T>, key: T -> string): (r: seq<string>)
    ensures |r| == |s| && forall i :: 0 <= i < |s| ==> r[i] == key(s[i])
  {
    seq(|s|, i requires 0 <= i < |s| => key(s[i]))
  }

  /** What `DistinctByFrom(s, key, seen)` promises of its result `r`. */
  ghost predicate DistinctFrom<T>(s: seq<T>, key: T -> string, seen: set<string>, r: seq<T>) {
    |r| <= |s| &&
    (forall i :: 0 <= i < |r| ==> r[i] in s && key(r[i]) !in seen) &&
    (forall i :: 0 <= i < |s| ==> key(s[i]) in seen || key(s[i]) in Keys(r, key)) &&
    NoDup(Keys(r, key)) &&
    (SortedBy(s, key) ==> SortedBy(r, key))
  }

  /** An element first of its key behind a head of another key is still the
      first of its key. */
  lemma {:induction false} FirstBehindOtherKey<T>(s: seq<T>, key: T -> string, x: T)
    requires |s| > 0 && key(s[0]) != key(x)
    requires FirstWhere(s[1..], HasKey(key, key(x))) == Some(x)
    ensures FirstWhere(s, HasKey(key, key(x))) == Some(x)
  {
  }

  /** Every element of `r` is the first element of `s` with its key. */
  ghost predicate FirstOfKeys<T>(s: seq<T>, key: T -> string, r: seq<T>) {
    forall i :: 0 <= i < |r| ==> FirstWhere(s, HasKey(key, key(r[i]))) == Some(r[i])
  }

  /** Skipping a head of a seen key keeps the kept elements first. */
  lemma {:induction false} SeenHeadFirst<T>(s: seq<T>, key: T -> string, seen: set<string>, r: seq<T>)
    requires |s| > 0 && key(s[0]) in seen
    requires forall i :: 0 <= i < |r| ==> key(r[i]) !in seen
    requires FirstOfKeys(s[1..], key, r)
    ensures FirstOfKeys(s, key, r)
  {
    forall i | 0 <= i < |r| ensures FirstWhere(s, HasKey(key, key(r[i]))) == Some(r[i]) {
      FirstBehindOtherKey(s, key, r[i]);
    }
  }

  /** Keeping a head of a new key keeps it and the rest first. */
  lemma {:induction false} NewHeadFirst<T>(s: seq<T>, key: T -> string, rest: seq<T>)
    requires |s| > 0
    requires forall i :: 0 <= i < |rest| ==> key(rest[i]) != key(s[0])
    requires FirstOfKeys(s[1..], key, rest)
    ensures FirstOfKeys(s, key, [s[0]] + rest)
  {
    var r := [s[0]] + rest;
    forall i | 0 <= i < |r| ensures FirstWhere(s, HasKey(key, key(r[i]))) == Some(r[i]) {
      if i > 0 {
        assert r[i] == rest[i - 1];
        FirstBehindOtherKey(s, key, rest[i - 1]);
      }
    }
  }

  /** A head whose key was seen adds nothing. */
  lemma {:induction false} SeenHead<T>(s: seq<T>, key: T -> string, seen: set<string>, r: seq<T>)
    requires |s| > 0 && key(s[0]) in seen && DistinctFrom(s[1..], key, seen, r)
    ensures DistinctFrom(s, key, seen, r)
  {
    forall i | 0 <= i < |r| ensures r[i] in s {
      var m :| 0 <= m < |s[1..]| && s[1..][m] == r[i];
      assert s[m + 1] == r[i];
    }
    forall i | 0 < i < |s| ensures key(s[i]) in seen || key(s[i]) in Keys(r, key) {
      assert s[i] == s[1..][i - 1];
    }
    if SortedBy(s, key) {
      forall i, j | 0 <= i < j < |s[1..]| ensures LexLe(key(s[1..][i]), key(s[1..][j])) {
        assert s[1..][i] == s[i + 1] && s[1..][j] == s[j + 1];
      }
    }
  }

  /** A head with a new key is kept in front of the rest. */
  lemma {:induction false} NewHead<T>(s: seq<T>, key: T -> string, seen: set<string>, rest: seq<T>)
    requires |s| > 0 && key(s[0]) !in seen && DistinctFrom(s[1..], key, seen + {key(s[0])}, rest)
    ensures DistinctFrom(s, key, seen, [s[0]] + rest)
  {
    var k := key(s[0]);
    var r := [s[0]] + rest;
    forall i | 0 <= i < |rest| ensures rest[i] in s {
      var m :| 0 <= m < |s[1..]| && s[1..][m] == rest[i];
      assert s[m + 1] == rest[i];
    }
    assert forall i :: 1 <= i < |r| ==> r[i] == rest[i - 1];
    assert Keys(r, key) == [k] + Keys(rest, key);
    forall i | 0 < i < |s| ensures key(s[i]) in seen || key(s[i]) in Keys(r, key) {
      assert s[i] == s[1..][i - 1];
    }
    if SortedBy(s, key) {
      SortedTail(s, key);
      NewHeadSorted(s, key, rest);
    }
  }

  /** A sorted sequence's head stays sorted in front of what its tail keeps. */
  lemma {:induction false} NewHeadSorted<T>(s: seq<T>, key: T -> string, rest: seq<T>)
    requires |s| > 0 && SortedBy(s, key) && SortedBy(rest, key)
    requires forall i :: 0 <= i < |rest| ==> rest[i] in s[1..]
    ensures SortedBy([s[0]] + rest, key)
  {
    forall j | 0 <= j < |rest| ensures LexLe(key(s[0]), key(rest[j])) {
      var m :| 0 <= m < |s[1..]| && s[1..][m] == rest[j];
      assert s[m + 1] == rest[j];
    }
    ConsSorted(s[0], rest, key);
  }

  /** `distinctBy(key)` with the keys already `seen` excluded: the first
      element of every key, in order. */
  function DistinctByFrom<T>(s: seq<T>, key: T -> string, seen: set<string>): (r: seq<T>)
    ensures DistinctFrom(s, key, seen, r)
    ensures FirstOfKeys(s, key, r)
    decreases |s|
  {
    if |s| == 0 then []
    else if key(s[0]) in seen then
      var r := DistinctByFrom(s[1..], key, seen);
      SeenHead(s, key, seen, r);
      SeenHeadFirst(s, key, seen, r);
      r
    else
      var rest := DistinctByFrom(s[1..], key, seen + {key(s[0])});
      NewHead(s, key, seen, rest);
      NewHeadFirst(s, key, rest);
      [s[0]] + rest
  }

  /** `distinctBy(key)`: for every key, the first element with that key. */
  function DistinctBy<T>(s: seq<T>, key: T -> string): (r: seq<T>)
    ensures forall i :: 0 <= i < |r| ==> r[i] in s
    ensures forall i :: 0 <= i < |r| ==> FirstWhere(s, HasKey(key, key(r[i]))) == Some(r[i])
    ensures forall i :: 0 <= i < |s| ==> key(s[i]) in Keys(r, key)
    ensures NoDup(Keys(r, key))
    ensures SortedBy(s, key) ==> SortedBy(r, key)
  {
    DistinctByFrom(s, key, {})
  }
}
