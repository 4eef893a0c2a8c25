/** The shape every preference codec shares: a Kotlin `when` over stored
    text with an `else` default for reading, and a `when` over values with an
    optional `else` fallback for writing. A codec is a table of
    (text, value) pairs tried in order. */
module Codec {
  import opened Seqs

  /** The stored texts of a table, in order. */
  function Texts<T>(t: seq<(string, T)>): (r: seq<string>)
    ensures |r| == |t|
    ensures forall i :: 0 <= i < |t| ==> r[i] == t[i].0
  {
    seq(|t|, i requires 0 <= i < |t| => t[i].0)
  }

  /** Reading: the value of the first entry whose text matches, or the
      default when none does. */
  function Decode<T>(t: seq<(string, T)>, s: string, default: T): (r: T)
    ensures (forall i :: 0 <= i < |t| ==> t[i].0 != s) ==> r == default
    ensures forall i :: 0 <= i < |t| && t[i].0 == s && (forall j :: 0 <= j < i ==> t[j].0 != s) ==> r == t[i].1
    decreases |t|
  {
    if |t| == 0 then default
    else if t[0].0 == s then t[0].1
    else
      assert forall i :: 1 <= i < |t| ==> t[1..][i - 1] == t[i];
      Decode(t[1..], s, default)
  }

  /** Writing: the text of the first entry holding the value, or the
      fallback when none does. */
  function Encode<T(==)>(t: seq<(string, T)>, v: T, fallback: string): (r: string)
    ensures (forall i :: 0 <= i < |t| ==> t[i].1 != v) ==> r == fallback
    ensures forall i :: 0 <= i < |t| && t[i].1 == v && (forall j :: 0 <= j < i ==> t[j].1 != v) ==> r == t[i].0
    decreases |t|
  {
    if |t| == 0 then fallback
    else if t[0].1 == v then t[0].0
    else
      assert forall i :: 1 <= i < |t| ==> t[1..][i - 1] == t[i];
      Encode(t[1..], v, fallback)
  }

  /** Whether the table has an entry for the value. */
  predicate Holds<T(==)>(t: seq<(string, T)>, v: T) {
    exists i :: 0 <= i < |t| && t[i].1 == v
  }

  /** With distinct texts, a value the table holds reads back as itself
      whatever the default and fallback. */
  lemma {:induction false} DecodeEncode<T>(t: seq<(string, T)>, v: T, fallback: string, default: T)
    requires NoDup(Texts(t)) && Holds(t, v)
    ensures Decode(t, Encode(t, v, fallback), default) == v
    decreases |t|
  {
    if t[0].1 != v {
      var tail := t[1..];
      assert forall i :: 0 <= i < |tail| ==> tail[i] == t[i + 1];
      var k :| 0 <= k < |t| && t[k].1 == v;
      assert tail[k - 1].1 == v;
      assert NoDup(Texts(tail)) by {
        assert forall i :: 0 <= i < |tail| ==> Texts(tail)[i] == Texts(t)[i + 1];
      }
      DecodeEncode(tail, v, fallback, default);
      EncodeIsText(tail, v, fallback);
      var j :| 0 <= j < |tail| && tail[j].0 == Encode(tail, v, fallback);
      assert Texts(t)[0] != Texts(t)[j + 1];
    }
  }

  /** A held value is written as one of the table's texts. */
  lemma {:induction false} EncodeIsText<T>(t: seq<(string, T)>, v: T, fallback: string)
    requires Holds(t, v)
    ensures exists j :: 0 <= j < |t| && t[j].0 == Encode(t, v, fallback)
    decreases |t|
  {
    if t[0].1 != v {
      var tail := t[1..];
      var k :| 0 <= k < |t| && t[k].1 == v;
      assert tail[k - 1].1 == v;
      EncodeIsText(tail, v, fallback);
      var j :| 0 <= j < |tail| && tail[j].0 == Encode(tail, v, fallback);
      assert t[j + 1].0 == Encode(t, v, fallback);
    }
  }

  /** With distinct texts, each entry's text reads as its value. */
  lemma {:induction false} DecodeAt<T>(t: seq<(string, T)>, i: int, default: T)
    requires NoDup(Texts(t)) && 0 <= i < |t|
    ensures Decode(t, t[i].0, default) == t[i].1
  {
    forall j | 0 <= j < i
      ensures t[j].0 != t[i].0
    {
      assert Texts(t)[j] != Texts(t)[i];
    }
  }

  /** A value the table does not hold is written as the fallback and so
      reads back as whatever the fallback decodes to. */
  lemma {:induction false} EncodeUnheld<T>(t: seq<(string, T)>, v: T, fallback: string, default: T)
    requires !Holds(t, v)
    ensures Encode(t, v, fallback) == fallback
    ensures Decode(t, Encode(t, v, fallback), default) == Decode(t, fallback, default)
  {
  }
}
