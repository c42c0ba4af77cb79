/** Sequence helpers shared by the scales: ranges::find and a reversed view. */
module Seqs {

  /**
   * Position of the first element equal to `x`, or `|s|` when there is none
   * (the end iterator of ranges::find).
   */
  function Find<T(==)>(s: seq<T>, x: T): (i: nat)
    ensures i <= |s|
    ensures i < |s| ==> s[i] == x
    ensures forall j :: 0 <= j < i ==> s[j] != x
    ensures i == |s| <==> x !in s
  {
    if |s| == 0 then 0
    else if s[0] == x then 0
    else 1 + Find(s[1..], x)
  }

  /** An element found at i and nowhere before it is found at i. */
  lemma FindFirst<T>(s: seq<T>, x: T, i: nat)
    requires i < |s| && s[i] == x && x !in s[..i]
    ensures Find(s, x) == i
  {
    assert forall j :: 0 <= j < i ==> s[..i][j] == s[j];
  }

  /** Appending an element does not move the first occurrence of one already present. */
  lemma FindInPrefix<T>(s: seq<T>, x: T, y: T)
    requires y in s
    ensures Find(s + [x], y) == Find(s, y)
  {
    var i := Find(s, y);
    assert (s + [x])[..i] == s[..i];
    assert forall j :: 0 <= j < i ==> s[..i][j] == s[j];
    FindFirst(s + [x], y, i);
  }

  /** An element appended to a sequence without it is found at the old length. */
  lemma FindAppended<T>(s: seq<T>, x: T)
    requires x !in s
    ensures Find(s + [x], x) == |s|
  {
    assert (s + [x])[..|s|] == s;
    FindFirst(s + [x], x, |s|);
  }

  /** No element occurs twice. */
  predicate Distinct<T(==)>(s: seq<T>)
  {
    forall i, j :: 0 <= i < j < |s| ==> s[i] != s[j]
  }

  /** The elements of `s` back to front (the reverse view of a range). */
  function Reverse<T>(s: seq<T>): (r: seq<T>)
    ensures |r| == |s|
    ensures forall i :: 0 <= i < |s| ==> r[i] == s[|s| - 1 - i]
  {
    if |s| == 0 then [] else Reverse(s[1..]) + [s[0]]
  }

  lemma {:induction false} ReverseReverse<T>(s: seq<T>)
    ensures Reverse(Reverse(s)) == s
  {
    var r := Reverse(Reverse(s));
    assert |r| == |s|;
    forall i | 0 <= i < |s| ensures r[i] == s[i] {
      assert r[i] == Reverse(s)[|s| - 1 - i];
    }
  }

  /** Strictly increasing. */
  predicate Increasing(s: seq<real>)
  {
    forall i, j :: 0 <= i < j < |s| ==> s[i] < s[j]
  }

  /** Strictly decreasing. */
  predicate Decreasing(s: seq<real>)
  {
    forall i, j :: 0 <= i < j < |s| ==> s[i] > s[j]
  }

  lemma {:induction false} ReverseIncreasing(s: seq<real>)
    requires Increasing(s)
    ensures Decreasing(Reverse(s))
  {
    var r := Reverse(s);
    forall i, j | 0 <= i < j < |r| ensures r[i] > r[j] {
      assert r[i] == s[|s| - 1 - i] && r[j] == s[|s| - 1 - j];
    }
  }
}
