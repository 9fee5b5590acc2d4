/** The JavaScript array operations the board's reducers rely on, with the
    index rules of `Array.prototype.splice` and `Array.prototype.filter`. */
module JsArray {

  /** Every element occurs at most once. */
  ghost predicate NoDuplicates<T(!new)>(s: seq<T>) {
    forall x :: multiset(s)[x] <= 1
  }

  /** `a` is `b` with some elements dropped and the rest kept in order. */
  ghost predicate IsSubsequence<T>(a: seq<T>, b: seq<T>)
    decreases |b|
  {
    if a == [] then true
    else if b == [] then false
    else
      || (a[|a| - 1] == b[|b| - 1] && IsSubsequence(a[..|a| - 1], b[..|b| - 1]))
      || IsSubsequence(a, b[..|b| - 1])
  }

  /** The position at which `splice(start, ...)` acts on an array of length
      `len`: a negative start counts back from the end, and the position is
      clamped to `[0, len]`. */
  function SpliceStart(len: nat, start: int): (k: nat)
    ensures k <= len
    ensures 0 <= start <= len ==> k == start
  {
    if start < 0 then (if len + start < 0 then 0 else len + start)
    else if start > len then len
    else start
  }

  /** The array left by `a.splice(start, 1)`: the element at the splice position
      is removed if there is one; past the end nothing is removed. */
  function RemoveAt<T>(s: seq<T>, start: int): (r: seq<T>)
    ensures var k := SpliceStart(|s|, start);
      && |r| == (if k < |s| then |s| - 1 else |s|)
      && (forall j :: 0 <= j < k && j < |r| ==> r[j] == s[j])
      && (forall j :: k <= j < |r| ==> r[j] == s[j + 1])
      && (k < |s| ==> multiset(r) + multiset{s[k]} == multiset(s))
  {
    var k := SpliceStart(|s|, start);
    if k < |s| then
      assert s == s[..k] + [s[k]] + s[k + 1..];
      s[..k] + s[k + 1..]
    else s
  }

  /** The array left by `a.splice(start, 0, x)`: `x` is inserted at the splice
      position and everything from there on moves one place right. */
  function InsertAt<T>(s: seq<T>, start: int, x: T): (r: seq<T>)
    ensures var k := SpliceStart(|s|, start);
      && |r| == |s| + 1
      && r[k] == x
      && (forall j :: 0 <= j < k ==> r[j] == s[j])
      && (forall j :: k < j < |r| ==> r[j] == s[j - 1])
      && multiset(r) == multiset(s) + multiset{x}
  {
    var k := SpliceStart(|s|, start);
    assert s == s[..k] + s[k..];
    s[..k] + [x] + s[k..]
  }

  /** Removing at the position of an insertion gives the original array back. */
  lemma RemoveInserted<T>(s: seq<T>, start: int, x: T)
    ensures RemoveAt(InsertAt(s, start, x), SpliceStart(|s|, start)) == s
  {
    var k := SpliceStart(|s|, start);
    var r := InsertAt(s, start, x);
    assert r == s[..k] + [x] + s[k..];
    assert r[..k] + r[k + 1..] == s;
  }

  /** `s.filter(y => y !== x)`: every occurrence of `x` is dropped and
      nothing else is. */
  function Without<T(==)>(s: seq<T>, x: T): (r: seq<T>)
    ensures |r| <= |s|
    ensures x !in r
    decreases |s|
  {
    if s == [] then []
    else Without(s[..|s| - 1], x) + (if s[|s| - 1] == x then [] else [s[|s| - 1]])
  }

  /** Filtering drops every occurrence of `x` and nothing else, and leaves a
      sequence without `x` as it is. */
  lemma {:induction false} WithoutCounts<T>(s: seq<T>, x: T)
    ensures multiset(Without(s, x)) == multiset(s)[x := 0]
    ensures x !in s ==> Without(s, x) == s
    decreases |s|
  {
    if s != [] {
      var init, last := s[..|s| - 1], s[|s| - 1];
      WithoutCounts(init, x);
      SnocSplit(s);
    }
  }

  /** A non-empty sequence is its prefix followed by its last element. */
  lemma SnocSplit<T>(s: seq<T>)
    requires s != []
    ensures s == s[..|s| - 1] + [s[|s| - 1]]
    ensures multiset(s) == multiset(s[..|s| - 1]) + multiset{s[|s| - 1]}
  {
    assert s == s[..|s| - 1] + [s[|s| - 1]];
  }

  /** An element is in a non-empty sequence exactly when it is the last one
      or in the prefix. */
  lemma SnocMembers<T>(s: seq<T>)
    requires s != []
    ensures forall x :: x in s <==> x == s[|s| - 1] || x in s[..|s| - 1]
  {
    assert s == s[..|s| - 1] + [s[|s| - 1]];
  }

  /** Filtering `x` out of a sequence without `x` extended by `x` gives back
      the sequence. */
  lemma WithoutSnocFresh<T>(s: seq<T>, x: T)
    requires x !in s
    ensures Without(s + [x], x) == s
  {
    assert (s + [x])[..|s|] == s;
    WithoutCounts(s, x);
  }

  /** Filtering keeps the survivors in their original order. */
  lemma {:induction false} WithoutIsSubsequence<T>(s: seq<T>, x: T)
    ensures IsSubsequence(Without(s, x), s)
    decreases |s|
  {
    if s != [] {
      var init, last := s[..|s| - 1], s[|s| - 1];
      WithoutIsSubsequence(init, x);
      var w := Without(init, x);
      if last != x {
        assert Without(s, x)[..|w|] == w;
      } else if w != [] {
        assert Without(s, x) == w;
      }
    }
  }

  /** Inserting at a position inside `[0, |s|]` puts `x` between the two
      halves of `s` split there. */
  lemma InsertAtSplit<T>(s: seq<T>, k: int, x: T)
    requires 0 <= k <= |s|
    ensures InsertAt(s, k, x) == s[..k] + [x] + s[k..]
  {
  }

  /** Inserting at the seam of a concatenation puts `x` between its parts. */
  lemma InsertAtJoin<T>(a: seq<T>, b: seq<T>, x: T)
    ensures InsertAt(a + b, |a|, x) == a + [x] + b
  {
    assert (a + b)[..|a|] == a && (a + b)[|a|..] == b;
  }

  /** Removing the element just after `a` leaves `a` and `b` joined. */
  lemma RemoveAtJoin<T>(a: seq<T>, y: T, b: seq<T>)
    ensures RemoveAt(a + [y] + b, |a|) == a + b
  {
    var s := a + [y] + b;
    assert s[..|a|] == a && s[|a| + 1..] == b;
  }

  /** Inserting at a position inside `[0, |s|]` puts `x` at exactly that
      index, and removing it again gives back `s`. */
  lemma InsertAtLands<T>(s: seq<T>, k: int, x: T)
    requires 0 <= k <= |s|
    ensures |InsertAt(s, k, x)| == |s| + 1 && InsertAt(s, k, x)[k] == x
    ensures RemoveAt(InsertAt(s, k, x), k) == s
  {
    RemoveAtJoin(s[..k], x, s[k..]);
    assert s[..k] + s[k..] == s;
  }

  /** Removing at a position inside the array cuts out exactly that element. */
  lemma RemoveAtInRange<T>(s: seq<T>, i: int)
    requires 0 <= i < |s|
    ensures RemoveAt(s, i) == s[..i] + s[i + 1..]
  {
  }

  /** Moving an element out and back into the same place changes nothing. */
  lemma {:induction false} RemoveThenInsert<T>(s: seq<T>, i: int)
    requires 0 <= i < |s|
    ensures InsertAt(RemoveAt(s, i), i, s[i]) == s
  {
    var r := RemoveAt(s, i);
    assert SpliceStart(|r|, i) == i;
    RemoveAtInRange(s, i);
    assert s == s[..i] + [s[i]] + s[i + 1..];
  }
}
