/**
 * List operations the panel performs on Python lists: keeping the first occurrence
 * of each element, cutting a list into groups of three, and the order-preserving
 * difference of two lists.
 */
module Seqs {

  predicate NoDup<T(==)>(s: seq<T>) {
    forall i, j :: 0 <= i < j < |s| ==> s[i] != s[j]
  }

  /** `if x not in l: l.append(x)`. */
  function AppendNew<T(==)>(l: seq<T>, x: T): seq<T> {
    if x in l then l else l + [x]
  }

  /** The list built by appending each element of `s` that is not yet in it. */
  function Dedup<T(==)>(s: seq<T>): seq<T> {
    if s == [] then [] else AppendNew(Dedup(s[..|s| - 1]), s[|s| - 1])
  }

  lemma DedupSnoc<T>(s: seq<T>, x: T)
    ensures Dedup(s + [x]) == AppendNew(Dedup(s), x)
  {
    assert (s + [x])[..|s|] == s;
  }

  /** The deduplicated list holds each element of `s` exactly once, and nothing else. */
  lemma {:induction false} DedupElements<T>(s: seq<T>)
    ensures NoDup(Dedup(s))
    ensures forall x :: x in Dedup(s) <==> x in s
    ensures forall k :: 0 <= k < |Dedup(s)| ==> Dedup(s)[k] in s
  {
    if s != [] {
      var p := s[..|s| - 1];
      DedupElements(p);
      assert s == p + [s[|s| - 1]];
    }
  }

  /** Removing repeats from a list without repeats changes nothing. */
  lemma {:induction false} DedupOfNoDup<T>(s: seq<T>)
    requires NoDup(s)
    ensures Dedup(s) == s
  {
    if s != [] {
      var p := s[..|s| - 1];
      DedupOfNoDup(p);
      assert s[|s| - 1] !in p;
      assert s == p + [s[|s| - 1]];
    }
  }

  /** `s.index(x)`: the position of the first occurrence of `x`. */
  function FirstIndex<T(==)>(s: seq<T>, x: T): (i: nat)
    requires x in s
    ensures i < |s| && s[i] == x && x !in s[..i]
  {
    if s[0] == x then 0 else 1 + FirstIndex(s[1..], x)
  }

  lemma {:induction false} FirstIndexInPrefix<T>(p: seq<T>, x: T, y: T)
    requires y in p
    ensures FirstIndex(p + [x], y) == FirstIndex(p, y)
  {
    if p[0] != y {
      assert (p + [x])[1..] == p[1..] + [x];
      FirstIndexInPrefix(p[1..], x, y);
    }
  }

  /** An element not seen before is found at the end. */
  lemma FirstIndexOfNew<T>(p: seq<T>, x: T)
    requires x !in p
    ensures FirstIndex(p + [x], x) == |p|
  {
    assert (p + [x])[..|p|] == p;
  }

  /** The deduplicated list keeps the elements in the order of their first occurrence in `s`. */
  lemma {:induction false} DedupFirstSeenOrder<T>(s: seq<T>, i: nat, j: nat)
    requires i < j < |Dedup(s)|
    ensures Dedup(s)[i] in s && Dedup(s)[j] in s
    ensures FirstIndex(s, Dedup(s)[i]) < FirstIndex(s, Dedup(s)[j])
  {
    var p, x := s[..|s| - 1], s[|s| - 1];
    assert s == p + [x];
    var d := Dedup(p);
    DedupElements(s);
    DedupElements(p);
    if x in d {
      assert Dedup(s) == d;
      FirstIndexInPrefix(p, x, d[i]);
      FirstIndexInPrefix(p, x, d[j]);
      DedupFirstSeenOrder(p, i, j);
    } else {
      assert Dedup(s) == d + [x];
      FirstIndexInPrefix(p, x, d[i]);
      if j < |d| {
        FirstIndexInPrefix(p, x, d[j]);
        DedupFirstSeenOrder(p, i, j);
      } else {
        assert x !in p;
        assert s[..|p|] == p;
      }
    }
  }

  /** Python's `range(0, n, 3)` has this many elements: `ceil(n / 3)`. */
  function ChunkCount(n: nat): (c: nat)
    ensures 3 * c >= n && (c > 0 ==> 3 * (c - 1) < n)
  {
    (n + 2) / 3
  }

  function Min(a: int, b: int): int {
    if a < b then a else b
  }

  /** The group of positions `3k .. min(3k+3, |s|) - 1`. */
  function Chunk<T>(s: seq<T>, k: nat): (c: seq<T>)
    requires k < ChunkCount(|s|)
    ensures 1 <= |c| <= 3 && (k + 1 < ChunkCount(|s|) ==> |c| == 3)
    ensures 3 * k + |c| <= |s|
    ensures forall i :: 0 <= i < |c| ==> c[i] == s[3 * k + i]
  {
    s[3 * k .. Min(3 * k + 3, |s|)]
  }

  function Concat<T>(ss: seq<seq<T>>): seq<T> {
    if ss == [] then [] else Concat(ss[..|ss| - 1]) + ss[|ss| - 1]
  }

  /** All the groups of three, in order. */
  function Chunks<T>(s: seq<T>): (r: seq<seq<T>>)
    ensures |r| == ChunkCount(|s|)
    ensures forall k :: 0 <= k < |r| ==> r[k] == Chunk(s, k)
  {
    seq(ChunkCount(|s|), k requires 0 <= k < ChunkCount(|s|) => Chunk(s, k))
  }

  /** The first `n + 1` groups are the first `n` followed by group `n`. */
  lemma ChunkStep<T>(s: seq<T>, chunks: seq<seq<T>>, n: nat)
    requires chunks == Chunks(s) && n < |chunks|
    ensures Concat(chunks[..n + 1]) == Concat(chunks[..n]) + Chunk(s, n)
    ensures 3 * n <= |s| && s[..Min(3 * n + 3, |s|)] == s[..3 * n] + Chunk(s, n)
  {
    assert chunks[..n + 1][..n] == chunks[..n];
  }

  /** The groups, one after another, give back the whole list. */
  lemma {:induction false} ChunksCover<T>(s: seq<T>)
    ensures Concat(Chunks(s)) == s
  {
    var c := ChunkCount(|s|);
    var chunks := Chunks(s);
    var n := 0;
    while n < c
      invariant 0 <= n <= c
      invariant Concat(chunks[..n]) == s[..Min(3 * n, |s|)]
    {
      ChunkStep(s, chunks, n);
      n := n + 1;
    }
    assert chunks[..c] == chunks;
    assert s[..Min(3 * c, |s|)] == s;
  }

  /** `[j for j in newList if j not in prev]`. */
  function Difference<T(==)>(newList: seq<T>, prev: seq<T>): (r: seq<T>)
    ensures |r| <= |newList|
    ensures forall i :: 0 <= i < |r| ==> r[i] in newList && r[i] !in prev
    ensures forall i :: 0 <= i < |newList| && newList[i] !in prev ==> newList[i] in r
  {
    if newList == [] then []
    else (if newList[0] in prev then [] else [newList[0]]) + Difference(newList[1..], prev)
  }

  /** The difference keeps the order of `newList`: it distributes over concatenation. */
  lemma {:induction false} DifferenceAppend<T>(a: seq<T>, b: seq<T>, prev: seq<T>)
    ensures Difference(a + b, prev) == Difference(a, prev) + Difference(b, prev)
  {
    if a == [] {
      assert a + b == b;
    } else {
      assert (a + b)[0] == a[0];
      assert (a + b)[1..] == a[1..] + b;
      DifferenceAppend(a[1..], b, prev);
    }
  }

  /** What was appended to a list, and was not in it before, is exactly its difference with the old list. */
  lemma {:induction false} DifferenceOfExtension<T>(prev: seq<T>, added: seq<T>)
    requires forall x :: x in added ==> x !in prev
    ensures Difference(prev + added, prev) == added
  {
    DifferenceAppend(prev, added, prev);
    DifferenceOfSelf(prev, prev);
    DifferenceOfFresh(added, prev);
  }

  lemma {:induction false} DifferenceOfSelf<T>(a: seq<T>, prev: seq<T>)
    requires forall x :: x in a ==> x in prev
    ensures Difference(a, prev) == []
  {
    if a != [] {
      DifferenceOfSelf(a[1..], prev);
    }
  }

  lemma {:induction false} DifferenceOfFresh<T>(a: seq<T>, prev: seq<T>)
    requires forall x :: x in a ==> x !in prev
    ensures Difference(a, prev) == a
  {
    if a != [] {
      DifferenceOfFresh(a[1..], prev);
      assert a == [a[0]] + a[1..];
    }
  }

  /** Two sets with the same members are equal. */
  lemma SameSet<T>(a: set<T>, b: set<T>)
    requires forall x :: x in a <==> x in b
    ensures a == b
  {
    forall x | x in a ensures x in b {}
    forall x | x in b ensures x in a {}
    assert a <= b && b <= a;
  }

  /** Two maps with the same keys and the same value at each key are equal. */
  lemma SameMap<K, V>(a: map<K, V>, b: map<K, V>)
    requires forall k :: k in a <==> k in b
    requires forall k :: k in a ==> a[k] == b[k]
    ensures a == b
  {
    SameSet(a.Keys, b.Keys);
    forall k | k in a ensures a[k] == b[k] {}
  }

  /** A slice grown by one is the old slice followed by the next element. */
  lemma SliceSnoc<T>(s: seq<T>, i: nat, j: nat)
    requires i <= j < |s|
    ensures s[i..j + 1] == s[i..j] + [s[j]]
  {
    assert s[i..j + 1][..j - i] == s[i..j];
  }

  /** A set that is not all of `all` leaves some member of `all` out. */
  lemma SomeLeft<T>(all: set<T>, seen: set<T>)
    requires seen <= all && seen != all
    ensures exists x :: x in all && x !in seen
  {
    if forall x :: x in all ==> x in seen {
      SameSet(seen, all);
      assert false;
    }
  }
}
