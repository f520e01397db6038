/**
 * Values shared by every part of the game model: optional slots, points on
 * the screen, opaque sprite handles, and the two sources of randomness the
 * game uses, reduced to seeds.
 */
module Common {

  /** A slot that holds a value or nothing (Python's `None`). */
  datatype Option<T> = None | Some(value: T)

  /** A screen position. Shots and cluster origins are points. */
  datatype Point = Point(x: real, y: real)

  /** An opaque handle on a drawable turtle, named by its registered shape. */
  datatype Sprite = Sprite(shape: string)

  /** The closed interval test `lo <= v <= hi` used by every hit check. */
  predicate Within(lo: real, v: real, hi: real)
  {
    lo <= v <= hi
  }

  /** `r` is `s` with some elements left out, the rest in their order. */
  predicate IsSubsequence<T(==)>(r: seq<T>, s: seq<T>)
    decreases |s|
  {
    if r == [] then true
    else if s == [] then false
    else if r[0] == s[0] then IsSubsequence(r[1..], s[1..])
    else IsSubsequence(r, s[1..])
  }

  /** Removing the element at index k. */
  function RemoveAt<T>(s: seq<T>, k: nat): (r: seq<T>)
    requires k < |s|
    ensures |r| == |s| - 1
    ensures forall n :: 0 <= n < k ==> r[n] == s[n]
    ensures forall n :: k <= n < |r| ==> r[n] == s[n + 1]
  {
    s[..k] + s[k + 1..]
  }

  lemma {:induction false} SubsequenceRefl<T>(s: seq<T>)
    ensures IsSubsequence(s, s)
    decreases |s|
  {
    if s != [] {
      SubsequenceRefl(s[1..]);
    }
  }

  lemma {:induction false} SubsequenceDropFirst<T>(r: seq<T>, s: seq<T>)
    requires r != [] && IsSubsequence(r, s)
    ensures IsSubsequence(r[1..], s)
    decreases |s|, 1
  {
    if r[0] == s[0] {
      SubsequenceOfTail(r[1..], s);
    } else {
      SubsequenceDropFirst(r, s[1..]);
      SubsequenceOfTail(r[1..], s);
    }
  }

  /** A subsequence of the tail is a subsequence of the whole. */
  lemma {:induction false} SubsequenceOfTail<T>(r: seq<T>, s: seq<T>)
    requires s != [] && IsSubsequence(r, s[1..])
    ensures IsSubsequence(r, s)
    decreases |s|, 0
  {
    if r != [] && r[0] == s[0] {
      SubsequenceDropFirst(r, s[1..]);
    }
  }

  lemma {:induction false} SubsequenceTrans<T>(a: seq<T>, b: seq<T>, c: seq<T>)
    requires IsSubsequence(a, b) && IsSubsequence(b, c)
    ensures IsSubsequence(a, c)
    decreases |c|
  {
    if a != [] && b != [] && c != [] {
      if b[0] == c[0] {
        if a[0] == b[0] {
          SubsequenceTrans(a[1..], b[1..], c[1..]);
        } else {
          SubsequenceTrans(a, b[1..], c[1..]);
          SubsequenceOfTail(a, c);
        }
      } else {
        SubsequenceTrans(a, b, c[1..]);
        SubsequenceOfTail(a, c);
      }
    }
  }

  /** Removing one element leaves a subsequence. */
  lemma {:induction false} RemoveAtIsSubsequence<T>(s: seq<T>, k: nat)
    requires k < |s|
    ensures IsSubsequence(RemoveAt(s, k), s)
    decreases k
  {
    if k == 0 {
      assert RemoveAt(s, 0) == s[1..];
      SubsequenceRefl(s[1..]);
      SubsequenceOfTail(s[1..], s);
    } else {
      RemoveAtIsSubsequence(s[1..], k - 1);
      assert RemoveAt(s, k) == [s[0]] + RemoveAt(s[1..], k - 1);
      assert RemoveAt(s, k)[1..] == RemoveAt(s[1..], k - 1);
    }
  }

  /** The number of values in `range(n)`. */
  function Count(n: int): nat
  {
    if n > 0 then n else 0
  }

  /** Removing the element at k takes exactly one copy of it out of the multiset. */
  lemma RemoveAtMultiset<T>(s: seq<T>, k: nat)
    requires k < |s|
    ensures multiset(RemoveAt(s, k)) == multiset(s) - multiset{s[k]}
  {
    assert s == s[..k] + [s[k]] + s[k + 1..];
  }

  /**
   * Python's `random.randint(a, b)`, which fails when `a > b`: the seed stands
   * for the random generator, and every seed yields a value in `[a, b]`.
   */
  function RandInt(a: int, b: int, seed: nat): (r: int)
    requires a <= b
    ensures a <= r <= b
  {
    a + seed % (b - a + 1)
  }

  /** Reducing an index that is already in range leaves it unchanged. */
  lemma ModSmall(k: int, n: int)
    requires 0 <= k < n
    ensures k % n == k
  {
  }

  /** Every value `randint` can return is produced by some seed. */
  lemma RandIntReaches(a: int, b: int, v: int)
    requires a <= v <= b
    ensures RandInt(a, b, v - a) == v
  {
  }
}
