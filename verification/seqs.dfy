/** Python list operations used by the application: `list.index`,
    `list.remove` and the subsequence relation that describes what survives
    a series of removals. */
module Seqs {

  /** `xs.index(x)`: the position of the first occurrence of `x`. */
  function IndexOf<T(==)>(xs: seq<T>, x: T): (i: nat)
    requires x in xs
    ensures i < |xs| && xs[i] == x
    ensures x !in xs[..i]
  {
    if xs[0] == x then 0
    else
      assert x in xs[1..] by { var k :| 0 <= k < |xs| && xs[k] == x; assert xs[1..][k - 1] == x; }
      var j := IndexOf(xs[1..], x);
      assert xs[..j + 1] == [xs[0]] + xs[1..][..j];
      1 + j
  }

  /** `xs.remove(x)` when `x in xs` (the only way the application calls it);
      an absent `x` leaves the list as it is. */
  function RemoveFirst<T(==)>(xs: seq<T>, x: T): (r: seq<T>)
    ensures x in xs ==> |r| == |xs| - 1 && multiset(r) == multiset(xs) - multiset{x}
    ensures x in xs ==> exists i :: 0 <= i < |xs| && xs[i] == x && x !in xs[..i] && r == xs[..i] + xs[i + 1..]
    ensures x !in xs ==> r == xs
  {
    if x in xs then
      var i := IndexOf(xs, x);
      assert xs == xs[..i] + [xs[i]] + xs[i + 1..];
      xs[..i] + xs[i + 1..]
    else xs
  }

  /** `zip(xs, ys)`: pairs up to the end of the shorter list. */
  function Zip<A, B>(xs: seq<A>, ys: seq<B>): (r: seq<(A, B)>)
    ensures |r| == (if |xs| < |ys| then |xs| else |ys|)
    ensures forall k :: 0 <= k < |r| ==> r[k] == (xs[k], ys[k])
  {
    if xs == [] || ys == [] then []
    else [(xs[0], ys[0])] + Zip(xs[1..], ys[1..])
  }

  /** `enumerate(xs, start)`: each element with its position, counted from `start`. */
  function Enumerate<T>(xs: seq<T>, start: nat): (r: seq<(nat, T)>)
    ensures |r| == |xs|
    ensures forall k :: 0 <= k < |r| ==> r[k] == (start + k, xs[k])
  {
    if xs == [] then [] else [(start, xs[0])] + Enumerate(xs[1..], start + 1)
  }

  /** `a` can be obtained from `b` by deleting elements, keeping the order of the rest. */
  predicate IsSubsequence<T(==)>(a: seq<T>, b: seq<T>)
    decreases |b|
  {
    if a == [] then true
    else if b == [] then false
    else (a[0] == b[0] && IsSubsequence(a[1..], b[1..])) || IsSubsequence(a, b[1..])
  }

  lemma {:induction false} SubsequenceRefl<T>(xs: seq<T>)
    ensures IsSubsequence(xs, xs)
    decreases |xs|
  {
    if xs != [] {
      SubsequenceRefl(xs[1..]);
    }
  }

  lemma {:induction false} SubsequenceTrans<T>(a: seq<T>, b: seq<T>, c: seq<T>)
    requires IsSubsequence(a, b) && IsSubsequence(b, c)
    ensures IsSubsequence(a, c)
    decreases |c|
  {
    if a != [] {
      if IsSubsequence(b, c[1..]) {
        SubsequenceTrans(a, b, c[1..]);
      } else if a[0] == b[0] && IsSubsequence(a[1..], b[1..]) {
        SubsequenceTrans(a[1..], b[1..], c[1..]);
      } else {
        SubsequenceTrans(a, b[1..], c[1..]);
      }
    }
  }

  /** Whatever is a subsequence holds no more of any element than the whole. */
  lemma {:induction false} SubsequenceMultiset<T>(a: seq<T>, b: seq<T>)
    requires IsSubsequence(a, b)
    ensures multiset(a) <= multiset(b)
    decreases |b|
  {
    if a != [] {
      assert b == [b[0]] + b[1..];
      if a[0] == b[0] && IsSubsequence(a[1..], b[1..]) {
        SubsequenceMultiset(a[1..], b[1..]);
        assert a == [a[0]] + a[1..];
      } else {
        SubsequenceMultiset(a, b[1..]);
      }
    }
  }

  /** A non-empty sequence is its first element followed by the rest. */
  lemma HeadTail<T>(xs: seq<T>)
    requires xs != []
    ensures xs == [xs[0]] + xs[1..]
  {
  }

  /** The first occurrence is unique: a position holding `x` with no `x`
      before it is the one `IndexOf` finds. */
  lemma IndexOfUnique<T>(xs: seq<T>, x: T, i: nat)
    requires i < |xs| && xs[i] == x && x !in xs[..i]
    ensures IndexOf(xs, x) == i
  {
  }

  /** Removing `x` from a list whose head is not `x` keeps the head. */
  lemma RemoveFirstCons<T>(xs: seq<T>, x: T)
    requires xs != [] && xs[0] != x
    ensures RemoveFirst(xs, x) == [xs[0]] + RemoveFirst(xs[1..], x)
  {
    var ys := xs[1..];
    assert xs == [xs[0]] + ys;
    if x in xs {
      var i := IndexOf(xs, x);
      var j := i - 1;
      assert ys[j] == x;
      assert xs[..i] == [xs[0]] + ys[..j];
      IndexOfUnique(ys, x, j);
      assert RemoveFirst(ys, x) == ys[..j] + ys[j + 1..];
      assert xs[i + 1..] == ys[j + 1..];
    } else {
      assert x !in ys;
    }
  }

  /** Deleting one element keeps the rest in order. */
  lemma {:induction false} RemoveFirstIsSubsequence<T>(xs: seq<T>, x: T)
    ensures IsSubsequence(RemoveFirst(xs, x), xs)
    decreases |xs|
  {
    if x !in xs {
      SubsequenceRefl(xs);
    } else if xs[0] == x {
      assert RemoveFirst(xs, x) == xs[1..];
      SubsequenceRefl(xs[1..]);
      assert IsSubsequence(xs[1..], xs[1..]);
      if xs[1..] != [] {
        SubsequenceSkip(xs[1..], xs);
      }
    } else {
      RemoveFirstCons(xs, x);
      var rest := RemoveFirst(xs[1..], x);
      RemoveFirstIsSubsequence(xs[1..], x);
      var a := [xs[0]] + rest;
      assert a[0] == xs[0] && a[1..] == rest;
    }
  }

  /** Dropping the head of the bigger list keeps a subsequence. */
  lemma SubsequenceSkip<T>(a: seq<T>, b: seq<T>)
    requires b != [] && IsSubsequence(a, b[1..])
    ensures IsSubsequence(a, b)
  {
  }
}
