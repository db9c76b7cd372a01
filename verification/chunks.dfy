/**
 * Splitting a sequence into consecutive pieces of a fixed size
 * (`array_chunk`, Eloquent's `chunk`) and putting the pieces back together.
 */
module Chunks {

  /** The pieces, concatenated in order. */
  function Flatten<T>(xss: seq<seq<T>>): seq<T>
    decreases |xss|
  {
    if |xss| == 0 then [] else xss[0] + Flatten(xss[1..])
  }

  lemma {:induction false} FlattenConcat<T>(a: seq<seq<T>>, b: seq<seq<T>>)
    ensures Flatten(a + b) == Flatten(a) + Flatten(b)
    decreases |a|
  {
    if |a| == 0 {
      assert a + b == b;
    } else {
      assert (a + b)[1..] == a[1..] + b;
      FlattenConcat(a[1..], b);
    }
  }

  /**
   * `array_chunk($xs, $n)`: consecutive pieces of exactly `n` elements, the
   * last one possibly shorter, none empty; no pieces for an empty input.
   */
  function Chunk<T>(xs: seq<T>, n: nat): seq<seq<T>>
    requires n >= 1
    decreases |xs|
  {
    if |xs| == 0 then []
    else if |xs| <= n then [xs]
    else [xs[..n]] + Chunk(xs[n..], n)
  }

  /**
   * The pieces concatenate back to the input; none is empty, none holds
   * more than `n`, and all but the last hold exactly `n`.
   */
  lemma {:induction false} ChunkShape<T>(xs: seq<T>, n: nat)
    requires n >= 1
    ensures Flatten(Chunk(xs, n)) == xs
    ensures forall i :: 0 <= i < |Chunk(xs, n)| ==> 1 <= |Chunk(xs, n)[i]| <= n
    ensures forall i :: 0 <= i < |Chunk(xs, n)| - 1 ==> |Chunk(xs, n)[i]| == n
    decreases |xs|
  {
    var r := Chunk(xs, n);
    if |xs| == 0 {
    } else if |xs| <= n {
      assert Flatten([xs]) == xs + Flatten([xs][1..]);
    } else {
      var rest := Chunk(xs[n..], n);
      ChunkShape(xs[n..], n);
      assert r == [xs[..n]] + rest;
      assert r[1..] == rest;
      assert xs == xs[..n] + xs[n..];
      forall i | 0 <= i < |r|
        ensures 1 <= |r[i]| <= n && (i < |r| - 1 ==> |r[i]| == n)
      {
        if i > 0 {
          assert r[i] == rest[i - 1];
        }
      }
    }
  }

  /**
   * The number of pieces is the input length divided by `n`, rounded up:
   * `m` pieces hold at most `m * n` elements and more than `(m - 1) * n`.
   */
  lemma {:induction false} ChunkCount<T>(xs: seq<T>, n: nat)
    requires n >= 1
    ensures |xs| <= |Chunk(xs, n)| * n
    ensures |Chunk(xs, n)| == 0 || (|Chunk(xs, n)| - 1) * n < |xs|
    ensures |xs| == 0 <==> |Chunk(xs, n)| == 0
    decreases |xs|
  {
    if |xs| > n {
      var m := |Chunk(xs[n..], n)|;
      ChunkCount(xs[n..], n);
      MulSucc(m, n);
      assert |Chunk(xs, n)| == m + 1;
      if m > 0 {
        MulSucc(m - 1, n);
      }
    }
  }

  lemma MulSucc(i: nat, n: nat)
    ensures (i + 1) * n == i * n + n
  {
  }

  /** Where piece `i` starts: `i` whole pieces of `n` elements. */
  function Offset(i: nat, n: nat): nat {
    if i == 0 then 0 else Offset(i - 1, n) + n
  }

  lemma {:induction false} OffsetIsProduct(i: nat, n: nat)
    ensures Offset(i, n) == i * n
  {
    if i > 0 {
      OffsetIsProduct(i - 1, n);
      MulSucc(i - 1, n);
    }
  }

  function Min(a: nat, b: nat): nat {
    if a <= b then a else b
  }

  lemma ChunkUnfold<T>(xs: seq<T>, n: nat)
    requires n >= 1
    ensures 0 < |xs| <= n ==> Chunk(xs, n) == [xs]
    ensures |xs| > n ==> Chunk(xs, n) == [xs[..n]] + Chunk(xs[n..], n)
  {
  }

  lemma ChunkAtFirst<T>(xs: seq<T>, n: nat)
    requires n >= 1 && 0 < |Chunk(xs, n)|
    ensures 0 < |xs|
    ensures Chunk(xs, n)[0] == xs[0 .. Min(n, |xs|)]
  {
    ChunkUnfold(xs, n);
  }

  lemma ChunkTailLength<T>(xs: seq<T>, n: nat, i: nat)
    requires n >= 1 && 0 < i < |Chunk(xs, n)|
    ensures |xs| > n && i - 1 < |Chunk(xs[n..], n)|
  {
    ChunkUnfold(xs, n);
  }

  lemma ChunkAtStep<T>(xs: seq<T>, rest: seq<T>, n: nat, i: nat, lo: nat, hi: nat)
    requires n >= 1 && |xs| > n && rest == xs[n..]
    requires 0 < i < |Chunk(xs, n)|
    requires lo == Offset(i - 1, n) && lo < |rest| && hi == Min(lo + n, |rest|)
    requires Chunk(rest, n)[i - 1] == rest[lo..hi]
    ensures Offset(i, n) < |xs|
    ensures Chunk(xs, n)[i] == xs[Offset(i, n) .. Min(Offset(i, n) + n, |xs|)]
  {
    ChunkUnfold(xs, n);
    SliceShift(xs, n, lo, hi);
    assert Offset(i, n) == n + lo;
    assert Min(Offset(i, n) + n, |xs|) == n + hi;
  }

  lemma {:induction false} ChunkAtOffset<T>(xs: seq<T>, n: nat, i: nat)
    requires n >= 1 && i < |Chunk(xs, n)|
    ensures Offset(i, n) < |xs|
    ensures Chunk(xs, n)[i] == xs[Offset(i, n) .. Min(Offset(i, n) + n, |xs|)]
    decreases |xs|
  {
    if i == 0 {
      ChunkAtFirst(xs, n);
    } else {
      ChunkTailLength(xs, n, i);
      var rest := xs[n..];
      ChunkAtOffset(rest, n, i - 1);
      var lo := Offset(i - 1, n);
      var hi := Min(lo + n, |rest|);
      ChunkAtStep(xs, rest, n, i, lo, hi);
    }
  }

  /** Piece `i` holds the elements at positions `i * n` up to, not including, `(i + 1) * n`. */
  lemma ChunkAt<T>(xs: seq<T>, n: nat, i: nat)
    requires n >= 1 && i < |Chunk(xs, n)|
    ensures i * n < |xs|
    ensures Chunk(xs, n)[i] == xs[i * n .. if (i + 1) * n <= |xs| then (i + 1) * n else |xs|]
  {
    ChunkAtOffset(xs, n, i);
    OffsetIsProduct(i, n);
    MulSucc(i, n);
  }

  lemma SliceShift<T>(xs: seq<T>, n: nat, lo: nat, hi: nat)
    requires n <= |xs| && lo <= hi <= |xs| - n
    ensures xs[n..][lo..hi] == xs[n + lo .. n + hi]
  {
  }
}
