// examples/multiping.py: chunks(l, n), the slicing of the host list into
// groups that ping each other, written as its list comprehension over
// range(0, len(l), n).
module MultiPing {
  import opened Wrappers
  import opened Bits

  /** range(start, stop, step) for a positive step: values from start up to, not including, stop. */
  function Range(start: int, stop: int, step: nat): (r: seq<int>)
    requires step > 0
    ensures forall i :: 0 <= i < |r| ==> start <= r[i] < stop
    decreases stop - start
  {
    if start >= stop then [] else [start] + Range(start + step, stop, step)
  }

  /** Element i of the range is start + i * step, below stop; there are ceil((stop - start) / step) of them. */
  lemma {:induction false} RangeShape(start: int, stop: int, step: nat)
    requires step > 0
    ensures |Range(start, stop, step)| == if start >= stop then 0 else (stop - start + step - 1) / step
    ensures forall i :: 0 <= i < |Range(start, stop, step)| ==>
      Range(start, stop, step)[i] == start + i * step && Range(start, stop, step)[i] < stop
    decreases stop - start
  {
    if start < stop {
      var rest := Range(start + step, stop, step);
      RangeShape(start + step, stop, step);
      if start + step >= stop {
        DivModUnique(stop - start + step - 1, step, 1, stop - start - 1);
      } else {
        var m := stop - start - step + step - 1;
        DivModUnique(m + step, step, m / step + 1, m % step);
      }
      forall i | 0 < i < |Range(start, stop, step)|
        ensures Range(start, stop, step)[i] == start + i * step
      {
        assert Range(start, stop, step)[i] == rest[i - 1];
        assert (i - 1) * step + step == i * step;
      }
    }
  }

  function Min(a: int, b: int): int { if a <= b then a else b }

  /**
   * chunks(l, n) = [l[i:i + n] for i in range(0, len(l), n)]. A zero step is
   * the ValueError of range(); a negative one yields an empty range.
   */
  function Chunks<T>(l: seq<T>, n: int): Result<seq<seq<T>>, Exc>
  {
    if n == 0 then Err(ValueError)
    else if n < 0 then Ok([])
    else
      var starts := Range(0, |l|, n);
      Ok(seq(|starts|, k requires 0 <= k < |starts| => l[starts[k] .. Min(starts[k] + n, |l|)]))
  }

  /** The elements of the chunks, in order. */
  function Flatten<T>(c: seq<seq<T>>): seq<T> {
    if c == [] then [] else Flatten(c[..|c| - 1]) + c[|c| - 1]
  }

  /** Chunk k of a positive step is l[k * n : (k + 1) * n], cut short at the end of l. */
  lemma ChunkAt<T>(l: seq<T>, n: int, k: int)
    requires n > 0 && Chunks(l, n).Ok? && 0 <= k < |Chunks(l, n).value|
    ensures 0 <= k * n < |l|
    ensures Chunks(l, n).value[k] == l[k * n .. Min(k * n + n, |l|)]
  {
    RangeShape(0, |l|, n);
  }

  /** There are ceil(len(l) / n) chunks, none for an empty list. */
  lemma ChunksCount<T>(l: seq<T>, n: int)
    requires n > 0
    ensures Chunks(l, n).Ok?
    ensures |Chunks(l, n).value| == (|l| + n - 1) / n
    ensures l == [] ==> Chunks(l, n).value == []
  {
    RangeShape(0, |l|, n);
  }

  /** Every chunk but the last has length n; the last is non-empty and at most n long. */
  lemma ChunksLengths<T>(l: seq<T>, n: int)
    requires n > 0
    ensures var c := Chunks(l, n).value;
      (forall k :: 0 <= k < |c| - 1 ==> |c[k]| == n) &&
      (c != [] ==> 0 < |c[|c| - 1]| <= n)
  {
    var c := Chunks(l, n).value;
    ChunksCount(l, n);
    forall k | 0 <= k < |c| - 1
      ensures |c[k]| == n
    {
      ChunkFull(l, n, k);
    }
    if c != [] {
      ChunkAt(l, n, |c| - 1);
    }
  }

  lemma ChunkFull<T>(l: seq<T>, n: int, k: nat)
    requires n > 0 && k + 1 < |Chunks(l, n).value|
    ensures |Chunks(l, n).value[k]| == n
  {
    ChunkAt(l, n, k);
    ChunkAt(l, n, k + 1);
    MulStep(k, n);
  }

  lemma MulStep(k: int, n: int)
    ensures (k + 1) * n == k * n + n
  {
  }

  /** Concatenating the chunks gives back l. */
  lemma ChunksConcat<T>(l: seq<T>, n: int)
    requires n > 0
    ensures Flatten(Chunks(l, n).value) == l
  {
    var c := Chunks(l, n).value;
    ChunksCount(l, n);
    FlattenPrefix(l, n, |c|);
    if c != [] {
      ChunkAt(l, n, |c| - 1);
      CountCovers(|l|, n, |c|);
    }
    assert c[..|c|] == c;
  }

  /** The first k chunks concatenate to l up to k * n. */
  lemma {:induction false} FlattenPrefix<T>(l: seq<T>, n: int, k: nat)
    requires n > 0 && k <= |Chunks(l, n).value|
    ensures Flatten(Chunks(l, n).value[..k]) == l[..Min(k * n, |l|)]
  {
    var c := Chunks(l, n).value;
    if k == 0 {
      assert c[..0] == [];
    } else {
      FlattenPrefix(l, n, k - 1);
      ChunkAt(l, n, k - 1);
      FlattenLast(c, k);
      MulStep(k - 1, n);
      SliceJoin(l, (k - 1) * n, Min(k * n, |l|));
    }
  }

  lemma FlattenLast<T>(c: seq<seq<T>>, k: nat)
    requires 0 < k <= |c|
    ensures Flatten(c[..k]) == Flatten(c[..k - 1]) + c[k - 1]
  {
    assert c[..k][..k - 1] == c[..k - 1];
  }

  lemma SliceJoin<T>(l: seq<T>, a: nat, b: nat)
    requires a <= b <= |l|
    ensures l[..a] + l[a..b] == l[..b]
  {
  }

  /** ceil(len / n) steps of n reach the end. */
  lemma CountCovers(len: nat, n: nat, c: nat)
    requires n > 0 && c == (len + n - 1) / n
    ensures c * n >= len
  {
    var r := (len + n - 1) % n;
    assert len + n - 1 == c * n + r;
  }
}
