/**
 Splitting an encoded packet into the pieces written to the UART receive
 characteristic. `Sliced` follows the generator of the host script: it yields
 data[0:n], data[n:2n], data[2n:3n], ... and stops at the first empty slice.
 */
module Chunking {

  function Min(a: int, b: int): int {
    if a <= b then a else b
  }

  /** Concatenation of chunks, in order: the inverse of slicing. */
  function Flatten<T>(chunks: seq<seq<T>>): seq<T> {
    if chunks == [] then [] else chunks[0] + Flatten(chunks[1..])
  }

  lemma {:induction false} FlattenAppend<T>(a: seq<seq<T>>, b: seq<seq<T>>)
    ensures Flatten(a + b) == Flatten(a) + Flatten(b)
  {
    if a == [] {
      assert a + b == b;
    } else {
      assert (a + b)[1..] == a[1..] + b;
      FlattenAppend(a[1..], b);
    }
  }

  /** Python's data[i:j] for 0 <= i <= j: both bounds are clamped to the length. */
  function Slice<T>(data: seq<T>, i: nat, j: nat): (r: seq<T>)
    requires i <= j
    ensures |r| == if i < |data| then Min(j, |data|) - i else 0
    ensures forall k {:trigger r[k]} :: 0 <= k < |r| ==> r[k] == data[i + k]
  {
    data[Min(i, |data|)..Min(j, |data|)]
  }

  /** Every chunk is non-empty and at most n long; all but the last are exactly n long. */
  ghost predicate WellSized<T>(chunks: seq<seq<T>>, n: nat) {
    && (forall k :: 0 <= k < |chunks| ==> 0 < |chunks[k]| <= n)
    && (forall k :: 0 <= k < |chunks| - 1 ==> |chunks[k]| == n)
  }

  /** The slices the generator yields from offset i on, up to the first empty one. */
  function SlicedFrom<T>(data: seq<T>, n: nat, i: nat): (chunks: seq<seq<T>>)
    ensures WellSized(chunks, n)
    ensures i <= |data| && 0 < n ==> Flatten(chunks) == data[i..]
    ensures n == 0 || |data| <= i ==> chunks == []
    decreases |data| - i
  {
    var chunk := Slice(data, i, i + n);
    if |chunk| == 0 then []
    else
      var rest := SlicedFrom(data, n, i + n);
      assert i + n <= |data| ==> data[i..] == chunk + data[i + n..];
      [chunk] + rest
  }

  /**
   sliced(data, n) of the host script. The chunks are well sized and, for a
   positive chunk size, concatenate in order back to the data; a chunk size of
   0 yields no chunks at all.
   */
  function Sliced<T>(data: seq<T>, n: nat): (chunks: seq<seq<T>>)
    ensures WellSized(chunks, n)
    ensures 0 < n ==> Flatten(chunks) == data
    ensures n == 0 ==> chunks == []
  {
    assert data[0..] == data;
    SlicedFrom(data, n, 0)
  }

  /** A chunk size of 0 loses every non-empty packet: nothing of it is written. */
  lemma SlicedZeroIsEmpty<T>(data: seq<T>)
    requires data != []
    ensures Flatten(Sliced(data, 0)) != data
  {
  }

  /** c chunks of at most n elements, all but the last full, cover exactly m elements. */
  ghost predicate CoversExactly(m: nat, n: nat, c: nat) {
    m <= n * c && (c == 0 || n * (c - 1) < m)
  }

  lemma CoversStep(m: nat, n: nat, c: nat)
    requires 0 < n < m
    requires CoversExactly(m - n, n, c)
    ensures CoversExactly(m, n, c + 1)
  {
    assert n * (c + 1) == n * c + n;
  }

  lemma {:induction false} SlicedFromCount<T>(data: seq<T>, n: nat, i: nat)
    requires 0 < n && i <= |data|
    ensures CoversExactly(|data| - i, n, |SlicedFrom(data, n, i)|)
    decreases |data| - i
  {
    var m := |data| - i;
    if m == 0 {
    } else if m <= n {
      assert SlicedFrom(data, n, i + n) == [];
      assert |SlicedFrom(data, n, i)| == 1;
    } else {
      SlicedFromCount(data, n, i + n);
      var c := |SlicedFrom(data, n, i + n)|;
      assert |SlicedFrom(data, n, i)| == c + 1;
      assert |data| - (i + n) == m - n;
      CoversStep(m, n, c);
    }
  }

  /**
   The number of chunks is the least c with |data| <= n * c, that is
   ceil(|data| / n); empty data yields none.
   */
  lemma SlicedCount<T>(data: seq<T>, n: nat)
    requires 0 < n
    ensures CoversExactly(|data|, n, |Sliced(data, n)|)
    ensures data == [] <==> Sliced(data, n) == []
  {
    SlicedFromCount(data, n, 0);
    if data != [] {
      assert Sliced(data, n)[0] == Slice(data, 0, n);
    }
  }

  /** A chunking of d: well sized and concatenating back to d. */
  ghost predicate IsChunking<T>(chunks: seq<seq<T>>, d: seq<T>, n: nat) {
    WellSized(chunks, n) && Flatten(chunks) == d
  }

  lemma WellSizedTail<T>(chunks: seq<seq<T>>, n: nat)
    requires chunks != [] && WellSized(chunks, n)
    ensures WellSized(chunks[1..], n)
  {
    forall k | 0 <= k < |chunks[1..]|
      ensures 0 < |chunks[1..][k]| <= n
    {
      assert chunks[1..][k] == chunks[k + 1];
    }
    forall k | 0 <= k < |chunks[1..]| - 1
      ensures |chunks[1..][k]| == n
    {
      assert chunks[1..][k] == chunks[k + 1];
    }
  }

  lemma {:induction false} SlicedFromUnique<T>(data: seq<T>, n: nat, i: nat, chunks: seq<seq<T>>)
    requires 0 < n && i <= |data|
    requires IsChunking(chunks, data[i..], n)
    ensures chunks == SlicedFrom(data, n, i)
    decreases |chunks|
  {
    if chunks == [] {
      assert |data[i..]| == 0;
    } else {
      var c := chunks[0];
      assert data[i..] == c + Flatten(chunks[1..]);
      assert data[i..][..|c|] == c;
      assert data[i..i + |c|] == data[i..][..|c|];
      if |chunks| == 1 {
        assert Flatten(chunks[1..]) == [];
        assert data[i..] == c;
        assert Slice(data, i, i + n) == c;
        assert SlicedFrom(data, n, i + n) == [];
      } else {
        assert |c| == n;
        assert Slice(data, i, i + n) == c;
        assert data[i + n..] == Flatten(chunks[1..]);
        WellSizedTail(chunks, n);
        SlicedFromUnique(data, n, i + n, chunks[1..]);
      }
    }
  }

  /** sliced is the only chunking of data into well-sized pieces. */
  lemma SlicedIsTheOnlyChunking<T>(data: seq<T>, n: nat, chunks: seq<seq<T>>)
    requires 0 < n
    requires IsChunking(chunks, data, n)
    ensures chunks == Sliced(data, n)
  {
    assert data[0..] == data;
    SlicedFromUnique(data, n, 0, chunks);
  }

  /** A non-empty slice at offset i is the first chunk from i on, and the offset can still grow. */
  lemma SlicedFromStep<T>(data: seq<T>, n: nat, i: nat)
    requires |Slice(data, i, i + n)| != 0
    ensures 0 < n && i < |data|
    ensures SlicedFrom(data, n, i) == [Slice(data, i, i + n)] + SlicedFrom(data, n, i + n)
  {
  }

  /** An empty slice at offset i ends the chunks. */
  lemma SlicedFromStop<T>(data: seq<T>, n: nat, i: nat)
    requires |Slice(data, i, i + n)| == 0
    ensures SlicedFrom(data, n, i) == []
  {
  }

  /** One pass of the write loop keeps the written chunks a prefix of all the chunks. */
  lemma WriteStep<T>(data: seq<T>, n: nat, i: nat, writes: seq<seq<T>>, j: nat, next: seq<seq<T>>)
    requires |Slice(data, i, i + n)| != 0
    requires writes + SlicedFrom(data, n, i) == SlicedFrom(data, n, 0)
    requires j == i + n && next == writes + [Slice(data, i, i + n)]
    ensures 0 < n && i < |data|
    ensures next + SlicedFrom(data, n, j) == SlicedFrom(data, n, 0)
  {
    SlicedFromStep(data, n, i);
    AppendChunk(writes, Slice(data, i, i + n), SlicedFrom(data, n, i + n));
  }

  lemma AppendChunk<T>(done: seq<seq<T>>, chunk: seq<T>, rest: seq<seq<T>>)
    ensures done + ([chunk] + rest) == (done + [chunk]) + rest
  {
  }

  lemma AppendNothing<T>(chunks: seq<seq<T>>)
    ensures [] + chunks == chunks && chunks + [] == chunks
  {
  }

  /** The write loop of the host: one write per slice, in order. */
  method WriteSlices<T>(data: seq<T>, n: nat) returns (writes: seq<seq<T>>)
    ensures writes == Sliced(data, n)
  {
    writes := [];
    var i := 0;
    AppendNothing(SlicedFrom(data, n, 0));
    while |Slice(data, i, i + n)| != 0
      invariant writes + SlicedFrom(data, n, i) == SlicedFrom(data, n, 0)
      decreases |data| - i
    {
      ghost var before, at := writes, i;
      writes, i := writes + [Slice(data, i, i + n)], i + n;
      WriteStep(data, n, at, before, i, writes);
    }
    SlicedFromStop(data, n, i);
    AppendNothing(writes);
  }
}
