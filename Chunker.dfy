/** The chunker: `divideArrIntoPieces` splits an ordered sequence into
    consecutive, non-overlapping windows of a fixed width; only the last
    window may be shorter. The page applies it with width 60 to the
    inertial samples and to the environment samples. */
module Chunker {
  import opened Wrappers

  /** The width the page passes for both sensor streams. */
  const ChunkWidth: nat := 60

  datatype ChunkError = InvalidArgument

  function Min(a: int, b: int): int { if a <= b then a else b }

  lemma MulSucc(k: int, n: int)
    ensures (k + 1) * n == k * n + n
  {
  }

  lemma MulMono(a: int, b: int, n: nat)
    requires a <= b
    ensures a * n <= b * n
  {
  }

  /** Cancelling a positive factor on both sides of a comparison. */
  lemma MulCancel(a: int, b: int, n: nat)
    requires n > 0
    ensures a * n <= b * n ==> a <= b
    ensures a * n < b * n ==> a < b
  {
    if b < a { MulMono(b + 1, a, n); MulSucc(b, n); }
    if b <= a { MulMono(b, a, n); }
  }

  /** `Math.ceil(a / n)` for a non-negative length and a positive width. */
  function CeilDiv(a: nat, n: nat): (c: nat)
    requires n > 0
    ensures a <= c * n < a + n
  {
    var c := (a + n - 1) / n;
    assert a + n - 1 == c * n + (a + n - 1) % n;
    c
  }

  /** `Array.prototype.slice(start, end)` for non-negative bounds: both
      bounds are clamped to the length, and an end before the start gives
      the empty sequence. */
  function Slice<T>(arr: seq<T>, start: nat, end: nat): (r: seq<T>)
    ensures start <= end <= |arr| ==> r == arr[start..end]
    ensures start <= |arr| <= end ==> r == arr[start..]
    ensures |arr| <= start ==> r == []
    ensures end <= start ==> r == []
  {
    var s := Min(start, |arr|);
    var e := Min(end, |arr|);
    if s <= e then arr[s..e] else []
  }

  /** `divideArrIntoPieces(arr, n)`: `Math.ceil(|arr| / n)` pieces, the
      piece at `index` being `arr.slice(index * n, (index + 1) * n)`. */
  function DivideArrIntoPieces<T>(arr: seq<T>, n: nat): (pieces: seq<seq<T>>)
    requires n > 0
    ensures |arr| <= |pieces| * n < |arr| + n
  {
    seq(CeilDiv(|arr|, n), index requires 0 <= index => Slice(arr, index * n, (index + 1) * n))
  }

  /** The width check the page leaves implicit: a non-positive width is
      reported as `InvalidArgument` instead of being split. */
  function Chunk<T>(arr: seq<T>, n: int): (r: Result<seq<seq<T>>, ChunkError>)
    ensures r.Failure? <==> n <= 0
    ensures r.Success? ==> r.value == DivideArrIntoPieces(arr, n)
    ensures r.Success? ==> Flatten(r.value) == arr
  {
    if n <= 0 then Failure(InvalidArgument)
    else
      FlattenPieces(arr, n);
      Success(DivideArrIntoPieces(arr, n))
  }

  /** Concatenation of all pieces, in order. */
  function Flatten<T>(pieces: seq<seq<T>>): (r: seq<T>)
  {
    if pieces == [] then [] else Flatten(pieces[..|pieces| - 1]) + pieces[|pieces| - 1]
  }

  /** Piece `k` is the slice `arr[k * n .. min((k + 1) * n, |arr|)]`, and
      it starts inside `arr`. */
  lemma PieceAt<T>(arr: seq<T>, n: nat, k: nat)
    requires n > 0
    requires k < |DivideArrIntoPieces(arr, n)|
    ensures k * n < Min((k + 1) * n, |arr|) <= |arr|
    ensures DivideArrIntoPieces(arr, n)[k] == arr[k * n .. Min((k + 1) * n, |arr|)]
  {
    var c := |DivideArrIntoPieces(arr, n)|;
    MulMono(k + 1, c, n);
    MulSucc(k, n);
  }

  /** Every piece but the last holds exactly `n` elements. */
  lemma InnerPieceLength<T>(arr: seq<T>, n: nat, k: nat)
    requires n > 0
    requires k + 1 < |DivideArrIntoPieces(arr, n)|
    ensures |DivideArrIntoPieces(arr, n)[k]| == n
  {
    var c := |DivideArrIntoPieces(arr, n)|;
    PieceAt(arr, n, k);
    MulMono(k + 1, c - 1, n);
    MulSucc(c - 1, n);
  }

  /** `ceil(a / n)` is the quotient, plus one when there is a remainder. */
  lemma CeilDivByQuotient(a: nat, n: nat)
    requires n > 0
    ensures a == (a / n) * n + a % n
    ensures CeilDiv(a, n) == if a % n == 0 then a / n else a / n + 1
  {
    var c, q, r := CeilDiv(a, n), a / n, a % n;
    MulSucc(q, n);
    MulSucc(q + 1, n);
    MulCancel(c, q + 1, n);
    MulCancel(q, c, n);
    if r != 0 {
      MulCancel(c, q + 2, n);
    }
  }

  /** What is left after `ceil(a / n) - 1` full widths: the remainder when
      there is one, a full width otherwise. */
  lemma LastWidth(a: nat, n: nat)
    requires n > 0 && a > 0
    ensures a - (CeilDiv(a, n) - 1) * n == if a % n == 0 then n else a % n
  {
    var c := CeilDiv(a, n);
    CeilDivByQuotient(a, n);
    MulSucc(c - 1, n);
  }

  /** The last piece holds the remainder of `|arr| / n` when there is one,
      and `n` elements otherwise. */
  lemma LastPieceLength<T>(arr: seq<T>, n: nat)
    requires n > 0
    requires |DivideArrIntoPieces(arr, n)| > 0
    ensures var pieces := DivideArrIntoPieces(arr, n);
      |pieces[|pieces| - 1]| == (if |arr| % n == 0 then n else |arr| % n)
  {
    var c := |DivideArrIntoPieces(arr, n)|;
    PieceAt(arr, n, c - 1);
    MulSucc(c - 1, n);
    LastWidth(|arr|, n);
  }

  /** The number of pieces is `ceil(|arr| / n)`; none but the last is
      shorter than `n`, and the last holds between 1 and `n` elements. No
      input gives no pieces. */
  lemma PieceLengths<T>(arr: seq<T>, n: nat)
    requires n > 0
    ensures var pieces := DivideArrIntoPieces(arr, n);
      && |pieces| == CeilDiv(|arr|, n)
      && (|pieces| == 0 <==> |arr| == 0)
      && (forall k :: 0 <= k < |pieces| - 1 ==> |pieces[k]| == n)
      && (|pieces| > 0 ==> 1 <= |pieces[|pieces| - 1]| <= n)
  {
    var pieces := DivideArrIntoPieces(arr, n);
    forall k | 0 <= k < |pieces| - 1
      ensures |pieces[k]| == n
    {
      InnerPieceLength(arr, n, k);
    }
    if |pieces| > 0 {
      LastPieceLength(arr, n);
    }
  }

  /** Every piece is non-empty, so the averager never sees an empty chunk
      coming from the chunker. */
  lemma PiecesNonEmpty<T>(arr: seq<T>, n: nat)
    requires n > 0
    ensures forall k :: 0 <= k < |DivideArrIntoPieces(arr, n)| ==> |DivideArrIntoPieces(arr, n)[k]| > 0
  {
    forall k | 0 <= k < |DivideArrIntoPieces(arr, n)|
      ensures |DivideArrIntoPieces(arr, n)[k]| > 0
    {
      PieceAt(arr, n, k);
    }
  }

  /** The first `k` pieces, concatenated, are the first `min(k * n, |arr|)`
      elements. */
  lemma {:induction false} FlattenPrefix<T>(arr: seq<T>, n: nat, k: nat)
    requires n > 0
    requires k <= |DivideArrIntoPieces(arr, n)|
    ensures Flatten(DivideArrIntoPieces(arr, n)[..k]) == arr[..Min(k * n, |arr|)]
  {
    var pieces := DivideArrIntoPieces(arr, n);
    if k == 0 {
      assert pieces[..0] == [];
    } else {
      FlattenPrefix(arr, n, k - 1);
      PieceAt(arr, n, k - 1);
      assert pieces[..k][..k - 1] == pieces[..k - 1];
      assert (k - 1) * n + n == k * n;
      assert Min((k - 1) * n, |arr|) == (k - 1) * n;
      assert arr[..(k - 1) * n] + arr[(k - 1) * n .. Min(k * n, |arr|)] == arr[..Min(k * n, |arr|)];
    }
  }

  /** Concatenating the pieces gives back the input, in order. */
  lemma FlattenPieces<T>(arr: seq<T>, n: nat)
    requires n > 0
    ensures Flatten(DivideArrIntoPieces(arr, n)) == arr
  {
    var pieces := DivideArrIntoPieces(arr, n);
    FlattenPrefix(arr, n, |pieces|);
    assert pieces[..|pieces|] == pieces;
    assert Min(|pieces| * n, |arr|) == |arr|;
  }

  /** The worked example of the doc comment: eight elements, width 3. */
  lemma DocExample()
    ensures DivideArrIntoPieces([0, 1, 2, 3, 4, 5, 6, 7], 3) == [[0, 1, 2], [3, 4, 5], [6, 7]]
  {
    var arr := [0, 1, 2, 3, 4, 5, 6, 7];
    var pieces := DivideArrIntoPieces(arr, 3);
    assert CeilDiv(8, 3) == 3;
    assert |pieces| == 3;
    assert pieces[0] == arr[0..3] == [0, 1, 2];
    assert pieces[1] == arr[3..6] == [3, 4, 5];
    assert pieces[2] == arr[6..8] == [6, 7];
  }
}
