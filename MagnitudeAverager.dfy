/** The magnitude averager: `calculateMPU6886Average` turns chunks of
    MPU6886 inertial samples into one activity level per chunk and body
    zone, the mean over the chunk of the sum of the absolute values of the
    zone's six axes. */
module MagnitudeAverager {
  import opened Wrappers
  import opened Types
  import Chunker

  /** The three output series, one entry per chunk. */
  datatype Averages = Averages(head: seq<real>, left: seq<real>, right: seq<real>)

  /** An empty chunk has no mean (the page would divide by zero); its
      position is reported. */
  datatype AverageError = EmptyChunk(index: nat)

  function Abs(x: real): (r: real)
    ensures r >= 0.0 && (r == 0.0 <==> x == 0.0)
  {
    if x < 0.0 then -x else x
  }

  predicate IsAtRest(a: Axes6)
  {
    a.accX == 0.0 && a.accY == 0.0 && a.accZ == 0.0 && a.gyroX == 0.0 && a.gyroY == 0.0 && a.gyroZ == 0.0
  }

  /** Movement magnitude of one reading: the sum of the absolute values of
      its six axes. It is never negative, and zero exactly when every axis
      is zero. */
  function Magnitude(a: Axes6): (m: real)
    ensures m >= 0.0
    ensures m == 0.0 <==> IsAtRest(a)
  {
    Abs(a.accX) + Abs(a.accY) + Abs(a.accZ) + Abs(a.gyroX) + Abs(a.gyroY) + Abs(a.gyroZ)
  }

  /** The running sum the page keeps for one zone over a chunk, taken
      sample by sample from the front. */
  function ZoneSum(chunk: seq<MPU6886Object>, zone: Zone): (s: real)
    ensures s >= 0.0
  {
    if chunk == [] then 0.0
    else ZoneSum(chunk[..|chunk| - 1], zone) + Magnitude(ZoneOf(chunk[|chunk| - 1], zone))
  }

  /** A mean of non-negative values is non-negative, and zero exactly when
      their sum is. */
  lemma MeanSign(sum: real, count: real)
    requires sum >= 0.0 && count > 0.0
    ensures sum / count >= 0.0
    ensures sum / count == 0.0 <==> sum == 0.0
  {
  }

  /** The activity level of one zone over one non-empty chunk. */
  function ZoneAverage(chunk: seq<MPU6886Object>, zone: Zone): (avg: real)
    requires |chunk| > 0
    ensures avg >= 0.0
  {
    MeanSign(ZoneSum(chunk, zone), |chunk| as real);
    ZoneSum(chunk, zone) / (|chunk| as real)
  }

  predicate AllNonEmpty(chunks: seq<seq<MPU6886Object>>)
  {
    forall k :: 0 <= k < |chunks| ==> |chunks[k]| > 0
  }

  /** `calculateMPU6886Average`: for every chunk, in order, the three zone
      sums are accumulated over its samples and their means appended to the
      head, left and right series. A chunk with no samples is reported as
      `EmptyChunk` instead of producing a division by zero. */
  method CalculateMPU6886Average(chunks: seq<seq<MPU6886Object>>) returns (r: Result<Averages, AverageError>)
    ensures r.Failure? <==> !AllNonEmpty(chunks)
    ensures r.Failure? ==> r.error.index < |chunks| && |chunks[r.error.index]| == 0
    ensures r.Failure? ==> forall k :: 0 <= k < r.error.index ==> |chunks[k]| > 0
    ensures r.Success? ==>
      && |r.value.head| == |chunks| && |r.value.left| == |chunks| && |r.value.right| == |chunks|
      && forall k :: 0 <= k < |chunks| ==>
           && r.value.head[k] == ZoneAverage(chunks[k], Head)
           && r.value.left[k] == ZoneAverage(chunks[k], Left)
           && r.value.right[k] == ZoneAverage(chunks[k], Right)
  {
    var tempAvgHead: seq<real> := [];
    var tempAvgRight: seq<real> := [];
    var tempAvgLeft: seq<real> := [];
    var i := 0;
    while i < |chunks|
      invariant 0 <= i <= |chunks|
      invariant forall k :: 0 <= k < i ==> |chunks[k]| > 0
      invariant |tempAvgHead| == i && |tempAvgLeft| == i && |tempAvgRight| == i
      invariant forall k :: 0 <= k < i ==>
        && tempAvgHead[k] == ZoneAverage(chunks[k], Head)
        && tempAvgLeft[k] == ZoneAverage(chunks[k], Left)
        && tempAvgRight[k] == ZoneAverage(chunks[k], Right)
    {
      var data := chunks[i];
      if |data| == 0 {
        return Failure(EmptyChunk(i));
      }
      var sumHead := 0.0;
      var sumLeft := 0.0;
      var sumRight := 0.0;
      var j := 0;
      while j < |data|
        invariant 0 <= j <= |data|
        invariant sumHead == ZoneSum(data[..j], Head)
        invariant sumLeft == ZoneSum(data[..j], Left)
        invariant sumRight == ZoneSum(data[..j], Right)
      {
        var value := data[j];
        assert data[..j + 1][..j] == data[..j];
        sumHead := sumHead + Magnitude(value.head);
        sumLeft := sumLeft + Magnitude(value.left);
        sumRight := sumRight + Magnitude(value.right);
        j := j + 1;
      }
      assert data[..j] == data;
      tempAvgHead := tempAvgHead + [sumHead / (|data| as real)];
      tempAvgRight := tempAvgRight + [sumRight / (|data| as real)];
      tempAvgLeft := tempAvgLeft + [sumLeft / (|data| as real)];
      i := i + 1;
    }
    return Success(Averages(tempAvgHead, tempAvgLeft, tempAvgRight));
  }

  predicate AtRestThroughout(chunk: seq<MPU6886Object>, zone: Zone)
  {
    forall k :: 0 <= k < |chunk| ==> IsAtRest(ZoneOf(chunk[k], zone))
  }

  /** The page feeds the averager with the MPU6886 samples cut into
      pieces of `ChunkWidth`; none of those pieces is empty, so the
      averager never reports `EmptyChunk` on that path. */
  lemma ChunkedSamplesAreNonEmpty(samples: seq<MPU6886Object>)
    ensures AllNonEmpty(Chunker.DivideArrIntoPieces(samples, Chunker.ChunkWidth))
  {
    Chunker.PiecesNonEmpty(samples, Chunker.ChunkWidth);
  }

  /** A zone's sum over a chunk is zero exactly when the zone was at rest
      in every sample of the chunk. */
  lemma {:induction false} ZoneSumZeroIffAtRest(chunk: seq<MPU6886Object>, zone: Zone)
    ensures ZoneSum(chunk, zone) == 0.0 <==> AtRestThroughout(chunk, zone)
  {
    if chunk != [] {
      var n := |chunk| - 1;
      var init := chunk[..n];
      ZoneSumZeroIffAtRest(init, zone);
      AtRestThroughoutSnoc(chunk, zone);
    }
  }

  lemma AtRestThroughoutSnoc(chunk: seq<MPU6886Object>, zone: Zone)
    requires chunk != []
    ensures AtRestThroughout(chunk, zone)
        <==> AtRestThroughout(chunk[..|chunk| - 1], zone) && IsAtRest(ZoneOf(chunk[|chunk| - 1], zone))
  {
  }

  /** A zone's average is zero exactly when the zone was at rest in every
      sample of the chunk. */
  lemma ZoneAverageZeroIffAtRest(chunk: seq<MPU6886Object>, zone: Zone)
    requires |chunk| > 0
    ensures ZoneAverage(chunk, zone) == 0.0 <==> AtRestThroughout(chunk, zone)
  {
    ZoneSumZeroIffAtRest(chunk, zone);
    MeanSign(ZoneSum(chunk, zone), |chunk| as real);
  }

  /** A zone's sum and average depend only on that zone's readings: two
      chunks that agree sample by sample on the zone give the same result,
      whatever the other zones hold. */
  lemma {:induction false} ZoneSumOnlyReadsZone(c1: seq<MPU6886Object>, c2: seq<MPU6886Object>, zone: Zone)
    requires |c1| == |c2|
    requires forall k :: 0 <= k < |c1| ==> ZoneOf(c1[k], zone) == ZoneOf(c2[k], zone)
    ensures ZoneSum(c1, zone) == ZoneSum(c2, zone)
    ensures |c1| > 0 ==> ZoneAverage(c1, zone) == ZoneAverage(c2, zone)
  {
    if c1 != [] {
      var n := |c1| - 1;
      assert forall k :: 0 <= k < n ==> c1[..n][k] == c1[k] && c2[..n][k] == c2[k];
      ZoneSumOnlyReadsZone(c1[..n], c2[..n], zone);
    }
  }

  /** One sample whose head reads 1, -1, 1, -1, 1, -1 on its six axes has
      head activity 6. */
  lemma SingleSampleExample(left: Axes6, right: Axes6)
    ensures ZoneAverage([MPU6886Object(Axes6(1.0, -1.0, 1.0, -1.0, 1.0, -1.0), left, right)], Head) == 6.0
  {
    var chunk := [MPU6886Object(Axes6(1.0, -1.0, 1.0, -1.0, 1.0, -1.0), left, right)];
    assert chunk[..0] == [];
    assert ZoneSum(chunk, Head) == 6.0;
  }
}
