# Sensor aggregation for the kandenko dashboard

The dashboard page (`frontend/src/App.tsx`) fetches three batches of
records from the backend and turns two of them into chart series. This
project models the data shaping behind those series and proves its
properties. The network, React and Chart.js code around it is not modelled.

- **Chunker** (`divideArrIntoPieces`): splits an ordered sequence into
  consecutive windows of width `n`. All windows but the last hold exactly
  `n` elements. The page uses width 60 (`Chunker.ChunkWidth`) for both the
  MPU6886 samples and the ENV3 samples. The ENV3 chunks are not aggregated
  any further.
- **Magnitude averager** (`calculateMPU6886Average`): takes one chunk of
  MPU6886 samples at a time. For each body zone (head, left arm, right arm)
  it computes the mean over the chunk of the sum of the absolute values of
  the zone's six axes. It is modelled as a method with nested loops, proved
  against the recursive function `ZoneSum`.
- **Heavy-load binner** (`calculateHeavyLoadPerMinute`): for each zone,
  records whose difference is strictly above 100 become events, in record
  order. Each event at position `i` then increments counter
  `Math.round(i / 10) - 1` of that zone's five counters. The filter scan is
  a method (`CollectHeavyLoads`). The counting works in place on a five-element `array<int>`,
  and its result is proved equal to the function `Tally` of the event list.
- **Arm raise/lower count**: the `armUpDown` counter of the last index
  record, or none.

The record shapes (`Axes6`, `MPU6886Object`, `IndexData`) are in module
`Types`. Their field names are the ones the page reads. `Option` and
`Result` are in module `Wrappers`.

Choices where the page leaves behaviour undefined:

- **Width of 0 or less.** The page never passes such a width. In
  JavaScript, a width of 0 with a non-empty input throws a `RangeError`,
  and a negative width gives `[]`. `Chunker.Chunk` reports every
  non-positive width as `InvalidArgument`. `Chunker.DivideArrIntoPieces`
  itself requires a positive width.
- **Empty chunk.** The page would push `0 / 0`, which is `NaN`.
  `MagnitudeAverager.CalculateMPU6886Average` returns
  `Failure(EmptyChunk(k))` for the first empty chunk `k` instead.
  `Chunker.PiecesNonEmpty` shows that the chunker never produces an empty
  chunk.
- **Counter slot out of range.** For a position `i`, `Math.round(i / 10)`
  equals `(i + 5) / 10` in integer division. So the slot is one of the
  five counters only when `5 <= i < 55`. For positions 0 to 4 the page
  writes to slot `-1`, and for positions 55 and up it writes past the fifth
  counter. Neither write shows up on the five-point chart. The model drops
  these events: they are still events, but they are never counted.
- **Fixed values.** The width 60, the threshold 100 and the five counters
  are written as literals in the source. They are named constants here
  (`ChunkWidth`, `HeavyLoadThreshold`, `BucketCount`), not parameters.

## Model

| member | source | states |
|---|---|---|
| `Chunker.CeilDiv` | frontend/src/App.tsx:32 | `Math.ceil(a / n)` is the unique `c` with `a <= c * n < a + n` |
| `Chunker.Slice` | frontend/src/App.tsx:33 | `slice(start, end)` is `arr[start..end]` when both are in range, the tail when `end` runs past the end, and empty when `start` is past the end or `end` is not after `start` |
| `Chunker.DivideArrIntoPieces` | frontend/src/App.tsx:28-35 | the number of pieces `c` satisfies `len(arr) <= c * n < len(arr) + n`, i.e. it is `ceil(len(arr) / n)` |
| `Chunker.Chunk` | frontend/src/App.tsx:28-35 | fails with `InvalidArgument` exactly when the width is not positive; otherwise the result is the width-`n` split of `DivideArrIntoPieces`, whose pieces concatenate back to the input |
| `Chunker.PieceAt` | frontend/src/App.tsx:32-33 | piece `k` is `arr[k*n .. min((k+1)*n, len(arr))]` and starts inside the input |
| `Chunker.InnerPieceLength` | frontend/src/App.tsx:32-33 | every piece but the last has exactly `n` elements |
| `Chunker.LastPieceLength` | frontend/src/App.tsx:32-33 | the last piece has `len(arr) mod n` elements when that is non-zero, and `n` otherwise |
| `Chunker.PieceLengths` | frontend/src/App.tsx:32-33 | count is `ceil(len(arr) / n)`; no pieces exactly for the empty input; inner pieces have `n` elements and the last has between 1 and `n` |
| `Chunker.PiecesNonEmpty` | frontend/src/App.tsx:32-33 | no piece is empty |
| `Chunker.FlattenPrefix` | frontend/src/App.tsx:32-33 | the first `k` pieces concatenate to the first `min(k*n, len(arr))` elements |
| `Chunker.FlattenPieces` | frontend/src/App.tsx:32-33 | concatenating all pieces gives back the input exactly, in order |
| `Chunker.DocExample` | frontend/src/App.tsx:25 | `[0..7]` with width 3 gives `[[0,1,2],[3,4,5],[6,7]]` |
| `MagnitudeAverager.Abs` | frontend/src/App.tsx:55 | `Math.abs` is non-negative and zero only at zero |
| `MagnitudeAverager.Magnitude` | frontend/src/App.tsx:54-60 | the six-axis sum of absolute values is non-negative and zero exactly when all six axes are zero |
| `MagnitudeAverager.ZoneSum` | frontend/src/App.tsx:50-75 | a zone's running sum over a chunk is never negative |
| `MagnitudeAverager.ZoneAverage` | frontend/src/App.tsx:76-78 | a zone's mean over a non-empty chunk is never negative |
| `MagnitudeAverager.CalculateMPU6886Average` | frontend/src/App.tsx:37-86 | fails exactly when some chunk is empty, and names the first empty chunk; otherwise head, left and right have one entry per chunk, and entry `k` is that zone's mean over chunk `k` |
| `MagnitudeAverager.ChunkedSamplesAreNonEmpty` | frontend/src/App.tsx:217 | the samples cut into pieces of width 60 never contain an empty chunk, so the averager never fails on the page's data path |
| `MagnitudeAverager.ZoneSumZeroIffAtRest` | frontend/src/App.tsx:53-75 | a zone's sum over a chunk is zero exactly when every axis of that zone is zero in every sample |
| `MagnitudeAverager.ZoneAverageZeroIffAtRest` | frontend/src/App.tsx:76-78 | a zone's mean is zero exactly when that zone is at rest throughout the chunk |
| `MagnitudeAverager.ZoneSumOnlyReadsZone` | frontend/src/App.tsx:53-78 | a zone's sum and mean depend only on that zone's readings, whatever order the pushes are written in |
| `MagnitudeAverager.SingleSampleExample` | frontend/src/App.tsx:54-60 | one sample whose head axes read 1, -1, 1, -1, 1, -1 has head mean 6 |
| `HeavyLoad.HeavyLoads` | frontend/src/App.tsx:129-139 | the events a zone's scan pushes, in record order: one per record whose difference is above 100, so as many as there are such records (`HeavyCount` over all positions) and never more than there are records |
| `HeavyLoad.MathRound` | frontend/src/App.tsx:149 | `Math.round`: the nearest integer, halves rounded up (`r - 0.5 <= x < r + 0.5`) |
| `HeavyLoad.RoundedTenth` | frontend/src/App.tsx:149 | `(i + 5) / 10` equals `Math.round(i / 10)`, taken as `floor(x + 0.5)` on reals |
| `HeavyLoad.Slot` | frontend/src/App.tsx:149-150 | the slot is one of the five counters exactly for positions 5 to 54, and slot `b` holds positions `10b+5` to `10b+14` |
| `HeavyLoad.Tally` | frontend/src/App.tsx:144-159 | five counters, none negative |
| `HeavyLoad.TallySnoc` | frontend/src/App.tsx:148-159 | one more event raises exactly its own slot by one, or changes nothing when its slot is out of range |
| `HeavyLoad.CollectHeavyLoads` | frontend/src/App.tsx:126-139 | the single scan of the records yields, for each zone, exactly the event list `HeavyLoads` |
| `HeavyLoad.CountHeavyLoads` | frontend/src/App.tsx:148-159 | the in-place pass adds to each counter the number of events in its slot |
| `HeavyLoad.CalculateHeavyLoadPerMinute` | frontend/src/App.tsx:119-168 | each zone's result is `Tally` of that zone's events, computed from zero-initialised counters |
| `HeavyLoad.HeavyLoadsExact` | frontend/src/App.tsx:129-139 | an event is in a zone's list iff the record at its position has a difference strictly above 100, and the event carries that difference; positions strictly increase, so there is at most one event per record |
| `HeavyLoad.SlotCountsHeavyRecords` | frontend/src/App.tsx:129-159 | counter `b` of a zone equals the number of heavy records of that zone at positions `10b+5` to `10b+14` |
| `HeavyLoad.TallyTotal` | frontend/src/App.tsx:144-159 | a zone's five counters add up to its number of heavy records at positions 5 to 54 |
| `HeavyLoad.NoHeavyLoadAllZero` | frontend/src/App.tsx:144-146 | with no difference above 100, including with no records at all, there are no events and the counters are `[0,0,0,0,0]` |
| `HeavyLoad.ThresholdIsStrict` | frontend/src/App.tsx:130-131 | a difference of exactly 100 gives no event, and 101 gives one |
| `HeavyLoad.HeavyLoadsOnlyAt` | frontend/src/App.tsx:129-139 | when `p` is the only heavy position, the zone's events are exactly the event at `p` |
| `HeavyLoad.OnlyPosition12` | frontend/src/App.tsx:148-151 | a single heavy head record at position 12 gives head counters `[1,0,0,0,0]` |
| `ArmUpDown.LastArmUpDown` | frontend/src/App.tsx:243-246 | returns a value exactly when the records have arrived and there is at least one; the value is the last record's counter |
| `ArmUpDown.LastIsLargest` | frontend/src/App.tsx:243-246 | for a counter that never decreases, the value shown is the largest in the batch |

## Left out

- Fetching the three batches from the backend with axios, and the
  hard-coded URLs (frontend/src/App.tsx:210-237). This is network I/O.
- React state, `useEffect` and the JSX rendering (frontend/src/App.tsx:199-208, 239-241, 274-295).
  This is UI. It includes the rendering guard that hides an `armUpDown` of 0.
- The chart-data wrappers `calculateMPU6886AverageChartData` and
  `calculateHeavyLoadPerMinuteChartData`, the labels, `ChartJS.register` and
  the chart options (frontend/src/App.tsx:88-117, 170-197, 251-272). These
  wrap a charting library that is not part of this model, and attach
  colours and labels.
- The `console.log` calls (frontend/src/App.tsx:160-162, 216-218, 224-226, 234, 247). They are diagnostics only.
- IEEE-754 arithmetic. Axis values and differences are reals, so `Math.abs`
  and the division are exact, and sums do not round.
- The page's writes outside its five counters. Events at positions below 5
  or from 55 on are dropped instead (see above).
- `./types` is not part of this model. The record shapes are inferred from
  the fields the page reads.
