/** The record shapes the page receives from the backend, with field names
    as the page reads them. Numbers are modelled as reals (counters as
    integers); floating-point rounding is not modelled. */
module Types {

  /** The three monitored body locations. */
  datatype Zone = Head | Left | Right

  /** The six channels of one MPU6886 reading: acceleration and angular
      velocity, each on three axes. */
  datatype Axes6 = Axes6(accX: real, accY: real, accZ: real, gyroX: real, gyroY: real, gyroZ: real)

  /** One inertial sample: a reading at each of the three body zones. */
  datatype MPU6886Object = MPU6886Object(head: Axes6, left: Axes6, right: Axes6)

  /** One derived index record: the per-zone magnitude differences and the
      cumulative arm raise/lower counter. */
  datatype IndexData = IndexData(diffHead: real, diffLeft: real, diffRight: real, armUpDown: int)

  function ZoneOf(sample: MPU6886Object, zone: Zone): Axes6
  {
    match zone
    case Head => sample.head
    case Left => sample.left
    case Right => sample.right
  }

  function Diff(data: IndexData, zone: Zone): real
  {
    match zone
    case Head => data.diffHead
    case Left => data.diffLeft
    case Right => data.diffRight
  }
}
