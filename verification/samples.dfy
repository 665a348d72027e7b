/**
 * The sample record the engine works on, and how one CSV row becomes one:
 * the numeric cells `elapsed` and `timeStamp` are either missing/empty,
 * a number (already truncated to an integer), or unparseable.
 */
module Samples {
  import opened Wrappers

  /** The outcome of parsing one numeric cell. */
  datatype Field = Absent | Num(n: int) | Garbled

  /** One row of the results log, with `success` already folded to a boolean. */
  datatype Row = Row(name: string, success: bool, elapsed: Field, timeStamp: Field)

  /** One sampled request (`name` is its label); `ts` is None when the time stamp could not be parsed. */
  datatype Sample = Sample(name: string, success: bool, elapsed: int, ts: Option<int>)

  /**
   * A missing or malformed elapsed time counts as 0 ms. A missing time stamp
   * counts as 0 and still takes part in the window; only an unparseable one
   * is left out of it.
   */
  function Ingest(row: Row): (s: Sample)
    ensures s.name == row.name && s.success == row.success
    ensures row.elapsed.Num? ==> s.elapsed == row.elapsed.n
    ensures !row.elapsed.Num? ==> s.elapsed == 0
    ensures s.ts.None? <==> row.timeStamp.Garbled?
    ensures row.timeStamp.Absent? ==> s.ts == Some(0)
    ensures row.timeStamp.Num? ==> s.ts == Some(row.timeStamp.n)
  {
    var elapsed := match row.elapsed
      case Num(n) => n
      case _ => 0;
    var ts := match row.timeStamp
      case Absent => Some(0)
      case Num(n) => Some(n)
      case Garbled => None;
    Sample(row.name, row.success, elapsed, ts)
  }
}
