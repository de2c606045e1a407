/** Points in time, in minutes since the schedule begin. */
module Time {
  const MINUTES_A_DAY: nat := 1440
  const MAX_DAYS: nat := 512

  /** The default-constructed time: the program uses it as infinity. */
  const INVALID_TIME: nat := MAX_DAYS * MINUTES_A_DAY
}
