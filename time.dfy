/**
 * Instants as the recurrence code sees them. Time-zone aware datetimes are
 * modelled at minute granularity: the instant in UTC minutes plus the UTC
 * offset (in minutes) of the tzinfo object the datetime carries. The time-zone
 * database itself is an oracle `tz` from a UTC instant to the offset in force.
 */
module Time {
  /** An aware datetime: its UTC instant and the offset its tzinfo carries. */
  datatype DateTime = DateTime(utc: int, offset: int)

  /** The wall-clock reading of a datetime, in minutes. */
  function Wall(d: DateTime): int { d.utc + d.offset }

  /** Daylight-saving border behaviour of the timedelta generator. */
  datatype Dst = Adjust | Keep | Auto

  const MinutesPerDay: int := 24 * 60

  /** Python requires every UTC offset to lie strictly within one day. */
  ghost predicate ValidZone(tz: int -> int)
  {
    forall t :: -MinutesPerDay < tz(t) < MinutesPerDay
  }
}
