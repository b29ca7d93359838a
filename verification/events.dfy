/** Calendar events as busy intervals, with times in the calendar's own time zone
    (Asia/Kolkata has no daylight saving, so local minutes are a fixed scale). */
module Events {
  import opened Dates
  import Config

  type MinuteOfDay = m: int | 0 <= m < Config.MinutesPerDay

  /** A time of day on a date, as a parsed event `dateTime` converted to the calendar zone. */
  datatype DateTime = DateTime(date: Date, minute: MinuteOfDay)

  /** Minutes since the start of the day numbered 0: the scale every slot and interval lives on. */
  function Instant(t: DateTime): int {
    Ordinal(t.date) * Config.MinutesPerDay + t.minute
  }

  /** The instant of `hour`:00 on date `d`. */
  function AtHour(d: Date, hour: int): int {
    Ordinal(d) * Config.MinutesPerDay + 60 * hour
  }

  /** The minute within its day of an instant. */
  function MinuteOfInstant(i: int): MinuteOfDay {
    i % Config.MinutesPerDay
  }

  /** An event of the calendar, with the fields the scheduler reads. */
  datatype Event = Event(summary: string, start: DateTime, end: DateTime)
}
