/** The scheduling constants of `config.py`. */
module Config {

  /** Working hours: 9 AM to 6 PM. */
  const WorkStartHour: int := 9
  const WorkEndHour: int := 18

  /** Slot grid step, in minutes. */
  const SlotInterval: int := 15

  const MinutesPerDay: int := 1440
}
