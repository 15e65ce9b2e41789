/** The parts of `java.util.logging` the test relies on: `Level` values with
    their standard constants, `Level.equals`, and the threshold rule of
    `Logger.isLoggable`. This is library behaviour, modelled as the JDK
    documents it, not code of the repository. */
module Jul {

  /** Java's `int`. */
  type Int32 = x: int | -0x8000_0000 <= x <= 0x7fff_ffff

  /** A `java.util.logging.Level`: a name and an integer severity value. */
  datatype Level = Level(name: string, value: Int32)

  const OFF: Level := Level("OFF", 0x7fff_ffff)
  const SEVERE: Level := Level("SEVERE", 1000)
  const WARNING: Level := Level("WARNING", 900)
  const INFO: Level := Level("INFO", 800)
  const CONFIG: Level := Level("CONFIG", 700)
  const FINE: Level := Level("FINE", 500)
  const FINER: Level := Level("FINER", 400)
  const FINEST: Level := Level("FINEST", 300)
  const ALL: Level := Level("ALL", -0x8000_0000)

  /** `Level.equals`: two levels are equal exactly when their values are
      (the name plays no part, so a custom level may equal a standard one). */
  predicate Equals(a: Level, b: Level) {
    a.value == b.value
  }

  /** `Logger.isLoggable` for a logger whose effective level is `threshold`:
      a record is dropped when its value is below the threshold, and every
      record is dropped when the threshold is OFF. */
  predicate IsLoggable(threshold: Level, level: Level) {
    !(level.value < threshold.value || threshold.value == OFF.value)
  }
}
