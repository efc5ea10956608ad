/** Durations and wall-clock readings are nanoseconds, Redis times and scores milliseconds. */
module Units {
  const MILLISECOND := 1_000_000
  const SECOND := 1_000_000_000
}
