/** Clock readings are in nanoseconds; time limits are in whole seconds. */
module Time {
  const TICKS_PER_SECOND := 1_000_000_000

  /** The whole seconds from one reading to a later one. */
  function WholeSeconds(since: nat, now: nat): nat
  {
    if now < since then 0 else (now - since) / TICKS_PER_SECOND
  }

  /** A second is a thousand million nanoseconds, and fractions do not count. */
  lemma WholeSecondsMeaning(since: nat, now: nat)
    requires since <= now
    ensures var n := WholeSeconds(since, now); n * 1_000_000_000 <= now - since < (n + 1) * 1_000_000_000
  {
  }
}
