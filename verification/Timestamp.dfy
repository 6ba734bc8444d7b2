/** Timestamps and the headers they travel in (src/db/util.rs). */
module Timestamp {
  /** `SyncTimestamp::from_milliseconds`: ticks of ten milliseconds. */
  function FromMilliseconds(ms: nat): nat { ms - ms % 10 }

  /** `SyncTimestamp::from_header`, for a header whose value in milliseconds comes out of the floats as `ms`. */
  function FromHeader(ms: real): nat
    requires ms >= 0.0
  {
    FromMilliseconds(ms.Floor)
  }

  /** Truncation gives the tick at or below. */
  lemma TicksRoundDown(ms: nat)
    ensures FromMilliseconds(ms) % 10 == 0 && FromMilliseconds(ms) <= ms < FromMilliseconds(ms) + 10
  {}

  /**
   * A tick that is off by less than ten milliseconds after the arithmetic of floats is read as
   * itself or as the tick below, the latter exactly if it came out too small.
   */
  lemma HeaderReadsTickOrBelow(tick: nat, error: real)
    requires tick % 10 == 0 && -10.0 < error < 10.0 && tick as real + error >= 0.0
    ensures FromHeader(tick as real + error) == if error >= 0.0 then tick else tick - 10
  {}
}
