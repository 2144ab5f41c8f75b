/** What several parts of the model share. */
module Prelude {

  datatype Option<+T> = None | Some(value: T)

  /** Ticks and second counts are 32-bit unsigned. */
  const WRAP: nat := 0x1_0000_0000

  /** `now - then` on 32-bit counts. */
  function Since(now: nat, then': nat): nat
  {
    (now - then') % WRAP
  }
}
