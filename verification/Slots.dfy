/** Slot numbers of locks and threads. */
module Slots {

  /** No slot: nobody owns, nothing is waited for, no parent. */
  const INVALID_SLOT: int := -1
}
