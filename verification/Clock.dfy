/** Moments on one integer clock. Every duration in this project is in the clock's unit. */
module Clock {

  /** A moment, or none. */
  datatype Stamp = Never | At(t: int)
}
