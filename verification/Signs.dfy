/** Soft values: a positive log-likelihood ratio says 0, a negative one says 1. */
module Signs {

  /** The value x read in favour of `bit`: positive when its sign says `bit`. */
  function Signed(x: real, bit: bool): real {
    if bit then -x else x
  }
}
