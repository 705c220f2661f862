/** Minimum, absolute value, and products under a name. */
module Numbers {

  function Min(x: nat, y: nat): nat {
    if x < y then x else y
  }

  /** A product under a name keeps sums and comparisons of products linear. */
  function Product(x: real, y: real): real {
    x * y
  }

  function Abs(x: real): real {
    if x < 0.0 then -x else x
  }
}
