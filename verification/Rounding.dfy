/** The page size and the rounding macros of util/functions.h. */
module Rounding {
  import opened PowersOfTwo

  const PGSIZE: nat := 4096

  function RoundUp(a: nat, b: nat): (r: nat)
    requires b > 0
    ensures a <= r < a + b && r % b == 0
  {
    RoundedParts(a + b - 1, b);
    (a + b - 1) / b * b
  }

  function RoundDown(a: nat, b: nat): (r: nat)
    requires b > 0
    ensures a - b < r <= a && r % b == 0
  {
    RoundedParts(a, b);
    a / b * b
  }

  lemma RoundedParts(a: nat, b: nat)
    requires b > 0
    ensures a == a / b * b + a % b && a / b * b >= 0 && a / b * b % b == 0
  {
    DivMul(a / b, b);
  }
}
