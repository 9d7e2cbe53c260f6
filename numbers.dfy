/** Small integer helpers shared by the distance and the selection. */
module Numbers {

  function Min(a: nat, b: nat): nat {
    if a <= b then a else b
  }

  /** Python's `abs` on integers. */
  function Abs(x: int): nat {
    if x < 0 then -x else x
  }
}
