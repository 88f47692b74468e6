/** What several of the models share. */
module Basics {

  datatype Option<T> = None | Some(value: T)

  /** Two to the power k. */
  ghost function Exp2(k: nat): (n: nat)
    ensures n > 0
  {
    if k == 0 then 1 else 2 * Exp2(k - 1)
  }

  /** Eight-byte alignment. */
  function Align8(v: nat): (r: nat)
    ensures v <= r < v + 8 && r % 8 == 0
  {
    (v + 7) / 8 * 8
  }
}
