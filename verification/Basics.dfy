/** Small shared definitions. */
module Basics {

  type byte = x: int | 0 <= x < 0x100

  /** The most detections ever drawn or stored (main/app_config.h:177). */
  const DET_MAX_BOX: nat := 5

  /** One past the largest 32-bit unsigned number. */
  const U32: nat := 0x1_0000_0000

  datatype Option<+T> = None | Some(value: T)

  function One(b: bool): nat {
    if b then 1 else 0
  }

  /** The numbers below n. */
  function Below(n: nat): (s: set<nat>)
    ensures forall e: nat :: e in s <==> e < n
    ensures |s| == n
  {
    if n == 0 then {} else Below(n - 1) + {n - 1}
  }
}
