/** The Byzantine fault-tolerance rule shared by both SDKs: among `total` agents at most
    floor((total - 1) / 3) may be faulty. */
module Byzantine {

  /** `Math.floor((total - 1) / 3)` and `(total - 1) // 3`: both round toward minus infinity,
      as Dafny's division by a positive divisor does, so total = 0 gives -1. */
  function MaxFaulty(total: int): (f: int)
    ensures 3 * f + 1 <= total < 3 * f + 4
  {
    (total - 1) / 3
  }

  /** `validateByzantineTolerance(total, faulty)`: the classic bound total >= 3f + 1. */
  function ValidateByzantineTolerance(total: int, faulty: int): (ok: bool)
    ensures ok <==> 3 * faulty + 1 <= total
  {
    faulty <= MaxFaulty(total)
  }
}
