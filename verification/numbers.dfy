/** Integer helpers for the paging, limit and batch arithmetic. */
module Numbers {

  /** The smaller of two integers, as `Math.min` and the store's window bounds use it. */
  function Min(a: int, b: int): (m: int)
    ensures m <= a && m <= b
    ensures m == a || m == b
  {
    if a <= b then a else b
  }
}
