/** Python's `min` and `max` of two integers, shared by the page range,
    the contour cut and the kernel size. */
module MinMax {

  function Min(a: int, b: int): int
  {
    if a <= b then a else b
  }

  function Max(a: int, b: int): int
  {
    if a >= b then a else b
  }
}
