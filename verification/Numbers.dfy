/** Real numbers and angles. */
module Numbers {
  const PI: real := 3.141592653589793
  const TWO_PI: real := 2.0 * PI

  function Abs(x: real): (y: real) {
    if x < 0.0 then -x else x
  }
}
