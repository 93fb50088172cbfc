/** Python's `min` and `max` on two numbers. */
module Reals {
  function Min(x: real, y: real): real { if y < x then y else x }

  function Max(x: real, y: real): real { if y > x then y else x }
}
