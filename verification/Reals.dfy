/** Maximum, minimum and absolute value of exact reals. */
module Reals {
  function Max(x: real, y: real): real { if x > y then x else y }

  function Min(x: real, y: real): real { if y < x then y else x }

  function Abs(x: real): real { if x < 0.0 then -x else x }
}
