/** Real numbers and points in space, shared by the models. */
module Reals {

  datatype Point = Point(x: real, y: real, z: real)

  function Abs(x: real): real {
    if x < 0.0 then -x else x
  }

  /** A product under a name, so that the solver treats it as a term of its own. */
  function Times(a: real, b: real): real {
    a * b
  }

  lemma TimesZero(b: real)
    ensures Times(0.0, b) == 0.0 && Times(b, 0.0) == 0.0
  {
  }
}
