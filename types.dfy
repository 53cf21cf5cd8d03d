/** Shared vocabulary of the slide-rule problem generator: the operations a
    problem may use, the requirements the user picks, and the random draws
    the generator consumes. */
module Types {

  /** Every operation the generator knows about. The declared enumeration of
      the application lists only the first nine; the generator also uses the
      three trigonometric ones, so the model has all twelve. */
  datatype Operation =
    | Multiplication | Division
    | Square | Cube | SquareRoot | CubeRoot
    | Log10 | Ln | Exp
    | Sin | Cos | Tan

  /** What the user asked for: the allowed operations (as an ordered list,
      possibly with repetitions), the tree depth, the exponent range of the
      generated numbers and their number of significant figures. */
  datatype Requirements = Requirements(
    operations: seq<Operation>,
    steps: int,
    magnitude: int,
    significantFigures: int)

  /** One result of the platform's uniform random source: a real in [0, 1). */
  type Draw = r: real | 0.0 <= r < 1.0

  datatype Option<T> = None | Some(value: T)

  /** Math.abs on the reals. */
  function Abs(x: real): (r: real)
    ensures r >= 0.0 && (r == x || r == -x)
  {
    if x < 0.0 then -x else x
  }
}
