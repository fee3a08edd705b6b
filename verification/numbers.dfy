/**
 * JavaScript numbers as the product filter compares them. Prices and ratings are
 * stored as `real`; a string parsed with `Number` or `parseFloat` may also yield
 * NaN or an infinity, and every ordered comparison with NaN is false.
 */
module Numbers {

  datatype Num = NaN | NegInf | PosInf | Finite(value: real)

  /** `x >= n` for a finite `x`. */
  predicate AtLeast(x: real, n: Num) {
    match n
    case NaN => false
    case NegInf => true
    case PosInf => false
    case Finite(v) => x >= v
  }

  /** `x <= n` for a finite `x`. */
  predicate AtMost(x: real, n: Num) {
    match n
    case NaN => false
    case NegInf => false
    case PosInf => true
    case Finite(v) => x <= v
  }
}
