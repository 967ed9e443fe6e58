/** Small value types shared by every part of the route engine:
    optional values (JavaScript's `undefined`/`null` lookups), results with an
    error case (a thrown exception), and costs extended with Infinity. */
module Common {

  /** A value that may be absent, such as a missing key of a JavaScript object. */
  datatype Option<+T> = None | Some(value: T)

  /** A computation that either produces a value or throws. */
  datatype Result<+T, +E> = Success(value: T) | Failure(error: E)

  /** The exception JavaScript throws when code indexes a missing entry
      (`undefined.push`, `undefined.forEach`). */
  datatype JsError = TypeError

  /** A cost that is either a finite real or Infinity, the initial
      tentative distance of every node. */
  datatype Ext = Fin(value: real) | Inf {

    /** Strict comparison `this < other` with Infinity above every finite cost
        (and `Infinity < Infinity` false, as in JavaScript). */
    predicate Below(other: Ext) {
      match this
      case Inf => false
      case Fin(a) => other.Inf? || a < other.value
    }

    /** `this <= other` in the same order. */
    predicate AtMost(other: Ext) {
      !other.Below(this)
    }

    /** `this + w` for a finite, non-negative hop cost. */
    function Plus(w: real): Ext {
      match this
      case Inf => Inf
      case Fin(a) => Fin(a + w)
    }

    /** `this + other`, Infinity when either is. */
    function Add(other: Ext): Ext {
      match other
      case Inf => Inf
      case Fin(b) => this.Plus(b)
    }
  }
}
