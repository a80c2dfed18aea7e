/** Shared vocabulary of the service layer: optional values, the REST error
    every service throws, results of fallible operations, and the JavaScript
    number as the services see it. */
module Common {

  datatype Option<+T> = None | Some(value: T) {
    predicate IsFailure() { None? }

    function PropagateFailure<U>(): Option<U>
      requires None?
    {
      None
    }

    function Extract(): T
      requires Some?
    {
      value
    }

    function GetOr(default: T): T {
      match this
      case Some(v) => v
      case None => default
    }
  }

  /** The HTTP status codes the services attach to their responses and errors. */
  datatype Status = OK | CREATED | BAD_REQUEST | NOT_FOUND | INTERNAL_SERVER_ERROR

  function StatusCode(s: Status): int {
    match s
    case OK => 200
    case CREATED => 201
    case BAD_REQUEST => 400
    case NOT_FOUND => 404
    case INTERNAL_SERVER_ERROR => 500
  }

  /** A thrown `RestError(status, message)`. */
  datatype RestError = RestError(status: Status, message: string)

  /** The outcome of a service call: the value it returns or the error it throws. */
  datatype Result<+T> = Success(value: T) | Failure(error: RestError) {
    predicate IsFailure() { Failure? }

    function PropagateFailure<U>(): Result<U>
      requires Failure?
    {
      Failure(error)
    }

    function Extract(): T
      requires Success?
    {
      value
    }
  }

  /** A validator that either passes or throws. */
  datatype Check = Pass | Fail(error: RestError) {
    predicate IsFailure() { Fail? }

    function PropagateFailure<U>(): Result<U>
      requires Fail?
    {
      Failure(error)
    }
  }

  function BadRequest<T>(message: string): Result<T> {
    Failure(RestError(BAD_REQUEST, message))
  }

  /** A JavaScript number: a finite value, NaN, or one of the two infinities.
      Rounding of finite values is not modelled. */
  datatype JsNumber = Finite(r: real) | NaN | Infinity(positive: bool) {
    /** `Number.isFinite(x)` */
    predicate IsFiniteNumber() { Finite? }

    /** `x <= 0` (false for NaN, true for -Infinity) */
    predicate AtMostZero() {
      match this
      case Finite(v) => v <= 0.0
      case NaN => false
      case Infinity(pos) => !pos
    }

    /** `x < y` against a number `y`: false for NaN, true for -Infinity. */
    predicate LessThan(y: real) {
      match this
      case Finite(v) => v < y
      case NaN => false
      case Infinity(pos) => !pos
    }

    /** JavaScript truthiness: everything but 0 and NaN. */
    predicate Truthy() {
      match this
      case Finite(v) => v != 0.0
      case NaN => false
      case Infinity(_) => true
    }
  }

  function Min(a: real, b: real): real { if a <= b then a else b }
  function Max(a: real, b: real): real { if a >= b then a else b }

  /** Regrouping a concatenation, stated apart from the terms it is used on
      so that the solver meets it in an empty context. */
  lemma AppendAssoc<T>(x: seq<T>, y: seq<T>, z: seq<T>)
    ensures x + (y + z) == (x + y) + z
  {
  }

  /** The position of the first element that `wanted` picks, as a
      `findUnique`/`findFirst` with a filter answers it on an ordered table. */
  function FindFirst<T>(xs: seq<T>, wanted: T -> bool): (r: Option<nat>)
    ensures r.Some? ==> r.value < |xs| && wanted(xs[r.value])
    ensures r.Some? ==> forall j :: 0 <= j < r.value ==> !wanted(xs[j])
    ensures r.None? <==> forall j :: 0 <= j < |xs| ==> !wanted(xs[j])
  {
    if |xs| == 0 then None
    else if wanted(xs[0]) then Some(0)
    else
      var rest := FindFirst(xs[1..], wanted);
      if rest.None? then None else Some(rest.value + 1)
  }
}
