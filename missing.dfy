/** Cells of a pandas column as the news notebook sees them.

    A cell holds a number or is missing (NaN). A label that one of two
    aligned series lacks also reads as missing. Arithmetic on a missing cell
    gives a missing cell. Every comparison with a missing cell is false. */
module Missing {

  datatype Option<+T> = None | Some(value: T)

  /** `a - b` on two aligned cells. */
  function Sub(a: Option<real>, b: Option<real>): Option<real>
  {
    if a.Some? && b.Some? then Some(a.value - b.value) else None
  }

  /** `a > t`: false on a missing cell. */
  predicate Gt(a: Option<real>, t: real)
  {
    a.Some? && a.value > t
  }

  /** `a < t`: false on a missing cell. */
  predicate Lt(a: Option<real>, t: real)
  {
    a.Some? && a.value < t
  }

  /** `a == 0`: false on a missing cell. */
  predicate IsZero(a: Option<real>)
  {
    a.Some? && a.value == 0.0
  }

  function Max(a: real, b: real): real
  {
    if a < b then b else a
  }

  /** One cell after the masked assignment `s[s < 0] = 0`. A missing cell
      fails the mask and stays missing. */
  function Clamped(a: Option<real>): (r: Option<real>)
    ensures r.Some? <==> a.Some?
    ensures r.Some? ==> r.value >= 0.0 && r.value == Max(0.0, a.value)
  {
    if Lt(a, 0.0) then Some(0.0) else a
  }

  /** The result of a floating-point division `a / b`. A zero divisor gives
      an infinity of the numerator's sign, or NaN when the numerator is
      zero too. */
  datatype Quotient = Finite(quotient: real) | PlusInfinity | MinusInfinity | NaN

  function Divide(a: Option<real>, b: Option<real>): Quotient
  {
    if a.None? || b.None? then NaN
    else if b.value != 0.0 then Finite(a.value / b.value)
    else if a.value > 0.0 then PlusInfinity
    else if a.value < 0.0 then MinusInfinity
    else NaN
  }

  /** `q > t`: true of plus infinity, false of NaN. */
  predicate Above(q: Quotient, t: real)
  {
    match q
    case Finite(x) => x > t
    case PlusInfinity => true
    case MinusInfinity => false
    case NaN => false
  }

  /** `q < t`: true of minus infinity, false of NaN. */
  predicate Below(q: Quotient, t: real)
  {
    match q
    case Finite(x) => x < t
    case PlusInfinity => false
    case MinusInfinity => true
    case NaN => false
  }
}
