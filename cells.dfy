/**
 * Cells of the dashboard's price tables.
 *
 * pandas marks a missing or undefined value with the float NaN. The model
 * keeps that marker as its own constructor and every other value as an exact
 * real number, so that the arithmetic of the pipeline can be stated exactly.
 */
module Cells {

  /** One cell of a table column: NaN, or a number. */
  datatype Cell = NaN | Num(value: real)

  /** A column of a table, one cell per row (per trading date). */
  type Column = seq<Cell>

  /** `a / b` on cells: NaN in gives NaN out, and so does a zero divisor. */
  function Div(a: Cell, b: Cell): (r: Cell)
    ensures r.Num? <==> a.Num? && b.Num? && b.value != 0.0
    ensures r.Num? ==> r.value * b.value == a.value
  {
    if a.Num? && b.Num? && b.value != 0.0 then Num(a.value / b.value) else NaN
  }

  /** `a - b` on cells: NaN in gives NaN out. */
  function Sub(a: Cell, b: Cell): (r: Cell)
    ensures r.Num? <==> a.Num? && b.Num?
    ensures r.Num? ==> r.value + b.value == a.value
  {
    if a.Num? && b.Num? then Num(a.value - b.value) else NaN
  }

  /** `a > b` on cells; every comparison with NaN is false. */
  predicate Gt(a: Cell, b: Cell)
  {
    a.Num? && b.Num? && a.value > b.value
  }

  /** `a <= b` on cells; every comparison with NaN is false. */
  predicate Le(a: Cell, b: Cell)
  {
    a.Num? && b.Num? && a.value <= b.value
  }
}
