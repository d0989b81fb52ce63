/**
 * The values a pandas column holds in this pipeline. A column read from CSV
 * is "object" typed, so one column may mix text, numbers, timestamps and
 * missing values; `Cell` keeps that mix explicit. Floats are modelled as exact
 * decimals and NaN / NaT as `Null`.
 */
module Cells {

  datatype Option<T> = None | Some(value: T)

  /** 10 to the power `n`. */
  function Pow10(n: nat): (p: nat)
    ensures p >= 1
  {
    if n == 0 then 1 else 10 * Pow10(n - 1)
  }

  /**
   * A number written with `scale` digits after the decimal point: its value is
   * `units / 10^scale`. "12.50" is `Decimal(1250, 2)`.
   */
  datatype Decimal = Decimal(units: int, scale: nat)
  {
    function Value(): real
    {
      units as real / Pow10(scale) as real
    }

    /** numpy's `abs`: the same digits without the sign. */
    function Abs(): Decimal
    {
      Decimal(if units < 0 then -units else units, scale)
    }
  }

  /** The sign of a decimal's value is the sign of its units. */
  lemma ValueSign(d: Decimal)
    ensures d.Value() < 0.0 <==> d.units < 0
    ensures d.Value() == 0.0 <==> d.units == 0
    ensures d.Value() > 0.0 <==> d.units > 0
  {
    var p := Pow10(d.scale) as real;
    assert d.Value() * p == d.units as real;
  }

  /** `Abs` takes the absolute value of the number a decimal stands for. */
  lemma AbsValue(d: Decimal)
    ensures d.Abs().Value() == if d.Value() < 0.0 then -d.Value() else d.Value()
    ensures d.Abs().Abs() == d.Abs()
  {
    ValueSign(d);
    var p := Pow10(d.scale) as real;
    assert d.Value() * p == d.units as real;
    assert d.Abs().Value() * p == d.Abs().units as real;
  }

  /** One cell of a table. */
  datatype Cell = Null | Text(text: string) | Number(number: Decimal) | Time(ns: int)

  /** A cell of a float column: a number or NaN. */
  predicate IsNumeric(c: Cell)
  {
    c.Null? || c.Number?
  }

  /** A cell of a datetime column: a timestamp or NaT. */
  predicate IsDateTime(c: Cell)
  {
    c.Null? || c.Time?
  }

  /** pandas `==` against a string literal: only a text cell can be equal. */
  predicate IsText(c: Cell, s: string)
  {
    c == Text(s)
  }

  /** pandas `x > bound` on a float column: NaN compares false. */
  predicate Above(c: Cell, bound: real)
    requires IsNumeric(c)
  {
    c.Number? && c.number.Value() > bound
  }

  /** pandas `x < bound` on a float column: NaN compares false. */
  predicate Below(c: Cell, bound: real)
    requires IsNumeric(c)
  {
    c.Number? && c.number.Value() < bound
  }

  /** The absolute value of a numeric cell, as a real; NaN has none. */
  function Magnitude(c: Cell): Option<real>
    requires IsNumeric(c)
  {
    if c.Null? then None else Some(c.number.Abs().Value())
  }
}
