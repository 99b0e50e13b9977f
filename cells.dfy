/**
 * Values shared by the three stages of the pipeline: the cells of a table
 * (as pandas holds them after reading a CSV or a workbook sheet), the Python
 * exceptions the modelled code can raise, and small facts about strings and
 * sequences of column names.
 */
module Cells {

  datatype Option<T> = None | Some(value: T)

  /** One table cell: a Python `str`, a number (int or float, as a real), or NaN/None. */
  datatype Cell = Str(s: string) | Num(r: real) | Missing

  /** The exceptions the modelled code raises. */
  datatype Error =
    | KeyError(key: string)       // unknown column label
    | IndexError(position: int)   // row position or column position out of range
    | TypeError                   // arithmetic on a str
    | NameError(name: string)     // a variable read before it was ever bound

  /** `a` occurs in `b` starting at position `i`. */
  predicate OccursAt(a: string, b: string, i: nat) {
    i + |a| <= |b| && b[i..i + |a|] == a
  }

  /** Python's `a in b` for two strings: `a` is a contiguous substring of `b`. */
  predicate IsSubstring(a: string, b: string) {
    exists i: nat | i <= |b| :: OccursAt(a, b, i)
  }

  /** No name occurs twice. */
  predicate Distinct(xs: seq<string>) {
    forall i, j :: 0 <= i < j < |xs| ==> xs[i] != xs[j]
  }

  /** Every row has exactly `width` cells. */
  predicate Rectangular<T>(rows: seq<seq<T>>, width: nat) {
    forall i :: 0 <= i < |rows| ==> |rows[i]| == width
  }

  /** `columns.get_loc(x)`: the position of `x` among the column names. */
  function IndexOf(xs: seq<string>, x: string): (k: nat)
    requires x in xs
    ensures k < |xs| && xs[k] == x
    ensures forall j :: 0 <= j < k ==> xs[j] != x
  {
    if xs[0] == x then 0 else 1 + IndexOf(xs[1..], x)
  }

  /** With distinct names, `IndexOf` finds the only position holding `x`. */
  lemma IndexOfUnique(xs: seq<string>, x: string, j: nat)
    requires Distinct(xs) && j < |xs| && xs[j] == x
    ensures IndexOf(xs, x) == j
  {
  }
}
