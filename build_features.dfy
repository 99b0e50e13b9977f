/**
 * The cleaning steps of `PrepAmbev` (src/features/build_features.py). The
 * DataFrame held in `_data` is a list of column names and a rectangular
 * sequence of rows; a fresh 0..n-1 row index is assumed, so a row label is
 * its position. Each step is a method of the class `PrepAmbev` that rewrites
 * the table cell by cell (or reassigns it), specified by the functions below.
 */
module BuildFeatures {
  import opened Cells

  // ---------------------------------------------------------------------------
  // bin_to_num (lines 73-91)
  // ---------------------------------------------------------------------------

  /** Python `val in xs` for a list of strings. */
  function InList(xs: seq<string>): string -> bool {
    s => s in xs
  }

  /** Python `val in t` for a string `t`: a substring test. */
  function InString(t: string): string -> bool {
    s => IsSubstring(s, t)
  }

  /**
   * The rule bin_to_num applies to one cell: a str member of `one` becomes 1;
   * otherwise, without a `zero` collection, 0; with one, a str member of
   * `zero` becomes 0 and everything else (other strings, numbers, NaN) NaN.
   */
  function Classify(c: Cell, one: string -> bool, zero: Option<string -> bool>): (r: Cell)
    ensures r == Num(1.0) || r == Num(0.0) || r == Missing
    ensures r == Num(1.0) <==> c.Str? && one(c.s)
    ensures zero.None? ==> r != Missing
    ensures r == Missing <==> zero.Some? && !(c.Str? && (one(c.s) || zero.value(c.s)))
  {
    if c.Str? && one(c.s) then Num(1.0)
    else if zero.None? then Num(0.0)
    else if c.Str? && zero.value(c.s) then Num(0.0)
    else Missing
  }

  /** The cell after the rule has been applied `k` times (a column listed `k` times in `cols`). */
  function Reclassify(c: Cell, k: nat, one: string -> bool, zero: Option<string -> bool>): (r: Cell)
    ensures k >= 1 ==> r == Num(1.0) || r == Num(0.0) || r == Missing
    ensures zero.None? && k >= 1 ==> r != Missing
  {
    if k == 0 then c else Classify(Reclassify(c, k - 1, one, zero), one, zero)
  }

  /**
   * A column listed twice or more loses its contents: the second pass sees a
   * number, which is never a str member of `one`, so every cell ends as 0
   * (without `zero`) or NaN (with it).
   */
  lemma {:induction false} ReclassifyRepeated(c: Cell, k: nat, one: string -> bool, zero: Option<string -> bool>)
    requires k >= 2
    ensures Reclassify(c, k, one, zero) == if zero.None? then Num(0.0) else Missing
  {
    if k > 2 {
      ReclassifyRepeated(c, k - 1, one, zero);
    }
  }

  /** With `one` given as the bare string of line 156, the empty string and every fragment of it count as approved. */
  lemma StatusMembershipAsWritten()
    ensures Classify(Str(""), InString("Monitoramento Aprovado"), None) == Num(1.0)
    ensures Classify(Str("Aprovado"), InString("Monitoramento Aprovado"), None) == Num(1.0)
    ensures Classify(Str("Monitoramento"), InString("Monitoramento Aprovado"), None) == Num(1.0)
    ensures Classify(Str("Aprovado"), InList(["Monitoramento Aprovado"]), None) == Num(0.0)
  {
    assert OccursAt("", "Monitoramento Aprovado", 0);
    assert OccursAt("Aprovado", "Monitoramento Aprovado", 14);
    assert OccursAt("Monitoramento", "Monitoramento Aprovado", 0);
  }

  /** With the one-element list evidently meant at line 156, exactly that status maps to 1 and every other cell to 0. */
  lemma StatusMembershipIntended(c: Cell)
    ensures Classify(c, InList(["Monitoramento Aprovado"]), None) == Num(1.0) <==> c == Str("Monitoramento Aprovado")
    ensures c != Str("Monitoramento Aprovado") ==> Classify(c, InList(["Monitoramento Aprovado"]), None) == Num(0.0)
  {
  }

  // ---------------------------------------------------------------------------
  // check_float (lines 58-66)
  // ---------------------------------------------------------------------------

  /**
   * `float(v)`, or NaN when it raises. `parse` stands for Python's float() on a
   * str: None where it raises (or yields nan).
   */
  function ToFloat(c: Cell, parse: string -> Option<real>): (r: Cell)
    ensures r.Num? || r.Missing?
    ensures c.Num? ==> r == c
    ensures c.Missing? ==> r == Missing
    ensures c.Str? ==> (r.Num? <==> parse(c.s).Some?)
    ensures c.Str? && parse(c.s).Some? ==> r == Num(parse(c.s).value)
  {
    match c
    case Num(_) => c
    case Missing => Missing
    case Str(s) => if parse(s).Some? then Num(parse(s).value) else Missing
  }

  /** Converting twice is converting once, so a column listed twice in `cols` is harmless. */
  lemma ToFloatIdempotent(c: Cell, parse: string -> Option<real>)
    ensures ToFloat(ToFloat(c, parse), parse) == ToFloat(c, parse)
  {
  }

  // ---------------------------------------------------------------------------
  // transform_month (lines 93-96)
  // ---------------------------------------------------------------------------

  /** `(v - 2017) / 10000` on one cell: NaN stays NaN, a str raises TypeError (None). */
  function ShiftMonth(c: Cell): (r: Option<Cell>)
    ensures r.None? <==> c.Str?
    ensures c.Missing? ==> r == Some(Missing)
    ensures c.Num? ==> r.Some? && r.value.Num? && c.r == r.value.r * 10000.0 + 2017.0
  {
    match c
    case Str(_) => None
    case Missing => Some(Missing)
    case Num(v) => Some(Num((v - 2017.0) / 10000.0))
  }

  /** The encoding keeps the order of months, so sorting by it later sorts by month. */
  lemma ShiftMonthMonotone(a: real, b: real)
    requires a < b
    ensures ShiftMonth(Num(a)).value.r < ShiftMonth(Num(b)).value.r
  {
  }

  /** `df[col] = df.apply(...)`: the whole new column, or the TypeError of the first str cell. */
  function TransformColumn(rows: seq<seq<Cell>>, j: nat, width: nat): (r: Option<seq<seq<Cell>>>)
    requires Rectangular(rows, width) && j < width
    ensures r.Some? <==> forall i :: 0 <= i < |rows| ==> !rows[i][j].Str?
    ensures r.Some? ==> |r.value| == |rows| && Rectangular(r.value, width)
    ensures r.Some? ==> forall i, k :: 0 <= i < |rows| && 0 <= k < width ==>
      r.value[i][k] == if k == j then ShiftMonth(rows[i][j]).value else rows[i][k]
  {
    if rows == [] then Some([])
    else
      var head := ShiftMonth(rows[0][j]);
      var tail := TransformColumn(rows[1..], j, width);
      if head.None? || tail.None? then None
      else Some([rows[0][j := head.value]] + tail.value)
  }

  // ---------------------------------------------------------------------------
  // filter_valid (lines 98-101)
  // ---------------------------------------------------------------------------

  /** pandas `==` between a cell and a value: NaN equals nothing, not even NaN. */
  predicate CellEquals(c: Cell, v: Cell) {
    !c.Missing? && c == v
  }

  predicate Keeps(row: seq<Cell>, j: nat, v: Cell) {
    j < |row| && CellEquals(row[j], v)
  }

  /** `df[df[col] == v]`: the rows whose cell `j` equals `v`, in their order. */
  function FilterRows(rows: seq<seq<Cell>>, j: nat, v: Cell): (r: seq<seq<Cell>>)
    ensures |r| <= |rows|
    ensures forall x :: x in r <==> x in rows && Keeps(x, j, v)
  {
    if rows == [] then []
    else (if Keeps(rows[0], j, v) then [rows[0]] else []) + FilterRows(rows[1..], j, v)
  }

  /** Filtering splits over concatenation: the kept rows keep their relative order. */
  lemma {:induction false} FilterRowsAppend(a: seq<seq<Cell>>, b: seq<seq<Cell>>, j: nat, v: Cell)
    ensures FilterRows(a + b, j, v) == FilterRows(a, j, v) + FilterRows(b, j, v)
  {
    if a != [] {
      assert (a + b)[1..] == a[1..] + b;
      FilterRowsAppend(a[1..], b, j, v);
    } else {
      assert a + b == b;
    }
  }

  /** Every row is kept as many times as it occurs, or not at all. */
  lemma {:induction false} FilterRowsCount(rows: seq<seq<Cell>>, j: nat, v: Cell, x: seq<Cell>)
    ensures multiset(FilterRows(rows, j, v))[x] == if Keeps(x, j, v) then multiset(rows)[x] else 0
  {
    if rows != [] {
      FilterRowsCount(rows[1..], j, v, x);
      var head := if Keeps(rows[0], j, v) then [rows[0]] else [];
      assert multiset(FilterRows(rows, j, v)) == multiset(head) + multiset(FilterRows(rows[1..], j, v));
      assert rows == [rows[0]] + rows[1..];
      assert multiset(rows) == multiset([rows[0]]) + multiset(rows[1..]);
    }
  }

  /** Filtering a second time changes nothing. */
  lemma {:induction false} FilterRowsIdempotent(rows: seq<seq<Cell>>, j: nat, v: Cell)
    ensures FilterRows(FilterRows(rows, j, v), j, v) == FilterRows(rows, j, v)
  {
    if rows != [] {
      FilterRowsIdempotent(rows[1..], j, v);
      var head := if Keeps(rows[0], j, v) then [rows[0]] else [];
      FilterRowsAppend(head, FilterRows(rows[1..], j, v), j, v);
      assert FilterRows(head, j, v) == head by {
        if head != [] {
          assert head[1..] == [];
        }
      }
    }
  }

  // ---------------------------------------------------------------------------
  // calc_per_acum (lines 103-107)
  // ---------------------------------------------------------------------------

  const AcumColumn := "per_acum_acumulado"
  const PesoColumn := "per_peso_kpi"
  const PontosColumn := "per_pontos_acumulado"

  /** Python `a * b` on two numeric cells: NaN if either is NaN. */
  function Product(a: Cell, b: Cell): (r: Cell)
    requires !a.Str? && !b.Str?
    ensures r.Missing? <==> a.Missing? || b.Missing?
    ensures a.Num? && b.Num? ==> r == Num(a.r * b.r)
  {
    if a.Missing? || b.Missing? then Missing else Num(a.r * b.r)
  }

  // ---------------------------------------------------------------------------
  // replace_by_index (lines 51-56)
  // ---------------------------------------------------------------------------

  /** A row position as `iat` reads it: negative positions count from the end. */
  predicate InRange(x: int, n: nat) {
    -(n as int) <= x < n
  }

  function Position(x: int, n: nat): (p: nat)
    requires InRange(x, n)
    ensures p < n
  {
    if x < 0 then x + n else x
  }

  /** The writes of one pass of the inner loop: `(x, c)` for each `c` of `cols`, in order. */
  function RowPairs(x: int, cols: seq<string>): (ps: seq<(int, string)>)
    ensures |ps| == |cols|
  {
    seq(|cols|, k requires 0 <= k < |cols| => (x, cols[k]))
  }

  /** The (index, col) pairs in the order of the two nested loops. */
  function Pairs(indexes: seq<int>, cols: seq<string>): seq<(int, string)> {
    if indexes == [] then [] else RowPairs(indexes[0], cols) + Pairs(indexes[1..], cols)
  }

  /** The loops write once per (index, col) combination, duplicates included. */
  lemma {:induction false} PairsLength(indexes: seq<int>, cols: seq<string>)
    ensures |Pairs(indexes, cols)| == |indexes| * |cols|
  {
    if indexes != [] {
      PairsLength(indexes[1..], cols);
      assert |indexes| * |cols| == |cols| + (|indexes| - 1) * |cols|;
    }
  }

  /** Every combination of a listed index and a listed column is written, and nothing else. */
  lemma {:induction false} PairsMembers(indexes: seq<int>, cols: seq<string>, w: (int, string))
    ensures w in Pairs(indexes, cols) <==> w.0 in indexes && w.1 in cols
  {
    if indexes != [] {
      PairsMembers(indexes[1..], cols, w);
      assert indexes == [indexes[0]] + indexes[1..];
      if w.0 == indexes[0] && w.1 in cols {
        var k :| 0 <= k < |cols| && cols[k] == w.1;
        assert RowPairs(indexes[0], cols)[k] == w;
      }
    }
  }

  function SetCell(rows: seq<seq<Cell>>, i: nat, j: nat, v: Cell): (r: seq<seq<Cell>>)
    requires i < |rows| && j < |rows[i]|
    ensures |r| == |rows|
    ensures forall a, b :: 0 <= a < |rows| && 0 <= b < |rows[a]| ==>
      |r[a]| == |rows[a]| && r[a][b] == if a == i && b == j then v else rows[a][b]
  {
    rows[i := rows[i][j := v]]
  }

  /**
   * The writes done in order, stopping at the first one that raises: KeyError
   * when `get_loc` does not know the column (checked first), else IndexError
   * when the position is out of range. Writes done before it stay.
   */
  function ApplyWrites(rows: seq<seq<Cell>>, columns: seq<string>, writes: seq<(int, string)>, v: Cell)
    : (r: (seq<seq<Cell>>, Option<Error>))
    requires Rectangular(rows, |columns|)
    ensures |r.0| == |rows| && Rectangular(r.0, |columns|)
    decreases |writes|
  {
    if writes == [] then (rows, None)
    else
      var x, c := writes[0].0, writes[0].1;
      if c !in columns then (rows, Some(KeyError(c)))
      else if !InRange(x, |rows|) then (rows, Some(IndexError(x)))
      else ApplyWrites(SetCell(rows, Position(x, |rows|), IndexOf(columns, c), v), columns, writes[1..], v)
  }

  /** Some listed index denotes row position `i` of a table with `n` rows. */
  predicate Hits(indexes: seq<int>, i: nat, n: nat) {
    exists x :: x in indexes && InRange(x, n) && Position(x, n) == i
  }

  predicate ValidWrite(w: (int, string), n: nat, columns: seq<string>) {
    w.1 in columns && InRange(w.0, n)
  }

  /** Some write lands on row `i` of column `c`. */
  predicate Targets(writes: seq<(int, string)>, i: nat, c: string, n: nat) {
    exists w :: w in writes && w.1 == c && InRange(w.0, n) && Position(w.0, n) == i
  }

  /** The writes succeed exactly when each of them is valid. */
  lemma {:induction false} ApplyWritesOk(rows: seq<seq<Cell>>, columns: seq<string>, writes: seq<(int, string)>, v: Cell)
    requires Rectangular(rows, |columns|)
    ensures ApplyWrites(rows, columns, writes, v).1.None? <==> forall w :: w in writes ==> ValidWrite(w, |rows|, columns)
    decreases |writes|
  {
    if writes != [] {
      assert writes[0] in writes;
      if ValidWrite(writes[0], |rows|, columns) {
        var rows' := SetCell(rows, Position(writes[0].0, |rows|), IndexOf(columns, writes[0].1), v);
        ApplyWritesOk(rows', columns, writes[1..], v);
        assert writes == [writes[0]] + writes[1..];
      }
    }
  }

  lemma TargetsCons(writes: seq<(int, string)>, i: nat, c: string, n: nat)
    requires writes != []
    ensures Targets(writes, i, c, n) <==>
      (writes[0].1 == c && InRange(writes[0].0, n) && Position(writes[0].0, n) == i) || Targets(writes[1..], i, c, n)
  {
    assert writes == [writes[0]] + writes[1..];
    if Targets(writes[1..], i, c, n) {
      var w :| w in writes[1..] && w.1 == c && InRange(w.0, n) && Position(w.0, n) == i;
      assert w in writes;
    }
    if writes[0].1 == c && InRange(writes[0].0, n) && Position(writes[0].0, n) == i {
      assert writes[0] in writes;
    }
  }

  /** After valid writes the targeted cells hold `v` and no other cell changed. */
  lemma {:induction false} ApplyWritesCells(rows: seq<seq<Cell>>, columns: seq<string>, writes: seq<(int, string)>, v: Cell)
    requires Distinct(columns) && Rectangular(rows, |columns|)
    requires forall w :: w in writes ==> ValidWrite(w, |rows|, columns)
    ensures forall i, j :: 0 <= i < |rows| && 0 <= j < |columns| ==>
      ApplyWrites(rows, columns, writes, v).0[i][j] == if Targets(writes, i, columns[j], |rows|) then v else rows[i][j]
    decreases |writes|
  {
    if writes != [] {
      assert writes[0] in writes;
      var p, q := Position(writes[0].0, |rows|), IndexOf(columns, writes[0].1);
      var rows' := SetCell(rows, p, q, v);
      forall w | w in writes[1..] ensures ValidWrite(w, |rows'|, columns) {
        assert w in writes;
      }
      ApplyWritesCells(rows', columns, writes[1..], v);
      assert ApplyWrites(rows, columns, writes, v) == ApplyWrites(rows', columns, writes[1..], v);
      forall i, j | 0 <= i < |rows| && 0 <= j < |columns|
        ensures ApplyWrites(rows, columns, writes, v).0[i][j] == if Targets(writes, i, columns[j], |rows|) then v else rows[i][j]
      {
        TargetsCons(writes, i, columns[j], |rows|);
        if writes[0].1 == columns[j] {
          IndexOfUnique(columns, columns[j], j);
        }
      }
    }
  }

  /** replace_by_index fails exactly when some listed column is unknown or some listed index is out of range. */
  lemma ReplaceByIndexOk(before: seq<seq<Cell>>, columns: seq<string>, indexes: seq<int>, cols: seq<string>, v: Cell)
    requires Rectangular(before, |columns|)
    ensures ApplyWrites(before, columns, Pairs(indexes, cols), v).1.None? <==>
      (indexes == [] || cols == [] ||
       ((forall c :: c in cols ==> c in columns) && (forall x :: x in indexes ==> InRange(x, |before|))))
  {
    var n := |before|;
    var ps := Pairs(indexes, cols);
    ApplyWritesOk(before, columns, ps, v);
    var allValid := forall w :: w in ps ==> ValidWrite(w, n, columns);
    var stated := indexes == [] || cols == [] ||
      ((forall c :: c in cols ==> c in columns) && (forall x :: x in indexes ==> InRange(x, n)));
    if allValid && indexes != [] && cols != [] {
      forall c | c in cols ensures c in columns {
        PairsMembers(indexes, cols, (indexes[0], c));
      }
      forall x | x in indexes ensures InRange(x, n) {
        PairsMembers(indexes, cols, (x, cols[0]));
      }
    }
    if stated {
      forall w | w in ps ensures ValidWrite(w, n, columns) {
        PairsMembers(indexes, cols, w);
      }
    }
    assert allValid <==> stated;
  }

  /** After a successful replace_by_index the listed cells hold `v` and every other cell is unchanged. */
  lemma ReplaceByIndexCells(before: seq<seq<Cell>>, columns: seq<string>, indexes: seq<int>, cols: seq<string>, v: Cell)
    requires Distinct(columns) && Rectangular(before, |columns|)
    requires ApplyWrites(before, columns, Pairs(indexes, cols), v).1.None?
    ensures forall i, j :: 0 <= i < |before| && 0 <= j < |columns| ==>
      ApplyWrites(before, columns, Pairs(indexes, cols), v).0[i][j] ==
        if columns[j] in cols && Hits(indexes, i, |before|)
        then v else before[i][j]
  {
    var ps := Pairs(indexes, cols);
    ApplyWritesOk(before, columns, ps, v);
    ApplyWritesCells(before, columns, ps, v);
    forall i, j | 0 <= i < |before| && 0 <= j < |columns|
      ensures ApplyWrites(before, columns, ps, v).0[i][j] ==
        if columns[j] in cols && Hits(indexes, i, |before|)
        then v else before[i][j]
    {
      TargetsPairs(indexes, cols, i, columns[j], |before|);
    }
  }

  /** The outcome of replace_by_index in terms of its arguments: it fails exactly when some (index, col) pair is bad. */
  lemma ReplaceByIndexOutcome(before: seq<seq<Cell>>, columns: seq<string>, indexes: seq<int>, cols: seq<string>, v: Cell)
    requires Distinct(columns) && Rectangular(before, |columns|)
    ensures ApplyWrites(before, columns, Pairs(indexes, cols), v).1.None? <==>
      (indexes == [] || cols == [] ||
       ((forall c :: c in cols ==> c in columns) && (forall x :: x in indexes ==> InRange(x, |before|))))
    ensures ApplyWrites(before, columns, Pairs(indexes, cols), v).1.None? ==>
      forall i, j :: 0 <= i < |before| && 0 <= j < |columns| ==>
        ApplyWrites(before, columns, Pairs(indexes, cols), v).0[i][j] ==
          if columns[j] in cols && Hits(indexes, i, |before|)
          then v else before[i][j]
  {
    ReplaceByIndexOk(before, columns, indexes, cols, v);
    if ApplyWrites(before, columns, Pairs(indexes, cols), v).1.None? {
      ReplaceByIndexCells(before, columns, indexes, cols, v);
    }
  }

  lemma TargetsPairs(indexes: seq<int>, cols: seq<string>, i: nat, c: string, n: nat)
    ensures Targets(Pairs(indexes, cols), i, c, n) <==>
      c in cols && Hits(indexes, i, n)
  {
    var ps := Pairs(indexes, cols);
    if c in cols && Hits(indexes, i, n) {
      var x :| x in indexes && InRange(x, n) && Position(x, n) == i;
      PairsMembers(indexes, cols, (x, c));
    }
    if Targets(ps, i, c, n) {
      var w :| w in ps && w.1 == c && InRange(w.0, n) && Position(w.0, n) == i;
      PairsMembers(indexes, cols, w);
    }
  }

  // ---------------------------------------------------------------------------
  // The class
  // ---------------------------------------------------------------------------

  /** `PrepAmbev`: the DataFrame `_data`, as its column names and its rows. */
  class PrepAmbev {
    var columns: seq<string>
    var rows: seq<seq<Cell>>

    /** Column labels are unique and every row has one cell per column. */
    ghost predicate Valid()
      reads this
    {
      Distinct(columns) && Rectangular(rows, |columns|)
    }

    constructor (columns: seq<string>, rows: seq<seq<Cell>>)
      requires Distinct(columns) && Rectangular(rows, |columns|)
      ensures Valid() && this.columns == columns && this.rows == rows
    {
      this.columns := columns;
      this.rows := rows;
    }

    /** Lines 51-56: put `v` into every column of `cols` at every row position of `indexes`. */
    method ReplaceByIndex(indexes: seq<int>, cols: seq<string>, v: Cell) returns (err: Option<Error>)
      requires Valid()
      modifies this
      ensures Valid() && columns == old(columns)
      ensures (rows, err) == ApplyWrites(old(rows), columns, Pairs(indexes, cols), v)
      ensures err.None? <==>
        (indexes == [] || cols == [] ||
         ((forall c :: c in cols ==> c in columns) && (forall x :: x in indexes ==> InRange(x, |old(rows)|))))
      ensures err.None? ==> forall i, j :: 0 <= i < |old(rows)| && 0 <= j < |columns| ==>
        rows[i][j] == if columns[j] in cols && Hits(indexes, i, |old(rows)|)
                      then v else old(rows)[i][j]
    {
      ghost var all := Pairs(indexes, cols);
      var a := 0;
      while a < |indexes|
        invariant 0 <= a <= |indexes|
        invariant columns == old(columns) && Valid() && |rows| == |old(rows)|
        invariant ApplyWrites(old(rows), columns, all, v) == ApplyWrites(rows, columns, Pairs(indexes[a..], cols), v)
      {
        var index := indexes[a];
        ghost var rest := Pairs(indexes[a + 1..], cols);
        assert indexes[a..][1..] == indexes[a + 1..];
        assert cols[0..] == cols;
        var b := 0;
        while b < |cols|
          invariant 0 <= b <= |cols|
          invariant columns == old(columns) && Valid() && |rows| == |old(rows)|
          invariant ApplyWrites(old(rows), columns, all, v) ==
            ApplyWrites(rows, columns, RowPairs(index, cols[b..]) + rest, v)
        {
          ghost var tail := RowPairs(index, cols[b..]) + rest;
          assert tail[0] == (index, cols[b]);
          assert RowPairs(index, cols[b..])[1..] == RowPairs(index, cols[b + 1..]);
          assert tail[1..] == RowPairs(index, cols[b + 1..]) + rest;
          var col := cols[b];
          if col !in columns {
            err := Some(KeyError(col));
            ReplaceByIndexOutcome(old(rows), columns, indexes, cols, v);
            return;
          }
          if !InRange(index, |rows|) {
            err := Some(IndexError(index));
            ReplaceByIndexOutcome(old(rows), columns, indexes, cols, v);
            return;
          }
          var loc := IndexOf(columns, col);
          rows := SetCell(rows, Position(index, |rows|), loc, v);
          b := b + 1;
        }
        assert RowPairs(index, cols[b..]) + rest == rest;
        a := a + 1;
      }
      assert indexes[a..] == [];
      err := None;
      ReplaceByIndexOutcome(old(rows), columns, indexes, cols, v);
    }

    /**
     * Lines 58-66: every cell of the columns in `cols` becomes `float(cell)`, or
     * NaN when the conversion raises; every other cell stays.
     */
    method CheckFloat(cols: seq<string>, parse: string -> Option<real>)
      requires Valid()
      requires forall c :: c in cols ==> c in columns
      modifies this
      ensures Valid() && columns == old(columns) && |rows| == |old(rows)|
      ensures forall i, j :: 0 <= i < |rows| && 0 <= j < |columns| ==>
        rows[i][j] == if columns[j] in cols then ToFloat(old(rows)[i][j], parse) else old(rows)[i][j]
    {
      var i := 0;
      while i < |rows|
        invariant 0 <= i <= |rows| == |old(rows)|
        invariant columns == old(columns) && Valid()
        invariant forall r, j :: 0 <= r < i && 0 <= j < |columns| ==>
          rows[r][j] == if columns[j] in cols then ToFloat(old(rows)[r][j], parse) else old(rows)[r][j]
        invariant forall r :: i <= r < |rows| ==> rows[r] == old(rows)[r]
      {
        var row := rows[i];
        var k := 0;
        while k < |cols|
          invariant 0 <= k <= |cols| && |row| == |columns|
          invariant forall j :: 0 <= j < |columns| ==>
            row[j] == if columns[j] in cols[..k] then ToFloat(old(rows)[i][j], parse) else old(rows)[i][j]
        {
          var j := IndexOf(columns, cols[k]);
          row := row[j := ToFloat(row[j], parse)];
          assert cols[..k + 1] == cols[..k] + [cols[k]];
          forall j' | 0 <= j' < |columns| && columns[j'] == cols[k] ensures j' == j {
            IndexOfUnique(columns, cols[k], j');
          }
          k := k + 1;
        }
        assert cols[..k] == cols;
        rows := rows[i := row];
        i := i + 1;
      }
    }

    /**
     * Lines 73-91: every cell of the columns in `cols` is classified by
     * `Classify`, once per time its column is listed; every other cell stays.
     */
    method BinToNum(cols: seq<string>, one: string -> bool, zero: Option<string -> bool>)
      requires Valid()
      requires forall c :: c in cols ==> c in columns
      modifies this
      ensures Valid() && columns == old(columns) && |rows| == |old(rows)|
      ensures forall i, j :: 0 <= i < |rows| && 0 <= j < |columns| ==>
        rows[i][j] == Reclassify(old(rows)[i][j], multiset(cols)[columns[j]], one, zero)
      ensures forall i, j :: 0 <= i < |rows| && 0 <= j < |columns| && columns[j] !in cols ==>
        rows[i][j] == old(rows)[i][j]
    {
      var i := 0;
      while i < |rows|
        invariant 0 <= i <= |rows| == |old(rows)|
        invariant columns == old(columns) && Valid()
        invariant forall r, j :: 0 <= r < i && 0 <= j < |columns| ==>
          rows[r][j] == Reclassify(old(rows)[r][j], multiset(cols)[columns[j]], one, zero)
        invariant forall r, j :: i <= r < |rows| && 0 <= j < |columns| ==> rows[r][j] == old(rows)[r][j]
      {
        // the cells of row i, rewritten one listed column at a time
        var row := rows[i];
        var k := 0;
        assert multiset(cols[..k]) == multiset{};
        while k < |cols|
          invariant 0 <= k <= |cols| && |row| == |columns|
          invariant forall j :: 0 <= j < |columns| ==>
            row[j] == Reclassify(old(rows)[i][j], multiset(cols[..k])[columns[j]], one, zero)
        {
          var j := IndexOf(columns, cols[k]);
          var val := row[j];
          row := row[j := Classify(val, one, zero)];
          assert cols[..k + 1] == cols[..k] + [cols[k]];
          forall j' | 0 <= j' < |columns|
            ensures row[j'] == Reclassify(old(rows)[i][j'], multiset(cols[..k + 1])[columns[j']], one, zero)
          {
            if j' == j {
              assert multiset(cols[..k + 1])[columns[j']] == multiset(cols[..k])[columns[j']] + 1;
            } else {
              assert columns[j'] != cols[k];
              assert multiset(cols[..k + 1])[columns[j']] == multiset(cols[..k])[columns[j']];
            }
          }
          k := k + 1;
        }
        rows := rows[i := row];
        assert cols[..k] == cols;
        i := i + 1;
      }
      forall i, j | 0 <= i < |rows| && 0 <= j < |columns| && columns[j] !in cols
        ensures rows[i][j] == old(rows)[i][j]
      {
        assert multiset(cols)[columns[j]] == 0;
      }
    }

    /**
     * Lines 93-96: the column `col` becomes `(v - 2017) / 10000`; the table
     * stays when the column is unknown (KeyError) or a str cell raises.
     */
    method TransformMonth(col: string) returns (err: Option<Error>)
      requires Valid()
      modifies this
      ensures Valid() && columns == old(columns) && |rows| == |old(rows)|
      ensures col !in columns ==> err == Some(KeyError(col))
      ensures col in columns ==>
        (err.None? <==> forall i :: 0 <= i < |rows| ==> !old(rows)[i][IndexOf(columns, col)].Str?)
      ensures col in columns && err.Some? ==> err == Some(TypeError)
      ensures err.Some? ==> rows == old(rows)
      ensures err.None? ==> forall i, j :: 0 <= i < |rows| && 0 <= j < |columns| ==>
        rows[i][j] == if columns[j] == col then ShiftMonth(old(rows)[i][j]).value else old(rows)[i][j]
    {
      if col !in columns {
        return Some(KeyError(col));
      }
      var j := IndexOf(columns, col);
      var column := TransformColumn(rows, j, |columns|);
      if column.None? {
        return Some(TypeError);
      }
      forall j' | 0 <= j' < |columns| && columns[j'] == col ensures j' == j {
        IndexOfUnique(columns, col, j');
      }
      rows := column.value;
      err := None;
    }

    /** Lines 98-101: keep exactly the rows whose `col` equals `validValue`; KeyError for an unknown column. */
    method FilterValid(col: string, validValue: Cell) returns (err: Option<Error>)
      requires Valid()
      modifies this
      ensures Valid() && columns == old(columns)
      ensures err.None? <==> col in columns
      ensures err.Some? ==> err == Some(KeyError(col)) && rows == old(rows)
      ensures err.None? ==> rows == FilterRows(old(rows), IndexOf(columns, col), validValue)
    {
      if col !in columns {
        return Some(KeyError(col));
      }
      var kept := FilterRows(rows, IndexOf(columns, col), validValue);
      forall i | 0 <= i < |kept| ensures |kept[i]| == |columns| {
        assert kept[i] in rows;
      }
      rows := kept;
      err := None;
    }

    /**
     * Lines 103-107: every row whose `per_acum_acumulado` is NaN gets
     * `per_peso_kpi * per_pontos_acumulado` there; nothing else changes.
     */
    method CalcPerAcum()
      requires Valid()
      requires AcumColumn in columns && PesoColumn in columns && PontosColumn in columns
      requires forall i :: 0 <= i < |rows| && rows[i][IndexOf(columns, AcumColumn)].Missing? ==>
        !rows[i][IndexOf(columns, PesoColumn)].Str? && !rows[i][IndexOf(columns, PontosColumn)].Str?
      modifies this
      ensures Valid() && columns == old(columns) && |rows| == |old(rows)|
      ensures forall i, j :: 0 <= i < |rows| && 0 <= j < |columns| ==>
        rows[i][j] ==
          if j == IndexOf(columns, AcumColumn) && old(rows)[i][j].Missing?
          then Product(old(rows)[i][IndexOf(columns, PesoColumn)], old(rows)[i][IndexOf(columns, PontosColumn)])
          else old(rows)[i][j]
    {
      var a := IndexOf(columns, AcumColumn);
      var p := IndexOf(columns, PesoColumn);
      var q := IndexOf(columns, PontosColumn);
      forall j' | 0 <= j' < |columns| && columns[j'] == AcumColumn ensures j' == a {
        IndexOfUnique(columns, AcumColumn, j');
      }
      var i := 0;
      while i < |rows|
        invariant 0 <= i <= |rows| == |old(rows)|
        invariant columns == old(columns) && Valid()
        invariant forall r, j :: 0 <= r < |rows| && 0 <= j < |columns| ==>
          rows[r][j] ==
            if r < i && j == a && old(rows)[r][a].Missing?
            then Product(old(rows)[r][p], old(rows)[r][q])
            else old(rows)[r][j]
      {
        if rows[i][a].Missing? {
          rows := SetCell(rows, i, a, Product(rows[i][p], rows[i][q]));
        }
        i := i + 1;
      }
    }
  }
}
