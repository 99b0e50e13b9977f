/**
 * The hand-written parts of src/models/rnn_lstm_model.py: the selection of
 * the `nom_` columns to encode (lines 44-47) and the construction of the
 * overlapping samples fed to the recurrent network (lines 82-101). The
 * processed table reaches the windowing as a 2-D numpy array of reals.
 */
module RnnLstmModel {
  import opened Cells

  // ---------------------------------------------------------------------------
  // The `nom_` column selector (lines 44-47)
  // ---------------------------------------------------------------------------

  /** `\w` on the ASCII column names of this table: a letter, a digit or `_`. */
  predicate IsWordChar(ch: char) {
    ('a' <= ch <= 'z') || ('A' <= ch <= 'Z') || ('0' <= ch <= '9') || ch == '_'
  }

  /** The pattern `nom_\w+` matches at position `i`: `nom_` and at least one word character. */
  predicate NomMatchAt(name: string, i: nat) {
    i + 5 <= |name| && name[i..i + 4] == "nom_" && IsWordChar(name[i + 4])
  }

  /** A column is selected when the pattern matches somewhere in its name. */
  predicate HasNomWord(name: string) {
    exists i: nat | i <= |name| :: NomMatchAt(name, i)
  }

  /** `pattern.search(name)` from position `from`: try each start position, left to right. */
  function Search(name: string, from: nat): (found: bool)
    ensures found <==> exists i: nat | from <= i <= |name| :: NomMatchAt(name, i)
    decreases |name| - from
  {
    if from + 5 > |name| then false
    else NomMatchAt(name, from) || Search(name, from + 1)
  }

  /** `df.columns[col_search(df.columns)]`: the matching names, in column order. */
  function NomCols(columns: seq<string>): (r: seq<string>)
    ensures |r| <= |columns|
    ensures forall c :: c in r <==> c in columns && HasNomWord(c)
  {
    if columns == [] then []
    else (if Search(columns[0], 0) then [columns[0]] else []) + NomCols(columns[1..])
  }

  /** Selection splits over concatenation, so the selected names keep their relative order. */
  lemma {:induction false} NomColsAppend(a: seq<string>, b: seq<string>)
    ensures NomCols(a + b) == NomCols(a) + NomCols(b)
  {
    if a == [] {
      assert a + b == b;
    } else {
      var head := if Search(a[0], 0) then [a[0]] else [];
      assert (a + b)[0] == a[0] && (a + b)[1..] == a[1..] + b;
      assert NomCols(a + b) == head + NomCols(a[1..] + b);
      NomColsAppend(a[1..], b);
      assert NomCols(a) == head + NomCols(a[1..]);
    }
  }

  // ---------------------------------------------------------------------------
  // Sliding-window samples (lines 82-101)
  // ---------------------------------------------------------------------------

  /** Rows per entity and month in the processed table. */
  const EntityCount: nat := 10621
  /** `i_len` (line 82): three months of rows make one window. */
  const WindowLength: nat := 3 * EntityCount
  /** A sample keeps columns 0..16 (`:17`) of each row. */
  const FeatureCount: nat := 17
  /** The label is column 17. */
  const LabelColumn: nat := 17

  /** A 2-D numpy array: every row has the width of the first. */
  predicate IsMatrix(m: seq<seq<real>>) {
    Rectangular(m, Width(m))
  }

  function Width(m: seq<seq<real>>): nat {
    if m == [] then 0 else |m[0]|
  }

  /** `m[start : start + w, :17]`: `w` consecutive rows, each cut to its first 17 columns. */
  function Window(m: seq<seq<real>>, start: nat, w: nat): (r: seq<seq<real>>)
    requires start + w <= |m|
    requires forall i :: start <= i < start + w ==> |m[i]| >= FeatureCount
    ensures |r| == w && forall k :: 0 <= k < w ==> |r[k]| == FeatureCount
  {
    seq(w, k requires 0 <= k < w => m[start + k][..FeatureCount])
  }

  /** What the loop leaves: the arrays `X` and `y`, or the exception the script stops with. */
  datatype Outcome = Built(x: seq<seq<seq<real>>>, y: seq<real>) | Failed(error: Error)

  /**
   * Lines 88-101: for each `i` from `w` to `L - 1`, append rows `i - w .. i - 1`
   * (columns 0..16) to `X` and column 17 of row `i` to `y`. With `L <= w` the
   * loop never runs and the save at line 100 reads an unbound `X`; with 17
   * columns or fewer the first label read is out of range.
   */
  method SlidingWindows(train: seq<seq<real>>, w: nat) returns (out: Outcome)
    requires IsMatrix(train)
    ensures out.Built? <==> |train| > w && Width(train) > LabelColumn
    ensures |train| <= w ==> out == Failed(NameError("X"))
    ensures |train| > w && Width(train) <= LabelColumn ==> out == Failed(IndexError(LabelColumn))
    ensures out.Built? ==> |out.x| == |out.y| == |train| - w
    ensures out.Built? ==> forall k :: 0 <= k < |out.x| ==>
      out.x[k] == Window(train, k, w) && out.y[k] == train[k + w][LabelColumn]
  {
    var x: seq<seq<seq<real>>> := [];
    var y: seq<real> := [];
    var bound := false;
    var i := w;
    while i < |train|
      invariant w <= i && (i <= |train| || i == w)
      invariant bound <==> i > w
      invariant bound ==> Width(train) > LabelColumn
      invariant |x| == |y| == i - w
      invariant forall k :: 0 <= k < |x| ==>
        k + w < |train| && Width(train) > LabelColumn &&
        x[k] == Window(train, k, w) && y[k] == train[k + w][LabelColumn]
    {
      if |train[i]| <= LabelColumn {
        return Failed(IndexError(LabelColumn));
      }
      x := x + [Window(train, i - w, w)];
      y := y + [train[i][LabelColumn]];
      bound := true;
      i := i + 1;
    }
    if !bound {
      return Failed(NameError("X"));
    }
    out := Built(x, y);
  }

  /**
   * Lines 82-101 with the script's `i_len = 10621 * 3`: a table of more than
   * 31863 rows and at least 18 columns gives exactly `L - 31863` samples of
   * 31863 x 17 values, sample `k` being rows `k .. k + 31862` and labelled by
   * the row right after it; a narrower table raises at line 91.
   */
  method ScriptSamples(train: seq<seq<real>>) returns (out: Outcome)
    requires IsMatrix(train)
    ensures |train| > 31863 && Width(train) >= 18 ==>
      out.Built? && |out.x| == |out.y| == |train| - 31863 &&
      forall k :: 0 <= k < |out.x| ==>
        |out.x[k]| == 31863 && (forall r :: 0 <= r < 31863 ==> |out.x[k][r]| == 17) &&
        out.x[k] == Window(train, k, WindowLength) && out.y[k] == train[k + WindowLength][LabelColumn]
    ensures |train| > 31863 && Width(train) < 18 ==> out == Failed(IndexError(17))
    ensures |train| <= 31863 ==> out == Failed(NameError("X"))
  {
    out := SlidingWindows(train, WindowLength);
  }

  /** Consecutive samples overlap: sample `k + 1` is sample `k` moved down by one row. */
  lemma {:induction false} WindowShift(m: seq<seq<real>>, k: nat, w: nat)
    requires w >= 1 && k + 1 + w <= |m|
    requires forall i :: k <= i < k + 1 + w ==> |m[i]| >= FeatureCount
    ensures Window(m, k + 1, w)[..w - 1] == Window(m, k, w)[1..]
    ensures Window(m, k + 1, w)[w - 1] == m[k + w][..FeatureCount]
  {
    var next, prev := Window(m, k + 1, w), Window(m, k, w);
    assert |next[..w - 1]| == |prev[1..]|;
    forall r | 0 <= r < w - 1 ensures next[..w - 1][r] == prev[1..][r] {
      assert next[r] == m[k + 1 + r][..FeatureCount];
      assert prev[r + 1] == m[k + (r + 1)][..FeatureCount];
    }
  }
}
