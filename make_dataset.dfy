/**
 * The ingestion stage, src/data/make_dataset.py: download the workbook unless
 * it is already on disk, then write one CSV per sheet unless that CSV already
 * exists. The filesystem is the set of paths that exist; the workbook is the
 * sequence of its sheets, each a name and the rows read from it.
 */
module MakeDataset {
  import opened Cells

  // ---------------------------------------------------------------------------
  // Paths
  // ---------------------------------------------------------------------------

  /** `os.path.join(a, b)` on POSIX. */
  function Join(a: string, b: string): (r: string)
    ensures |b| > 0 && b[0] == '/' ==> r == b
    ensures !(|b| > 0 && b[0] == '/') ==> |r| >= |a| && r[..|a|] == a
    ensures |r| >= |b| && r[|r| - |b|..] == b
  {
    if |b| > 0 && b[0] == '/' then b
    else if a == [] || a[|a| - 1] == '/' then a + b
    else a + "/" + b
  }

  /** `s.replace(pat, rep)`: every non-overlapping occurrence, left to right. */
  function ReplaceAll(s: string, pat: string, rep: string): string
    decreases |s|
  {
    if pat == [] then
      (if s == [] then rep else rep + [s[0]] + ReplaceAll(s[1..], pat, rep))
    else if |s| < |pat| then s
    else if s[..|pat|] == pat then rep + ReplaceAll(s[|pat|..], pat, rep)
    else [s[0]] + ReplaceAll(s[1..], pat, rep)
  }

  /** A string that does not contain the pattern comes back unchanged. */
  lemma {:induction false} ReplaceAllAbsent(s: string, pat: string, rep: string)
    requires !IsSubstring(pat, s)
    ensures ReplaceAll(s, pat, rep) == s
    decreases |s|
  {
    assert pat != [] by {
      if pat == [] {
        assert OccursAt(pat, s, 0);
      }
    }
    if |s| >= |pat| {
      assert s[..|pat|] != pat by {
        if s[..|pat|] == pat {
          assert OccursAt(pat, s, 0);
        }
      }
      assert !IsSubstring(pat, s[1..]) by {
        if IsSubstring(pat, s[1..]) {
          var i: nat :| i <= |s[1..]| && OccursAt(pat, s[1..], i);
          assert s[1..][i..i + |pat|] == s[i + 1..i + 1 + |pat|];
          assert OccursAt(pat, s, i + 1);
        }
      }
      ReplaceAllAbsent(s[1..], pat, rep);
    }
  }

  /** A prefix that does not contain the pattern's first character passes through unchanged. */
  lemma {:induction false} ReplaceAllSkip(a: string, s: string, pat: string, rep: string)
    requires pat != [] && pat[0] !in a
    ensures ReplaceAll(a + s, pat, rep) == a + ReplaceAll(s, pat, rep)
    decreases |a|
  {
    if a != [] {
      assert (a + s)[0] == a[0] && (a + s)[1..] == a[1..] + s;
      if |a + s| >= |pat| {
        assert (a + s)[..|pat|][0] == a[0];
      }
      ReplaceAllSkip(a[1..], s, pat, rep);
      assert a == [a[0]] + a[1..];
    } else {
      assert a + s == s;
    }
  }

  /** The first occurrence, after a prefix free of the pattern's first character, is replaced. */
  lemma ReplaceAllFirst(a: string, s: string, pat: string, rep: string)
    requires pat != [] && pat[0] !in a
    ensures ReplaceAll(a + pat + s, pat, rep) == a + rep + ReplaceAll(s, pat, rep)
  {
    ReplaceAllSkip(a, pat + s, pat, rep);
    assert a + pat + s == a + (pat + s);
    assert (pat + s)[..|pat|] == pat && (pat + s)[|pat|..] == s;
  }

  /** A name with no `/` that does not start with `raw`, after a `/`, holds no `/raw`. */
  lemma ReplaceRawAbsent(stem: string)
    requires '/' !in stem && (|stem| < 3 || stem[..3] != "raw")
    ensures ReplaceAll("/" + stem, "/raw", "/interim") == "/" + stem
  {
    var s := "/" + stem;
    if |s| >= 4 {
      assert s[..4] != "/raw" by {
        assert s[..4][1..] == stem[..3];
      }
      assert s[1..] == stem;
    }
    ReplaceAllSkip(stem, [], "/raw", "/interim");
    assert stem + [] == stem;
  }

  /** Line 64: the base of the CSV names, with `.xlsb` removed and `/raw` turned into `/interim`. */
  function CsvBase(rawPath: string, filename: string): string {
    ReplaceAll(ReplaceAll(Join(rawPath, filename), ".xlsb", ""), "/raw", "/interim")
  }

  /** Line 70: `'{}_{}.csv'.format(base, sheetname)`. */
  function CsvPath(base: string, sheet: string): (r: string)
    ensures |r| == |base| + |sheet| + 5
    ensures r[..|base|] == base && r[|base|] == '_' && r[|base| + 1..|base| + 1 + |sheet|] == sheet
    ensures r[|r| - 4..] == ".csv"
  {
    base + "_" + sheet + ".csv"
  }

  /** Distinct sheets get distinct files. */
  lemma CsvPathInjective(base: string, s1: string, s2: string)
    requires CsvPath(base, s1) == CsvPath(base, s2)
    ensures s1 == s2
  {
    var p := CsvPath(base, s1);
    assert |s1| == |s2|;
    assert s1 == p[|base| + 1..|base| + 1 + |s1|] == s2;
  }

  // The script's constants (lines 92-94).
  const Url := "https://s3.amazonaws.com/video.udacity-data.com/topher/2018/October/5bbfaf8a_ambev-final-dataset/ambev-final-dataset.xlsb"
  const FileName := "ambev-final-dataset.xlsb"
  const RawPath := "data/raw/"

  /**
   * For a workbook `<stem>.xlsb` kept in `<root>/raw/`, the CSVs are named
   * after `<root>/interim/<stem>`, provided neither name holds a `.` or a `/`
   * and the stem does not start with `raw`.
   */
  lemma CsvBaseShape(root: string, stem: string)
    requires '/' !in root && '.' !in root && '/' !in stem && '.' !in stem
    requires |stem| < 3 || stem[..3] != "raw"
    ensures CsvBase(root + "/raw/", stem + ".xlsb") == root + "/interim/" + stem
  {
    var dir := root + "/raw/";
    assert dir[|dir| - 1] == '/';
    assert (stem + ".xlsb")[0] != '/' by {
      if stem != [] {
        assert stem[0] in stem;
      }
    }
    var noExt := root + "/raw/" + stem;
    assert Join(dir, stem + ".xlsb") == noExt + ".xlsb" + [];
    ReplaceAllFirst(noExt, [], ".xlsb", "");
    assert ReplaceAll([], ".xlsb", "") == [];
    assert noExt + "" + [] == noExt;
    assert noExt == root + "/raw" + ("/" + stem);
    ReplaceAllFirst(root, "/" + stem, "/raw", "/interim");
    ReplaceRawAbsent(stem);
    assert root + "/interim" + ("/" + stem) == root + "/interim/" + stem;
  }

  /** With the script's constants the CSVs are named after `data/interim/ambev-final-dataset`. */
  lemma ScriptCsvBase()
    ensures CsvBase(RawPath, FileName) == "data/interim/ambev-final-dataset"
  {
    var root, stem := ScriptNames();
    CsvBaseShape(root, stem);
  }

  /** The script's directory and file name split as `CsvBaseShape` expects. */
  lemma ScriptNames() returns (root: string, stem: string)
    ensures '/' !in root && '.' !in root && '/' !in stem && '.' !in stem
    ensures |stem| < 3 || stem[..3] != "raw"
    ensures RawPath == root + "/raw/" && FileName == stem + ".xlsb"
    ensures root + "/interim/" + stem == "data/interim/ambev-final-dataset"
  {
    root, stem := "data", "ambev-final-dataset";
    assert stem[..3][0] != "raw"[0];
  }

  /** With the script's constants, sheet `s` is written to `data/interim/ambev-final-dataset_<s>.csv`. */
  lemma ScriptCsvPath(sheet: string)
    ensures CsvPath(CsvBase(RawPath, FileName), sheet) == "data/interim/ambev-final-dataset_" + sheet + ".csv"
  {
    ScriptCsvBase();
    var base := CsvBase(RawPath, FileName);
    assert CsvPath(base, sheet) == (base + "_") + sheet + ".csv";
    assert base + "_" == "data/interim/ambev-final-dataset_";
  }

  /** The file the feature step reads (src/features/build_features.py:140) is the one written for the sheet `AmBev_final_dataset`, and for no other sheet. */
  lemma FeatureInputIsSheetCsv(sheet: string)
    ensures CsvPath(CsvBase(RawPath, FileName), sheet) == "data/interim/ambev-final-dataset_AmBev_final_dataset.csv"
      <==> sheet == "AmBev_final_dataset"
  {
    var base := CsvBase(RawPath, FileName);
    ScriptCsvBase();
    FeatureInputPath(base);
    if CsvPath(base, sheet) == CsvPath(base, "AmBev_final_dataset") {
      CsvPathInjective(base, sheet, "AmBev_final_dataset");
    }
  }

  lemma FeatureInputPath(base: string)
    requires base == "data/interim/ambev-final-dataset"
    ensures CsvPath(base, "AmBev_final_dataset") == "data/interim/ambev-final-dataset_AmBev_final_dataset.csv"
  {
  }

  // ---------------------------------------------------------------------------
  // check_download (lines 35-53)
  // ---------------------------------------------------------------------------

  datatype Download = Download(url: string, target: string)

  /** The download check_download performs: none when the target file exists, else `url` to `join(raw_path, filename)`. */
  function CheckDownload(fs: set<string>, url: string, rawPath: string, filename: string): (d: Option<Download>)
    ensures d.None? <==> Join(rawPath, filename) in fs
    ensures d.Some? ==> d.value == Download(url, Join(rawPath, filename))
  {
    var rawFile := Join(rawPath, filename);
    if rawFile in fs then None else Some(Download(url, rawFile))
  }

  /** The paths that exist after a download. */
  function AfterDownload(fs: set<string>, d: Option<Download>): (r: set<string>)
    ensures d.Some? ==> r == fs + {d.value.target}
    ensures d.None? ==> r == fs
  {
    if d.Some? then fs + {d.value.target} else fs
  }

  // ---------------------------------------------------------------------------
  // save_to_csv (lines 55-88)
  // ---------------------------------------------------------------------------

  /**
   * One sheet of the workbook: its name and the values of its rows, in order.
   * The reader pads every row to the sheet's width, so the rows share one
   * width and the DataFrame of line 85 never sees a row wider than its header.
   */
  datatype Sheet = Sheet(name: string, rows: seq<seq<Cell>>)

  /** A written CSV: its path, its header row and its data rows. */
  datatype CsvFile = CsvFile(path: string, header: seq<Cell>, body: seq<seq<Cell>>)

  /** What a run of save_to_csv writes, in order, and the exception that stopped it, if any. */
  datatype Conversion = Conversion(written: seq<CsvFile>, error: Option<Error>)

  /** The paths of the files, as a set. */
  function Paths(files: seq<CsvFile>): (r: set<string>)
    ensures forall f :: f in files ==> f.path in r
  {
    if files == [] then {} else {files[0].path} + Paths(files[1..])
  }

  /** The CSV of a sheet with at least one row: the first row is the header, the rest the data. */
  function Converted(base: string, sheet: Sheet): CsvFile
    requires sheet.rows != []
  {
    CsvFile(CsvPath(base, sheet.name), sheet.rows[0], sheet.rows[1..])
  }

  /** The header followed by the data rows gives back the rows read, so there is one data row fewer. */
  lemma ConvertedSplit(base: string, sheet: Sheet)
    requires sheet.rows != []
    ensures [Converted(base, sheet).header] + Converted(base, sheet).body == sheet.rows
    ensures |Converted(base, sheet).body| == |sheet.rows| - 1
    ensures Converted(base, sheet).path == CsvPath(base, sheet.name)
  {
    assert [sheet.rows[0]] + sheet.rows[1..] == sheet.rows;
  }

  /**
   * The sheets in order: a sheet whose CSV exists is skipped; otherwise its
   * rows are read and written, and an empty sheet stops the run with the
   * IndexError of `df[0]`.
   */
  function Plan(fs: set<string>, base: string, sheets: seq<Sheet>): Conversion
    decreases |sheets|
  {
    if sheets == [] then Conversion([], None)
    else
      var s := sheets[0];
      var path := CsvPath(base, s.name);
      if path in fs then Plan(fs, base, sheets[1..])
      else if s.rows == [] then Conversion([], Some(IndexError(0)))
      else
        var rest := Plan(fs + {path}, base, sheets[1..]);
        Conversion([Converted(base, s)] + rest.written, rest.error)
  }

  /** Only missing files are written, each the conversion of a non-empty sheet of the workbook. */
  lemma {:induction false} PlanWrites(fs: set<string>, base: string, sheets: seq<Sheet>)
    ensures forall f :: f in Plan(fs, base, sheets).written ==> f.path !in fs
    ensures forall f :: f in Plan(fs, base, sheets).written ==>
      exists s :: s in sheets && s.rows != [] && f == Converted(base, s)
    decreases |sheets|
  {
    if sheets != [] {
      var s := sheets[0];
      var path := CsvPath(base, s.name);
      assert s in sheets;
      forall t | t in sheets[1..] ensures t in sheets {
      }
      if path in fs {
        PlanWrites(fs, base, sheets[1..]);
      } else if s.rows != [] {
        PlanWrites(fs + {path}, base, sheets[1..]);
      }
    }
  }

  /** No two files share a path. */
  predicate DistinctPaths(files: seq<CsvFile>) {
    forall i, j :: 0 <= i < j < |files| ==> files[i].path != files[j].path
  }

  /** Each file is written at most once. */
  lemma {:induction false} PlanWritesOnce(fs: set<string>, base: string, sheets: seq<Sheet>)
    ensures DistinctPaths(Plan(fs, base, sheets).written)
    decreases |sheets|
  {
    if sheets != [] {
      var path := CsvPath(base, sheets[0].name);
      if path in fs {
        PlanWritesOnce(fs, base, sheets[1..]);
        assert Plan(fs, base, sheets) == Plan(fs, base, sheets[1..]);
      } else if sheets[0].rows != [] {
        PlanWritesOnce(fs + {path}, base, sheets[1..]);
        PlanWrites(fs + {path}, base, sheets[1..]);
        var w := Plan(fs, base, sheets).written;
        var rest := Plan(fs + {path}, base, sheets[1..]).written;
        assert w == [Converted(base, sheets[0])] + rest;
        forall i, j | 0 <= i < j < |w| ensures w[i].path != w[j].path {
          assert w[j] == rest[j - 1] && w[j] in rest;
          if i > 0 {
            assert w[i] == rest[i - 1];
          } else {
            assert w[i].path == path;
          }
        }
      }
    }
  }

  /** The run fails exactly when it reaches an empty sheet; one whose CSV already exists is never read. */
  lemma {:induction false} PlanError(fs: set<string>, base: string, sheets: seq<Sheet>)
    ensures Plan(fs, base, sheets).error.Some? ==>
      Plan(fs, base, sheets).error == Some(IndexError(0)) &&
      exists s :: s in sheets && s.rows == [] && CsvPath(base, s.name) !in fs
    ensures (forall s :: s in sheets ==> s.rows != [] || CsvPath(base, s.name) in fs) ==>
      Plan(fs, base, sheets).error.None?
    decreases |sheets|
  {
    if sheets != [] {
      var s := sheets[0];
      var path := CsvPath(base, s.name);
      assert s in sheets;
      if path in fs {
        PlanError(fs, base, sheets[1..]);
      } else if s.rows != [] {
        PlanError(fs + {path}, base, sheets[1..]);
      }
      forall t | t in sheets[1..] ensures t in sheets {
      }
    }
  }

  /** After a complete run every sheet has its CSV. */
  lemma {:induction false} PlanCoversSheets(fs: set<string>, base: string, sheets: seq<Sheet>)
    requires Plan(fs, base, sheets).error.None?
    ensures forall s :: s in sheets ==> CsvPath(base, s.name) in fs + Paths(Plan(fs, base, sheets).written)
    decreases |sheets|
  {
    if sheets != [] {
      var path := CsvPath(base, sheets[0].name);
      var r := Plan(fs, base, sheets);
      if path in fs {
        PlanCoversSheets(fs, base, sheets[1..]);
      } else {
        var rest := Plan(fs + {path}, base, sheets[1..]);
        PlanCoversSheets(fs + {path}, base, sheets[1..]);
        assert r.written == [Converted(base, sheets[0])] + rest.written;
        assert r.written[0].path == path;
        assert Paths(r.written) == {path} + Paths(rest.written);
      }
      assert sheets == [sheets[0]] + sheets[1..];
    }
  }

  /** When every sheet's CSV exists, nothing is read and nothing is written. */
  lemma {:induction false} PlanNothingToDo(fs: set<string>, base: string, sheets: seq<Sheet>)
    requires forall s :: s in sheets ==> CsvPath(base, s.name) in fs
    ensures Plan(fs, base, sheets) == Conversion([], None)
    decreases |sheets|
  {
    if sheets != [] {
      assert sheets[0] in sheets;
      forall t | t in sheets[1..] ensures CsvPath(base, t.name) in fs {
        assert t in sheets;
      }
      PlanNothingToDo(fs, base, sheets[1..]);
    }
  }

  /** Re-running the conversion after a complete run writes nothing. */
  lemma PlanRerun(fs: set<string>, base: string, sheets: seq<Sheet>)
    requires Plan(fs, base, sheets).error.None?
    ensures Plan(fs + Paths(Plan(fs, base, sheets).written), base, sheets) == Conversion([], None)
  {
    PlanCoversSheets(fs, base, sheets);
    PlanNothingToDo(fs + Paths(Plan(fs, base, sheets).written), base, sheets);
  }

  /** A conversion preceded by the files already written. */
  function Prepend(files: seq<CsvFile>, c: Conversion): Conversion {
    Conversion(files + c.written, c.error)
  }

  /** A sheet whose CSV exists is skipped. */
  lemma PlanSkip(all: Conversion, files: seq<CsvFile>, fs: set<string>, base: string, sheets: seq<Sheet>, n: nat)
    requires n < |sheets| && CsvPath(base, sheets[n].name) in fs
    requires all == Prepend(files, Plan(fs, base, sheets[n..]))
    ensures all == Prepend(files, Plan(fs, base, sheets[n + 1..]))
  {
    assert sheets[n..][0] == sheets[n] && sheets[n..][1..] == sheets[n + 1..];
  }

  /** An empty sheet whose CSV is missing stops the run. */
  lemma PlanStop(all: Conversion, files: seq<CsvFile>, fs: set<string>, base: string, sheets: seq<Sheet>, n: nat)
    requires n < |sheets| && CsvPath(base, sheets[n].name) !in fs && sheets[n].rows == []
    requires all == Prepend(files, Plan(fs, base, sheets[n..]))
    ensures all == Conversion(files, Some(IndexError(0)))
  {
    assert sheets[n..][0] == sheets[n];
    assert files + [] == files;
  }

  /** A non-empty sheet whose CSV is missing is written, and the path then exists. */
  lemma PlanWrite(all: Conversion, files: seq<CsvFile>, fs: set<string>, base: string, sheets: seq<Sheet>, n: nat)
    requires n < |sheets| && CsvPath(base, sheets[n].name) !in fs && sheets[n].rows != []
    requires all == Prepend(files, Plan(fs, base, sheets[n..]))
    ensures all == Prepend(files + [Converted(base, sheets[n])],
      Plan(fs + {CsvPath(base, sheets[n].name)}, base, sheets[n + 1..]))
  {
    assert sheets[n..][0] == sheets[n] && sheets[n..][1..] == sheets[n + 1..];
    var rest := Plan(fs + {CsvPath(base, sheets[n].name)}, base, sheets[n + 1..]);
    assert files + ([Converted(base, sheets[n])] + rest.written) == (files + [Converted(base, sheets[n])]) + rest.written;
  }

  lemma {:induction false} PathsSnoc(files: seq<CsvFile>, f: CsvFile)
    ensures Paths(files + [f]) == Paths(files) + {f.path}
  {
    if files != [] {
      assert (files + [f])[0] == files[0] && (files + [f])[1..] == files[1..] + [f];
      PathsSnoc(files[1..], f);
    } else {
      assert files + [f] == [f];
    }
  }

  /** Lines 75-80: the values of the sheet's rows, read one row at a time. */
  method ReadSheet(sheet: Sheet) returns (df: seq<seq<Cell>>)
    ensures df == sheet.rows
  {
    df := [];
    var i := 0;
    while i < |sheet.rows|
      invariant 0 <= i <= |sheet.rows| && df == sheet.rows[..i]
    {
      df := df + [sheet.rows[i]];
      i := i + 1;
    }
    assert sheet.rows[..i] == sheet.rows;
  }

  /**
   * Lines 55-88: `fs` is the set of existing paths and `workbook` the sheets
   * of the xlsb file; returns the CSVs written, in order, the exception that
   * stopped the run, and the paths that exist afterwards.
   */
  method SaveToCsv(fs: set<string>, rawPath: string, filename: string, workbook: seq<Sheet>)
    returns (written: seq<CsvFile>, err: Option<Error>, after: set<string>)
    ensures Conversion(written, err) == Plan(fs, CsvBase(rawPath, filename), workbook)
    ensures after == fs + Paths(written)
  {
    var base := CsvBase(rawPath, filename);
    ghost var all := Plan(fs, base, workbook);
    written, err, after := [], None, fs;
    assert workbook[0..] == workbook;
    var n := 0;
    while n < |workbook|
      invariant 0 <= n <= |workbook|
      invariant after == fs + Paths(written)
      invariant all == Prepend(written, Plan(after, base, workbook[n..]))
    {
      var sheet := workbook[n];
      var csvFile := CsvPath(base, sheet.name);
      if csvFile in after {
        PlanSkip(all, written, after, base, workbook, n);
        n := n + 1;
        continue;
      }
      var df := ReadSheet(sheet);
      if df == [] {
        PlanStop(all, written, after, base, workbook, n);
        err := Some(IndexError(0));
        return;
      }
      var file := CsvFile(csvFile, df[0], df[1..]);
      PlanWrite(all, written, after, base, workbook, n);
      PathsSnoc(written, file);
      written := written + [file];
      after := after + {csvFile};
      n := n + 1;
    }
    assert workbook[n..] == [];
  }

  // ---------------------------------------------------------------------------
  // The script (lines 91-98)
  // ---------------------------------------------------------------------------

  /** What one run of the script does: the download, the conversion, and the paths that exist afterwards. */
  datatype ScriptRun = ScriptRun(download: Option<Download>, conversion: Conversion, after: set<string>)

  function RunScript(fs: set<string>, workbook: seq<Sheet>): (r: ScriptRun)
    ensures r.download.None? <==> Join(RawPath, FileName) in fs
    ensures Join(RawPath, FileName) in r.after
  {
    var d := CheckDownload(fs, Url, RawPath, FileName);
    var present := AfterDownload(fs, d);
    var c := Plan(present, CsvBase(RawPath, FileName), workbook);
    ScriptRun(d, c, present + Paths(c.written))
  }

  /** Both stages are idempotent: after a complete run, running the script again downloads nothing and writes nothing. */
  lemma RunScriptTwice(fs: set<string>, workbook: seq<Sheet>)
    requires RunScript(fs, workbook).conversion.error.None?
    ensures RunScript(RunScript(fs, workbook).after, workbook) == ScriptRun(None, Conversion([], None), RunScript(fs, workbook).after)
  {
    var first := RunScript(fs, workbook);
    var base := CsvBase(RawPath, FileName);
    var present := AfterDownload(fs, first.download);
    PlanCoversSheets(present, base, workbook);
    PlanNothingToDo(first.after, base, workbook);
    assert Paths([]) == {};
  }
}
