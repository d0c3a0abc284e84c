/** The pure parts of `load` in icu_features/load.py: the split predicate on
    the patient hash, the list of columns to read, the row filter, the
    canonical sort by `(dataset, stay_id_hash, time_hours)` and the shape of
    the returned tuple. The feature tables arrive as record sequences, one
    per source, instead of being read from parquet files. */
module Loader {
  import opened Wrappers
  import opened Errors
  import Strings
  import FeatureNames

  // ---------------------------------------------------------------------
  // The split predicate on `patient_id_hash`
  // ---------------------------------------------------------------------

  /** A half-open interval `lo <= h < hi`; a missing bound does not constrain. */
  datatype HashRange = HashRange(lo: Option<real>, hi: Option<real>)

  predicate InRange(range: HashRange, h: real) {
    (range.lo.None? || range.lo.value <= h) && (range.hi.None? || h < range.hi.value)
  }

  /** Upper end of the training patients' hash range. */
  const TrainEnd: real := 0.7
  /** Upper end of the validation patients' hash range. */
  const ValEnd: real := 0.85

  predicate ValidSplit(split: string) {
    split in {"train", "val", "test", "train_val"}
  }

  /** The hash condition a split adds to the filter, or the error for an unknown split. */
  function SplitRange(split: Option<string>): (r: Result<HashRange, Error>)
    ensures r.Failure? <==> split.Some? && !ValidSplit(split.value)
    ensures r.Failure? ==> r.error == InvalidSplit(split.value)
    ensures split.None? ==> r.Success? && forall h :: InRange(r.value, h)
  {
    match split
    case None => Success(HashRange(None, None))
    case Some(s) =>
      if s == "train" then Success(HashRange(None, Some(TrainEnd)))
      else if s == "val" then Success(HashRange(Some(TrainEnd), Some(ValEnd)))
      else if s == "test" then Success(HashRange(Some(ValEnd), None))
      else if s == "train_val" then Success(HashRange(None, Some(ValEnd)))
      else Failure(InvalidSplit(s))
  }

  /** The patient hash `h` belongs to the named split. */
  predicate InSplit(split: string, h: real)
    requires ValidSplit(split)
  {
    InRange(SplitRange(Some(split)).value, h)
  }

  /** The four splits as intervals of the hash. */
  lemma SplitIntervals(h: real)
    ensures InSplit("train", h) <==> h < 7.0 / 10.0
    ensures InSplit("val", h) <==> 7.0 / 10.0 <= h < 85.0 / 100.0
    ensures InSplit("test", h) <==> h >= 85.0 / 100.0
    ensures InSplit("train_val", h) <==> h < 85.0 / 100.0
  {
  }

  /** Every hash lies in exactly one of train, val and test, and train_val is train or val. */
  lemma SplitsPartition(h: real)
    ensures InSplit("train", h) || InSplit("val", h) || InSplit("test", h)
    ensures !(InSplit("train", h) && InSplit("val", h))
    ensures !(InSplit("train", h) && InSplit("test", h))
    ensures !(InSplit("val", h) && InSplit("test", h))
    ensures InSplit("train_val", h) <==> InSplit("train", h) || InSplit("val", h)
  {
    SplitIntervals(h);
  }

  // ---------------------------------------------------------------------
  // Records and the row filter
  // ---------------------------------------------------------------------

  /** A cell of a feature table. */
  datatype Value = Null | Num(number: real) | Str(text: string)

  /** One row of a feature table: the key columns, the split hash, and every
      other column by name. */
  datatype Record = Record(
    dataset: string,
    stayIdHash: int,
    timeHours: real,
    patientIdHash: real,
    cells: map<string, Value>)

  /** The value of column `column` in `rec`; a column the row lacks reads as null. */
  function Cell(rec: Record, column: string): Value {
    if column == "dataset" then Str(rec.dataset)
    else if column == "stay_id_hash" then Num(rec.stayIdHash as real)
    else if column == "time_hours" then Num(rec.timeHours)
    else if column == "patient_id_hash" then Num(rec.patientIdHash)
    else if column in rec.cells then rec.cells[column]
    else Null
  }

  /** The filter: the outcome is not null and the patient hash is in the split. */
  predicate Keep(rec: Record, outcome: string, range: HashRange) {
    Cell(rec, outcome) != Null && InRange(range, rec.patientIdHash)
  }

  /** The records of all sources, source by source. */
  function Flatten(tables: seq<seq<Record>>): (rows: seq<Record>)
    ensures forall x :: multiset(rows)[x] == Total(tables, x)
  {
    if |tables| == 0 then [] else tables[0] + Flatten(tables[1..])
  }

  /** How often `x` occurs across all sources. */
  function Total(tables: seq<seq<Record>>, x: Record): nat {
    if |tables| == 0 then 0 else multiset(tables[0])[x] + Total(tables[1..], x)
  }

  /** The records that pass the filter, each as often as it occurs. */
  function Matching(rows: seq<Record>, outcome: string, range: HashRange): (r: seq<Record>)
    ensures forall x :: multiset(r)[x] == if Keep(x, outcome, range) then multiset(rows)[x] else 0
  {
    if |rows| == 0 then []
    else
      assert rows == [rows[0]] + rows[1..];
      var rest := Matching(rows[1..], outcome, range);
      if Keep(rows[0], outcome, range) then [rows[0]] + rest else rest
  }

  /** The columns a record holds as fields rather than as cells. */
  predicate FieldColumn(column: string) {
    column in {"dataset", "stay_id_hash", "time_hours", "patient_id_hash"}
  }

  /** Reading only `columns`: cells outside them are dropped. */
  function Project(rec: Record, columns: seq<string>): (r: Record)
    ensures forall c :: c in columns ==> Cell(r, c) == Cell(rec, c)
    ensures forall c :: c !in columns && !FieldColumn(c) ==> Cell(r, c) == Null
    ensures r.dataset == rec.dataset && r.stayIdHash == rec.stayIdHash && r.timeHours == rec.timeHours
    ensures r.patientIdHash == rec.patientIdHash
  {
    rec.(cells := map c | c in rec.cells && c in columns :: rec.cells[c])
  }

  function ProjectAll(rows: seq<Record>, columns: seq<string>): (r: seq<Record>)
    ensures |r| == |rows|
    ensures forall i :: 0 <= i < |rows| ==> r[i] == Project(rows[i], columns)
  {
    if |rows| == 0 then [] else [Project(rows[0], columns)] + ProjectAll(rows[1..], columns)
  }

  // ---------------------------------------------------------------------
  // The columns to read
  // ---------------------------------------------------------------------

  /** The columns read whatever `other_columns` holds: the features, the
      outcome, the two key columns, and `time_hours` when the features lack it. */
  function FixedColumns(columns: seq<string>, outcome: string): (base: seq<string>)
    ensures |base| >= |columns| + 3
    ensures base[..|columns| + 3] == columns + [outcome, "dataset", "stay_id_hash"]
    ensures "time_hours" in base
  {
    var base := columns + [outcome, "dataset", "stay_id_hash"];
    if "time_hours" !in columns then base + ["time_hours"] else base
  }

  /** The entries of `others` not in `present`, in their order; repeats within
      `others` are all kept, since the comprehension tests against the list
      as it was before it is extended. */
  function Absent(others: seq<string>, present: seq<string>): (r: seq<string>)
    ensures forall i :: 0 <= i < |r| ==> r[i] in others && r[i] !in present
    ensures forall c :: c in others && c !in present ==> c in r
    ensures forall c :: multiset(r)[c] == if c in present then 0 else multiset(others)[c]
  {
    if |others| == 0 then []
    else
      assert others == [others[0]] + others[1..];
      if others[0] in present then Absent(others[1..], present)
      else [others[0]] + Absent(others[1..], present)
  }

  /** `columns_to_load`. */
  function ColumnsToLoad(columns: seq<string>, outcome: string, others: seq<string>): (r: seq<string>)
    ensures |r| >= |columns| + 3
    ensures r[..|columns| + 3] == columns + [outcome, "dataset", "stay_id_hash"]
    ensures "time_hours" !in columns <==> |r| > |columns| + 3 && r[|columns| + 3] == "time_hours"
    ensures r[..|FixedColumns(columns, outcome)|] == FixedColumns(columns, outcome)
    ensures forall i :: |FixedColumns(columns, outcome)| <= i < |r| ==>
              r[i] in others && r[i] !in FixedColumns(columns, outcome)
    ensures forall c :: c in columns || c in others ==> c in r
    ensures forall c :: multiset(r[|FixedColumns(columns, outcome)|..])[c]
                        == if c in FixedColumns(columns, outcome) then 0 else multiset(others)[c]
    ensures outcome in r && "dataset" in r && "stay_id_hash" in r && "time_hours" in r
  {
    var base := FixedColumns(columns, outcome);
    var r := base + Absent(others, base);
    assert r[..|base|] == base;
    assert r[|base|..] == Absent(others, base);
    assert forall c :: c in base ==> c in r;
    assert outcome == base[|columns|] && "dataset" == base[|columns| + 1] && "stay_id_hash" == base[|columns| + 2];
    assert forall c :: c in columns ==> c in base by {
      forall c | c in columns ensures c in base {
        var i :| 0 <= i < |columns| && columns[i] == c;
        assert base[i] == c;
      }
    }
    r
  }

  // ---------------------------------------------------------------------
  // The canonical row order
  // ---------------------------------------------------------------------

  /** `a` may precede `b` when sorting by `(dataset, stay_id_hash, time_hours)`. */
  predicate KeyLe(a: Record, b: Record) {
    Strings.StrLt(a.dataset, b.dataset)
    || (a.dataset == b.dataset
        && (a.stayIdHash < b.stayIdHash
            || (a.stayIdHash == b.stayIdHash && a.timeHours <= b.timeHours)))
  }

  predicate SortedByKey(rows: seq<Record>) {
    forall i, j :: 0 <= i < j < |rows| ==> KeyLe(rows[i], rows[j])
  }

  lemma KeyLeTotal(a: Record, b: Record)
    ensures KeyLe(a, b) || KeyLe(b, a)
  {
    if a.dataset != b.dataset {
      Strings.StrLtTotal(a.dataset, b.dataset);
    }
  }

  lemma KeyLeTransitive(a: Record, b: Record, c: Record)
    requires KeyLe(a, b) && KeyLe(b, c)
    ensures KeyLe(a, c)
  {
    if Strings.StrLt(a.dataset, b.dataset) && Strings.StrLt(b.dataset, c.dataset) {
      Strings.StrLtTransitive(a.dataset, b.dataset, c.dataset);
    }
  }

  lemma PrependSorted(h: Record, s: seq<Record>)
    requires SortedByKey(s)
    requires forall y :: y in s ==> KeyLe(h, y)
    ensures SortedByKey([h] + s)
  {
    var r := [h] + s;
    forall i, j | 0 <= i < j < |r| ensures KeyLe(r[i], r[j]) {
      if i == 0 {
        assert r[j] in s;
      } else {
        assert r[i] == s[i - 1] && r[j] == s[j - 1];
      }
    }
  }

  lemma HeadBelowAll(x: Record, s: seq<Record>)
    requires SortedByKey(s) && |s| > 0 && KeyLe(x, s[0])
    ensures forall y :: y in s ==> KeyLe(x, y)
  {
    forall y | y in s ensures KeyLe(x, y) {
      var j :| 0 <= j < |s| && s[j] == y;
      if j > 0 { KeyLeTransitive(x, s[0], s[j]); }
    }
  }

  lemma InsertedAboveHead(x: Record, s: seq<Record>, rest: seq<Record>)
    requires SortedByKey(s) && |s| > 0 && !KeyLe(x, s[0])
    requires multiset(rest) == multiset(s[1..]) + multiset{x}
    ensures forall y :: y in rest ==> KeyLe(s[0], y)
  {
    KeyLeTotal(x, s[0]);
    forall y | y in rest ensures KeyLe(s[0], y) {
      assert y in multiset(rest);
      if y != x {
        assert y in multiset(s[1..]);
        var j :| 0 <= j < |s| - 1 && s[1..][j] == y;
        assert s[j + 1] == y;
      }
    }
  }

  function InsertByKey(x: Record, s: seq<Record>): (r: seq<Record>)
    requires SortedByKey(s)
    ensures SortedByKey(r)
    ensures multiset(r) == multiset(s) + multiset{x}
    decreases |s|
  {
    if |s| == 0 then [x]
    else if KeyLe(x, s[0]) then
      HeadBelowAll(x, s);
      PrependSorted(x, s);
      [x] + s
    else
      var rest := InsertByKey(x, s[1..]);
      assert s == [s[0]] + s[1..];
      InsertedAboveHead(x, s, rest);
      PrependSorted(s[0], rest);
      [s[0]] + rest
  }

  /** The rows ordered by `(dataset, stay_id_hash, time_hours)`. Rows with
      equal keys may come in any order. */
  function SortByKey(s: seq<Record>): (r: seq<Record>)
    ensures SortedByKey(r)
    ensures multiset(r) == multiset(s)
    decreases |s|
  {
    if |s| == 0 then []
    else
      assert s == [s[0]] + s[1..];
      InsertByKey(s[0], SortByKey(s[1..]))
  }

  // ---------------------------------------------------------------------
  // load
  // ---------------------------------------------------------------------

  /** A table with its selected column names. */
  datatype Frame = Frame(columns: seq<string>, rows: seq<Record>)

  /** One component of the tuple `load` returns. */
  datatype Output =
    | FeatureFrame(frame: Frame)
    | OutcomeVector(values: seq<Value>)
    | Series(name: string, values: seq<Value>)

  /** Column `c` of every row, in row order. */
  function Column(rows: seq<Record>, c: string): (values: seq<Value>)
    ensures |values| == |rows|
    ensures forall i :: 0 <= i < |rows| ==> values[i] == Cell(rows[i], c)
  {
    seq(|rows|, i requires 0 <= i < |rows| => Cell(rows[i], c))
  }

  /** The rows `load` returns: the filtered records of all sources, read
      with `toLoad` only, in canonical order. */
  function LoadedRows(tables: seq<seq<Record>>, outcome: string, range: HashRange, toLoad: seq<string>): (rows: seq<Record>)
    requires outcome in toLoad
    ensures SortedByKey(rows)
    ensures multiset(rows) == multiset(ProjectAll(Matching(Flatten(tables), outcome, range), toLoad))
    ensures forall i :: 0 <= i < |rows| ==> Cell(rows[i], outcome) != Null && InRange(range, rows[i].patientIdHash)
  {
    var matching := Matching(Flatten(tables), outcome, range);
    var projected := ProjectAll(matching, toLoad);
    var rows := SortByKey(projected);
    assert forall i :: 0 <= i < |rows| ==> Cell(rows[i], outcome) != Null && InRange(range, rows[i].patientIdHash) by {
      forall i | 0 <= i < |rows|
        ensures Cell(rows[i], outcome) != Null && InRange(range, rows[i].patientIdHash)
      {
        assert rows[i] in multiset(projected);
        var k :| 0 <= k < |projected| && projected[k] == rows[i];
        assert matching[k] in multiset(matching);
        assert Keep(matching[k], outcome, range);
      }
    }
    rows
  }

  /** The returned tuple: the feature columns, the outcome vector, then one
      series per entry of `other_columns`. */
  function Assemble(columns: seq<string>, rows: seq<Record>, outcome: string, others: seq<string>): (out: seq<Output>)
    ensures |out| == 2 + |others|
    ensures out[0] == FeatureFrame(Frame(columns, rows))
    ensures out[1] == OutcomeVector(Column(rows, outcome))
    ensures forall k :: 0 <= k < |others| ==> out[2 + k] == Series(others[k], Column(rows, others[k]))
  {
    var series := seq(|others|, k requires 0 <= k < |others| => Series(others[k], Column(rows, others[k])));
    [FeatureFrame(Frame(columns, rows)), OutcomeVector(Column(rows, outcome))] + series
  }

  /** `load(sources, outcome, data_dir, split, variables, ..., other_columns)`,
      with the sources' feature tables given as `tables`. */
  function Load(
    tables: seq<seq<Record>>,
    outcome: string,
    split: Option<string>,
    reference: seq<FeatureNames.Row>,
    variables: Option<seq<string>>,
    args: FeatureNames.Args,
    otherColumns: Option<seq<string>>): (r: Result<seq<Output>, Error>)
    ensures split.Some? && !ValidSplit(split.value) ==> r == Failure(InvalidSplit(split.value))
    ensures (split.None? || ValidSplit(split.value)) ==>
              var features := FeatureNames.Features(reference, variables, FeatureNames.Resolve(args));
              && (r.Failure? <==> features.Failure?)
              && (r.Failure? ==> r.error == features.error)
    ensures r.Success? ==>
              var others := otherColumns.GetOr([]);
              var features := FeatureNames.Features(reference, variables, FeatureNames.Resolve(args)).value;
              var range := SplitRange(split).value;
              var out := r.value;
              && |out| == 2 + |others|
              && out[0].FeatureFrame? && out[1].OutcomeVector?
              && out[0].frame.columns == features
              && SortedByKey(out[0].frame.rows)
              && multiset(out[0].frame.rows)
                 == multiset(ProjectAll(Matching(Flatten(tables), outcome, range), ColumnsToLoad(features, outcome, others)))
              && |out[1].values| == |out[0].frame.rows|
              && (forall i :: 0 <= i < |out[1].values| ==>
                    out[1].values[i] != Null && out[1].values[i] == Cell(out[0].frame.rows[i], outcome))
              && (forall k :: 0 <= k < |others| ==>
                    out[2 + k] == Series(others[k], Column(out[0].frame.rows, others[k])))
  {
    var range :- SplitRange(split);
    var columns :- FeatureNames.Features(reference, variables, FeatureNames.Resolve(args));
    var others := otherColumns.GetOr([]);
    var toLoad := ColumnsToLoad(columns, outcome, others);
    var rows := LoadedRows(tables, outcome, range, toLoad);
    Success(Assemble(columns, rows, outcome, others))
  }
}
