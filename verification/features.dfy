/** The feature-name generator `features` of icu_features/load.py: it walks
    the variable reference row by row, dispatches on the variable and data
    type, expands each variable into its feature kinds crossed with the
    horizons, appends `time_hours`, and checks an optional allow-list of
    variable tags by consuming one occurrence per matched row. */
module FeatureNames {
  import opened Wrappers
  import opened Errors
  import Strings
  import Constants

  /** One row of the variable reference. `DataType` stays a string so that
      unknown data types remain representable; `LogTransform` may be null. */
  datatype Row = Row(
    variableTag: string,
    variableType: string,
    dataType: string,
    logTransform: Option<bool>)

  /** The feature kinds and horizons the generator expands with. */
  datatype Config = Config(
    categorical: seq<string>,
    continuous: seq<string>,
    treatmentIndicator: seq<string>,
    treatmentContinuous: seq<string>,
    horizons: seq<int>)

  /** The optional keyword arguments as passed; `None` selects the default. */
  datatype Args = Args(
    categorical: Option<seq<string>>,
    continuous: Option<seq<string>>,
    treatmentIndicator: Option<seq<string>>,
    treatmentContinuous: Option<seq<string>>,
    horizons: Option<seq<int>>)

  const NoArgs: Args := Args(None, None, None, None, None)

  const TimeHours: string := "time_hours"

  /** Every argument left as `None` takes its default from the constants;
      every given argument is used as passed. */
  function Resolve(args: Args): (cfg: Config)
    ensures cfg.categorical == if args.categorical.Some? then args.categorical.value else ["mode", "num_nonmissing"]
    ensures cfg.continuous == if args.continuous.Some? then args.continuous.value
                              else ["mean", "std", "slope", "fraction_nonnull", "all_missing", "min", "max"]
    ensures cfg.treatmentIndicator == if args.treatmentIndicator.Some? then args.treatmentIndicator.value else ["num", "any"]
    ensures cfg.treatmentContinuous == if args.treatmentContinuous.Some? then args.treatmentContinuous.value else ["rate"]
    ensures cfg.horizons == if args.horizons.Some? then args.horizons.value else [8, 24]
  {
    Config(
      args.categorical.GetOr(Constants.CategoricalFeatures),
      args.continuous.GetOr(Constants.ContinuousFeatures),
      args.treatmentIndicator.GetOr(Constants.TreatmentIndicatorFeatures),
      args.treatmentContinuous.GetOr(Constants.TreatmentContinuousFeatures),
      args.horizons.GetOr(Constants.Horizons))
  }

  // ---------------------------------------------------------------------
  // One reference row
  // ---------------------------------------------------------------------

  /** How a row's names are generated. */
  datatype Kind = Static | Continuous | Categorical | TreatmentIndicator | TreatmentContinuous

  /** A row the generator can handle: static, or one of the four data types. */
  predicate Known(row: Row) {
    row.variableType == "static"
    || row.dataType in {"continuous", "categorical", "treatment_ind", "treatment_cont"}
  }

  function Classify(row: Row): (k: Result<Kind, Error>)
    ensures row.variableType == "static" ==> k == Success(Static)
    ensures k.Success? <==> Known(row)
    ensures k.Failure? ==> k.error == UnknownDataType(row.dataType)
  {
    if row.variableType == "static" then Success(Static)
    else if row.dataType == "continuous" then Success(Continuous)
    else if row.dataType == "categorical" then Success(Categorical)
    else if row.dataType == "treatment_ind" then Success(TreatmentIndicator)
    else if row.dataType == "treatment_cont" then Success(TreatmentContinuous)
    else Failure(UnknownDataType(row.dataType))
  }

  /** The tag, with `log_` in front exactly when `LogTransform` is `True`. */
  function DisplayName(row: Row): (name: string)
    ensures row.logTransform == Some(true) <==> name == "log_" + row.variableTag
    ensures row.logTransform != Some(true) ==> name == row.variableTag
  {
    if row.logTransform == Some(true) then "log_" + row.variableTag else row.variableTag
  }

  /** `{name}_{feature}_h{horizon}` */
  function HorizonName(name: string, feature: string, horizon: int): string {
    name + "_" + feature + "_h" + Strings.IntToString(horizon)
  }

  /** One feature kind at every horizon, in horizon order. */
  function PerHorizon<T>(render: (string, int) -> T, feature: string, horizons: seq<int>): (r: seq<T>)
    ensures |r| == |horizons|
    ensures forall j :: 0 <= j < |horizons| ==> r[j] == render(feature, horizons[j])
    decreases |horizons|
  {
    if |horizons| == 0 then []
    else [render(feature, horizons[0])] + PerHorizon(render, feature, horizons[1..])
  }

  /** Every feature kind at every horizon: features outer, horizons inner. */
  function CrossWith<T>(render: (string, int) -> T, features: seq<string>, horizons: seq<int>): (r: seq<T>)
    ensures |r| == Offset(|features|, |horizons|)
    decreases |features|
  {
    if |features| == 0 then []
    else PerHorizon(render, features[0], horizons) + CrossWith(render, features[1..], horizons)
  }

  /** The list comprehension `[f"{name}_{feature}_h{horizon}" for feature in features for horizon in horizons]`. */
  function Cross(name: string, features: seq<string>, horizons: seq<int>): (names: seq<string>)
    ensures |names| == |features| * |horizons|
  {
    OffsetIsProduct(|features|, |horizons|);
    CrossWith(Render(name), features, horizons)
  }

  /** The name template of one variable, as a function of feature and horizon. */
  function Render(name: string): (string, int) -> string {
    (feature, horizon) => HorizonName(name, feature, horizon)
  }

  lemma MulPred(i: int, n: int)
    requires i > 0
    ensures i * n == (i - 1) * n + n
  {
  }

  /** `i * n`, spelled as repeated addition so that index arithmetic stays linear. */
  function Offset(i: nat, n: nat): nat {
    if i == 0 then 0 else Offset(i - 1, n) + n
  }

  lemma {:induction false} OffsetIsProduct(i: nat, n: nat)
    ensures Offset(i, n) == i * n
  {
    if i > 0 {
      OffsetIsProduct(i - 1, n);
      MulPred(i, n);
    }
  }

  lemma {:induction false} CrossWithIndex<T>(render: (string, int) -> T, features: seq<string>, horizons: seq<int>, i: nat, j: nat)
    requires i < |features| && j < |horizons|
    ensures Offset(i, |horizons|) + j < |CrossWith(render, features, horizons)|
    ensures CrossWith(render, features, horizons)[Offset(i, |horizons|) + j] == render(features[i], horizons[j])
    decreases i
  {
    var n := |horizons|;
    var head := PerHorizon(render, features[0], horizons);
    var tail := CrossWith(render, features[1..], horizons);
    var c := CrossWith(render, features, horizons);
    assert c == head + tail;
    if i > 0 {
      CrossWithIndex(render, features[1..], horizons, i - 1, j);
      assert c[n + (Offset(i - 1, n) + j)] == tail[Offset(i - 1, n) + j];
      assert features[1..][i - 1] == features[i];
    }
  }

  /** Every element of the cross product is one feature at one horizon. */
  lemma {:induction false} CrossWithMember<T>(render: (string, int) -> T, features: seq<string>, horizons: seq<int>, x: T)
    requires x in CrossWith(render, features, horizons)
    ensures exists i, j :: 0 <= i < |features| && 0 <= j < |horizons| && x == render(features[i], horizons[j])
    decreases |features|
  {
    var head := PerHorizon(render, features[0], horizons);
    var tail := CrossWith(render, features[1..], horizons);
    assert CrossWith(render, features, horizons) == head + tail;
    if x in head {
      var j :| 0 <= j < |horizons| && head[j] == x;
      assert x == render(features[0], horizons[j]);
    } else {
      CrossWithMember(render, features[1..], horizons, x);
      var i, j :| 0 <= i < |features| - 1 && 0 <= j < |horizons| && x == render(features[1..][i], horizons[j]);
      assert features[1..][i] == features[i + 1];
    }
  }

  lemma CrossLength(name: string, features: seq<string>, horizons: seq<int>)
    ensures |Cross(name, features, horizons)| == |features| * |horizons|
  {
    OffsetIsProduct(|features|, |horizons|);
  }

  /** Distinct horizons give distinct column names for the same variable and feature. */
  lemma HorizonNameInjective(name: string, feature: string, h1: int, h2: int)
    requires HorizonName(name, feature, h1) == HorizonName(name, feature, h2)
    ensures h1 == h2
  {
    var p := name + "_" + feature + "_h";
    assert HorizonName(name, feature, h1)[|p|..] == Strings.IntToString(h1);
    assert HorizonName(name, feature, h2)[|p|..] == Strings.IntToString(h2);
    Strings.IntToStringInjective(h1, h2);
  }

  /** Position `i * |horizons| + j` of the cross product holds feature `i` at horizon `j`. */
  lemma CrossIndex(name: string, features: seq<string>, horizons: seq<int>, i: nat, j: nat)
    requires i < |features| && j < |horizons|
    ensures i * |horizons| + j < |Cross(name, features, horizons)|
    ensures Cross(name, features, horizons)[i * |horizons| + j] == HorizonName(name, features[i], horizons[j])
  {
    CrossRenderedIndex(name, features, horizons, i, j);
  }

  lemma CrossRenderedIndex(name: string, features: seq<string>, horizons: seq<int>, i: nat, j: nat)
    requires i < |features| && j < |horizons|
    ensures i * |horizons| + j < |Cross(name, features, horizons)|
    ensures Cross(name, features, horizons)[i * |horizons| + j] == Render(name)(features[i], horizons[j])
  {
    var n := |horizons|;
    var c := Cross(name, features, horizons);
    CrossWithIndex(Render(name), features, horizons, i, j);
    OffsetIsProduct(i, n);
    var k := i * n + j;
    assert k == Offset(i, n) + j;
    assert c[k] == Render(name)(features[i], horizons[j]);
  }

  /** No element of a cross product is the bare variable name. */
  lemma CrossOmitsBareName(name: string, features: seq<string>, horizons: seq<int>)
    ensures name !in Cross(name, features, horizons)
  {
    if name in Cross(name, features, horizons) {
      CrossWithMember(Render(name), features, horizons, name);
    }
  }

  /** How many horizon-independent names a kind emits before its cross product. */
  function Lead(kind: Kind): nat {
    match kind
    case Static => 1
    case Continuous => 3
    case Categorical => 1
    case TreatmentIndicator => 1
    case TreatmentContinuous => 0
  }

  /** The feature kinds a kind is crossed with (none for a static row). */
  function KindFeatures(kind: Kind, cfg: Config): seq<string> {
    match kind
    case Static => []
    case Continuous => cfg.continuous
    case Categorical => cfg.categorical
    case TreatmentIndicator => cfg.treatmentIndicator
    case TreatmentContinuous => cfg.treatmentContinuous
  }

  function KindNames(kind: Kind, name: string, cfg: Config): (names: seq<string>)
    ensures |names| == Lead(kind) + |KindFeatures(kind, cfg)| * |cfg.horizons|
    ensures kind == Static ==> names == [name]
    ensures kind == Continuous ==>
              names[..3] == [name + "_ffilled", name + "_missing", name + "_sq_ffilled"]
    ensures Lead(kind) == 1 ==> names[0] == name
    ensures kind == TreatmentContinuous ==> name !in names
    ensures names[Lead(kind)..] == Cross(name, KindFeatures(kind, cfg), cfg.horizons)
  {
    CrossLength(name, KindFeatures(kind, cfg), cfg.horizons);
    CrossOmitsBareName(name, cfg.treatmentContinuous, cfg.horizons);
    match kind
    case Static => [name]
    case Continuous =>
      [name + "_ffilled", name + "_missing", name + "_sq_ffilled"]
      + Cross(name, cfg.continuous, cfg.horizons)
    case Categorical => [name] + Cross(name, cfg.categorical, cfg.horizons)
    case TreatmentIndicator => [name] + Cross(name, cfg.treatmentIndicator, cfg.horizons)
    case TreatmentContinuous => Cross(name, cfg.treatmentContinuous, cfg.horizons)
  }

  /** After its lead names, a kind's names run over features (outer) and horizons (inner). */
  lemma KindNamesLayout(kind: Kind, name: string, cfg: Config, i: nat, j: nat)
    requires i < |KindFeatures(kind, cfg)| && j < |cfg.horizons|
    ensures Lead(kind) + i * |cfg.horizons| + j < |KindNames(kind, name, cfg)|
    ensures KindNames(kind, name, cfg)[Lead(kind) + i * |cfg.horizons| + j]
            == HorizonName(name, KindFeatures(kind, cfg)[i], cfg.horizons[j])
  {
    RenderedLayout(kind, name, cfg, i, j);
  }

  /** KindNamesLayout with the name template left folded, which keeps the
      string concatenation out of the index reasoning. */
  lemma RenderedLayout(kind: Kind, name: string, cfg: Config, i: nat, j: nat)
    requires i < |KindFeatures(kind, cfg)| && j < |cfg.horizons|
    ensures Lead(kind) + i * |cfg.horizons| + j < |KindNames(kind, name, cfg)|
    ensures KindNames(kind, name, cfg)[Lead(kind) + i * |cfg.horizons| + j]
            == Render(name)(KindFeatures(kind, cfg)[i], cfg.horizons[j])
  {
    var features := KindFeatures(kind, cfg);
    CrossRenderedIndex(name, features, cfg.horizons, i, j);
    ShiftedIndex(KindNames(kind, name, cfg), Lead(kind), Cross(name, features, cfg.horizons), i * |cfg.horizons| + j);
  }

  lemma ShiftedIndex<T>(s: seq<T>, lead: nat, tail: seq<T>, k: nat)
    requires lead <= |s| && s[lead..] == tail && k < |tail|
    ensures lead + k < |s| && s[lead + k] == tail[k]
  {
  }

  /** The names one reference row contributes. */
  function RowNames(row: Row, cfg: Config): (r: Result<seq<string>, Error>)
    ensures r.Success? <==> Known(row)
    ensures r.Failure? ==> r.error == UnknownDataType(row.dataType)
    ensures r.Success? && row.variableType == "static" ==> r.value == [DisplayName(row)]
    ensures r.Success? && row.variableType != "static" && row.dataType == "continuous" ==>
              |r.value| == 3 + |cfg.continuous| * |cfg.horizons|
    ensures r.Success? && row.variableType != "static" && row.dataType == "categorical" ==>
              |r.value| == 1 + |cfg.categorical| * |cfg.horizons|
    ensures r.Success? && row.variableType != "static" && row.dataType == "treatment_ind" ==>
              |r.value| == 1 + |cfg.treatmentIndicator| * |cfg.horizons|
    ensures r.Success? && row.variableType != "static" && row.dataType == "treatment_cont" ==>
              |r.value| == |cfg.treatmentContinuous| * |cfg.horizons|
              && DisplayName(row) !in r.value
  {
    var kind :- Classify(row);
    Success(KindNames(kind, DisplayName(row), cfg))
  }

  /** A static row never looks at its data type. */
  lemma StaticIgnoresDataType(row: Row, dataType: string, cfg: Config)
    requires row.variableType == "static"
    ensures RowNames(row.(dataType := dataType), cfg) == RowNames(row, cfg) == Success([DisplayName(row)])
  {
  }

  // ---------------------------------------------------------------------
  // The scan over the reference and the allow-list
  // ---------------------------------------------------------------------

  /** The position of the first occurrence of `x` in `xs`. */
  function FirstIndex(xs: seq<string>, x: string): (k: nat)
    requires x in xs
    ensures k < |xs| && xs[k] == x
    ensures x !in xs[..k]
  {
    if xs[0] == x then 0
    else
      var k := FirstIndex(xs[1..], x);
      assert xs[..k + 1] == [xs[0]] + xs[1..][..k];
      k + 1
  }

  /** Python's `list.remove`: drops the first occurrence of `x`, keeping the
      order of everything else. */
  function RemoveFirst(xs: seq<string>, x: string): (r: seq<string>)
    requires x in xs
    ensures |r| == |xs| - 1
    ensures multiset(r) == multiset(xs) - multiset{x}
  {
    var k := FirstIndex(xs, x);
    assert xs == xs[..k] + [x] + xs[k + 1..];
    xs[..k] + xs[k + 1..]
  }

  /** The names collected so far and what is left of the allow-list, if any. */
  datatype Scan = Scan(names: seq<string>, left: Option<seq<string>>)

  function ScanRows(rows: seq<Row>, variables: Option<seq<string>>, cfg: Config): (r: Result<Scan, Error>)
    ensures r.Success? ==> r.value.left.Some? == variables.Some?
    ensures r.Success? && variables.Some? ==> |r.value.left.value| <= |variables.value|
    ensures r.Failure? ==> r.error.UnknownDataType?
    decreases |rows|
  {
    if |rows| == 0 then Success(Scan([], variables))
    else
      var row := rows[0];
      if variables.Some? && row.variableTag !in variables.value then
        ScanRows(rows[1..], variables, cfg)
      else
        var remaining := if variables.Some? then Some(RemoveFirst(variables.value, row.variableTag)) else None;
        var names :- RowNames(row, cfg);
        var scan :- ScanRows(rows[1..], remaining, cfg);
        Success(Scan(names + scan.names, scan.left))
  }

  /** `features(...)` over the given reference. */
  function Features(reference: seq<Row>, variables: Option<seq<string>>, cfg: Config): (r: Result<seq<string>, Error>)
    ensures variables.None? && r.Success? ==> |r.value| > 0 && r.value[|r.value| - 1] == TimeHours
    ensures r.Failure? && r.error.UnknownVariables? ==> variables.Some? && |r.error.leftover| > 0
    ensures r.Failure? ==> r.error.UnknownDataType? || r.error.UnknownVariables?
  {
    var scan :- ScanRows(reference, variables, cfg);
    match scan.left
    case None => Success(scan.names + [TimeHours])
    case Some(left) =>
      if TimeHours in left then
        var rest := RemoveFirst(left, TimeHours);
        if |rest| > 0 then Failure(UnknownVariables(rest)) else Success(scan.names + [TimeHours])
      else if |left| > 0 then Failure(UnknownVariables(left))
      else Success(scan.names)
  }

  // ---------------------------------------------------------------------
  // Properties of the scan without an allow-list
  // ---------------------------------------------------------------------

  function Tags(rows: seq<Row>): (tags: seq<string>)
    ensures |tags| == |rows|
    ensures forall i :: 0 <= i < |rows| ==> tags[i] == rows[i].variableTag
  {
    if |rows| == 0 then [] else [rows[0].variableTag] + Tags(rows[1..])
  }

  /** The number of names a known row contributes. */
  function Width(row: Row, cfg: Config): nat
    requires Known(row)
  {
    var kind := Classify(row).value;
    Lead(kind) + |KindFeatures(kind, cfg)| * |cfg.horizons|
  }

  function TotalWidth(rows: seq<Row>, cfg: Config): nat
    requires forall i :: 0 <= i < |rows| ==> Known(rows[i])
  {
    if |rows| == 0 then 0 else Width(rows[0], cfg) + TotalWidth(rows[1..], cfg)
  }

  /** Without an allow-list the scan fails exactly when some row has an
      unknown data type, and then with the first such row's data type. */
  lemma {:induction false} ScanWithoutAllowList(rows: seq<Row>, cfg: Config)
    ensures ScanRows(rows, None, cfg).Success? <==> forall i :: 0 <= i < |rows| ==> Known(rows[i])
    ensures ScanRows(rows, None, cfg).Success? ==>
              |ScanRows(rows, None, cfg).value.names| == TotalWidth(rows, cfg)
    ensures ScanRows(rows, None, cfg).Failure? ==>
              exists k :: 0 <= k < |rows| && !Known(rows[k])
                          && (forall i :: 0 <= i < k ==> Known(rows[i]))
                          && ScanRows(rows, None, cfg).error == UnknownDataType(rows[k].dataType)
    decreases |rows|
  {
    if |rows| > 0 {
      ScanWithoutAllowList(rows[1..], cfg);
      if Known(rows[0]) {
        var r := ScanRows(rows[1..], None, cfg);
        if r.Failure? {
          var k :| 0 <= k < |rows| - 1 && !Known(rows[1..][k])
                   && (forall i :: 0 <= i < k ==> Known(rows[1..][i]))
                   && r.error == UnknownDataType(rows[1..][k].dataType);
          assert forall i :: 0 <= i < k + 1 ==> Known(rows[i]) by {
            forall i | 0 <= i < k + 1 ensures Known(rows[i]) {
              if i > 0 { assert rows[i] == rows[1..][i - 1]; }
            }
          }
          assert !Known(rows[k + 1]);
        } else {
          assert forall i :: 0 <= i < |rows| ==> Known(rows[i]) by {
            forall i | 0 <= i < |rows| ensures Known(rows[i]) {
              if i > 0 { assert rows[i] == rows[1..][i - 1]; }
            }
          }
        }
      } else {
        assert !Known(rows[0]);
      }
    }
  }

  /** Reference order is outermost: scanning `a + b` emits `a`'s names, then `b`'s. */
  lemma {:induction false} ScanAppend(a: seq<Row>, b: seq<Row>, cfg: Config)
    ensures ScanRows(a + b, None, cfg) ==
            match ScanRows(a, None, cfg)
            case Failure(e) => Failure(e)
            case Success(sa) =>
              match ScanRows(b, None, cfg)
              case Failure(e) => Failure(e)
              case Success(sb) => Success(Scan(sa.names + sb.names, None))
    decreases |a|
  {
    if |a| == 0 {
      assert a + b == b;
      if ScanRows(b, None, cfg).Success? {
        assert [] + ScanRows(b, None, cfg).value.names == ScanRows(b, None, cfg).value.names;
      }
    } else {
      assert (a + b)[0] == a[0];
      assert (a + b)[1..] == a[1..] + b;
      ScanAppend(a[1..], b, cfg);
      var ra := RowNames(a[0], cfg);
      if ra.Success? {
        var rest := ScanRows(a[1..], None, cfg);
        if rest.Success? && ScanRows(b, None, cfg).Success? {
          assert ra.value + (rest.value.names + ScanRows(b, None, cfg).value.names)
              == (ra.value + rest.value.names) + ScanRows(b, None, cfg).value.names;
        }
      }
    }
  }

  /** Without an allow-list `features` fails only on an unknown data type, and
      otherwise returns every row's names followed by `time_hours`. */
  lemma FeaturesWithoutAllowList(reference: seq<Row>, cfg: Config)
    ensures Features(reference, None, cfg).Success? <==> forall i :: 0 <= i < |reference| ==> Known(reference[i])
    ensures Features(reference, None, cfg).Success? ==>
              |Features(reference, None, cfg).value| == TotalWidth(reference, cfg) + 1
              && Features(reference, None, cfg).value[TotalWidth(reference, cfg)] == TimeHours
    ensures Features(reference, None, cfg).Success? ==>
              Features(reference, None, cfg).value == ScanRows(reference, None, cfg).value.names + [TimeHours]
    ensures Features(reference, None, cfg).Failure? ==>
              exists k :: 0 <= k < |reference| && !Known(reference[k])
                          && Features(reference, None, cfg).error == UnknownDataType(reference[k].dataType)
  {
    ScanWithoutAllowList(reference, cfg);
  }

  // ---------------------------------------------------------------------
  // Properties of the scan with an allow-list
  // ---------------------------------------------------------------------

  /** One step of the scan under an allow-list: an unrequested row is
      skipped, a requested one consumes its tag. */
  lemma ScanStep(rows: seq<Row>, vs: seq<string>, cfg: Config)
    requires |rows| > 0
    requires ScanRows(rows, Some(vs), cfg).Success?
    ensures rows[0].variableTag !in vs ==> ScanRows(rows[1..], Some(vs), cfg) == ScanRows(rows, Some(vs), cfg)
    ensures rows[0].variableTag in vs ==>
              var rest := ScanRows(rows[1..], Some(RemoveFirst(vs, rows[0].variableTag)), cfg);
              rest.Success? && rest.value.left == ScanRows(rows, Some(vs), cfg).value.left
  {
  }

  lemma MultisetDiffStep(a: multiset<string>, t: string, b: multiset<string>)
    ensures t in a ==> (a - multiset{t}) - b == a - (multiset{t} + b)
    ensures t !in a ==> a - b == a - (multiset{t} + b)
  {
    if t in a {
      assert forall x :: ((a - multiset{t}) - b)[x] == (a - (multiset{t} + b))[x];
    } else {
      assert forall x :: (a - b)[x] == (a - (multiset{t} + b))[x];
    }
  }

  /** Every row whose tag is still requested consumes one occurrence of it, so
      what is left is the request minus the reference's tags, as multisets. */
  lemma {:induction false} ScanLeftover(rows: seq<Row>, vs: seq<string>, cfg: Config)
    requires ScanRows(rows, Some(vs), cfg).Success?
    ensures multiset(ScanRows(rows, Some(vs), cfg).value.left.value) == multiset(vs) - multiset(Tags(rows))
    decreases |rows|
  {
    if |rows| == 0 {
      assert Tags(rows) == [];
    } else {
      var t := rows[0].variableTag;
      assert Tags(rows) == [t] + Tags(rows[1..]);
      assert multiset(Tags(rows)) == multiset{t} + multiset(Tags(rows[1..]));
      ScanStep(rows, vs, cfg);
      MultisetDiffStep(multiset(vs), t, multiset(Tags(rows[1..])));
      if t !in vs {
        ScanLeftover(rows[1..], vs, cfg);
      } else {
        ScanLeftover(rows[1..], RemoveFirst(vs, t), cfg);
      }
    }
  }

  lemma MultisetCover(a: multiset<string>, b: multiset<string>, c: multiset<string>)
    ensures (a - b - c == multiset{}) <==> a <= b + c
  {
    if a <= b + c {
      assert forall x :: (a - b - c)[x] == 0;
    }
    if a - b - c == multiset{} {
      forall x ensures a[x] <= (b + c)[x] {
        assert (a - b - c)[x] == 0;
      }
    }
  }

  /** How `features` finishes once the scan has succeeded with leftover `left`. */
  lemma FeaturesFinish(reference: seq<Row>, vs: seq<string>, cfg: Config)
    requires ScanRows(reference, Some(vs), cfg).Success?
    ensures var left := ScanRows(reference, Some(vs), cfg).value.left.value;
            var rest := multiset(left) - multiset{TimeHours};
            && (Features(reference, Some(vs), cfg).Success? <==> rest == multiset{})
            && (Features(reference, Some(vs), cfg).Failure? ==>
                  Features(reference, Some(vs), cfg).error.UnknownVariables?
                  && multiset(Features(reference, Some(vs), cfg).error.leftover) == rest)
  {
    var left := ScanRows(reference, Some(vs), cfg).value.left.value;
    if TimeHours in left {
      var rest := RemoveFirst(left, TimeHours);
      assert |rest| == 0 <==> multiset(rest) == multiset{};
    } else {
      assert multiset(left) - multiset{TimeHours} == multiset(left) by {
        assert forall x :: (multiset(left) - multiset{TimeHours})[x] == multiset(left)[x];
      }
      assert |left| == 0 <==> multiset(left) == multiset{};
    }
  }

  /** With an allow-list whose matched rows all have known data types,
      `features` succeeds exactly when every requested tag is covered by a
      reference row or by `time_hours`; otherwise it names the leftovers. */
  lemma FeaturesWithAllowList(reference: seq<Row>, vs: seq<string>, cfg: Config)
    requires ScanRows(reference, Some(vs), cfg).Success?
    ensures Features(reference, Some(vs), cfg).Success?
            <==> multiset(vs) <= multiset(Tags(reference)) + multiset{TimeHours}
    ensures Features(reference, Some(vs), cfg).Failure? ==>
              Features(reference, Some(vs), cfg).error.UnknownVariables?
              && multiset(Features(reference, Some(vs), cfg).error.leftover)
                 == multiset(vs) - multiset(Tags(reference)) - multiset{TimeHours}
  {
    ScanLeftover(reference, vs, cfg);
    FeaturesFinish(reference, vs, cfg);
    MultisetCover(multiset(vs), multiset(Tags(reference)), multiset{TimeHours});
  }

  /** A requested tag that is neither in the reference nor `time_hours` is reported. */
  lemma UnknownTagReported(reference: seq<Row>, vs: seq<string>, cfg: Config, v: string)
    requires ScanRows(reference, Some(vs), cfg).Success?
    requires v in vs && v !in Tags(reference) && v != TimeHours
    ensures Features(reference, Some(vs), cfg).Failure?
    ensures Features(reference, Some(vs), cfg).error.UnknownVariables?
    ensures v in Features(reference, Some(vs), cfg).error.leftover
  {
    FeaturesWithAllowList(reference, vs, cfg);
    assert multiset(vs)[v] > 0;
    assert multiset(Tags(reference))[v] == 0;
    assert (multiset(Tags(reference)) + multiset{TimeHours})[v] == 0;
    assert !(multiset(vs) <= multiset(Tags(reference)) + multiset{TimeHours});
    var r := Features(reference, Some(vs), cfg);
    assert (multiset(vs) - multiset(Tags(reference)) - multiset{TimeHours})[v] > 0;
    assert v in multiset(r.error.leftover);
  }

  /** The allow-list is consumed, not compared as a set: requesting `hr`
      twice against a reference that lists it once leaves one `hr` over. */
  lemma DuplicateRequestRejected(cfg: Config)
    ensures Features([Row("hr", "dynamic", "continuous", Some(false))], Some(["hr", "hr"]), cfg)
            == Failure(UnknownVariables(["hr"]))
  {
    var hr := Row("hr", "dynamic", "continuous", Some(false));
    assert RemoveFirst(["hr", "hr"], "hr") == ["hr"];
    assert [hr][1..] == [];
    var names := RowNames(hr, cfg).value;
    assert ScanRows([hr], Some(["hr", "hr"]), cfg) == Success(Scan(names + [], Some(["hr"])));
    assert TimeHours !in ["hr"];
  }

  /** A requested row with an unknown data type raises before the leftover
      check, so an unknown requested tag is not what gets reported. */
  lemma UnknownTypeBeforeUnknownVariables(cfg: Config)
    ensures Features([Row("hr", "dynamic", "bogus", None)], Some(["hr", "x"]), cfg)
            == Failure(UnknownDataType("bogus"))
  {
    var hr := Row("hr", "dynamic", "bogus", None);
    assert RowNames(hr, cfg) == Failure(UnknownDataType("bogus"));
  }

  predicate UniqueTags(rows: seq<Row>) {
    forall i, j :: 0 <= i < j < |rows| ==> rows[i].variableTag != rows[j].variableTag
  }

  /** The reference rows whose tag is in `vs`, in reference order. */
  function Select(rows: seq<Row>, vs: seq<string>): seq<Row> {
    if |rows| == 0 then []
    else if rows[0].variableTag in vs then [rows[0]] + Select(rows[1..], vs)
    else Select(rows[1..], vs)
  }

  /** The names of a scan, forgetting the allow-list bookkeeping. */
  function Names(r: Result<Scan, Error>): Result<seq<string>, Error> {
    match r
    case Success(s) => Success(s.names)
    case Failure(e) => Failure(e)
  }

  lemma {:induction false} SelectIgnoresOtherTags(rows: seq<Row>, vs: seq<string>, t: string)
    requires t in vs
    requires forall i :: 0 <= i < |rows| ==> rows[i].variableTag != t
    ensures Select(rows, RemoveFirst(vs, t)) == Select(rows, vs)
    decreases |rows|
  {
    if |rows| > 0 {
      var u := rows[0].variableTag;
      assert u in RemoveFirst(vs, t) <==> u in vs by {
        assert multiset(RemoveFirst(vs, t))[u] == multiset(vs)[u];
      }
      SelectIgnoresOtherTags(rows[1..], vs, t);
    }
  }

  /** For a reference with unique tags, an allow-list scan produces exactly
      the names of the rows it selects, scanned without an allow-list: rows
      whose tag is not requested contribute nothing, and errors agree too. */
  lemma {:induction false} AllowListSelects(rows: seq<Row>, vs: seq<string>, cfg: Config)
    requires UniqueTags(rows)
    ensures Names(ScanRows(rows, Some(vs), cfg)) == Names(ScanRows(Select(rows, vs), None, cfg))
    decreases |rows|
  {
    if |rows| > 0 {
      var t := rows[0].variableTag;
      assert UniqueTags(rows[1..]);
      if t in vs {
        var vs' := RemoveFirst(vs, t);
        assert forall i :: 0 <= i < |rows[1..]| ==> rows[1..][i].variableTag != t by {
          forall i | 0 <= i < |rows[1..]| ensures rows[1..][i].variableTag != t {
            assert rows[1..][i] == rows[i + 1];
          }
        }
        SelectIgnoresOtherTags(rows[1..], vs, t);
        AllowListSelects(rows[1..], vs', cfg);
        var sel := Select(rows, vs);
        assert sel == [rows[0]] + Select(rows[1..], vs);
        assert sel[0] == rows[0] && sel[1..] == Select(rows[1..], vs');
      } else {
        AllowListSelects(rows[1..], vs, cfg);
      }
    }
  }

  /** With unique reference tags, a successful call with an allow-list
      returns the names of the selected rows, in reference order, followed by
      `time_hours` exactly when the request holds more `time_hours` than the
      reference rows consume. */
  lemma FeaturesAllowListNames(reference: seq<Row>, vs: seq<string>, cfg: Config)
    requires UniqueTags(reference)
    requires Features(reference, Some(vs), cfg).Success?
    ensures ScanRows(Select(reference, vs), None, cfg).Success?
    ensures Features(reference, Some(vs), cfg).value
            == ScanRows(Select(reference, vs), None, cfg).value.names
               + (if multiset(vs)[TimeHours] > multiset(Tags(reference))[TimeHours] then [TimeHours] else [])
  {
    var scan := ScanRows(reference, Some(vs), cfg);
    assert scan.Success?;
    AllowListSelects(reference, vs, cfg);
    ScanLeftover(reference, vs, cfg);
    var left := scan.value.left.value;
    assert TimeHours in left <==> multiset(left)[TimeHours] > 0;
  }

  // ---------------------------------------------------------------------
  // Concrete scenarios
  // ---------------------------------------------------------------------

  lemma HeartRateCross()
    ensures Cross("hr", ["mean", "std"], [8, 24]) == ["hr_mean_h8", "hr_mean_h24", "hr_std_h8", "hr_std_h24"]
  {
    assert Strings.IntToString(8) == "8" by {
      assert Strings.DigitChar(8) == '8';
    }
    assert Strings.IntToString(24) == "24" by {
      assert Strings.DigitChar(2) == '2';
      assert Strings.DigitChar(4) == '4';
      assert Strings.NatToString(24) == Strings.NatToString(2) + [Strings.DigitChar(4)];
    }
    var render := Render("hr");
    assert render("mean", 8) == "hr_mean_h8";
    assert render("mean", 24) == "hr_mean_h24";
    assert render("std", 8) == "hr_std_h8";
    assert render("std", 24) == "hr_std_h24";
    assert PerHorizon(render, "mean", [8, 24]) == ["hr_mean_h8", "hr_mean_h24"];
    assert PerHorizon(render, "std", [8, 24]) == ["hr_std_h8", "hr_std_h24"];
    assert ["mean", "std"][1..] == ["std"];
    assert ["std"][1..] == [];
    assert CrossWith(render, ["std"], [8, 24]) == ["hr_std_h8", "hr_std_h24"];
  }

  const HeartRateNames: seq<string> :=
    ["hr_ffilled", "hr_missing", "hr_sq_ffilled", "hr_mean_h8", "hr_mean_h24", "hr_std_h8", "hr_std_h24"]

  lemma HeartRateRow(cfg: Config)
    requires cfg.continuous == ["mean", "std"] && cfg.horizons == [8, 24]
    ensures RowNames(Row("hr", "dynamic", "continuous", Some(false)), cfg) == Success(HeartRateNames)
  {
    HeartRateCross();
    assert "hr" + "_ffilled" == "hr_ffilled";
    assert "hr" + "_missing" == "hr_missing";
    assert "hr" + "_sq_ffilled" == "hr_sq_ffilled";
    assert KindNames(Continuous, "hr", cfg) == HeartRateNames;
  }

  /** A static `age` and a continuous `hr` with two continuous features at horizons 8 and 24. */
  lemma AgeAndHeartRate(cat: seq<string>, ti: seq<string>, tc: seq<string>)
    ensures Features(
              [Row("age", "static", "continuous", None), Row("hr", "dynamic", "continuous", Some(false))],
              None,
              Config(cat, ["mean", "std"], ti, tc, [8, 24]))
            == Success(["age", "hr_ffilled", "hr_missing", "hr_sq_ffilled",
                        "hr_mean_h8", "hr_mean_h24", "hr_std_h8", "hr_std_h24", "time_hours"])
  {
    var cfg := Config(cat, ["mean", "std"], ti, tc, [8, 24]);
    var age := Row("age", "static", "continuous", None);
    var hr := Row("hr", "dynamic", "continuous", Some(false));
    var scan := ScanRows([age, hr], None, cfg);
    assert scan == Success(Scan(["age"] + HeartRateNames, None)) by {
      HeartRateRow(cfg);
      assert RowNames(age, cfg) == Success(["age"]);
      assert [age, hr][1..] == [hr];
      assert [hr][1..] == [];
      assert ScanRows([], None, cfg) == Success(Scan([], None));
      assert HeartRateNames + [] == HeartRateNames;
      assert ScanRows([hr], None, cfg) == Success(Scan(HeartRateNames, None));
    }
    assert ["age"] + HeartRateNames + [TimeHours]
        == ["age", "hr_ffilled", "hr_missing", "hr_sq_ffilled",
            "hr_mean_h8", "hr_mean_h24", "hr_std_h8", "hr_std_h24", "time_hours"];
  }

  /** With the default feature kinds and horizons: a static row yields 1
      name, continuous 17, categorical 5, treatment indicator 5 and
      continuous treatment 2. */
  lemma DefaultWidths(row: Row)
    requires Known(row)
    ensures row.variableType == "static" ==> |RowNames(row, Resolve(NoArgs)).value| == 1
    ensures row.variableType != "static" && row.dataType == "continuous" ==> |RowNames(row, Resolve(NoArgs)).value| == 17
    ensures row.variableType != "static" && row.dataType == "categorical" ==> |RowNames(row, Resolve(NoArgs)).value| == 5
    ensures row.variableType != "static" && row.dataType == "treatment_ind" ==> |RowNames(row, Resolve(NoArgs)).value| == 5
    ensures row.variableType != "static" && row.dataType == "treatment_cont" ==> |RowNames(row, Resolve(NoArgs)).value| == 2
  {
  }
}
