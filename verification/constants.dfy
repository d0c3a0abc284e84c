/** The default feature kinds and horizons of icu_features/constants.py,
    used when a caller leaves the corresponding argument as `None`. */
module Constants {

  /** Lookback windows, in hours. */
  const Horizons: seq<int> := [8, 24]

  const ContinuousFeatures: seq<string> :=
    ["mean", "std", "slope", "fraction_nonnull", "all_missing", "min", "max"]

  const CategoricalFeatures: seq<string> := ["mode", "num_nonmissing"]

  const TreatmentIndicatorFeatures: seq<string> := ["num", "any"]

  const TreatmentContinuousFeatures: seq<string> := ["rate"]
}
