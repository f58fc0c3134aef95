/** code/io.py: the built-in minimal glucose medium and the `read_t66_model`
    variant whose sanity check tests the solver status only. */
module Io {

  import opened Records
  import opened SanityGate
  import ModelIo

  /** Uptake bounds of the minimal glucose medium, by exchange reaction. */
  const MinGlcMedium: map<string, real> :=
    map["EX_dglc_e" := 1.44, "EX_h2o_e" := 1000.0, "EX_o2_e" := 1000.0,
        "EX_nh3_e" := 10.0, "EX_pi_e" := 1000.0, "EX_slf_e" := 1000.0,
        "EX_h_e" := 1000.0]

  /** The medium has seven exchanges: glucose capped at 1.44, ammonia at 10, and
      water, oxygen, phosphate, sulfate and protons at 1000. */
  lemma MinGlcMediumEntries()
    ensures MinGlcMedium.Keys ==
      {"EX_dglc_e", "EX_h2o_e", "EX_o2_e", "EX_nh3_e", "EX_pi_e", "EX_slf_e", "EX_h_e"}
    ensures |MinGlcMedium| == 7
    ensures MinGlcMedium["EX_dglc_e"] == 1.44 && MinGlcMedium["EX_nh3_e"] == 10.0
    ensures forall k :: k in {"EX_h2o_e", "EX_o2_e", "EX_pi_e", "EX_slf_e", "EX_h_e"} ==>
      k in MinGlcMedium && MinGlcMedium[k] == 1000.0
  {
  }

  /** The growth test of this variant: fails on a status other than "optimal",
      whatever the objective value. */
  predicate GrowthFails(s: Solution): (fails: bool)
    ensures !fails <==> s.status == "optimal"
  {
    s.status != "optimal"
  }

  /** The threshold variant of code/model_io.py rejects every solution this one
      rejects, and also an optimal one with no growth. */
  lemma StatusOnlyIsLaxer(s: Solution)
    ensures GrowthFails(s) ==> ModelIo.GrowthFails(s)
    ensures s == Solution("optimal", 0.0) ==> !GrowthFails(s) && ModelIo.GrowthFails(s)
  {
  }

  /** `read_t66_model(sanity_check)` of code/io.py on a freshly loaded model;
      `optimize` is the solve. */
  method ReadT66Model(model: CobraModel, sanityCheck: bool, optimize: Optimizer)
    returns (r: LoadResult)
    modifies model
    ensures model.attributes == old(model.attributes) && model.data == old(model.data)
    ensures !sanityCheck ==> r == Loaded(model) && unchanged(model)
    ensures sanityCheck && !HasRequiredAttributes(old(model.attributes)) ==>
      r.Failed? && r.error.MissingAttribute?
      && FirstMissing(model.attributes, r.error.attribute)
      && unchanged(model)
    ensures sanityCheck && HasRequiredAttributes(old(model.attributes)) ==>
      && model.medium == MinGlcMedium
      && model.objective == BiomassObjective
      && (GrowthFails(optimize(model.data, MinGlcMedium, BiomassObjective)) ==> r == Failed(NoGrowth))
      && (!GrowthFails(optimize(model.data, MinGlcMedium, BiomassObjective)) ==> r == Loaded(model))
  {
    if sanityCheck {
      var missing := FindMissingAttribute(model.attributes);
      if missing.Some? {
        return Failed(MissingAttribute(missing.value));
      }
      model.medium := MinGlcMedium;
      model.objective := BiomassObjective;
      var solution := optimize(model.data, model.medium, model.objective);
      if solution.status != "optimal" {
        return Failed(NoGrowth);
      }
    }
    return Loaded(model);
  }
}
