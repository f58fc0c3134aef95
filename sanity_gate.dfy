/** What both variants of `read_t66_model` share: the loaded model object whose
    medium and objective the sanity check overwrites, the outcome of the external
    solve, and the check that the required collections are present. */
module SanityGate {

  import opened Records

  /** The loaded cobra Model as the sanity check sees it: the attribute names
      `hasattr` finds on it, its contents, and the two settings the check assigns. */
  class CobraModel {
    var attributes: set<string>
    var data: Model
    var medium: map<string, real>
    var objective: string

    constructor (attributes: set<string>, data: Model, medium: map<string, real>, objective: string)
      ensures this.attributes == attributes && this.data == data
      ensures this.medium == medium && this.objective == objective
    {
      this.attributes := attributes;
      this.data := data;
      this.medium := medium;
      this.objective := objective;
    }
  }

  /** What `model.optimize()` reports: the solver status and the objective value. */
  datatype Solution = Solution(status: string, objectiveValue: real)

  /** The external solve, as a function of the model contents and the two settings
      the check has just assigned. */
  type Optimizer = (Model, map<string, real>, string) -> Solution

  /** The two warnings the check raises. */
  datatype CheckError =
    | MissingAttribute(attribute: string)
    | NoGrowth

  /** What `read_t66_model` does: returns the model object, or raises. */
  datatype LoadResult = Loaded(model: CobraModel) | Failed(error: CheckError)

  /** The collections the check requires, in the order it tests them. */
  const RequiredAttributes: seq<string> := ["reactions", "metabolites", "genes"]

  /** The reaction the check sets as objective. */
  const BiomassObjective: string := "biomass"

  predicate HasRequiredAttributes(attributes: set<string>)
  {
    forall i :: 0 <= i < |RequiredAttributes| ==> RequiredAttributes[i] in attributes
  }

  /** `attribute` is the first required attribute, in testing order, that the
      model lacks: the one the check's warning names. */
  predicate FirstMissing(attributes: set<string>, attribute: string)
  {
    exists k :: 0 <= k < |RequiredAttributes| && RequiredAttributes[k] == attribute
      && attribute !in attributes
      && forall j :: 0 <= j < k ==> RequiredAttributes[j] in attributes
  }

  /** The test loop over the required attributes: the first one the model lacks,
      or None when it has them all. */
  method FindMissingAttribute(attributes: set<string>) returns (missing: Option<string>)
    ensures missing.None? <==> HasRequiredAttributes(attributes)
    ensures missing.Some? ==> FirstMissing(attributes, missing.value)
  {
    for i := 0 to |RequiredAttributes|
      invariant forall j :: 0 <= j < i ==> RequiredAttributes[j] in attributes
    {
      if RequiredAttributes[i] !in attributes {
        return Some(RequiredAttributes[i]);
      }
    }
    return None;
  }

  /** A model without a `genes` collection fails the attribute gate, whatever
      else it has. */
  lemma MissingGenesFails(attributes: set<string>)
    requires "genes" !in attributes
    ensures !HasRequiredAttributes(attributes)
  {
    assert RequiredAttributes[2] == "genes";
  }
}
