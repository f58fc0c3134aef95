/** code/model_io.py: the tab-separated reaction summary written by
    `save_txt_model`, and the `read_t66_model` variant whose sanity check also
    demands a minimum growth rate. */
module ModelIo {

  import opened Records
  import opened Tables
  import opened SanityGate

  /** The header of the summary, in column order. */
  const TxtColumns: seq<string> :=
    ["Rxn name", "Formula", "Gene-reaction association", "LB", "UB", "Objective"]

  lemma TxtColumnsDistinct()
    ensures DistinctColumns(TxtColumns)
  {
  }

  /** One line of the summary. */
  datatype TxtRow = TxtRow(
    rxnName: Cell,
    formula: Cell,
    geneAssociation: Cell,
    lb: Cell,
    ub: Cell,
    objective: Cell)
  {
    /** The cells under TxtColumns, in that order. */
    function Cells(): (cs: seq<Cell>)
      ensures |cs| == |TxtColumns|
    {
      [rxnName, formula, geneAssociation, lb, ub, objective]
    }
  }

  /** The row dict for one reaction. The column labelled LB receives the upper
      bound and the one labelled UB the lower bound; the objective coefficient is
      written as it is, zero included. */
  function TxtRowOf(rxn: Reaction): (row: TxtRow)
    ensures row.lb == Number(rxn.upperBound) && row.ub == Number(rxn.lowerBound)
    ensures row.objective == Number(rxn.objectiveCoefficient)
  {
    TxtRow(Text(rxn.id), Text(rxn.equation), Text(rxn.geneRule),
           Number(rxn.upperBound), Number(rxn.lowerBound),
           Number(rxn.objectiveCoefficient))
  }

  /** The frame `save_txt_model` writes: one row per reaction, in model order. */
  function SaveTxtModel(m: Model): (f: Frame)
    ensures Rectangular(f)
    ensures |f.rows| == |m.reactions|
    ensures |m.reactions| > 0 ==> f.columns == TxtColumns
    ensures |m.reactions| == 0 ==> f.columns == []
    ensures forall i :: 0 <= i < |m.reactions| ==> f.rows[i] == TxtRowOf(m.reactions[i]).Cells()
  {
    DataFrame(TxtColumns,
              seq(|m.reactions|, i requires 0 <= i < |m.reactions| => TxtRowOf(m.reactions[i]).Cells()))
  }

  /** Read by its headers, line `i` of the summary names the reaction, gives its
      formula and rule, puts the upper bound under LB, the lower bound under UB,
      and the raw coefficient under Objective. */
  lemma {:induction false} TxtCellsByHeading(m: Model, i: nat)
    requires i < |m.reactions|
    ensures var f, rxn := SaveTxtModel(m), m.reactions[i];
      && CellUnder(f, i, "Rxn name") == Some(Text(rxn.id))
      && CellUnder(f, i, "Formula") == Some(Text(rxn.equation))
      && CellUnder(f, i, "Gene-reaction association") == Some(Text(rxn.geneRule))
      && CellUnder(f, i, "LB") == Some(Number(rxn.upperBound))
      && CellUnder(f, i, "UB") == Some(Number(rxn.lowerBound))
      && CellUnder(f, i, "Objective") == Some(Number(rxn.objectiveCoefficient))
  {
    var f := SaveTxtModel(m);
    TxtColumnsDistinct();
    assert f.columns == TxtColumns;
    CellUnderColumn(f, i, 0);
    CellUnderColumn(f, i, 1);
    CellUnderColumn(f, i, 2);
    CellUnderColumn(f, i, 3);
    CellUnderColumn(f, i, 4);
    CellUnderColumn(f, i, 5);
  }

  /** A reader that trusts the headers gets a reaction's bounds back exactly when
      its lower and upper bounds coincide. */
  lemma TxtHeadingsMisreadBounds(m: Model, i: nat)
    requires i < |m.reactions|
    ensures var f, rxn := SaveTxtModel(m), m.reactions[i];
      (CellUnder(f, i, "LB") == Some(Number(rxn.lowerBound))
        && CellUnder(f, i, "UB") == Some(Number(rxn.upperBound)))
      <==> rxn.lowerBound == rxn.upperBound
  {
    TxtCellsByHeading(m, i);
  }

  /** The reversible-reaction case: bounds -10 and 1000 appear as LB 1000, UB -10. */
  lemma TxtSwapExample(rxn: Reaction)
    requires rxn.lowerBound == -10.0 && rxn.upperBound == 1000.0
    ensures TxtRowOf(rxn).lb == Number(1000.0) && TxtRowOf(rxn).ub == Number(-10.0)
  {
  }

  /** The growth threshold: an objective value below it counts as no growth. */
  const GrowthThreshold: real := 1e-6

  /** The growth test of this variant: fails on a value below the threshold or a
      status other than "optimal". */
  predicate GrowthFails(s: Solution): (fails: bool)
    ensures !fails <==> s.status == "optimal" && GrowthThreshold <= s.objectiveValue
  {
    s.objectiveValue < GrowthThreshold || s.status != "optimal"
  }

  /** `read_t66_model(sanity_check)` of code/model_io.py on a freshly loaded model.
      `minGlcMedium` is the medium read from its JSON file; `optimize` is the solve. */
  method ReadT66Model(model: CobraModel, sanityCheck: bool, minGlcMedium: map<string, real>,
                      optimize: Optimizer) returns (r: LoadResult)
    modifies model
    ensures model.attributes == old(model.attributes) && model.data == old(model.data)
    ensures !sanityCheck ==> r == Loaded(model) && unchanged(model)
    ensures sanityCheck && !HasRequiredAttributes(old(model.attributes)) ==>
      r.Failed? && r.error.MissingAttribute?
      && FirstMissing(model.attributes, r.error.attribute)
      && unchanged(model)
    ensures sanityCheck && HasRequiredAttributes(old(model.attributes)) ==>
      && model.medium == minGlcMedium
      && model.objective == BiomassObjective
      && (GrowthFails(optimize(model.data, minGlcMedium, BiomassObjective)) ==> r == Failed(CheckError.NoGrowth))
      && (!GrowthFails(optimize(model.data, minGlcMedium, BiomassObjective)) ==> r == Loaded(model))
  {
    if sanityCheck {
      var missing := FindMissingAttribute(model.attributes);
      if missing.Some? {
        return Failed(MissingAttribute(missing.value));
      }
      model.medium := minGlcMedium;
      model.objective := BiomassObjective;
      var solution := optimize(model.data, model.medium, model.objective);
      if solution.objectiveValue < GrowthThreshold || solution.status != "optimal" {
        return Failed(CheckError.NoGrowth);
      }
    }
    return Loaded(model);
  }
}
