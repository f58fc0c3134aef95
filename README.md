# iVS1191 model I/O — a Dafny model

This project models the two parts of the iVS1191 genome-scale metabolic model's
I/O scripts that have behaviour of their own. Everything else there is a call
into the cobra toolkit or pandas.

1. **Record-to-row flattening.** `save_xlsx_model` turns a cobra model into five
   fixed-schema sheets: RXNS, METS, COMPS, GENES and MODEL, in that order.
   `save_txt_model` turns the reactions into a six-column tab-separated summary.
   Reactions, metabolites and the model are datatypes (`Records`). An
   annotation dict is a `Dict`: a sequence of key/value pairs with distinct keys,
   in insertion order. A cell is a `Tables.Cell`, with Python's `None` as `Empty`.
   Each sheet row is a datatype with one field per column. `Cells()` lists the
   fields in header order.
2. **The sanity-check gate of `read_t66_model`**, in two variants.
   - code/model_io.py gets its medium from a JSON file (here a parameter). It
     rejects a solution whose objective value is below `1e-6` or whose status
     is not `"optimal"`.
   - code/io.py uses the built-in `MIN_GLC_MEDIUM` and rejects on the status only.

   The loaded model is a class, `SanityGate.CobraModel`. Its fields are the
   attribute names `hasattr` finds, its contents, and its mutable `medium` and
   `objective`. Each variant is a method on that object. Its contract says:
   - nothing changes when the check is off;
   - nothing changes when an attribute is missing;
   - once the attribute gate passes, the medium and the objective `"biomass"`
     are left assigned, whether the check then passes or fails.

Two things are partners for the row builders:
- **Readers** that recover a record from its row (`ReadReactionRow`,
  `ReadMetaboliteRow`, `ReadCompartmentRows`, `ReadGeneRows`, `ReadMiriam`).
  Round-trip lemmas show exactly what each sheet keeps and what it loses.
- **Reading by heading** (`Tables.CellUnder`). It shows which value a reader
  that trusts the txt header finds under "LB" and "UB".

The txt summary writes the upper bound under "LB" and the lower bound under "UB".
The model keeps this as written, and `ModelIo.TxtHeadingsMisreadBounds` states
the consequence.

Modules follow the source files: `ModelBinaries` (code/model_binaries.py),
`ModelIo` (code/model_io.py) and `Io` (code/io.py). Supporting modules: `Records`
(the cobra records and dict helpers), `Strings` (Python's `join` and `split`),
`Tables` (cells, frames, sheets) and `SanityGate` (what both `read_t66_model`
variants share).

## Model

| member | source | states |
|---|---|---|
| `Records.Lookup` | code/model_binaries.py:37 | `annotation['ec-code']` is found exactly when the key is present, and is then an entry of the dict |
| `Records.LookupInDict` | code/model_binaries.py:57 | in a dict (distinct keys) a lookup yields a value exactly when that key/value pair is an entry |
| `Records.Kept` | code/model_binaries.py:39-40 | the comprehension's filter keeps exactly the entries whose key is not the excluded one |
| `Records.KeptInOrder` | code/model_binaries.py:39-40 | the kept entries are a subsequence of the annotation: they stay in annotation order |
| `Records.KeptUnique` | code/model_binaries.py:39-40 | filtering a dict leaves a dict |
| `Records.FrontSameDict` | code/model_binaries.py:37-40 | the excluded entry plus the remaining entries hold the same pairs, and answer every lookup, as the original annotation |
| `Strings.Join` | code/model_binaries.py:39 | `';'.join` of no parts is ""; the first part is a prefix of the result; parts without ';' are joined with exactly one ';' fewer than there are parts |
| `Strings.Split` | code/model_binaries.py:39 | splitting yields at least one piece, and no piece contains the separator |
| `Strings.SplitJoin` | code/model_binaries.py:39 | `';'.join` is undone by splitting on ';' when no part contains ';' and there is at least one part |
| `ModelBinaries.Entry` | code/model_binaries.py:39 | `f'{key}/{val}'`: the key, then '/', then the value |
| `ModelBinaries.Miriam` | code/model_binaries.py:39-40 | the MIRIAM cell is "" exactly when no entry survives the filter |
| `ModelBinaries.MiriamSplit` | code/model_binaries.py:39-40 | when keys hold no '/' or ';' and values no ';', a non-empty MIRIAM cell splits on ';' into the `key/value` text of each kept entry, in order |
| `ModelBinaries.MiriamRoundTrip` | code/model_binaries.py:39-40 | reading a MIRIAM cell back gives every annotation entry except the excluded key, in annotation order |
| `ModelBinaries.MiriamEmpty` | code/model_binaries.py:55-56 | a MIRIAM cell is the empty string (not `None`) exactly when the excluded key is the only key there is |
| `ModelBinaries.ReactionRow` | code/model_binaries.py:37-49 | `#`, REPLACEMENT ID, REFERENCE and CONFIDENCE SCORE are always empty; ID, NAME, EQUATION, GENE ASSOCIATION, COMPARTMENT, SUBSYSTEM and NOTE carry the reaction's fields; EC-NUMBER is empty exactly when there is no "ec-code" key, and is otherwise a text cell holding its value; OBJECTIVE is empty exactly when the coefficient is 0, and is otherwise the coefficient; the bounds are copied unswapped |
| `ModelBinaries.ReactionRowRoundTrip` | code/model_binaries.py:36-49 | a RXNS row gives back the whole reaction; the only change is that the EC-number entry moves to the front of the annotation |
| `ModelBinaries.ReactionMiriamEmpty` | code/model_binaries.py:39-46 | a reaction's MIRIAM cell is the MIRIAM text of its annotation without "ec-code", and is "" exactly when it has no annotation key other than "ec-code" |
| `ModelBinaries.EcMiriamExample` | code/model_binaries.py:37-40 | `{"ec-code": "1.1.1.1", "kegg": "R00001"}` gives EC-NUMBER "1.1.1.1" and MIRIAM "kegg/R00001" |
| `ModelBinaries.TxtAgreesWithRxns` | code/model_binaries.py:38-45 | RXNS puts the upper bound under UPPER BOUND, where the txt summary puts it under LB, and the lower bound likewise; RXNS OBJECTIVE is the txt coefficient with 0 suppressed |
| `ModelBinaries.ReactionRows` | code/model_binaries.py:35-49 | the loop yields exactly one row per reaction, in model order, each the reaction's row dict |
| `ModelBinaries.MetaboliteRow` | code/model_binaries.py:55-64 | ID is `name[compartment]`; NAME, COMPARTMENT and REPLACEMENT ID carry the name, compartment and id; CHARGE is the charge or empty; InChI is empty exactly when there is no "inchi" key, and is otherwise a text cell holding its value; COMPOSITION and InChI are never both filled; without InChI, COMPOSITION is the formula |
| `ModelBinaries.MetaboliteMiriamEmpty` | code/model_binaries.py:55-60 | a metabolite's MIRIAM cell is the MIRIAM text of its annotation without "inchi", and is "" exactly when it has no annotation key other than "inchi" |
| `ModelBinaries.MetaboliteRowRoundTrip` | code/model_binaries.py:54-64 | a METS row gives back the metabolite, with its `name[compartment]` ID checked against NAME and COMPARTMENT; it loses only the InChI entry's position and, when there is an InChI, the formula |
| `ModelBinaries.TaggedName` | code/model_binaries.py:59 | `f'{met.name}[{met.compartment}]'`: the name, '[', the compartment code and ']' |
| `ModelBinaries.TaggedNameUnambiguous` | code/model_binaries.py:59 | the `name[compartment]` ID determines both name and compartment when compartment codes contain no '[' |
| `ModelBinaries.MetaboliteRows` | code/model_binaries.py:53-64 | the loop yields exactly one row per metabolite, in model order, each the metabolite's row dict |
| `ModelBinaries.CompartmentRows` | code/model_binaries.py:68-70 | one COMPS row per compartment entry; `#`, INSIDE and MIRIAM are always empty |
| `ModelBinaries.CompartmentRowsRoundTrip` | code/model_binaries.py:68-70 | reading COMPS back (ABBREVIATION as key, NAME as value) gives the compartment dict, in order |
| `ModelBinaries.GeneRows` | code/model_binaries.py:74-76 | one GENES row per gene; NAME equals SHORT NAME; `#`, MIRIAM and COMPARTMENT are always empty |
| `ModelBinaries.GeneRowsRoundTrip` | code/model_binaries.py:74-76 | reading the NAME column of GENES back gives the gene identifiers, in order |
| `ModelBinaries.ModelInfoRows` | code/model_binaries.py:80-84 | MODEL has exactly one row: it carries the model's ID and NAME, and every other cell is empty |
| `Tables.DataFrame` | code/model_binaries.py:50 | `pd.DataFrame` of row dicts with fixed keys: the rows as given, one cell per column; the columns are the keys, or none when there are no rows |
| `ModelBinaries.SaveXlsxModel` | code/model_binaries.py:34-93 | five sheets named RXNS, METS, COMPS, GENES, MODEL in that order; each has its fixed columns (a sheet with no rows has none, as pandas builds it) and one row per reaction, metabolite, compartment or gene, in order; MODEL has exactly one row |
| `ModelIo.TxtRowOf` | code/model_io.py:71-76 | LB holds the upper bound and UB the lower bound; Objective holds the raw coefficient, 0 included |
| `ModelIo.SaveTxtModel` | code/model_io.py:71-78 | one six-column row per reaction, in model order, under the header `Rxn name, Formula, Gene-reaction association, LB, UB, Objective`; a model without reactions gives a frame with no columns |
| `ModelIo.TxtCellsByHeading` | code/model_io.py:71-77 | read by heading, each line shows the reaction id, formula and rule; the upper bound is under LB, the lower bound under UB, and the raw coefficient under Objective |
| `ModelIo.TxtHeadingsMisreadBounds` | code/model_io.py:74-75 | a reader that trusts the LB/UB headings gets a reaction's bounds right exactly when the lower and upper bounds are equal |
| `ModelIo.TxtSwapExample` | code/model_io.py:74-75 | bounds -10 and 1000 are written as LB 1000, UB -10 |
| `ModelIo.GrowthFails` | code/model_io.py:41 | a solution passes exactly when its status is "optimal" and its objective value is at least 1e-6 |
| `ModelIo.ReadT66Model` | code/model_io.py:28-43 | with the check off, returns the model untouched. A missing required attribute fails, naming the first one missing in the order reactions, metabolites, genes, before anything changes. Otherwise the medium is the supplied map and the objective is "biomass" afterwards, and the call fails exactly when the objective value is below 1e-6 or the status is not "optimal" |
| `SanityGate.FindMissingAttribute` | code/model_io.py:30-33 | finds nothing exactly when reactions, metabolites and genes are all present; otherwise returns the first of them, in that order, that is missing |
| `SanityGate.MissingGenesFails` | code/io.py:31-34 | a model without `genes` fails the attribute gate whatever else it has |
| `Io.MinGlcMediumEntries` | code/io.py:10-12 | the medium has exactly seven keys: EX_dglc_e = 1.44, EX_nh3_e = 10, and EX_h2o_e, EX_o2_e, EX_pi_e, EX_slf_e, EX_h_e = 1000 each |
| `Io.GrowthFails` | code/io.py:40 | a solution passes exactly when its status is "optimal", whatever its objective value |
| `Io.ReadT66Model` | code/io.py:29-42 | with the check off, returns the model untouched. A missing required attribute fails, naming the first one missing in the order reactions, metabolites, genes, before anything changes. Otherwise the medium is MIN_GLC_MEDIUM and the objective is "biomass" afterwards, and the call fails exactly when the status is not "optimal" |
| `Io.StatusOnlyIsLaxer` | code/io.py:40-41 | every solution this variant rejects is rejected by the threshold variant; an optimal solution with objective value 0 passes here and fails there |

## Left out

- Loading and saving through cobra (SBML read and write, YAML, MATLAB) and writing the workbook and the CSV through pandas. These are delegated I/O. The model stops at the rows and the sheet list, and the hard-coded workbook path is not modelled.
- Reading the medium's JSON file in code/model_io.py. The medium it yields is the `minGlcMedium` parameter.
- The LP solve `model.optimize()`. It is the `optimize` parameter, a function of the model contents, the medium and the objective that returns a status and an objective value.
- `build_reaction_string()`, `str(rxn.gpr)`, `gene_reaction_rule` and `rxn.compartments`. They are given fields of `Reaction`. `str(gpr)` and `gene_reaction_rule` are one field, `geneRule`, because cobra renders both the same way.
- cobra's `medium` setter, which rewrites exchange-reaction bounds. Here `medium` is a plain field that takes the given map.
- ModelIo.ReadT66Model, Io.ReadT66Model: cobra's `objective` setter is not modelled. In cobra, `model.objective = 'biomass'` sets the objective coefficient of the `biomass` reaction to 1 and of every other reaction to 0, and it raises when the model has no `biomass` reaction. Here `objective` is a plain field and the reactions, coefficients included, stay as loaded. In the exported workbook of `build_binaries`, which runs the check first, OBJECTIVE is therefore 1 for `biomass` and empty for every other reaction; the model does not capture this.
- Floating point. Bounds, coefficients and the `1e-6` threshold are `real`s that are only copied or compared. A NaN objective value is not modelled; it only arises with a non-optimal status, which both variants reject anyway.
- Annotation values that are lists, which cobra allows and Python would render with `str()`. Values here are strings. The MIRIAM round trips also require that MIRIAM keys contain no '/' or ';' and values no ';'.
- Gene cells. The source puts the Gene object itself under NAME and SHORT NAME. The model uses the gene identifier, which is how cobra renders a gene.
- `build_binaries`, `write_t66_model` and the `__main__` blocks. These only sequence the calls above.
