/** code/model_binaries.py: the five sheets `save_xlsx_model` writes, with one row
    per reaction, metabolite, compartment and gene and one for the model itself.
    Readers that recover the records from their rows show what the sheets keep. */
module ModelBinaries {

  import opened Records
  import opened Strings
  import opened Tables
  import ModelIo

  // ---------------------------------------------------------------------------
  // MIRIAM cells

  /** One `key/value` entry of a MIRIAM cell. */
  function Entry(p: (string, string)): (e: string)
    ensures |e| == |p.0| + 1 + |p.1|
    ensures e[..|p.0|] == p.0 && e[|p.0|] == '/' && e[|p.0| + 1..] == p.1
  {
    p.0 + "/" + p.1
  }

  /** The MIRIAM cell: the `key/value` entries of every annotation item whose key is
      not `excluded`, in annotation order, joined by ';'. */
  function Miriam(d: seq<(string, string)>, excluded: string): (cell: string)
    ensures cell == "" <==> Kept(d, excluded) == []
  {
    var kept := Kept(d, excluded);
    var es := Entries(kept);
    JoinEmpty(es, ';');
    Join(es, ';')
  }

  /** When the items can be told apart, a non-empty MIRIAM cell splits on ';' into
      the `key/value` text of each kept item, in order. */
  lemma MiriamSplit(d: seq<(string, string)>, excluded: string)
    requires MiriamSafe(d, excluded)
    requires Miriam(d, excluded) != ""
    ensures Split(Miriam(d, excluded), ';') == Entries(Kept(d, excluded))
  {
    var kept := Kept(d, excluded);
    var es := Entries(kept);
    forall i | 0 <= i < |kept| ensures ';' !in es[i] {
      assert kept[i] in d;
    }
    SplitJoin(es, ';');
  }

  /** The `key/value` text of each item, in order. */
  function Entries(ps: seq<(string, string)>): (es: seq<string>)
    ensures |es| == |ps|
    ensures forall i :: 0 <= i < |ps| ==> es[i] == Entry(ps[i])
  {
    seq(|ps|, i requires 0 <= i < |ps| => Entry(ps[i]))
  }

  /** An entry read back: the key is what precedes the first '/'. */
  function ParseEntry(e: string): Option<(string, string)>
  {
    var key := Split(e, '/')[0];
    if |key| < |e| then Some((key, e[|key| + 1..])) else None
  }

  function ParseEntries(parts: seq<string>): Option<seq<(string, string)>>
  {
    if |parts| == 0 then Some([])
    else
      match (ParseEntry(parts[0]), ParseEntries(parts[1..]))
      case (Some(p), Some(rest)) => Some([p] + rest)
      case _ => None
  }

  /** A MIRIAM cell read back into annotation items; "" holds none. */
  function ReadMiriam(cell: string): Option<seq<(string, string)>>
  {
    if cell == "" then Some([]) else ParseEntries(Split(cell, ';'))
  }

  /** The items a MIRIAM cell lists can be told apart: no key holds '/' or ';' and
      no value holds ';'. */
  predicate MiriamSafe(d: seq<(string, string)>, excluded: string)
  {
    forall p :: p in d && p.0 != excluded ==> '/' !in p.0 && ';' !in p.0 && ';' !in p.1
  }

  lemma ParseEntryOf(p: (string, string))
    requires '/' !in p.0
    ensures ParseEntry(Entry(p)) == Some(p)
  {
    SplitAtFirst(p.0, '/', p.1);
    assert Entry(p) == p.0 + ['/'] + p.1;
    assert Entry(p)[|p.0| + 1..] == p.1;
  }

  lemma {:induction false} ParseEntriesOf(ps: seq<(string, string)>)
    requires forall i :: 0 <= i < |ps| ==> '/' !in ps[i].0
    ensures ParseEntries(Entries(ps)) == Some(ps)
  {
    if |ps| > 0 {
      ParseEntryOf(ps[0]);
      ParseEntriesOf(ps[1..]);
      assert Entries(ps)[1..] == Entries(ps[1..]);
      assert [ps[0]] + ps[1..] == ps;
    }
  }

  /** Reading a MIRIAM cell back gives exactly the annotation items it was built
      from, in order: every item except the excluded key. */
  lemma MiriamRoundTrip(d: seq<(string, string)>, excluded: string)
    requires MiriamSafe(d, excluded)
    ensures ReadMiriam(Miriam(d, excluded)) == Some(Kept(d, excluded))
  {
    var kept := Kept(d, excluded);
    forall i | 0 <= i < |kept| ensures '/' !in kept[i].0 {
      assert kept[i] in d;
    }
    if |kept| > 0 {
      MiriamSplit(d, excluded);
      ParseEntriesOf(kept);
    }
  }

  /** A MIRIAM cell is the empty string, not an absent cell, exactly when every
      annotation key is the excluded one. */
  lemma MiriamEmpty(d: seq<(string, string)>, excluded: string)
    ensures Miriam(d, excluded) == "" <==> forall p :: p in d ==> p.0 == excluded
  {
    var kept := Kept(d, excluded);
    if |kept| > 0 {
      assert kept[0] in d;
    }
  }

  // ---------------------------------------------------------------------------
  // RXNS

  /** The RXNS header, in column order. */
  const RxnColumns: seq<string> :=
    ["#", "ID", "NAME", "EQUATION", "EC-NUMBER", "GENE ASSOCIATION", "LOWER BOUND",
     "UPPER BOUND", "OBJECTIVE", "COMPARTMENT", "MIRIAM", "SUBSYSTEM", "REPLACEMENT ID",
     "NOTE", "REFERENCE", "CONFIDENCE SCORE"]

  /** One RXNS row dict. */
  datatype RxnRow = RxnRow(
    number: Cell,
    id: Cell,
    name: Cell,
    equation: Cell,
    ecNumber: Cell,
    geneAssociation: Cell,
    lowerBound: Cell,
    upperBound: Cell,
    objective: Cell,
    compartment: Cell,
    miriam: Cell,
    subsystem: Cell,
    replacementId: Cell,
    note: Cell,
    reference: Cell,
    confidenceScore: Cell)
  {
    /** The cells under RxnColumns, in that order. */
    function Cells(): (cs: seq<Cell>)
      ensures |cs| == |RxnColumns|
    {
      [number, id, name, equation, ecNumber, geneAssociation, lowerBound, upperBound,
       objective, compartment, miriam, subsystem, replacementId, note, reference,
       confidenceScore]
    }
  }

  function TextOrEmpty(o: Option<string>): Cell
  {
    match o
    case Some(s) => Text(s)
    case None => Empty
  }

  /** The row dict built for one reaction. */
  function ReactionRow(rxn: Reaction): (row: RxnRow)
    ensures row.number == Empty && row.replacementId == Empty
    ensures row.reference == Empty && row.confidenceScore == Empty
    ensures row.id == Text(rxn.id) && row.name == Text(rxn.name)
    ensures row.equation == Text(rxn.equation) && row.geneAssociation == Text(rxn.geneRule)
    ensures row.ecNumber.Empty? <==> "ec-code" !in Keys(rxn.annotation)
    ensures row.ecNumber.Empty? || (row.ecNumber.Text? && ("ec-code", row.ecNumber.s) in rxn.annotation)
    ensures row.compartment == Codes(rxn.compartments) && row.subsystem == Text(rxn.subsystem)
    ensures row.note == Pairs(rxn.notes)
    ensures row.objective.Empty? <==> rxn.objectiveCoefficient == 0.0
    ensures !row.objective.Empty? ==> row.objective == Number(rxn.objectiveCoefficient)
    ensures row.lowerBound == Number(rxn.lowerBound) && row.upperBound == Number(rxn.upperBound)
  {
    var ec := Lookup(rxn.annotation, "ec-code");
    var objCoeff := if rxn.objectiveCoefficient == 0.0 then Empty else Number(rxn.objectiveCoefficient);
    var miriam := Miriam(rxn.annotation, "ec-code");
    RxnRow(Empty, Text(rxn.id), Text(rxn.name), Text(rxn.equation), TextOrEmpty(ec),
           Text(rxn.geneRule), Number(rxn.lowerBound), Number(rxn.upperBound), objCoeff,
           Codes(rxn.compartments), Text(miriam), Text(rxn.subsystem), Empty,
           Pairs(rxn.notes), Empty, Empty)
  }

  /** The EC-number item of an annotation, as a list of at most one item. */
  function EcItems(ec: Option<string>): seq<(string, string)>
  {
    match ec
    case Some(v) => [("ec-code", v)]
    case None => []
  }

  /** A reaction read back from its RXNS row: the annotation is the EC number followed
      by the MIRIAM entries, and an empty objective cell is a zero coefficient. */
  function ReadReactionRow(row: RxnRow): Option<Reaction>
  {
    match row
    case RxnRow(_, Text(id), Text(name), Text(equation), ec, Text(geneRule), Number(lb),
                Number(ub), objective, Codes(compartments), Text(miriam), Text(subsystem),
                _, Pairs(notes), _, _) =>
      var ecItems := match ec
        case Empty => Some([])
        case Text(v) => Some([("ec-code", v)])
        case _ => None;
      var coefficient := match objective
        case Empty => Some(0.0)
        case Number(x) => Some(x)
        case _ => None;
      var others := ReadMiriam(miriam);
      if ecItems.Some? && coefficient.Some? && others.Some?
         && UniqueKeys(ecItems.value + others.value) && UniqueKeys(notes)
      then
        Some(Reaction(id, name, equation, geneRule, lb, ub, coefficient.value,
                      compartments, subsystem, notes, ecItems.value + others.value))
      else None
    case _ => None
  }

  /** RXNS loses nothing of a reaction but the position of its EC number among the
      annotation items (which Front moves to the front). */
  lemma ReactionRowRoundTrip(rxn: Reaction)
    requires MiriamSafe(rxn.annotation, "ec-code")
    ensures ReadReactionRow(ReactionRow(rxn)) ==
      Some(rxn.(annotation := Front(rxn.annotation, "ec-code")))
  {
    var row := ReactionRow(rxn);
    MiriamRoundTrip(rxn.annotation, "ec-code");
    FrontUnique(rxn.annotation, "ec-code");
    ReadReactionRowOf(row, rxn, Lookup(rxn.annotation, "ec-code"), Kept(rxn.annotation, "ec-code"));
  }

  /** Reading a RXNS row whose cells hold the given reaction's fields, an EC number
      and a MIRIAM cell that reads back as `kept`. */
  lemma ReadReactionRowOf(row: RxnRow, rxn: Reaction, ec: Option<string>, kept: seq<(string, string)>)
    requires row.id == Text(rxn.id) && row.name == Text(rxn.name)
    requires row.equation == Text(rxn.equation) && row.geneAssociation == Text(rxn.geneRule)
    requires row.lowerBound == Number(rxn.lowerBound) && row.upperBound == Number(rxn.upperBound)
    requires row.objective == if rxn.objectiveCoefficient == 0.0 then Empty else Number(rxn.objectiveCoefficient)
    requires row.compartment == Codes(rxn.compartments) && row.subsystem == Text(rxn.subsystem)
    requires row.note == Pairs(rxn.notes) && row.ecNumber == TextOrEmpty(ec)
    requires row.miriam.Text? && ReadMiriam(row.miriam.s) == Some(kept)
    requires UniqueKeys(EcItems(ec) + kept)
    ensures ReadReactionRow(row) == Some(rxn.(annotation := EcItems(ec) + kept))
  {
  }

  /** The MIRIAM cell of a reaction lists its annotation without "ec-code"; it is
      the empty string exactly when its only annotation key, if any, is "ec-code". */
  lemma ReactionMiriamEmpty(rxn: Reaction)
    ensures ReactionRow(rxn).miriam == Text(Miriam(rxn.annotation, "ec-code"))
    ensures ReactionRow(rxn).miriam == Text("") <==>
      forall p :: p in rxn.annotation ==> p.0 == "ec-code"
  {
    MiriamEmpty(rxn.annotation, "ec-code");
  }

  /** The annotation `{"ec-code": "1.1.1.1", "kegg": "R00001"}` gives EC-NUMBER
      "1.1.1.1" and MIRIAM "kegg/R00001". */
  lemma EcMiriamExample(rxn: Reaction)
    requires rxn.annotation == [("ec-code", "1.1.1.1"), ("kegg", "R00001")]
    ensures ReactionRow(rxn).ecNumber == Text("1.1.1.1")
    ensures ReactionRow(rxn).miriam == Text("kegg/R00001")
  {
    var d := rxn.annotation;
    assert Kept(d[1..], "ec-code") == [("kegg", "R00001")];
    assert Kept(d, "ec-code") == [("kegg", "R00001")];
    assert Entry(("kegg", "R00001")) == "kegg/R00001";
    assert Entries([("kegg", "R00001")]) == ["kegg/R00001"];
    assert Lookup(d, "ec-code") == Some("1.1.1.1");
  }

  /** The bounds of RXNS are the reaction's bounds in their own columns, while the
      txt summary puts them under each other's headings; the txt objective is the
      raw coefficient, which RXNS drops when it is zero. */
  lemma TxtAgreesWithRxns(rxn: Reaction)
    ensures ModelIo.TxtRowOf(rxn).lb == ReactionRow(rxn).upperBound
    ensures ModelIo.TxtRowOf(rxn).ub == ReactionRow(rxn).lowerBound
    ensures ReactionRow(rxn).objective ==
      if rxn.objectiveCoefficient == 0.0 then Empty else ModelIo.TxtRowOf(rxn).objective
  {
  }

  /** The RXNS loop: one row dict per reaction, appended in model order. */
  method ReactionRows(reactions: seq<Reaction>) returns (rows: seq<RxnRow>)
    ensures |rows| == |reactions|
    ensures forall i :: 0 <= i < |reactions| ==> rows[i] == ReactionRow(reactions[i])
  {
    rows := [];
    for i := 0 to |reactions|
      invariant |rows| == i
      invariant forall j :: 0 <= j < i ==> rows[j] == ReactionRow(reactions[j])
    {
      rows := rows + [ReactionRow(reactions[i])];
    }
  }

  // ---------------------------------------------------------------------------
  // METS

  /** The METS header, in column order. */
  const MetColumns: seq<string> :=
    ["#", "ID", "NAME", "UNCONSTRAINED", "MIRIAM", "COMPOSITION", "InChI", "COMPARTMENT",
     "REPLACEMENT ID", "CHARGE"]

  /** One METS row dict. */
  datatype MetRow = MetRow(
    number: Cell,
    id: Cell,
    name: Cell,
    unconstrained: Cell,
    miriam: Cell,
    composition: Cell,
    inchi: Cell,
    compartment: Cell,
    replacementId: Cell,
    charge: Cell)
  {
    /** The cells under MetColumns, in that order. */
    function Cells(): (cs: seq<Cell>)
      ensures |cs| == |MetColumns|
    {
      [number, id, name, unconstrained, miriam, composition, inchi, compartment,
       replacementId, charge]
    }
  }

  /** The ID column of METS: the name followed by the compartment in brackets. */
  function TaggedName(name: string, compartment: string): (tag: string)
    ensures |tag| == |name| + |compartment| + 2
    ensures tag[..|name|] == name && tag[|name|] == '['
    ensures tag[|name| + 1..|tag| - 1] == compartment && tag[|tag| - 1] == ']'
  {
    name + "[" + compartment + "]"
  }

  /** The row dict built for one metabolite. */
  function MetaboliteRow(met: Metabolite): (row: MetRow)
    ensures row.number == Empty && row.unconstrained == Empty
    ensures row.id == Text(TaggedName(met.name, met.compartment))
    ensures row.name == Text(met.name) && row.compartment == Text(met.compartment)
    ensures row.replacementId == Text(met.id)
    ensures row.inchi.Empty? <==> "inchi" !in Keys(met.annotation)
    ensures row.inchi.Empty? || (row.inchi.Text? && ("inchi", row.inchi.s) in met.annotation)
    ensures row.composition.Empty? || row.inchi.Empty?
    ensures row.inchi.Empty? ==> row.composition == TextOrEmpty(met.formula)
    ensures met.charge.Some? ==> row.charge == Integer(met.charge.value)
    ensures met.charge.None? ==> row.charge == Empty
  {
    var miriam := Miriam(met.annotation, "inchi");
    var inchi := Lookup(met.annotation, "inchi");
    MetRow(Empty, Text(TaggedName(met.name, met.compartment)), Text(met.name), Empty,
           Text(miriam), if inchi.None? then TextOrEmpty(met.formula) else Empty,
           TextOrEmpty(inchi), Text(met.compartment), Text(met.id),
           match met.charge case Some(n) => Integer(n) case None => Empty)
  }

  /** The InChI item of an annotation, as a list of at most one item. */
  function InchiItems(inchi: Option<string>): seq<(string, string)>
  {
    match inchi
    case Some(v) => [("inchi", v)]
    case None => []
  }

  /** A metabolite read back from its METS row: the annotation is the InChI followed
      by the MIRIAM entries; the formula is COMPOSITION. */
  function ReadMetaboliteRow(row: MetRow): Option<Metabolite>
  {
    match row
    case MetRow(_, Text(tagged), Text(name), _, Text(miriam), composition, inchi,
                Text(compartment), Text(id), charge) =>
      var formula := match composition
        case Empty => Some(None)
        case Text(f) => Some(Some(f))
        case _ => None;
      var inchiItems := match inchi
        case Empty => Some([])
        case Text(v) => Some([("inchi", v)])
        case _ => None;
      var chargeValue := match charge
        case Empty => Some(None)
        case Integer(n) => Some(Some(n))
        case _ => None;
      var others := ReadMiriam(miriam);
      if tagged == TaggedName(name, compartment)
         && formula.Some? && inchiItems.Some? && chargeValue.Some? && others.Some?
         && UniqueKeys(inchiItems.value + others.value)
      then
        Some(Metabolite(id, name, formula.value, chargeValue.value, compartment,
                        inchiItems.value + others.value))
      else None
    case _ => None
  }

  /** METS loses the position of the InChI among the annotation items and, when
      there is an InChI, the formula; nothing else. */
  lemma MetaboliteRowRoundTrip(met: Metabolite)
    requires MiriamSafe(met.annotation, "inchi")
    ensures ReadMetaboliteRow(MetaboliteRow(met)) ==
      Some(met.(annotation := Front(met.annotation, "inchi"),
                formula := if "inchi" in Keys(met.annotation) then None else met.formula))
  {
    var row := MetaboliteRow(met);
    MiriamRoundTrip(met.annotation, "inchi");
    FrontUnique(met.annotation, "inchi");
    var inchi := Lookup(met.annotation, "inchi");
    var formula := if inchi.Some? then None else met.formula;
    ReadMetaboliteRowOf(row, met.id, met.name, formula, inchi, met.charge, met.compartment,
                        Kept(met.annotation, "inchi"));
  }

  /** Reading a METS row whose cells hold the given parts. */
  lemma ReadMetaboliteRowOf(row: MetRow, id: string, name: string, formula: Option<string>,
                            inchi: Option<string>, charge: Option<int>, compartment: string,
                            kept: seq<(string, string)>)
    requires row.id == Text(TaggedName(name, compartment)) && row.name == Text(name)
    requires row.miriam.Text? && ReadMiriam(row.miriam.s) == Some(kept)
    requires row.composition == TextOrEmpty(formula) && row.inchi == TextOrEmpty(inchi)
    requires row.compartment == Text(compartment) && row.replacementId == Text(id)
    requires row.charge == match charge case Some(n) => Integer(n) case None => Empty
    requires UniqueKeys(InchiItems(inchi) + kept)
    ensures ReadMetaboliteRow(row) ==
      Some(Metabolite(id, name, formula, charge, compartment, InchiItems(inchi) + kept))
  {
  }

  /** The MIRIAM cell of a metabolite lists its annotation without "inchi"; it is
      the empty string exactly when its only annotation key, if any, is "inchi". */
  lemma MetaboliteMiriamEmpty(met: Metabolite)
    ensures MetaboliteRow(met).miriam == Text(Miriam(met.annotation, "inchi"))
    ensures MetaboliteRow(met).miriam == Text("") <==>
      forall p :: p in met.annotation ==> p.0 == "inchi"
  {
    MiriamEmpty(met.annotation, "inchi");
  }

  /** A compartment code without a '[' is never cut short by a longer one: the
      bracket of the shorter code's tag falls inside the longer code. */
  lemma TaggedNameBracket(n1: string, c1: string, n2: string, c2: string)
    requires '[' !in c2
    requires |c1| < |c2|
    ensures TaggedName(n1, c1) != TaggedName(n2, c2)
  {
    var t1, t2 := TaggedName(n1, c1), TaggedName(n2, c2);
    if |t1| == |t2| {
      var k := |n1| - |n2| - 1;
      assert t1[|n1|] == '[';
      assert t2[|n1|] == c2[k];
    }
  }

  /** The ID column determines name and compartment when compartment codes hold no
      '[': two metabolites share an ID only if they share both. */
  lemma TaggedNameUnambiguous(n1: string, c1: string, n2: string, c2: string)
    requires '[' !in c1 && '[' !in c2
    requires TaggedName(n1, c1) == TaggedName(n2, c2)
    ensures n1 == n2 && c1 == c2
  {
    var t := TaggedName(n1, c1);
    if |c1| < |c2| {
      TaggedNameBracket(n1, c1, n2, c2);
      assert false;
    } else if |c2| < |c1| {
      TaggedNameBracket(n2, c2, n1, c1);
      assert false;
    }
    assert n1 == t[..|n1|] == n2;
    assert c1 == t[|n1| + 1..|t| - 1] == c2;
  }

  /** The METS loop: one row dict per metabolite, appended in model order. */
  method MetaboliteRows(metabolites: seq<Metabolite>) returns (rows: seq<MetRow>)
    ensures |rows| == |metabolites|
    ensures forall i :: 0 <= i < |metabolites| ==> rows[i] == MetaboliteRow(metabolites[i])
  {
    rows := [];
    for i := 0 to |metabolites|
      invariant |rows| == i
      invariant forall j :: 0 <= j < i ==> rows[j] == MetaboliteRow(metabolites[j])
    {
      rows := rows + [MetaboliteRow(metabolites[i])];
    }
  }

  // ---------------------------------------------------------------------------
  // COMPS, GENES, MODEL

  /** The COMPS header, in column order. */
  const CompColumns: seq<string> := ["#", "ABBREVIATION", "NAME", "INSIDE", "MIRIAM"]

  /** One COMPS row dict. */
  datatype CompRow = CompRow(number: Cell, abbreviation: Cell, name: Cell, inside: Cell, miriam: Cell)
  {
    function Cells(): (cs: seq<Cell>)
      ensures |cs| == |CompColumns|
    {
      [number, abbreviation, name, inside, miriam]
    }
  }

  /** One COMPS row per compartment entry, in dict order. */
  function CompartmentRows(compartments: seq<(string, string)>): (rows: seq<CompRow>)
    ensures |rows| == |compartments|
    ensures forall i :: 0 <= i < |rows| ==>
      rows[i].number == Empty && rows[i].inside == Empty && rows[i].miriam == Empty
  {
    seq(|compartments|, i requires 0 <= i < |compartments| =>
      CompRow(Empty, Text(compartments[i].0), Text(compartments[i].1), Empty, Empty))
  }

  /** Compartment entries read back from COMPS: ABBREVIATION is the code, NAME the name. */
  function ReadCompartmentRows(rows: seq<CompRow>): Option<seq<(string, string)>>
  {
    if |rows| == 0 then Some([])
    else
      match (rows[0], ReadCompartmentRows(rows[1..]))
      case (CompRow(_, Text(code), Text(name), _, _), Some(rest)) => Some([(code, name)] + rest)
      case _ => None
  }

  /** COMPS keeps every compartment entry, in order. */
  lemma {:induction false} CompartmentRowsRoundTrip(compartments: seq<(string, string)>)
    ensures ReadCompartmentRows(CompartmentRows(compartments)) == Some(compartments)
  {
    if |compartments| > 0 {
      CompartmentRowsRoundTrip(compartments[1..]);
      assert CompartmentRows(compartments)[1..] == CompartmentRows(compartments[1..]);
      assert [compartments[0]] + compartments[1..] == compartments;
    }
  }

  /** The GENES header, in column order. */
  const GeneColumns: seq<string> := ["#", "NAME", "MIRIAM", "SHORT NAME", "COMPARTMENT"]

  /** One GENES row dict. */
  datatype GeneRow = GeneRow(number: Cell, name: Cell, miriam: Cell, shortName: Cell, compartment: Cell)
  {
    function Cells(): (cs: seq<Cell>)
      ensures |cs| == |GeneColumns|
    {
      [number, name, miriam, shortName, compartment]
    }
  }

  /** One GENES row per gene, in model order, named by the gene identifier twice. */
  function GeneRows(genes: seq<string>): (rows: seq<GeneRow>)
    ensures |rows| == |genes|
    ensures forall i :: 0 <= i < |rows| ==>
      rows[i].name == rows[i].shortName
      && rows[i].number == Empty && rows[i].miriam == Empty && rows[i].compartment == Empty
  {
    seq(|genes|, i requires 0 <= i < |genes| => GeneRow(Empty, Text(genes[i]), Empty, Text(genes[i]), Empty))
  }

  /** Gene identifiers read back from GENES. */
  function ReadGeneRows(rows: seq<GeneRow>): Option<seq<string>>
  {
    if |rows| == 0 then Some([])
    else
      match (rows[0], ReadGeneRows(rows[1..]))
      case (GeneRow(_, Text(gene), _, _, _), Some(rest)) => Some([gene] + rest)
      case _ => None
  }

  /** GENES keeps every gene, in order. */
  lemma {:induction false} GeneRowsRoundTrip(genes: seq<string>)
    ensures ReadGeneRows(GeneRows(genes)) == Some(genes)
  {
    if |genes| > 0 {
      GeneRowsRoundTrip(genes[1..]);
      assert GeneRows(genes)[1..] == GeneRows(genes[1..]);
      assert [genes[0]] + genes[1..] == genes;
    }
  }

  /** The MODEL header, in column order. */
  const ModelColumns: seq<string> :=
    ["#", "ID", "NAME", "TAXONOMY", "DEFAULT LOWER", "DEFAULT UPPER", "CONTACT GIVEN NAME",
     "CONTACT FAMILY NAME", "CONTACT EMAIL", "ORGANIZATION", "NOTES"]

  /** One MODEL row dict. */
  datatype ModelRow = ModelRow(
    number: Cell,
    id: Cell,
    name: Cell,
    taxonomy: Cell,
    defaultLower: Cell,
    defaultUpper: Cell,
    contactGivenName: Cell,
    contactFamilyName: Cell,
    contactEmail: Cell,
    organization: Cell,
    notes: Cell)
  {
    function Cells(): (cs: seq<Cell>)
      ensures |cs| == |ModelColumns|
    {
      [number, id, name, taxonomy, defaultLower, defaultUpper, contactGivenName,
       contactFamilyName, contactEmail, organization, notes]
    }
  }

  /** The single MODEL row: the model's ID and NAME, every other cell empty. */
  function ModelInfoRows(m: Model): (rows: seq<ModelRow>)
    ensures |rows| == 1
    ensures rows[0].id == Text(m.id) && rows[0].name == Text(m.name)
    ensures forall k :: 0 <= k < |ModelColumns| && k != 1 && k != 2 ==> rows[0].Cells()[k] == Empty
  {
    [ModelRow(Empty, Text(m.id), Text(m.name), Empty, Empty, Empty, Empty, Empty, Empty,
              Empty, Empty)]
  }

  // ---------------------------------------------------------------------------
  // The workbook

  /** The sheet names, in the order the sheets are written. */
  const SheetNames: seq<string> := ["RXNS", "METS", "COMPS", "GENES", "MODEL"]

  /** `save_xlsx_model`: the five sheets, each a frame of its row dicts. */
  method SaveXlsxModel(m: Model) returns (book: seq<Sheet>)
    ensures |book| == |SheetNames|
    ensures forall k :: 0 <= k < |book| ==> book[k].name == SheetNames[k] && Rectangular(book[k].frame)
    ensures book[0].frame.columns == (if |m.reactions| == 0 then [] else RxnColumns)
    ensures |book[0].frame.rows| == |m.reactions|
    ensures forall i :: 0 <= i < |m.reactions| ==>
      book[0].frame.rows[i] == ReactionRow(m.reactions[i]).Cells()
    ensures book[1].frame.columns == (if |m.metabolites| == 0 then [] else MetColumns)
    ensures |book[1].frame.rows| == |m.metabolites|
    ensures forall i :: 0 <= i < |m.metabolites| ==>
      book[1].frame.rows[i] == MetaboliteRow(m.metabolites[i]).Cells()
    ensures book[2].frame.columns == (if |m.compartments| == 0 then [] else CompColumns)
    ensures |book[2].frame.rows| == |m.compartments|
    ensures forall i :: 0 <= i < |m.compartments| ==>
      book[2].frame.rows[i] == CompartmentRows(m.compartments)[i].Cells()
    ensures book[3].frame.columns == (if |m.genes| == 0 then [] else GeneColumns)
    ensures |book[3].frame.rows| == |m.genes|
    ensures forall i :: 0 <= i < |m.genes| ==>
      book[3].frame.rows[i] == GeneRows(m.genes)[i].Cells()
    ensures book[4].frame == Frame(ModelColumns, [ModelInfoRows(m)[0].Cells()])
  {
    var rxnRows := ReactionRows(m.reactions);
    var rxnFrame := DataFrame(RxnColumns, seq(|rxnRows|, i requires 0 <= i < |rxnRows| => rxnRows[i].Cells()));

    var metRows := MetaboliteRows(m.metabolites);
    var metFrame := DataFrame(MetColumns, seq(|metRows|, i requires 0 <= i < |metRows| => metRows[i].Cells()));

    var compRows := CompartmentRows(m.compartments);
    var compFrame := DataFrame(CompColumns, seq(|compRows|, i requires 0 <= i < |compRows| => compRows[i].Cells()));

    var geneRows := GeneRows(m.genes);
    var geneFrame := DataFrame(GeneColumns, seq(|geneRows|, i requires 0 <= i < |geneRows| => geneRows[i].Cells()));

    var modelRows := ModelInfoRows(m);
    var modelFrame := DataFrame(ModelColumns, seq(|modelRows|, i requires 0 <= i < |modelRows| => modelRows[i].Cells()));

    book := [Sheet("RXNS", rxnFrame), Sheet("METS", metFrame), Sheet("COMPS", compFrame),
             Sheet("GENES", geneFrame), Sheet("MODEL", modelFrame)];
  }
}
