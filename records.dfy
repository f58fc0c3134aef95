/** The in-memory records a cobra metabolic model is made of, as the exporters see
    them: reactions, metabolites, genes and compartments, with their annotation
    dictionaries. */
module Records {

  datatype Option<T> = None | Some(value: T)

  /** No key occurs twice: what a Python dict guarantees of its items(). */
  predicate UniqueKeys(d: seq<(string, string)>)
  {
    forall i, j :: 0 <= i < j < |d| ==> d[i].0 != d[j].0
  }

  /** A Python dict from strings to strings, as its items() in insertion order. */
  type Dict = d: seq<(string, string)> | UniqueKeys(d)

  function Keys(d: seq<(string, string)>): set<string>
  {
    set i | 0 <= i < |d| :: d[i].0
  }

  /** `d[key]` when `key in d`, else None (the first matching entry). */
  function Lookup(d: seq<(string, string)>, key: string): (r: Option<string>)
    ensures r.None? <==> key !in Keys(d)
    ensures r.Some? ==> (key, r.value) in d
  {
    if |d| == 0 then None
    else if d[0].0 == key then Some(d[0].1)
    else
      var rest := Lookup(d[1..], key);
      assert Keys(d) == {d[0].0} + Keys(d[1..]) by {
        forall k | k in Keys(d) ensures k in {d[0].0} + Keys(d[1..]) {
          var i :| 0 <= i < |d| && d[i].0 == k;
          if i > 0 { assert d[1..][i - 1].0 == k; }
        }
        forall k | k in Keys(d[1..]) ensures k in Keys(d) {
          var i :| 0 <= i < |d[1..]| && d[1..][i].0 == k;
          assert d[i + 1].0 == k;
        }
      }
      rest
  }

  /** In a dict, Lookup finds a value exactly when the pair is an entry. */
  lemma {:induction false} LookupInDict(d: Dict, key: string, value: string)
    ensures Lookup(d, key) == Some(value) <==> (key, value) in d
  {
    if (key, value) in d {
      var r := Lookup(d, key);
      assert r.Some?;
      var i :| 0 <= i < |d| && d[i] == (key, value);
      var j :| 0 <= j < |d| && d[j] == (key, r.value);
      assert i == j;
    }
  }

  /** `a` is `b` with some entries left out: every entry of `a` occurs in `b`, in
      the same order. */
  predicate Subsequence<T(==)>(a: seq<T>, b: seq<T>)
    decreases |b|
  {
    if |a| == 0 then true
    else if |b| == 0 then false
    else if a[0] == b[0] then Subsequence(a[1..], b[1..])
    else Subsequence(a, b[1..])
  }

  /** The entries of `d` whose key is not `excluded`, in their original order:
      the filter of `[... for key, val in d.items() if key != excluded]`. */
  function Kept(d: seq<(string, string)>, excluded: string): (r: seq<(string, string)>)
    ensures |r| <= |d|
    ensures forall p :: p in r <==> p in d && p.0 != excluded
  {
    if |d| == 0 then []
    else
      var rest := Kept(d[1..], excluded);
      assert forall p :: p in d <==> p == d[0] || p in d[1..];
      if d[0].0 == excluded then rest else [d[0]] + rest
  }

  /** Filtering keeps the entries in their original order. */
  lemma {:induction false} KeptInOrder(d: seq<(string, string)>, excluded: string)
    ensures Subsequence(Kept(d, excluded), d)
  {
    if |d| > 0 {
      KeptInOrder(d[1..], excluded);
      var rest := Kept(d[1..], excluded);
      if d[0].0 == excluded {
        assert |rest| > 0 ==> rest[0] in rest && rest[0] != d[0];
      } else {
        assert ([d[0]] + rest)[1..] == rest;
      }
    }
  }

  /** Filtering keeps distinct keys distinct. */
  lemma {:induction false} KeptUnique(d: seq<(string, string)>, excluded: string)
    requires UniqueKeys(d)
    ensures UniqueKeys(Kept(d, excluded))
  {
    if |d| > 0 {
      assert UniqueKeys(d[1..]) by {
        forall i, j | 0 <= i < j < |d[1..]| ensures d[1..][i].0 != d[1..][j].0 {
          assert d[1..][i] == d[i + 1] && d[1..][j] == d[j + 1];
        }
      }
      KeptUnique(d[1..], excluded);
      var rest := Kept(d[1..], excluded);
      if d[0].0 != excluded {
        forall j | 0 <= j < |rest| ensures d[0].0 != rest[j].0 {
          assert rest[j] in d[1..];
          var k :| 0 <= k < |d[1..]| && d[1..][k] == rest[j];
          assert d[k + 1] == rest[j];
        }
        var r := [d[0]] + rest;
        forall i, j | 0 <= i < j < |r| ensures r[i].0 != r[j].0 {
          if i > 0 { assert r[i] == rest[i - 1] && r[j] == rest[j - 1]; }
          else { assert r[j] == rest[j - 1]; }
        }
      }
    }
  }

  /** The entry for `key`, if `d` has one, as a one-entry list. */
  function Pulled(d: seq<(string, string)>, key: string): seq<(string, string)>
  {
    match Lookup(d, key)
    case Some(v) => [(key, v)]
    case None => []
  }

  /** Pulling one entry out of a dict and putting it before the rest keeps the
      keys distinct. */
  lemma FrontUnique(d: Dict, key: string)
    ensures UniqueKeys(Pulled(d, key) + Kept(d, key))
  {
    var kept := Kept(d, key);
    KeptUnique(d, key);
    match Lookup(d, key)
    case None =>
      assert Pulled(d, key) + kept == kept;
    case Some(v) =>
      var f := [(key, v)] + kept;
      forall i, j | 0 <= i < j < |f| ensures f[i].0 != f[j].0 {
        assert f[j] == kept[j - 1];
        if i == 0 {
          assert kept[j - 1] in kept;
        } else {
          assert f[i] == kept[i - 1];
        }
      }
  }

  /** The dict rebuilt from one entry pulled out of it and the remaining entries,
      with the pulled-out entry placed first: what a reader of the two recovers. */
  function Front(d: Dict, key: string): Dict
  {
    FrontUnique(d, key);
    Pulled(d, key) + Kept(d, key)
  }

  /** Moving one entry to the front changes only the order: the result has the
      same entries, and every lookup answers as before. */
  lemma FrontSameDict(d: Dict, key: string)
    ensures forall p :: p in Front(d, key) <==> p in d
    ensures forall k :: Lookup(Front(d, key), k) == Lookup(d, k)
  {
    var f := Front(d, key);
    forall p | p in d ensures p in f {
      if p.0 == key {
        LookupInDict(d, key, p.1);
      } else {
        assert p in Kept(d, key);
      }
    }
    forall k ensures Lookup(f, k) == Lookup(d, k) {
      match Lookup(d, k)
      case Some(v) =>
        LookupInDict(d, k, v);
        LookupInDict(f, k, v);
      case None =>
    }
  }

  /** A cobra Reaction. The equation (`build_reaction_string()`) and the
      gene-reaction rule (`str(gpr)`, which is also what `gene_reaction_rule`
      returns) are taken as given strings. */
  datatype Reaction = Reaction(
    id: string,
    name: string,
    equation: string,
    geneRule: string,
    lowerBound: real,
    upperBound: real,
    objectiveCoefficient: real,
    compartments: set<string>,
    subsystem: string,
    notes: Dict,
    annotation: Dict)

  /** A cobra Metabolite; a formula or charge of None is an absent Option. */
  datatype Metabolite = Metabolite(
    id: string,
    name: string,
    formula: Option<string>,
    charge: Option<int>,
    compartment: string,
    annotation: Dict)

  /** The parts of a cobra Model that the exporters read. Genes are given by their
      identifiers; compartments map a code to a display name. */
  datatype Model = Model(
    id: string,
    name: string,
    reactions: seq<Reaction>,
    metabolites: seq<Metabolite>,
    genes: seq<string>,
    compartments: Dict)
}
