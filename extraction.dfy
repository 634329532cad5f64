/**
 * The occupied-territory extractor: a list comprehension over the feed's features
 * that keeps the geometry of every feature whose label (the whitespace-stripped
 * second "///"-piece of its name) is an occupied category and whose geometry is
 * valid. The whole comprehension sits inside one `try`: the first feature that
 * raises (no "///" in its name, a matching feature with no geometry, ...) aborts
 * it, and the extractor then returns an empty frame.
 *
 * `shape` (GeoJSON to geometry, None where shapely raises) and `isValid` are the
 * geometry library's operations, passed in as functions.
 */
module Extraction {
  import opened Wrappers
  import opened Text
  import opened Feed
  import opened Settings
  import opened Names

  /** `feature.get("properties", {}).get("name", "")`; None where it raises. */
  function NameOf<J>(f: Feature<J>): Option<string>
  {
    match f.properties
    case Absent => Some("")
    case Mistyped => None
    case Present(p) =>
      match p.name
      case Absent => Some("")
      case Mistyped => None
      case Present(s) => Some(s)
  }

  /** The effect of one feature on the comprehension. */
  datatype Verdict<G> = Skip | Keep(geometry: G) | Raise

  /**
   * The comprehension's condition for one feature. Validity is asked for only when
   * the label matched, because `and` short-circuits; the kept value is `shape`
   * applied again to the same geometry, hence the same value.
   */
  function Classify<J, G>(f: Feature<J>, occupied: set<string>, shape: J -> Option<G>,
                          isValid: G -> bool): Verdict<G>
  {
    match NameOf(f)
    case None => Raise
    case Some(name) => Select(LabelOf(name), f.geometry, occupied, shape, isValid)
  }

  /** The condition once the label has been parsed (None: indexing `[1]` raised). */
  function Select<J, G>(parsed: Option<string>, geometry: Option<J>, occupied: set<string>,
                        shape: J -> Option<G>, isValid: G -> bool): Verdict<G>
  {
    match parsed
    case None => Raise
    case Some(category) =>
      if category !in occupied then Skip
      else
        match geometry
        case None => Raise
        case Some(j) =>
          match shape(j)
          case None => Raise
          case Some(g) => if isValid(g) then Keep(g) else Skip
  }

  /**
   * A list comprehension whose condition may raise: the kept values in order, or
   * None as soon as one element raises.
   */
  function Comprehension<F, G>(fs: seq<F>, verdict: F -> Verdict<G>): (r: Option<seq<G>>)
    ensures r.Some? ==> |r.value| <= |fs|
  {
    if fs == [] then Some([])
    else
      match verdict(fs[0])
      case Raise => None
      case Skip => Comprehension(fs[1..], verdict)
      case Keep(g) =>
        match Comprehension(fs[1..], verdict)
        case None => None
        case Some(rest) => Some([g] + rest)
  }

  /** The comprehension over the feed's features, feature by feature. */
  function Territories<J, G>(fs: seq<Feature<J>>, occupied: set<string>, shape: J -> Option<G>,
                             isValid: G -> bool): (r: Option<seq<G>>)
    ensures r.Some? ==> |r.value| <= |fs|
  {
    if fs == [] then Some([])
    else
      match Classify(fs[0], occupied, shape, isValid)
      case Raise => None
      case Skip => Territories(fs[1..], occupied, shape, isValid)
      case Keep(g) =>
        match Territories(fs[1..], occupied, shape, isValid)
        case None => None
        case Some(rest) => Some([g] + rest)
  }

  /** The extractor's comprehension is the general one with `Classify` as its condition. */
  lemma {:induction false} TerritoriesIsComprehension<J, G>(fs: seq<Feature<J>>, occupied: set<string>,
                                                            shape: J -> Option<G>, isValid: G -> bool)
    ensures Territories(fs, occupied, shape, isValid)
         == Comprehension(fs, f => Classify(f, occupied, shape, isValid))
  {
    if fs != [] {
      TerritoriesIsComprehension(fs[1..], occupied, shape, isValid);
    }
  }

  /** `raw_data.get("map", {}).get("features", [])`; None where it raises. */
  function FeaturesOf<J>(doc: Document<J>): Option<seq<Feature<J>>>
  {
    match doc
    case NotObject(_) => None
    case Object(m, _) =>
      match m
      case Absent => Some([])
      case Mistyped => None
      case Present(mo) =>
        match mo.features
        case Absent => Some([])
        case Mistyped => None
        case Present(fs) => Some(fs)
  }

  /** `extract_occupied_territories`: the kept geometries, or nothing on any error. */
  function ExtractOccupiedTerritories<J, G>(cfg: Config, doc: Document<J>, shape: J -> Option<G>,
                                            isValid: G -> bool): seq<G>
  {
    match FeaturesOf(doc)
    case None => []
    case Some(fs) =>
      match Territories(fs, cfg.occupiedTerritories, shape, isValid)
      case None => []
      case Some(r) => r
  }

  /**
   * A feature is kept exactly when the stripped text between the first two
   * delimiters of its name is an occupied category and its geometry is present,
   * readable and valid; what is kept is that geometry.
   */
  lemma KeptIff<J, G>(f: Feature<J>, occupied: set<string>, shape: J -> Option<G>, isValid: G -> bool,
                      name: string, i: nat, j: nat)
    requires NameOf(f) == Some(name)
    requires FirstDelimiterFrom(name, 0, i)
    requires PieceEndsAt(name, i + 3, j)
    ensures i + 3 <= j <= |name|
    ensures Classify(f, occupied, shape, isValid).Keep? <==>
      && Strip(name[i + 3..j]) in occupied
      && f.geometry.Some? && shape(f.geometry.value).Some?
      && isValid(shape(f.geometry.value).value)
    ensures Classify(f, occupied, shape, isValid).Keep? ==>
      Classify(f, occupied, shape, isValid).geometry == shape(f.geometry.value).value
  {
    LabelBetweenDelimiters(name, i, j);
    SelectKeepsIff(Strip(name[i + 3..j]), f.geometry, occupied, shape, isValid);
  }

  lemma SelectKeepsIff<J, G>(category: string, geometry: Option<J>, occupied: set<string>,
                             shape: J -> Option<G>, isValid: G -> bool)
    ensures Select(Some(category), geometry, occupied, shape, isValid).Keep? <==>
      && category in occupied
      && geometry.Some? && shape(geometry.value).Some?
      && isValid(shape(geometry.value).value)
    ensures Select(Some(category), geometry, occupied, shape, isValid).Keep? ==>
      Select(Some(category), geometry, occupied, shape, isValid).geometry == shape(geometry.value).value
  {
  }

  /** The comprehension fails exactly when some element raises. */
  lemma {:induction false} ComprehensionFailsIff<F, G>(fs: seq<F>, verdict: F -> Verdict<G>)
    ensures Comprehension(fs, verdict).None? <==> exists i :: 0 <= i < |fs| && verdict(fs[i]).Raise?
  {
    if fs != [] {
      ComprehensionFailsIff(fs[1..], verdict);
      if !verdict(fs[0]).Raise? {
        forall i | 1 <= i < |fs|
          ensures fs[i] == fs[1..][i - 1]
        {
        }
      }
    }
  }

  /**
   * Without an error the result is exactly the kept values, in the order of the
   * elements they came from: `idx` lists the kept elements' positions, in
   * increasing order, and every kept element is among them.
   */
  lemma ComprehensionKeepsOrder<F, G>(fs: seq<F>, verdict: F -> Verdict<G>)
      returns (idx: seq<nat>)
    requires Comprehension(fs, verdict).Some?
    ensures |idx| == |Comprehension(fs, verdict).value|
    ensures forall k :: 0 <= k < |idx| ==>
      idx[k] < |fs| && verdict(fs[idx[k]]) == Keep(Comprehension(fs, verdict).value[k])
    ensures forall k, l :: 0 <= k < l < |idx| ==> idx[k] < idx[l]
    ensures forall i :: 0 <= i < |fs| && verdict(fs[i]).Keep? ==> i in idx
  {
    idx := KeptPositions(fs, verdict, 0);
    KeptPositionsIncrease(fs, verdict, 0);
    KeptPositionsMatch(fs, verdict, 0);
    KeptPositionsComplete(fs, verdict, 0);
  }

  /** The positions, counted from `base`, of the elements the condition keeps. */
  function KeptPositions<F, G>(fs: seq<F>, verdict: F -> Verdict<G>, base: nat): seq<nat>
  {
    if fs == [] then []
    else (if verdict(fs[0]).Keep? then [base] else []) + KeptPositions(fs[1..], verdict, base + 1)
  }

  lemma {:induction false} KeptPositionsIncrease<F, G>(fs: seq<F>, verdict: F -> Verdict<G>, base: nat)
    ensures forall k :: 0 <= k < |KeptPositions(fs, verdict, base)| ==>
      base <= KeptPositions(fs, verdict, base)[k] < base + |fs|
    ensures forall k, l :: 0 <= k < l < |KeptPositions(fs, verdict, base)| ==>
      KeptPositions(fs, verdict, base)[k] < KeptPositions(fs, verdict, base)[l]
  {
    if fs != [] {
      KeptPositionsIncrease(fs[1..], verdict, base + 1);
    }
  }

  lemma {:induction false} KeptPositionsMatch<F, G>(fs: seq<F>, verdict: F -> Verdict<G>, base: nat)
    requires Comprehension(fs, verdict).Some?
    ensures |KeptPositions(fs, verdict, base)| == |Comprehension(fs, verdict).value|
    ensures forall k :: 0 <= k < |KeptPositions(fs, verdict, base)| ==>
      && base <= KeptPositions(fs, verdict, base)[k] < base + |fs|
      && verdict(fs[KeptPositions(fs, verdict, base)[k] - base]) == Keep(Comprehension(fs, verdict).value[k])
  {
    if fs != [] {
      var tail := KeptPositions(fs[1..], verdict, base + 1);
      KeptPositionsMatch(fs[1..], verdict, base + 1);
      var rest := Comprehension(fs[1..], verdict).value;
      forall k | 0 <= k < |tail|
        ensures fs[tail[k] - base] == fs[1..][tail[k] - (base + 1)]
      {
      }
      if verdict(fs[0]).Keep? {
        assert Comprehension(fs, verdict).value == [verdict(fs[0]).geometry] + rest;
      }
    }
  }

  lemma {:induction false} KeptPositionsComplete<F, G>(fs: seq<F>, verdict: F -> Verdict<G>, base: nat)
    ensures forall i :: 0 <= i < |fs| && verdict(fs[i]).Keep? ==> base + i in KeptPositions(fs, verdict, base)
  {
    if fs != [] {
      KeptPositionsComplete(fs[1..], verdict, base + 1);
      forall i | 1 <= i < |fs|
        ensures fs[i] == fs[1..][i - 1]
      {
      }
    }
  }

  /** Two conditions that agree on every element give the same comprehension. */
  lemma {:induction false} ComprehensionAgrees<F, G>(fs: seq<F>, verdict: F -> Verdict<G>,
                                                     verdict': F -> Verdict<G>)
    requires forall i :: 0 <= i < |fs| ==> verdict(fs[i]) == verdict'(fs[i])
    ensures Comprehension(fs, verdict) == Comprehension(fs, verdict')
  {
    if fs != [] {
      assert forall i :: 0 <= i < |fs[1..]| ==> fs[1..][i] == fs[i + 1];
      ComprehensionAgrees(fs[1..], verdict, verdict');
    }
  }

  /** The label of `f` parses and is an occupied category. */
  predicate LabelMatches<J>(f: Feature<J>, occupied: set<string>)
  {
    match NameOf(f)
    case None => false
    case Some(name) =>
      match LabelOf(name)
      case None => false
      case Some(category) => category in occupied
  }

  /**
   * Geometry is parsed and validated only for features whose label matched: two
   * geometry libraries that agree on the geometries of those features give the
   * same result, so a missing or unreadable geometry on any other feature goes
   * unnoticed.
   */
  lemma TerritoriesLookOnlyAtMatched<J, G>(
      fs: seq<Feature<J>>, occupied: set<string>,
      shape: J -> Option<G>, isValid: G -> bool, shape': J -> Option<G>, isValid': G -> bool)
    requires forall i :: 0 <= i < |fs| && LabelMatches(fs[i], occupied) && fs[i].geometry.Some? ==>
      && shape(fs[i].geometry.value) == shape'(fs[i].geometry.value)
      && (shape(fs[i].geometry.value).Some? ==>
            isValid(shape(fs[i].geometry.value).value) == isValid'(shape(fs[i].geometry.value).value))
    ensures Territories(fs, occupied, shape, isValid) == Territories(fs, occupied, shape', isValid')
  {
    var verdict := f => Classify(f, occupied, shape, isValid);
    var verdict' := f => Classify(f, occupied, shape', isValid');
    forall i | 0 <= i < |fs|
      ensures verdict(fs[i]) == verdict'(fs[i])
    {
      ClassifyLooksOnlyAtMatched(fs[i], occupied, shape, isValid, shape', isValid');
    }
    ComprehensionAgrees(fs, verdict, verdict');
    TerritoriesIsComprehension(fs, occupied, shape, isValid);
    TerritoriesIsComprehension(fs, occupied, shape', isValid');
  }

  lemma ClassifyLooksOnlyAtMatched<J, G>(f: Feature<J>, occupied: set<string>,
      shape: J -> Option<G>, isValid: G -> bool, shape': J -> Option<G>, isValid': G -> bool)
    requires LabelMatches(f, occupied) && f.geometry.Some? ==>
      && shape(f.geometry.value) == shape'(f.geometry.value)
      && (shape(f.geometry.value).Some? ==>
            isValid(shape(f.geometry.value).value) == isValid'(shape(f.geometry.value).value))
    ensures Classify(f, occupied, shape, isValid) == Classify(f, occupied, shape', isValid')
  {
  }

  /** One raising feature empties the whole extraction, not just its own entry. */
  lemma RaisingFeatureEmptiesResult<J, G>(cfg: Config, doc: Document<J>, shape: J -> Option<G>,
                                          isValid: G -> bool, i: nat)
    requires FeaturesOf(doc).Some? && i < |FeaturesOf(doc).value|
    requires Classify(FeaturesOf(doc).value[i], cfg.occupiedTerritories, shape, isValid).Raise?
    ensures ExtractOccupiedTerritories(cfg, doc, shape, isValid) == []
  {
    var fs := FeaturesOf(doc).value;
    var verdict := f => Classify(f, cfg.occupiedTerritories, shape, isValid);
    assert verdict(fs[i]).Raise?;
    ComprehensionFailsIff(fs, verdict);
    TerritoriesIsComprehension(fs, cfg.occupiedTerritories, shape, isValid);
  }

  /**
   * A name without "///" -- including a missing name or missing properties, which
   * default to "" -- makes indexing `[1]` raise and so empties the result.
   */
  lemma NameWithoutDelimiterEmptiesResult<J, G>(cfg: Config, doc: Document<J>, shape: J -> Option<G>,
                                                isValid: G -> bool, i: nat)
    requires FeaturesOf(doc).Some? && i < |FeaturesOf(doc).value|
    requires NameOf(FeaturesOf(doc).value[i]).Some?
    requires !HasDelimiter(NameOf(FeaturesOf(doc).value[i]).value)
    ensures ExtractOccupiedTerritories(cfg, doc, shape, isValid) == []
  {
    LabelExistsIff(NameOf(FeaturesOf(doc).value[i]).value);
    RaisingFeatureEmptiesResult(cfg, doc, shape, isValid, i);
  }

  /** A feature with no name at all reads as the name "", which has no delimiter. */
  lemma MissingNameHasNoDelimiter<J>(f: Feature<J>)
    requires f.properties.Absent? || (f.properties.Present? && f.properties.value.name.Absent?)
    ensures NameOf(f) == Some("") && !HasDelimiter(NameOf(f).value)
  {
  }

  /** A matching feature with no "geometry" key raises KeyError and empties the result. */
  lemma MatchedFeatureWithoutGeometryEmptiesResult<J, G>(cfg: Config, doc: Document<J>,
                                                         shape: J -> Option<G>, isValid: G -> bool, i: nat)
    requires FeaturesOf(doc).Some? && i < |FeaturesOf(doc).value|
    requires LabelMatches(FeaturesOf(doc).value[i], cfg.occupiedTerritories)
    requires FeaturesOf(doc).value[i].geometry.None?
    ensures ExtractOccupiedTerritories(cfg, doc, shape, isValid) == []
  {
    RaisingFeatureEmptiesResult(cfg, doc, shape, isValid, i);
  }

  /**
   * Without an error the extractor returns exactly the kept geometries, in the order
   * of the features they came from: `idx` lists the kept features' positions, in
   * increasing order, and every kept feature is among them.
   */
  lemma ExtractionKeepsFeatureOrder<J, G>(cfg: Config, doc: Document<J>, shape: J -> Option<G>,
                                          isValid: G -> bool) returns (idx: seq<nat>)
    requires FeaturesOf(doc).Some?
    requires Territories(FeaturesOf(doc).value, cfg.occupiedTerritories, shape, isValid).Some?
    ensures |idx| == |ExtractOccupiedTerritories(cfg, doc, shape, isValid)| <= |FeaturesOf(doc).value|
    ensures forall k :: 0 <= k < |idx| ==>
      && idx[k] < |FeaturesOf(doc).value|
      && Classify(FeaturesOf(doc).value[idx[k]], cfg.occupiedTerritories, shape, isValid)
         == Keep(ExtractOccupiedTerritories(cfg, doc, shape, isValid)[k])
    ensures forall k, l :: 0 <= k < l < |idx| ==> idx[k] < idx[l]
    ensures forall i ::
      (0 <= i < |FeaturesOf(doc).value|
       && Classify(FeaturesOf(doc).value[i], cfg.occupiedTerritories, shape, isValid).Keep?) ==> i in idx
  {
    var fs := FeaturesOf(doc).value;
    TerritoriesIsComprehension(fs, cfg.occupiedTerritories, shape, isValid);
    idx := ComprehensionKeepsOrder(fs, f => Classify(f, cfg.occupiedTerritories, shape, isValid));
  }

  /** A feature whose name is `prefix///category` with nothing else special in it. */
  function NamedFeature<J>(name: string, geometry: J): Feature<J>
  {
    Feature(Present(Properties(Present(name))), Some(geometry))
  }

  /** The label of "RU///Occupied" is "Occupied", an occupied category. */
  lemma OccupiedExampleLabel()
    ensures LabelOf("RU///Occupied") == Some("Occupied")
    ensures "Occupied" in DefaultConfig().occupiedTerritories
  {
    var name := "RU///Occupied";
    assert PlainName(name, 2);
    LabelOfPlainName(name, 2);
    assert name[5..] == "Occupied";
  }

  /** The label of "RU///Contested" is "Contested". */
  lemma ContestedExampleLabel()
    ensures LabelOf("RU///Contested") == Some("Contested")
  {
    var name := "RU///Contested";
    assert PlainName(name, 2);
    LabelOfPlainName(name, 2);
    assert name[5..] == "Contested";
  }

  /** "Contested" is not an occupied category: its length differs from each of theirs. */
  lemma ContestedNotOccupied()
    ensures "Contested" !in DefaultConfig().occupiedTerritories
  {
    assert |"Contested"| == 9;
    assert |"CADR and CALR"| == 13 && |"Occupied"| == 8 && |"Occupied Crimea"| == 15;
  }

  /** A valid "RU///Occupied" feature is kept. */
  lemma OccupiedExampleKept<J, G>(geometry: J, shape: J -> Option<G>, isValid: G -> bool, g: G)
    requires shape(geometry) == Some(g) && isValid(g)
    ensures Classify(NamedFeature("RU///Occupied", geometry), DefaultConfig().occupiedTerritories, shape, isValid)
         == Keep(g)
  {
    OccupiedExampleLabel();
  }

  /** A "RU///Contested" feature is skipped, whatever its geometry. */
  lemma ContestedExampleSkipped<J, G>(geometry: J, shape: J -> Option<G>, isValid: G -> bool)
    ensures Classify(NamedFeature("RU///Contested", geometry), DefaultConfig().occupiedTerritories, shape, isValid)
         == Skip
  {
    ContestedExampleLabel();
    ContestedNotOccupied();
  }

  /** A skipped head feature contributes nothing to the extraction. */
  lemma TerritoriesSkipsHead<J, G>(fs: seq<Feature<J>>, occupied: set<string>,
                                   shape: J -> Option<G>, isValid: G -> bool)
    requires fs != [] && Classify(fs[0], occupied, shape, isValid) == Skip
    ensures Territories(fs, occupied, shape, isValid) == Territories(fs[1..], occupied, shape, isValid)
  {
  }

  /** A kept head feature's geometry comes first, before those of the remaining features. */
  lemma TerritoriesKeepsHead<J, G>(fs: seq<Feature<J>>, occupied: set<string>,
                                   shape: J -> Option<G>, isValid: G -> bool, g: G, rest: seq<G>)
    requires fs != [] && Classify(fs[0], occupied, shape, isValid) == Keep(g)
    requires Territories(fs[1..], occupied, shape, isValid) == Some(rest)
    ensures Territories(fs, occupied, shape, isValid) == Some([g] + rest)
  {
  }

  /** A kept feature followed by a skipped one yields the kept geometry alone. */
  lemma KeptThenSkipped<J, G>(first: Feature<J>, second: Feature<J>, occupied: set<string>,
                              shape: J -> Option<G>, isValid: G -> bool, g: G)
    requires Classify(first, occupied, shape, isValid) == Keep(g)
    requires Classify(second, occupied, shape, isValid) == Skip
    ensures Territories([first, second], occupied, shape, isValid) == Some([g])
  {
    var rest := [second];
    assert rest[1..] == [];
    TerritoriesSkipsHead(rest, occupied, shape, isValid);
    var fs := [first, second];
    assert fs[1..] == rest;
    TerritoriesKeepsHead(fs, occupied, shape, isValid, g, []);
    assert [g] + [] == [g];
  }

  /**
   * A feed of one valid "RU///Occupied" feature followed by one "RU///Contested"
   * feature yields the first feature's geometry alone; the second feature's geometry
   * is never parsed, so nothing about it is needed.
   */
  lemma OccupiedKeptContestedDropped<J, G>(occupiedGeometry: J, contestedGeometry: J,
                                           shape: J -> Option<G>, isValid: G -> bool, g: G)
    requires shape(occupiedGeometry) == Some(g) && isValid(g)
    ensures ExtractOccupiedTerritories(
              DefaultConfig(),
              Object(Present(MapObject(Present([NamedFeature("RU///Occupied", occupiedGeometry),
                                                NamedFeature("RU///Contested", contestedGeometry)]))), 0),
              shape, isValid)
         == [g]
  {
    OccupiedExampleKept(occupiedGeometry, shape, isValid, g);
    ContestedExampleSkipped(contestedGeometry, shape, isValid);
    KeptThenSkipped(NamedFeature("RU///Occupied", occupiedGeometry), NamedFeature("RU///Contested", contestedGeometry),
                    DefaultConfig().occupiedTerritories, shape, isValid, g);
  }
}
