/**
 * The tiered buffer rings around the merged frontline. There are three tiers, each
 * an annulus between an inner and an outer distance from the frontline, cut down
 * to the target country; a ring that does not reach into the target yields no
 * zone, because clipping drops rows that do not meet the mask.
 *
 * Geometry is a set of points of an abstract type `P`; `buffer(g, r)` is the
 * geometry library's buffer of `g` by `r` metres, passed in as a function. Set
 * difference is `-`, intersection `*`.
 */
module ZoneBuilder {
  import opened Wrappers
  import opened Settings

  /** One row of `buffer_definitions`: a label and its inner and outer distance. */
  datatype Tier = Tier(name: string, inner: int, outer: int)

  /** One row of the result: a tier's label and its clipped ring. */
  datatype Zone<P> = Zone(name: string, area: set<P>)

  /**
   * `buffer_definitions`: Critical from 0 to the Critical distance, High from there
   * to the High distance, Moderate from there to the Moderate distance. None where
   * looking up one of the three distances raises KeyError.
   */
  function BufferDefinitions(cfg: Config): (tiers: Option<seq<Tier>>)
    ensures tiers.Some? <==> "Critical" in cfg.bufferDistances && "High" in cfg.bufferDistances
                             && "Moderate" in cfg.bufferDistances
    ensures tiers.Some? ==>
      && |tiers.value| == 3
      && tiers.value[0].name == "Critical" && tiers.value[1].name == "High"
      && tiers.value[2].name == "Moderate"
      && tiers.value[0].inner == 0
      && Chained(tiers.value)
      && forall k :: 0 <= k < 3 ==> tiers.value[k].outer == cfg.bufferDistances[tiers.value[k].name]
  {
    var d := cfg.bufferDistances;
    if "Critical" in d && "High" in d && "Moderate" in d then
      Some([Tier("Critical", 0, d["Critical"]),
            Tier("High", d["Critical"], d["High"]),
            Tier("Moderate", d["High"], d["Moderate"])])
    else None
  }

  /** Each tier starts where the one before it ends. */
  predicate Chained(tiers: seq<Tier>)
  {
    forall k :: 0 < k < |tiers| ==> tiers[k].inner == tiers[k - 1].outer
  }

  /** No tier's inner distance exceeds its outer one. */
  predicate Widening(tiers: seq<Tier>)
  {
    forall k :: 0 <= k < |tiers| ==> tiers[k].inner <= tiers[k].outer
  }

  /** A buffer that grows with its distance, as a buffer of a fixed geometry does. */
  ghost predicate Monotone<P>(buffer: (set<P>, int) -> set<P>, g: set<P>)
  {
    forall r1, r2 :: r1 <= r2 ==> buffer(g, r1) <= buffer(g, r2)
  }

  /** The ring of one tier: outer buffer minus inner buffer, clipped to the target. */
  function Ring<P>(buffer: (set<P>, int) -> set<P>, frontline: set<P>, target: set<P>, t: Tier): (r: set<P>)
    ensures r <= target
    ensures r !! buffer(frontline, t.inner)
  {
    (buffer(frontline, t.outer) - buffer(frontline, t.inner)) * target
  }

  /** The rows `pd.concat` collects: one per tier whose clipped ring is not empty, in tier order. */
  function ClippedRings<P>(tiers: seq<Tier>, buffer: (set<P>, int) -> set<P>, frontline: set<P>,
                           target: set<P>): (zones: seq<Zone<P>>)
    ensures |zones| <= |tiers|
  {
    if tiers == [] then []
    else
      var t := tiers[|tiers| - 1];
      var ring := Ring(buffer, frontline, target, t);
      ClippedRings(tiers[..|tiers| - 1], buffer, frontline, target)
        + (if ring == {} then [] else [Zone(t.name, ring)])
  }

  /** What `create_buffer_zones` returns: the clipped rings, or nothing on KeyError. */
  function BufferZones<P>(cfg: Config, frontline: set<P>, target: set<P>,
                          buffer: (set<P>, int) -> set<P>): seq<Zone<P>>
  {
    match BufferDefinitions(cfg)
    case None => []
    case Some(tiers) => ClippedRings(tiers, buffer, frontline, target)
  }

  /** `create_buffer_zones`: one ring per tier, appended in order. */
  method CreateBufferZones<P>(cfg: Config, frontline: set<P>, target: set<P>,
                              buffer: (set<P>, int) -> set<P>) returns (zones: seq<Zone<P>>)
    ensures zones == BufferZones(cfg, frontline, target, buffer)
  {
    var definitions := BufferDefinitions(cfg);
    if definitions.None? {
      return [];
    }
    var tiers := definitions.value;
    zones := [];
    var i := 0;
    while i < |tiers|
      invariant 0 <= i <= |tiers|
      invariant zones == ClippedRings(tiers[..i], buffer, frontline, target)
    {
      var t := tiers[i];
      var outerBuffer := buffer(frontline, t.outer);
      var innerBuffer := buffer(frontline, t.inner);
      var ring := (outerBuffer - innerBuffer) * target;
      assert tiers[..i + 1][..i] == tiers[..i];
      if ring != {} {
        zones := zones + [Zone(t.name, ring)];
      }
      i := i + 1;
    }
    assert tiers[..i] == tiers;
  }

  /** Every zone lies inside the target and is not empty. */
  lemma {:induction false} ZonesInsideTarget<P>(tiers: seq<Tier>, buffer: (set<P>, int) -> set<P>,
                                                frontline: set<P>, target: set<P>)
    ensures forall z :: z in ClippedRings(tiers, buffer, frontline, target) ==> z.area <= target && z.area != {}
  {
    if tiers != [] {
      ZonesInsideTarget(tiers[..|tiers| - 1], buffer, frontline, target);
    }
  }

  /**
   * A zone is exactly the non-empty clipped ring of some tier, labelled with that
   * tier's label.
   */
  lemma {:induction false} ZonesAreRings<P>(tiers: seq<Tier>, buffer: (set<P>, int) -> set<P>,
                                            frontline: set<P>, target: set<P>)
    ensures forall z :: z in ClippedRings(tiers, buffer, frontline, target) <==>
      exists k :: 0 <= k < |tiers| && Ring(buffer, frontline, target, tiers[k]) != {}
                  && z == Zone(tiers[k].name, Ring(buffer, frontline, target, tiers[k]))
  {
    if tiers != [] {
      var init := tiers[..|tiers| - 1];
      ZonesAreRings(init, buffer, frontline, target);
      forall k | 0 <= k < |init|
        ensures init[k] == tiers[k]
      {
      }
    }
  }

  /** The union of the zones' areas. */
  function Union<P>(zones: seq<Zone<P>>): set<P>
  {
    if zones == [] then {} else Union(zones[..|zones| - 1]) + zones[|zones| - 1].area
  }

  lemma {:induction false} UnionOfAppend<P>(zones: seq<Zone<P>>, z: Zone<P>)
    ensures Union(zones + [z]) == Union(zones) + z.area
  {
    assert (zones + [z])[..|zones|] == zones;
  }

  /** Outer distances of earlier tiers never exceed inner distances of later ones. */
  lemma {:induction false} ChainedRadii(tiers: seq<Tier>, k: nat, l: nat)
    requires Chained(tiers) && Widening(tiers)
    requires k < l < |tiers|
    ensures tiers[k].outer <= tiers[l].inner
    decreases l - k
  {
    if l > k + 1 {
      ChainedRadii(tiers, k, l - 1);
    }
  }

  /** Two adjacent annuli clipped to the same target join into one. */
  lemma RingsJoin<P>(inner: set<P>, middle: set<P>, outer: set<P>, target: set<P>)
    requires inner <= middle <= outer
    ensures (middle - inner) * target + (outer - middle) * target == (outer - inner) * target
  {
  }

  /**
   * Chained, widening tiers around a monotone buffer cover, together, exactly the
   * annulus from the first inner distance to the last outer one, clipped to the
   * target: no point is lost between two tiers.
   */
  lemma {:induction false} ChainedCoverage<P>(tiers: seq<Tier>, buffer: (set<P>, int) -> set<P>,
                                              frontline: set<P>, target: set<P>)
    requires |tiers| >= 1 && Chained(tiers) && Widening(tiers) && Monotone(buffer, frontline)
    ensures Union(ClippedRings(tiers, buffer, frontline, target))
         == (buffer(frontline, tiers[|tiers| - 1].outer) - buffer(frontline, tiers[0].inner)) * target
  {
    var n := |tiers|;
    var last := tiers[n - 1];
    var ring := Ring(buffer, frontline, target, last);
    var init := tiers[..n - 1];
    var before := ClippedRings(init, buffer, frontline, target);
    UnionOfClippedRings(tiers, buffer, frontline, target);
    if n == 1 {
      assert Union(before) == {};
    } else {
      PrefixChained(tiers);
      ChainedCoverage(init, buffer, frontline, target);
      assert init[0] == tiers[0] && init[|init| - 1] == tiers[n - 2];
      var low := buffer(frontline, tiers[0].inner);
      var middle := buffer(frontline, last.inner);
      var high := buffer(frontline, last.outer);
      assert Union(before) == (middle - low) * target;
      RadiusOrder(tiers, 0, n - 2);
      BufferGrows(buffer, frontline, tiers[0].inner, last.inner);
      BufferGrows(buffer, frontline, last.inner, last.outer);
      RingsJoin(low, middle, high, target);
    }
  }

  /** The union of the zones grows by the last tier's ring. */
  lemma UnionOfClippedRings<P>(tiers: seq<Tier>, buffer: (set<P>, int) -> set<P>,
                               frontline: set<P>, target: set<P>)
    requires |tiers| >= 1
    ensures Union(ClippedRings(tiers, buffer, frontline, target))
         == Union(ClippedRings(tiers[..|tiers| - 1], buffer, frontline, target))
            + Ring(buffer, frontline, target, tiers[|tiers| - 1])
  {
    var last := tiers[|tiers| - 1];
    var ring := Ring(buffer, frontline, target, last);
    var before := ClippedRings(tiers[..|tiers| - 1], buffer, frontline, target);
    if ring != {} {
      UnionOfAppend(before, Zone(last.name, ring));
    } else {
      assert before + [] == before;
    }
  }

  lemma BufferGrows<P>(buffer: (set<P>, int) -> set<P>, g: set<P>, r1: int, r2: int)
    requires Monotone(buffer, g) && r1 <= r2
    ensures buffer(g, r1) <= buffer(g, r2)
  {
  }

  /** Dropping the last tier keeps the tiers chained and widening. */
  lemma PrefixChained(tiers: seq<Tier>)
    requires |tiers| >= 1 && Chained(tiers) && Widening(tiers)
    ensures Chained(tiers[..|tiers| - 1]) && Widening(tiers[..|tiers| - 1])
  {
    var init := tiers[..|tiers| - 1];
    forall k | 0 <= k < |init|
      ensures init[k] == tiers[k]
    {
    }
  }

  /** Every zone is the ring of some tier. */
  lemma {:induction false} ZoneOfTier<P>(tiers: seq<Tier>, buffer: (set<P>, int) -> set<P>,
                                         frontline: set<P>, target: set<P>, z: Zone<P>) returns (k: nat)
    requires z in ClippedRings(tiers, buffer, frontline, target)
    ensures k < |tiers| && z.area == Ring(buffer, frontline, target, tiers[k])
  {
    var n := |tiers|;
    var init := tiers[..n - 1];
    var ring := Ring(buffer, frontline, target, tiers[n - 1]);
    if ring != {} && z == Zone(tiers[n - 1].name, ring) {
      k := n - 1;
    } else {
      assert z in ClippedRings(init, buffer, frontline, target);
      k := ZoneOfTier(init, buffer, frontline, target, z);
      assert init[k] == tiers[k];
    }
  }

  /** The first inner distance is no more than any later outer one. */
  lemma RadiusOrder(tiers: seq<Tier>, k: nat, l: nat)
    requires Chained(tiers) && Widening(tiers)
    requires k <= l < |tiers| - 1
    ensures tiers[k].inner <= tiers[l].outer && tiers[l + 1].inner == tiers[l].outer
  {
    if k < l {
      ChainedRadii(tiers, k, l);
    }
  }

  /** The rings of two different chained, widening tiers never overlap. */
  lemma RingsDisjoint<P>(tiers: seq<Tier>, buffer: (set<P>, int) -> set<P>, frontline: set<P>,
                         target: set<P>, k: nat, l: nat)
    requires Chained(tiers) && Widening(tiers) && Monotone(buffer, frontline)
    requires k < l < |tiers|
    ensures Ring(buffer, frontline, target, tiers[k]) !! Ring(buffer, frontline, target, tiers[l])
  {
    ChainedRadii(tiers, k, l);
    assert buffer(frontline, tiers[k].outer) <= buffer(frontline, tiers[l].inner);
  }

  /** The zones of chained, widening tiers around a monotone buffer are pairwise disjoint. */
  lemma {:induction false} ChainedDisjoint<P>(tiers: seq<Tier>, buffer: (set<P>, int) -> set<P>,
                                              frontline: set<P>, target: set<P>)
    requires Chained(tiers) && Widening(tiers) && Monotone(buffer, frontline)
    ensures forall a, b :: 0 <= a < b < |ClippedRings(tiers, buffer, frontline, target)| ==>
      ClippedRings(tiers, buffer, frontline, target)[a].area !! ClippedRings(tiers, buffer, frontline, target)[b].area
  {
    if tiers != [] {
      var n := |tiers|;
      var init := tiers[..n - 1];
      var last := tiers[n - 1];
      var ring := Ring(buffer, frontline, target, last);
      var before := ClippedRings(init, buffer, frontline, target);
      PrefixChained(tiers);
      ChainedDisjoint(init, buffer, frontline, target);
      forall z | z in before
        ensures z.area !! ring
      {
        var k := ZoneOfTier(init, buffer, frontline, target, z);
        assert init[k] == tiers[k];
        RingsDisjoint(tiers, buffer, frontline, target, k, n - 1);
      }
      var zones := ClippedRings(tiers, buffer, frontline, target);
      if ring == {} {
        assert zones == before;
      } else {
        assert zones == before + [Zone(last.name, ring)];
        forall a, b | 0 <= a < b < |zones|
          ensures zones[a].area !! zones[b].area
        {
          if b == |before| {
            assert zones[a] in before;
          } else {
            assert zones[a] == before[a] && zones[b] == before[b];
          }
        }
      }
    }
  }

  /** The shipped distances: 0 to 9 km, 9 to 40 km, 40 to 80 km. */
  lemma DefaultTiers()
    ensures BufferDefinitions(DefaultConfig())
         == Some([Tier("Critical", 0, 9000), Tier("High", 9000, 40000), Tier("Moderate", 40000, 80000)])
  {
  }

  /**
   * With distances 0 <= Critical <= High <= Moderate and a monotone buffer, the zones
   * partition the band up to the Moderate distance outside the frontline, inside the
   * target: they are pairwise disjoint and their union is the whole band.
   */
  lemma ZonesPartitionBand<P>(cfg: Config, frontline: set<P>, target: set<P>, buffer: (set<P>, int) -> set<P>)
    requires "Critical" in cfg.bufferDistances && "High" in cfg.bufferDistances
             && "Moderate" in cfg.bufferDistances
    requires 0 <= cfg.bufferDistances["Critical"] <= cfg.bufferDistances["High"]
             <= cfg.bufferDistances["Moderate"]
    requires Monotone(buffer, frontline)
    ensures Union(BufferZones(cfg, frontline, target, buffer))
         == (buffer(frontline, cfg.bufferDistances["Moderate"]) - buffer(frontline, 0)) * target
    ensures forall a, b :: 0 <= a < b < |BufferZones(cfg, frontline, target, buffer)| ==>
      BufferZones(cfg, frontline, target, buffer)[a].area !! BufferZones(cfg, frontline, target, buffer)[b].area
  {
    var tiers := BufferDefinitions(cfg).value;
    assert Widening(tiers);
    ChainedCoverage(tiers, buffer, frontline, target);
    ChainedDisjoint(tiers, buffer, frontline, target);
  }

  /** For the shipped configuration the zones partition the band from the frontline to 80 km. */
  lemma DefaultZonesPartitionBand<P>(frontline: set<P>, target: set<P>, buffer: (set<P>, int) -> set<P>)
    requires Monotone(buffer, frontline)
    ensures Union(BufferZones(DefaultConfig(), frontline, target, buffer))
         == (buffer(frontline, 80000) - buffer(frontline, 0)) * target
    ensures forall a, b :: 0 <= a < b < |BufferZones(DefaultConfig(), frontline, target, buffer)| ==>
      BufferZones(DefaultConfig(), frontline, target, buffer)[a].area
        !! BufferZones(DefaultConfig(), frontline, target, buffer)[b].area
  {
    DefaultTiers();
    ZonesPartitionBand(DefaultConfig(), frontline, target, buffer);
  }

  /** Any configuration missing one of the three distances yields no zones. */
  lemma MissingDistanceYieldsNoZones<P>(cfg: Config, frontline: set<P>, target: set<P>,
                                        buffer: (set<P>, int) -> set<P>)
    requires !("Critical" in cfg.bufferDistances && "High" in cfg.bufferDistances
               && "Moderate" in cfg.bufferDistances)
    ensures BufferZones(cfg, frontline, target, buffer) == []
  {
  }

  /**
   * A frontline whose widest buffer misses the target yields no zone at all: every
   * ring clips to nothing and clipping drops it, so the result has no rows.
   */
  lemma FrontlineFarFromTargetYieldsNoZones<P>(cfg: Config, frontline: set<P>, target: set<P>,
                                               buffer: (set<P>, int) -> set<P>)
    requires "Critical" in cfg.bufferDistances && "High" in cfg.bufferDistances
             && "Moderate" in cfg.bufferDistances
    requires cfg.bufferDistances["Critical"] <= cfg.bufferDistances["Moderate"]
    requires cfg.bufferDistances["High"] <= cfg.bufferDistances["Moderate"]
    requires Monotone(buffer, frontline)
    requires buffer(frontline, cfg.bufferDistances["Moderate"]) !! target
    ensures BufferZones(cfg, frontline, target, buffer) == []
  {
    var tiers := BufferDefinitions(cfg).value;
    var zones := ClippedRings(tiers, buffer, frontline, target);
    ZonesInsideTarget(tiers, buffer, frontline, target);
    if zones != [] {
      var k := ZoneOfTier(tiers, buffer, frontline, target, zones[0]);
      BufferGrows(buffer, frontline, tiers[k].outer, cfg.bufferDistances["Moderate"]);
    }
  }
}
