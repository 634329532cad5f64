/**
 * The fail-closed driver: prepare the output directories, fetch, extract, load the
 * two border layers, merge, build the zones, write the latest file, copy it to the
 * dated archive. Each stage's outcome is checked before the next one starts; the
 * first failed check ends the run with exit status 1 and nothing after it happens.
 *
 * Everything outside the program is a `World`: the service's replies, the
 * geometry library's operations, the border files as loaded, whether the
 * directories can be made and whether the two writes succeed.
 */
module Pipeline {
  import opened Wrappers
  import opened Settings
  import opened Feed
  import opened Fetcher
  import opened Extraction
  import ZoneBuilder

  datatype Stage =
    | PrepareDirectories
    | Fetch
    | Extract
    | LoadBorders
    | Merge
    | BuildZones
    | WriteLatest
    | WriteArchive

  const StageOrder: seq<Stage> :=
    [PrepareDirectories, Fetch, Extract, LoadBorders, Merge, BuildZones, WriteLatest, WriteArchive]

  /**
   * The environment of one run. A border layer is the list of rows read from its
   * file; a missing, unreadable or empty file reads as no rows. `clean` is the
   * merge's buffer-in, buffer-out cleanup, None where it raises.
   */
  datatype World<!J, !P> = World(
    directoriesReady: bool,
    reply: nat -> Reply<J>,
    shape: J -> Option<set<P>>,
    isValid: set<P> -> bool,
    adversaryRows: seq<set<P>>,
    targetRows: seq<set<P>>,
    clean: set<P> -> Option<set<P>>,
    buffer: (set<P>, int) -> set<P>,
    latestWritable: bool,
    archiveCopyable: bool)

  /** A file the run leaves behind, and the zones it holds. */
  datatype Output<P> = Output(path: string, zones: seq<ZoneBuilder.Zone<P>>)

  /** `Path(dir) / name`. */
  function PathJoin(dir: string, name: string): (path: string)
    ensures |path| == |dir| + 1 + |name| && path[|dir|] == '/'
    ensures path[..|dir|] == dir && path[|dir| + 1..] == name
  {
    dir + "/" + name
  }

  /** The union of every row of a layer, as `unary_union` or a clip mask sees it. */
  function UnionAll<P>(rows: seq<set<P>>): set<P>
  {
    if rows == [] then {} else UnionAll(rows[..|rows| - 1]) + rows[|rows| - 1]
  }

  /** A point lies in the union exactly when it lies in some row. */
  lemma {:induction false} UnionAllMembers<P>(rows: seq<set<P>>)
    ensures forall p :: p in UnionAll(rows) <==> exists k :: 0 <= k < |rows| && p in rows[k]
  {
    if rows != [] {
      var init := rows[..|rows| - 1];
      UnionAllMembers(init);
      forall k | 0 <= k < |init|
        ensures init[k] == rows[k]
      {
      }
    }
  }

  /** `merge_and_clean_geometries`: the union of both layers, cleaned. */
  function MergeAndClean<P>(occupied: seq<set<P>>, adversary: seq<set<P>>,
                            clean: set<P> -> Option<set<P>>): Option<set<P>>
  {
    clean(UnionAll(occupied + adversary))
  }

  /** The union of two layers listed one after the other is the union of their unions. */
  lemma {:induction false} UnionAllAppend<P>(a: seq<set<P>>, b: seq<set<P>>)
    ensures UnionAll(a + b) == UnionAll(a) + UnionAll(b)
  {
    if b == [] {
      assert a + b == a;
    } else {
      var init := b[..|b| - 1];
      assert (a + b)[..|a + b| - 1] == a + init;
      UnionAllAppend(a, init);
    }
  }

  /** The merge sees only the union of its rows: listing the layers the other way round changes nothing. */
  lemma MergeIgnoresLayerOrder<P>(occupied: seq<set<P>>, adversary: seq<set<P>>,
                                  clean: set<P> -> Option<set<P>>)
    ensures MergeAndClean(occupied, adversary, clean) == clean(UnionAll(adversary + occupied))
  {
    UnionAllAppend(occupied, adversary);
    UnionAllAppend(adversary, occupied);
    assert UnionAll(occupied + adversary) == UnionAll(adversary + occupied);
  }

  /** What the four computing stages produce, each from the one before it. */
  datatype Results<J, P> = Results(
    doc: Document<J>,
    occupied: seq<set<P>>,
    merged: Option<set<P>>,
    zones: seq<ZoneBuilder.Zone<P>>)

  /**
   * The stage results of a run in `w`: the fetched body, the territories extracted
   * from it, their merge with the adversary layer, and the zones around that
   * frontline (none when the merge failed).
   */
  function Compute<J, P>(cfg: Config, w: World<J, P>): Results<J, P>
  {
    var doc := FetchResult(w.reply, cfg.maxRetries);
    var occupied := ExtractOccupiedTerritories(cfg, doc, w.shape, w.isValid);
    var merged := MergeAndClean(occupied, w.adversaryRows, w.clean);
    var zones :=
      match merged
      case None => []
      case Some(frontline) => ZoneBuilder.BufferZones(cfg, frontline, UnionAll(w.targetRows), w.buffer);
    Results(doc, occupied, merged, zones)
  }

  /** The check `main` makes after each stage, in `StageOrder`. */
  function ChecksOf<J, P>(w: World<J, P>, r: Results<J, P>): (checks: seq<bool>)
    ensures |checks| == |StageOrder|
  {
    [ w.directoriesReady,
      Truthy(r.doc),
      r.occupied != [],
      w.adversaryRows != [] && w.targetRows != [],
      r.merged.Some?,
      r.zones != [],
      w.latestWritable,
      w.archiveCopyable ]
  }

  /** The checks of a run in `w`. */
  function Checks<J, P>(cfg: Config, w: World<J, P>): (checks: seq<bool>)
    ensures |checks| == |StageOrder|
  {
    ChecksOf(w, Compute(cfg, w))
  }

  /** Each stage's result in a run in `w`. */
  function Fetched<J, P>(cfg: Config, w: World<J, P>): Document<J>
  {
    Compute(cfg, w).doc
  }

  function Occupied<J, P>(cfg: Config, w: World<J, P>): seq<set<P>>
  {
    Compute(cfg, w).occupied
  }

  function Merged<J, P>(cfg: Config, w: World<J, P>): Option<set<P>>
  {
    Compute(cfg, w).merged
  }

  function Zones<J, P>(cfg: Config, w: World<J, P>): seq<ZoneBuilder.Zone<P>>
  {
    Compute(cfg, w).zones
  }

  /** The position of the first failed check, if any. */
  function FirstFailure(checks: seq<bool>): (r: Option<nat>)
    ensures r.Some? ==> r.value < |checks| && !checks[r.value] && forall k :: 0 <= k < r.value ==> checks[k]
    ensures r.None? ==> forall k :: 0 <= k < |checks| ==> checks[k]
  {
    if checks == [] then None
    else if !checks[0] then Some(0)
    else match FirstFailure(checks[1..])
         case None => None
         case Some(k) => Some(k + 1)
  }

  /**
   * The check that stops `main`, taken in the order `main` makes them: None when
   * every check passes.
   */
  function FailedCheck<J, P>(w: World<J, P>, r: Results<J, P>): Option<nat>
  {
    if !w.directoriesReady then Some(0)
    else if !Truthy(r.doc) then Some(1)
    else if r.occupied == [] then Some(2)
    else if w.adversaryRows == [] || w.targetRows == [] then Some(3)
    else if r.merged.None? then Some(4)
    else if r.zones == [] then Some(5)
    else if !w.latestWritable then Some(6)
    else if !w.archiveCopyable then Some(7)
    else None
  }

  /** Making the checks one after the other stops at the first one that fails. */
  lemma FailedCheckIsFirstFailure<J, P>(w: World<J, P>, r: Results<J, P>)
    ensures FailedCheck(w, r) == FirstFailure(ChecksOf(w, r))
  {
    var c := ChecksOf(w, r);
    if !c[0] {
    } else if !c[1] {
    } else if !c[2] {
    } else if !c[3] {
    } else if !c[4] {
    } else if !c[5] {
    } else if !c[6] {
    } else if !c[7] {
    } else {
      assert forall k :: 0 <= k < |c| ==> c[k];
    }
  }

  /** The stages a run goes through: all of them, or up to and including the first that fails. */
  function StagesRun(checks: seq<bool>): seq<Stage>
    requires |checks| == |StageOrder|
  {
    match FirstFailure(checks)
    case None => StageOrder
    case Some(k) => StageOrder[..k + 1]
  }

  /** The path of the latest file. */
  function LatestPath(cfg: Config): string
  {
    PathJoin(cfg.outputDirLatest, cfg.outputLatestFilename)
  }

  /** The path of the dated copy made on `today`. */
  function ArchivePath(cfg: Config, today: Date): string
    requires ValidDate(today)
  {
    PathJoin(cfg.outputDirArchive, ArchiveFilename(today))
  }

  /**
   * With the shipped configuration the latest file and its dated copy never share
   * a path (40 characters against 47), so the closing copy never copies the latest
   * file onto itself, which `shutil.copyfile` would refuse.
   */
  lemma LatestAndArchiveDiffer(today: Date)
    requires ValidDate(today)
    ensures LatestPath(DefaultConfig()) != ArchivePath(DefaultConfig(), today)
  {
    assert |LatestPath(DefaultConfig())| == 40;
    assert |ArchivePath(DefaultConfig(), today)| == 47;
  }

  /**
   * The files a run leaves, given where it first failed: nothing before the latest
   * file is written, the latest file alone when only the archive copy fails, both
   * when every stage passes.
   */
  function WrittenFiles<P>(failure: Option<nat>, zones: seq<ZoneBuilder.Zone<P>>,
                           latest: string, archive: string): seq<Output<P>>
  {
    match failure
    case None => [Output(latest, zones), Output(archive, zones)]
    case Some(k) => if k < 7 then [] else [Output(latest, zones)]
  }

  /** The files a run in `w` on `today` leaves. */
  function FilesWritten<J, P>(cfg: Config, w: World<J, P>, today: Date): seq<Output<P>>
    requires ValidDate(today)
  {
    WrittenFiles(FirstFailure(Checks(cfg, w)), Zones(cfg, w), LatestPath(cfg), ArchivePath(cfg, today))
  }

  /**
   * `main` and the handler around it: each stage, then its check; the first
   * failure returns exit status 1 at once. `today` is the date the clock reads.
   */
  method RunPipeline<J, P>(cfg: Config, w: World<J, P>, today: Date)
      returns (status: int, ran: seq<Stage>, written: seq<Output<P>>)
    requires ValidDate(today)
    ensures ran == StagesRun(Checks(cfg, w))
    ensures status == (if FirstFailure(Checks(cfg, w)).None? then 0 else 1)
    ensures written == FilesWritten(cfg, w, today)
  {
    ghost var r := Compute(cfg, w);
    FailedCheckIsFirstFailure(w, r);
    ran := StageOrder[..1];
    written := [];
    if !w.directoriesReady {
      return 1, ran, written;
    }

    ran := StageOrder[..2];
    var doc, _ := FetchDeepStateMapData(cfg, w.reply);
    assert doc == r.doc;
    if !Truthy(doc) {
      return 1, ran, written;
    }

    ran := StageOrder[..3];
    var occupied := ExtractOccupiedTerritories(cfg, doc, w.shape, w.isValid);
    assert occupied == r.occupied;
    if occupied == [] {
      return 1, ran, written;
    }

    ran := StageOrder[..4];
    var adversary := w.adversaryRows;
    var target := w.targetRows;
    if adversary == [] || target == [] {
      return 1, ran, written;
    }

    ran := StageOrder[..5];
    var merged := MergeAndClean(occupied, adversary, w.clean);
    assert merged == r.merged;
    if merged.None? {
      return 1, ran, written;
    }

    ran := StageOrder[..6];
    var zones := ZoneBuilder.CreateBufferZones(cfg, merged.value, UnionAll(target), w.buffer);
    assert zones == r.zones;
    if zones == [] {
      return 1, ran, written;
    }

    ran := StageOrder[..7];
    if !w.latestWritable {
      return 1, ran, written;
    }
    written := [Output(LatestPath(cfg), zones)];

    ran := StageOrder[..8];
    if !w.archiveCopyable {
      return 1, ran, written;
    }
    written := written + [Output(ArchivePath(cfg, today), zones)];
    status := 0;
  }

  /** A run succeeds exactly when every stage's check passes, and then it runs every stage. */
  lemma SuccessIff<J, P>(cfg: Config, w: World<J, P>)
    ensures FirstFailure(Checks(cfg, w)).None? <==> forall k :: 0 <= k < |StageOrder| ==> Checks(cfg, w)[k]
    ensures FirstFailure(Checks(cfg, w)).None? ==> StagesRun(Checks(cfg, w)) == StageOrder
  {
  }

  /**
   * Fail-closed: when a stage fails, it is the last stage run, every stage before it
   * passed, and no file is written unless the failing stage comes after the write.
   */
  lemma FailureStopsTheRun<J, P>(cfg: Config, w: World<J, P>, today: Date, k: nat)
    requires ValidDate(today)
    requires k < |StageOrder| && !Checks(cfg, w)[k]
    requires forall j :: 0 <= j < k ==> Checks(cfg, w)[j]
    ensures FirstFailure(Checks(cfg, w)) == Some(k)
    ensures StagesRun(Checks(cfg, w)) == StageOrder[..k + 1]
    ensures StagesRun(Checks(cfg, w))[k] == StageOrder[k]
    ensures k < 7 ==> FilesWritten(cfg, w, today) == []
    ensures k == 7 ==> FilesWritten(cfg, w, today) == [Output(LatestPath(cfg), Zones(cfg, w))]
  {
  }

  /** Every file of a successful run holds the same zones, each lying inside the target country. */
  lemma WrittenZonesInsideTarget<J, P>(cfg: Config, w: World<J, P>, today: Date)
    requires ValidDate(today)
    ensures forall o :: o in FilesWritten(cfg, w, today) ==>
      o.zones == Zones(cfg, w) && forall z :: z in o.zones ==> z.area <= UnionAll(w.targetRows) && z.area != {}
  {
    match Merged(cfg, w)
    case None =>
    case Some(frontline) =>
      match ZoneBuilder.BufferDefinitions(cfg)
      case None =>
      case Some(tiers) =>
        ZoneBuilder.ZonesInsideTarget(tiers, w.buffer, frontline, UnionAll(w.targetRows));
  }

  /** An all-failing service ends the run at the fetch stage, with status 1 and no file. */
  lemma UnreachableServiceFailsAtFetch<J, P>(cfg: Config, w: World<J, P>, today: Date)
    requires ValidDate(today)
    requires w.directoriesReady
    requires forall a :: w.reply(a).RequestFailed?
    ensures FirstFailure(Checks(cfg, w)) == Some(1)
    ensures StagesRun(Checks(cfg, w)) == [PrepareDirectories, Fetch]
    ensures FilesWritten(cfg, w, today) == []
  {
    var checks := Checks(cfg, w);
    if cfg.maxRetries >= 1 {
      AlwaysFailing(w.reply, cfg.maxRetries, cfg.retryDelay);
    } else {
      NoAttemptAllowed(w.reply, cfg.maxRetries, cfg.retryDelay);
    }
    assert !checks[1];
    FailureStopsTheRun(cfg, w, today, 1);
  }

  /**
   * A feed the extractor rejects (a feature whose name lacks "///", say) ends the
   * run at the extraction stage, even though the fetch succeeded.
   */
  lemma EmptyExtractionFailsAtExtract<J, P>(cfg: Config, w: World<J, P>, today: Date)
    requires ValidDate(today)
    requires w.directoriesReady && Truthy(Fetched(cfg, w))
    requires Occupied(cfg, w) == []
    ensures StagesRun(Checks(cfg, w)) == [PrepareDirectories, Fetch, Extract]
    ensures FilesWritten(cfg, w, today) == []
  {
    FailureStopsTheRun(cfg, w, today, 2);
  }

  /**
   * A merged frontline whose widest buffer misses the target country gives no zone
   * rows, so the run stops at the zone stage with status 1 and writes no file.
   */
  lemma FrontlineFarFromTargetFailsAtZones<J, P>(cfg: Config, w: World<J, P>, today: Date)
    requires ValidDate(today)
    requires w.directoriesReady && Truthy(Fetched(cfg, w)) && Occupied(cfg, w) != []
    requires w.adversaryRows != [] && w.targetRows != [] && Merged(cfg, w).Some?
    requires "Critical" in cfg.bufferDistances && "High" in cfg.bufferDistances
             && "Moderate" in cfg.bufferDistances
    requires cfg.bufferDistances["Critical"] <= cfg.bufferDistances["Moderate"]
    requires cfg.bufferDistances["High"] <= cfg.bufferDistances["Moderate"]
    requires ZoneBuilder.Monotone(w.buffer, Merged(cfg, w).value)
    requires w.buffer(Merged(cfg, w).value, cfg.bufferDistances["Moderate"]) !! UnionAll(w.targetRows)
    ensures FirstFailure(Checks(cfg, w)) == Some(5)
    ensures StagesRun(Checks(cfg, w)) == [PrepareDirectories, Fetch, Extract, LoadBorders, Merge, BuildZones]
    ensures FilesWritten(cfg, w, today) == []
  {
    ZoneBuilder.FrontlineFarFromTargetYieldsNoZones(cfg, Merged(cfg, w).value, UnionAll(w.targetRows), w.buffer);
    FailedCheckIsFirstFailure(w, Compute(cfg, w));
  }
}
