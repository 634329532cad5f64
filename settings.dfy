/**
 * The program's frozen configuration record and the dated archive filename it derives.
 * The configuration is an immutable value handed to every stage; the tier radii are a
 * plain map from tier label to an integer distance in metres.
 */
module Settings {
  import opened Text
  import opened Wrappers

  datatype Config = Config(
    maxRetries: int,
    retryDelay: nat,
    outputDirLatest: string,
    outputDirArchive: string,
    outputLatestFilename: string,
    occupiedTerritories: set<string>,
    bufferDistances: map<string, int>)

  /**
   * The values the program ships with: at least one attempt, and three distances
   * that widen from Critical to Moderate, which reaches out to 80 km.
   */
  function DefaultConfig(): (cfg: Config)
    ensures cfg.maxRetries >= 1
    ensures "Critical" in cfg.bufferDistances && "High" in cfg.bufferDistances
            && "Moderate" in cfg.bufferDistances
    ensures 0 <= cfg.bufferDistances["Critical"] <= cfg.bufferDistances["High"]
            <= cfg.bufferDistances["Moderate"]
  {
    Config(
      3,
      5,
      "data/last",
      "data/archive",
      "buffer_zones_data_last.geojson",
      {"CADR and CALR", "Occupied", "Occupied Crimea"},
      map["Critical" := 9000, "High" := 40000, "Moderate" := 80000])
  }

  /** A calendar date as Python's `datetime` can hold it. */
  datatype Date = Date(year: int, month: int, day: int)

  predicate IsLeapYear(y: int)
  {
    y % 4 == 0 && (y % 100 != 0 || y % 400 == 0)
  }

  function DaysInMonth(y: int, m: int): int
    requires 1 <= m <= 12
  {
    if m == 2 then (if IsLeapYear(y) then 29 else 28)
    else if m == 4 || m == 6 || m == 9 || m == 11 then 30
    else 31
  }

  /** The range `datetime` enforces: years 1 to 9999 and real calendar days. */
  predicate ValidDate(d: Date)
  {
    1 <= d.year <= 9999 && 1 <= d.month <= 12 && 1 <= d.day <= DaysInMonth(d.year, d.month)
  }

  const ArchivePrefix: string := "buffer_zones_data_"
  const ArchiveSuffix: string := ".geojson"

  /** `strftime('%Y%m%d')`: four digits of year, two of month, two of day. */
  function DateStamp(d: Date): (stamp: string)
    requires ValidDate(d)
    ensures |stamp| == 8 && AllDigits(stamp)
  {
    ZeroPad(d.year, 4) + ZeroPad(d.month, 2) + ZeroPad(d.day, 2)
  }

  /** The name of the dated archive copy of the result. */
  function ArchiveFilename(d: Date): (name: string)
    requires ValidDate(d)
    ensures |name| == 34
    ensures name[..18] == ArchivePrefix && name[26..] == ArchiveSuffix
    ensures AllDigits(name[18..26])
  {
    assert |ArchivePrefix| == 18 && |ArchiveSuffix| == 8;
    var name := ArchivePrefix + DateStamp(d) + ArchiveSuffix;
    assert name[18..26] == DateStamp(d);
    name
  }

  /** Reads a date back out of an archive filename; the inverse of `ArchiveFilename`. */
  function ParseArchiveFilename(name: string): (d: Option<Date>)
    ensures d.Some? ==> ValidDate(d.value)
  {
    if |name| == 34 && name[..18] == ArchivePrefix && name[26..] == ArchiveSuffix
       && AllDigits(name[18..26])
    then
      var stamp := name[18..26];
      var date := Date(DecimalValue(stamp[..4]), DecimalValue(stamp[4..6]), DecimalValue(stamp[6..]));
      if ValidDate(date) then Some(date) else None
    else None
  }

  /** Every date is recovered from its archive filename, so no two dates share one. */
  lemma ArchiveFilenameRoundTrip(d: Date)
    requires ValidDate(d)
    ensures ParseArchiveFilename(ArchiveFilename(d)) == Some(d)
  {
    var name := ArchiveFilename(d);
    var stamp := DateStamp(d);
    assert name[18..26] == stamp;
    assert stamp[..4] == ZeroPad(d.year, 4);
    assert stamp[4..6] == ZeroPad(d.month, 2);
    assert stamp[6..] == ZeroPad(d.day, 2);
    assert Pow10(4) == 10000 && Pow10(2) == 100;
    DecimalValueOfZeroPad(d.year, 4);
    DecimalValueOfZeroPad(d.month, 2);
    DecimalValueOfZeroPad(d.day, 2);
  }

  /** Every name the parser accepts is exactly the filename of the date it reads. */
  lemma ParsedArchiveFilenameRoundTrip(name: string)
    requires ParseArchiveFilename(name).Some?
    ensures ArchiveFilename(ParseArchiveFilename(name).value) == name
  {
    var d := ParseArchiveFilename(name).value;
    var stamp := name[18..26];
    ZeroPadOfDecimalValue(stamp[..4]);
    ZeroPadOfDecimalValue(stamp[4..6]);
    ZeroPadOfDecimalValue(stamp[6..]);
    assert stamp == stamp[..4] + stamp[4..6] + stamp[6..];
    assert DateStamp(d) == stamp;
    assert name == name[..18] + name[18..26] + name[26..];
  }
}
