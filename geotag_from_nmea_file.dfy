/** `get_lat_lon_time_from_nmea` as the two loops the source runs, and the
    `GeotagFromNMEAFile` constructor that forwards its result. */
module GeotagFromNmeaFile {
  import opened Wrappers
  import opened Text
  import opened Geo
  import opened Nmea
  import opened NmeaExtraction

  /** Reads the lines of an NMEA log and returns its GGA points sorted by time.
      Fails on the first classified line the parser rejects, and on a GGA line
      when no RMC line exists at all. */
  method GetLatLonTimeFromNmea(nmeaLines: seq<string>, env: Collaborators) returns (r: Result<seq<Point>, Error>)
    ensures r.Success? <==> WellFormed(CleanLines(nmeaLines), env)
    ensures r.Failure? ==> r == Collect(CleanLines(nmeaLines), env)
    ensures r.Failure? ==> Explains(CleanLines(nmeaLines), env, r.error)
    ensures r.Failure? ==> RaisedFirst(CleanLines(nmeaLines), env, r.error)
    ensures r.Success? ==> SortedByTime(r.value)
    ensures r.Success? ==> |r.value| == CountGga(CleanLines(nmeaLines))
    ensures r.Success? ==> multiset(r.value) == multiset(Expected(CleanLines(nmeaLines), env))
    ensures r.Success? ==> forall p :: p in r.value <==> exists j :: FromLine(CleanLines(nmeaLines), env, j, p)
  {
    var lines := CleanLines(nmeaLines);
    CollectSucceedsIff(lines, env);
    if Collect(lines, env).Failure? {
      CollectErrorIsFirst(lines, env);
    }
    var initial := InitialDateScan(lines, env);
    if initial.Failure? {
      return Failure(initial.error);
    }
    var scanned := PointScan(lines, initial.value, env);
    if scanned.Failure? {
      return Failure(scanned.error);
    }
    var points := scanned.value;
    var a := new Point[|points|](k requires 0 <= k < |points| => points[k]);
    assert a[..] == points;
    SortByTime(a);
    r := Success(a[..]);

    CollectYieldsExpected(lines, env);
    ExpectedLength(lines, env, |lines|);
    assert lines[..|lines|] == lines;
    ExpectedMembers(lines, env, |lines|);
    assert forall p :: p in r.value <==> p in multiset(r.value);
    assert forall p :: p in points <==> p in multiset(points);
  }

  /** The pre-scan loop with its `break`: the first RMC line's date, None when
      there is no RMC line. */
  method InitialDateScan(lines: seq<string>, env: Collaborators) returns (r: Result<Option<Date>, Error>)
    ensures r == InitialDate(lines, env)
  {
    var date: Option<Date> := None;
    var i := 0;
    while i < |lines|
      invariant i <= |lines|
      invariant FirstRmc(lines) == FirstRmcFrom(lines, i)
      invariant date.None?
    {
      if Contains(lines[i], RmcMarker) {
        var d := env.rmcDate(lines[i]);
        if d.None? {
          return Failure(ParseError(i, lines[i]));
        }
        date := d;
        break;
      }
      i := i + 1;
    }
    r := Success(date);
  }

  /** The scan loop that carries `date` and appends points, starting from the
      pre-scanned date d0. */
  method PointScan(lines: seq<string>, d0: Option<Date>, env: Collaborators) returns (r: Result<seq<Point>, Error>)
    ensures ScanPrefix(lines, |lines|, d0, env).Failure? ==> r == Failure(ScanPrefix(lines, |lines|, d0, env).error)
    ensures ScanPrefix(lines, |lines|, d0, env).Success? ==> r == Success(ScanPrefix(lines, |lines|, d0, env).value.points)
  {
    var date := d0;
    var points: seq<Point> := [];
    var i := 0;
    while i < |lines|
      invariant i <= |lines|
      invariant ScanPrefix(lines, i, d0, env) == Success(ScanState(date, points))
    {
      var l := lines[i];
      if Contains(l, RmcMarker) {
        var d := env.rmcDate(l);
        if d.None? {
          ScanFailureSticks(lines, d0, env, i + 1, |lines|);
          return Failure(ParseError(i, l));
        }
        date := d;
      }
      if Contains(l, GgaMarker) {
        var fix := env.ggaFix(l);
        if fix.None? {
          ScanFailureSticks(lines, d0, env, i + 1, |lines|);
          return Failure(ParseError(i, l));
        }
        if date.None? {
          ScanFailureSticks(lines, d0, env, i + 1, |lines|);
          return Failure(MissingDate(i));
        }
        points := points + [MakePoint(env, date.value, fix.value)];
      }
      i := i + 1;
    }
    r := Success(points);
  }

  /** The state `GeotagFromNMEAFile.__init__` hands to its superclass. */
  datatype GeotagFromNmeaFile = GeotagFromNmeaFile(
    images: seq<string>,
    points: seq<Point>,
    useGpxStartTime: bool,
    offsetTime: real)

  /** The constructor: extracts the points and forwards them, with the other
      arguments unchanged; an extraction failure propagates. */
  method NewGeotagFromNmeaFile(images: seq<string>, nmeaLines: seq<string>, env: Collaborators,
                               useGpxStartTime: bool, offsetTime: real)
    returns (r: Result<GeotagFromNmeaFile, Error>)
    ensures r.Success? <==> WellFormed(CleanLines(nmeaLines), env)
    ensures r.Failure? ==> Collect(CleanLines(nmeaLines), env) == Failure(r.error)
    ensures r.Failure? ==> Explains(CleanLines(nmeaLines), env, r.error)
    ensures r.Failure? ==> RaisedFirst(CleanLines(nmeaLines), env, r.error)
    ensures r.Success? ==> && r.value.images == images
                           && r.value.useGpxStartTime == useGpxStartTime
                           && r.value.offsetTime == offsetTime
                           && SortedByTime(r.value.points)
                           && multiset(r.value.points) == multiset(Expected(CleanLines(nmeaLines), env))
  {
    var points := GetLatLonTimeFromNmea(nmeaLines, env);
    match points
    case Failure(e) =>
      r := Failure(e);
    case Success(ps) =>
      r := Success(GeotagFromNmeaFile(images, ps, useGpxStartTime, offsetTime));
  }
}
