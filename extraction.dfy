/** What `get_lat_lon_time_from_nmea` computes, as functions: the initial-date
    pre-scan, the date-carrying scan as a fold over line prefixes, and, beside
    them, a reference definition of the expected points that does not use the
    fold. The lemmas relate the two. */
module NmeaExtraction {
  import opened Wrappers
  import opened Text
  import opened Geo
  import opened Nmea

  /** Why the extraction fails. ParseError: the parser rejected a line classified
      as RMC or GGA (or lacked a field read from it). MissingDate: a GGA line was
      reached while the local `date` was still unbound. Both carry the line's index. */
  datatype Error = ParseError(index: nat, line: string) | MissingDate(index: nat)

  /** The `rstrip("\n\r")` comprehension at the top of `get_lat_lon_time_from_nmea`:
      each line keeps its content and loses exactly its trailing terminators. */
  function CleanLines(raw: seq<string>): (lines: seq<string>)
    ensures |lines| == |raw|
    ensures forall k :: 0 <= k < |raw| ==> lines[k] <= raw[k]
    ensures forall k :: 0 <= k < |raw| ==> lines[k] == [] || !IsEol(lines[k][|lines[k]| - 1])
    ensures forall k, c :: 0 <= k < |raw| && |lines[k]| <= c < |raw[k]| ==> IsEol(raw[k][c])
  {
    seq(|raw|, k requires 0 <= k < |raw| => RstripEol(raw[k]))
  }

  /** The `geo.Point` that the scan appends for a GGA fix under the current date. */
  function MakePoint(env: Collaborators, date: Date, fix: Fix): Point {
    Point(env.asUnixTime(date, fix.timestamp), fix.latitude, fix.longitude, fix.altitude, None)
  }

  /** Index of the first RMC line at or after `from`. */
  function FirstRmcFrom(lines: seq<string>, from: nat): (r: Option<nat>)
    requires from <= |lines|
    ensures r.Some? ==> from <= r.value < |lines| && IsRmc(lines[r.value])
    ensures r.Some? ==> forall k :: from <= k < r.value ==> !IsRmc(lines[k])
    ensures r.None? <==> forall k :: from <= k < |lines| ==> !IsRmc(lines[k])
    decreases |lines| - from
  {
    if from == |lines| then None
    else if IsRmc(lines[from]) then Some(from)
    else FirstRmcFrom(lines, from + 1)
  }

  function FirstRmc(lines: seq<string>): Option<nat> {
    FirstRmcFrom(lines, 0)
  }

  /** Line k is the first RMC line. */
  ghost predicate IsFirstRmc(lines: seq<string>, k: int) {
    0 <= k < |lines| && IsRmc(lines[k]) && forall i :: 0 <= i < k ==> !IsRmc(lines[i])
  }

  /** The date the pre-scan binds: that of the first RMC line, if any. */
  function FirstDate(lines: seq<string>, env: Collaborators): Option<Date> {
    match FirstRmc(lines)
    case Some(k) => env.rmcDate(lines[k])
    case None => None
  }

  /** The pre-scan loop of `get_lat_lon_time_from_nmea`: the date of the first
      RMC line, or None (the local stays unbound) when there is no RMC line; a
      parse failure on that line aborts. */
  function InitialDate(lines: seq<string>, env: Collaborators): (r: Result<Option<Date>, Error>)
    ensures r.Failure? ==> && r.error.ParseError?
                           && IsFirstRmc(lines, r.error.index)
                           && r.error.line == lines[r.error.index]
                           && env.rmcDate(r.error.line).None?
    ensures r.Success? ==> (r.value.None? <==> !HasRmc(lines))
    ensures r.Success? && r.value.Some? ==> exists k :: IsFirstRmc(lines, k) && env.rmcDate(lines[k]) == r.value
  {
    match FirstRmc(lines)
    case None => Success(None)
    case Some(k) =>
      if env.rmcDate(lines[k]).None? then Failure(ParseError(k, lines[k]))
      else Success(FirstDate(lines, env))
  }

  /** The local state of the scan loop: the carried date and the points so far. */
  datatype ScanState = ScanState(date: Option<Date>, points: seq<Point>)

  /** One iteration of the scan loop of `get_lat_lon_time_from_nmea` on line
      `index`: the RMC test first, then the GGA test. */
  function Step(env: Collaborators, st: ScanState, l: string, index: nat): (r: Result<ScanState, Error>)
    ensures r.Failure? ==> r.error.index == index
    ensures r.Failure? && r.error.ParseError? ==>
              r.error.line == l && ((IsRmc(l) && env.rmcDate(l).None?) || (IsGga(l) && env.ggaFix(l).None?))
    ensures r.Failure? && r.error.MissingDate? ==> IsGga(l) && !IsRmc(l) && st.date.None?
    ensures r.Success? ==> st.points <= r.value.points
    ensures r.Success? ==> |r.value.points| == |st.points| + (if IsGga(l) then 1 else 0)
    ensures r.Success? && IsRmc(l) ==> r.value.date == env.rmcDate(l) && r.value.date.Some?
    ensures r.Success? && !IsRmc(l) ==> r.value.date == st.date
  {
    if IsRmc(l) && env.rmcDate(l).None? then Failure(ParseError(index, l))
    else
      var date := if IsRmc(l) then env.rmcDate(l) else st.date;
      if !IsGga(l) then Success(ScanState(date, st.points))
      else
        match env.ggaFix(l)
        case None => Failure(ParseError(index, l))
        case Some(fix) =>
          if date.None? then Failure(MissingDate(index))
          else Success(ScanState(date, st.points + [MakePoint(env, date.value, fix)]))
  }

  /** The scan after its first n lines, starting from date d0. A failure names
      one of those lines and says why it raised; the date stays unbound only
      while no date was given and no RMC line was seen. */
  function ScanPrefix(lines: seq<string>, n: nat, d0: Option<Date>, env: Collaborators): (r: Result<ScanState, Error>)
    requires n <= |lines|
    ensures r.Failure? ==> r.error.index < n
    ensures r.Failure? && r.error.ParseError? ==>
              && r.error.line == lines[r.error.index]
              && ((IsRmc(r.error.line) && env.rmcDate(r.error.line).None?)
                  || (IsGga(r.error.line) && env.ggaFix(r.error.line).None?))
    ensures r.Failure? && r.error.MissingDate? ==>
              IsGga(lines[r.error.index]) && d0.None? && forall k :: 0 <= k <= r.error.index ==> !IsRmc(lines[k])
    ensures r.Success? && r.value.date.None? ==> d0.None? && forall k :: 0 <= k < n ==> !IsRmc(lines[k])
    ensures r.Success? ==> |r.value.points| <= n
  {
    if n == 0 then Success(ScanState(d0, []))
    else
      match ScanPrefix(lines, n - 1, d0, env)
      case Failure(e) => Failure(e)
      case Success(st) => Step(env, st, lines[n - 1], n - 1)
  }

  /** Why error e is raised on these lines: a parse error names an RMC line
      whose date or a GGA line whose fix the parser did not yield; a missing
      date names a GGA line of a file without RMC lines. */
  ghost predicate Explains(lines: seq<string>, env: Collaborators, e: Error) {
    match e
    case ParseError(i, l) =>
      && i < |lines| && l == lines[i]
      && ((IsRmc(l) && env.rmcDate(l).None?) || (IsGga(l) && env.ggaFix(l).None?))
    case MissingDate(i) =>
      i < |lines| && IsGga(lines[i]) && !HasRmc(lines)
  }

  /** The points `get_lat_lon_time_from_nmea` collects before its sort, or the
      error it raises. */
  function Collect(lines: seq<string>, env: Collaborators): (r: Result<seq<Point>, Error>)
    ensures r.Failure? ==> Explains(lines, env, r.error)
  {
    match InitialDate(lines, env)
    case Failure(e) => Failure(e)
    case Success(d0) =>
      match ScanPrefix(lines, |lines|, d0, env)
      case Failure(e) => Failure(e)
      case Success(st) => Success(st.points)
  }

  // ---------------------------------------------------------------------------
  // Reference definition, independent of the fold.

  /** Index of the last RMC line at or before line j. */
  function LastRmcUpTo(lines: seq<string>, j: nat): (r: Option<nat>)
    requires j < |lines|
    ensures r.Some? ==> r.value <= j && IsRmc(lines[r.value])
    ensures r.Some? ==> forall k :: r.value < k <= j ==> !IsRmc(lines[k])
    ensures r.None? <==> forall k :: 0 <= k <= j ==> !IsRmc(lines[k])
  {
    if IsRmc(lines[j]) then Some(j)
    else if j == 0 then None
    else LastRmcUpTo(lines, j - 1)
  }

  /** The date in force at line j: that of the last RMC line at or before j,
      or, before every RMC line, that of the first RMC line of the file. */
  function DateAt(lines: seq<string>, j: nat, env: Collaborators): Option<Date>
    requires j < |lines|
  {
    match LastRmcUpTo(lines, j)
    case Some(k) => env.rmcDate(lines[k])
    case None => FirstDate(lines, env)
  }

  predicate HasRmc(lines: seq<string>) {
    exists k :: 0 <= k < |lines| && IsRmc(lines[k])
  }

  predicate HasGga(lines: seq<string>) {
    exists k :: 0 <= k < |lines| && IsGga(lines[k])
  }

  /** The input on which the extraction succeeds: every RMC line yields a date,
      every GGA line yields a fix, and GGA lines occur only if an RMC line does. */
  predicate WellFormed(lines: seq<string>, env: Collaborators) {
    && (forall k :: 0 <= k < |lines| && IsRmc(lines[k]) ==> env.rmcDate(lines[k]).Some?)
    && (forall k :: 0 <= k < |lines| && IsGga(lines[k]) ==> env.ggaFix(lines[k]).Some?)
    && (HasGga(lines) ==> HasRmc(lines))
  }

  /** On well-formed input every GGA line has a date in force. */
  lemma DateAtDefined(lines: seq<string>, j: nat, env: Collaborators)
    requires WellFormed(lines, env) && j < |lines| && IsGga(lines[j])
    ensures DateAt(lines, j, env).Some?
  {
  }

  /** The point GGA line j contributes. */
  function PointAt(lines: seq<string>, j: nat, env: Collaborators): Point
    requires WellFormed(lines, env) && j < |lines| && IsGga(lines[j])
  {
    DateAtDefined(lines, j, env);
    MakePoint(env, DateAt(lines, j, env).value, env.ggaFix(lines[j]).value)
  }

  /** The points of the GGA lines among the first n, in line order. */
  function ExpectedUpTo(lines: seq<string>, n: nat, env: Collaborators): seq<Point>
    requires WellFormed(lines, env) && n <= |lines|
  {
    if n == 0 then []
    else ExpectedUpTo(lines, n - 1, env) + (if IsGga(lines[n - 1]) then [PointAt(lines, n - 1, env)] else [])
  }

  function Expected(lines: seq<string>, env: Collaborators): seq<Point>
    requires WellFormed(lines, env)
  {
    ExpectedUpTo(lines, |lines|, env)
  }

  /** Number of GGA lines. */
  function CountGga(lines: seq<string>): nat {
    if lines == [] then 0
    else CountGga(lines[..|lines| - 1]) + (if IsGga(lines[|lines| - 1]) then 1 else 0)
  }

  /** Point p is the one GGA line j contributes: the fix's time of day on the
      date in force at j, the fix's coordinates unchanged, and no heading. */
  ghost predicate FromLine(lines: seq<string>, env: Collaborators, j: int, p: Point) {
    && 0 <= j < |lines|
    && IsGga(lines[j])
    && env.ggaFix(lines[j]).Some?
    && DateAt(lines, j, env).Some?
    && var fix := env.ggaFix(lines[j]).value;
       p == Point(env.asUnixTime(DateAt(lines, j, env).value, fix.timestamp),
                  fix.latitude, fix.longitude, fix.altitude, None)
  }

  // ---------------------------------------------------------------------------
  // Lemmas

  /** Once the scan has failed, later lines do not change the error. */
  lemma {:induction false} ScanFailureSticks(lines: seq<string>, d0: Option<Date>, env: Collaborators, n: nat, m: nat)
    requires n <= m <= |lines|
    requires ScanPrefix(lines, n, d0, env).Failure?
    ensures ScanPrefix(lines, m, d0, env) == ScanPrefix(lines, n, d0, env)
  {
    if m > n {
      ScanFailureSticks(lines, d0, env, n, m - 1);
    }
  }

  /** The error of a failed scan is raised by the first line that raises: the
      scan up to that line succeeds, and that line's step fails with it. */
  lemma {:induction false} ScanErrorIsFirst(lines: seq<string>, n: nat, d0: Option<Date>, env: Collaborators)
    requires n <= |lines| && ScanPrefix(lines, n, d0, env).Failure?
    ensures var e := ScanPrefix(lines, n, d0, env).error;
            && ScanPrefix(lines, e.index, d0, env).Success?
            && Step(env, ScanPrefix(lines, e.index, d0, env).value, lines[e.index], e.index) == Failure(e)
  {
    if ScanPrefix(lines, n - 1, d0, env).Failure? {
      ScanErrorIsFirst(lines, n - 1, d0, env);
    }
  }

  /** Error e is the one Python raises first: either the pre-scan rejects the
      first RMC line, or the pre-scan succeeds, the scan passes every line before
      line e.index, and that line raises e. */
  ghost predicate RaisedFirst(lines: seq<string>, env: Collaborators, e: Error) {
    || InitialDate(lines, env) == Failure(e)
    || (&& InitialDate(lines, env).Success?
        && e.index < |lines|
        && var d0 := InitialDate(lines, env).value;
           && ScanPrefix(lines, e.index, d0, env).Success?
           && Step(env, ScanPrefix(lines, e.index, d0, env).value, lines[e.index], e.index) == Failure(e))
  }

  /** The extraction's error is the first one raised. */
  lemma CollectErrorIsFirst(lines: seq<string>, env: Collaborators)
    requires Collect(lines, env).Failure?
    ensures RaisedFirst(lines, env, Collect(lines, env).error)
  {
    if InitialDate(lines, env).Success? {
      ScanErrorIsFirst(lines, |lines|, InitialDate(lines, env).value, env);
    }
  }

  /** On well-formed input the pre-scan succeeds with the first RMC line's date. */
  lemma InitialDateWellFormed(lines: seq<string>, env: Collaborators)
    requires WellFormed(lines, env)
    ensures InitialDate(lines, env) == Success(FirstDate(lines, env))
  {
  }

  /** The date the scan carries after its first n lines on well-formed input. */
  function Carried(lines: seq<string>, n: nat, env: Collaborators): Option<Date>
    requires n <= |lines|
  {
    if n == 0 then FirstDate(lines, env) else DateAt(lines, n - 1, env)
  }

  /** One step of the fold from the reference state of line j reaches the
      reference state of line j + 1. */
  lemma StepMatchesReference(lines: seq<string>, env: Collaborators, j: nat)
    requires WellFormed(lines, env) && j < |lines|
    ensures Step(env, ScanState(Carried(lines, j, env), ExpectedUpTo(lines, j, env)), lines[j], j)
         == Success(ScanState(Carried(lines, j + 1, env), ExpectedUpTo(lines, j + 1, env)))
  {
    var l := lines[j];
    if !IsRmc(l) && j > 0 {
      assert LastRmcUpTo(lines, j) == LastRmcUpTo(lines, j - 1);
    }
    assert Carried(lines, j + 1, env) == if IsRmc(l) then env.rmcDate(l) else Carried(lines, j, env);
    if IsGga(l) {
      DateAtDefined(lines, j, env);
    } else {
      assert ExpectedUpTo(lines, j + 1, env) == ExpectedUpTo(lines, j, env) + [];
      assert ExpectedUpTo(lines, j + 1, env) == ExpectedUpTo(lines, j, env);
    }
  }

  /** The fold agrees with the reference definition: after n lines the carried
      date is the date in force at line n-1 and the points are those of the GGA
      lines among the first n, in order. */
  lemma {:induction false} ScanMatchesReference(lines: seq<string>, env: Collaborators, n: nat)
    requires WellFormed(lines, env) && n <= |lines|
    ensures ScanPrefix(lines, n, FirstDate(lines, env), env)
         == Success(ScanState(Carried(lines, n, env), ExpectedUpTo(lines, n, env)))
  {
    if n > 0 {
      ScanMatchesReference(lines, env, n - 1);
      StepMatchesReference(lines, env, n - 1);
      ScanPrefixUnfold(lines, n, FirstDate(lines, env), env);
    }
  }

  /** A successful scan of n - 1 lines extends by one step. */
  lemma ScanPrefixUnfold(lines: seq<string>, n: nat, d0: Option<Date>, env: Collaborators)
    requires 0 < n <= |lines| && ScanPrefix(lines, n - 1, d0, env).Success?
    ensures ScanPrefix(lines, n, d0, env) == Step(env, ScanPrefix(lines, n - 1, d0, env).value, lines[n - 1], n - 1)
  {
  }

  /** What a successful scan reveals about its input. */
  lemma {:induction false} ScanSuccessShows(lines: seq<string>, n: nat, d0: Option<Date>, env: Collaborators)
    requires n <= |lines| && ScanPrefix(lines, n, d0, env).Success?
    ensures forall k :: 0 <= k < n && IsRmc(lines[k]) ==> env.rmcDate(lines[k]).Some?
    ensures forall k :: 0 <= k < n && IsGga(lines[k]) ==> env.ggaFix(lines[k]).Some?
    ensures d0.None? && (forall k :: 0 <= k < n ==> !IsRmc(lines[k])) ==>
              ScanPrefix(lines, n, d0, env).value.date.None? && forall k :: 0 <= k < n ==> !IsGga(lines[k])
  {
    if n > 0 {
      ScanSuccessShows(lines, n - 1, d0, env);
    }
  }

  /** The extraction succeeds exactly on well-formed input. */
  lemma CollectSucceedsIff(lines: seq<string>, env: Collaborators)
    ensures Collect(lines, env).Success? <==> WellFormed(lines, env)
  {
    if WellFormed(lines, env) {
      InitialDateWellFormed(lines, env);
      ScanMatchesReference(lines, env, |lines|);
    }
    if Collect(lines, env).Success? {
      var d0 := InitialDate(lines, env).value;
      ScanSuccessShows(lines, |lines|, d0, env);
      if FirstRmc(lines).Some? {
        var k := FirstRmc(lines).value;
        assert IsRmc(lines[k]);
      }
    }
  }

  /** On success the collected points are exactly the reference points, in line order. */
  lemma CollectYieldsExpected(lines: seq<string>, env: Collaborators)
    requires WellFormed(lines, env)
    ensures Collect(lines, env) == Success(Expected(lines, env))
  {
    InitialDateWellFormed(lines, env);
    ScanMatchesReference(lines, env, |lines|);
  }

  /** One point per GGA line. */
  lemma {:induction false} ExpectedLength(lines: seq<string>, env: Collaborators, n: nat)
    requires WellFormed(lines, env) && n <= |lines|
    ensures |ExpectedUpTo(lines, n, env)| == CountGga(lines[..n])
  {
    if n > 0 {
      ExpectedLength(lines, env, n - 1);
      assert lines[..n][..n - 1] == lines[..n - 1];
    }
  }

  /** A point is collected exactly when some GGA line contributes it. */
  lemma {:induction false} ExpectedMembers(lines: seq<string>, env: Collaborators, n: nat)
    requires WellFormed(lines, env) && n <= |lines|
    ensures forall p :: p in ExpectedUpTo(lines, n, env) <==> exists j :: j < n && FromLine(lines, env, j, p)
  {
    if n > 0 {
      ExpectedMembers(lines, env, n - 1);
      if IsGga(lines[n - 1]) {
        DateAtDefined(lines, n - 1, env);
        assert FromLine(lines, env, n - 1, PointAt(lines, n - 1, env));
      }
      forall p | exists j :: j < n && FromLine(lines, env, j, p)
        ensures p in ExpectedUpTo(lines, n, env)
      {
        var j :| j < n && FromLine(lines, env, j, p);
        if j < n - 1 {
          assert p in ExpectedUpTo(lines, n - 1, env);
        }
      }
    }
  }

  /** Lines that are neither RMC nor GGA leave the scan's result unchanged,
      wherever they stand and whatever date and points it carries. */
  lemma {:induction false} QuietLines(lines: seq<string>, d0: Option<Date>, env: Collaborators, n: nat, m: nat)
    requires n <= m <= |lines|
    requires forall k :: n <= k < m ==> !IsRmc(lines[k]) && !IsGga(lines[k])
    ensures ScanPrefix(lines, m, d0, env) == ScanPrefix(lines, n, d0, env)
  {
    if m > n {
      QuietLines(lines, d0, env, n, m - 1);
    }
  }

  /** A file that opens with quiet lines and has no date bound is, after them,
      still without date and points. */
  lemma {:induction false} QuietPrefix(lines: seq<string>, n: nat, env: Collaborators)
    requires n <= |lines|
    requires forall k :: 0 <= k < n ==> !IsRmc(lines[k]) && !IsGga(lines[k])
    ensures ScanPrefix(lines, n, None, env) == Success(ScanState(None, []))
  {
    QuietLines(lines, None, env, 0, n);
  }

  /** Without any RMC line, the first GGA line aborts the extraction: with a
      parse error if its sentence does not parse, otherwise because no date was
      ever bound. */
  lemma NoDateFailsAtFirstGga(lines: seq<string>, env: Collaborators, j: nat)
    requires !HasRmc(lines)
    requires j < |lines| && IsGga(lines[j])
    requires forall k :: 0 <= k < j ==> !IsGga(lines[k])
    ensures Collect(lines, env)
         == Failure(if env.ggaFix(lines[j]).None? then ParseError(j, lines[j]) else MissingDate(j))
  {
    assert FirstRmc(lines).None?;
    QuietPrefix(lines, j, env);
    ScanFailureSticks(lines, None, env, j + 1, |lines|);
  }

  /** Without RMC and GGA lines the result is the empty list. */
  lemma NoSentencesNoPoints(lines: seq<string>, env: Collaborators)
    requires !HasRmc(lines) && !HasGga(lines)
    ensures Collect(lines, env) == Success([])
  {
    assert FirstRmc(lines).None?;
    QuietPrefix(lines, |lines|, env);
  }

  /** A line with both markers takes its own RMC date for its own point. */
  lemma SameLineDateFirst(lines: seq<string>, env: Collaborators, j: nat)
    requires WellFormed(lines, env) && j < |lines| && IsRmc(lines[j]) && IsGga(lines[j])
    ensures PointAt(lines, j, env).time
         == env.asUnixTime(env.rmcDate(lines[j]).value, env.ggaFix(lines[j]).value.timestamp)
  {
  }
}
