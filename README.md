# NMEA log to GPS points (mapillary_tools)

This project models the GPS-log reader of mapillary_tools:
`get_lat_lon_time_from_nmea` turns the lines of an NMEA 0183 log into a list of
`geo.Point` samples, and the `GeotagFromNMEAFile` constructor passes that list on.
The reader knows two kinds of sentence:

- RMC lines carry a calendar date. A line counts as RMC when `GNRMC` occurs
  anywhere in it.
- GGA lines carry a time of day and a position. A line counts as GGA when
  `$GNGGA` occurs anywhere in it.

First every line loses its trailing line terminators. Then a pre-scan binds
`date` to the date of the first RMC line. A second scan walks all lines. Each
RMC line re-binds `date`. Each GGA line appends a point: its time is the GGA time
of day on the current `date`, its coordinates come from the same sentence, and
it has no heading. Last, the list is sorted in place.

Layout:

- `wrappers.dfy` (`Wrappers`): Option and Result.
- `text.dfy` (`Text`): `str.rstrip("\n\r")` and the substring test `in`.
- `geo.dfy` (`Geo`): the point and the in-place sort by time.
- `nmea.dfy` (`Nmea`): dates, times of day and GGA fixes; line classification;
  the foreign operations, bundled as a `Collaborators` value.
- `extraction.dfy` (`NmeaExtraction`): the extraction as functions and the lemmas
  about it. The functions are the pre-scan, the scan as a fold over line prefixes
  and a reference definition (`DateAt`, `FromLine`, `Expected`) that does not use
  the fold.
- `geotag_from_nmea_file.dfy` (`GeotagFromNmeaFile`): the two loops as methods,
  the whole function, and the constructor.

The parser (`pynmea2.parse` followed by attribute reads) and the epoch conversion
(`geo.as_unix_time` of `datetime.combine`) are foreign code. They are the fields of
a `Collaborators` parameter, and every result holds for every choice of them.
A parser call that would raise returns `None`. Python's exceptions become
`Failure(e)`. The error `ParseError(i, line)` is a rejected RMC or GGA line.
The error `MissingDate(i)` is the `UnboundLocalError` raised when line `i` is a
GGA line and `date` was never bound.

Three behaviours of the code deserve stating plainly:

- A GGA line before every RMC line does not fail. It takes the date of the first
  RMC line in the file, because the pre-scan already bound it. The function fails
  for want of a date only when the file has no RMC line at all and has a GGA line.
- A sentence that does not parse aborts the whole extraction. No line is skipped.
- The RMC marker is `GNRMC` without the `$`. The GGA marker is `$GNGGA`.

## Model

| member | source | states |
|---|---|---|
| Text.RstripEol | mapillary_tools/geotag/geotag_from_nmea_file.py:32 | the cleaned line is a prefix of the raw line; it does not end in `\n` or `\r`; every removed character is `\n` or `\r` |
| Text.RstripEolUndoesTerminators | mapillary_tools/geotag/geotag_from_nmea_file.py:32 | cleaning a line that does not end in a terminator, after any run of terminators was appended, gives back exactly that line |
| Text.Contains | mapillary_tools/geotag/geotag_from_nmea_file.py:44-48 | `pat in s` holds exactly when `pat` occurs in `s` at some position |
| Nmea.IsRmc | mapillary_tools/geotag/geotag_from_nmea_file.py:36 | a line is an RMC line exactly when `GNRMC` occurs in it at some position |
| Nmea.IsGga | mapillary_tools/geotag/geotag_from_nmea_file.py:48 | a line is a GGA line exactly when `$GNGGA` occurs in it at some position |
| NmeaExtraction.CleanLines | mapillary_tools/geotag/geotag_from_nmea_file.py:32 | there is one cleaned line per raw line; each is a prefix of its raw line, does not end in `\n` or `\r`, and lost only `\n` and `\r` characters |
| NmeaExtraction.InitialDate | mapillary_tools/geotag/geotag_from_nmea_file.py:35-39 | the pre-scan fails only with a parse error on the first RMC line; on success it binds no date exactly when there is no RMC line, and otherwise binds the first RMC line's date |
| NmeaExtraction.Step | mapillary_tools/geotag/geotag_from_nmea_file.py:44-56 | one iteration fails only at its own line, with a parse error of an RMC or GGA sentence on that line or a missing date on a GGA line that is not RMC; on success it appends one point if the line is GGA and none otherwise, keeps the earlier points, and takes the line's RMC date or keeps the carried one |
| NmeaExtraction.ScanPrefix | mapillary_tools/geotag/geotag_from_nmea_file.py:42-56 | a failure after n lines names one of those lines: a parse error names a classified line whose sentence the parser rejected; a missing date names a GGA line with no RMC line at or before it and no pre-scanned date; the carried date is unbound only while no date was given and no RMC line was seen |
| NmeaExtraction.Collect | mapillary_tools/geotag/geotag_from_nmea_file.py:35-56 | a failure names its line: a parse error names an RMC or GGA line the parser rejected, and a missing date names a GGA line of a file without RMC lines |
| Geo.SortByTime | mapillary_tools/geotag/geotag_from_nmea_file.py:58 | after the in-place sort the array is non-decreasing by time and is a permutation of the array before |
| NmeaExtraction.FirstRmcFrom | mapillary_tools/geotag/geotag_from_nmea_file.py:35-36 | the index found is an RMC line with no RMC line before it; None exactly when no line is RMC |
| NmeaExtraction.LastRmcUpTo | mapillary_tools/geotag/geotag_from_nmea_file.py:44-46 | the index found is the last RMC line at or before line j; None exactly when no line up to j is RMC |
| NmeaExtraction.InitialDateWellFormed | mapillary_tools/geotag/geotag_from_nmea_file.py:35-39 | on input where every classified line parses, the pre-scan binds the first RMC line's date, or nothing when there is no RMC line |
| NmeaExtraction.DateAtDefined | mapillary_tools/geotag/geotag_from_nmea_file.py:35-50 | on input where every classified line parses and some RMC line exists, every GGA line has a date in force |
| NmeaExtraction.StepMatchesReference | mapillary_tools/geotag/geotag_from_nmea_file.py:44-56 | one iteration of the scan loop turns the state for line j into the state for line j+1: the date in force at j and the points of the GGA lines up to j |
| NmeaExtraction.ScanMatchesReference | mapillary_tools/geotag/geotag_from_nmea_file.py:42-56 | after n lines the carried date is the date of the last RMC line so far (else the first RMC line's), and the points are those of the first n lines' GGA lines in line order |
| NmeaExtraction.ScanFailureSticks | mapillary_tools/geotag/geotag_from_nmea_file.py:43-56 | once a line raises, the later lines leave the error unchanged |
| NmeaExtraction.ScanSuccessShows | mapillary_tools/geotag/geotag_from_nmea_file.py:43-50 | a scan that succeeds had every RMC line and GGA line parse; with no date bound and no RMC line it saw no GGA line |
| NmeaExtraction.ScanErrorIsFirst | mapillary_tools/geotag/geotag_from_nmea_file.py:43-56 | the error of a failed scan is raised by the first line that raises: the scan of every earlier line succeeds and that line's iteration fails with exactly this error |
| NmeaExtraction.CollectErrorIsFirst | mapillary_tools/geotag/geotag_from_nmea_file.py:35-56 | the extraction's error is the one Python raises first: the pre-scan's error on the first RMC line, or else the error of the earliest line of the second loop that raises, all lines before it having passed |
| NmeaExtraction.CollectSucceedsIff | mapillary_tools/geotag/geotag_from_nmea_file.py:35-56 | the extraction succeeds if and only if every RMC line and GGA line parses and a GGA line occurs only when an RMC line does |
| NmeaExtraction.CollectYieldsExpected | mapillary_tools/geotag/geotag_from_nmea_file.py:35-56 | on such input the points collected before the sort are exactly the reference points of the GGA lines, in line order |
| NmeaExtraction.ExpectedLength | mapillary_tools/geotag/geotag_from_nmea_file.py:48-56 | there is one point for each GGA line, and no other line adds a point |
| NmeaExtraction.ExpectedMembers | mapillary_tools/geotag/geotag_from_nmea_file.py:48-55 | a point is collected if and only if some GGA line yields it: the fix's time of day on the date in force at that line, the fix's latitude, longitude and altitude unchanged, and no heading |
| NmeaExtraction.QuietLines | mapillary_tools/geotag/geotag_from_nmea_file.py:43-56 | lines that are neither RMC nor GGA leave the scan's result unchanged, wherever they stand and whatever date and points it carries |
| NmeaExtraction.QuietPrefix | mapillary_tools/geotag/geotag_from_nmea_file.py:43-56 | a scan with no date bound that starts with such lines still has no date and no points after them |
| NmeaExtraction.NoDateFailsAtFirstGga | mapillary_tools/geotag/geotag_from_nmea_file.py:35-50 | with no RMC line, the first GGA line aborts the extraction: with ParseError if its sentence does not parse, otherwise with MissingDate |
| NmeaExtraction.NoSentencesNoPoints | mapillary_tools/geotag/geotag_from_nmea_file.py:35-59 | with neither RMC nor GGA lines the result is the empty list |
| NmeaExtraction.SameLineDateFirst | mapillary_tools/geotag/geotag_from_nmea_file.py:44-50 | a line with both markers stamps its own point with its own RMC date |
| GeotagFromNmeaFile.InitialDateScan | mapillary_tools/geotag/geotag_from_nmea_file.py:34-39 | the pre-scan loop with its `break` computes the first RMC line's date, or fails on that line's parse error |
| GeotagFromNmeaFile.PointScan | mapillary_tools/geotag/geotag_from_nmea_file.py:41-56 | the scan loop computes the fold's points, or fails with exactly the fold's error |
| GeotagFromNmeaFile.GetLatLonTimeFromNmea | mapillary_tools/geotag/geotag_from_nmea_file.py:29-59 | succeeds exactly on well-formed input, otherwise returns the extraction's error, which names a line that raises it for a stated reason and is the first error raised: the pre-scan's, or else that of the earliest failing line of the scan; the result is sorted by time, has one point per GGA line, is a permutation of the reference points, and holds exactly the points that GGA lines yield |
| GeotagFromNmeaFile.NewGeotagFromNmeaFile | mapillary_tools/geotag/geotag_from_nmea_file.py:13-26 | the constructor forwards the images, the flag and the offset unchanged together with the sorted extracted points, and propagates the extraction's first-raised error |

## Left out

- Opening and reading the log file: the input is the sequence of lines `readlines` returns.
- The NMEA 0183 grammar and checksum, and the attribute reads on the parsed sentence, are foreign code. They appear only as the `rmcDate` and `ggaFix` fields of `Collaborators`.
- `ggaFix` joins the parse of a GGA line with its field reads. In Python, `date` is read between `pynmea2.parse` and the read of `timestamp`, latitude, longitude and altitude. So a GGA line that parses but lacks one of those fields, with `date` unbound, raises the missing-date error, while the model reports `ParseError`.
- `geo.as_unix_time` and `datetime.combine`: floating-point epoch arithmetic that is not part of this model. They appear only as `asUnixTime`, which returns a `real`. Latitude, longitude and altitude are opaque `real` values carried unchanged.
- Geo.SortByTime: sorts by time only, because the ordering of `geo.Point` is not part of this model. Points with equal times end up in an unspecified order. The model captures neither stability nor a comparison of the other fields on ties, nor the error such a comparison could raise.
- `GeotagFromGPX`, the superclass, is not part of this model. The constructor's result is the tuple of values it forwards. Default values of `use_gpx_start_time` and `offset_time` are not modelled. Image paths are strings.
- The container transform (`transform_mp4`, `camm_sample_generator`) is not part of this model. `tests/cli/simple_mp4_builder.py` only parses arguments and copies the transform's output in 64 MiB chunks.
