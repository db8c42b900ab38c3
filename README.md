# kmz-zone-app in Dafny

A model of the deterministic core of `app.py`, a Streamlit tool that loads
polygonal zones from a KML/KMZ document, finds the zones that cover a point,
checks a whole sheet of points, and writes the zones back out as KML.

The model has five modules:

- `Text` covers the parts of Python's `str` the app relies on:
  - `str.split()`, modelled as `Words`;
  - `str.split(",")`, modelled as `Split`;
  - `" ".join`, modelled as `JoinSpace`;
  - the `f"{n}"` format, modelled as `DecimalText`;
  - the `f"{n:02x}"` format, modelled as `Hex2`.

  Each comes with a reading-back partner.
- `Zones` holds the values passed around: a zone record, a match, and the two
  errors of the import loop at lines 57-86 that the model keeps. The
  ValueErrors of `float()` at line 77 and of `Polygon()` at line 84 are listed
  under "## Left out".
- `KmlImport` models `parse_kmz_or_kml` once the XML has been parsed:
  - the `<td>` scan that finds the square and sign numbers;
  - the loop that reads a `<coordinates>` text;
  - the numbering of polygons with `polygon_id` = 1, 2, ... across the whole
    document.
- `Lookup` models `find_point`, with the spatial index's candidates and the
  `covers` test as parameters, and the batch loop over a points sheet.
- `KmlExport` models the texts `export_kml` writes for each zone:
  - the name;
  - the description;
  - the line and fill colours of `random_kml_color`, with the random channels
    as parameters;
  - the coordinate text.

  It also proves that the coordinate text reads back through the import's
  coordinate loop.

The loops of the import (lines 57-86, with the description scan and the
coordinate loop inside it), `find_point` and the batch loop over the points
sheet are `method`s. The import loops and `find_point` are proved equal to
recursive specification functions, and the source's promises are proved about
those functions. The batch loop states each output row directly. The export
texts are modelled as functions, since `export_kml` builds each placemark from
its row alone.

Numbers are kept as the text of each number. `float()` is not modelled, so a
vertex is a pair of strings.

Exceptions become `Result` values:
- an `IndexError` from `tds[i + 1]` becomes `Err(IndexOutOfRange)`;
- a `ValueError` from `lon, lat, *_ = c.split(",")` becomes
  `Err(NotEnoughValues)`.

Facts about `app.py` that the model makes visible:
- On import the square and sign numbers come from `<td>` cells of the
  description's HTML table. On export the description is the plain text
  `Square: … | Sign: …` with no table, so a document written by `export_kml`
  loads back with both numbers empty.
- The points sheet must have `id`, `lat` and `lon` columns.
- A point's result holds every covering zone, in the order the spatial
  index's query returns the candidates, not only the first.

## Model

| member | source | states |
|---|---|---|
| KmlImport.LastIndex | app.py:65-69 | the position of the last occurrence of a cell text, or None exactly when it does not occur |
| KmlImport.DescriptionFields | app.py:60-69 | the square and sign numbers the scan leaves, or IndexError; its meaning is stated by `DescriptionFieldsMeaning` and `LastLabelWins`, and `ScanDescription` is proved equal to it |
| KmlImport.Vertex | app.py:76 | unpacking one token fails with ValueError if and only if it has no comma |
| KmlImport.TokenVertices | app.py:75-77 | one vertex per token in order, or the first unpacking error; stated by `TokenVerticesMeaning` and `TokenVerticesErr` |
| KmlImport.Vertices | app.py:72-77 | the vertices of one `<coordinates>` text; stated by `TokenVerticesMeaning` on its words, and `ParseCoordinates` is proved equal to it |
| KmlImport.PolygonRecords | app.py:71-86 | the records of one placemark's polygons; stated by `PolygonRecordsMeaning`, `PolygonRecordsErr` and `PolygonRecordAt` |
| KmlImport.PlacemarkRecords | app.py:57-86 | one placemark: description first, then its polygons; stated by `PlacemarkRecordsOk` |
| KmlImport.Records | app.py:54-86 | the records of the whole loop, or its first error; stated by `RecordsOk`, `RecordsNumbering`, `RecordsInherit` and `RecordsErr` |
| KmlImport.ScanDescription | app.py:60-69 | the `<td>` scan gives the cell after the last square label and the cell after the last sign label ("" when a label is absent), and fails with IndexError exactly as `DescriptionFields` does |
| KmlImport.ScanStep | app.py:65-69 | one step of the scan: a label cell with a successor sets the field to that successor, and any other cell keeps it |
| KmlImport.DescriptionFieldsMeaning | app.py:60-69 | the scan fails exactly when the last cell is a label; a label that never occurs leaves its field "" |
| KmlImport.LastLabelWins | app.py:65-69 | a later occurrence of a label overrides an earlier one: the field is the cell after the last occurrence |
| KmlImport.EmptyDescription | app.py:60-62 | an empty description leaves both numbers "" |
| KmlImport.ParseCoordinates | app.py:72-77 | the coordinate loop gives exactly `Vertices(text)`: one pair per whitespace-separated token, or the first unpacking error |
| KmlImport.TokenVerticesErr | app.py:75-77 | once a token fails to unpack, the whole text fails with that error |
| KmlImport.TokenVerticesMeaning | app.py:75-77 | reading fails if and only if some token has no comma; otherwise vertex i is (first comma field, second comma field) of token i, and the altitude and further fields are dropped |
| KmlImport.ReadPolygons | app.py:71-86 | the polygon loop of one placemark gives exactly `PolygonRecords`: one record per polygon, numbered by the running counter |
| KmlImport.AssembleRecords | app.py:54-86 | the whole import loop gives exactly `Records(pms)`: the records of every placemark in document order, or the first error |
| KmlImport.PolygonRecordsErr | app.py:71-86 | once a polygon of a placemark fails, the placemark fails with that error |
| KmlImport.RecordsErr | app.py:57-86 | once a placemark fails, the document fails with that error |
| KmlImport.PolygonRecordsSnoc | app.py:71-86 | reading one more polygon either fails with its coordinate error or appends a record numbered `firstId + |prev|` |
| KmlImport.RecordsSnoc | app.py:57-86 | reading one more placemark either fails or appends its records numbered from `|prev| + 1` |
| KmlImport.PolygonRecordsMeaning | app.py:71-86 | a placemark's polygons are read if and only if each coordinate text reads; record j then has id `firstId + j`, the placemark's square and sign, and polygon j's vertices |
| KmlImport.PlacemarkRecordsOk | app.py:57-86 | the loop body for one placemark succeeds if and only if its description scans and each of its coordinate texts reads |
| KmlImport.RecordsOk | app.py:57-86 | the loop at lines 57-86 succeeds if and only if every placemark is readable |
| KmlImport.RecordsNumbering | app.py:55-86 | one record per polygon, with `polygon_id` exactly 1, 2, ..., n in order |
| KmlImport.RecordsInherit | app.py:57-86 | polygon j of placemark k is the record at position (polygons before k) + j; it carries placemark k's square and sign numbers and its own vertices |
| KmlImport.RecordsInheritLast | app.py:57-86 | `RecordsInherit` for the last placemark |
| KmlImport.PolygonRecordAt | app.py:71-86 | record j of a placemark is polygon j's record |
| KmlImport.RecordsLast | app.py:57-86 | a loaded document is the records of its earlier placemarks followed by those of its last one |
| Zones.MatchOf | app.py:109-113 | the projection of a kept row to id, square and sign; used by `MatchesMembership` and `MatchesAllCover` |
| Lookup.Matches | app.py:104-114 | the covering candidates' projections in candidate order; stated by `MatchesMembership`, `MatchesAppend`, `MatchesBound` and `MatchesAllCover` |
| Lookup.Location | app.py:268 | the point of an input row is (lon, lat), longitude first; `TestPoints` queries and tests this point |
| Lookup.FindPoint | app.py:102-114 | `find_point` gives exactly `Matches`: each candidate whose polygon covers the point, projected to id, square and sign, in candidate order |
| Lookup.MatchesAppend | app.py:104-114 | order is kept: the matches of two candidate lists in a row are the matches of the first followed by those of the second |
| Lookup.MatchesBound | app.py:104-114 | no more results than candidates; no candidates gives no results |
| Lookup.MatchesMembership | app.py:104-114 | an entry is in the result if and only if it projects some candidate row whose polygon covers the point |
| Lookup.MatchesAllCover | app.py:104-114 | when every candidate covers the point, result i is candidate i's projection |
| Lookup.TestPoints | app.py:264-276 | one output row per input row, in order, with the input's id, lat and lon; its result is that point's matches, and `zones_count` is their number (at most the number of candidates) |
| Text.Words | app.py:75 | `str.split()`; stated by `WordsAreWords` and `WordsJoinSpace` |
| Text.JoinSpace | app.py:173 | `" ".join` is `JoinWith` with a space; `WordsJoinSpace` shows `str.split()` undoes it |
| Text.Split | app.py:76 | `str.split(sep)` gives at least one piece, at least two exactly when the separator occurs, and no piece contains the separator |
| Text.JoinSplit | app.py:76 | joining the pieces of `split(sep)` with `sep` gives the text back |
| Text.SplitAfterPiece | app.py:76 | a separator-free piece followed by the separator splits off as the first piece |
| Text.SplitNoSeparator | app.py:76 | text without the separator is a single piece |
| Text.SkipSpacesMeaning | app.py:75 | `str.split()` skips only whitespace and stops at the first non-space |
| Text.WordPrefixMeaning | app.py:75 | a word of `str.split()` is the longest whitespace-free prefix |
| Text.WordsAreWords | app.py:75 | every piece of `str.split()` is non-empty and free of whitespace |
| Text.WordPrefixOf | app.py:75 | a whitespace-free text followed by whitespace or the end is read as one prefix |
| Text.WordsAfterWord | app.py:75 | a word followed by whitespace or the end of the text is read whole |
| Text.WordsAfterSpace | app.py:75 | a leading whitespace character (any of Python's `isspace` set) does not change the words |
| Text.WordsJoinSpace | app.py:173-176 | `str.split()` undoes `" ".join` on words |
| Text.DigitChar | app.py:132 | a digit character reads back as its value |
| Text.DecimalText | app.py:132 | `f"{n}"` is a non-empty run of decimal digits without a leading zero |
| Text.DecimalRoundTrip | app.py:132 | reading back `f"{n}"` gives n |
| Text.DecimalInjective | app.py:132 | `f"{m}"` equals `f"{n}"` if and only if m equals n |
| Text.HexChar | app.py:37-38 | a lower-case hex digit reads back as its value |
| Text.Hex2 | app.py:37-38 | `f"{n:02x}"` is exactly two lower-case hex digits that read back as n |
| KmlExport.RandomKmlColor | app.py:33-39 | each colour is its alpha prefix followed by six hex digits; fill and line share those six digits, and they read back as blue, green, red in that order |
| KmlExport.ExportColours | app.py:145 | with alpha `f"{alpha:02x}"` and line alpha "FF", both colours are 8 characters long, the fill's first two digits read back as alpha, and the last six agree |
| KmlExport.SliderDefault | app.py:293-298 | the slider's default 85 is written as "55", the default fill alpha |
| KmlExport.PlacemarkName | app.py:132 | the name is "Polygon " followed by decimal digits that read back as the id |
| KmlExport.NamesDistinct | app.py:132 | two names are equal if and only if their ids are |
| KmlExport.FirstBar | app.py:139 | in a description whose square number has no '\|', the first '\|' comes right after the square number and a space |
| KmlExport.DescriptionInjective | app.py:139 | when square numbers hold no '\|', two descriptions are equal if and only if their square and sign numbers are |
| KmlExport.DescriptionAmbiguous | app.py:139 | without that condition two different (square, sign) pairs give the same description |
| KmlExport.PlacemarkDescription | app.py:139 | the description text; `DescriptionInjective` and `DescriptionAmbiguous` state when it determines the square and sign numbers |
| KmlExport.VertexText | app.py:174 | one vertex written as `lon,lat,0`; `VertexTextFields` shows it reads back as (lon, lat) |
| KmlExport.CoordinateText | app.py:173-176 | the vertex texts joined by single spaces; `CoordinateTextRoundTrip` shows the import reads it back as the same vertices |
| KmlExport.PlacemarkFor | app.py:127-164 | the texts of the placemark written for one row; stated by `ExportMeaning` |
| KmlExport.ExportPlacemarks | app.py:127-184 | one placemark per row, in row order; stated by `ExportMeaning` and `ExportAfterImport` |
| KmlExport.VertexTextFields | app.py:174 | `"lon,lat,0"` is one word that splits on commas into lon, lat and "0" |
| KmlExport.CoordinateTextRoundTrip | app.py:173-176 | reading the written coordinate text with the import's loop (lines 75-77) gives back the same vertices |
| KmlExport.ExportMeaning | app.py:127-184 | placemark i is written for row i: its name is `Polygon {id}` for row i's id, whose digits read back as that id; its description holds row i's numbers, its colours carry the fill alpha, "FF" and the drawn channels, and, when every number of the row is a non-empty text without commas or whitespace, its coordinates read back as row i's vertices |
| KmlExport.ExportAfterImport | app.py:127-132 | exporting the records of a loaded document gives one placemark per polygon, named "Polygon 1", "Polygon 2", ... in order, so no two share a name |

## Left out

- ZIP extraction, XML parsing of the document and HTML parsing of the description are external. A placemark is given as its `<td>` cell texts (already stripped) and its `<coordinates>` texts.
- KmlImport.ParseCoordinates: the source applies `.strip()` to the `<coordinates>` text before splitting. `str.split()` ignores leading and trailing whitespace anyway, so this is not modelled separately.
- KmlImport.Records: `Records` models the loop at lines 57-86 only. Two failures in and after the loop are not modelled, and the model returns `Ok` in both cases. `Polygon(coords)` (line 84) raises ValueError for a ring with fewer than 4 coordinates after closing, for example one with 1 or 2 vertices. `df["polygon"]` (lines 88-89) raises KeyError when the document holds no polygon at all.
- `float()`: numbers stay text. A field that `float()` would reject (empty, or not a number) is accepted by the model.
- shapely's `Polygon`, its `covers` test and the `STRtree` index are library code. `covers` and `query` are function parameters, and each candidate is a row position in the table.
- KmlExport.CoordinateText: writes the record's own vertices, not the closed exterior ring shapely produces (which repeats the first vertex when the ring is open), and not Python's `repr` of each float.
- KmlExport.ExportPlacemarks: the output is the texts of each `<Placemark>`. The minidom element tree and `toprettyxml` layout are not modelled.
- `random.randint`: the three channels of each zone are a parameter (`Rgb`), one per row.
- The Streamlit interface, pandas DataFrames, Excel reading and writing, and `json.dumps` are not modelled. A result row keeps its matches as a sequence rather than as JSON text.
- `load_polygons_from_excel` is not part of this model: it is `json.loads` plus shapely.
- The single-point input at lines 253-258 (`map(float, coord_text.split(","))`) is not part of this model.
- The commented-out code after line 302 is not part of this model.
