/** The text content `export_kml` writes for each zone: the placemark's name
    and description, its line and fill colours (`random_kml_color`, with the
    random channels as parameters), and the `<coordinates>` text of its ring.
    The XML elements around these texts are not modelled. */
module KmlExport {
  import opened Zones
  import opened Text
  import opened KmlImport

  // ---------------------------------------------------------------------
  // Colours

  /** Six lower-case hex digits. */
  predicate IsHex6(s: string) {
    |s| == 6 && forall i :: 0 <= i < 6 ==> IsLowerHexDigit(s[i])
  }

  /** Reads KML's blue-green-red channel order back as (r, g, b). */
  function DecodeBgr(s: string): (int, int, int)
    requires IsHex6(s)
  {
    (HexByte(s[4..6]), HexByte(s[2..4]), HexByte(s[0..2]))
  }

  /** `random_kml_color(fill_alpha, line_alpha)` with the three random channels
      given: the fill and line colours share the channel digits, written in
      KML's blue-green-red order after each alpha prefix. */
  function RandomKmlColor(fillAlpha: string, lineAlpha: string, r: Byte, g: Byte, b: Byte)
    : (colours: (string, string))
    ensures |colours.0| == |fillAlpha| + 6 && colours.0[..|fillAlpha|] == fillAlpha
    ensures |colours.1| == |lineAlpha| + 6 && colours.1[..|lineAlpha|] == lineAlpha
    ensures colours.0[|fillAlpha|..] == colours.1[|lineAlpha|..]
    ensures IsHex6(colours.0[|fillAlpha|..]) && DecodeBgr(colours.0[|fillAlpha|..]) == (r, g, b)
  {
    var bgr := Hex2(b) + Hex2(g) + Hex2(r);
    assert bgr[0..2] == Hex2(b) && bgr[2..4] == Hex2(g) && bgr[4..6] == Hex2(r);
    var fill := fillAlpha + bgr;
    var line := lineAlpha + bgr;
    assert fill[|fillAlpha|..] == bgr && line[|lineAlpha|..] == bgr;
    (fill, line)
  }

  /** With the slider's alpha written as `f"{alpha:02x}"` (line 298) and the
      line alpha "FF" (line 145), both colours are eight characters long, the
      fill colour's first two digits read back as the alpha, and the last six
      characters agree. */
  lemma ExportColours(alpha: Byte, r: Byte, g: Byte, b: Byte)
    ensures var colours := RandomKmlColor(Hex2(alpha), "FF", r, g, b);
      && |colours.0| == 8 && |colours.1| == 8
      && IsLowerHexDigit(colours.0[0]) && IsLowerHexDigit(colours.0[1])
      && HexByte(colours.0[..2]) == alpha
      && colours.1[..2] == "FF"
      && colours.0[2..] == colours.1[2..]
  {
  }

  /** The slider's default 85 is written as "55", the default fill alpha of
      `random_kml_color`. */
  lemma SliderDefault()
    ensures Hex2(85) == "55"
  {
  }

  // ---------------------------------------------------------------------
  // Name and description

  const NamePrefix: string := "Polygon "

  /** `f"Polygon {row['polygon_id']}"`: the prefix followed by the id's decimal
      digits, which read back as the id. */
  function PlacemarkName(id: nat): (name: string)
    ensures |name| > |NamePrefix| && name[..|NamePrefix|] == NamePrefix
    ensures forall i :: |NamePrefix| <= i < |name| ==> IsDigit(name[i])
    ensures DecimalValue(name[|NamePrefix|..]) == id
  {
    DecimalRoundTrip(id);
    var name := NamePrefix + DecimalText(id);
    assert name[|NamePrefix|..] == DecimalText(id);
    name
  }

  /** Placemarks of different zones have different names. */
  lemma NamesDistinct(a: nat, b: nat)
    ensures PlacemarkName(a) == PlacemarkName(b) <==> a == b
  {
    if PlacemarkName(a) == PlacemarkName(b) {
      assert PlacemarkName(a)[|NamePrefix|..] == PlacemarkName(b)[|NamePrefix|..];
    }
  }

  /** `f"Square: {square} | Sign: {sign}"`. */
  function PlacemarkDescription(square: string, sign: string): string {
    "Square: " + square + " | Sign: " + sign
  }

  /** The first '|' of a description follows the square number and a space. */
  lemma FirstBar(square: string, sign: string)
    requires '|' !in square
    ensures var d := PlacemarkDescription(square, sign);
      && d[9 + |square|] == '|'
      && forall k :: 0 <= k < 9 + |square| ==> d[k] != '|'
  {
    var d := PlacemarkDescription(square, sign);
    forall k | 8 <= k < 8 + |square| ensures d[k] != '|' {
      assert d[k] == square[k - 8];
    }
  }

  /** The description identifies the square and sign numbers as long as the
      square number holds no '|'. */
  lemma DescriptionInjective(sq1: string, sg1: string, sq2: string, sg2: string)
    requires '|' !in sq1 && '|' !in sq2
    ensures PlacemarkDescription(sq1, sg1) == PlacemarkDescription(sq2, sg2) <==>
      sq1 == sq2 && sg1 == sg2
  {
    var d1, d2 := PlacemarkDescription(sq1, sg1), PlacemarkDescription(sq2, sg2);
    if d1 == d2 {
      FirstBar(sq1, sg1);
      FirstBar(sq2, sg2);
      assert |sq1| == |sq2|;
      assert sq1 == d1[8..8 + |sq1|];
      assert sq2 == d2[8..8 + |sq2|];
      assert sg1 == d1[8 + |sq1| + 9..];
      assert sg2 == d2[8 + |sq2| + 9..];
    }
  }

  /** Without that condition the description is ambiguous: two different
      (square, sign) pairs give the same text. */
  lemma DescriptionAmbiguous()
    ensures PlacemarkDescription("a | Sign: b", "c") == PlacemarkDescription("a", "b | Sign: c")
  {
  }

  // ---------------------------------------------------------------------
  // Coordinates

  /** `f"{lon},{lat},0"`: one vertex, altitude 0. */
  function VertexText(c: LonLat): string {
    c.lon + "," + c.lat + ",0"
  }

  /** The `coord_text` join of lines 173-176: the vertices' texts separated by
      single spaces. */
  function CoordinateText(cs: seq<LonLat>): string {
    JoinSpace(seq(|cs|, i requires 0 <= i < |cs| => VertexText(cs[i])))
  }

  /** The text of a number: non-empty, without commas or whitespace. */
  predicate IsNumberText(t: string) {
    IsWord(t) && ',' !in t
  }

  predicate WellWritten(cs: seq<LonLat>) {
    forall i :: 0 <= i < |cs| ==> IsNumberText(cs[i].lon) && IsNumberText(cs[i].lat)
  }

  /** A vertex's text splits on commas into longitude, latitude and "0". */
  lemma VertexTextFields(c: LonLat)
    requires IsNumberText(c.lon) && IsNumberText(c.lat)
    ensures IsWord(VertexText(c))
    ensures Split(VertexText(c), ',') == [c.lon, c.lat, "0"]
  {
    var t := VertexText(c);
    assert t == c.lon + [','] + (c.lat + [','] + "0");
    SplitAfterPiece(c.lon, ',', c.lat + [','] + "0");
    SplitAfterPiece(c.lat, ',', "0");
    SplitNoSeparator("0", ',');
    forall i | 0 <= i < |t| ensures !IsSpace(t[i]) {
      if i < |c.lon| {
        assert t[i] == c.lon[i];
      } else if |c.lon| < i < |c.lon| + 1 + |c.lat| {
        assert t[i] == c.lat[i - |c.lon| - 1];
      }
    }
  }

  /** Round trip: reading the written coordinate text with the import's token
      loop gives back the same (lon, lat) sequence. */
  lemma CoordinateTextRoundTrip(cs: seq<LonLat>)
    requires WellWritten(cs)
    ensures Vertices(CoordinateText(cs)) == Ok(cs)
  {
    var tokens := seq(|cs|, i requires 0 <= i < |cs| => VertexText(cs[i]));
    forall i | 0 <= i < |cs|
      ensures IsWord(tokens[i]) && Split(tokens[i], ',') == [cs[i].lon, cs[i].lat, "0"]
    {
      VertexTextFields(cs[i]);
    }
    WordsJoinSpace(tokens);
    assert Vertices(CoordinateText(cs)) == TokenVertices(tokens);
    TokenVerticesMeaning(tokens);
    assert forall i :: 0 <= i < |tokens| ==> ',' in tokens[i];
    var vs := TokenVertices(tokens).value;
    forall i | 0 <= i < |cs| ensures vs[i] == cs[i] {
      assert Split(tokens[i], ',')[0] == cs[i].lon;
    }
    assert vs == cs;
  }

  // ---------------------------------------------------------------------
  // Placemarks

  /** The three random channels drawn for one zone. */
  datatype Rgb = Rgb(r: Byte, g: Byte, b: Byte)

  /** The texts of one exported `<Placemark>`. */
  datatype PlacemarkText = PlacemarkText(
    name: string,
    description: string,
    lineColor: string,
    lineWidth: string,
    fillColor: string,
    coordinates: string)

  /** The placemark written for one zone row. */
  function PlacemarkFor(row: ZoneRecord, fillAlpha: string, c: Rgb): PlacemarkText {
    var colours := RandomKmlColor(fillAlpha, "FF", c.r, c.g, c.b);
    PlacemarkText(
      PlacemarkName(row.polygonId),
      PlacemarkDescription(row.squareNumber, row.signNumber),
      colours.1, "2", colours.0,
      CoordinateText(row.coordinates))
  }

  /** `export_kml(df, fill_alpha)`: one placemark per zone row, in row order;
      `colours[i]` is what `random.randint` drew for row `i`. */
  function ExportPlacemarks(rows: seq<ZoneRecord>, fillAlpha: string, colours: seq<Rgb>)
    : seq<PlacemarkText>
    requires |colours| == |rows|
  {
    seq(|rows|, i requires 0 <= i < |rows| => PlacemarkFor(rows[i], fillAlpha, colours[i]))
  }

  /** What the exported document says about each zone: placemark `i` is named
      after row `i`'s id, describes its numbers, colours it with the drawn
      channels, and its coordinate text reads back as the row's vertices. */
  lemma {:induction false} ExportMeaning(rows: seq<ZoneRecord>, fillAlpha: string, colours: seq<Rgb>, i: nat)
    requires |colours| == |rows| && i < |rows|
    ensures |ExportPlacemarks(rows, fillAlpha, colours)| == |rows|
    ensures var p := ExportPlacemarks(rows, fillAlpha, colours)[i];
      && p.name == PlacemarkName(rows[i].polygonId)
      && DecimalValue(p.name[|NamePrefix|..]) == rows[i].polygonId
      && p.description == PlacemarkDescription(rows[i].squareNumber, rows[i].signNumber)
      && p.fillColor[..|fillAlpha|] == fillAlpha && p.lineColor[..2] == "FF"
      && DecodeBgr(p.fillColor[|fillAlpha|..]) == (colours[i].r, colours[i].g, colours[i].b)
      && p.fillColor[|fillAlpha|..] == p.lineColor[2..]
      && (WellWritten(rows[i].coordinates) ==> Vertices(p.coordinates) == Ok(rows[i].coordinates))
  {
    if WellWritten(rows[i].coordinates) {
      CoordinateTextRoundTrip(rows[i].coordinates);
    }
  }

  /** Exporting the records of a loaded document gives placemarks named
      "Polygon 1", "Polygon 2", ... in order, so no two share a name. */
  lemma ExportAfterImport(pms: seq<Placemark>, fillAlpha: string, colours: seq<Rgb>)
    requires Records(pms).Ok? && |colours| == |Records(pms).value|
    ensures var out := ExportPlacemarks(Records(pms).value, fillAlpha, colours);
      && |out| == PolygonCount(pms)
      && (forall i :: 0 <= i < |out| ==> out[i].name == PlacemarkName(i + 1))
      && (forall i, j :: 0 <= i < j < |out| ==> out[i].name != out[j].name)
  {
    RecordsNumbering(pms);
    var out := ExportPlacemarks(Records(pms).value, fillAlpha, colours);
    forall i, j | 0 <= i < j < |out| ensures out[i].name != out[j].name {
      NamesDistinct(i + 1, j + 1);
    }
  }
}
