/** The deterministic part of `parse_kmz_or_kml`: reading the square and sign
    numbers out of a placemark's description table, reading a `<coordinates>`
    text into (lon, lat) pairs, and numbering the polygons of the document. */
module KmlImport {
  import opened Zones
  import opened Text

  /** Table label of the square number ("square number"). */
  const SquareLabel: string := "رقم المربع"
  /** Table label of the sign number ("sign number"). */
  const SignLabel: string := "رقم الشاخص"

  predicate IsLabel(s: string) { s == SquareLabel || s == SignLabel }

  /** The square and sign numbers of one placemark. */
  datatype Metadata = Metadata(square: string, sign: string)

  /** One `<Placemark>`: the stripped texts of its description's `<td>` cells
      and the `<coordinates>` text of each of its `<Polygon>`s, in document order. */
  datatype Placemark = Placemark(cells: seq<string>, polygons: seq<string>)

  // ---------------------------------------------------------------------
  // Description table

  /** Position of the last occurrence of `x` in `s`. */
  function LastIndex(s: seq<string>, x: string): (r: Option<nat>)
    ensures r.Some? ==> r.value < |s| && s[r.value] == x
    ensures r.Some? ==> forall k :: r.value < k < |s| ==> s[k] != x
    ensures r.None? ==> forall k :: 0 <= k < |s| ==> s[k] != x
  {
    if |s| == 0 then None
    else if s[|s| - 1] == x then Some(|s| - 1)
    else LastIndex(s[..|s| - 1], x)
  }

  /** The cell right after the last `key` cell, or "" when there is none. */
  function ValueAfter(cells: seq<string>, key: string): string
    requires |cells| == 0 || cells[|cells| - 1] != key
  {
    match LastIndex(cells, key)
    case None => ""
    case Some(j) => cells[j + 1]
  }

  /** What the scan of lines 60-69 leaves in `square` and `sign`: each label's
      value is the cell after its last occurrence, and a label in the final
      cell makes `tds[i + 1]` raise. */
  function DescriptionFields(cells: seq<string>): Result<Metadata> {
    if |cells| > 0 && IsLabel(cells[|cells| - 1]) then Err(IndexOutOfRange)
    else Ok(Metadata(ValueAfter(cells, SquareLabel), ValueAfter(cells, SignLabel)))
  }

  /** `v` is what the scan has left for `key` after the first `i` cells. */
  ghost predicate Scanned(cells: seq<string>, i: nat, key: string, v: string)
    requires i <= |cells|
  {
    match LastIndex(cells[..i], key)
    case None => v == ""
    case Some(j) => j + 1 < |cells| && v == cells[j + 1]
  }

  /** One more cell: a `key` cell that has a successor sets the value to that
      successor, any other cell keeps it. */
  lemma ScanStep(cells: seq<string>, i: nat, key: string, v: string)
    requires i < |cells| && Scanned(cells, i, key, v)
    ensures cells[i] == key && i + 1 < |cells| ==> Scanned(cells, i + 1, key, cells[i + 1])
    ensures cells[i] != key ==> Scanned(cells, i + 1, key, v)
  {
    assert cells[..i + 1][..i] == cells[..i];
  }

  /** The loop of lines 60-69: walks the cells, overwriting `square` and `sign`
      with the cell after each label. */
  method ScanDescription(cells: seq<string>) returns (r: Result<Metadata>)
    ensures r == DescriptionFields(cells)
  {
    var square, sign := "", "";
    var i := 0;
    while i < |cells|
      invariant 0 <= i <= |cells|
      invariant Scanned(cells, i, SquareLabel, square)
      invariant Scanned(cells, i, SignLabel, sign)
    {
      ScanStep(cells, i, SquareLabel, square);
      ScanStep(cells, i, SignLabel, sign);
      if cells[i] == SquareLabel {
        if i + 1 >= |cells| {
          return Err(IndexOutOfRange);
        }
        square := cells[i + 1];
      }
      if cells[i] == SignLabel {
        if i + 1 >= |cells| {
          return Err(IndexOutOfRange);
        }
        sign := cells[i + 1];
      }
      i := i + 1;
    }
    assert cells[..i] == cells;
    r := Ok(Metadata(square, sign));
  }

  /** The scan fails exactly when the last cell is a label; a label that never
      occurs leaves its field "". */
  lemma DescriptionFieldsMeaning(cells: seq<string>, key: string)
    requires key == SquareLabel || key == SignLabel
    ensures DescriptionFields(cells).Err? <==> |cells| > 0 && IsLabel(cells[|cells| - 1])
    ensures DescriptionFields(cells).Ok? && (forall k :: 0 <= k < |cells| ==> cells[k] != key) ==>
      Field(DescriptionFields(cells).value, key) == ""
  {
  }

  /** Last wins: a label's field is the cell right after its last occurrence. */
  lemma LastLabelWins(cells: seq<string>, key: string, j: nat)
    requires key == SquareLabel || key == SignLabel
    requires DescriptionFields(cells).Ok?
    requires j < |cells| && cells[j] == key
    requires forall k :: j < k < |cells| ==> cells[k] != key
    ensures j + 1 < |cells| && Field(DescriptionFields(cells).value, key) == cells[j + 1]
  {
  }

  /** The field a label names. */
  function Field(m: Metadata, key: string): string {
    if key == SquareLabel then m.square else m.sign
  }

  /** An empty description (no cells at all) leaves both numbers "". */
  lemma EmptyDescription()
    ensures DescriptionFields([]) == Ok(Metadata("", ""))
  {
  }

  // ---------------------------------------------------------------------
  // Coordinates

  /** `lon, lat, *_ = c.split(",")`: the first two comma fields of a token. */
  function Vertex(token: string): (r: Result<LonLat>)
    ensures r.Err? <==> ',' !in token
    ensures r.Err? ==> r.error == NotEnoughValues
  {
    var fields := Split(token, ',');
    if |fields| < 2 then Err(NotEnoughValues) else Ok(LonLat(fields[0], fields[1]))
  }

  /** The vertices a list of tokens yields, one per token, in order; the
      first token that cannot be unpacked stops the reading. */
  function TokenVertices(tokens: seq<string>): Result<seq<LonLat>> {
    if |tokens| == 0 then Ok([])
    else match TokenVertices(tokens[..|tokens| - 1])
      case Err(e) => Err(e)
      case Ok(prev) =>
        match Vertex(tokens[|tokens| - 1])
        case Err(e) => Err(e)
        case Ok(v) => Ok(prev + [v])
  }

  /** The vertices a `<coordinates>` text yields. */
  function Vertices(text: string): Result<seq<LonLat>> {
    TokenVertices(Words(text))
  }

  /** Once a prefix of the tokens fails, the whole text fails the same way. */
  lemma {:induction false} TokenVerticesErr(tokens: seq<string>, i: nat)
    requires i <= |tokens| && TokenVertices(tokens[..i]).Err?
    ensures TokenVertices(tokens) == TokenVertices(tokens[..i])
    decreases |tokens|
  {
    if i < |tokens| {
      var init := tokens[..|tokens| - 1];
      assert init[..i] == tokens[..i];
      TokenVerticesErr(init, i);
    } else {
      assert tokens[..i] == tokens;
    }
  }

  /** The loop of lines 72-77, appending one pair per token. */
  method ParseCoordinates(text: string) returns (r: Result<seq<LonLat>>)
    ensures r == Vertices(text)
  {
    var tokens := Words(text);
    var coords: seq<LonLat> := [];
    var i := 0;
    while i < |tokens|
      invariant 0 <= i <= |tokens|
      invariant TokenVertices(tokens[..i]) == Ok(coords)
    {
      assert tokens[..i + 1][..i] == tokens[..i];
      var fields := Split(tokens[i], ',');
      if |fields| < 2 {
        TokenVerticesErr(tokens, i + 1);
        return Err(NotEnoughValues);
      }
      coords := coords + [LonLat(fields[0], fields[1])];
      i := i + 1;
    }
    assert tokens[..i] == tokens;
    r := Ok(coords);
  }

  /** Reading fails exactly when some token has no comma; otherwise there is
      one vertex per token, in order, whose longitude is the token's first
      comma field and whose latitude is its second (further fields, such as
      the altitude, are dropped). */
  lemma {:induction false} TokenVerticesMeaning(tokens: seq<string>)
    ensures TokenVertices(tokens).Err? <==> exists i :: 0 <= i < |tokens| && ',' !in tokens[i]
    ensures TokenVertices(tokens).Ok? ==>
      |TokenVertices(tokens).value| == |tokens| &&
      forall i :: 0 <= i < |tokens| ==>
        ',' in tokens[i] &&
        TokenVertices(tokens).value[i] == LonLat(Split(tokens[i], ',')[0], Split(tokens[i], ',')[1])
    decreases |tokens|
  {
    if |tokens| > 0 {
      var init := tokens[..|tokens| - 1];
      TokenVerticesMeaning(init);
      assert forall i :: 0 <= i < |init| ==> init[i] == tokens[i];
      var pr := TokenVertices(init);
      if pr.Ok? && Vertex(tokens[|tokens| - 1]).Ok? {
        var vs := TokenVertices(tokens).value;
        assert vs == pr.value + [Vertex(tokens[|tokens| - 1]).value];
        forall i | 0 <= i < |tokens|
          ensures vs[i] == LonLat(Split(tokens[i], ',')[0], Split(tokens[i], ',')[1])
        {
          if i < |init| {
            assert vs[i] == pr.value[i];
          }
        }
      } else if pr.Err? {
        var i :| 0 <= i < |init| && ',' !in init[i];
        assert ',' !in tokens[i];
      }
    }
  }

  // ---------------------------------------------------------------------
  // Records

  /** Records for the polygons of one placemark, numbered from `firstId`. */
  function PolygonRecords(m: Metadata, texts: seq<string>, firstId: nat): Result<seq<ZoneRecord>>
    decreases |texts|
  {
    if |texts| == 0 then Ok([])
    else match PolygonRecords(m, texts[..|texts| - 1], firstId)
      case Err(e) => Err(e)
      case Ok(prev) =>
        match Vertices(texts[|texts| - 1])
        case Err(e) => Err(e)
        case Ok(cs) => Ok(prev + [ZoneRecord(firstId + |prev|, m.square, m.sign, cs)])
  }

  /** The records of a whole document, `polygon_id` counting from 1: the
      records the loop at lines 57-86 builds, or the first error it raises. */
  function Records(pms: seq<Placemark>): Result<seq<ZoneRecord>>
    decreases |pms|
  {
    if |pms| == 0 then Ok([])
    else match Records(pms[..|pms| - 1])
      case Err(e) => Err(e)
      case Ok(prev) =>
        match PlacemarkRecords(pms[|pms| - 1], |prev| + 1)
        case Err(e) => Err(e)
        case Ok(rs) => Ok(prev + rs)
  }

  /** Records for one placemark: its description is scanned first, then its
      polygons are read. */
  function PlacemarkRecords(pm: Placemark, firstId: nat): Result<seq<ZoneRecord>> {
    match DescriptionFields(pm.cells)
    case Err(e) => Err(e)
    case Ok(m) => PolygonRecords(m, pm.polygons, firstId)
  }

  /** Number of polygons in the document. */
  function PolygonCount(pms: seq<Placemark>): nat {
    if |pms| == 0 then 0 else PolygonCount(pms[..|pms| - 1]) + |pms[|pms| - 1].polygons|
  }

  /** Once a prefix of the polygons fails, the whole placemark fails the same way. */
  lemma {:induction false} PolygonRecordsErr(m: Metadata, texts: seq<string>, firstId: nat, j: nat)
    requires j <= |texts| && PolygonRecords(m, texts[..j], firstId).Err?
    ensures PolygonRecords(m, texts, firstId) == PolygonRecords(m, texts[..j], firstId)
    decreases |texts|
  {
    if j < |texts| {
      var init := texts[..|texts| - 1];
      assert init[..j] == texts[..j];
      PolygonRecordsErr(m, init, firstId, j);
    } else {
      assert texts[..j] == texts;
    }
  }

  /** Once a prefix of the document fails, the whole document fails the same way. */
  lemma {:induction false} RecordsErr(pms: seq<Placemark>, k: nat)
    requires k <= |pms| && Records(pms[..k]).Err?
    ensures Records(pms) == Records(pms[..k])
    decreases |pms|
  {
    if k < |pms| {
      var init := pms[..|pms| - 1];
      assert init[..k] == pms[..k];
      RecordsErr(init, k);
    } else {
      assert pms[..k] == pms;
    }
  }

  /** Extending the polygons read so far by one. */
  lemma PolygonRecordsSnoc(m: Metadata, texts: seq<string>, firstId: nat, j: nat, prev: seq<ZoneRecord>)
    requires j < |texts| && PolygonRecords(m, texts[..j], firstId) == Ok(prev)
    ensures Vertices(texts[j]).Err? ==>
      PolygonRecords(m, texts[..j + 1], firstId) == Err(Vertices(texts[j]).error)
    ensures Vertices(texts[j]).Ok? ==>
      PolygonRecords(m, texts[..j + 1], firstId) ==
        Ok(prev + [ZoneRecord(firstId + |prev|, m.square, m.sign, Vertices(texts[j]).value)])
  {
    assert texts[..j + 1][..j] == texts[..j];
  }

  /** Extending the placemarks read so far by one. */
  lemma RecordsSnoc(pms: seq<Placemark>, k: nat)
    requires k < |pms| && Records(pms[..k]).Ok?
    ensures
      var prev := Records(pms[..k]).value;
      match PlacemarkRecords(pms[k], |prev| + 1)
      case Err(e) => Records(pms[..k + 1]) == Err(e)
      case Ok(rs) => Records(pms[..k + 1]) == Ok(prev + rs)
  {
    assert pms[..k + 1][..k] == pms[..k];
  }

  /** A placemark the import accepts: its description scans and each of its
      coordinate texts reads. */
  predicate Readable(pm: Placemark) {
    && DescriptionFields(pm.cells).Ok?
    && forall j :: 0 <= j < |pm.polygons| ==> Vertices(pm.polygons[j]).Ok?
  }

  /** The polygons of one placemark become one record each, in order, numbered
      consecutively from `firstId` and carrying the placemark's numbers. */
  lemma {:induction false} PolygonRecordsMeaning(m: Metadata, texts: seq<string>, firstId: nat)
    ensures PolygonRecords(m, texts, firstId).Ok? <==>
      forall j :: 0 <= j < |texts| ==> Vertices(texts[j]).Ok?
    ensures PolygonRecords(m, texts, firstId).Ok? ==>
      var rs := PolygonRecords(m, texts, firstId).value;
      |rs| == |texts| &&
      forall j :: 0 <= j < |texts| ==>
        rs[j] == ZoneRecord(firstId + j, m.square, m.sign, Vertices(texts[j]).value)
    decreases |texts|
  {
    if |texts| > 0 {
      var init, last := texts[..|texts| - 1], texts[|texts| - 1];
      PolygonRecordsMeaning(m, init, firstId);
      var pr, v := PolygonRecords(m, init, firstId), Vertices(last);
      assert forall j :: 0 <= j < |init| ==> init[j] == texts[j];
      if pr.Ok? && v.Ok? {
        var rs := PolygonRecords(m, texts, firstId).value;
        assert rs == pr.value + [ZoneRecord(firstId + |pr.value|, m.square, m.sign, v.value)];
        forall j | 0 <= j < |texts|
          ensures rs[j] == ZoneRecord(firstId + j, m.square, m.sign, Vertices(texts[j]).value)
        {
          if j < |init| {
            assert rs[j] == pr.value[j];
          }
        }
      } else if pr.Ok? {
        assert !Vertices(texts[|texts| - 1]).Ok?;
      } else {
        assert PolygonRecords(m, texts, firstId).Err?;
      }
    }
  }

  /** A placemark yields records exactly when it is readable. */
  lemma PlacemarkRecordsOk(pm: Placemark, firstId: nat)
    ensures PlacemarkRecords(pm, firstId).Ok? <==> Readable(pm)
  {
    var d := DescriptionFields(pm.cells);
    if d.Ok? {
      PolygonRecordsMeaning(d.value, pm.polygons, firstId);
    }
  }

  /** The loop at lines 57-86 succeeds exactly when every placemark is readable. */
  lemma {:induction false} RecordsOk(pms: seq<Placemark>)
    ensures Records(pms).Ok? <==> AllReadable(pms)
    decreases |pms|
  {
    if |pms| > 0 {
      var init, last := pms[..|pms| - 1], pms[|pms| - 1];
      RecordsOk(init);
      AllReadableSnoc(pms);
      var pr := Records(init);
      if pr.Ok? {
        PlacemarkRecordsOk(last, |pr.value| + 1);
        assert Records(pms).Ok? <==> PlacemarkRecords(last, |pr.value| + 1).Ok?;
      } else {
        assert Records(pms).Err?;
      }
    }
  }

  /** Every placemark of the document is readable. */
  predicate AllReadable(pms: seq<Placemark>) {
    forall k :: 0 <= k < |pms| ==> Readable(pms[k])
  }

  /** A document is all readable when its earlier placemarks are and its last one is. */
  lemma AllReadableSnoc(pms: seq<Placemark>)
    requires |pms| > 0
    ensures AllReadable(pms) <==> AllReadable(pms[..|pms| - 1]) && Readable(pms[|pms| - 1])
  {
    var init := pms[..|pms| - 1];
    assert forall k :: 0 <= k < |init| ==> init[k] == pms[k];
  }

  /** One record per polygon, with `polygon_id` exactly 1, 2, ..., n in order. */
  lemma {:induction false} RecordsNumbering(pms: seq<Placemark>)
    requires Records(pms).Ok?
    ensures |Records(pms).value| == PolygonCount(pms)
    ensures forall i :: 0 <= i < |Records(pms).value| ==> Records(pms).value[i].polygonId == i + 1
    decreases |pms|
  {
    if |pms| > 0 {
      var init := pms[..|pms| - 1];
      RecordsNumbering(init);
      var prev := Records(init).value;
      var last := pms[|pms| - 1];
      var m := DescriptionFields(last.cells).value;
      PolygonRecordsMeaning(m, last.polygons, |prev| + 1);
    }
  }

  /** Polygon `j` of placemark `k` becomes the record right after the polygons
      of the earlier placemarks; it carries placemark `k`'s square and sign
      numbers and the vertices of its own coordinate text. */
  lemma {:induction false} RecordsInherit(pms: seq<Placemark>, k: nat, j: nat)
    requires Records(pms).Ok?
    requires k < |pms| && j < |pms[k].polygons|
    ensures PolygonCount(pms[..k]) + j < |Records(pms).value|
    ensures DescriptionFields(pms[k].cells).Ok? && Vertices(pms[k].polygons[j]).Ok?
    ensures Records(pms).value[PolygonCount(pms[..k]) + j] ==
      ZoneRecord(PolygonCount(pms[..k]) + j + 1,
                 DescriptionFields(pms[k].cells).value.square,
                 DescriptionFields(pms[k].cells).value.sign,
                 Vertices(pms[k].polygons[j]).value)
    decreases |pms|
  {
    var init := pms[..|pms| - 1];
    if k < |init| {
      RecordsLast(pms);
      assert init[..k] == pms[..k];
      assert init[k] == pms[k];
      RecordsInherit(init, k, j);
      var prev := Records(init).value;
      assert Records(pms).value[..|prev|] == prev;
    } else {
      assert pms[..k] == init;
      RecordsInheritLast(pms, j);
    }
  }

  /** `RecordsInherit` for the last placemark of the document. */
  lemma RecordsInheritLast(pms: seq<Placemark>, j: nat)
    requires |pms| > 0 && Records(pms).Ok? && j < |pms[|pms| - 1].polygons|
    ensures PolygonCount(pms[..|pms| - 1]) + j < |Records(pms).value|
    ensures DescriptionFields(pms[|pms| - 1].cells).Ok? && Vertices(pms[|pms| - 1].polygons[j]).Ok?
    ensures Records(pms).value[PolygonCount(pms[..|pms| - 1]) + j] ==
      ZoneRecord(PolygonCount(pms[..|pms| - 1]) + j + 1,
                 DescriptionFields(pms[|pms| - 1].cells).value.square,
                 DescriptionFields(pms[|pms| - 1].cells).value.sign,
                 Vertices(pms[|pms| - 1].polygons[j]).value)
  {
    var init, last := pms[..|pms| - 1], pms[|pms| - 1];
    RecordsLast(pms);
    RecordsNumbering(init);
    var prev := Records(init).value;
    var m := DescriptionFields(last.cells).value;
    PolygonRecordAt(m, last.polygons, |prev| + 1, j);
    var own := PolygonRecords(m, last.polygons, |prev| + 1).value;
    var rs := Records(pms).value;
    assert rs == prev + own;
    assert rs[|prev| + j] == own[j];
  }

  /** Record `j` of one placemark, from `PolygonRecordsMeaning`. */
  lemma PolygonRecordAt(m: Metadata, texts: seq<string>, firstId: nat, j: nat)
    requires PolygonRecords(m, texts, firstId).Ok? && j < |texts|
    ensures Vertices(texts[j]).Ok?
    ensures j < |PolygonRecords(m, texts, firstId).value|
    ensures PolygonRecords(m, texts, firstId).value[j] ==
      ZoneRecord(firstId + j, m.square, m.sign, Vertices(texts[j]).value)
  {
    PolygonRecordsMeaning(m, texts, firstId);
  }

  /** A loaded document is the records of all but its last placemark followed
      by those of the last one. */
  lemma RecordsLast(pms: seq<Placemark>)
    requires |pms| > 0 && Records(pms).Ok?
    ensures Records(pms[..|pms| - 1]).Ok?
    ensures DescriptionFields(pms[|pms| - 1].cells).Ok?
    ensures
      var prev := Records(pms[..|pms| - 1]).value;
      var m := DescriptionFields(pms[|pms| - 1].cells).value;
      && PolygonRecords(m, pms[|pms| - 1].polygons, |prev| + 1).Ok?
      && Records(pms).value == prev + PolygonRecords(m, pms[|pms| - 1].polygons, |prev| + 1).value
  {
  }

  /** The inner loop of lines 71-86 for one placemark: parses each polygon's
      coordinates and appends a record numbered by `counter`, starting at
      `firstId`. */
  method ReadPolygons(m: Metadata, texts: seq<string>, firstId: nat)
    returns (r: Result<seq<ZoneRecord>>)
    ensures r == PolygonRecords(m, texts, firstId)
  {
    var records: seq<ZoneRecord> := [];
    var counter := firstId;
    var j := 0;
    assert texts[..0] == [];
    while j < |texts|
      invariant 0 <= j <= |texts|
      invariant PolygonRecords(m, texts[..j], firstId) == Ok(records)
      invariant counter == firstId + |records|
    {
      var coords := ParseCoordinates(texts[j]);
      PolygonRecordsSnoc(m, texts, firstId, j, records);
      if coords.Err? {
        PolygonRecordsErr(m, texts, firstId, j + 1);
        return Err(coords.error);
      }
      var rec := ZoneRecord(counter, m.square, m.sign, coords.value);
      assert rec == ZoneRecord(firstId + |records|, m.square, m.sign, Vertices(texts[j]).value);
      assert PolygonRecords(m, texts[..j + 1], firstId) == Ok(records + [rec]);
      records := records + [rec];
      counter := counter + 1;
      j := j + 1;
    }
    assert texts[..j] == texts;
    r := Ok(records);
  }

  /** The loop of lines 54-86: scans each placemark's description, then reads
      its polygons, numbering records with `counter` from 1 across the whole
      document. */
  method AssembleRecords(pms: seq<Placemark>) returns (r: Result<seq<ZoneRecord>>)
    ensures r == Records(pms)
  {
    var records: seq<ZoneRecord> := [];
    var counter := 1;
    var k := 0;
    while k < |pms|
      invariant 0 <= k <= |pms|
      invariant Records(pms[..k]) == Ok(records)
      invariant counter == |records| + 1
    {
      RecordsSnoc(pms, k);
      var meta := ScanDescription(pms[k].cells);
      if meta.Err? {
        RecordsErr(pms, k + 1);
        return Err(meta.error);
      }
      var added := ReadPolygons(meta.value, pms[k].polygons, counter);
      if added.Err? {
        RecordsErr(pms, k + 1);
        return Err(added.error);
      }
      records := records + added.value;
      counter := counter + |added.value|;
      k := k + 1;
    }
    assert pms[..k] == pms;
    r := Ok(records);
  }
}
