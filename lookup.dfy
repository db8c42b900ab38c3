/** `find_point` and the batch loop over a points sheet. The spatial index
    (`STRtree.query`) and the exact test (`Polygon.covers`) are library code:
    here the index's candidates are a given list of row positions, and
    `covers(coordinates, point)` stands for "the polygon built from these
    coordinates covers this point". */
module Lookup {
  import opened Zones

  /** All candidates name a row of the table (the index is built from it). */
  predicate InTable(rows: seq<ZoneRecord>, candidates: seq<nat>) {
    forall i :: 0 <= i < |candidates| ==> candidates[i] < |rows|
  }

  /** The result of `find_point`: each candidate whose polygon covers the
      point, projected to its id, square and sign, in candidate order. */
  function Matches(rows: seq<ZoneRecord>, candidates: seq<nat>,
                   covers: (seq<LonLat>, LonLat) -> bool, point: LonLat): seq<Match>
    requires InTable(rows, candidates)
    decreases |candidates|
  {
    if |candidates| == 0 then []
    else
      var last := rows[candidates[|candidates| - 1]];
      Matches(rows, candidates[..|candidates| - 1], covers, point) +
        (if covers(last.coordinates, point) then [MatchOf(last)] else [])
  }

  /** The loop of lines 104-114. */
  method FindPoint(point: LonLat, rows: seq<ZoneRecord>, candidates: seq<nat>,
                   covers: (seq<LonLat>, LonLat) -> bool)
    returns (results: seq<Match>)
    requires InTable(rows, candidates)
    ensures results == Matches(rows, candidates, covers, point)
  {
    results := [];
    var i := 0;
    while i < |candidates|
      invariant 0 <= i <= |candidates|
      invariant results == Matches(rows, candidates[..i], covers, point)
    {
      assert candidates[..i + 1][..i] == candidates[..i];
      var row := rows[candidates[i]];
      if covers(row.coordinates, point) {
        results := results + [Match(row.polygonId, row.squareNumber, row.signNumber)];
      }
      i := i + 1;
    }
    assert candidates[..i] == candidates;
  }

  /** Order preservation: the matches of two candidate lists in a row are the
      matches of the first followed by those of the second. */
  lemma {:induction false} MatchesAppend(rows: seq<ZoneRecord>, c1: seq<nat>, c2: seq<nat>,
                                         covers: (seq<LonLat>, LonLat) -> bool, point: LonLat)
    requires InTable(rows, c1) && InTable(rows, c2)
    ensures InTable(rows, c1 + c2)
    ensures Matches(rows, c1 + c2, covers, point) ==
      Matches(rows, c1, covers, point) + Matches(rows, c2, covers, point)
    decreases |c2|
  {
    if |c2| > 0 {
      var init := c2[..|c2| - 1];
      assert (c1 + c2)[..|c1 + c2| - 1] == c1 + init;
      MatchesAppend(rows, c1, init, covers, point);
    } else {
      assert c1 + c2 == c1;
    }
  }

  /** No more results than candidates; none at all without candidates. */
  lemma {:induction false} MatchesBound(rows: seq<ZoneRecord>, candidates: seq<nat>,
                                        covers: (seq<LonLat>, LonLat) -> bool, point: LonLat)
    requires InTable(rows, candidates)
    ensures |Matches(rows, candidates, covers, point)| <= |candidates|
    ensures |candidates| == 0 ==> Matches(rows, candidates, covers, point) == []
    decreases |candidates|
  {
    if |candidates| > 0 {
      MatchesBound(rows, candidates[..|candidates| - 1], covers, point);
    }
  }

  /** An entry is in the result exactly when it is the projection of some
      candidate row whose polygon covers the point. */
  lemma {:induction false} MatchesMembership(rows: seq<ZoneRecord>, candidates: seq<nat>,
                                             covers: (seq<LonLat>, LonLat) -> bool,
                                             point: LonLat, m: Match)
    requires InTable(rows, candidates)
    ensures m in Matches(rows, candidates, covers, point) <==>
      exists i :: 0 <= i < |candidates| &&
        covers(rows[candidates[i]].coordinates, point) && m == MatchOf(rows[candidates[i]])
    decreases |candidates|
  {
    if |candidates| > 0 {
      var init := candidates[..|candidates| - 1];
      MatchesMembership(rows, init, covers, point, m);
      assert forall i :: 0 <= i < |init| ==> init[i] == candidates[i];
      var n := |candidates| - 1;
      if m in Matches(rows, candidates, covers, point) && m !in Matches(rows, init, covers, point) {
        assert covers(rows[candidates[n]].coordinates, point) && m == MatchOf(rows[candidates[n]]);
      }
    }
  }

  /** When every candidate covers the point, the result projects every
      candidate, in order. */
  lemma {:induction false} MatchesAllCover(rows: seq<ZoneRecord>, candidates: seq<nat>,
                                           covers: (seq<LonLat>, LonLat) -> bool, point: LonLat)
    requires InTable(rows, candidates)
    requires forall i :: 0 <= i < |candidates| ==> covers(rows[candidates[i]].coordinates, point)
    ensures |Matches(rows, candidates, covers, point)| == |candidates|
    ensures forall i :: 0 <= i < |candidates| ==>
      Matches(rows, candidates, covers, point)[i] == MatchOf(rows[candidates[i]])
    decreases |candidates|
  {
    if |candidates| > 0 {
      var init := candidates[..|candidates| - 1];
      MatchesAllCover(rows, init, covers, point);
    }
  }

  /** One input row of the points sheet: `id`, `lat`, `lon`. */
  datatype PointRow = PointRow(id: string, lat: string, lon: string)

  /** One output row: the input's `id`, `lat`, `lon`, `zones_count` and the
      matches that `result` holds as JSON. */
  datatype ResultRow = ResultRow(id: string, lat: string, lon: string,
                                 zonesCount: nat, result: seq<Match>)

  /** `Point(r["lon"], r["lat"])`. */
  function Location(p: PointRow): LonLat {
    LonLat(p.lon, p.lat)
  }

  /** The loop of lines 265-276: one output row per input row, in input order,
      each with the matches `find_point` returns for that row's point. */
  method TestPoints(points: seq<PointRow>, rows: seq<ZoneRecord>,
                    query: LonLat -> seq<nat>, covers: (seq<LonLat>, LonLat) -> bool)
    returns (results: seq<ResultRow>)
    requires forall i :: 0 <= i < |points| ==> InTable(rows, query(Location(points[i])))
    ensures |results| == |points|
    ensures forall i :: 0 <= i < |points| ==>
      var loc := Location(points[i]);
      && results[i].id == points[i].id
      && results[i].lat == points[i].lat
      && results[i].lon == points[i].lon
      && results[i].result == Matches(rows, query(loc), covers, loc)
      && results[i].zonesCount == |results[i].result|
      && results[i].zonesCount <= |query(loc)|
  {
    results := [];
    var i := 0;
    while i < |points|
      invariant 0 <= i <= |points|
      invariant |results| == i
      invariant forall k :: 0 <= k < i ==>
        var loc := Location(points[k]);
        && results[k].id == points[k].id
        && results[k].lat == points[k].lat
        && results[k].lon == points[k].lon
        && results[k].result == Matches(rows, query(loc), covers, loc)
        && results[k].zonesCount == |results[k].result|
        && results[k].zonesCount <= |query(loc)|
    {
      var r := points[i];
      var p := LonLat(r.lon, r.lat);
      assert p == Location(points[i]);
      var matches := FindPoint(p, rows, query(p), covers);
      MatchesBound(rows, query(p), covers, p);
      results := results + [ResultRow(r.id, r.lat, r.lon, |matches|, matches)];
      i := i + 1;
    }
  }
}
