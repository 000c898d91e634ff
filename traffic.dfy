/**
 * The traffic table and the correlation steps run over it: enriching each
 * record with the distance and bearing from its serving tower to the
 * subscriber, flagging the records whose bearing falls inside the recorded
 * sector, selecting the night-time connections near the subscriber, listing
 * the distinct tower addresses, and merging near-duplicate spellings of the
 * address of one tower location.
 */
module Traffic {
  import opened Geo
  import opened Levenshtein
  import opened TextOrder

  /**
   * The part of the `Дата та час` timestamp the model reads: its hour.  The
   * calendar day only feeds the per-day grouping, which is not modelled.
   */
  datatype Timestamp = Timestamp(hour: int)

  /**
   * The columns `count_dist_tower_and_coord` adds: `dist`, `azimuth` and
   * `azimuth_in_range`.  A `None` is the missing value (NaN) the column holds
   * when the geodesy library failed for that row.
   */
  datatype Metrics = Metrics(dist: Option<real>, azimuth: Option<real>, inRange: bool)

  /**
   * One record of the traffic table: its timestamp, the serving tower's
   * address (the configured address column), the recorded sector azimuth
   * (`Азимут`), the tower's resolved coordinate (`lat`, `lon`), and the
   * correlation columns once they have been computed.
   */
  datatype Row = Row(
    time: Timestamp,
    address: string,
    sectorAzimuth: real,
    tower: Coord,
    metrics: Option<Metrics>)

  /** The distance bound hard-coded in the night-time selection, in metres. */
  const NightDistanceLimit: real := 1500.0
  /** The night-time window [NightStartHour, NightEndHour). */
  const NightStartHour: int := 0
  const NightEndHour: int := 6

  /** `a` and `b` agree on every column but the address. */
  predicate SameExceptAddress(a: Row, b: Row) {
    a.time == b.time && a.sectorAzimuth == b.sectorAzimuth && a.tower == b.tower && a.metrics == b.metrics
  }

  /** The addresses occurring in a table. */
  function Addresses(rows: seq<Row>): set<string> {
    set i | 0 <= i < |rows| :: rows[i].address
  }

  // ---------------------------------------------------------------------
  // Correlation of one record with the subscriber's location
  // ---------------------------------------------------------------------

  /**
   * The three values `count_dist_tower_and_coord` computes for one row: the
   * distance from the subscriber point to the tower, the normalised bearing
   * from the tower to the subscriber, and whether that bearing lies within
   * the default arc of the recorded sector azimuth.  A failed bearing is NaN
   * in the table, and the predicate answers false for NaN.
   */
  function CorrelateRow(row: Row, point: Coord, geo: Geodesy): (r: Row)
    ensures r.(metrics := row.metrics) == row
    ensures r.metrics.Some?
    ensures r.metrics.value.dist == geo.distance(point, row.tower)
    ensures r.metrics.value.azimuth == Azimuth(row.tower, point, geo)
    ensures r.metrics.value.inRange ==> r.metrics.value.azimuth.Some?
  {
    var bearing := Azimuth(row.tower, point, geo);
    var inRange := match bearing
      case None => false
      case Some(b) => CheckAzimuthDifference(b, row.sectorAzimuth);
    row.(metrics := Some(Metrics(geo.distance(point, row.tower), bearing, inRange)))
  }

  /**
   * For a sector azimuth on the compass, a row is flagged exactly when the
   * library gave a bearing from tower to subscriber and that bearing is at
   * most the default arc away from the sector azimuth round the circle.
   */
  lemma CorrelatedFlagMeansInsideSector(row: Row, point: Coord, geo: Geodesy)
    requires 0.0 <= row.sectorAzimuth <= 360.0
    ensures var m := CorrelateRow(row, point, geo).metrics.value;
            m.inRange <==>
              && geo.inverseAzimuth(row.tower, point).Some?
              && CircularDistance(m.azimuth.value, row.sectorAzimuth) <= DefaultArc
  {
  }

  // ---------------------------------------------------------------------
  // Night-time selection
  // ---------------------------------------------------------------------

  /**
   * The row test of `count_connection_group_by_day`: flagged in range,
   * closer than 1500 m, and timestamped in hours [0, 6).  A missing distance
   * (NaN) fails the comparison; a row without correlation columns is never
   * selected.
   */
  predicate IsNightConnection(row: Row) {
    && row.metrics.Some?
    && row.metrics.value.inRange
    && row.metrics.value.dist.Some?
    && row.metrics.value.dist.value < NightDistanceLimit
    && NightStartHour <= row.time.hour < NightEndHour
  }

  /**
   * The selection `count_connection_group_by_day` makes before grouping.
   * Its `distance` argument is accepted and not used.
   */
  function NightConnections(rows: seq<Row>, distance: real): seq<Row> {
    if |rows| == 0 then []
    else if IsNightConnection(rows[0]) then [rows[0]] + NightConnections(rows[1..], distance)
    else NightConnections(rows[1..], distance)
  }

  /**
   * The selection holds each night-time row of the table as often as the
   * table does, and nothing else.
   */
  lemma {:induction false} NightConnectionsSelectsExactly(rows: seq<Row>, distance: real)
    ensures var r := NightConnections(rows, distance);
            && |r| <= |rows|
            && (forall x :: x in r ==> IsNightConnection(x))
            && (forall x :: multiset(r)[x] == if IsNightConnection(x) then multiset(rows)[x] else 0)
  {
    if |rows| > 0 {
      assert rows == [rows[0]] + rows[1..];
      NightConnectionsSelectsExactly(rows[1..], distance);
    }
  }

  /**
   * The selection keeps the table's order: selecting from two consecutive
   * parts of a table and joining the results is selecting from the whole.
   */
  lemma {:induction false} NightConnectionsAppend(a: seq<Row>, b: seq<Row>, distance: real)
    ensures NightConnections(a + b, distance) == NightConnections(a, distance) + NightConnections(b, distance)
  {
    if |a| > 0 {
      assert (a + b)[0] == a[0];
      assert (a + b)[1..] == a[1..] + b;
      NightConnectionsAppend(a[1..], b, distance);
    } else {
      assert a + b == b;
    }
  }

  /** The bound is 1500 m whatever distance the caller passes. */
  lemma NightConnectionsIgnoreDistance(rows: seq<Row>, d1: real, d2: real)
    ensures NightConnections(rows, d1) == NightConnections(rows, d2)
  {
  }

  // ---------------------------------------------------------------------
  // Distinct tower addresses
  // ---------------------------------------------------------------------

  /**
   * `get_towers_address`: the distinct values of the address column, in
   * ascending string order.
   */
  function TowerAddresses(rows: seq<Row>): (r: seq<string>)
    ensures StrictlySorted(r)
    ensures forall a :: a in r <==> a in Addresses(rows)
  {
    if |rows| == 0 then []
    else
      var init := rows[..|rows| - 1];
      var r := Insert(TowerAddresses(init), rows[|rows| - 1].address);
      assert forall a :: a in Addresses(rows) <==> a in Addresses(init) || a == rows[|rows| - 1].address by {
        forall a ensures a in Addresses(rows) <==> a in Addresses(init) || a == rows[|rows| - 1].address {
          if a in Addresses(rows) {
            var i :| 0 <= i < |rows| && rows[i].address == a;
            if i < |rows| - 1 {
              assert init[i].address == a;
            }
          }
          if a in Addresses(init) {
            var i :| 0 <= i < |init| && init[i].address == a;
            assert rows[i].address == a;
          }
        }
      }
      r
  }

  /** The listing holds no address twice. */
  lemma TowerAddressesDistinct(rows: seq<Row>, i: nat, j: nat)
    requires i < j < |TowerAddresses(rows)|
    ensures TowerAddresses(rows)[i] != TowerAddresses(rows)[j]
  {
    StrictlySortedIsDistinct(TowerAddresses(rows), i, j);
  }

  // ---------------------------------------------------------------------
  // Merging near-duplicate addresses of one tower location
  // ---------------------------------------------------------------------

  /**
   * The dictionary `preparing_data` has built after reading the rows `s`:
   * each coordinate seen so far, mapped to the address of its first row.
   */
  function FirstSeen(s: seq<Row>): (m: map<Coord, string>)
    ensures forall c :: c in m ==> m[c] in Addresses(s)
  {
    if |s| == 0 then map[]
    else
      var init := s[..|s| - 1];
      var last := s[|s| - 1];
      var m := FirstSeen(init);
      assert forall c :: c in m ==> m[c] in Addresses(s) by {
        forall c | c in m ensures m[c] in Addresses(s) {
          var i :| 0 <= i < |init| && init[i].address == m[c];
          assert s[i].address == m[c];
        }
      }
      if last.tower in m then m else m[last.tower := last.address]
  }

  /** Reading one more row adds its coordinate, unless already present. */
  lemma FirstSeenExtend(s: seq<Row>, i: nat)
    requires i < |s|
    ensures FirstSeen(s[..i + 1]) ==
              var m := FirstSeen(s[..i]);
              if s[i].tower in m then m else m[s[i].tower := s[i].address]
  {
    assert s[..i + 1][..i] == s[..i];
  }

  /**
   * The first row at a coordinate fixes that coordinate's canonical address:
   * once `s[k]` is the earliest row at its tower coordinate, every longer
   * prefix maps that coordinate to `s[k].address`.
   */
  lemma {:induction false} FirstSeenKeepsFirstAddress(s: seq<Row>, k: nat)
    requires k < |s|
    requires forall j :: 0 <= j < k ==> s[j].tower != s[k].tower
    ensures s[k].tower in FirstSeen(s)
    ensures FirstSeen(s)[s[k].tower] == s[k].address
  {
    var init := s[..|s| - 1];
    if k < |s| - 1 {
      assert forall j :: 0 <= j < k ==> init[j].tower != init[k].tower;
      FirstSeenKeepsFirstAddress(init, k);
    } else {
      FirstSeenAbsent(init, s[k].tower);
    }
  }

  /** A coordinate no row of `s` carries is not in the dictionary. */
  lemma {:induction false} FirstSeenAbsent(s: seq<Row>, c: Coord)
    requires forall j :: 0 <= j < |s| ==> s[j].tower != c
    ensures c !in FirstSeen(s)
  {
    if |s| > 0 {
      FirstSeenAbsent(s[..|s| - 1], c);
    }
  }

  /** `.loc[df[col] == from, col] = to`: every row carrying `from` now carries `to`. */
  function ReplaceAddress(table: seq<Row>, from: string, to: string): (r: seq<Row>)
    ensures |r| == |table|
    ensures forall i :: 0 <= i < |r| ==>
              r[i] == if table[i].address == from then table[i].(address := to) else table[i]
  {
    seq(|table|, i requires 0 <= i < |table| =>
      if table[i].address == from then table[i].(address := to) else table[i])
  }

  /**
   * Row `j` of the snapshot `s` is a near duplicate: an earlier row sits at
   * the same coordinate and the address stored for it differs from row `j`'s
   * in one or two edits.
   */
  predicate NearDuplicateAt(s: seq<Row>, j: nat)
    requires j < |s|
  {
    var seen := FirstSeen(s[..j]);
    s[j].tower in seen && 0 < EditDistance(seen[s[j].tower], s[j].address) < 3
  }

  /** One iteration of `preparing_data`, reading row `j` of the snapshot `s`. */
  function PrepareStep(table: seq<Row>, s: seq<Row>, j: nat): seq<Row>
    requires j < |s|
  {
    if NearDuplicateAt(s, j)
    then ReplaceAddress(table, s[j].address, FirstSeen(s[..j])[s[j].tower])
    else table
  }

  /** The table after `preparing_data` has read the first `n` rows of `s`. */
  function PreparedPrefix(s: seq<Row>, n: nat): seq<Row>
    requires n <= |s|
  {
    if n == 0 then s else PrepareStep(PreparedPrefix(s, n - 1), s, n - 1)
  }

  /** One more row read: what `preparing_data` does with row `i`, given the dictionary so far. */
  lemma PreparedPrefixStep(s: seq<Row>, i: nat, seen: map<Coord, string>)
    requires i < |s| && seen == FirstSeen(s[..i])
    ensures s[i].tower !in seen ==> PreparedPrefix(s, i + 1) == PreparedPrefix(s, i)
    ensures s[i].tower in seen ==>
              PreparedPrefix(s, i + 1) ==
                if 0 < EditDistance(seen[s[i].tower], s[i].address) < 3
                then ReplaceAddress(PreparedPrefix(s, i), s[i].address, seen[s[i].tower])
                else PreparedPrefix(s, i)
  {
  }

  /** The table after `preparing_data`. */
  function Prepared(s: seq<Row>): seq<Row> {
    PreparedPrefix(s, |s|)
  }

  /**
   * `t` is `s` with, at most, some addresses replaced by addresses `s`
   * already held.
   */
  predicate RewritesOnlyAddresses(t: seq<Row>, s: seq<Row>) {
    && |t| == |s|
    && forall i :: 0 <= i < |t| ==> SameExceptAddress(t[i], s[i]) && t[i].address in Addresses(s)
  }

  lemma ReplaceAddressRewritesOnlyAddresses(t: seq<Row>, s: seq<Row>, from: string, to: string)
    requires RewritesOnlyAddresses(t, s) && to in Addresses(s)
    ensures RewritesOnlyAddresses(ReplaceAddress(t, from, to), s)
  {
  }

  /**
   * De-duplication edits only the address column, and only ever writes an
   * address the original table already held.
   */
  lemma {:induction false} PreparedOnlyRewritesAddresses(s: seq<Row>, n: nat)
    requires n <= |s|
    ensures RewritesOnlyAddresses(PreparedPrefix(s, n), s)
  {
    if n > 0 {
      PreparedOnlyRewritesAddresses(s, n - 1);
      var before := PreparedPrefix(s, n - 1);
      assert PreparedPrefix(s, n) == PrepareStep(before, s, n - 1);
      if NearDuplicateAt(s, n - 1) {
        FirstSeenOfPrefix(s, n - 1);
        var canonical := FirstSeen(s[..n - 1])[s[n - 1].tower];
        ReplaceAddressRewritesOnlyAddresses(before, s, s[n - 1].address, canonical);
      }
    } else {
      assert forall i :: 0 <= i < |s| ==> s[i].address in Addresses(s);
    }
  }

  /** The dictionary built from a prefix stores addresses of the whole table. */
  lemma FirstSeenOfPrefix(s: seq<Row>, j: nat)
    requires j <= |s|
    ensures forall c :: c in FirstSeen(s[..j]) ==> FirstSeen(s[..j])[c] in Addresses(s)
  {
    forall c | c in FirstSeen(s[..j]) ensures FirstSeen(s[..j])[c] in Addresses(s) {
      var i :| 0 <= i < j && s[..j][i].address == FirstSeen(s[..j])[c];
      assert s[i].address == FirstSeen(s[..j])[c];
    }
  }

  /**
   * A near duplicate at row `j` is merged: once row `j` is read, no row of
   * the table carries its original spelling any more, and the rows that
   * carried it now carry the address of the first row at that coordinate.
   */
  lemma NearDuplicateIsMerged(s: seq<Row>, j: nat, k: nat)
    requires j < |s| && NearDuplicateAt(s, j)
    requires k < j && s[k].tower == s[j].tower
    requires forall i :: 0 <= i < k ==> s[i].tower != s[k].tower
    ensures var before, after := PreparedPrefix(s, j), PreparedPrefix(s, j + 1);
            && |after| == |before|
            && forall i :: 0 <= i < |after| ==>
                 && after[i].address != s[j].address
                 && (before[i].address == s[j].address ==> after[i].address == s[k].address)
  {
    var p := s[..j];
    assert forall i :: 0 <= i < k ==> p[i].tower != p[k].tower;
    FirstSeenKeepsFirstAddress(p, k);
    var canonical := FirstSeen(p)[s[j].tower];
    assert canonical == s[k].address;
    if canonical == s[j].address {
      EditDistanceSelf(canonical);
    }
  }

  /**
   * When every row either opens a new coordinate or repeats its coordinate's
   * stored address exactly or at three or more edits, de-duplication changes
   * nothing.
   */
  lemma {:induction false} PreparedWithoutNearDuplicates(s: seq<Row>, n: nat)
    requires n <= |s|
    requires forall j :: 0 <= j < n ==> !NearDuplicateAt(s, j)
    ensures PreparedPrefix(s, n) == s
  {
    if n > 0 {
      PreparedWithoutNearDuplicates(s, n - 1);
    }
  }

  // ---------------------------------------------------------------------
  // The traffic table object
  // ---------------------------------------------------------------------

  /**
   * `TrafficDataSet`: the table read from the spreadsheet, which the
   * correlation and de-duplication steps update in place.
   */
  class TrafficDataSet {
    var rows: seq<Row>

    /** The data set over a table already read from the spreadsheet. */
    constructor (table: seq<Row>)
      ensures rows == table
    {
      rows := table;
    }

    /**
     * `count_dist_tower_and_coord`: adds the distance, bearing and match
     * columns to every row, leaving the row count, order and other columns
     * as they were.
     */
    method CountDistTowerAndCoord(point: Coord, geo: Geodesy)
      modifies this
      ensures |rows| == |old(rows)|
      ensures forall i :: 0 <= i < |rows| ==> rows[i] == CorrelateRow(old(rows)[i], point, geo)
    {
      var table := rows;
      rows := seq(|table|, i requires 0 <= i < |table| => CorrelateRow(table[i], point, geo));
    }

    /**
     * The selection of `count_connection_group_by_day`, before grouping by
     * calendar day.
     */
    method SelectNightConnections(distance: real) returns (selected: seq<Row>)
      ensures selected == NightConnections(rows, distance)
    {
      selected := NightConnections(rows, distance);
    }

    /** `get_towers_address`: the distinct tower addresses, sorted. */
    method GetTowersAddress() returns (addresses: seq<string>)
      ensures StrictlySorted(addresses)
      ensures forall a :: a in addresses <==> a in Addresses(rows)
    {
      addresses := TowerAddresses(rows);
    }

    /**
     * `preparing_data`: walks a snapshot of the rows, remembering the first
     * address seen at each coordinate; a later row at that coordinate whose
     * address is one or two edits away has its spelling replaced, in every
     * row of the live table, by the remembered one.
     */
    method PreparingData()
      modifies this
      ensures rows == Prepared(old(rows))
      ensures RewritesOnlyAddresses(rows, old(rows))
    {
      var snapshot := rows;
      var uniqueCoord: map<Coord, string> := map[];
      var i := 0;
      while i < |snapshot|
        invariant i <= |snapshot|
        invariant uniqueCoord == FirstSeen(snapshot[..i])
        invariant rows == PreparedPrefix(snapshot, i)
      {
        var row := snapshot[i];
        FirstSeenExtend(snapshot, i);
        PreparedPrefixStep(snapshot, i, uniqueCoord);
        if row.tower !in uniqueCoord {
          uniqueCoord := uniqueCoord[row.tower := row.address];
        } else {
          var addressInDict := uniqueCoord[row.tower];
          var addressInDf := row.address;
          var distance := EditDistance(addressInDict, addressInDf);
          if distance < 3 && distance > 0 {
            rows := ReplaceAddress(rows, addressInDf, addressInDict);
          }
        }
        i := i + 1;
      }
      assert snapshot[..i] == snapshot;
      PreparedOnlyRewritesAddresses(snapshot, |snapshot|);
    }
  }
}
