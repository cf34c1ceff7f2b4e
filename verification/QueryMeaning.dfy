/** What the statements of `src/query.rs` ask for: which stored strikes and which groups of them pass their conditions,
    with the values sent. */
module QueryMeaning {
  import opened Common
  import opened Instants
  import opened QueryFilters
  import opened QueryStatements
  import opened QueryBuilders

  // ---------- the text of a condition, a column and a statement ----------

  lemma CompareTexts()
    ensures Compare(Time, ">=", "start_time").Text() == "\"timestamp\" >= " + Place("start_time")
    ensures Compare(Time, "<", "end_time").Text() == "\"timestamp\" < " + Place("end_time")
    ensures Compare(Region, "=", "region").Text() == "region = " + Place("region")
    ensures Compare(Id, ">=", "start_id").Text() == "id >= " + Place("start_id")
    ensures Compare(Count, ">", "count_threshold").Text() == "count(*) > " + Place("count_threshold")
  {
    assert "\"timestamp\"" + " " + ">=" + " " == "\"timestamp\" >= ";
    assert "\"timestamp\"" + " " + "<" + " " == "\"timestamp\" < ";
    assert "region" + " " + "=" + " " == "region = ";
    assert "id" + " " + ">=" + " " == "id >= ";
    assert "count(*)" + " " + ">" + " " == "count(*) > ";
  }

  lemma BoxTexts(name: string, parameter: string)
    ensures Overlaps(name, Literal4326).Text() == "ST_GeomFromWKB(" + Place(name) + ", 4326) && geog"
    ensures Overlaps(name, SridParam(parameter)).Text() ==
            ("ST_GeomFromWKB(" + Place(name) + ", ") + Place(parameter) + ") && geog"
    ensures CastOverlaps(name, SridParam(parameter)).Text() ==
            ("ST_SetSRID(CAST(" + Place(name) + " AS geometry), ") + Place(parameter) + ") && geog"
  {
    assert ", " + "4326" + ") && geog" == ", 4326) && geog";
  }

  lemma IntersectsTexts(name: string, parameter: string)
    ensures Intersects(name, Literal4326).Text() == "ST_Intersects(ST_GeomFromWKB(" + Place(name) + ", 4326), geog)"
    ensures Intersects(name, SridParam(parameter)).Text() ==
            ("ST_Intersects(ST_GeomFromWKB(" + Place(name) + ", ") + Place(parameter) + "), "
            + ("ST_Transform(geog::geometry, " + Place(parameter) + ")") + ")"
  {
    assert ", " + "4326" + "), " + "geog" + ")" == ", 4326), geog)";
  }

  lemma JoinTwo(a: string, b: string, sep: string)
    ensures Join([a, b], sep) == a + sep + b
  {
    assert [a, b][..1] == [a];
  }

  /** The order and the words of the parts of a statement. */
  lemma StatementText(q: Query, c: string, d: string, v: Filter, w: Filter, g: string, h: string, k: Filter, o: string)
    requires q.columns == [c, d] && q.conditions == [v, w] && q.groups == [g, h] && q.having == [k] && q.order == [o]
    requires q.limit.None?
    ensures q.Untrimmed() ==
            "SELECT " + (c + ", " + d + " ") + ("FROM " + q.table + " ")
            + ("WHERE " + (v.Text() + " AND " + w.Text()) + " ")
            + (("GROUP BY " + (g + ", " + h) + " ") + ("HAVING " + k.Text() + " ")) + ("ORDER BY " + o + " ") + ""
  {
    JoinTwo(c, d, ", ");
    JoinTwo(g, h, ", ");
    JoinTwo(v.Text(), w.Text(), " AND ");
    assert Texts(q.conditions) == [v.Text(), w.Text()] && Texts(q.having) == [k.Text()];
  }

  lemma CellTexts()
    ensures CellColumns(GridX(), GridY()) ==
            ["TRUNC((ST_X(geog::geometry) - " + Place("xmin") + ") / " + (Place("xdiv") + ")::integer AS rx"),
             "TRUNC((ST_Y(geog::geometry) - " + Place("ymin") + ") / " + (Place("ydiv") + ")::integer AS ry"),
             "count(*) AS strike_count", "max(\"timestamp\") as \"timestamp\""]
    ensures CellColumns(GlobalX(), GlobalY()) ==
            ["ROUND((ST_X(geog::geometry) - " + Place("xdiv") + " * 0.5) / " + (Place("xdiv") + ")::integer AS rx"),
             "ROUND((ST_Y(geog::geometry) - " + Place("ydiv") + " * 0.5) / " + (Place("ydiv") + ")::integer AS ry"),
             "count(*) AS strike_count", "max(\"timestamp\") as \"timestamp\""]
  {
  }

  /** The position is a strike's `x` and `y`, in the SRID of the request. */
  lemma SelectedTexts()
    ensures SqlColumns(StrikeKey, true) ==
            ["\"timestamp\"", "nanoseconds", "ST_X" + "(geog::geometry) AS " + "x", "ST_Y" + "(geog::geometry) AS " + "y",
             "error2d"]
    ensures var x, y := SqlColumns(StrikeKey, false)[2], SqlColumns(StrikeKey, false)[3];
            && x == "ST_X" + "(ST_Transform(geog::geometry, " + Place("srid") + (")) AS " + "x")
            && y == "ST_Y" + "(ST_Transform(geog::geometry, " + Place("srid") + (")) AS " + "y")
            && SqlColumns(StrikeKey, false) == ["\"timestamp\"", "nanoseconds", x, y, "error2d"]
            && SqlColumns(Strike, false) ==
               ["id", "\"timestamp\"", "nanoseconds", x, y, "altitude", "amplitude", "error2d", "stationcount"]
  {
  }

  // ---------- the parts of a condition ----------

  predicate InInterval(interval: TimeInterval, row: StrikeRow) {
    Micros(interval.start) <= row.timestamp < Micros(interval.end)
  }

  /** The region as the driver sends it. */
  predicate InRegion(region: Option<int>, row: StrikeRow) {
    region.Some? ==> row.region == Wrap16(region.value)
  }

  /** The area's box overlaps the strike, and its geometry intersects it when it is not its own envelope; in an SRID other
      than the default one the strike is transformed. */
  predicate InArea(area: Option<Area>, srid: int, spatial: Spatial, row: StrikeRow) {
    area.Some? ==>
      && spatial.overlaps(area.value.envelope, Wrap32(srid), row.x, row.y)
      && (area.value.geometry.Some? ==>
            spatial.intersects(area.value.geometry.value, Wrap32(srid),
                               if srid == 4326 then None else Some(Wrap32(srid)), row.x, row.y))
  }

  lemma TimeMeaning(values: map<string, Param>, interval: TimeInterval, spatial: Spatial, row: StrikeRow)
    requires WantsInterval(values, interval)
    ensures AllHold(TimeFilters(), values, spatial, row, 0) <==> InInterval(interval, row)
  {
    var filters := TimeFilters();
    assert Holds(filters[0], values, spatial, row, 0) <==> Micros(interval.start) <= row.timestamp;
    assert Holds(filters[1], values, spatial, row, 0) <==> row.timestamp < Micros(interval.end);
  }

  lemma RegionMeaning(values: map<string, Param>, region: Option<int>, spatial: Spatial, row: StrikeRow)
    requires WantsRegion(values, region)
    ensures AllHold(RegionFilters(region), values, spatial, row, 0) <==> InRegion(region, row)
  {
    if region.Some? { AllHoldOne(Compare(Region, "=", "region"), values, spatial, row, 0); }
  }

  lemma IdMeaning(values: map<string, Param>, startId: Option<int>, spatial: Spatial, row: StrikeRow)
    requires startId.Some? ==> Wants(values, "start_id", Int(startId.value))
    ensures AllHold(IdFilters(startId), values, spatial, row, 0) <==> (startId.Some? ==> row.id >= startId.value)
  {
    if startId.Some? { AllHoldOne(Compare(Id, ">=", "start_id"), values, spatial, row, 0); }
  }

  lemma AreaMeaning(values: map<string, Param>, area: Option<Area>, srid: int, spatial: Spatial, row: StrikeRow)
    requires WantsArea(values, area) && (srid != 4326 ==> Wants(values, "srid", Int(srid)))
    ensures AllHold(AreaFilters(area, SridOf(srid == 4326)), values, spatial, row, 0) <==>
            InArea(area, srid, spatial, row)
  {
    if area.Some? {
      var filters := AreaFilters(area, SridOf(srid == 4326));
      assert Holds(filters[0], values, spatial, row, 0) <==>
             spatial.overlaps(area.value.envelope, Wrap32(srid), row.x, row.y);
      if area.value.geometry.Some? {
        assert Holds(filters[1], values, spatial, row, 0) <==>
               spatial.intersects(area.value.geometry.value, Wrap32(srid),
                                  if srid == 4326 then None else Some(Wrap32(srid)), row.x, row.y);
      }
    }
  }

  lemma BoxMeaning(values: map<string, Param>, envelope: seq<Byte>, spatial: Spatial, row: StrikeRow)
    requires Wants(values, "envelope", Bytea(envelope)) && Wants(values, "envelope_srid", Int(4326))
    ensures var srid := SridParam("envelope_srid");
            && (AllHold([Overlaps("envelope", srid)], values, spatial, row, 0) <==>
                spatial.overlaps(envelope, 4326, row.x, row.y))
            && (AllHold([CastOverlaps("envelope", srid)], values, spatial, row, 0) <==>
                spatial.overlaps(envelope, 4326, row.x, row.y))
  {
    AllHoldOne(Overlaps("envelope", SridParam("envelope_srid")), values, spatial, row, 0);
    AllHoldOne(CastOverlaps("envelope", SridParam("envelope_srid")), values, spatial, row, 0);
  }

  lemma ThresholdMeaning(values: map<string, Param>, countThreshold: int, spatial: Spatial, row: StrikeRow, count: int)
    requires WantsThreshold(values, countThreshold)
    ensures AllHold(ThresholdFilters(countThreshold), values, spatial, row, count) <==>
            (countThreshold > 0 ==> count > countThreshold)
  {
    if countThreshold > 0 { AllHoldOne(Compare(Count, ">", "count_threshold"), values, spatial, row, count); }
  }

  lemma IntervalSent(q: Query, interval: TimeInterval, intended: map<string, Param>)
    requires Agrees(q.params, intended) && {"start_time", "end_time"} <= q.Bound() && WantsInterval(intended, interval)
    ensures WantsInterval(MapOf(q.params), interval)
  {
    SentValue(q, intended, "start_time", Timestamp(interval.start));
    SentValue(q, intended, "end_time", Timestamp(interval.end));
  }

  lemma RegionSent(q: Query, region: Option<int>, intended: map<string, Param>)
    requires Agrees(q.params, intended) && (region.Some? ==> "region" in q.Bound()) && WantsRegion(intended, region)
    ensures WantsRegion(MapOf(q.params), region)
  {
    if region.Some? { SentValue(q, intended, "region", Int(region.value)); }
  }

  lemma AreaSent(q: Query, area: Option<Area>, intended: map<string, Param>)
    requires Agrees(q.params, intended) && WantsArea(intended, area)
    requires area.Some? ==> "envelope" in q.Bound() && (area.value.geometry.Some? ==> "geometry" in q.Bound())
    ensures WantsArea(MapOf(q.params), area)
  {
    if area.Some? {
      SentValue(q, intended, "envelope", Bytea(area.value.envelope));
      if area.value.geometry.Some? { SentValue(q, intended, "geometry", Bytea(area.value.geometry.value)); }
    }
  }

  lemma ThreeParts(a: seq<Filter>, b: seq<Filter>, c: seq<Filter>, values: map<string, Param>, spatial: Spatial,
                   row: StrikeRow)
    ensures AllHold(a + b + c, values, spatial, row, 0) <==>
            && AllHold(a, values, spatial, row, 0) && AllHold(b, values, spatial, row, 0)
            && AllHold(c, values, spatial, row, 0)
  {
    AllHoldBoth(a + b, c, values, spatial, row, 0);
    AllHoldBoth(a, b, values, spatial, row, 0);
  }

  // ---------- select_query and strikes_query ----------

  function OrderColumns(order: SelectOrder): seq<string> {
    match order
    case ByTimestamp => ["\"timestamp\"", "nanoseconds"]
    case ById => ["id"]
    case Unordered => []
  }

  lemma OrderShape(order: SelectOrder, q: Query)
    requires q.order == []
    ensures ApplyOrder(order, q) == q.(order := OrderColumns(order))
  {
  }

  lemma SelectShape(interval: TimeInterval, area: Option<Area>, region: Option<int>, srid: int, columns: SelectColumns,
                    order: SelectOrder)
    ensures var q := SelectQuery(interval, area, region, srid, columns, order);
            && q.conditions == TimeFilters() + RegionFilters(region) + AreaFilters(area, SridOf(srid == 4326))
            && q.table == "strikes" && q.columns == SqlColumns(columns, srid == 4326)
            && q.groups == [] && q.having == [] && q.limit == None && q.order == OrderColumns(order)
  {
    var q := SelectProjection(srid, columns);
    assert q.conditions + TimeFilters() == TimeFilters();
    OrderShape(order, AddSelectConditions(q, interval, area, region, srid == DEFAULT_SRID));
  }

  lemma SelectBound(interval: TimeInterval, area: Option<Area>, region: Option<int>, srid: int, columns: SelectColumns,
                    order: SelectOrder)
    ensures var q := SelectQuery(interval, area, region, srid, columns, order);
            && {"start_time", "end_time"} <= q.Bound() && (region.Some? ==> "region" in q.Bound())
            && (area.Some? ==> "envelope" in q.Bound() && (area.value.geometry.Some? ==> "geometry" in q.Bound()))
            && (srid != 4326 ==> "srid" in q.Bound())
  {
  }

  lemma SelectSent(interval: TimeInterval, area: Option<Area>, region: Option<int>, srid: int, columns: SelectColumns,
                   order: SelectOrder, intended: map<string, Param>)
    requires WantsInterval(intended, interval) && WantsRegion(intended, region) && WantsArea(intended, area)
    requires Wants(intended, "srid", Int(srid))
    ensures var values := MapOf(SelectQuery(interval, area, region, srid, columns, order).params);
            && WantsInterval(values, interval) && WantsRegion(values, region) && WantsArea(values, area)
            && (srid != 4326 ==> Wants(values, "srid", Int(srid)))
  {
    var q := SelectQuery(interval, area, region, srid, columns, order);
    SelectBound(interval, area, region, srid, columns, order);
    SelectQueryAgrees(interval, area, region, srid, columns, order, intended);
    IntervalSent(q, interval, intended);
    RegionSent(q, region, intended);
    AreaSent(q, area, intended);
    if srid != 4326 { SentValue(q, intended, "srid", Int(srid)); }
  }

  lemma SelectMeaning(q: Query, interval: TimeInterval, area: Option<Area>, region: Option<int>, srid: int,
                      spatial: Spatial, row: StrikeRow)
    requires q.conditions == TimeFilters() + RegionFilters(region) + AreaFilters(area, SridOf(srid == 4326))
    requires var values := MapOf(q.params);
             && WantsInterval(values, interval) && WantsRegion(values, region) && WantsArea(values, area)
             && (srid != 4326 ==> Wants(values, "srid", Int(srid)))
    ensures PassesWhere(q, spatial, row) <==>
            && Micros(interval.start) <= row.timestamp < Micros(interval.end)
            && (region.Some? ==> row.region == Wrap16(region.value)) && InArea(area, srid, spatial, row)
  {
    var values := MapOf(q.params);
    ThreeParts(TimeFilters(), RegionFilters(region), AreaFilters(area, SridOf(srid == 4326)), values, spatial, row);
    TimeMeaning(values, interval, spatial, row);
    RegionMeaning(values, region, spatial, row);
    AreaMeaning(values, area, srid, spatial, row);
  }

  /** `select_query` asks for the strikes of the interval, with its start and without its end, of the region and in the
      area, for every option. */
  lemma SelectQueryAsksFor(interval: TimeInterval, area: Option<Area>, region: Option<int>, srid: int,
                           columns: SelectColumns, order: SelectOrder, intended: map<string, Param>, spatial: Spatial,
                           row: StrikeRow)
    requires WantsInterval(intended, interval) && WantsRegion(intended, region) && WantsArea(intended, area)
    requires Wants(intended, "srid", Int(srid))
    ensures PassesWhere(SelectQuery(interval, area, region, srid, columns, order), spatial, row) <==>
            && Micros(interval.start) <= row.timestamp < Micros(interval.end)
            && (region.Some? ==> row.region == Wrap16(region.value)) && InArea(area, srid, spatial, row)
  {
    SelectShape(interval, area, region, srid, columns, order);
    SelectSent(interval, area, region, srid, columns, order, intended);
    SelectMeaning(SelectQuery(interval, area, region, srid, columns, order), interval, area, region, srid, spatial, row);
  }

  lemma StrikesShape(interval: TimeInterval, startId: Option<int>)
    ensures var q := StrikesQuery(interval, startId);
            && q.conditions == TimeFilters() + IdFilters(startId)
            && q.table == "strikes" && q.columns == SqlColumns(Strike, true)
            && q.groups == [] && q.having == [] && q.order == ["id"] && q.limit == None
            && {"start_time", "end_time"} <= q.Bound() && (startId.Some? ==> "start_id" in q.Bound())
  {
    var q := SelectProjection(DEFAULT_SRID, Strike);
    assert q.conditions + TimeFilters() == TimeFilters();
  }

  lemma StrikesSent(interval: TimeInterval, startId: Option<int>, intended: map<string, Param>)
    requires WantsInterval(intended, interval) && (startId.Some? ==> Wants(intended, "start_id", Int(startId.value)))
    ensures var values := MapOf(StrikesQuery(interval, startId).params);
            WantsInterval(values, interval) && (startId.Some? ==> Wants(values, "start_id", Int(startId.value)))
  {
    var q := StrikesQuery(interval, startId);
    StrikesShape(interval, startId);
    StrikesQueryAgrees(interval, startId, intended);
    IntervalSent(q, interval, intended);
    if startId.Some? { SentValue(q, intended, "start_id", Int(startId.value)); }
  }

  lemma StrikesMeaning(q: Query, interval: TimeInterval, startId: Option<int>, spatial: Spatial, row: StrikeRow)
    requires q.conditions == TimeFilters() + IdFilters(startId)
    requires var values := MapOf(q.params);
             WantsInterval(values, interval) && (startId.Some? ==> Wants(values, "start_id", Int(startId.value)))
    ensures PassesWhere(q, spatial, row) <==>
            && Micros(interval.start) <= row.timestamp < Micros(interval.end)
            && (startId.Some? ==> row.id >= startId.value)
  {
    var values := MapOf(q.params);
    AllHoldBoth(TimeFilters(), IdFilters(startId), values, spatial, row, 0);
    TimeMeaning(values, interval, spatial, row);
    IdMeaning(values, startId, spatial, row);
  }

  /** `strikes_query` asks for the strikes of the interval from the first id on. */
  lemma StrikesQueryAsksFor(interval: TimeInterval, startId: Option<int>, intended: map<string, Param>, spatial: Spatial,
                            row: StrikeRow)
    requires WantsInterval(intended, interval) && (startId.Some? ==> Wants(intended, "start_id", Int(startId.value)))
    ensures PassesWhere(StrikesQuery(interval, startId), spatial, row) <==>
            && Micros(interval.start) <= row.timestamp < Micros(interval.end)
            && (startId.Some? ==> row.id >= startId.value)
  {
    StrikesShape(interval, startId);
    StrikesSent(interval, startId, intended);
    StrikesMeaning(StrikesQuery(interval, startId), interval, startId, spatial, row);
  }

  // ---------- grid_query and global_grid_query ----------

  lemma GridShape(grid: Grid, interval: TimeInterval, region: Option<int>, countThreshold: int)
    ensures var q := GridQuery(grid, interval, region, countThreshold);
            && q.conditions == [GridEnvelope()] + TimeFilters() + RegionFilters(region)
            && q.having == ThresholdFilters(countThreshold)
            && q.table == "strikes" && q.columns == CellColumns(GridX(), GridY())
            && q.groups == ["rx", "ry"] && q.order == [] && q.limit == None
            && {"start_time", "end_time", "envelope", "envelope_srid"} <= q.Bound()
            && (region.Some? ==> "region" in q.Bound()) && (countThreshold > 0 ==> "count_threshold" in q.Bound())
  {
    var q := NewQuery("strikes").SetColumns(CellColumns(GridX(), GridY()));
    assert q.conditions + [GridEnvelope()] == [GridEnvelope()];
    assert q.having + ThresholdFilters(countThreshold) == ThresholdFilters(countThreshold);
    assert q.groups + ["rx", "ry"] == ["rx", "ry"];
  }

  lemma GridSent(grid: Grid, interval: TimeInterval, region: Option<int>, countThreshold: int,
                 intended: map<string, Param>)
    requires WantsGrid(intended, grid) && WantsThreshold(intended, countThreshold)
    requires WantsInterval(intended, interval) && WantsRegion(intended, region)
    ensures var values := MapOf(GridQuery(grid, interval, region, countThreshold).params);
            && WantsInterval(values, interval) && WantsRegion(values, region) && WantsThreshold(values, countThreshold)
            && Wants(values, "envelope", Bytea(grid.envelope)) && Wants(values, "envelope_srid", Int(4326))
  {
    var q := GridQuery(grid, interval, region, countThreshold);
    GridShape(grid, interval, region, countThreshold);
    GridCellsAgree(grid, intended);
    GridFiltersAgree(GridCells(grid), interval, region, countThreshold, intended);
    IntervalSent(q, interval, intended);
    RegionSent(q, region, intended);
    SentValue(q, intended, "envelope", Bytea(grid.envelope));
    SentValue(q, intended, "envelope_srid", Int(4326));
    if countThreshold > 0 { SentValue(q, intended, "count_threshold", Int(countThreshold)); }
  }

  lemma GridMeaning(q: Query, envelope: seq<Byte>, interval: TimeInterval, region: Option<int>, countThreshold: int,
                    spatial: Spatial, row: StrikeRow, count: int)
    requires q.conditions == [GridEnvelope()] + TimeFilters() + RegionFilters(region)
    requires q.having == ThresholdFilters(countThreshold)
    requires var values := MapOf(q.params);
             && WantsInterval(values, interval) && WantsRegion(values, region) && WantsThreshold(values, countThreshold)
             && Wants(values, "envelope", Bytea(envelope)) && Wants(values, "envelope_srid", Int(4326))
    ensures PassesWhere(q, spatial, row) <==>
            && spatial.overlaps(envelope, 4326, row.x, row.y)
            && Micros(interval.start) <= row.timestamp < Micros(interval.end)
            && (region.Some? ==> row.region == Wrap16(region.value))
    ensures PassesHaving(q, spatial, row, count) <==> (countThreshold > 0 ==> count > countThreshold)
  {
    var values := MapOf(q.params);
    ThreeParts([GridEnvelope()], TimeFilters(), RegionFilters(region), values, spatial, row);
    BoxMeaning(values, envelope, spatial, row);
    TimeMeaning(values, interval, spatial, row);
    RegionMeaning(values, region, spatial, row);
    ThresholdMeaning(values, countThreshold, spatial, row, count);
  }

  /** `grid_query` asks for the strikes of the interval whose position overlaps the grid's envelope, of the region, and for
      the cells with more than the threshold. */
  lemma GridQueryAsksFor(grid: Grid, interval: TimeInterval, region: Option<int>, countThreshold: int,
                         intended: map<string, Param>, spatial: Spatial, row: StrikeRow, count: int)
    requires WantsGrid(intended, grid) && WantsThreshold(intended, countThreshold)
    requires WantsInterval(intended, interval) && WantsRegion(intended, region)
    ensures var q := GridQuery(grid, interval, region, countThreshold);
            && (PassesWhere(q, spatial, row) <==>
                && spatial.overlaps(grid.envelope, 4326, row.x, row.y)
                && Micros(interval.start) <= row.timestamp < Micros(interval.end)
                && (region.Some? ==> row.region == Wrap16(region.value)))
            && (PassesHaving(q, spatial, row, count) <==> (countThreshold > 0 ==> count > countThreshold))
  {
    GridShape(grid, interval, region, countThreshold);
    GridSent(grid, interval, region, countThreshold, intended);
    GridMeaning(GridQuery(grid, interval, region, countThreshold), grid.envelope, interval, region, countThreshold,
                spatial, row, count);
  }

  lemma GlobalGridShape(grid: Grid, interval: TimeInterval, countThreshold: int)
    ensures var q := GlobalGridQuery(grid, interval, countThreshold);
            && q.conditions == TimeFilters() && q.having == ThresholdFilters(countThreshold)
            && q.table == "strikes" && q.columns == CellColumns(GlobalX(), GlobalY())
            && q.groups == ["rx", "ry"] && q.order == [] && q.limit == None
            && {"start_time", "end_time"} <= q.Bound() && (countThreshold > 0 ==> "count_threshold" in q.Bound())
  {
    var q := GlobalGridCells(grid);
    assert q.conditions + TimeFilters() == TimeFilters();
    assert q.having + ThresholdFilters(countThreshold) == ThresholdFilters(countThreshold);
    assert q.groups + ["rx", "ry"] == ["rx", "ry"];
  }

  lemma GlobalGridMeaning(q: Query, interval: TimeInterval, countThreshold: int, spatial: Spatial, row: StrikeRow,
                          count: int)
    requires q.conditions == TimeFilters() && q.having == ThresholdFilters(countThreshold)
    requires var values := MapOf(q.params); WantsInterval(values, interval) && WantsThreshold(values, countThreshold)
    ensures PassesWhere(q, spatial, row) <==> Micros(interval.start) <= row.timestamp < Micros(interval.end)
    ensures PassesHaving(q, spatial, row, count) <==> (countThreshold > 0 ==> count > countThreshold)
  {
    TimeMeaning(MapOf(q.params), interval, spatial, row);
    ThresholdMeaning(MapOf(q.params), countThreshold, spatial, row, count);
  }

  /** `global_grid_query` asks for all strikes of the interval, and for the cells with more than the threshold. */
  lemma GlobalGridQueryAsksFor(grid: Grid, interval: TimeInterval, countThreshold: int, intended: map<string, Param>,
                               spatial: Spatial, row: StrikeRow, count: int)
    requires WantsCells(intended, grid) && WantsInterval(intended, interval) && WantsThreshold(intended, countThreshold)
    ensures var q := GlobalGridQuery(grid, interval, countThreshold);
            && (PassesWhere(q, spatial, row) <==> Micros(interval.start) <= row.timestamp < Micros(interval.end))
            && (PassesHaving(q, spatial, row, count) <==> (countThreshold > 0 ==> count > countThreshold))
  {
    GlobalGridShape(grid, interval, countThreshold);
    GlobalGridSent(grid, interval, countThreshold, intended);
    GlobalGridMeaning(GlobalGridQuery(grid, interval, countThreshold), interval, countThreshold, spatial, row, count);
  }

  lemma GlobalGridSent(grid: Grid, interval: TimeInterval, countThreshold: int, intended: map<string, Param>)
    requires WantsCells(intended, grid) && WantsInterval(intended, interval) && WantsThreshold(intended, countThreshold)
    ensures var values := MapOf(GlobalGridQuery(grid, interval, countThreshold).params);
            WantsInterval(values, interval) && WantsThreshold(values, countThreshold)
  {
    var q := GlobalGridQuery(grid, interval, countThreshold);
    GlobalGridShape(grid, interval, countThreshold);
    GlobalGridAgrees(grid, interval, countThreshold, intended);
    IntervalSent(q, interval, intended);
    if countThreshold > 0 { SentValue(q, intended, "count_threshold", Int(countThreshold)); }
  }

  // ---------- histogram_query ----------

  lemma HistogramShape(interval: TimeInterval, binsize: int, region: Option<int>, envelope: Option<Grid>)
    ensures var q := HistogramQuery(interval, binsize, region, envelope);
            && q.conditions == TimeFilters() + RegionFilters(region) + HistogramFilter(envelope)
            && q.table == "strikes" && q.columns == HistogramColumns()
            && q.groups == ["interval"] && q.having == [] && q.order == ["interval"] && q.limit == None
            && {"start_time", "end_time"} <= q.Bound() && (region.Some? ==> "region" in q.Bound())
            && (envelope.Some? ==> {"envelope", "envelope_srid"} <= q.Bound())
  {
    var q := HistogramBins(interval, binsize);
    assert q.conditions + TimeFilters() == TimeFilters();
    assert q.groups + ["interval"] == ["interval"] && q.order + ["interval"] == ["interval"];
  }

  lemma HistogramSent(interval: TimeInterval, binsize: int, region: Option<int>, envelope: Option<Grid>,
                      intended: map<string, Param>)
    requires WantsInterval(intended, interval) && Wants(intended, "binsize", Int(binsize))
    requires WantsRegion(intended, region) && WantsEnvelope(intended, envelope)
    ensures var values := MapOf(HistogramQuery(interval, binsize, region, envelope).params);
            WantsInterval(values, interval) && WantsRegion(values, region) && WantsEnvelope(values, envelope)
  {
    var q := HistogramQuery(interval, binsize, region, envelope);
    HistogramShape(interval, binsize, region, envelope);
    HistogramAgrees(interval, binsize, region, envelope, intended);
    IntervalSent(q, interval, intended);
    RegionSent(q, region, intended);
    if envelope.Some? {
      SentValue(q, intended, "envelope", Bytea(envelope.value.envelope));
      SentValue(q, intended, "envelope_srid", Int(4326));
    }
  }

  lemma HistogramMeaning(q: Query, interval: TimeInterval, region: Option<int>, envelope: Option<Grid>, spatial: Spatial,
                         row: StrikeRow)
    requires q.conditions == TimeFilters() + RegionFilters(region) + HistogramFilter(envelope)
    requires var values := MapOf(q.params);
             WantsInterval(values, interval) && WantsRegion(values, region) && WantsEnvelope(values, envelope)
    ensures PassesWhere(q, spatial, row) <==>
            && Micros(interval.start) <= row.timestamp < Micros(interval.end)
            && (region.Some? ==> row.region == Wrap16(region.value))
            && (envelope.Some? ==> spatial.overlaps(envelope.value.envelope, 4326, row.x, row.y))
  {
    var values := MapOf(q.params);
    ThreeParts(TimeFilters(), RegionFilters(region), HistogramFilter(envelope), values, spatial, row);
    TimeMeaning(values, interval, spatial, row);
    RegionMeaning(values, region, spatial, row);
    if envelope.Some? { BoxMeaning(values, envelope.value.envelope, spatial, row); }
  }

  /** `histogram_query` asks for the strikes of the interval, of the region, whose position overlaps the envelope. */
  lemma HistogramQueryAsksFor(interval: TimeInterval, binsize: int, region: Option<int>, envelope: Option<Grid>,
                              intended: map<string, Param>, spatial: Spatial, row: StrikeRow)
    requires WantsInterval(intended, interval) && Wants(intended, "binsize", Int(binsize))
    requires WantsRegion(intended, region) && WantsEnvelope(intended, envelope)
    ensures PassesWhere(HistogramQuery(interval, binsize, region, envelope), spatial, row) <==>
            && Micros(interval.start) <= row.timestamp < Micros(interval.end)
            && (region.Some? ==> row.region == Wrap16(region.value))
            && (envelope.Some? ==> spatial.overlaps(envelope.value.envelope, 4326, row.x, row.y))
  {
    HistogramShape(interval, binsize, region, envelope);
    HistogramSent(interval, binsize, region, envelope, intended);
    HistogramMeaning(HistogramQuery(interval, binsize, region, envelope), interval, region, envelope, spatial, row);
  }
}
