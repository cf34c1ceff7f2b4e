/** The statement builders of `src/query.rs`: whatever the options, the statement sent to the server is the builder's
    text filled with the values of the request. */
module QueryBuilders {
  import opened Common
  import opened Instants
  import opened QueryFilters
  import opened QueryText
  import opened QueryStatements

  datatype Grid = Grid(xMin: real, yMin: real, xDiv: real, yDiv: real, envelope: seq<Byte>)

  datatype SelectColumns = Strike | StrikeKey

  datatype SelectOrder = ByTimestamp | ById | Unordered

  const DEFAULT_SRID: int := 4326

  // ---------- add_time_interval ----------

  function TimeFilters(): seq<Filter> {
    [Compare(Time, ">=", "start_time"), Compare(Time, "<", "end_time")]
  }

  function AddTimeInterval(q: Query, interval: TimeInterval): (r: Query)
    ensures r.Bound() == q.Bound() + {"start_time", "end_time"}
    ensures r == q.(conditions := q.conditions + TimeFilters(), params := r.params, casts := r.casts)
  {
    q.Condition(TimeFilters()[0]).Bind("start_time", Timestamp(interval.start)).Cast("start_time", "timestamptz")
     .Condition(TimeFilters()[1]).Bind("end_time", Timestamp(interval.end)).Cast("end_time", "timestamptz")
  }

  lemma TimeIntervalCovered(q: Query, interval: TimeInterval, names: set<string>)
    requires q.CoveredBy(names) && "start_time" in names && "end_time" in names
    ensures AddTimeInterval(q, interval).CoveredBy(names)
  {
    CompareCovered(Time, ">=", "start_time", names);
    CompareCovered(Time, "<", "end_time", names);
    ConditionCovered(q, TimeFilters()[0], names);
    var q1 := q.Condition(TimeFilters()[0]);
    BindCovered(q1, "start_time", Timestamp(interval.start), "timestamptz", names);
    var q2 := q1.Bind("start_time", Timestamp(interval.start)).Cast("start_time", "timestamptz");
    ConditionCovered(q2, TimeFilters()[1], names);
    BindCovered(q2.Condition(TimeFilters()[1]), "end_time", Timestamp(interval.end), "timestamptz", names);
  }

  ghost predicate WantsInterval(intended: map<string, Param>, interval: TimeInterval) {
    Wants(intended, "start_time", Timestamp(interval.start)) && Wants(intended, "end_time", Timestamp(interval.end))
  }

  lemma TimeIntervalAgrees(q: Query, interval: TimeInterval, intended: map<string, Param>)
    requires Agrees(q.params, intended) && WantsInterval(intended, interval)
    ensures Agrees(AddTimeInterval(q, interval).params, intended)
  {
  }

  // ---------- the region condition ----------

  function RegionFilters(region: Option<int>): seq<Filter> {
    if region.None? then [] else [Compare(Region, "=", "region")]
  }

  function AddRegion(q: Query, region: Option<int>): (r: Query)
    ensures r.Bound() == if region.Some? then q.Bound() + {"region"} else q.Bound()
    ensures r == q.(conditions := q.conditions + RegionFilters(region), params := r.params, casts := r.casts)
  {
    if region.None? then
      assert q.conditions + [] == q.conditions;
      q
    else q.Condition(RegionFilters(region)[0]).Bind("region", Int(region.value)).Cast("region", "smallint")
  }

  lemma RegionCovered(q: Query, region: Option<int>, names: set<string>)
    requires q.CoveredBy(names) && (region.Some? ==> "region" in names)
    ensures AddRegion(q, region).CoveredBy(names)
  {
    if region.Some? {
      CompareCovered(Region, "=", "region", names);
      ConditionCovered(q, RegionFilters(region)[0], names);
      BindCovered(q.Condition(RegionFilters(region)[0]), "region", Int(region.value), "smallint", names);
    }
  }

  ghost predicate WantsRegion(intended: map<string, Param>, region: Option<int>) {
    region.Some? ==> Wants(intended, "region", Int(region.value))
  }

  lemma RegionAgrees(q: Query, region: Option<int>, intended: map<string, Param>)
    requires Agrees(q.params, intended) && WantsRegion(intended, region)
    ensures Agrees(AddRegion(q, region).params, intended)
  {
  }

  // ---------- add_geometry ----------

  /** The SRID in a geometry condition: a literal for the default one, a placeholder otherwise. */
  function SridOf(defaultSrid: bool): Srid {
    if defaultSrid then Literal4326 else SridParam("srid")
  }

  /** The box of an area, and the geometry itself when it is not its own envelope. */
  function AreaFilters(area: Option<Area>, srid: Srid): seq<Filter> {
    if area.None? then []
    else if area.value.geometry.None? then [Overlaps("envelope", srid)]
    else [Overlaps("envelope", srid), Intersects("geometry", srid)]
  }

  function AddGeometry(q: Query, area: Area, defaultSrid: bool): (r: Query)
    ensures r.Bound() == q.Bound() + {"envelope"} + (if area.geometry.Some? then {"geometry"} else {})
    ensures r == q.(conditions := q.conditions + AreaFilters(Some(area), SridOf(defaultSrid)), params := r.params,
                    casts := r.casts)
  {
    var q1 := q.Condition(Overlaps("envelope", SridOf(defaultSrid))).Bind("envelope", Bytea(area.envelope));
    var q2 := if defaultSrid then q1 else q1.Cast("srid", "integer");
    if area.geometry.None? then q2
    else q2.Condition(Intersects("geometry", SridOf(defaultSrid))).Bind("geometry", Bytea(area.geometry.value))
  }

  lemma GeometryCovered(q: Query, area: Area, defaultSrid: bool, names: set<string>)
    requires q.CoveredBy(names) && "envelope" in names && (!defaultSrid ==> "srid" in names)
    requires area.geometry.Some? ==> "geometry" in names
    ensures AddGeometry(q, area, defaultSrid).CoveredBy(names)
  {
    var srid := SridOf(defaultSrid);
    BoxesCovered("envelope", srid, names);
    ConditionCovered(q, Overlaps("envelope", srid), names);
    var q1 := q.Condition(Overlaps("envelope", srid)).Bind("envelope", Bytea(area.envelope));
    var q2 := if defaultSrid then q1 else q1.Cast("srid", "integer");
    if area.geometry.Some? {
      IntersectsCovered("geometry", srid, names);
      ConditionCovered(q2, Intersects("geometry", srid), names);
    }
  }

  ghost predicate WantsArea(intended: map<string, Param>, area: Option<Area>) {
    area.Some? ==>
      && Wants(intended, "envelope", Bytea(area.value.envelope))
      && (area.value.geometry.Some? ==> Wants(intended, "geometry", Bytea(area.value.geometry.value)))
  }

  lemma GeometryAgrees(q: Query, area: Area, defaultSrid: bool, intended: map<string, Param>)
    requires Agrees(q.params, intended) && WantsArea(intended, Some(area))
    ensures Agrees(AddGeometry(q, area, defaultSrid).params, intended)
  {
  }

  /** `add_select_conditions` */
  function AddSelectConditions(q: Query, interval: TimeInterval, area: Option<Area>, region: Option<int>,
                               defaultSrid: bool): (r: Query)
    ensures q.Bound() + {"start_time", "end_time"} <= r.Bound()
    ensures region.Some? ==> "region" in r.Bound()
    ensures area.Some? ==> "envelope" in r.Bound() && (area.value.geometry.Some? ==> "geometry" in r.Bound())
    ensures r == q.(conditions := q.conditions + TimeFilters() + RegionFilters(region)
                                  + AreaFilters(area, SridOf(defaultSrid)),
                    params := r.params, casts := r.casts)
  {
    var q2 := AddRegion(AddTimeInterval(q, interval), region);
    if area.Some? then AddGeometry(q2, area.value, defaultSrid)
    else
      assert q2.conditions + [] == q2.conditions;
      q2
  }

  lemma SelectConditionsCovered(q: Query, interval: TimeInterval, area: Option<Area>, region: Option<int>,
                                defaultSrid: bool, names: set<string>)
    requires q.CoveredBy(names) && (!defaultSrid ==> "srid" in names)
    requires AddSelectConditions(q, interval, area, region, defaultSrid).Bound() <= names
    ensures AddSelectConditions(q, interval, area, region, defaultSrid).CoveredBy(names)
  {
    TimeIntervalCovered(q, interval, names);
    var q1 := AddTimeInterval(q, interval);
    RegionCovered(q1, region, names);
    if area.Some? {
      GeometryCovered(AddRegion(q1, region), area.value, defaultSrid, names);
    }
  }

  lemma SelectConditionsAgree(q: Query, interval: TimeInterval, area: Option<Area>, region: Option<int>,
                              defaultSrid: bool, intended: map<string, Param>)
    requires Agrees(q.params, intended)
    requires WantsInterval(intended, interval) && WantsRegion(intended, region) && WantsArea(intended, area)
    ensures Agrees(AddSelectConditions(q, interval, area, region, defaultSrid).params, intended)
  {
    TimeIntervalAgrees(q, interval, intended);
    RegionAgrees(AddTimeInterval(q, interval), region, intended);
    if area.Some? {
      GeometryAgrees(AddRegion(AddTimeInterval(q, interval), region), area.value, defaultSrid, intended);
    }
  }

  // ---------- select_query and strikes_query ----------

  function CoordinateColumn(f: string, alias: string, defaultSrid: bool): string {
    if defaultSrid then f + "(geog::geometry) AS " + alias
    else f + "(ST_Transform(geog::geometry, " + Place("srid") + (")) AS " + alias)
  }

  function SqlColumns(columns: SelectColumns, defaultSrid: bool): seq<string> {
    var x, y := CoordinateColumn("ST_X", "x", defaultSrid), CoordinateColumn("ST_Y", "y", defaultSrid);
    match columns
    case Strike => ["id", "\"timestamp\"", "nanoseconds", x, y, "altitude", "amplitude", "error2d", "stationcount"]
    case StrikeKey => ["\"timestamp\"", "nanoseconds", x, y, "error2d"]
  }

  lemma CoordinateCovered(f: string, alias: string, defaultSrid: bool, names: set<string>)
    requires PlainText(f) && PlainText(alias) && (!defaultSrid ==> "srid" in names)
    ensures Covers(CoordinateColumn(f, alias, defaultSrid), names)
  {
    if defaultSrid {
      PlainConcat(f, "(geog::geometry) AS ");
      PlainConcat(f + "(geog::geometry) AS ", alias);
      CoversPlain(f + "(geog::geometry) AS " + alias, names);
    } else {
      PlainConcat(f, "(ST_Transform(geog::geometry, ");
      PlainConcat(")) AS ", alias);
      CoversAround(f + "(ST_Transform(geog::geometry, ", "srid", ")) AS " + alias, names);
    }
  }

  lemma KeyNamesCovered(names: set<string>)
    ensures Covers("\"timestamp\"", names) && Covers("nanoseconds", names) && Covers("error2d", names)
  {
    CoversPlain("\"timestamp\"", names);
    CoversPlain("nanoseconds", names);
    CoversPlain("error2d", names);
  }

  lemma OtherNamesCovered(names: set<string>)
    ensures Covers("id", names) && Covers("altitude", names)
    ensures Covers("amplitude", names) && Covers("stationcount", names)
  {
    CoversPlain("id", names);
    CoversPlain("altitude", names);
    CoversPlain("amplitude", names);
    CoversPlain("stationcount", names);
  }

  lemma StrikeColumnsCovered(x: string, y: string, names: set<string>)
    requires Covers(x, names) && Covers(y, names)
    ensures AllCovered(["id", "\"timestamp\"", "nanoseconds", x, y, "altitude", "amplitude", "error2d", "stationcount"],
                       names)
  {
    KeyNamesCovered(names);
    OtherNamesCovered(names);
  }

  lemma KeyColumnsCovered(x: string, y: string, names: set<string>)
    requires Covers(x, names) && Covers(y, names)
    ensures AllCovered(["\"timestamp\"", "nanoseconds", x, y, "error2d"], names)
  {
    KeyNamesCovered(names);
  }

  lemma SqlColumnsCovered(columns: SelectColumns, defaultSrid: bool, names: set<string>)
    requires !defaultSrid ==> "srid" in names
    ensures AllCovered(SqlColumns(columns, defaultSrid), names)
  {
    var x, y := CoordinateColumn("ST_X", "x", defaultSrid), CoordinateColumn("ST_Y", "y", defaultSrid);
    CoordinateCovered("ST_X", "x", defaultSrid, names);
    CoordinateCovered("ST_Y", "y", defaultSrid, names);
    match columns
    case Strike => StrikeColumnsCovered(x, y, names);
    case StrikeKey => KeyColumnsCovered(x, y, names);
  }

  function ApplyOrder(order: SelectOrder, q: Query): (r: Query)
    ensures r.Bound() == q.Bound()
  {
    match order
    case ByTimestamp => q.OrderBy("\"timestamp\"", false).OrderBy("nanoseconds", false)
    case ById => q.OrderBy("id", false)
    case Unordered => q
  }

  lemma ApplyOrderCovered(order: SelectOrder, q: Query, names: set<string>)
    requires q.CoveredBy(names)
    ensures ApplyOrder(order, q).CoveredBy(names)
  {
    match order
    case ByTimestamp =>
      OrderCovered(q, "\"timestamp\"", names);
      OrderCovered(q.OrderBy("\"timestamp\"", false), "nanoseconds", names);
    case ById => OrderCovered(q, "id", names);
    case Unordered =>
  }

  function SelectProjection(srid: int, columns: SelectColumns): (q: Query)
    ensures srid != DEFAULT_SRID ==> "srid" in q.Bound()
    ensures q == NewQuery("strikes").(columns := SqlColumns(columns, srid == 4326), params := q.params, casts := q.casts)
  {
    var q := NewQuery("strikes").SetColumns(SqlColumns(columns, srid == DEFAULT_SRID));
    if srid == DEFAULT_SRID then q else q.Bind("srid", Int(srid)).Cast("srid", "integer")
  }

  function SelectQuery(interval: TimeInterval, area: Option<Area>, region: Option<int>, srid: int,
                       columns: SelectColumns, order: SelectOrder): Query
  {
    ApplyOrder(order, AddSelectConditions(SelectProjection(srid, columns), interval, area, region, srid == DEFAULT_SRID))
  }

  lemma SelectProjectionCovered(srid: int, columns: SelectColumns, names: set<string>)
    requires srid != DEFAULT_SRID ==> "srid" in names
    ensures SelectProjection(srid, columns).CoveredBy(names)
  {
    NewCovered(names);
    SqlColumnsCovered(columns, srid == DEFAULT_SRID, names);
    ColumnsCovered(NewQuery("strikes"), SqlColumns(columns, srid == DEFAULT_SRID), names);
  }

  lemma SelectQueryCovered(interval: TimeInterval, area: Option<Area>, region: Option<int>, srid: int,
                           columns: SelectColumns, order: SelectOrder)
    ensures var q := SelectQuery(interval, area, region, srid, columns, order);
            q.CoveredBy(q.Bound())
  {
    var q0 := SelectProjection(srid, columns);
    var q1 := AddSelectConditions(q0, interval, area, region, srid == DEFAULT_SRID);
    var names := q1.Bound();
    SelectProjectionCovered(srid, columns, names);
    SelectConditionsCovered(q0, interval, area, region, srid == DEFAULT_SRID, names);
    ApplyOrderCovered(order, q1, names);
  }

  lemma SelectQueryAgrees(interval: TimeInterval, area: Option<Area>, region: Option<int>, srid: int,
                          columns: SelectColumns, order: SelectOrder, intended: map<string, Param>)
    requires WantsInterval(intended, interval) && WantsRegion(intended, region) && WantsArea(intended, area)
    requires Wants(intended, "srid", Int(srid))
    ensures Agrees(SelectQuery(interval, area, region, srid, columns, order).params, intended)
  {
    SelectConditionsAgree(SelectProjection(srid, columns), interval, area, region, srid == DEFAULT_SRID, intended);
  }

  /** `select_query` for every area, region, SRID, projection and order. */
  lemma SelectQuerySentAsMeant(interval: TimeInterval, area: Option<Area>, region: Option<int>, srid: int,
                               columns: SelectColumns, order: SelectOrder, intended: map<string, Param>)
    requires WantsInterval(intended, interval) && WantsRegion(intended, region) && WantsArea(intended, area)
    requires Wants(intended, "srid", Int(srid))
    ensures SentAsMeant(SelectQuery(interval, area, region, srid, columns, order), intended)
  {
    SelectQueryCovered(interval, area, region, srid, columns, order);
    SelectQueryAgrees(interval, area, region, srid, columns, order, intended);
    CoveredIsSentAsMeant(SelectQuery(interval, area, region, srid, columns, order), intended);
  }

  function IdFilters(startId: Option<int>): seq<Filter> {
    if startId.None? then [] else [Compare(Id, ">=", "start_id")]
  }

  function FromId(q: Query, startId: Option<int>): (r: Query)
    ensures r.Bound() == if startId.Some? then q.Bound() + {"start_id"} else q.Bound()
    ensures r == q.(conditions := q.conditions + IdFilters(startId), params := r.params, casts := r.casts)
  {
    if startId.None? then
      assert q.conditions + [] == q.conditions;
      q
    else q.Condition(IdFilters(startId)[0]).Bind("start_id", Int(startId.value)).Cast("start_id", "bigint")
  }

  lemma FromIdCovered(q: Query, startId: Option<int>, names: set<string>)
    requires q.CoveredBy(names) && (startId.Some? ==> "start_id" in names)
    ensures FromId(q, startId).CoveredBy(names)
  {
    if startId.Some? {
      CompareCovered(Id, ">=", "start_id", names);
      ConditionCovered(q, IdFilters(startId)[0], names);
      BindCovered(q.Condition(IdFilters(startId)[0]), "start_id", Int(startId.value), "bigint", names);
    }
  }

  function StrikesQuery(interval: TimeInterval, startId: Option<int>): Query {
    FromId(AddTimeInterval(SelectProjection(DEFAULT_SRID, Strike), interval), startId).OrderBy("id", false)
  }

  lemma StrikesQueryCovered(interval: TimeInterval, startId: Option<int>)
    ensures var q := StrikesQuery(interval, startId); q.CoveredBy(q.Bound())
  {
    var q0 := SelectProjection(DEFAULT_SRID, Strike);
    var q1 := AddTimeInterval(q0, interval);
    var q2 := FromId(q1, startId);
    SelectProjectionCovered(DEFAULT_SRID, Strike, q2.Bound());
    TimeIntervalCovered(q0, interval, q2.Bound());
    FromIdCovered(q1, startId, q2.Bound());
    OrderCovered(q2, "id", q2.Bound());
  }

  lemma StrikesQueryAgrees(interval: TimeInterval, startId: Option<int>, intended: map<string, Param>)
    requires WantsInterval(intended, interval) && (startId.Some? ==> Wants(intended, "start_id", Int(startId.value)))
    ensures Agrees(StrikesQuery(interval, startId).params, intended)
  {
    TimeIntervalAgrees(SelectProjection(DEFAULT_SRID, Strike), interval, intended);
  }

  /** `strikes_query` with and without a first id. */
  lemma StrikesQuerySentAsMeant(interval: TimeInterval, startId: Option<int>, intended: map<string, Param>)
    requires WantsInterval(intended, interval) && (startId.Some? ==> Wants(intended, "start_id", Int(startId.value)))
    ensures SentAsMeant(StrikesQuery(interval, startId), intended)
  {
    StrikesQueryCovered(interval, startId);
    StrikesQueryAgrees(interval, startId, intended);
    CoveredIsSentAsMeant(StrikesQuery(interval, startId), intended);
  }

  // ---------- grid_query and global_grid_query ----------

  function GridX(): string {
    "TRUNC((ST_X(geog::geometry) - " + Place("xmin") + ") / " + (Place("xdiv") + ")::integer AS rx")
  }

  function GridY(): string {
    "TRUNC((ST_Y(geog::geometry) - " + Place("ymin") + ") / " + (Place("ydiv") + ")::integer AS ry")
  }

  function GlobalX(): string {
    "ROUND((ST_X(geog::geometry) - " + Place("xdiv") + " * 0.5) / " + (Place("xdiv") + ")::integer AS rx")
  }

  function GlobalY(): string {
    "ROUND((ST_Y(geog::geometry) - " + Place("ydiv") + " * 0.5) / " + (Place("ydiv") + ")::integer AS ry")
  }

  function CellColumns(x: string, y: string): seq<string> {
    [x, y, "count(*) AS strike_count", "max(\"timestamp\") as \"timestamp\""]
  }

  lemma CellColumnsCovered(x: string, y: string, names: set<string>)
    requires Covers(x, names) && Covers(y, names)
    ensures AllCovered(CellColumns(x, y), names)
  {
    CoversPlain("count(*) AS strike_count", names);
    CoversPlain("max(\"timestamp\") as \"timestamp\"", names);
  }

  lemma GridXYCovered(names: set<string>)
    requires {"xmin", "xdiv", "ymin", "ydiv"} <= names
    ensures Covers(GridX(), names) && Covers(GridY(), names)
  {
    CoversTwo("TRUNC((ST_X(geog::geometry) - ", "xmin", ") / ", "xdiv", ")::integer AS rx", names);
    CoversTwo("TRUNC((ST_Y(geog::geometry) - ", "ymin", ") / ", "ydiv", ")::integer AS ry", names);
  }

  lemma GlobalXYCovered(names: set<string>)
    requires {"xdiv", "ydiv"} <= names
    ensures Covers(GlobalX(), names) && Covers(GlobalY(), names)
  {
    CoversTwo("ROUND((ST_X(geog::geometry) - ", "xdiv", " * 0.5) / ", "xdiv", ")::integer AS rx", names);
    CoversTwo("ROUND((ST_Y(geog::geometry) - ", "ydiv", " * 0.5) / ", "ydiv", ")::integer AS ry", names);
  }

  function ThresholdFilters(countThreshold: int): seq<Filter> {
    if countThreshold <= 0 then [] else [Compare(Count, ">", "count_threshold")]
  }

  /** The cells of a grid, only those above the threshold when there is one. */
  function GroupCells(q: Query, countThreshold: int): (r: Query)
    ensures r.Bound() == if countThreshold > 0 then q.Bound() + {"count_threshold"} else q.Bound()
    ensures r == q.(groups := q.groups + ["rx", "ry"], having := q.having + ThresholdFilters(countThreshold),
                    params := r.params, casts := r.casts)
  {
    var q1 := q.GroupBy("rx").GroupBy("ry");
    if countThreshold <= 0 then
      assert q.having + [] == q.having;
      q1
    else
      q1.GroupHaving(ThresholdFilters(countThreshold)[0], "count_threshold", Int(countThreshold))
        .Cast("count_threshold", "bigint")
  }

  lemma GroupCellsCovered(q: Query, countThreshold: int, names: set<string>)
    requires q.CoveredBy(names) && (countThreshold > 0 ==> "count_threshold" in names)
    ensures GroupCells(q, countThreshold).CoveredBy(names)
  {
    GroupCovered(q, "rx", names);
    GroupCovered(q.GroupBy("rx"), "ry", names);
    if countThreshold > 0 {
      CompareCovered(Count, ">", "count_threshold", names);
      HavingCovered(q.GroupBy("rx").GroupBy("ry"), ThresholdFilters(countThreshold)[0], "count_threshold",
                    Int(countThreshold), names);
    }
  }

  function GridEnvelope(): Filter {
    Overlaps("envelope", SridParam("envelope_srid"))
  }

  function BindGrid(q: Query, grid: Grid): (r: Query)
    ensures {"xmin", "xdiv", "ymin", "ydiv"} <= r.Bound()
    ensures r == q.(params := r.params, casts := r.casts)
  {
    q.Bind("xmin", Float(grid.xMin)).Cast("xmin", "double precision")
     .Bind("xdiv", Float(grid.xDiv)).Cast("xdiv", "double precision")
     .Bind("ymin", Float(grid.yMin)).Cast("ymin", "double precision")
     .Bind("ydiv", Float(grid.yDiv)).Cast("ydiv", "double precision")
  }

  function BindEnvelope(q: Query, grid: Grid): (r: Query)
    ensures q.Bound() + {"envelope", "envelope_srid"} <= r.Bound()
    ensures r == q.Condition(GridEnvelope()).(params := r.params, casts := r.casts)
  {
    q.Condition(GridEnvelope()).Bind("envelope", Bytea(grid.envelope))
     .Bind("envelope_srid", Int(4326)).Cast("envelope_srid", "integer")
  }

  function GridCells(grid: Grid): (q: Query)
    ensures {"xmin", "xdiv", "ymin", "ydiv", "envelope", "envelope_srid"} <= q.Bound()
  {
    BindEnvelope(BindGrid(NewQuery("strikes").SetColumns(CellColumns(GridX(), GridY())), grid), grid)
  }

  lemma BindGridCovered(q: Query, grid: Grid, names: set<string>)
    requires q.CoveredBy(names)
    ensures BindGrid(q, grid).CoveredBy(names)
  {
    BindCovered(q, "xmin", Float(grid.xMin), "double precision", names);
    var q1 := q.Bind("xmin", Float(grid.xMin)).Cast("xmin", "double precision");
    BindCovered(q1, "xdiv", Float(grid.xDiv), "double precision", names);
    var q2 := q1.Bind("xdiv", Float(grid.xDiv)).Cast("xdiv", "double precision");
    BindCovered(q2, "ymin", Float(grid.yMin), "double precision", names);
    var q3 := q2.Bind("ymin", Float(grid.yMin)).Cast("ymin", "double precision");
    BindCovered(q3, "ydiv", Float(grid.yDiv), "double precision", names);
  }

  lemma BindEnvelopeCovered(q: Query, grid: Grid, names: set<string>)
    requires q.CoveredBy(names) && "envelope" in names && "envelope_srid" in names
    ensures BindEnvelope(q, grid).CoveredBy(names)
  {
    BoxesCovered("envelope", SridParam("envelope_srid"), names);
    ConditionCovered(q, GridEnvelope(), names);
  }

  lemma GridCellsCovered(grid: Grid, names: set<string>)
    requires {"xmin", "xdiv", "ymin", "ydiv", "envelope", "envelope_srid"} <= names
    ensures GridCells(grid).CoveredBy(names)
  {
    var q := NewQuery("strikes").SetColumns(CellColumns(GridX(), GridY()));
    NewCovered(names);
    GridXYCovered(names);
    CellColumnsCovered(GridX(), GridY(), names);
    ColumnsCovered(NewQuery("strikes"), CellColumns(GridX(), GridY()), names);
    BindGridCovered(q, grid, names);
    BindEnvelopeCovered(BindGrid(q, grid), grid, names);
  }

  function GridFilters(q: Query, interval: TimeInterval, region: Option<int>, countThreshold: int): (r: Query)
    ensures q.Bound() <= r.Bound()
  {
    GroupCells(AddRegion(AddTimeInterval(q, interval), region), countThreshold)
  }

  lemma GridFiltersCovered(q: Query, interval: TimeInterval, region: Option<int>, countThreshold: int,
                           names: set<string>)
    requires q.CoveredBy(names) && GridFilters(q, interval, region, countThreshold).Bound() <= names
    ensures GridFilters(q, interval, region, countThreshold).CoveredBy(names)
  {
    TimeIntervalCovered(q, interval, names);
    RegionCovered(AddTimeInterval(q, interval), region, names);
    GroupCellsCovered(AddRegion(AddTimeInterval(q, interval), region), countThreshold, names);
  }

  function GridQuery(grid: Grid, interval: TimeInterval, region: Option<int>, countThreshold: int): Query {
    GridFilters(GridCells(grid), interval, region, countThreshold)
  }

  lemma GridQueryCovered(grid: Grid, interval: TimeInterval, region: Option<int>, countThreshold: int)
    ensures var q := GridQuery(grid, interval, region, countThreshold); q.CoveredBy(q.Bound())
  {
    var names := GridQuery(grid, interval, region, countThreshold).Bound();
    GridCellsCovered(grid, names);
    GridFiltersCovered(GridCells(grid), interval, region, countThreshold, names);
  }

  ghost predicate WantsCells(intended: map<string, Param>, grid: Grid) {
    Wants(intended, "xdiv", Float(grid.xDiv)) && Wants(intended, "ydiv", Float(grid.yDiv))
  }

  ghost predicate WantsGrid(intended: map<string, Param>, grid: Grid) {
    && WantsCells(intended, grid)
    && Wants(intended, "xmin", Float(grid.xMin)) && Wants(intended, "ymin", Float(grid.yMin))
    && Wants(intended, "envelope", Bytea(grid.envelope)) && Wants(intended, "envelope_srid", Int(DEFAULT_SRID))
  }

  ghost predicate WantsThreshold(intended: map<string, Param>, countThreshold: int) {
    countThreshold > 0 ==> Wants(intended, "count_threshold", Int(countThreshold))
  }

  lemma GroupCellsAgree(q: Query, countThreshold: int, intended: map<string, Param>)
    requires Agrees(q.params, intended) && WantsThreshold(intended, countThreshold)
    ensures Agrees(GroupCells(q, countThreshold).params, intended)
  {
  }

  lemma BindGridAgrees(q: Query, grid: Grid, intended: map<string, Param>)
    requires Agrees(q.params, intended) && WantsGrid(intended, grid)
    ensures Agrees(BindGrid(q, grid).params, intended)
  {
  }

  lemma BindEnvelopeAgrees(q: Query, grid: Grid, intended: map<string, Param>)
    requires Agrees(q.params, intended) && WantsGrid(intended, grid)
    ensures Agrees(BindEnvelope(q, grid).params, intended)
  {
  }

  lemma GridCellsAgree(grid: Grid, intended: map<string, Param>)
    requires WantsGrid(intended, grid)
    ensures Agrees(GridCells(grid).params, intended)
  {
    var q := NewQuery("strikes").SetColumns(CellColumns(GridX(), GridY()));
    BindGridAgrees(q, grid, intended);
    BindEnvelopeAgrees(BindGrid(q, grid), grid, intended);
  }

  lemma GridFiltersAgree(q: Query, interval: TimeInterval, region: Option<int>, countThreshold: int,
                         intended: map<string, Param>)
    requires Agrees(q.params, intended)
    requires WantsInterval(intended, interval) && WantsRegion(intended, region) && WantsThreshold(intended, countThreshold)
    ensures Agrees(GridFilters(q, interval, region, countThreshold).params, intended)
  {
    TimeIntervalAgrees(q, interval, intended);
    RegionAgrees(AddTimeInterval(q, interval), region, intended);
    GroupCellsAgree(AddRegion(AddTimeInterval(q, interval), region), countThreshold, intended);
  }

  /** `grid_query` for every region and threshold. */
  lemma GridQuerySentAsMeant(grid: Grid, interval: TimeInterval, region: Option<int>, countThreshold: int,
                             intended: map<string, Param>)
    requires WantsGrid(intended, grid) && WantsThreshold(intended, countThreshold)
    requires WantsInterval(intended, interval) && WantsRegion(intended, region)
    ensures SentAsMeant(GridQuery(grid, interval, region, countThreshold), intended)
  {
    GridQueryCovered(grid, interval, region, countThreshold);
    GridCellsAgree(grid, intended);
    GridFiltersAgree(GridCells(grid), interval, region, countThreshold, intended);
    CoveredIsSentAsMeant(GridQuery(grid, interval, region, countThreshold), intended);
  }

  function GlobalGridCells(grid: Grid): (q: Query)
    ensures {"xdiv", "ydiv"} <= q.Bound()
  {
    NewQuery("strikes").SetColumns(CellColumns(GlobalX(), GlobalY()))
    .Bind("xdiv", Float(grid.xDiv)).Cast("xdiv", "double precision")
    .Bind("ydiv", Float(grid.yDiv)).Cast("ydiv", "double precision")
  }

  lemma GlobalGridCellsCovered(grid: Grid, names: set<string>)
    requires GlobalGridCells(grid).Bound() <= names
    ensures GlobalGridCells(grid).CoveredBy(names)
  {
    NewCovered(names);
    GlobalXYCovered(names);
    CellColumnsCovered(GlobalX(), GlobalY(), names);
    ColumnsCovered(NewQuery("strikes"), CellColumns(GlobalX(), GlobalY()), names);
  }

  function GlobalGridQuery(grid: Grid, interval: TimeInterval, countThreshold: int): Query {
    GroupCells(AddTimeInterval(GlobalGridCells(grid), interval), countThreshold)
  }

  lemma GlobalGridQueryCovered(grid: Grid, interval: TimeInterval, countThreshold: int)
    ensures var q := GlobalGridQuery(grid, interval, countThreshold); q.CoveredBy(q.Bound())
  {
    var q0 := GlobalGridCells(grid);
    var q1 := AddTimeInterval(q0, interval);
    var names := GroupCells(q1, countThreshold).Bound();
    GlobalGridCellsCovered(grid, names);
    TimeIntervalCovered(q0, interval, names);
    GroupCellsCovered(q1, countThreshold, names);
  }

  lemma GlobalGridAgrees(grid: Grid, interval: TimeInterval, countThreshold: int, intended: map<string, Param>)
    requires WantsCells(intended, grid) && WantsInterval(intended, interval) && WantsThreshold(intended, countThreshold)
    ensures Agrees(GlobalGridQuery(grid, interval, countThreshold).params, intended)
  {
    assert Agrees(GlobalGridCells(grid).params, intended);
    TimeIntervalAgrees(GlobalGridCells(grid), interval, intended);
    GroupCellsAgree(AddTimeInterval(GlobalGridCells(grid), interval), countThreshold, intended);
  }

  /** `global_grid_query` for every threshold. */
  lemma GlobalGridQuerySentAsMeant(grid: Grid, interval: TimeInterval, countThreshold: int,
                                   intended: map<string, Param>)
    requires WantsCells(intended, grid) && WantsInterval(intended, interval) && WantsThreshold(intended, countThreshold)
    ensures SentAsMeant(GlobalGridQuery(grid, interval, countThreshold), intended)
  {
    GlobalGridQueryCovered(grid, interval, countThreshold);
    GlobalGridAgrees(grid, interval, countThreshold, intended);
    CoveredIsSentAsMeant(GlobalGridQuery(grid, interval, countThreshold), intended);
  }

  // ---------- histogram_query ----------

  function HistogramColumns(): seq<string> {
    ["-extract( epoch from " + Place("end_time") + " - \"timestamp\")::int/60/" + (Place("binsize") + " as interval"),
     "count(*)"]
  }

  function HistogramFilter(envelope: Option<Grid>): seq<Filter> {
    if envelope.None? then [] else [CastOverlaps("envelope", SridParam("envelope_srid"))]
  }

  function HistogramBins(interval: TimeInterval, binsize: int): (q: Query)
    ensures {"end_time", "binsize"} <= q.Bound()
  {
    NewQuery("strikes").SetColumns(HistogramColumns())
    .Bind("end_time", Timestamp(interval.end)).Cast("end_time", "timestamptz")
    .Bind("binsize", Int(binsize)).Cast("binsize", "integer")
  }

  function HistogramArea(q: Query, envelope: Option<Grid>): (r: Query)
    ensures q.Bound() <= r.Bound() && (envelope.Some? ==> {"envelope", "envelope_srid"} <= r.Bound())
    ensures r == q.(conditions := q.conditions + HistogramFilter(envelope), params := r.params, casts := r.casts)
  {
    if envelope.None? then
      assert q.conditions + [] == q.conditions;
      q
    else
      q.Condition(HistogramFilter(envelope)[0]).Bind("envelope", Bytea(envelope.value.envelope)).Cast("envelope", "bytea")
       .Bind("envelope_srid", Int(4326)).Cast("envelope_srid", "integer")
  }

  lemma HistogramAreaCovered(q: Query, envelope: Option<Grid>, names: set<string>)
    requires q.CoveredBy(names) && HistogramArea(q, envelope).Bound() <= names
    ensures HistogramArea(q, envelope).CoveredBy(names)
  {
    if envelope.Some? {
      var filter := CastOverlaps("envelope", SridParam("envelope_srid"));
      assert "envelope" in names && "envelope_srid" in names;
      BoxesCovered("envelope", SridParam("envelope_srid"), names);
      ConditionCovered(q, filter, names);
      BindCovered(q.Condition(filter), "envelope", Bytea(envelope.value.envelope), "bytea", names);
      var q1 := q.Condition(filter).Bind("envelope", Bytea(envelope.value.envelope)).Cast("envelope", "bytea");
      BindCovered(q1, "envelope_srid", Int(4326), "integer", names);
    }
  }

  lemma HistogramColumnsCovered(names: set<string>)
    requires {"end_time", "binsize"} <= names
    ensures AllCovered(HistogramColumns(), names)
  {
    CoversTwo("-extract( epoch from ", "end_time", " - \"timestamp\")::int/60/", "binsize", " as interval", names);
    CoversPlain("count(*)", names);
  }

  lemma HistogramBinsCovered(interval: TimeInterval, binsize: int, names: set<string>)
    requires {"end_time", "binsize"} <= names
    ensures HistogramBins(interval, binsize).CoveredBy(names)
  {
    NewCovered(names);
    HistogramColumnsCovered(names);
    ColumnsCovered(NewQuery("strikes"), HistogramColumns(), names);
    var q := NewQuery("strikes").SetColumns(HistogramColumns());
    BindCovered(q, "end_time", Timestamp(interval.end), "timestamptz", names);
    var q1 := q.Bind("end_time", Timestamp(interval.end)).Cast("end_time", "timestamptz");
    BindCovered(q1, "binsize", Int(binsize), "integer", names);
  }

  function ByInterval(q: Query): (r: Query)
    ensures r.Bound() == q.Bound()
  {
    q.GroupBy("interval").OrderBy("interval", false)
  }

  lemma ByIntervalCovered(q: Query, names: set<string>)
    requires q.CoveredBy(names)
    ensures ByInterval(q).CoveredBy(names)
  {
    GroupCovered(q, "interval", names);
    OrderCovered(q.GroupBy("interval"), "interval", names);
  }

  function HistogramFilters(q: Query, interval: TimeInterval, region: Option<int>): (r: Query)
    ensures q.Bound() <= r.Bound()
  {
    AddRegion(ByInterval(AddTimeInterval(q, interval)), region)
  }

  lemma HistogramFiltersCovered(q: Query, interval: TimeInterval, region: Option<int>, names: set<string>)
    requires q.CoveredBy(names) && HistogramFilters(q, interval, region).Bound() <= names
    ensures HistogramFilters(q, interval, region).CoveredBy(names)
  {
    TimeIntervalCovered(q, interval, names);
    ByIntervalCovered(AddTimeInterval(q, interval), names);
    RegionCovered(ByInterval(AddTimeInterval(q, interval)), region, names);
  }

  function HistogramQuery(interval: TimeInterval, binsize: int, region: Option<int>, envelope: Option<Grid>): Query {
    HistogramArea(HistogramFilters(HistogramBins(interval, binsize), interval, region), envelope)
  }

  lemma HistogramQueryCovered(interval: TimeInterval, binsize: int, region: Option<int>, envelope: Option<Grid>)
    ensures var q := HistogramQuery(interval, binsize, region, envelope); q.CoveredBy(q.Bound())
  {
    var names := HistogramQuery(interval, binsize, region, envelope).Bound();
    HistogramBinsCovered(interval, binsize, names);
    HistogramFiltersCovered(HistogramBins(interval, binsize), interval, region, names);
    HistogramAreaCovered(HistogramFilters(HistogramBins(interval, binsize), interval, region), envelope, names);
  }

  ghost predicate WantsEnvelope(intended: map<string, Param>, envelope: Option<Grid>) {
    envelope.Some? ==>
      Wants(intended, "envelope", Bytea(envelope.value.envelope)) && Wants(intended, "envelope_srid", Int(DEFAULT_SRID))
  }

  lemma HistogramBinsAgree(interval: TimeInterval, binsize: int, intended: map<string, Param>)
    requires WantsInterval(intended, interval) && Wants(intended, "binsize", Int(binsize))
    ensures Agrees(HistogramBins(interval, binsize).params, intended)
  {
  }

  lemma HistogramFiltersAgree(q: Query, interval: TimeInterval, region: Option<int>, intended: map<string, Param>)
    requires Agrees(q.params, intended) && WantsInterval(intended, interval) && WantsRegion(intended, region)
    ensures Agrees(HistogramFilters(q, interval, region).params, intended)
  {
    TimeIntervalAgrees(q, interval, intended);
    RegionAgrees(ByInterval(AddTimeInterval(q, interval)), region, intended);
  }

  lemma HistogramAreaAgrees(q: Query, envelope: Option<Grid>, intended: map<string, Param>)
    requires Agrees(q.params, intended) && WantsEnvelope(intended, envelope)
    ensures Agrees(HistogramArea(q, envelope).params, intended)
  {
  }

  lemma HistogramAgrees(interval: TimeInterval, binsize: int, region: Option<int>, envelope: Option<Grid>,
                        intended: map<string, Param>)
    requires WantsInterval(intended, interval) && Wants(intended, "binsize", Int(binsize))
    requires WantsRegion(intended, region) && WantsEnvelope(intended, envelope)
    ensures Agrees(HistogramQuery(interval, binsize, region, envelope).params, intended)
  {
    var q := HistogramBins(interval, binsize);
    HistogramBinsAgree(interval, binsize, intended);
    HistogramFiltersAgree(q, interval, region, intended);
    HistogramAreaAgrees(HistogramFilters(q, interval, region), envelope, intended);
  }

  /** `histogram_query` for every region and envelope. */
  lemma HistogramQuerySentAsMeant(interval: TimeInterval, binsize: int, region: Option<int>, envelope: Option<Grid>,
                                  intended: map<string, Param>)
    requires WantsInterval(intended, interval) && Wants(intended, "binsize", Int(binsize))
    requires WantsRegion(intended, region) && WantsEnvelope(intended, envelope)
    ensures SentAsMeant(HistogramQuery(interval, binsize, region, envelope), intended)
  {
    HistogramQueryCovered(interval, binsize, region, envelope);
    HistogramAgrees(interval, binsize, region, envelope, intended);
    CoveredIsSentAsMeant(HistogramQuery(interval, binsize, region, envelope), intended);
  }
}
