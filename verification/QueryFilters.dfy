/** The conditions the statement builders of `src/query.rs` write: their text, and what it means for a stored strike. */
module QueryFilters {
  import opened Common
  import opened Instants

  /** `%(name)s` */
  function Place(name: string): string {
    "%(" + name + ")s"
  }

  /** A stored strike, with its instant in microseconds, and where it is. */
  datatype StrikeRow = StrikeRow(id: int, timestamp: int, region: int, x: real, y: real)

  /** The server's tests of a WKB in an SRID against a position: of its box, and of itself when the position is
      transformed to an SRID or left as it is stored. */
  datatype Spatial = Spatial(overlaps: (seq<Byte>, int, real, real) -> bool,
                             intersects: (seq<Byte>, int, Option<int>, real, real) -> bool)

  datatype Column = Time | Region | Id | Count {
    function Text(): string {
      match this
      case Time => "\"timestamp\""
      case Region => "region"
      case Id => "id"
      case Count => "count(*)"
    }
  }

  /** The SRID of a geometry: the default one written out, or a placeholder. */
  datatype Srid = Literal4326 | SridParam(name: string) {
    function Text(): string {
      if Literal4326? then "4326" else Place(name)
    }

    function Value(values: map<string, Param>): Option<int> {
      if Literal4326? then Some(4326) else IntOf(values, name)
    }
  }

  /** A condition; `op` is the operator as it is written. */
  datatype Filter =
    | Compare(column: Column, op: string, name: string)
    | Overlaps(name: string, srid: Srid)
    | CastOverlaps(name: string, srid: Srid)
    | Intersects(name: string, srid: Srid)
  {
    function Text(): string {
      match this
      case Compare(column, op, name) => (column.Text() + " " + op + " ") + Place(name)
      case Overlaps(name, srid) => ("ST_GeomFromWKB(" + Place(name) + ", ") + srid.Text() + ") && geog"
      case CastOverlaps(name, srid) => ("ST_SetSRID(CAST(" + Place(name) + " AS geometry), ") + srid.Text() + ") && geog"
      case Intersects(name, srid) =>
        ("ST_Intersects(ST_GeomFromWKB(" + Place(name) + ", ") + srid.Text() + "), " + Position(srid) + ")"
    }
  }

  /** The stored position, in the SRID of the geometry it is tested against. */
  function Position(srid: Srid): string {
    if srid.Literal4326? then "geog" else "ST_Transform(geog::geometry, " + srid.Text() + ")"
  }

  // ---------- what a condition means ----------

  function IntOf(values: map<string, Param>, name: string): Option<int> {
    if name in values && values[name].Int? then Some(values[name].i) else None
  }

  function BytesOf(values: map<string, Param>, name: string): Option<seq<Byte>> {
    if name in values && values[name].Bytea? then Some(values[name].bytes) else None
  }

  /** The operators of SQL. */
  predicate Related(op: string, a: int, b: int) {
    if op == ">=" then a >= b
    else if op == "<" then a < b
    else if op == ">" then a > b
    else op == "=" && a == b
  }

  /** What a column is compared with: instants in microseconds; integers as the driver sends them for the column. */
  function Compared(column: Column, values: map<string, Param>, name: string): Option<int> {
    match column
    case Time =>
      if name in values && values[name].Timestamp? then Some(Micros(values[name].t)) else None
    case Region =>
      var i := IntOf(values, name);
      if i.Some? then Some(Wrap16(i.value)) else None
    case _ => IntOf(values, name)
  }

  function Field(column: Column, row: StrikeRow, count: int): int {
    match column
    case Time => row.timestamp
    case Region => row.region
    case Id => row.id
    case Count => count
  }

  predicate BoxOverlaps(values: map<string, Param>, name: string, srid: Srid, spatial: Spatial, row: StrikeRow) {
    var bytes, id := BytesOf(values, name), srid.Value(values);
    bytes.Some? && id.Some? && spatial.overlaps(bytes.value, Wrap32(id.value), row.x, row.y)
  }

  /** Whether a strike, or a group of `count` strikes, passes a condition with the values of its placeholders. */
  predicate Holds(f: Filter, values: map<string, Param>, spatial: Spatial, row: StrikeRow, count: int) {
    match f
    case Compare(column, op, name) =>
      var value := Compared(column, values, name);
      value.Some? && Related(op, Field(column, row, count), value.value)
    case Overlaps(name, srid) => BoxOverlaps(values, name, srid, spatial, row)
    case CastOverlaps(name, srid) => BoxOverlaps(values, name, srid, spatial, row)
    case Intersects(name, srid) =>
      var bytes, id := BytesOf(values, name), srid.Value(values);
      && bytes.Some? && id.Some?
      && spatial.intersects(bytes.value, Wrap32(id.value), if srid.Literal4326? then None else Some(Wrap32(id.value)),
                            row.x, row.y)
  }

  predicate AllHold(filters: seq<Filter>, values: map<string, Param>, spatial: Spatial, row: StrikeRow, count: int) {
    forall i :: 0 <= i < |filters| ==> Holds(filters[i], values, spatial, row, count)
  }

  lemma AllHoldBoth(a: seq<Filter>, b: seq<Filter>, values: map<string, Param>, spatial: Spatial, row: StrikeRow,
                    count: int)
    ensures AllHold(a + b, values, spatial, row, count) <==>
            AllHold(a, values, spatial, row, count) && AllHold(b, values, spatial, row, count)
  {
    assert forall i :: 0 <= i < |a| ==> (a + b)[i] == a[i];
    assert forall i :: 0 <= i < |b| ==> (a + b)[|a| + i] == b[i];
  }

  lemma AllHoldOne(f: Filter, values: map<string, Param>, spatial: Spatial, row: StrikeRow, count: int)
    ensures AllHold([f], values, spatial, row, count) <==> Holds(f, values, spatial, row, count)
  {
    assert [f][0] == f;
  }

  function Texts(filters: seq<Filter>): (texts: seq<string>)
    ensures |texts| == |filters| && forall i :: 0 <= i < |filters| ==> texts[i] == filters[i].Text()
  {
    seq(|filters|, i requires 0 <= i < |filters| => filters[i].Text())
  }
}
