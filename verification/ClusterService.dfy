/** The cluster endpoints of `src/service.rs`: the anchor of a request is the newest stored cluster, and the answer
    reports it. */
module ClusterService {
  import opened Common
  import opened Instants
  import opened ClusterQueries

  const MAX_MINUTES_PER_DAY: int := 1440
  const DEFAULT_MINUTE_LENGTH: int := 60
  const NANOS_PER_MINUTE: int := 60_000_000_000
  const SRID: int := 4326

  /** Why a request gets no answer: too many bound values, or an instant outside the calendar, where the source
      panics. */
  datatype QueryError = TooManyParameters | Overflow

  // ---------- the table ----------

  /** The rows a statement returns, within the parameter limit of the server. */
  function Query(table: seq<ClusterRow>, spatial: Spatial, q: ClusterQuery): Result<seq<ClusterRow>, QueryError> {
    if |q.params| > MAX_PARAMETERS then Err(TooManyParameters) else Ok(Where(table, spatial, q))
  }

  function Where(table: seq<ClusterRow>, spatial: Spatial, q: ClusterQuery): (rows: seq<ClusterRow>)
    ensures forall r :: r in rows <==> r in table && Selects(q, spatial, r)
  {
    if table == [] then []
    else
      var last := table[|table| - 1];
      var before := Where(table[..|table| - 1], spatial, q);
      assert forall r :: r in table <==> r in table[..|table| - 1] || r == last;
      if Selects(q, spatial, last) then before + [last] else before
  }

  /** `ORDER BY "timestamp" DESC LIMIT 1`: the newest timestamp of the rows. */
  function Newest(rows: seq<ClusterRow>): (t: Option<int>)
    ensures t.None? <==> rows == []
    ensures t.Some? ==> exists r :: r in rows && r.timestamp == t.value
    ensures t.Some? ==> forall r :: r in rows ==> r.timestamp <= t.value
  {
    if rows == [] then None
    else
      var last := rows[|rows| - 1];
      var before := Newest(rows[..|rows| - 1]);
      assert last in rows && forall r :: r in rows <==> r in rows[..|rows| - 1] || r == last;
      if before.Some? && before.value >= last.timestamp then before else Some(last.timestamp)
  }

  // ---------- select_clusters ----------

  /** `saturating_mul` of two 64-bit values. */
  function SaturatingMul(a: int, b: int): int {
    var p := a * b;
    if p > 0x7FFF_FFFF_FFFF_FFFF then 0x7FFF_FFFF_FFFF_FFFF
    else if p < -0x8000_0000_0000_0000 then -0x8000_0000_0000_0000
    else p
  }

  /** How far back a stored cluster may be: the requested slots, at most a day. */
  function Lookback(seconds: int, count: int): int {
    var wanted := SaturatingMul(seconds, count);
    (if wanted < MAX_MINUTES_PER_DAY * 60 then wanted else MAX_MINUTES_PER_DAY * 60) * NANOS_PER_SECOND
  }

  /** A stored cluster of a length, between two instants, in the area. */
  ghost predicate Eligible(spatial: Spatial, timestamp: int, noEarlierThan: int, length: int, area: Option<Area>,
                           row: ClusterRow) {
    Micros(noEarlierThan) <= row.timestamp <= Micros(timestamp) && row.seconds == length && InArea(area, spatial, row)
  }

  /** The lookback is the requested slots in whole, or exactly a day when they are longer. */
  lemma LookbackIsBounded(seconds: int, count: int)
    requires seconds >= 0 && count >= 1
    ensures seconds * count <= 86_400 ==> Lookback(seconds, count) == seconds * count * 1_000_000_000
    ensures seconds * count >= 86_400 ==> Lookback(seconds, count) == 86_400_000_000_000
  {
    MulMonotone(0, count, seconds);
  }

  /** A request to `select_clusters`; `snap` when it asks for now. */
  datatype Request = Request(interval: TimeInterval, count: int, area: Option<Area>, snap: bool) {
    function Seconds(): int {
      interval.DurationSeconds()
    }

    function Step(): int {
      Seconds() * NANOS_PER_SECOND
    }

    /** The requested number of slots, as it is narrowed to 32 bits. */
    function Wanted(): int {
      Wrap32(count - 1) + 1
    }

    /** The oldest instant the anchor may snap to. */
    function Oldest(): int {
      interval.end - Lookback(Seconds(), count)
    }

    /** The slots of an anchor, nothing when they leave the calendar. */
    function SlotsOf(anchor: int): Option<seq<int>> {
      var n := QueryCount(anchor, Step(), count, None);
      if n.None? then None else Some(Slots(anchor, Step(), n.value))
    }
  }

  /** A stored cluster of a length that the anchor may snap to. */
  ghost predicate Candidate(q: Request, spatial: Spatial, length: int, r: ClusterRow) {
    Eligible(spatial, q.interval.end, q.Oldest(), length, q.area, r)
  }

  /** The anchor for a length: the newest candidate when the request asks for now, else the requested end. */
  ghost predicate IsAnchor(table: seq<ClusterRow>, q: Request, spatial: Spatial, length: int, anchor: int) {
    if q.snap && exists r :: r in table && Candidate(q, spatial, length, r) then
      exists r :: r in table && Candidate(q, spatial, length, r) && anchor == r.timestamp * 1000
                  && forall other :: other in table && Candidate(q, spatial, length, other) ==>
                       other.timestamp <= r.timestamp
    else anchor == q.interval.end
  }

  /** The answer for a length: its anchor, and exactly the clusters of this length at the anchor's slots, in the area. */
  ghost predicate IsAnswer(table: seq<ClusterRow>, q: Request, spatial: Spatial, length: int, anchor: int,
                           rows: seq<ClusterRow>) {
    && IsAnchor(table, q, spatial, length, anchor)
    && q.SlotsOf(anchor).Some?
    && forall row :: row in rows <==>
         row in table && InSlots(q.SlotsOf(anchor).value, row) && row.seconds == length && InArea(q.area, spatial, row)
  }

  /** The slots of an anchor exist and can all be bound. */
  ghost predicate Bindable(q: Request, anchor: int) {
    && q.SlotsOf(anchor).Some?
    && |q.SlotsOf(anchor).value| + 1 + |AreaParams(q.area)| <= MAX_PARAMETERS
  }

  /** What a request needs to get an answer, by the length it is sent with. */
  ghost predicate Answerable(table: seq<ClusterRow>, q: Request, spatial: Spatial) {
    && (q.snap ==> InCalendar(q.Oldest()))
    && exists anchor :: IsAnchor(table, q, spatial, Wrap16(q.Seconds()), anchor) && Bindable(q, anchor)
  }

  lemma WholeSeconds(seconds: int)
    ensures NumSeconds(seconds * NANOS_PER_SECOND) == seconds
  {
  }

  /** `latest_timestamp_at_or_before` of the table: the newest timestamp of the narrowed length. */
  method LatestTimestamp(table: seq<ClusterRow>, spatial: Spatial, timestamp: int, noEarlierThan: int, seconds: int,
                         area: Option<Area>) returns (r: Result<Option<int>, QueryError>)
    ensures r.Ok?
    ensures r.value.None? ==>
              forall row :: row in table ==> !Eligible(spatial, timestamp, noEarlierThan, Wrap16(seconds), area, row)
    ensures r.value.Some? ==>
              && (exists row :: row in table && Eligible(spatial, timestamp, noEarlierThan, Wrap16(seconds), area, row)
                                && row.timestamp * 1000 == r.value.value)
              && forall row :: row in table && Eligible(spatial, timestamp, noEarlierThan, Wrap16(seconds), area, row) ==>
                                row.timestamp * 1000 <= r.value.value
  {
    var q := LatestQuery(timestamp, noEarlierThan, seconds, SRID, area);
    forall row
      ensures Selects(q, spatial, row) <==> Eligible(spatial, timestamp, noEarlierThan, Wrap16(seconds), area, row)
    {
      LatestQuerySelects(timestamp, noEarlierThan, seconds, SRID, area, spatial, row);
    }
    LatestQuerySize(timestamp, noEarlierThan, seconds, SRID, area);
    var found := Query(table, spatial, q);
    forall row | row in table && Eligible(spatial, timestamp, noEarlierThan, Wrap16(seconds), area, row)
      ensures row in found.value
    {
    }
    var newest := Newest(found.value);
    r := Ok(if newest.None? then None else Some(newest.value * 1000));
  }

  /** `select` of the table: the clusters of the narrowed length at the slots of an anchor, in the area. */
  method SelectRows(table: seq<ClusterRow>, spatial: Spatial, q: Request, anchor: Instant)
    returns (r: Result<seq<ClusterRow>, QueryError>)
    ensures r.Ok? <==> Bindable(q, anchor)
    ensures r.Ok? ==> forall row :: row in r.value <==>
              row in table && InSlots(q.SlotsOf(anchor).value, row) && row.seconds == Wrap16(q.Seconds())
              && InArea(q.area, spatial, row)
  {
    WholeSeconds(q.Seconds());
    var query := SelectQuery(anchor, q.Step(), q.count, None, SRID, q.area);
    if query.None? {
      return Err(Overflow);
    }
    r := Query(table, spatial, query.value);
  }

  /** A candidate's instant lies in the calendar when the search does. */
  lemma CandidateInCalendar(q: Request, spatial: Spatial, length: int, r: ClusterRow)
    requires Candidate(q, spatial, length, r) && InCalendar(q.interval.end) && InCalendar(q.Oldest())
    ensures InCalendar(r.timestamp * 1000)
  {
  }

  /** `select_clusters`: the answer for the narrowed length. */
  method SelectClusters(table: seq<ClusterRow>, spatial: Spatial, q: Request)
    returns (r: Result<(int, seq<ClusterRow>), QueryError>)
    requires InCalendar(q.interval.end)
    ensures r.Ok? <==> Answerable(table, q, spatial)
    ensures r.Ok? ==> IsAnswer(table, q, spatial, Wrap16(q.Seconds()), r.value.0, r.value.1)
    ensures r.Ok? && !q.snap ==> r.value.0 == q.interval.end
  {
    var anchor: Instant := q.interval.end;
    if q.snap {
      if !InCalendar(q.Oldest()) {
        return Err(Overflow);
      }
      var latest := LatestTimestamp(table, spatial, q.interval.end, q.Oldest(), q.Seconds(), q.area);
      if latest.value.Some? {
        ghost var row :| row in table && Candidate(q, spatial, Wrap16(q.Seconds()), row)
                         && row.timestamp * 1000 == latest.value.value;
        CandidateInCalendar(q, spatial, Wrap16(q.Seconds()), row);
        anchor := latest.value.value;
      }
    }
    assert IsAnchor(table, q, spatial, Wrap16(q.Seconds()), anchor);
    var rows := SelectRows(table, spatial, q, anchor);
    if rows.Err? {
      return Err(rows.error);
    }
    r := Ok((anchor, rows.value));
  }

  // ---------- what a client gets ----------

  /** `reanchor_interval` */
  function Reanchor(interval: TimeInterval, anchor: int): TimeInterval {
    TimeInterval(anchor - interval.DurationSeconds() * NANOS_PER_SECOND, anchor)
  }

  /** The response's `t` is the anchor and its `dt` the requested length. */
  lemma ReanchorReports(interval: TimeInterval, anchor: int)
    ensures Reanchor(interval, anchor).end == anchor
    ensures Reanchor(interval, anchor).DurationSeconds() == interval.DurationSeconds()
  {
    WholeSeconds(interval.DurationSeconds());
  }

  /** When a candidate of the answered length is stored, the anchor is the newest one's timestamp, and it is in the
      answer. */
  lemma AnswerIsNotEmpty(table: seq<ClusterRow>, spatial: Spatial, q: Request, length: int, anchor: int,
                         rows: seq<ClusterRow>, r: ClusterRow) returns (newest: ClusterRow)
    requires IsAnswer(table, q, spatial, length, anchor, rows)
    requires q.snap && q.Seconds() >= 0 && q.Wanted() >= 1 && q.count >= 1
    requires r in table && Candidate(q, spatial, length, r)
    ensures newest in rows && newest.timestamp * 1000 == anchor && r.timestamp <= newest.timestamp
  {
    newest :| newest in table && Candidate(q, spatial, length, newest) && anchor == newest.timestamp * 1000
              && forall other :: other in table && Candidate(q, spatial, length, other) ==>
                   other.timestamp <= newest.timestamp;
    FirstSlot(q, anchor);
    WholeMicros(newest.timestamp);
    assert Micros(q.SlotsOf(anchor).value[0]) == newest.timestamp;
  }

  /** The first slot is the anchor itself. */
  lemma FirstSlot(q: Request, anchor: int)
    requires q.SlotsOf(anchor).Some? && q.Seconds() >= 0 && q.Wanted() >= 1 && q.count >= 1
    ensures |q.SlotsOf(anchor).value| >= 1 && q.SlotsOf(anchor).value[0] == anchor
  {
    RequestedSlots(anchor, q.Step(), q.count);
    assert anchor - 0 * q.Step() == anchor;
  }

  /** A request for a positive length selects exactly the slots anchor, anchor - o, ..., as many as requested; none when
      the 32-bit form of the count is not positive. */
  lemma ExactSlots(q: Request, anchor: int)
    requires 0 < q.Seconds() <= 86_400 && q.SlotsOf(anchor).Some?
    ensures q.SlotsOf(anchor).value == Slots(anchor, q.Step(), if q.Wanted() >= 1 then q.Wanted() else 0)
    ensures 1 <= q.count <= 0x8000_0000 ==> q.Wanted() == q.count
  {
    RequestedSlots(anchor, q.Step(), q.count);
  }

  // ---------- the requests the service makes ----------

  function ForceRange(lower: int, value: int, upper: int): int {
    if value < lower then lower else if value > upper then upper else value
  }

  /** `TimeConstraint::enforce` with the service's limits. */
  function Enforce(length: int, offset: int): (r: (int, int))
    ensures 1 <= r.0 <= 1440 && r.0 - 1440 <= r.1 <= 0
    ensures 1 <= length <= 1440 ==> r.0 == length
    ensures length <= 0 ==> r.0 == 60
    ensures length > 1440 ==> r.0 == 1440
    ensures r.0 - 1440 <= offset <= 0 ==> r.1 == offset
    ensures offset > 0 ==> r.1 == 0
    ensures offset < r.0 - 1440 ==> r.1 == r.0 - 1440
  {
    var inRange := ForceRange(0, length, MAX_MINUTES_PER_DAY);
    var enforced := if inRange == 0 then DEFAULT_MINUTE_LENGTH else inRange;
    (enforced, ForceRange(-MAX_MINUTES_PER_DAY + enforced, offset, 0))
  }

  /** `create_cluster_time_interval_at` */
  function ClusterInterval(length: int, offset: int, now: int): (r: TimeInterval)
    ensures r.end == now / 60_000_000_000 * 60_000_000_000 + offset * 60_000_000_000
    ensures r.end - r.start == length * 60_000_000_000
  {
    var seconds := now / NANOS_PER_SECOND;
    var end := (seconds - seconds % 60) * NANOS_PER_SECOND + offset * NANOS_PER_MINUTE;
    MinuteStart(now);
    TimeInterval(end - length * NANOS_PER_MINUTE, end)
  }

  lemma MinuteStart(now: int)
    ensures var seconds := now / NANOS_PER_SECOND;
            (seconds - seconds % 60) * NANOS_PER_SECOND == now / NANOS_PER_MINUTE * NANOS_PER_MINUTE
  {
    var seconds := now / NANOS_PER_SECOND;
    assert seconds / 60 == now / NANOS_PER_MINUTE;
  }

  /** The request for a client's arguments. */
  function ClientRequest(length: int, offset: int, now: int, count: int, area: Option<Area>): Request {
    var (minutes, shift) := Enforce(length, offset);
    Request(ClusterInterval(minutes, shift, now), if count < 1 then 1 else count, area, shift == 0)
  }

  /** The request keeps the area, asks for at least one slot, and snaps when the enforced offset is 0. */
  lemma ClientArguments(length: int, offset: int, now: int, count: int, area: Option<Area>)
    ensures var q := ClientRequest(length, offset, now, count, area);
            && q.count == (if count < 1 then 1 else count) && q.area == area
            && (q.snap <==> offset >= 0 || length >= 1440)
  {
  }

  lemma ClientSeconds(length: int, offset: int, now: int, count: int, area: Option<Area>)
    ensures var q := ClientRequest(length, offset, now, count, area);
            && q.Seconds() == 60 * Enforce(length, offset).0 && q.count >= 1
            && q.interval.end % 1000 == 0 && now - 86_460_000_000_000 < q.interval.end <= now
  {
    var (minutes, shift) := Enforce(length, offset);
    WholeSeconds(60 * minutes);
    MinuteBounds(now, shift);
  }

  lemma MinuteBounds(now: int, shift: int)
    requires -1440 <= shift <= 0
    ensures var end := now / 60_000_000_000 * 60_000_000_000 + shift * 60_000_000_000;
            end % 1000 == 0 && now - 86_460_000_000_000 < end <= now
  {
  }

  /** A clock after which the slots of every bindable request stay in the calendar: its first 66000 days are left out. */
  predicate GoodClock(now: int) {
    InCalendar(now) && InCalendar(now - 66_000 * NANOS_PER_DAY)
  }

  /** There is an anchor, at most a day before the requested end. */
  lemma AnchorExists(table: seq<ClusterRow>, q: Request, spatial: Spatial, length: int) returns (anchor: int)
    requires q.interval.end % 1000 == 0
    ensures IsAnchor(table, q, spatial, length, anchor)
    ensures anchor == q.interval.end || q.Oldest() - 1000 < anchor <= q.interval.end
  {
    anchor := q.interval.end;
    if q.snap && exists r :: r in table && Candidate(q, spatial, length, r) {
      var found := Newest(CandidatesOf(table, q, spatial, length));
      anchor := found.value * 1000;
    }
  }

  lemma AnchorIsRecent(table: seq<ClusterRow>, q: Request, spatial: Spatial, length: int, anchor: int)
    requires q.interval.end % 1000 == 0 && IsAnchor(table, q, spatial, length, anchor)
    ensures anchor == q.interval.end || q.Oldest() - 1000 < anchor <= q.interval.end
  {
  }

  ghost function CandidatesOf(table: seq<ClusterRow>, q: Request, spatial: Spatial, length: int): (rows: seq<ClusterRow>)
    ensures forall r :: r in rows <==> r in table && Candidate(q, spatial, length, r)
  {
    if table == [] then []
    else
      var last := table[|table| - 1];
      var before := CandidatesOf(table[..|table| - 1], q, spatial, length);
      assert forall r :: r in table <==> r in table[..|table| - 1] || r == last;
      if Candidate(q, spatial, length, last) then before + [last] else before
  }

  /** The slots of a client's request, when they can be bound, are in the calendar and as many as requested. */
  lemma ClientSlots(q: Request, now: int, anchor: int)
    requires GoodClock(now) && 0 < q.Seconds() <= 86_400 && 1 <= q.Wanted() < MAX_PARAMETERS
    requires now - 3 * NANOS_PER_DAY < anchor <= now
    ensures q.SlotsOf(anchor).Some? && |q.SlotsOf(anchor).value| == q.Wanted()
  {
    RequestedSlots(anchor, q.Step(), q.count);
    MulMonotone(0, q.Wanted() - 1, q.Step());
    SpanIsShort(q.Step(), q.Wanted() - 1);
  }

  lemma SpanIsShort(step: int, earlier: int)
    requires 0 <= step <= 86_400 * NANOS_PER_SECOND && 0 <= earlier <= MAX_PARAMETERS
    ensures 0 <= step * earlier <= 65_535 * NANOS_PER_DAY
  {
    MulMonotone(0, earlier, step);
    MulMonotone(step, NANOS_PER_DAY, earlier);
  }

  lemma LookbackAtMostADay(seconds: int, count: int)
    requires seconds >= 0 && count >= 1
    ensures 0 <= Lookback(seconds, count) <= NANOS_PER_DAY
  {
    MulMonotone(0, count, seconds);
    LookbackIsBounded(seconds, count);
  }

  /** A request whose count has no positive 32-bit form selects no slot; its computed start must be in the calendar. */
  lemma NoSlots(q: Request, now: int, anchor: int)
    requires InCalendar(now) && 0 < q.Seconds() <= 86_400 && q.Wanted() < 1
    requires InCalendar(now - 66_000 * NANOS_PER_DAY) && now - 3 * NANOS_PER_DAY < anchor <= now
    ensures Bindable(q, anchor) <==> InCalendar(anchor + q.Step() * (1 - q.Wanted()))
  {
    RequestedSlots(anchor, q.Step(), q.count);
    MulMonotone(1, 1 - q.Wanted(), q.Step());
    assert anchor - q.Step() * Wrap32(q.count - 1) == anchor + q.Step() * (1 - q.Wanted());
  }

  /** A client's request is answered exactly when its slots, the length and the area fit the parameter limit, whatever is
      stored: the service accepts every count.  A count without a positive 32-bit form is answered, with no slot, exactly
      when the start computed from its anchor is in the calendar. */
  lemma ClientRequestIsAnswered(length: int, offset: int, now: int, count: int, area: Option<Area>,
                                table: seq<ClusterRow>, spatial: Spatial)
    requires GoodClock(now)
    ensures var q := ClientRequest(length, offset, now, count, area);
            if q.Wanted() >= 1 then Answerable(table, q, spatial) <==> q.Wanted() + 1 + |AreaParams(area)| <= 65_535
            else Answerable(table, q, spatial) <==>
                 exists anchor :: IsAnchor(table, q, spatial, Wrap16(q.Seconds()), anchor)
                                  && InCalendar(anchor + q.Step() * (1 - q.Wanted()))
    ensures 1 <= count <= 0x8000_0000 ==> ClientRequest(length, offset, now, count, area).Wanted() == count
  {
    var q := ClientRequest(length, offset, now, count, area);
    ClientSeconds(length, offset, now, count, area);
    LookbackAtMostADay(q.Seconds(), q.count);
    var anchor := AnchorExists(table, q, spatial, Wrap16(q.Seconds()));
    if q.Wanted() < 1 {
      forall other | IsAnchor(table, q, spatial, Wrap16(q.Seconds()), other)
        ensures Bindable(q, other) <==> InCalendar(other + q.Step() * (1 - q.Wanted()))
      {
        AnchorIsRecent(table, q, spatial, Wrap16(q.Seconds()), other);
        NoSlots(q, now, other);
      }
    } else if q.Wanted() + 1 + |AreaParams(area)| <= MAX_PARAMETERS {
      ClientSlots(q, now, anchor);
      assert IsAnchor(table, q, spatial, Wrap16(q.Seconds()), anchor) && Bindable(q, anchor);
    } else {
      forall anchor ensures !Bindable(q, anchor) {
        if q.SlotsOf(anchor).Some? { ExactSlots(q, anchor); }
      }
    }
  }

  /** Length 1 with count 70000 is accepted by the service and refused by the server. */
  lemma ManySlotsAreRefused(now: int, table: seq<ClusterRow>, spatial: Spatial)
    requires GoodClock(now)
    ensures !Answerable(table, ClientRequest(1, 0, now, 70_000, None), spatial)
  {
    ClientRequestIsAnswered(1, 0, now, 70_000, None, table, spatial);
  }

  // ---------- lengths that do not fit ----------

  /** Every answer for the length as it is sent is the answer for the length as it was requested. */
  ghost predicate AnswersAsRequested(q: Request) {
    forall table: seq<ClusterRow>, spatial: Spatial, anchor: int, rows: seq<ClusterRow> ::
      IsAnswer(table, q, spatial, Wrap16(q.Seconds()), anchor, rows) ==>
        IsAnswer(table, q, spatial, q.Seconds(), anchor, rows)
  }

  /** A table with one cluster of the sent length at the requested end: it is in the answer. */
  lemma SentLengthIsAnswered(q: Request) returns (table: seq<ClusterRow>, spatial: Spatial)
    requires q.interval.end % 1000 == 0 && q.Seconds() >= 0 && q.Wanted() >= 1 && q.count >= 1
    requires q.SlotsOf(q.interval.end).Some?
    ensures |table| == 1 && table[0].seconds == Wrap16(q.Seconds())
    ensures IsAnswer(table, q, spatial, Wrap16(q.Seconds()), q.interval.end, table)
  {
    var row := ClusterRow(Micros(q.interval.end), Wrap16(q.Seconds()), [], 0);
    table := [row];
    spatial := Spatial((bytes, r) => true, (bytes, r) => true);
    LookbackAtMostADay(q.Seconds(), q.count);
    FirstSlot(q, q.interval.end);
    assert Candidate(q, spatial, Wrap16(q.Seconds()), row);
    assert Micros(q.SlotsOf(q.interval.end).value[0]) == row.timestamp;
    assert row in table;
  }

  /** Anchor and rows are those of the requested length, for every stored table, exactly when the enforced length is at
      most 546 minutes: the service accepts 1440, but a length is sent as a `smallint` of seconds. */
  lemma RequestedLengthIsAnswered(length: int, offset: int, now: int, count: int, area: Option<Area>)
    requires GoodClock(now)
    requires var wanted := ClientRequest(length, offset, now, count, area).Wanted();
             wanted >= 1 && wanted + 1 + |AreaParams(area)| <= MAX_PARAMETERS
    ensures AnswersAsRequested(ClientRequest(length, offset, now, count, area)) <==> Enforce(length, offset).0 <= 546
  {
    var q := ClientRequest(length, offset, now, count, area);
    ClientSeconds(length, offset, now, count, area);
    if Enforce(length, offset).0 > 546 {
      ClientSlots(q, now, q.interval.end);
      var table, spatial := SentLengthIsAnswered(q);
      assert table[0] in table;
      assert !IsAnswer(table, q, spatial, q.Seconds(), q.interval.end, table);
    }
  }

  /** What an over-long request is sent as: a negative length up to 1092 minutes, then one of another request; never a
      whole number of minutes. */
  lemma LongLengths(minutes: int)
    requires 546 < minutes <= MAX_MINUTES_PER_DAY
    ensures Wrap16(60 * minutes) == 60 * minutes - 0x1_0000
    ensures Wrap16(60 * minutes) < 0 <==> minutes <= 1092
    ensures Wrap16(60 * minutes) % 60 == 44
  {
    assert 60 * minutes - 0x1_0000 == 60 * (minutes - 1093) + 44;
  }

  lemma FirstRow(rows: seq<ClusterRow>)
    requires rows != []
    ensures rows[0] in rows
  {
  }

  /** As long as every stored length is a number of whole minutes, an over-long request is answered without an error,
      with no cluster and the requested end. */
  lemma LongRequestsAreEmpty(length: int, offset: int, now: int, count: int, area: Option<Area>, table: seq<ClusterRow>,
                             spatial: Spatial, anchor: int, rows: seq<ClusterRow>)
    requires Enforce(length, offset).0 > 546
    requires forall r :: r in table ==> r.seconds % 60 == 0
    requires var q := ClientRequest(length, offset, now, count, area);
             IsAnswer(table, q, spatial, Wrap16(q.Seconds()), anchor, rows)
    ensures rows == [] && anchor == ClientRequest(length, offset, now, count, area).interval.end
  {
    var q := ClientRequest(length, offset, now, count, area);
    ClientSeconds(length, offset, now, count, area);
    LongLengths(Enforce(length, offset).0);
    if rows != [] { FirstRow(rows); }
  }

  /** 547 minutes are sent as -32716 seconds, which no producer stores: no cluster, and the requested end. */
  lemma LengthOf547(table: seq<ClusterRow>, q: Request, spatial: Spatial, anchor: int, rows: seq<ClusterRow>)
    requires q.Seconds() == 60 * 547 && forall r :: r in table ==> r.seconds >= 0
    requires IsAnswer(table, q, spatial, Wrap16(q.Seconds()), anchor, rows)
    ensures Wrap16(q.Seconds()) == -32_716 && rows == [] && anchor == q.interval.end
  {
    if rows != [] { FirstRow(rows); }
  }

  /** 1093 minutes are sent as 44 seconds: a stored cluster of 44 seconds at the requested end is the answer, reported
      with `dt` 65580. */
  lemma LengthOf1093(q: Request, spatial: Spatial, shape: seq<Byte>, strikes: int, anchor: int, rows: seq<ClusterRow>)
    requires q.Seconds() == 60 * 1093 && q.interval.end % 1000 == 0 && q.area == None && q.Wanted() >= 1 && q.count >= 1
    requires var row := ClusterRow(Micros(q.interval.end), 44, shape, strikes);
             IsAnswer([row], q, spatial, Wrap16(q.Seconds()), anchor, rows)
    ensures ClusterRow(Micros(q.interval.end), 44, shape, strikes) in rows
    ensures anchor == q.interval.end && Reanchor(q.interval, anchor).DurationSeconds() == 65_580
  {
    var row := ClusterRow(Micros(q.interval.end), 44, shape, strikes);
    LookbackAtMostADay(q.Seconds(), q.count);
    assert row in [row] && Candidate(q, spatial, Wrap16(q.Seconds()), row);
    FirstSlot(q, q.interval.end);
    assert Micros(q.SlotsOf(q.interval.end).value[0]) == row.timestamp;
    ReanchorReports(q.interval, anchor);
  }
}
