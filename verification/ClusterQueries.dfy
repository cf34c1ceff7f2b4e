/** The stored clusters as the service reads them: the slots and statements of `src/query.rs`, the table access of
    `src/db.rs` and the anchor of `src/service.rs`.  Instants and durations count nanoseconds. */
module ClusterQueries {
  import opened Common
  import opened Instants

  /** A stored cluster; the instant in whole microseconds. */
  datatype ClusterRow = ClusterRow(timestamp: int, seconds: int, shape: seq<Byte>, strikeCount: int)

  /** The two spatial tests of the server, of a bound geometry and a stored shape. */
  datatype Spatial = Spatial(overlaps: (seq<Byte>, ClusterRow) -> bool, intersects: (seq<Byte>, ClusterRow) -> bool)

  // ---------- slots ----------

  /** The step back: the duration itself unless an offset of at least a second is given. */
  function StepOf(duration: int, offset: Option<int>): (step: int)
    ensures step == if offset.Some? && offset.value >= 1_000_000_000 then offset.value else duration
  {
    if offset.Some? && NumSeconds(offset.value) > 0 then offset.value else duration
  }

  /** `num_nanoseconds().unwrap_or(0) == 0` */
  predicate NoStep(step: int) {
    step == 0 || step > 0x7FFF_FFFF_FFFF_FFFF || step < -0x8000_0000_0000_0000
  }

  /** How many instants `end`, `end - step`, ... are at or after `first`, for a step that ends. */
  function SlotCount(first: int, end: int, step: int): nat
    requires step > 0
  {
    if end < first then 0 else (end - first) / step + 1
  }

  /** How many instants the loop of `cluster_timestamps` collects; nothing when it leaves the calendar, which a step
      forward always does. */
  function TimestampCount(first: int, end: int, step: int): Option<nat> {
    if end < first then Some(0)
    else if NoStep(step) then Some(1)
    else if step > 0 && InCalendar(end - SlotCount(first, end, step) * step) then Some(SlotCount(first, end, step))
    else None
  }

  function Slots(end: int, step: int, n: nat): (slots: seq<int>)
    ensures |slots| == n && forall k :: 0 <= k < n ==> slots[k] == end - k * step
  {
    seq(n, k => end - k * step)
  }

  lemma NextSlot(first: int, end: int, step: int, n: nat)
    requires step > 0
    ensures end - n * step >= first <==> n < SlotCount(first, end, step)
  {
    if end >= first {
      var d, q := end - first, (end - first) / step;
      assert q * step <= d < (q + 1) * step by { DivisionBounds(d, step); }
      if n <= q {
        assert n * step <= q * step by { MulMonotone(n, q, step); }
      } else {
        assert (q + 1) * step <= n * step by { MulMonotone(q + 1, n, step); }
      }
    } else {
      assert n * step >= 0 by { MulMonotone(0, n, step); }
    }
  }

  lemma DivisionBounds(d: int, step: int)
    requires step > 0
    ensures d / step * step <= d < (d / step + 1) * step
  {
    assert d == d / step * step + d % step;
    assert (d / step + 1) * step == d / step * step + step;
  }

  lemma MulMonotone(a: int, b: int, step: int)
    requires a <= b && step >= 0
    ensures a * step <= b * step
  {
  }

  /** `cluster_timestamps`: newest first, stepping back while not before `start + duration`; nothing when an instant
      leaves the calendar, where the source panics. */
  method ClusterTimestamps(start: Instant, end: Instant, duration: int, offset: Option<int>)
    returns (timestamps: Option<seq<int>>)
    ensures var step := StepOf(duration, offset);
            var count := TimestampCount(start + duration, end, step);
            timestamps == if InCalendar(start + duration) && count.Some? then Some(Slots(end, step, count.value)) else None
    ensures timestamps.Some? && 0 < StepOf(duration, offset) <= 0x7FFF_FFFF_FFFF_FFFF ==>
              forall k: nat :: k < |timestamps.value| <==> end - k * StepOf(duration, offset) >= start + duration
  {
    var step := StepOf(duration, offset);
    var first := start + duration;
    if !InCalendar(first) {
      return None;
    }
    var collected: seq<int> := [];
    var current: Instant := end;
    ghost var n := 0;
    while current >= first
      invariant current == end - n * step && collected == Slots(end, step, n)
      invariant n > 0 ==> !NoStep(step) && end >= first && end - (n - 1) * step >= first
      decreases if step > 0 then current - first else (LAST_DAY + 1) * NANOS_PER_DAY - current
    {
      collected := collected + [current];
      if NoStep(step) {
        assert collected == Slots(end, step, 1);
        return Some(collected);
      }
      assert (n + 1) * step == n * step + step;
      if !InCalendar(current - step) {
        LeavesCalendar(first, end, step, n);
        return None;
      }
      current := current - step;
      n := n + 1;
    }
    AllCollected(first, end, step, n);
    timestamps := Some(collected);
    if step > 0 && !NoStep(step) {
      forall k: nat ensures k < |collected| <==> end - k * step >= first {
        NextSlot(first, end, step, k);
      }
    }
  }

  /** The next instant after `n` steps is outside the calendar: so is the last one the loop would need. */
  lemma LeavesCalendar(first: Instant, end: Instant, step: int, n: nat)
    requires !NoStep(step) && end >= first && end - n * step >= first && !InCalendar(end - (n + 1) * step)
    ensures TimestampCount(first, end, step).None?
  {
    if step > 0 {
      var m := n + 1;
      MulMonotone(0, m, step);
      var last := m * step;
      assert last == (n + 1) * step && last >= 0;
      assert InCalendar(first) && InCalendar(end) && !InCalendar(end - last);
      assert end - last < first;
      NextSlot(first, end, step, n);
      NextSlot(first, end, step, m);
      assert SlotCount(first, end, step) == m;
    }
  }

  lemma NegativeStep(n: nat, step: int)
    requires step <= 0
    ensures n * step <= 0
  {
  }

  /** The loop ended after `n` steps. */
  lemma AllCollected(first: Instant, end: Instant, step: int, n: nat)
    requires end - n * step < first && InCalendar(end - n * step)
    requires n > 0 ==> !NoStep(step) && end >= first && end - (n - 1) * step >= first
    ensures TimestampCount(first, end, step) == Some(n)
  {
    if n > 0 {
      if step > 0 {
        NextSlot(first, end, step, n);
        NextSlot(first, end, step, n - 1);
      } else {
        NegativeStep(n, step);
        assert false;
      }
    }
  }

  /** How many slots `cluster_select_query` collects for its computed start, nothing when it leaves the calendar.  The
      count is narrowed to 32 bits before one is taken away. */
  function QueryCount(timestamp: int, duration: int, count: int, offset: Option<int>): Option<nat> {
    var step := StepOf(duration, offset);
    var first := timestamp - step * Wrap32(count - 1);
    if InCalendar(first) && InCalendar(first - duration) then TimestampCount(first, timestamp, step) else None
  }

  /** The number of slots of a request, which does not depend on the clock. */
  function RequestedCount(step: int, count: int): nat
    requires step >= 0
  {
    var earlier := Wrap32(count - 1);
    if step == 0 then 1 else if earlier < 0 then 0 else if NoStep(step) then 1 else earlier + 1
  }

  /** Stepping back by the duration itself, the computed start leaves room for exactly the requested number of slots. */
  lemma RequestedSlots(timestamp: int, duration: int, count: int)
    requires duration >= 0
    ensures var first := timestamp - duration * Wrap32(count - 1);
            QueryCount(timestamp, duration, count, None) ==
            if InCalendar(first) && InCalendar(first - duration) then Some(RequestedCount(duration, count)) else None
    ensures duration > 0 && !NoStep(duration) && 1 <= count <= 0x8000_0000 ==> RequestedCount(duration, count) == count
  {
    var earlier := Wrap32(count - 1);
    if duration > 0 {
      if earlier >= 0 {
        assert duration * earlier / duration == earlier by { DivisionOfProduct(duration, earlier); }
        MulMonotone(0, earlier, duration);
        assert (earlier + 1) * duration == duration * earlier + duration;
      } else {
        assert duration * earlier < 0 by { NegativeProduct(duration, earlier); }
      }
    }
  }

  lemma DivisionOfProduct(step: int, n: nat)
    requires step > 0
    ensures step * n / step == n
  {
    var q := step * n / step;
    DivisionBounds(step * n, step);
    if q < n {
      MulMonotone(q + 1, n, step);
    } else if q > n {
      MulMonotone(n + 1, q, step);
    }
  }

  lemma NegativeProduct(step: int, n: int)
    requires step > 0 && n < 0
    ensures step * n < 0
  {
    MulMonotone(n, -1, step);
  }

  // ---------- statements ----------

  /** The time condition of a statement, by the numbers of its placeholders. */
  datatype Times = OneOf(slots: seq<nat>) | Between(upper: nat, lower: nat)

  /** A cluster statement: what each placeholder number is used for, and the bound values. */
  datatype ClusterQuery = ClusterQuery(srid: Option<nat>, times: Times, seconds: nat, envelope: Option<nat>,
                                       geometry: Option<nat>, params: seq<Param>)

  function ParamAt(params: seq<Param>, number: nat): Param {
    if 1 <= number <= |params| then params[number - 1] else Null
  }

  /** The instant the server reads for a placeholder, in microseconds. */
  function MicrosAt(params: seq<Param>, number: nat): Option<int> {
    var p := ParamAt(params, number);
    if p.Timestamp? then Some(Micros(p.t)) else None
  }

  predicate TimeMatches(times: Times, params: seq<Param>, row: ClusterRow) {
    match times
    case OneOf(slots) => exists i :: 0 <= i < |slots| && MicrosAt(params, slots[i]) == Some(row.timestamp)
    case Between(upper, lower) =>
      var (u, l) := (MicrosAt(params, upper), MicrosAt(params, lower));
      u.Some? && l.Some? && l.value <= row.timestamp <= u.value
  }

  predicate BytesMatch(number: Option<nat>, params: seq<Param>, test: (seq<Byte>, ClusterRow) -> bool, row: ClusterRow) {
    number.None? || (ParamAt(params, number.value).Bytea? && test(ParamAt(params, number.value).bytes, row))
  }

  /** A length is bound for `$n::smallint`, so the driver narrows it. */
  predicate LengthMatches(number: nat, params: seq<Param>, row: ClusterRow) {
    ParamAt(params, number).Int? && Wrap16(ParamAt(params, number).i) == row.seconds
  }

  /** Whether the statement selects a row. */
  predicate Selects(q: ClusterQuery, spatial: Spatial, row: ClusterRow) {
    && TimeMatches(q.times, q.params, row)
    && LengthMatches(q.seconds, q.params, row)
    && BytesMatch(q.envelope, q.params, spatial.overlaps, row)
    && BytesMatch(q.geometry, q.params, spatial.intersects, row)
  }

  /** The area filter as the request means it. */
  predicate InArea(area: Option<Area>, spatial: Spatial, row: ClusterRow) {
    area.None? ||
    (spatial.overlaps(area.value.envelope, row) &&
     (area.value.geometry.None? || spatial.intersects(area.value.geometry.value, row)))
  }

  /** The bound values before the condition on times: the SRID when it is not the default one. */
  function SridParams(srid: int): seq<Param> {
    if srid == 4326 then [] else [Int(srid)]
  }

  /** `add_cluster_area_filter`: the values bound for an area, after those already there. */
  function AreaParams(area: Option<Area>): seq<Param> {
    if area.None? then []
    else if area.value.geometry.None? then [Bytea(area.value.envelope)]
    else [Bytea(area.value.envelope), Bytea(area.value.geometry.value)]
  }

  /** A statement whose area filter comes last. */
  function WithArea(srid: int, times: Times, seconds: nat, params: seq<Param>, area: Option<Area>): ClusterQuery {
    ClusterQuery(if srid == 4326 then None else Some(1), times, seconds,
                 if area.Some? then Some(|params| + 1) else None,
                 if area.Some? && area.value.geometry.Some? then Some(|params| + 2) else None,
                 params + AreaParams(area))
  }

  lemma AreaIsLast(srid: int, times: Times, seconds: nat, params: seq<Param>, area: Option<Area>, spatial: Spatial,
                   row: ClusterRow)
    ensures var q := WithArea(srid, times, seconds, params, area);
            (BytesMatch(q.envelope, q.params, spatial.overlaps, row) &&
             BytesMatch(q.geometry, q.params, spatial.intersects, row)) == InArea(area, spatial, row)
  {
  }

  lemma EarlierParam(params: seq<Param>, more: seq<Param>, number: nat)
    requires number <= |params|
    ensures ParamAt(params + more, number) == ParamAt(params, number)
  {
  }

  /** `cluster_latest_timestamp_query`: selects the clusters of an interval length, between two instants, in the area. */
  function LatestQuery(timestamp: int, noEarlierThan: int, seconds: int, srid: int, area: Option<Area>): ClusterQuery {
    var params := SridParams(srid) + [Timestamp(timestamp), Timestamp(noEarlierThan), Int(seconds)];
    WithArea(srid, Between(|params| - 2, |params| - 1), |params|, params, area)
  }

  /** The SRID is a placeholder bound to its own value, unless it is the default one. */
  ghost predicate SridBound(q: ClusterQuery, srid: int) {
    if srid == 4326 then q.srid.None? else q.srid.Some? && ParamAt(q.params, q.srid.value) == Int(srid)
  }

  lemma LatestQuerySize(timestamp: int, noEarlierThan: int, seconds: int, srid: int, area: Option<Area>)
    ensures var q := LatestQuery(timestamp, noEarlierThan, seconds, srid, area);
            SridBound(q, srid) && |q.params| == |SridParams(srid)| + 3 + |AreaParams(area)|
  {
    var params := SridParams(srid) + [Timestamp(timestamp), Timestamp(noEarlierThan), Int(seconds)];
    EarlierParam(params, AreaParams(area), 1);
  }

  lemma LatestQuerySelects(timestamp: int, noEarlierThan: int, seconds: int, srid: int, area: Option<Area>,
                           spatial: Spatial, row: ClusterRow)
    ensures Selects(LatestQuery(timestamp, noEarlierThan, seconds, srid, area), spatial, row) <==>
            Micros(noEarlierThan) <= row.timestamp <= Micros(timestamp) && row.seconds == Wrap16(seconds)
            && InArea(area, spatial, row)
  {
    var params := SridParams(srid) + [Timestamp(timestamp), Timestamp(noEarlierThan), Int(seconds)];
    var more := AreaParams(area);
    EarlierParam(params, more, |params| - 2);
    EarlierParam(params, more, |params| - 1);
    EarlierParam(params, more, |params|);
    AreaIsLast(srid, Between(|params| - 2, |params| - 1), |params|, params, area, spatial, row);
  }

  ghost predicate InSlots(slots: seq<int>, row: ClusterRow) {
    exists k :: 0 <= k < |slots| && Micros(slots[k]) == row.timestamp
  }

  /** The first `n` slots are bound after the SRID, and `numbers` are their placeholders. */
  ghost predicate SlotsBound(srid: int, slots: seq<int>, n: nat, numbers: seq<nat>, params: seq<Param>) {
    var base := |SridParams(srid)|;
    && n <= |slots| && |numbers| == n && |params| == base + n
    && (srid != 4326 ==> ParamAt(params, 1) == Int(srid))
    && (forall k :: 0 <= k < n ==> numbers[k] == base + k + 1)
    && forall k :: 0 <= k < n ==> ParamAt(params, base + k + 1) == Timestamp(slots[k])
  }

  lemma SlotsMatch(srid: int, slots: seq<int>, numbers: seq<nat>, params: seq<Param>, more: seq<Param>, row: ClusterRow)
    requires SlotsBound(srid, slots, |slots|, numbers, params)
    ensures TimeMatches(OneOf(numbers), params + more, row) <==> InSlots(slots, row)
  {
    forall k | 0 <= k < |slots| ensures MicrosAt(params + more, numbers[k]) == Some(Micros(slots[k])) {
      EarlierParam(params, more, numbers[k]);
    }
    if InSlots(slots, row) {
      var k :| 0 <= k < |slots| && Micros(slots[k]) == row.timestamp;
      assert MicrosAt(params + more, numbers[k]) == Some(row.timestamp);
    }
  }

  lemma SelectMeaning(srid: int, slots: seq<int>, numbers: seq<nat>, params: seq<Param>, seconds: int,
                      area: Option<Area>, spatial: Spatial, row: ClusterRow)
    requires SlotsBound(srid, slots, |slots|, numbers, params)
    ensures var all := params + [Int(seconds)];
            Selects(WithArea(srid, OneOf(numbers), |all|, all, area), spatial, row) <==>
            InSlots(slots, row) && row.seconds == Wrap16(seconds) && InArea(area, spatial, row)
  {
    var all, more := params + [Int(seconds)], AreaParams(area);
    SlotsMatch(srid, slots, numbers, params, [Int(seconds)] + more, row);
    assert params + ([Int(seconds)] + more) == all + more;
    EarlierParam(all, more, |all|);
    AreaIsLast(srid, OneOf(numbers), |all|, all, area, spatial, row);
  }

  /** The loop over the slots: one placeholder and one value for each, after the SRID. */
  method BindSlots(srid: int, slots: seq<int>) returns (numbers: seq<nat>, params: seq<Param>)
    ensures SlotsBound(srid, slots, |slots|, numbers, params)
  {
    params := SridParams(srid);
    numbers := [];
    var i := 0;
    while i < |slots|
      invariant SlotsBound(srid, slots, i, numbers, params)
    {
      params := params + [Timestamp(slots[i])];
      numbers := numbers + [|params|];
      i := i + 1;
    }
  }

  /** What a statement of `cluster_select_query` binds and selects for `slots`. */
  ghost predicate SelectsSlots(q: ClusterQuery, slots: seq<int>, seconds: int, srid: int, area: Option<Area>) {
    && SridBound(q, srid)
    && |q.params| == |SridParams(srid)| + |slots| + 1 + |AreaParams(area)|
    && forall spatial, row ::
         Selects(q, spatial, row) <==> InSlots(slots, row) && row.seconds == Wrap16(seconds) && InArea(area, spatial, row)
  }

  /** The statement for collected slots. */
  method SlotsQuery(slots: seq<int>, seconds: int, srid: int, area: Option<Area>) returns (q: ClusterQuery)
    ensures SelectsSlots(q, slots, seconds, srid, area)
  {
    var numbers, bound := BindSlots(srid, slots);
    var params := bound + [Int(seconds)];
    q := WithArea(srid, OneOf(numbers), |params|, params, area);
    if srid != 4326 {
      EarlierParam(bound, [Int(seconds)], 1);
      EarlierParam(params, AreaParams(area), 1);
    }
    forall spatial, row
      ensures Selects(q, spatial, row) <==>
              InSlots(slots, row) && row.seconds == Wrap16(seconds) && InArea(area, spatial, row)
    {
      SelectMeaning(srid, slots, numbers, bound, seconds, area, spatial, row);
    }
  }

  /** `cluster_select_query`: one bound value for each slot; selects the clusters of the narrowed length at the slots, in
      the area. */
  method SelectQuery(timestamp: Instant, duration: int, count: int, offset: Option<int>, srid: int, area: Option<Area>)
    returns (q: Option<ClusterQuery>)
    ensures q.Some? <==> QueryCount(timestamp, duration, count, offset).Some?
    ensures q.Some? ==>
              var slots := Slots(timestamp, StepOf(duration, offset), QueryCount(timestamp, duration, count, offset).value);
              SelectsSlots(q.value, slots, NumSeconds(duration), srid, area)
  {
    var step := StepOf(duration, offset);
    var first := timestamp - step * Wrap32(count - 1);
    if !InCalendar(first) || !InCalendar(first - duration) {
      return None;
    }
    var slots := ClusterTimestamps(first - duration, timestamp, duration, Some(step));
    if slots.None? {
      return None;
    }
    var query := SlotsQuery(slots.value, NumSeconds(duration), srid, area);
    q := Some(query);
  }
}
