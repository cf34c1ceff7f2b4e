/** Writing strikes (`insert_many` and `insert_chunk` of `src/db.rs`): multi-row statements within the
    parameter limit of the server. */
module StrikeTable {
  import opened Common
  import opened Instants

  const STRIKE_PARAMETERS: nat := 9
  const MAX_STRIKES_PER_INSERT: nat := MAX_PARAMETERS / STRIKE_PARAMETERS

  datatype Strike = Strike(timestamp: Stamp, x: real, y: real, altitude: Option<real>, region: Option<int>,
                           amplitude: Option<real>, lateralError: Option<int>, stationCount: Option<int>)

  /** A stored row; the instant in whole microseconds. */
  datatype Row = Row(timestamp: int, nanoseconds: int, x: real, y: real, altitude: Option<int>, region: int,
                     amplitude: Option<real>, error2d: Option<int>, stationcount: Option<int>)

  /** `f64::round`: half away from zero. */
  function RoundAway(v: real): (n: int)
    ensures v >= 0.0 ==> v - 0.5 < n as real <= v + 0.5
    ensures v < 0.0 ==> v - 0.5 <= n as real < v + 0.5
  {
    if v >= 0.0 then (v + 0.5).Floor else -((0.5 - v).Floor)
  }

  /** `as i64` of a rounded number. */
  function Saturate64(v: int): (n: int)
    ensures -0x8000_0000_0000_0000 <= n <= 0x7FFF_FFFF_FFFF_FFFF
    ensures -0x8000_0000_0000_0000 <= v <= 0x7FFF_FFFF_FFFF_FFFF ==> n == v
  {
    if v < -0x8000_0000_0000_0000 then -0x8000_0000_0000_0000
    else if v > 0x7FFF_FFFF_FFFF_FFFF then 0x7FFF_FFFF_FFFF_FFFF
    else v
  }

  function Narrowed(v: Option<int>): Option<int> {
    if v.Some? then Some(Wrap16(v.value)) else None
  }

  predicate Dated(strikes: seq<Strike>) {
    forall i :: 0 <= i < |strikes| ==> strikes[i].timestamp.datetime.Some?
  }

  /** The row a strike is stored as: its own region, or 1, unless one is given; the `smallint` columns get the 16 bits
      that the driver sends. */
  function RowOf(s: Strike, region: Option<int>): Row
    requires s.timestamp.datetime.Some?
  {
    Row(Micros(s.timestamp.datetime.value), Wrap16(s.timestamp.nanosecond), s.x, s.y,
        if s.altitude.Some? then Some(Wrap16(Saturate64(RoundAway(s.altitude.value)))) else None,
        Wrap16(if region.Some? then region.value else if s.region.Some? then s.region.value else 1),
        s.amplitude, Narrowed(s.lateralError), Narrowed(s.stationCount))
  }

  /** What is stored of a strike: the instant cut to microseconds, the position, the altitude to the nearest meter, the
      region of the run before its own before 1, and the integers as far as they fit. */
  lemma StoredFields(s: Strike, region: Option<int>)
    requires s.timestamp.datetime.Some?
    ensures var row := RowOf(s, region);
            && row.timestamp * 1000 <= s.timestamp.datetime.value < row.timestamp * 1000 + 1000
            && (IsSmallint(s.timestamp.nanosecond) ==> row.nanoseconds == s.timestamp.nanosecond)
            && row.x == s.x && row.y == s.y && row.amplitude == s.amplitude
            && (row.altitude.None? <==> s.altitude.None?)
            && (s.altitude.Some? && -32_768.5 < s.altitude.value < 32_767.5 ==>
                  s.altitude.value - 0.5 <= row.altitude.value as real <= s.altitude.value + 0.5)
    ensures var wanted := if region.Some? then region.value else if s.region.Some? then s.region.value else 1;
            IsSmallint(wanted) ==> RowOf(s, region).region == wanted
    ensures FitsOrNull(s.lateralError) ==> RowOf(s, region).error2d == s.lateralError
    ensures FitsOrNull(s.stationCount) ==> RowOf(s, region).stationcount == s.stationCount
  {
  }

  predicate FitsOrNull(v: Option<int>) {
    v.Some? ==> IsSmallint(v.value)
  }

  function RowsOf(strikes: seq<Strike>, region: Option<int>): (rows: seq<Row>)
    requires Dated(strikes)
    ensures |rows| == |strikes|
  {
    seq(|strikes|, i requires 0 <= i < |strikes| => RowOf(strikes[i], region))
  }

  // ---------- one statement ----------

  /** A multi-row `INSERT`: the placeholder numbers of every row, and the values bound to `$1`, `$2`, ... */
  datatype Insert = Insert(rows: seq<seq<nat>>, params: seq<Param>)

  /** An integer sent for a `smallint` column. */
  function SmallintOrNull(p: Param): Option<int> {
    if p.Int? then Some(Wrap16(p.i)) else None
  }

  function FloatOrNull(p: Param): Option<real> {
    if p.Float? then Some(p.x) else None
  }

  function RealOf(p: Param): real {
    if p.Float? then p.x else 0.0
  }

  function SmallintOf(p: Param): int {
    if p.Int? then Wrap16(p.i) else 0
  }

  /** The row the server stores for nine bound values. */
  function RowOfParams(p: seq<Param>): Row
    requires |p| == STRIKE_PARAMETERS
  {
    Row(if p[0].Timestamp? then Micros(p[0].t) else 0, SmallintOf(p[1]), RealOf(p[2]), RealOf(p[3]),
        SmallintOrNull(p[4]), SmallintOf(p[5]), FloatOrNull(p[6]), SmallintOrNull(p[7]), SmallintOrNull(p[8]))
  }

  predicate InRange(numbers: seq<nat>, params: seq<Param>) {
    |numbers| == STRIKE_PARAMETERS && forall i :: 0 <= i < |numbers| ==> 1 <= numbers[i] <= |params|
  }

  function Picked(numbers: seq<nat>, params: seq<Param>): (p: seq<Param>)
    requires InRange(numbers, params)
    ensures |p| == STRIKE_PARAMETERS
  {
    seq(|numbers|, i requires 0 <= i < |numbers| => params[numbers[i] - 1])
  }

  predicate WellFormed(insert: Insert) {
    forall i :: 0 <= i < |insert.rows| ==> InRange(insert.rows[i], insert.params)
  }

  /** What executing the statement stores. */
  function Stored(insert: Insert): (rows: seq<Row>)
    requires WellFormed(insert)
    ensures |rows| == |insert.rows|
  {
    seq(|insert.rows|, i requires 0 <= i < |insert.rows| => RowOfParams(Picked(insert.rows[i], insert.params)))
  }

  function IntParam(v: Option<int>): Param {
    if v.Some? then Int(v.value) else Null
  }

  /** The nine values bound for a strike, in placeholder order. */
  function StrikeParams(s: Strike, region: Option<int>): (p: seq<Param>)
    requires s.timestamp.datetime.Some?
    ensures |p| == STRIKE_PARAMETERS && RowOfParams(p) == RowOf(s, region)
  {
    [Timestamp(s.timestamp.datetime.value), Int(s.timestamp.nanosecond), Float(s.x), Float(s.y),
     if s.altitude.Some? then Int(Saturate64(RoundAway(s.altitude.value))) else Null,
     Int(if region.Some? then region.value else if s.region.Some? then s.region.value else 1),
     if s.amplitude.Some? then Float(s.amplitude.value) else Null,
     IntParam(s.lateralError), IntParam(s.stationCount)]
  }

  function Numbers(base: nat): (n: seq<nat>)
    ensures |n| == STRIKE_PARAMETERS
  {
    [base + 1, base + 2, base + 3, base + 4, base + 5, base + 6, base + 7, base + 8, base + 9]
  }

  /** The statement built for the first `n` strikes. */
  ghost predicate Built(insert: Insert, strikes: seq<Strike>, n: nat, region: Option<int>) {
    && n <= |strikes| && Dated(strikes[..n])
    && |insert.rows| == n && |insert.params| == n * STRIKE_PARAMETERS
    && WellFormed(insert) && Stored(insert) == RowsOf(strikes[..n], region)
  }

  lemma BuildStep(insert: Insert, strikes: seq<Strike>, n: nat, region: Option<int>)
    requires n < |strikes| && Built(insert, strikes, n, region) && strikes[n].timestamp.datetime.Some?
    ensures Built(Insert(insert.rows + [Numbers(n * STRIKE_PARAMETERS)],
                         insert.params + StrikeParams(strikes[n], region)), strikes, n + 1, region)
  {
    var base, more := n * STRIKE_PARAMETERS, StrikeParams(strikes[n], region);
    var longer := Insert(insert.rows + [Numbers(base)], insert.params + more);
    assert strikes[..n + 1] == strikes[..n] + [strikes[n]];
    assert Picked(Numbers(base), longer.params) == more;
    forall i | 0 <= i < n
      ensures InRange(longer.rows[i], longer.params)
      ensures Picked(longer.rows[i], longer.params) == Picked(insert.rows[i], insert.params)
    {
      assert InRange(insert.rows[i], insert.params);
    }
    forall i | 0 <= i < n + 1 ensures Stored(longer)[i] == RowsOf(strikes[..n + 1], region)[i] {
      if i < n { assert Stored(insert)[i] == RowsOf(strikes[..n], region)[i]; }
    }
  }

  /** The statement of `insert_chunk`: executing it stores the row of every strike, from its own values. */
  method BuildInsert(strikes: seq<Strike>, region: Option<int>) returns (r: Result<Insert, string>)
    ensures r.Ok? <==> Dated(strikes)
    ensures r.Ok? ==> && |r.value.params| == |strikes| * STRIKE_PARAMETERS && WellFormed(r.value)
                      && Stored(r.value) == RowsOf(strikes, region)
  {
    var rows: seq<seq<nat>>, params: seq<Param> := [], [];
    var index := 0;
    while index < |strikes|
      invariant Built(Insert(rows, params), strikes, index, region)
    {
      var strike := strikes[index];
      if strike.timestamp.datetime.None? {
        return Err("timestamp");
      }
      BuildStep(Insert(rows, params), strikes, index, region);
      rows := rows + [Numbers(index * STRIKE_PARAMETERS)];
      params := params + StrikeParams(strike, region);
      index := index + 1;
    }
    assert strikes[..|strikes|] == strikes;
    r := Ok(Insert(rows, params));
  }

  // ---------- the connection ----------

  /** The database behind one connection: rows of finished transactions and of the open one.  The PostgreSQL
      executor commits every statement by itself, and its commit and rollback do nothing (`autocommit`); another
      implementation of the trait may keep a transaction.  `works` says which statements, numbered from 0, succeed. */
  class Executor {
    var committed: seq<Row>
    var pending: seq<Row>
    var commits: nat
    var statements: nat
    const autocommit: bool
    const works: nat -> bool

    constructor (rows: seq<Row>, autocommit: bool, works: nat -> bool)
      ensures committed == rows && pending == [] && commits == 0 && statements == 0
      ensures this.autocommit == autocommit && this.works == works
    {
      committed, pending, commits, statements := rows, [], 0, 0;
      this.autocommit, this.works := autocommit, works;
    }

    /** What the connection itself sees. */
    ghost function Rows(): seq<Row>
      reads this
    {
      committed + pending
    }

    /** A statement must stay within the parameter limit of the server. */
    method Execute(insert: Insert) returns (ok: bool)
      requires WellFormed(insert) && |insert.params| <= MAX_PARAMETERS
      requires autocommit ==> pending == []
      modifies this`committed, this`pending, this`statements
      ensures ok == works(old(statements)) && statements == old(statements) + 1
      ensures Rows() == if ok then old(Rows()) + Stored(insert) else old(Rows())
      ensures if autocommit then pending == [] else committed == old(committed)
    {
      ok := works(statements);
      statements := statements + 1;
      if ok {
        if autocommit {
          committed := committed + Stored(insert);
        } else {
          pending := pending + Stored(insert);
        }
      }
    }

    method Commit()
      modifies this`committed, this`pending, this`commits
      ensures committed == old(Rows()) && pending == [] && commits == old(commits) + 1
    {
      committed, pending, commits := committed + pending, [], commits + 1;
    }

    method Rollback()
      modifies this`pending
      ensures pending == []
    {
      pending := [];
    }
  }

  lemma RowsAppend(a: seq<Strike>, b: seq<Strike>, region: Option<int>)
    requires Dated(a) && Dated(b)
    ensures Dated(a + b) && RowsOf(a + b, region) == RowsOf(a, region) + RowsOf(b, region)
  {
  }

  /** The rows of the first `n` strikes are stored after those stored before. */
  ghost predicate PrefixStored(strikes: seq<Strike>, n: nat, region: Option<int>, before: seq<Row>, after: seq<Row>) {
    n <= |strikes| && Dated(strikes[..n]) && after == before + RowsOf(strikes[..n], region)
  }

  lemma ChunkStored(strikes: seq<Strike>, n: nat, next: nat, region: Option<int>, before: seq<Row>, after: seq<Row>)
    requires PrefixStored(strikes, n, region, before, after) && n <= next <= |strikes| && Dated(strikes[n..next])
    ensures PrefixStored(strikes, next, region, before, after + RowsOf(strikes[n..next], region))
  {
    RowsAppend(strikes[..n], strikes[n..next], region);
    assert strikes[..next] == strikes[..n] + strikes[n..next];
    var rows, more := RowsOf(strikes[..n], region), RowsOf(strikes[n..next], region);
    assert before + rows + more == before + (rows + more);
  }

  lemma DatedChunk(strikes: seq<Strike>, n: nat, next: nat)
    requires n <= next <= |strikes| && Dated(strikes)
    ensures Dated(strikes[n..next])
  {
  }

  /** The number of strikes in the first statements: what an insertion of `total` strikes can have stored when the next
      statement fails. */
  predicate FailurePoint(n: nat, total: nat) {
    n % MAX_STRIKES_PER_INSERT == 0 && n < total
  }

  /** How many statements `n` strikes take. */
  function StatementsFor(n: nat): nat {
    (n + MAX_STRIKES_PER_INSERT - 1) / MAX_STRIKES_PER_INSERT
  }

  /** The statements `first`, ..., `first + k - 1` work. */
  ghost predicate WorksFor(works: nat -> bool, first: nat, k: nat) {
    forall i: nat :: first <= i < first + k ==> works(i)
  }

  /** The statements of the first `n` of `total` strikes have worked, and `next` is the statement after them. */
  ghost predicate Reached(works: nat -> bool, first: nat, next: nat, n: nat, total: nat) {
    && n <= total && (n < total ==> FailurePoint(n, total))
    && next == first + StatementsFor(n) && WorksFor(works, first, StatementsFor(n))
  }

  function NextEnd(n: nat, total: nat): nat
    requires n <= total
  {
    if total - n < MAX_STRIKES_PER_INSERT then total else n + MAX_STRIKES_PER_INSERT
  }

  lemma StatementCounts(n: nat, k: nat)
    ensures StatementsFor(n) == k <==> (k - 1) * 7_281 < n <= k * 7_281
  {
    assert MAX_STRIKES_PER_INSERT == 7_281;
    var q := (n + 7_280) / 7_281;
    assert q * 7_281 <= n + 7_280 < (q + 1) * 7_281;
  }

  lemma NextStatement(n: nat, total: nat)
    requires FailurePoint(n, total)
    ensures StatementsFor(NextEnd(n, total)) == StatementsFor(n) + 1 <= StatementsFor(total)
    ensures NextEnd(n, total) < total ==> FailurePoint(NextEnd(n, total), total)
  {
    assert MAX_STRIKES_PER_INSERT == 7_281;
    var k := n / 7_281;
    StatementCounts(n, k);
    StatementCounts(NextEnd(n, total), k + 1);
    StatementCounts(total, StatementsFor(total));
  }

  lemma ReachedNext(works: nat -> bool, first: nat, next: nat, n: nat, total: nat)
    requires Reached(works, first, next, n, total) && n < total && works(next)
    ensures Reached(works, first, next + 1, NextEnd(n, total), total)
  {
    NextStatement(n, total);
  }

  /** Each statement before the end is one of the insertion's. */
  lemma StoppedEarly(works: nat -> bool, first: nat, next: nat, n: nat, total: nat)
    requires Reached(works, first, next, n, total) && n < total && !works(next)
    ensures !WorksFor(works, first, StatementsFor(total))
  {
    NextStatement(n, total);
    assert first <= next < first + StatementsFor(total);
  }

  /** An insertion that failed: the rows of the statements before the failed one are stored. */
  ghost predicate StoppedAt(works: nat -> bool, first: nat, strikes: seq<Strike>, n: nat, region: Option<int>,
                            before: seq<Row>, after: seq<Row>) {
    && FailurePoint(n, |strikes|) && PrefixStored(strikes, n, region, before, after)
    && WorksFor(works, first, StatementsFor(n))
    && (Dated(strikes) ==> !works(first + StatementsFor(n)))
  }

  /** `insert_many`: statements of at most 7281 strikes that together store exactly the strikes, in order.  A failed
      statement stores nothing, so on an error exactly the rows of the statements before it are stored. */
  method InsertMany(executor: Executor, strikes: seq<Strike>, region: Option<int>) returns (r: Result<nat, string>)
    requires executor.autocommit ==> executor.pending == []
    modifies executor`committed, executor`pending, executor`statements
    ensures r.Ok? ==> r.value == |strikes| && Dated(strikes)
                      && executor.Rows() == old(executor.Rows()) + RowsOf(strikes, region)
    ensures Dated(strikes) ==>
              (r.Ok? <==> WorksFor(executor.works, old(executor.statements), StatementsFor(|strikes|)))
    ensures r.Err? ==>
              exists n: nat :: StoppedAt(executor.works, old(executor.statements), strikes, n, region,
                                         old(executor.Rows()), executor.Rows())
    ensures if executor.autocommit then executor.pending == [] else executor.committed == old(executor.committed)
  {
    var inserted := 0;
    ghost var before, first := executor.Rows(), executor.statements;
    assert strikes[..0] == [];
    while inserted < |strikes|
      invariant PrefixStored(strikes, inserted, region, before, executor.Rows())
      invariant Reached(executor.works, first, executor.statements, inserted, |strikes|)
      invariant if executor.autocommit then executor.pending == [] else executor.committed == old(executor.committed)
    {
      var next := NextEnd(inserted, |strikes|);
      if Dated(strikes) {
        DatedChunk(strikes, inserted, next);
      }
      var insert := BuildInsert(strikes[inserted..next], region);
      ghost var stored := executor.Rows();
      if insert.Err? {
        assert StoppedAt(executor.works, first, strikes, inserted, region, before, stored);
        return Err(insert.error);
      }
      ghost var statement := executor.statements;
      var ok := executor.Execute(insert.value);
      if !ok {
        StoppedEarly(executor.works, first, statement, inserted, |strikes|);
        assert StoppedAt(executor.works, first, strikes, inserted, region, before, stored);
        return Err("executor");
      }
      ReachedNext(executor.works, first, statement, inserted, |strikes|);
      ChunkStored(strikes, inserted, next, region, before, stored);
      inserted := next;
    }
    assert strikes[..|strikes|] == strikes;
    r := Ok(inserted);
  }
}
