/** The strike update of `src/cli/update_tool.rs`: strikes already stored in the time window are not inserted
    again, because a stored key is read back. */
module StrikeUpdate {
  import opened Common
  import opened Instants
  import opened StrikeTable

  const NANOS_PER_MINUTE: int := 60_000_000_000
  const NANOS_PER_HOUR: int := 3_600_000_000_000

  /** Time value, rounded coordinates, lateral error. */
  type Key = (int, real, real, Option<int>)

  /** `py_round(_, 4)`: any function of the coordinate. */
  type Rounding = real -> real

  /** `create_strike_key` */
  function KeyOf(round: Rounding, s: Strike): Key {
    (s.timestamp.Value(), round(s.x), round(s.y), s.lateralError)
  }

  /** The key `select_strike_keys` builds from a row. */
  function RowKey(round: Rounding, r: Row): Key {
    (New(r.timestamp * 1000, r.nanoseconds).Value(), round(r.x), round(r.y), r.error2d)
  }

  predicate FitsLateral(s: Strike) {
    s.lateralError.Some? ==> IsSmallint(s.lateralError.value)
  }

  /** The key a stored strike is found under. */
  function StoredKey(round: Rounding, s: Strike): Key
    requires s.timestamp.datetime.Some?
  {
    RowKey(round, RowOf(s, None))
  }

  /** A strike is found again under its own key exactly when its nanoseconds and its lateral error fit the `smallint`
      columns, whatever its sub-microsecond digits. */
  lemma StoredKeyIsReadBack(round: Rounding, s: Strike)
    requires s.timestamp.datetime.Some?
    ensures StoredKey(round, s) == KeyOf(round, s) <==> IsSmallint(s.timestamp.nanosecond) && FitsLateral(s)
  {
    StoredKeyParts(round, s);
  }

  lemma StoredKeyParts(round: Rounding, s: Strike)
    requires s.timestamp.datetime.Some?
    ensures StoredKey(round, s).0 == Micros(s.timestamp.datetime.value) * 1000 + Wrap16(s.timestamp.nanosecond)
    ensures StoredKey(round, s).3 == Narrowed(s.lateralError)
  {
    WholeMicros(Micros(s.timestamp.datetime.value));
  }

  predicate InWindow(r: Row, start: int, end: int) {
    Micros(start) <= r.timestamp < Micros(end)
  }

  /** `select_strike_keys` over a time interval. */
  function KeysIn(round: Rounding, table: seq<Row>, start: int, end: int): set<Key> {
    set i | 0 <= i < |table| && InWindow(table[i], start, end) :: RowKey(round, table[i])
  }

  /** A downloaded strike that an update inserts: in the window, not known, older than a minute. */
  predicate IsNew(round: Rounding, existing: set<Key>, s: Strike, start: int, now: int) {
    && s.timestamp.datetime.Some?
    && start <= s.timestamp.datetime.value <= now
    && KeyOf(round, s) !in existing
    && s.timestamp.datetime.value < now - NANOS_PER_MINUTE
  }

  function Filter(round: Rounding, existing: set<Key>, strikes: seq<Strike>, start: int, now: int): (r: seq<Strike>)
    ensures Dated(r) && forall s :: s in r <==> s in strikes && IsNew(round, existing, s, start, now)
  {
    if strikes == [] then []
    else
      var last := strikes[|strikes| - 1];
      var before := Filter(round, existing, strikes[..|strikes| - 1], start, now);
      assert forall s :: s in strikes <==> s in strikes[..|strikes| - 1] || s == last;
      if IsNew(round, existing, last, start, now) then before + [last] else before
  }

  /** The strikes a run inserts into `table`. */
  function NewStrikes(round: Rounding, table: seq<Row>, strikes: seq<Strike>, hours: int, now: int): (r: seq<Strike>)
    ensures Dated(r)
  {
    var start := now - hours * NANOS_PER_HOUR;
    Filter(round, KeysIn(round, table, start, now), strikes, start, now)
  }

  /** A stored row in the window that a downloaded strike matches: equal time value, rounded position and lateral error. */
  ghost predicate Matches(round: Rounding, r: Row, s: Strike, start: int, now: int)
    requires s.timestamp.datetime.Some?
  {
    && Micros(start) <= r.timestamp < Micros(now)
    && r.timestamp * 1000 + r.nanoseconds == Micros(s.timestamp.datetime.value) * 1000 + s.timestamp.nanosecond
    && round(r.x) == round(s.x) && round(r.y) == round(s.y) && r.error2d == s.lateralError
  }

  lemma KnownIffMatched(round: Rounding, table: seq<Row>, s: Strike, start: int, now: int)
    requires s.timestamp.datetime.Some?
    ensures KeyOf(round, s) in KeysIn(round, table, start, now) <==>
            exists r :: r in table && Matches(round, r, s, start, now)
  {
    forall r: Row ensures RowKey(round, r).0 == r.timestamp * 1000 + r.nanoseconds {
      WholeMicros(r.timestamp);
    }
    if r :| r in table && Matches(round, r, s, start, now) {
      var i :| 0 <= i < |table| && table[i] == r;
      assert InWindow(table[i], start, now) && RowKey(round, table[i]) == KeyOf(round, s);
    }
    if KeyOf(round, s) in KeysIn(round, table, start, now) {
      var i :| 0 <= i < |table| && InWindow(table[i], start, now) && RowKey(round, table[i]) == KeyOf(round, s);
      assert table[i] in table && Matches(round, table[i], s, start, now);
    }
  }

  /** A run over no strike inserts nothing, and one more strike is inserted exactly when it is valid, not before the
      window, more than a minute old, and matches no stored row. */
  lemma NewStrikesStep(round: Rounding, table: seq<Row>, strikes: seq<Strike>, s: Strike, hours: int, now: int)
    ensures NewStrikes(round, table, [], hours, now) == []
    ensures var start := now - hours * 3_600_000_000_000;
            NewStrikes(round, table, strikes + [s], hours, now) ==
            NewStrikes(round, table, strikes, hours, now) +
            if && s.timestamp.datetime.Some?
               && start <= s.timestamp.datetime.value < now - 60_000_000_000
               && !exists r :: r in table && Matches(round, r, s, start, now)
            then [s] else []
  {
    var start := now - hours * 3_600_000_000_000;
    assert (strikes + [s])[..|strikes|] == strikes;
    if s.timestamp.datetime.Some? { KnownIffMatched(round, table, s, start, now); }
  }

  /** The table after a run. */
  function Updated(round: Rounding, table: seq<Row>, strikes: seq<Strike>, hours: int, now: int): seq<Row> {
    table + RowsOf(NewStrikes(round, table, strikes, hours, now), None)
  }

  /** `update_strikes`: on an error a transaction stores nothing, and an executor that commits every statement has
      stored the new strikes of the statements before the failed one. */
  method UpdateStrikes(executor: Executor, round: Rounding, strikes: seq<Strike>, hours: int, now: int)
    returns (r: Result<nat, string>)
    requires executor.pending == []
    modifies executor
    ensures executor.pending == []
    ensures r.Ok? ==> executor.committed == Updated(round, old(executor.committed), strikes, hours, now)
                      && r.value == |NewStrikes(round, old(executor.committed), strikes, hours, now)|
    ensures r.Err? && !executor.autocommit ==> executor.committed == old(executor.committed)
    ensures r.Err? && executor.autocommit ==>
              exists n: nat :: StoppedAt(executor.works, old(executor.statements),
                                         NewStrikes(round, old(executor.committed), strikes, hours, now), n, None,
                                         old(executor.committed), executor.committed)
    ensures r.Ok? <==> WorksFor(executor.works, old(executor.statements),
                                StatementsFor(|NewStrikes(round, old(executor.committed), strikes, hours, now)|))
  {
    var start := now - hours * NANOS_PER_HOUR;
    var existing := KeysIn(round, executor.committed, start, now);
    var newStrikes: seq<Strike> := [];
    var i := 0;
    while i < |strikes|
      invariant i <= |strikes|
      invariant newStrikes == Filter(round, existing, strikes[..i], start, now)
    {
      var strike := strikes[i];
      assert strikes[..i + 1][..i] == strikes[..i];
      i := i + 1;
      if strike.timestamp.datetime.None? || !(start <= strike.timestamp.datetime.value <= now) {
        continue;
      }
      if KeyOf(round, strike) in existing {
        continue;
      }
      if strike.timestamp.datetime.value < now - NANOS_PER_MINUTE {
        newStrikes := newStrikes + [strike];
      }
    }
    assert strikes[..|strikes|] == strikes;
    ghost var table, first := executor.committed, executor.statements;
    assert newStrikes == NewStrikes(round, table, strikes, hours, now);
    if newStrikes != [] {
      var inserted := InsertMany(executor, newStrikes, None);
      assert table + [] == table;
      if inserted.Err? {
        ghost var n :| StoppedAt(executor.works, first, newStrikes, n, None, table, executor.Rows());
        executor.Rollback();
        if executor.autocommit {
          assert executor.committed + [] == executor.committed;
          assert StoppedAt(executor.works, first, NewStrikes(round, table, strikes, hours, now), n, None, table,
                           executor.committed);
        }
        return Err(inserted.error);
      }
      executor.Commit();
    }
    r := Ok(|newStrikes|);
  }

  // ---------- runs ----------

  /** A new strike's row is inside the window it was accepted for. */
  lemma NewIsInWindow(round: Rounding, existing: set<Key>, s: Strike, region: Option<int>, start: int, now: int)
    requires IsNew(round, existing, s, start, now)
    ensures InWindow(RowOf(s, region), start, now)
  {
  }

  lemma KeysOfBoth(round: Rounding, a: seq<Row>, b: seq<Row>, start: int, end: int)
    ensures KeysIn(round, a + b, start, end) == KeysIn(round, a, start, end) + KeysIn(round, b, start, end)
  {
    var both := a + b;
    forall i | 0 <= i < |both| && InWindow(both[i], start, end)
      ensures RowKey(round, both[i]) in KeysIn(round, a, start, end) + KeysIn(round, b, start, end)
    {
      assert both[i] == if i < |a| then a[i] else b[i - |a|];
    }
    forall i | 0 <= i < |a| && InWindow(a[i], start, end)
      ensures RowKey(round, a[i]) in KeysIn(round, both, start, end)
    {
      assert both[i] == a[i];
    }
    forall i | 0 <= i < |b| && InWindow(b[i], start, end)
      ensures RowKey(round, b[i]) in KeysIn(round, both, start, end)
    {
      assert both[|a| + i] == b[i];
    }
  }

  /** The rows of new strikes are found under their stored keys. */
  lemma KeysOfNew(round: Rounding, existing: set<Key>, strikes: seq<Strike>, start: int, now: int, n: nat, key: Key)
    requires n <= |Filter(round, existing, strikes, start, now)|
    ensures var all := Filter(round, existing, strikes, start, now);
            key in KeysIn(round, RowsOf(all[..n], None), start, now) <==>
            exists i :: 0 <= i < n && StoredKey(round, all[i]) == key
  {
    var all := Filter(round, existing, strikes, start, now);
    var rows := RowsOf(all[..n], None);
    forall i | 0 <= i < n
      ensures InWindow(rows[i], start, now) && RowKey(round, rows[i]) == StoredKey(round, all[i])
    {
      assert all[i] in all;
      NewIsInWindow(round, existing, all[i], None, start, now);
    }
  }

  /** `key` is what one of the new strikes is found under once it is stored. */
  ghost predicate IsStoredKey(round: Rounding, existing: set<Key>, strikes: seq<Strike>, start: int, now: int,
                              key: Key) {
    exists t :: t in strikes && IsNew(round, existing, t, start, now) && StoredKey(round, t) == key
  }

  /** The known keys are the existing ones and the stored keys of the new strikes. */
  ghost predicate KnownAfter(round: Rounding, existing: set<Key>, known: set<Key>, strikes: seq<Strike>,
                             start: int, now: int) {
    forall key :: key in known <==> key in existing || IsStoredKey(round, existing, strikes, start, now, key)
  }

  /** The keys in the window after a run. */
  lemma KeysAfterRun(round: Rounding, table: seq<Row>, strikes: seq<Strike>, added: seq<Strike>, start: int, now: int)
    requires added == Filter(round, KeysIn(round, table, start, now), strikes, start, now)
    ensures KnownAfter(round, KeysIn(round, table, start, now), KeysIn(round, table + RowsOf(added, None), start, now),
                       strikes, start, now)
  {
    var existing := KeysIn(round, table, start, now);
    KeysOfBoth(round, table, RowsOf(added, None), start, now);
    assert added[..|added|] == added;
    forall key
      ensures key in KeysIn(round, RowsOf(added, None), start, now) <==>
              IsStoredKey(round, existing, strikes, start, now, key)
    {
      KeysOfNew(round, existing, strikes, start, now, |added|, key);
      if IsStoredKey(round, existing, strikes, start, now, key) {
        var t :| t in strikes && IsNew(round, existing, t, start, now) && StoredKey(round, t) == key;
        assert t in added;
      } else {
        assert forall i :: 0 <= i < |added| ==> added[i] in added;
      }
    }
  }

  /** The strikes a run inserts have lateral errors that fit their column. */
  ghost predicate NewFit(round: Rounding, existing: set<Key>, strikes: seq<Strike>, start: int, now: int) {
    forall s :: s in strikes && IsNew(round, existing, s, start, now) ==> FitsLateral(s)
  }

  ghost predicate NanosFit(strikes: seq<Strike>) {
    forall s :: s in strikes ==> IsSmallint(s.timestamp.nanosecond)
  }

  lemma FittingKeyIsStored(round: Rounding, existing: set<Key>, strikes: seq<Strike>, start: int, now: int, s: Strike)
    requires s in strikes && IsNew(round, existing, s, start, now) && IsSmallint(s.timestamp.nanosecond)
    ensures IsStoredKey(round, existing, strikes, start, now, KeyOf(round, s)) <==> FitsLateral(s)
  {
    if FitsLateral(s) {
      StoredKeyIsReadBack(round, s);
    } else {
      forall t | t in strikes && IsNew(round, existing, t, start, now) ensures StoredKey(round, t) != KeyOf(round, s) {
        StoredKeyParts(round, t);
      }
    }
  }

  /** Every new strike is found under the stored key of one that is inserted. */
  ghost predicate NewFound(round: Rounding, existing: set<Key>, strikes: seq<Strike>, start: int, now: int) {
    forall s :: s in strikes && IsNew(round, existing, s, start, now) ==>
                  IsStoredKey(round, existing, strikes, start, now, KeyOf(round, s))
  }

  lemma FittingAreFound(round: Rounding, existing: set<Key>, strikes: seq<Strike>, start: int, now: int)
    requires NanosFit(strikes)
    ensures NewFound(round, existing, strikes, start, now) <==> NewFit(round, existing, strikes, start, now)
  {
    forall s | s in strikes && IsNew(round, existing, s, start, now)
      ensures IsStoredKey(round, existing, strikes, start, now, KeyOf(round, s)) <==> FitsLateral(s)
    {
      FittingKeyIsStored(round, existing, strikes, start, now, s);
    }
  }

  lemma NothingIsAgain(round: Rounding, existing: set<Key>, known: set<Key>, strikes: seq<Strike>, start: int, now: int)
    requires KnownAfter(round, existing, known, strikes, start, now)
    ensures Filter(round, known, strikes, start, now) == [] <==> NewFound(round, existing, strikes, start, now)
    ensures NanosFit(strikes) ==>
              (Filter(round, known, strikes, start, now) == [] <==> NewFit(round, existing, strikes, start, now))
  {
    var again := Filter(round, known, strikes, start, now);
    if again != [] {
      assert again[0] in again;
    }
    if NanosFit(strikes) {
      FittingAreFound(round, existing, strikes, start, now);
    }
  }

  /** A second run with the same strikes and clock inserts nothing exactly when every strike that was new is found under
      the stored key of one that was inserted; with nanoseconds of 16 bits, exactly when the lateral errors of the new
      strikes fit 16 bits.  Whatever was stored before does not matter. */
  lemma SecondRunInsertsNothing(round: Rounding, table: seq<Row>, strikes: seq<Strike>, hours: int, now: int)
    ensures var start := now - hours * NANOS_PER_HOUR;
            var existing := KeysIn(round, table, start, now);
            var again := NewStrikes(round, Updated(round, table, strikes, hours, now), strikes, hours, now);
            && (again == [] <==> NewFound(round, existing, strikes, start, now))
            && (NanosFit(strikes) ==> (again == [] <==> NewFit(round, existing, strikes, start, now)))
  {
    var start := now - hours * NANOS_PER_HOUR;
    var existing := KeysIn(round, table, start, now);
    var added := Filter(round, existing, strikes, start, now);
    var known := KeysIn(round, table + RowsOf(added, None), start, now);
    assert NewStrikes(round, Updated(round, table, strikes, hours, now), strikes, hours, now) ==
           Filter(round, known, strikes, start, now);
    KeysAfterRun(round, table, strikes, added, start, now);
    NothingIsAgain(round, existing, known, strikes, start, now);
  }

  // ---------- keys over many runs ----------

  predicate NormalRow(r: Row) {
    0 <= r.nanoseconds <= 999
  }

  /** What the builder makes: `Timestamp::new` carries nanoseconds into 0..=999, and lateral errors are clamped
      (`src/builder.rs:98-102`). */
  predicate NormalStrike(s: Strike) {
    0 <= s.timestamp.nanosecond <= 999 && FitsLateral(s)
  }

  ghost predicate AllNormal(table: seq<Row>) {
    forall i :: 0 <= i < |table| ==> NormalRow(table[i])
  }

  /** No two rows have the same key. */
  ghost predicate KeysApart(round: Rounding, table: seq<Row>) {
    forall i, j :: 0 <= i < j < |table| ==> RowKey(round, table[i]) != RowKey(round, table[j])
  }

  ghost predicate StrikesApart(round: Rounding, strikes: seq<Strike>) {
    forall i, j :: 0 <= i < j < |strikes| ==> KeyOf(round, strikes[i]) != KeyOf(round, strikes[j])
  }

  /** With nanoseconds in 0..=999 a key determines the stored instant. */
  lemma SameKeySameInstant(round: Rounding, a: Row, b: Row)
    requires NormalRow(a) && NormalRow(b) && RowKey(round, a) == RowKey(round, b)
    ensures a.timestamp == b.timestamp
  {
    WholeMicros(a.timestamp);
    WholeMicros(b.timestamp);
  }

  /** No run inserts a strike whose key is stored anywhere in the table, in the window or not. */
  lemma NoStoredKeyIsInserted(round: Rounding, table: seq<Row>, strikes: seq<Strike>, hours: int, now: int,
                              s: Strike, i: nat)
    requires AllNormal(table) && i < |table| && NormalStrike(s)
    requires s in NewStrikes(round, table, strikes, hours, now)
    ensures RowKey(round, table[i]) != KeyOf(round, s)
  {
    var start := now - hours * NANOS_PER_HOUR;
    var existing := KeysIn(round, table, start, now);
    NewIsInWindow(round, existing, s, None, start, now);
    StoredKeyIsReadBack(round, s);
    if RowKey(round, table[i]) == KeyOf(round, s) {
      SameKeySameInstant(round, table[i], RowOf(s, None));
      assert false;
    }
  }

  /** No two listed strikes that are both in the window, older than a minute and not stored there share a key. */
  ghost predicate NewApart(round: Rounding, existing: set<Key>, strikes: seq<Strike>, start: int, now: int) {
    forall i, j :: 0 <= i < j < |strikes| && IsNew(round, existing, strikes[i], start, now)
                   && IsNew(round, existing, strikes[j], start, now) ==>
                     KeyOf(round, strikes[i]) != KeyOf(round, strikes[j])
  }

  ghost predicate HasOtherKey(round: Rounding, strikes: seq<Strike>, s: Strike) {
    forall t :: t in strikes ==> KeyOf(round, t) != KeyOf(round, s)
  }

  lemma NewApartStep(round: Rounding, existing: set<Key>, strikes: seq<Strike>, s: Strike, start: int, now: int)
    ensures NewApart(round, existing, strikes + [s], start, now) <==>
            && NewApart(round, existing, strikes, start, now)
            && (IsNew(round, existing, s, start, now) ==>
                  HasOtherKey(round, Filter(round, existing, strikes, start, now), s))
  {
    var longer, found := strikes + [s], Filter(round, existing, strikes, start, now);
    assert longer[|strikes|] == s && forall i :: 0 <= i < |strikes| ==> longer[i] == strikes[i];
    if NewApart(round, existing, longer, start, now) {
      forall i, j | 0 <= i < j < |strikes| && IsNew(round, existing, strikes[i], start, now)
                    && IsNew(round, existing, strikes[j], start, now)
        ensures KeyOf(round, strikes[i]) != KeyOf(round, strikes[j])
      {
        assert IsNew(round, existing, longer[i], start, now) && IsNew(round, existing, longer[j], start, now);
      }
      if IsNew(round, existing, s, start, now) {
        forall t | t in found ensures KeyOf(round, t) != KeyOf(round, s) {
          var i :| 0 <= i < |strikes| && strikes[i] == t;
          assert IsNew(round, existing, longer[i], start, now) && IsNew(round, existing, longer[|strikes|], start, now);
        }
      }
    }
  }

  lemma {:induction false} FilterApart(round: Rounding, existing: set<Key>, strikes: seq<Strike>, start: int, now: int)
    ensures StrikesApart(round, Filter(round, existing, strikes, start, now)) <==>
            NewApart(round, existing, strikes, start, now)
  {
    if strikes != [] {
      var last := |strikes| - 1;
      var before := Filter(round, existing, strikes[..last], start, now);
      FilterApart(round, existing, strikes[..last], start, now);
      NewApartStep(round, existing, strikes[..last], strikes[last], start, now);
      assert strikes[..last] + [strikes[last]] == strikes;
      if IsNew(round, existing, strikes[last], start, now) {
        assert Filter(round, existing, strikes, start, now) == before + [strikes[last]];
        AppendApart(round, before, strikes[last]);
      } else {
        assert Filter(round, existing, strikes, start, now) == before;
      }
    }
  }

  lemma AppendApart(round: Rounding, strikes: seq<Strike>, s: Strike)
    ensures StrikesApart(round, strikes + [s]) <==> StrikesApart(round, strikes) && HasOtherKey(round, strikes, s)
  {
    var longer := strikes + [s];
    assert longer[|strikes|] == s && forall i :: 0 <= i < |strikes| ==> longer[i] == strikes[i];
    if StrikesApart(round, longer) {
      forall t | t in strikes ensures KeyOf(round, t) != KeyOf(round, s) {
        var i :| 0 <= i < |strikes| && strikes[i] == t;
        assert KeyOf(round, longer[i]) != KeyOf(round, longer[|strikes|]);
      }
    }
  }

  /** A run keeps the keys of the table apart exactly when no two listed strikes that are in the window, older than a
      minute and not stored there share a key: strikes listed twice in one download are not recognized. */
  lemma KeysStayApart(round: Rounding, table: seq<Row>, strikes: seq<Strike>, hours: int, now: int)
    requires AllNormal(table) && KeysApart(round, table) && forall s :: s in strikes ==> NormalStrike(s)
    ensures var start := now - hours * NANOS_PER_HOUR;
            KeysApart(round, Updated(round, table, strikes, hours, now)) <==>
            NewApart(round, KeysIn(round, table, start, now), strikes, start, now)
    ensures AllNormal(Updated(round, table, strikes, hours, now))
  {
    var start := now - hours * NANOS_PER_HOUR;
    FilterApart(round, KeysIn(round, table, start, now), strikes, start, now);
    InsertedStayApart(round, table, strikes, hours, now);
  }

  lemma InsertedStayApart(round: Rounding, table: seq<Row>, strikes: seq<Strike>, hours: int, now: int)
    requires AllNormal(table) && KeysApart(round, table) && forall s :: s in strikes ==> NormalStrike(s)
    ensures KeysApart(round, Updated(round, table, strikes, hours, now)) <==>
            StrikesApart(round, NewStrikes(round, table, strikes, hours, now))
    ensures AllNormal(Updated(round, table, strikes, hours, now))
  {
    var added := NewStrikes(round, table, strikes, hours, now);
    var rows, all := RowsOf(added, None), Updated(round, table, strikes, hours, now);
    forall k | 0 <= k < |added|
      ensures RowKey(round, rows[k]) == KeyOf(round, added[k]) && NormalStrike(added[k]) && all[|table| + k] == rows[k]
    {
      assert added[k] in added;
      StoredKeyIsReadBack(round, added[k]);
    }
    forall i, k | 0 <= i < |table| && 0 <= k < |added| ensures RowKey(round, table[i]) != RowKey(round, rows[k]) {
      assert added[k] in added;
      NoStoredKeyIsInserted(round, table, strikes, hours, now, added[k], i);
    }
    if KeysApart(round, all) {
      forall i, j | 0 <= i < j < |added| ensures KeyOf(round, added[i]) != KeyOf(round, added[j]) {
        assert RowKey(round, all[|table| + i]) != RowKey(round, all[|table| + j]);
      }
    }
  }

  datatype Download = Download(strikes: seq<Strike>, hours: int, now: int)

  function AfterRuns(round: Rounding, table: seq<Row>, runs: seq<Download>): seq<Row> {
    if runs == [] then table
    else
      var last := runs[|runs| - 1];
      Updated(round, AfterRuns(round, table, runs[..|runs| - 1]), last.strikes, last.hours, last.now)
  }

  /** A download whose strikes are normalized and listed once each. */
  ghost predicate Clean(round: Rounding, d: Download) {
    StrikesApart(round, d.strikes) && forall s :: s in d.strikes ==> NormalStrike(s)
  }

  lemma CleanRunKeepsKeysApart(round: Rounding, table: seq<Row>, d: Download)
    requires CleanTable(round, table) && Clean(round, d)
    ensures CleanTable(round, Updated(round, table, d.strikes, d.hours, d.now))
  {
    KeysStayApart(round, table, d.strikes, d.hours, d.now);
  }

  /** Normalized rows without a repeated key. */
  ghost predicate CleanTable(round: Rounding, table: seq<Row>) {
    AllNormal(table) && KeysApart(round, table)
  }

  /** Over any sequence of runs, at any times and in any order, no key is ever stored twice, as long as no download
      lists a key twice. */
  lemma {:induction false} RunsKeepKeysApart(round: Rounding, table: seq<Row>, runs: seq<Download>)
    requires CleanTable(round, table)
    requires forall d :: d in runs ==> Clean(round, d)
    ensures CleanTable(round, AfterRuns(round, table, runs))
  {
    if runs != [] {
      var d, before := runs[|runs| - 1], AfterRuns(round, table, runs[..|runs| - 1]);
      RunsKeepKeysApart(round, table, runs[..|runs| - 1]);
      CleanRunKeepsKeysApart(round, before, d);
    }
  }

  // ---------- where it fails ----------

  /** A new strike listed twice in one download is stored twice. */
  lemma ListedTwiceStoredTwice(round: Rounding, table: seq<Row>, s: Strike, hours: int, now: int)
    requires var start := now - hours * NANOS_PER_HOUR;
             IsNew(round, KeysIn(round, table, start, now), s, start, now)
    ensures Updated(round, table, [s, s], hours, now) == table + [RowOf(s, None), RowOf(s, None)]
  {
    var start := now - hours * NANOS_PER_HOUR;
    FilterTwice(round, KeysIn(round, table, start, now), s, start, now);
    assert RowsOf([s, s], None) == [RowOf(s, None), RowOf(s, None)];
  }

  lemma FilterTwice(round: Rounding, existing: set<Key>, s: Strike, start: int, now: int)
    requires IsNew(round, existing, s, start, now)
    ensures Filter(round, existing, [s, s], start, now) == [s, s]
  {
    assert [s, s][..1] == [s] && [s][..0] == [];
    assert Filter(round, existing, [], start, now) == [];
    assert Filter(round, existing, [s], start, now) == [s];
  }

  /** Nanoseconds outside 0..=999 hide a stored row from the window: the same key is stored again. */
  lemma CarriedNanosecondsAreMissed(round: Rounding, m: int)
    ensures var before := Row(m - 1, 1000, 0.0, 0.0, None, 1, None, None, None);
            var s := Strike(Stamp(Some(m * 1000), 0), 0.0, 0.0, None, None, None, None, None);
            && RowKey(round, before) == KeyOf(round, s)
            && IsNew(round, KeysIn(round, [before], m * 1000, m * 1000 + NANOS_PER_HOUR), s,
                     m * 1000, m * 1000 + NANOS_PER_HOUR)
  {
    WholeMicros(m - 1);
    WholeMicros(m);
  }
}
