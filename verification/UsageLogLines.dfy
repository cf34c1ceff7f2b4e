/** Reading a usage-log file back by lines: what the writer of `src/service_log.rs` added, one entry for each line. */
module UsageLogLines {
  import opened Common
  import opened ServicelogWriting
  import ServicelogRow

  // ---------- lines of a text ----------

  /** The parts between line ends. */
  function Lines(s: string): seq<string>
    decreases |s|
  {
    var end := Find(s, '\n', 0);
    if end == |s| then [s] else [s[..end]] + Lines(s[end + 1..])
  }

  lemma LinesOfRow(row: string, rest: string)
    requires '\n' !in row
    ensures Lines(row + "\n" + rest) == [row] + Lines(rest)
  {
    var s := row + "\n" + rest;
    assert s[..|row|] == s[0..|row|] == row && s[|row| + 1..] == rest;
    FindFirst(s, '\n', 0, |row|);
  }

  lemma LinesOfPlain(s: string)
    requires '\n' !in s
    ensures Lines(s) == [s]
  {
    assert s[0..|s|] == s;
    FindFirst(s, '\n', 0, |s|);
  }

  lemma {:induction false} LinesArePlain(s: string, line: string)
    requires line in Lines(s)
    ensures '\n' !in line
    decreases |s|
  {
    var end := Find(s, '\n', 0);
    assert s[0..end] == s[..end];
    if end == |s| {
      assert s[..end] == s;
    } else if line != s[..end] {
      LinesArePlain(s[end + 1..], line);
    }
  }

  // ---------- what was added for a day ----------

  /** The rows written for a day, in order. */
  function WrittenRows(events: seq<Event>, steps: seq<Step>, day: int, n: nat): seq<string>
    requires n <= |events| == |steps|
  {
    if n == 0 then []
    else
      WrittenRows(events, steps, day, n - 1)
      + if events[n - 1].day == day && steps[n - 1].outcome == Written then [events[n - 1].row] else []
  }

  predicate NoneBroken(rows: seq<string>) {
    forall r :: r in rows ==> '\n' !in r
  }

  /** Rows, each with its line end. */
  function Text(rows: seq<string>): string {
    if rows == [] then "" else Text(rows[..|rows| - 1]) + (rows[|rows| - 1] + "\n")
  }

  lemma TextStep(rows: seq<string>, row: string)
    ensures Text(rows + [row]) == Text(rows) + (row + "\n")
  {
    assert (rows + [row])[..|rows|] == rows;
  }

  lemma {:induction false} WholeRowsAreText(events: seq<Event>, steps: seq<Step>, day: int, n: nat)
    requires n <= |events| == |steps|
    ensures WholeRows(events, steps, day, n) == Text(WrittenRows(events, steps, day, n))
  {
    if n > 0 {
      WholeRowsAreText(events, steps, day, n - 1);
      var rows := WrittenRows(events, steps, day, n - 1);
      TextStep(rows, events[n - 1].row);
      if !(events[n - 1].day == day && steps[n - 1].outcome == Written) {
        assert WrittenRows(events, steps, day, n) == rows;
      }
    }
  }

  lemma Regroup<T>(a: seq<T>, b: seq<T>, c: seq<T>)
    ensures a + b + c == a + (b + c)
  {
  }

  lemma LinesOfLast(front: seq<string>, row: string, rest: string)
    requires '\n' !in row && Lines(Text(front) + (row + "\n" + rest)) == front + Lines(row + "\n" + rest)
    ensures Lines(Text(front + [row]) + rest) == front + [row] + Lines(rest)
  {
    TextStep(front, row);
    LinesOfRow(row, rest);
    Regroup(Text(front), row + "\n", rest);
    Regroup(front, [row], Lines(rest));
  }

  lemma {:induction false} LinesOfText(rows: seq<string>, rest: string)
    requires NoneBroken(rows)
    ensures Lines(Text(rows) + rest) == rows + Lines(rest)
  {
    if rows == [] {
      assert "" + rest == rest;
    } else {
      var front, row := rows[..|rows| - 1], rows[|rows| - 1];
      LinesOfText(front, row + "\n" + rest);
      LinesOfLast(front, row, rest);
      assert front + [row] == rows;
    }
  }

  lemma {:induction false} WrittenAreEntries(events: seq<Event>, steps: seq<Step>, day: int, n: nat, row: string)
    requires n <= |events| == |steps| && row in WrittenRows(events, steps, day, n)
    ensures exists i :: 0 <= i < n && events[i].day == day && events[i].row == row
  {
    if n > 0 && row in WrittenRows(events, steps, day, n - 1) {
      WrittenAreEntries(events, steps, day, n - 1, row);
    }
  }

  lemma AddedByLines(events: seq<Event>, steps: seq<Step>, day: int, n: nat, tail: string)
    requires n <= |events| == |steps| && RowsThenTail(events, steps, day, n, tail)
    ensures Lines(Added(events, steps, day, n)) == WrittenRows(events, steps, day, n) + [tail] <==>
            NoneBroken(WrittenRows(events, steps, day, n)) && '\n' !in tail
  {
    var rows := WrittenRows(events, steps, day, n);
    if NoneBroken(rows) && '\n' !in tail {
      WholeRowsAreText(events, steps, day, n);
      LinesOfText(rows, tail);
      LinesOfPlain(tail);
    }
    if Lines(Added(events, steps, day, n)) == rows + [tail] {
      assert tail == (rows + [tail])[|rows|];
      forall r | r in rows + [tail] ensures '\n' !in r {
        LinesArePlain(Added(events, steps, day, n), r);
      }
      assert forall r :: r in rows ==> r in rows + [tail];
      assert tail in rows + [tail];
    }
  }

  /** When no entry of the day holds a line end, no written row and no cut-off line does. */
  lemma PlainEntries(events: seq<Event>, steps: seq<Step>, day: int, n: nat, tail: string)
    requires n <= |events| == |steps| && RowsThenTail(events, steps, day, n, tail)
    requires forall i :: 0 <= i < n && events[i].day == day ==> '\n' !in events[i].row
    ensures NoneBroken(WrittenRows(events, steps, day, n)) && '\n' !in tail
  {
    forall row | row in WrittenRows(events, steps, day, n) ensures '\n' !in row {
      WrittenAreEntries(events, steps, day, n, row);
    }
    if tail != "" {
      var i :| 0 <= i < n && events[i].day == day && steps[i].outcome == Failed && tail < events[i].row + "\n";
      assert tail == events[i].row[..|tail|];
    }
  }

  /** When failures end their day, splitting what was added to a file at its line ends gives the written rows in order
      and then the cut-off one, exactly when none of them holds a line end: always, when no entry of the day does. */
  lemma FileIsReadByLines(start: map<int, string>, events: seq<Event>, steps: seq<Step>, day: int, n: nat)
    returns (tail: string)
    requires IsRun(start, events, steps) && n <= |events| && OnlyDroppedAfterFailed(events, steps)
    ensures tail == "" || CutTail(events, steps, day, n, tail)
    ensures Lines(Added(events, steps, day, n)) == WrittenRows(events, steps, day, n) + [tail] <==>
            NoneBroken(WrittenRows(events, steps, day, n)) && '\n' !in tail
    ensures (forall i :: 0 <= i < n && events[i].day == day ==> '\n' !in events[i].row) ==>
              Lines(Added(events, steps, day, n)) == WrittenRows(events, steps, day, n) + [tail]
  {
    tail := RowsThenOneTail(start, events, steps, day, n);
    AddedByLines(events, steps, day, n, tail);
    if forall i :: 0 <= i < n && events[i].day == day ==> '\n' !in events[i].row {
      PlainEntries(events, steps, day, n, tail);
    }
  }

  // ---------- which fields can break a line ----------

  lemma {:induction false} CharacterOfRow(f: seq<string>, n: nat, c: char)
    requires |f| == 15 && 3 <= n <= 15 && c != '\t'
    ensures c in ServicelogRow.UpTo(f, n) <==> exists i :: 0 <= i < n && c in f[i]
  {
    if n == 4 {
      CharacterOfRow(f, 3, c);
      assert c in ServicelogRow.UpTo(f, 4) <==> c in ServicelogRow.UpTo(f, 3) || c in f[3];
    } else if n > 4 {
      CharacterOfRow(f, n - 1, c);
      assert c in ServicelogRow.UpTo(f, n) <==> c in ServicelogRow.UpTo(f, n - 1) || c in f[n - 1];
    } else {
      assert c in ServicelogRow.UpTo(f, 3) <==> c in f[0] || c in f[1] || c in f[2];
    }
  }

  lemma NumberHasNoLineEnd(n: int)
    ensures '\n' !in Signed(n)
  {
  }

  lemma OptionalHasNoLineEnd(v: Option<int>)
    ensures '\n' !in ServicelogRow.SignedOrDash(v) && '\n' !in ServicelogRow.VersionText(v)
  {
    if v.Some? { NumberHasNoLineEnd(v.value); }
  }

  lemma TimeHasNoLineEnd(nowUs: int)
    ensures '\n' !in ServicelogRow.FormatTimestamp(nowUs)
  {
  }

  /** The fields that are numbers or times. */
  predicate IsNumber(i: nat) {
    i == 0 || i == 4 || 6 <= i < 14
  }

  lemma NumberFieldHasNoLineEnd(e: ServicelogRow.Entry, platform: string, version: Option<int>,
                                country: Option<string>, city: Option<string>, f: seq<string>, i: nat)
    requires ServicelogRow.AreFields(f, e, platform, version, country, city) && IsNumber(i)
    ensures '\n' !in f[i]
  {
    if i == 0 {
      TimeHasNoLineEnd(e.nowUs);
    } else if i == 4 {
      OptionalHasNoLineEnd(version);
    } else if i < 8 {
      NumberHasNoLineEnd(if i == 6 then e.minuteOffset else e.minuteLength);
    } else if i == 9 {
      NumberHasNoLineEnd(e.region);
    } else {
      OptionalHasNoLineEnd(if i == 8 then e.gridBaselength
                           else if i == 10 then e.countThreshold
                           else if i == 11 then ServicelogRow.XOf(e.local)
                           else if i == 12 then ServicelogRow.YOf(e.local)
                           else ServicelogRow.AreaOf(e.local));
    }
  }

  /** A recorded row holds a line end exactly when the country, the city, the platform, the query type or the printed
      fill does. */
  lemma RowHoldsLineEnd(e: ServicelogRow.Entry, platform: string, version: Option<int>, country: Option<string>,
                        city: Option<string>, f: seq<string>)
    requires ServicelogRow.AreFields(f, e, platform, version, country, city)
    ensures '\n' in ServicelogRow.Row(f) <==>
            '\n' in ServicelogRow.OrDash(country) || '\n' in ServicelogRow.OrDash(city) || '\n' in platform
            || e.queryType == '\n' || '\n' in ServicelogRow.OrDash(e.fill)
  {
    CharacterOfRow(f, 15, '\n');
    forall i | 0 <= i < 15 && IsNumber(i) ensures '\n' !in f[i] {
      NumberFieldHasNoLineEnd(e, platform, version, country, city, f, i);
    }
    FiveFields(f, '\n');
  }

  lemma FiveFields(f: seq<string>, c: char)
    requires |f| == 15 && forall i :: 0 <= i < 15 && IsNumber(i) ==> c !in f[i]
    ensures (exists i :: 0 <= i < 15 && c in f[i]) <==> c in f[1] || c in f[2] || c in f[3] || c in f[5] || c in f[14]
  {
  }
}
