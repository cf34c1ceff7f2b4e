/** The day-rolling usage-log writer of `src/service_log.rs`: which rows reach which file when any flush,
    open or write may fail. */
module ServicelogWriting {
  import opened Common
  import opened Instants

  const MICROS_PER_DAY: int := 86_400_000_000

  /** `entry_day`: the UTC day of an instant, the first day of 1970 when the calendar has no such day. */
  function EntryDay(nowUs: int): (day: int)
    ensures FIRST_DAY <= day <= LAST_DAY
    ensures if FIRST_DAY * 86_400_000_000 <= nowUs < (LAST_DAY + 1) * 86_400_000_000
            then day * 86_400_000_000 <= nowUs < (day + 1) * 86_400_000_000 else day == 0
  {
    var day := nowUs / MICROS_PER_DAY;
    if FIRST_DAY <= day <= LAST_DAY then day else 0
  }

  datatype Outcome = Written | Failed | Dropped

  /** What the file system does during one append: whether a flush or an open would succeed, and how many
      characters of the line it would take before an error. */
  datatype Io = Io(flushOk: bool, openOk: bool, room: nat)

  /** The writer's fields, and the files of the log directory by day. */
  datatype Writer = Writer(currentDay: Option<int>, disabledDay: Option<int>, failed: bool, droppedRows: nat,
                           files: map<int, string>)

  function FileText(files: map<int, string>, day: int): string {
    if day in files then files[day] else ""
  }

  /** Result of one append: the writer after it, its outcome, and the text it added to the day's file. */
  datatype Step = Step(after: Writer, outcome: Outcome, added: string)

  function Initial(files: map<int, string>): Writer {
    Writer(None, None, false, 0, files)
  }

  /** A new day takes back the decision to stop writing. */
  function Reset(w: Writer, day: int): Writer {
    if w.disabledDay.Some? && w.disabledDay.value != day then w.(disabledDay := None, failed := false) else w
  }

  function GiveUp(w: Writer, day: int, added: string): Step {
    Step(w.(failed := true, disabledDay := Some(day)), Failed, added)
  }

  /** `write_all` of the row and of the newline, to the file of `day`. */
  function WriteLine(w: Writer, day: int, row: string, io: Io): Step {
    var line := row + "\n";
    var added := if io.room < |line| then line[..io.room] else line;
    var w1 := w.(files := w.files[day := FileText(w.files, day) + added]);
    if io.room < |line| then GiveUp(w1, day, added) else Step(w1, Written, added)
  }

  /** `append` and `try_append`. */
  function Append(w: Writer, day: int, row: string, io: Io): Step {
    var w0 := Reset(w, day);
    if w0.disabledDay == Some(day) then
      Step(w0.(droppedRows := w0.droppedRows + 1), Dropped, "")
    else if w0.currentDay == Some(day) then
      WriteLine(w0, day, row, io)
    else if w0.currentDay.Some? && !io.flushOk then
      GiveUp(w0, day, "")
    else if !io.openOk then
      GiveUp(w0, day, "")
    else
      WriteLine(w0.(currentDay := Some(day), files := w0.files[day := FileText(w0.files, day)]), day, row, io)
  }

  /** The log directory: every file's text by day. */
  class LogDirectory {
    var files: map<int, string>

    constructor (files: map<int, string>)
      ensures this.files == files
    {
      this.files := files;
    }

    /** Open for appending, creating the file when it is missing. */
    method Open(day: int, io: Io) returns (ok: bool)
      modifies this
      ensures ok == io.openOk
      ensures files == if ok then old(files)[day := FileText(old(files), day)] else old(files)
    {
      ok := io.openOk;
      if ok {
        files := files[day := FileText(files, day)];
      }
    }

    /** `write_all`: on an error only a part of the text is in the file. */
    method WriteAll(day: int, text: string, room: nat) returns (ok: bool)
      modifies this
      ensures ok == (|text| <= room)
      ensures files == old(files)[day := FileText(old(files), day) + if ok then text else text[..room]]
    {
      ok := |text| <= room;
      files := files[day := FileText(files, day) + (if ok then text else text[..room])];
    }
  }

  class ServicelogWriter {
    var currentDay: Option<int>
    /** The day of the open file. */
    var file: Option<int>
    var disabledDay: Option<int>
    var failed: bool
    var droppedRows: nat
    const directory: LogDirectory

    ghost predicate Valid()
      reads this
    {
      file == currentDay
    }

    ghost function Value(): Writer
      reads this, directory
    {
      Writer(currentDay, disabledDay, failed, droppedRows, directory.files)
    }

    constructor (directory: LogDirectory)
      ensures Valid() && this.directory == directory && Value() == Initial(directory.files)
    {
      currentDay, file, disabledDay, failed, droppedRows := None, None, None, false, 0;
      this.directory := directory;
    }

    /** `append` */
    method AppendRow(nowUs: int, row: string, io: Io) returns (outcome: Outcome)
      requires Valid()
      modifies this, directory
      ensures Valid()
      ensures var step := Append(old(Value()), EntryDay(nowUs), row, io);
              Value() == step.after && outcome == step.outcome
    {
      var day := EntryDay(nowUs);
      if disabledDay.Some? && disabledDay.value != day {
        disabledDay := None;
        failed := false;
      }
      if disabledDay == Some(day) {
        droppedRows := droppedRows + 1;
        return Dropped;
      }
      var ok := TryAppend(day, row, io);
      if ok {
        outcome := Written;
      } else {
        failed := true;
        disabledDay := Some(day);
        outcome := Failed;
      }
    }

    /** `try_append` */
    method TryAppend(day: int, row: string, io: Io) returns (ok: bool)
      requires Valid() && disabledDay != Some(day)
      requires disabledDay.Some? ==> disabledDay.value == day
      modifies this, directory
      ensures Valid()
      ensures var step := Append(old(Value()), day, row, io);
              ok == (step.outcome == Written) && step.outcome != Dropped &&
              Value() == step.after.(failed := old(failed), disabledDay := old(disabledDay))
    {
      if currentDay != Some(day) {
        if file.Some? && !io.flushOk {
          return false;
        }
        var isOpen := directory.Open(day, io);
        if !isOpen {
          return false;
        }
        file := Some(day);
        currentDay := Some(day);
      }
      ghost var before := FileText(directory.files, day);
      ok := directory.WriteAll(day, row, io.room);
      if ok {
        ok := directory.WriteAll(day, "\n", io.room - |row|);
        assert before + row + "\n" == before + (row + "\n");
        assert before + row + "\n"[..0] == before + (row + "\n")[..|row|];
      } else {
        assert row[..io.room] == (row + "\n")[..io.room];
      }
    }
  }

  // ---------- runs ----------

  /** One append of a run: the day of its entry, its row, and what the file system does. */
  datatype Event = Event(day: int, row: string, io: Io)

  /** The writer before append `i`. */
  function Before(start: map<int, string>, steps: seq<Step>, i: nat): Writer
    requires i <= |steps|
  {
    if i == 0 then Initial(start) else steps[i - 1].after
  }

  ghost predicate Follows(start: map<int, string>, events: seq<Event>, steps: seq<Step>, i: nat)
    requires i < |events| && |steps| == |events|
  {
    steps[i] == Append(Before(start, steps, i), events[i].day, events[i].row, events[i].io)
  }

  /** The steps a new writer makes over `events`, from a directory holding `start`. */
  ghost predicate IsRun(start: map<int, string>, events: seq<Event>, steps: seq<Step>) {
    |steps| == |events| && forall i :: 0 <= i < |events| ==> Follows(start, events, steps, i)
  }

  lemma {:induction false} RunExists(start: map<int, string>, events: seq<Event>) returns (steps: seq<Step>)
    ensures IsRun(start, events, steps)
  {
    steps := [];
    if events != [] {
      var last := |events| - 1;
      var shorter := RunExists(start, events[..last]);
      steps := shorter + [Append(Before(start, shorter, last), events[last].day, events[last].row, events[last].io)];
      forall i | 0 <= i < |events| ensures Follows(start, events, steps, i) {
        if i < last { assert Follows(start, events[..last], shorter, i); }
      }
    }
  }

  /** The texts the first `n` appends added to the file of `day`, one after the other. */
  function Added(events: seq<Event>, steps: seq<Step>, day: int, n: nat): string
    requires n <= |events| == |steps|
  {
    if n == 0 then ""
    else Added(events, steps, day, n - 1) + if events[n - 1].day == day then steps[n - 1].added else ""
  }

  function DroppedCount(steps: seq<Step>, n: nat): nat
    requires n <= |steps|
  {
    if n == 0 then 0 else DroppedCount(steps, n - 1) + if steps[n - 1].outcome == Dropped then 1 else 0
  }

  /** What one step may do to the files: a written row is whole, a failed one is cut short, a dropped one adds
      nothing; only the file of its own day changes. */
  ghost predicate AddsToItsDay(before: Writer, step: Step, day: int, row: string) {
    && FileText(step.after.files, day) == FileText(before.files, day) + step.added
    && (forall d :: d != day ==> FileText(step.after.files, d) == FileText(before.files, d))
    && (step.outcome == Written ==> step.added == row + "\n")
    && (step.outcome == Failed ==> step.added < row + "\n")
    && (step.outcome == Dropped ==> step.added == "")
    && step.after.droppedRows == before.droppedRows + if step.outcome == Dropped then 1 else 0
  }

  lemma WriteLineAdds(w: Writer, day: int, row: string, io: Io)
    ensures AddsToItsDay(w, WriteLine(w, day, row, io), day, row)
  {
  }

  lemma AppendAdds(w: Writer, day: int, row: string, io: Io)
    ensures AddsToItsDay(w, Append(w, day, row, io), day, row)
  {
    var w0 := Reset(w, day);
    if w0.disabledDay != Some(day) {
      if w0.currentDay == Some(day) {
        WriteLineAdds(w0, day, row, io);
      } else {
        WriteLineAdds(w0.(currentDay := Some(day), files := w0.files[day := FileText(w0.files, day)]), day, row, io);
      }
    }
  }

  lemma StepAdds(start: map<int, string>, events: seq<Event>, steps: seq<Step>, i: nat)
    requires IsRun(start, events, steps) && i < |events|
    ensures AddsToItsDay(Before(start, steps, i), steps[i], events[i].day, events[i].row)
  {
    assert Follows(start, events, steps, i);
    AppendAdds(Before(start, steps, i), events[i].day, events[i].row, events[i].io);
  }

  /** For every run: each file is what it was, followed by what the appends of its own day added, in order. */
  lemma {:induction false} FilesHoldTheirDays(start: map<int, string>, events: seq<Event>, steps: seq<Step>, day: int,
                                              n: nat)
    requires IsRun(start, events, steps) && n <= |events|
    ensures FileText(Before(start, steps, n).files, day) == FileText(start, day) + Added(events, steps, day, n)
  {
    if n > 0 {
      FilesHoldTheirDays(start, events, steps, day, n - 1);
      StepAdds(start, events, steps, n - 1);
      if events[n - 1].day == day {
        AppendLast(FileText(start, day), Added(events, steps, day, n - 1), steps[n - 1].added);
      }
    }
  }

  lemma AppendLast(a: string, b: string, c: string)
    ensures (a + b) + c == a + (b + c)
  {
  }

  lemma {:induction false} DroppedRowsAreCounted(start: map<int, string>, events: seq<Event>, steps: seq<Step>, n: nat)
    requires IsRun(start, events, steps) && n <= |events|
    ensures Before(start, steps, n).droppedRows == DroppedCount(steps, n)
  {
    if n > 0 {
      DroppedRowsAreCounted(start, events, steps, n - 1);
      StepAdds(start, events, steps, n - 1);
    }
  }

  // ---------- failures ----------

  /** Once the entries leave a day they do not come back to it. */
  ghost predicate DaysDoNotReturn(events: seq<Event>) {
    forall i, j, k :: 0 <= i < j < k < |events| && events[i].day == events[k].day ==> events[j].day == events[i].day
  }

  /** A day's rows after a failed one are all dropped. */
  ghost predicate OnlyDroppedAfterFailed(events: seq<Event>, steps: seq<Step>)
    requires |steps| == |events|
  {
    forall i, k :: 0 <= i < k < |events| && events[i].day == events[k].day && steps[i].outcome == Failed ==>
      steps[k].outcome == Dropped
  }

  ghost predicate SameDay(events: seq<Event>, i: nat, n: nat) {
    i < n <= |events| && forall j :: i <= j < n ==> events[j].day == events[i].day
  }

  /** How one step decides: a failure disables its day, a disabled day only drops, and any other day is served: its row
      is written exactly when its file is open, or can be opened once the file of another day is flushed, and the line
      fits. */
  lemma StepDecides(start: map<int, string>, events: seq<Event>, steps: seq<Step>, i: nat)
    requires IsRun(start, events, steps) && i < |events|
    ensures var before, step, e := Before(start, steps, i), steps[i], events[i];
            && (step.outcome == Failed ==> step.after.disabledDay == Some(e.day))
            && (before.disabledDay == Some(e.day) ==> step.outcome == Dropped && step.after.disabledDay == Some(e.day))
            && (before.disabledDay != Some(e.day) ==> step.outcome != Dropped)
            && (step.outcome == Written ==> step.after.disabledDay == None)
            && (before.disabledDay != Some(e.day) ==>
                  (step.outcome == Written <==>
                     (before.currentDay == Some(e.day) || ((before.currentDay == None || e.io.flushOk) && e.io.openOk))
                     && |e.row| < e.io.room))
  {
    assert Follows(start, events, steps, i);
  }

  /** The open file is the one of the last day that was written, or at least opened, and the failure mark stands for a
      disabled day. */
  lemma StepKeeps(start: map<int, string>, events: seq<Event>, steps: seq<Step>, i: nat)
    requires IsRun(start, events, steps) && i < |events|
    ensures var before, step, e := Before(start, steps, i), steps[i], events[i];
            && (step.outcome == Written ==> step.after.currentDay == Some(e.day))
            && (step.after.currentDay != before.currentDay ==> step.after.currentDay == Some(e.day) && e.io.openOk)
            && (before.failed == before.disabledDay.Some? ==> step.after.failed == step.after.disabledDay.Some?)
  {
    assert Follows(start, events, steps, i);
  }

  /** The file system works for the first `n` entries. */
  predicate Healthy(events: seq<Event>, n: nat)
    requires n <= |events|
  {
    forall i :: 0 <= i < n ==> events[i].io.flushOk && events[i].io.openOk && |events[i].row| < events[i].io.room
  }

  /** As long as the file system works, every row is written, and each file gets the rows of its day in order. */
  lemma {:induction false} HealthyRunWritesAll(start: map<int, string>, events: seq<Event>, steps: seq<Step>, day: int,
                                               n: nat)
    requires IsRun(start, events, steps) && n <= |events| && Healthy(events, n)
    ensures Before(start, steps, n).disabledDay == None && DroppedCount(steps, n) == 0
    ensures FileText(Before(start, steps, n).files, day) == FileText(start, day) + RowsOfDay(events, day, n)
  {
    if n > 0 {
      HealthyRunWritesAll(start, events, steps, day, n - 1);
      StepDecides(start, events, steps, n - 1);
      StepAdds(start, events, steps, n - 1);
      if events[n - 1].day == day {
        AppendLast(FileText(start, day), RowsOfDay(events, day, n - 1), events[n - 1].row + "\n");
      }
    }
  }

  /** The lines of the entries of a day. */
  function RowsOfDay(events: seq<Event>, day: int, n: nat): string
    requires n <= |events|
  {
    if n == 0 then ""
    else RowsOfDay(events, day, n - 1) + if events[n - 1].day == day then events[n - 1].row + "\n" else ""
  }

  /** While the entries stay on the day of a failure, that day is the disabled one. */
  lemma {:induction false} StaysDisabled(start: map<int, string>, events: seq<Event>, steps: seq<Step>, i: nat, n: nat)
    requires IsRun(start, events, steps) && SameDay(events, i, n) && steps[i].outcome == Failed
    ensures Before(start, steps, n).disabledDay == Some(events[i].day)
    decreases n
  {
    if i < n - 1 { StaysDisabled(start, events, steps, i, n - 1); }
    StepDecides(start, events, steps, n - 1);
  }

  lemma NoReturnDropsAfterFailed(start: map<int, string>, events: seq<Event>, steps: seq<Step>)
    requires IsRun(start, events, steps) && DaysDoNotReturn(events)
    ensures OnlyDroppedAfterFailed(events, steps)
  {
    forall i, k | 0 <= i < k < |events| && events[i].day == events[k].day && steps[i].outcome == Failed
      ensures steps[k].outcome == Dropped
    {
      StaysDisabled(start, events, steps, i, k);
      StepDecides(start, events, steps, k);
    }
  }

  /** The same entries over another file system. */
  ghost predicate SameEntries(events: seq<Event>, others: seq<Event>) {
    |others| == |events| &&
    forall i :: 0 <= i < |others| ==> others[i].day == events[i].day && others[i].row == events[i].row
  }

  /** A file system that works, except that the line of entry `i` does not fit. */
  function FailOnlyAt(events: seq<Event>, i: nat): (r: seq<Event>)
    ensures SameEntries(events, r)
  {
    seq(|events|, j requires 0 <= j < |events| =>
      events[j].(io := Io(true, true, if j == i then 0 else |events[j].row| + 1)))
  }

  lemma {:induction false} OnlyOneFailure(start: map<int, string>, events: seq<Event>, steps: seq<Step>, i: nat, n: nat)
    requires i < |events| && n <= |events| && IsRun(start, FailOnlyAt(events, i), steps)
    ensures var w := Before(start, steps, n);
            && (n <= i ==> w.disabledDay == None)
            && (w.disabledDay.Some? ==> SameDay(events, i, n) && w.disabledDay == Some(events[i].day))
  {
    if n > 0 {
      OnlyOneFailure(start, events, steps, i, n - 1);
      StepDecides(start, FailOnlyAt(events, i), steps, n - 1);
    }
  }

  /** When the days return there is a failure after which a row of the same day is written all the same. */
  lemma ReturnWritesAfterFailed(start: map<int, string>, events: seq<Event>, i: nat, j: nat, k: nat)
    returns (steps: seq<Step>)
    requires i < j < k < |events| && events[i].day == events[k].day != events[j].day
    ensures IsRun(start, FailOnlyAt(events, i), steps)
    ensures steps[i].outcome == Failed && steps[k].outcome == Written
  {
    var run := FailOnlyAt(events, i);
    steps := RunExists(start, run);
    OnlyOneFailure(start, events, steps, i, i);
    StepDecides(start, run, steps, i);
    OnlyOneFailure(start, events, steps, i, k);
    StepDecides(start, run, steps, k);
  }

  /** Whatever the file system does, a failed day gets nothing but dropped rows after its failure. */
  ghost predicate FailureEndsItsDay(start: map<int, string>, events: seq<Event>) {
    forall others: seq<Event>, steps: seq<Step> :: SameEntries(events, others) && IsRun(start, others, steps) ==>
      OnlyDroppedAfterFailed(others, steps)
  }

  /** A failure ends its day exactly when the entries never come back to a day they left. */
  lemma FailureEndsItsDayIff(start: map<int, string>, events: seq<Event>)
    ensures FailureEndsItsDay(start, events) <==> DaysDoNotReturn(events)
  {
    if DaysDoNotReturn(events) {
      forall others: seq<Event>, steps: seq<Step> | SameEntries(events, others) && IsRun(start, others, steps)
        ensures OnlyDroppedAfterFailed(others, steps)
      {
        NoReturnDropsAfterFailed(start, others, steps);
      }
    } else {
      var i, j, k :| 0 <= i < j < k < |events| && events[i].day == events[k].day && events[j].day != events[i].day;
      var steps := ReturnWritesAfterFailed(start, events, i, j, k);
      var others := FailOnlyAt(events, i);
      assert others[i].day == others[k].day;
      assert !OnlyDroppedAfterFailed(others, steps);
    }
  }

  // ---------- the shape of a file ----------

  /** The lines of the written rows of a day, in order. */
  function WholeRows(events: seq<Event>, steps: seq<Step>, day: int, n: nat): string
    requires n <= |events| == |steps|
  {
    if n == 0 then ""
    else
      WholeRows(events, steps, day, n - 1)
      + if events[n - 1].day == day && steps[n - 1].outcome == Written then events[n - 1].row + "\n" else ""
  }

  /** A cut-off line of a failed row among the first `n` of `day`. */
  ghost predicate CutTail(events: seq<Event>, steps: seq<Step>, day: int, n: nat, tail: string)
    requires n <= |events| == |steps|
  {
    exists i :: 0 <= i < n && events[i].day == day && steps[i].outcome == Failed && tail < events[i].row + "\n"
  }

  /** The text added for `day` is its whole rows and `tail`, and there is a tail only after a failure. */
  ghost predicate RowsThenTail(events: seq<Event>, steps: seq<Step>, day: int, n: nat, tail: string)
    requires n <= |events| == |steps|
  {
    && Added(events, steps, day, n) == WholeRows(events, steps, day, n) + tail
    && (tail == "" || CutTail(events, steps, day, n, tail))
  }

  /** When failures end their day, what is added to a file is whole rows and then at most one cut-off line. */
  lemma {:induction false} RowsThenOneTail(start: map<int, string>, events: seq<Event>, steps: seq<Step>, day: int,
                                           n: nat) returns (tail: string)
    requires IsRun(start, events, steps) && n <= |events| && OnlyDroppedAfterFailed(events, steps)
    ensures RowsThenTail(events, steps, day, n, tail)
  {
    tail := "";
    if n > 0 {
      tail := RowsThenOneTail(start, events, steps, day, n - 1);
      StepAdds(start, events, steps, n - 1);
      if events[n - 1].day == day && steps[n - 1].outcome != Dropped {
        assert tail == "";
        tail := if steps[n - 1].outcome == Written then "" else steps[n - 1].added;
      }
    }
  }

  /** Entries whose days never decrease leave, in each file, whole rows and at most one cut-off line. */
  lemma FileShape(start: map<int, string>, events: seq<Event>, steps: seq<Step>, day: int) returns (tail: string)
    requires IsRun(start, events, steps)
    requires forall i, j :: 0 <= i < j < |events| ==> events[i].day <= events[j].day
    ensures FileText(Before(start, steps, |events|).files, day) ==
            FileText(start, day) + (WholeRows(events, steps, day, |events|) + tail)
    ensures tail == "" || CutTail(events, steps, day, |events|, tail)
  {
    NoReturnDropsAfterFailed(start, events, steps);
    FilesHoldTheirDays(start, events, steps, day, |events|);
    tail := RowsThenOneTail(start, events, steps, day, |events|);
  }
}
