/** The usage-log pipeline of `src/service_log.rs` as a transition system: any number of `record` calls in any
    order, each stopped between its atomic steps, a bounded queue, the consumer thread and its writer.
    Calls are numbered in the order of their `try_send`. */
module UsageLogPipeline {
  import opened Common
  import opened ServicelogWriting

  const QUEUE_CAPACITY: nat := 65_536

  /** What the consumer needs of an entry: its instant and the row built from it. */
  datatype Entry = Entry(nowUs: int, row: string)

  datatype Consumer = Idle | Handling(call: nat) | Finished | Crashed

  /** `entries[i]` is what call `i` recorded.  A call is in exactly one of `accepted` (put on the queue),
      `full` (refused, the drop not counted yet), `counted` and `closed`.  `warned` are the calls that logged
      the warning.  `handled` are the calls whose entry the writer has seen, `log` and `steps` what it did,
      `lost` the accepted ones a crash of the consumer took away. */
  datatype State = State(entries: seq<Entry>, accepted: seq<nat>, full: set<nat>, counted: set<nat>,
                         closed: set<nat>, dropped: nat, warned: set<nat>, queue: seq<nat>, sending: bool,
                         consumer: Consumer, handled: seq<nat>, writer: Writer, log: seq<ServicelogWriting.Event>,
                         steps: seq<ServicelogWriting.Step>, lost: seq<nat>)

  datatype Action =
    | TrySend(entry: Entry)
    | CountDrop(call: nat)
    | DropSenders
    | Receive
    | Handle(io: Io)
    | Finish
    | Crash

  function Init(start: map<int, string>): State {
    State([], [], {}, {}, {}, 0, {}, [], true, Idle, [], ServicelogWriting.Initial(start), [], [], [])
  }

  /** `try_send` on a queue that is open, full or closed. */
  function StepTrySend(s: State, entry: Entry): State {
    var me := |s.entries|;
    var s1 := s.(entries := s.entries + [entry]);
    if s.consumer.Crashed? || s.consumer.Finished? then s1.(closed := s.closed + {me})
    else if |s.queue| >= QUEUE_CAPACITY then s1.(full := s.full + {me})
    else s1.(accepted := s.accepted + [me], queue := s.queue + [me])
  }

  /** `None` when the action is not possible in `s`. */
  function Step(s: State, a: Action): Option<State> {
    match a
    case TrySend(entry) => if s.sending then Some(StepTrySend(s, entry)) else None
    case CountDrop(call) =>
      if call in s.full then
        Some(s.(full := s.full - {call}, counted := s.counted + {call}, dropped := s.dropped + 1,
                warned := if s.dropped + 1 == 1 then s.warned + {call} else s.warned))
      else None
    case DropSenders => if s.sending && s.full == {} then Some(s.(sending := false)) else None
    case Receive =>
      if s.consumer.Idle? && s.queue != [] then Some(s.(queue := s.queue[1..], consumer := Handling(s.queue[0])))
      else None
    case Handle(io) =>
      if s.consumer.Handling? && s.consumer.call < |s.entries| then
        var e := s.entries[s.consumer.call];
        var step := Append(s.writer, EntryDay(e.nowUs), e.row, io);
        Some(s.(consumer := Idle, handled := s.handled + [s.consumer.call], writer := step.after,
                log := s.log + [ServicelogWriting.Event(EntryDay(e.nowUs), e.row, io)], steps := s.steps + [step]))
      else None
    case Finish =>
      if s.consumer.Idle? && s.queue == [] && !s.sending then Some(s.(consumer := Finished)) else None
    case Crash =>
      if s.consumer.Handling? then
        Some(s.(consumer := Crashed, lost := [s.consumer.call] + s.queue, queue := []))
      else None
  }

  function Run(start: map<int, string>, actions: seq<Action>): Option<State> {
    if actions == [] then Some(Init(start))
    else
      var before := Run(start, actions[..|actions| - 1]);
      if before.None? then None else Step(before.value, actions[|actions| - 1])
  }

  // ---------- the invariant ----------

  function InHand(s: State): seq<nat> {
    if s.consumer.Handling? then [s.consumer.call] else []
  }

  ghost predicate Increasing(calls: seq<nat>) {
    forall i, j :: 0 <= i < j < |calls| ==> calls[i] < calls[j]
  }

  ghost predicate Below(calls: set<nat>, n: nat) {
    forall c :: c in calls ==> c < n
  }

  /** The calls before `n`, each in exactly one of four places. */
  ghost predicate Places(n: nat, accepted: seq<nat>, full: set<nat>, counted: set<nat>, closed: set<nat>) {
    && Increasing(accepted) && Below(full, n) && Below(counted, n) && Below(closed, n)
    && full !! counted !! closed
    && (forall i :: 0 <= i < |accepted| ==> accepted[i] < n && accepted[i] !in full + counted + closed)
    && n == |accepted| + |full| + |counted| + |closed|
  }

  lemma PlaceAccepted(n: nat, accepted: seq<nat>, full: set<nat>, counted: set<nat>, closed: set<nat>)
    requires Places(n, accepted, full, counted, closed)
    ensures Places(n + 1, accepted + [n], full, counted, closed)
  {
  }

  lemma PlaceFull(n: nat, accepted: seq<nat>, full: set<nat>, counted: set<nat>, closed: set<nat>)
    requires Places(n, accepted, full, counted, closed)
    ensures Places(n + 1, accepted, full + {n}, counted, closed)
  {
    assert n !in full && |full + {n}| == |full| + 1;
  }

  lemma PlaceClosed(n: nat, accepted: seq<nat>, full: set<nat>, counted: set<nat>, closed: set<nat>)
    requires Places(n, accepted, full, counted, closed)
    ensures Places(n + 1, accepted, full, counted, closed + {n})
  {
    assert n !in closed && |closed + {n}| == |closed| + 1;
  }

  lemma PlaceCounted(n: nat, accepted: seq<nat>, full: set<nat>, counted: set<nat>, closed: set<nat>, call: nat)
    requires Places(n, accepted, full, counted, closed) && call in full
    ensures Places(n, accepted, full - {call}, counted + {call}, closed)
  {
    assert |full - {call}| == |full| - 1 && |counted + {call}| == |counted| + 1;
  }

  /** Every call is in exactly one place. */
  ghost predicate OnePlace(s: State) {
    Places(|s.entries|, s.accepted, s.full, s.counted, s.closed)
  }

  /** Drops are counted and exactly one of them, if any, gave the warning. */
  ghost predicate DropsCounted(s: State) {
    s.dropped == |s.counted| && s.warned <= s.counted && |s.warned| == if s.dropped > 0 then 1 else 0
  }

  /** First in, first out: what was accepted is handled, in hand, waiting or lost, in this order. */
  ghost predicate InOrder(s: State) {
    && s.accepted == s.handled + InHand(s) + s.queue + s.lost
    && |s.queue| <= QUEUE_CAPACITY
    && (s.lost != [] ==> s.consumer.Crashed?)
    && (s.closed != {} ==> s.consumer.Crashed?)
    && (s.consumer.Crashed? ==> s.queue == [])
    && (s.consumer.Finished? ==> s.queue == [] && s.lost == [] && !s.sending)
    && (!s.sending ==> s.full == {})
  }

  /** The writer has made the run of the handled entries. */
  ghost predicate WriterRan(start: map<int, string>, s: State) {
    && IsRun(start, s.log, s.steps) && s.writer == Before(start, s.steps, |s.steps|)
    && |s.log| == |s.handled|
    && (forall i :: 0 <= i < |s.handled| ==> s.handled[i] < |s.entries|)
    && forall i :: 0 <= i < |s.handled| ==>
         s.log[i].day == EntryDay(s.entries[s.handled[i]].nowUs) && s.log[i].row == s.entries[s.handled[i]].row
  }

  ghost predicate Inv(start: map<int, string>, s: State) {
    OnePlace(s) && DropsCounted(s) && InOrder(s) && WriterRan(start, s)
  }

  lemma TrySendKeepsInv(start: map<int, string>, s: State, entry: Entry)
    requires Inv(start, s) && s.sending
    ensures Inv(start, StepTrySend(s, entry))
  {
    TrySendKeepsOnePlace(s, entry);
    TrySendKeepsOrder(s, entry);
    TrySendKeepsRun(start, s, entry);
  }

  lemma TrySendKeepsRun(start: map<int, string>, s: State, entry: Entry)
    requires WriterRan(start, s)
    ensures WriterRan(start, StepTrySend(s, entry))
  {
  }

  lemma TrySendKeepsOnePlace(s: State, entry: Entry)
    requires OnePlace(s)
    ensures OnePlace(StepTrySend(s, entry))
  {
    if s.consumer.Crashed? || s.consumer.Finished? {
      PlaceClosed(|s.entries|, s.accepted, s.full, s.counted, s.closed);
    } else if |s.queue| >= QUEUE_CAPACITY {
      PlaceFull(|s.entries|, s.accepted, s.full, s.counted, s.closed);
    } else {
      PlaceAccepted(|s.entries|, s.accepted, s.full, s.counted, s.closed);
    }
  }

  lemma TrySendKeepsOrder(s: State, entry: Entry)
    requires InOrder(s) && s.sending
    ensures InOrder(StepTrySend(s, entry))
  {
    var t, me := StepTrySend(s, entry), |s.entries|;
    if t.queue != s.queue {
      assert s.lost == [];
      assert s.handled + InHand(s) + s.queue + [] + [me] == s.handled + InHand(s) + (s.queue + [me]) + [];
    }
  }

  lemma CountDropKeepsInv(start: map<int, string>, s: State, call: nat)
    requires Inv(start, s) && call in s.full
    ensures Inv(start, Step(s, CountDrop(call)).value)
  {
    PlaceCounted(|s.entries|, s.accepted, s.full, s.counted, s.closed, call);
    if s.dropped == 0 { assert s.warned == {}; }
  }

  lemma ReceiveKeepsInv(start: map<int, string>, s: State)
    requires Inv(start, s) && s.consumer.Idle? && s.queue != []
    ensures Inv(start, Step(s, Receive).value)
  {
    var t := Step(s, Receive).value;
    assert s.handled + [] + s.queue + s.lost == t.handled + [s.queue[0]] + t.queue + t.lost;
  }

  /** The writer's run, one append longer. */
  lemma RunGrows(start: map<int, string>, log: seq<ServicelogWriting.Event>, steps: seq<ServicelogWriting.Step>,
                 e: ServicelogWriting.Event)
    requires IsRun(start, log, steps)
    ensures IsRun(start, log + [e], steps + [Append(Before(start, steps, |steps|), e.day, e.row, e.io)])
  {
    var steps' := steps + [Append(Before(start, steps, |steps|), e.day, e.row, e.io)];
    forall i | 0 <= i < |log| + 1 ensures Follows(start, log + [e], steps', i) {
      if i < |log| { assert Follows(start, log, steps, i); }
    }
  }

  lemma HandleKeepsInv(start: map<int, string>, s: State, io: Io)
    requires Inv(start, s) && Step(s, Handle(io)).Some?
    ensures Inv(start, Step(s, Handle(io)).value)
  {
    var t := Step(s, Handle(io)).value;
    var e := s.entries[s.consumer.call];
    RunGrows(start, s.log, s.steps, ServicelogWriting.Event(EntryDay(e.nowUs), e.row, io));
    assert s.handled + [s.consumer.call] + s.queue + s.lost == t.handled + [] + t.queue + t.lost;
    assert WriterRan(start, t);
  }

  lemma CrashKeepsInv(start: map<int, string>, s: State)
    requires Inv(start, s) && s.consumer.Handling?
    ensures Inv(start, Step(s, Crash).value)
  {
    var t := Step(s, Crash).value;
    assert s.handled + [s.consumer.call] + s.queue + [] == t.handled + [] + [] + t.lost;
  }

  lemma StepKeepsInv(start: map<int, string>, s: State, a: Action)
    requires Inv(start, s) && Step(s, a).Some?
    ensures Inv(start, Step(s, a).value)
  {
    match a
    case TrySend(entry) => TrySendKeepsInv(start, s, entry);
    case CountDrop(call) => CountDropKeepsInv(start, s, call);
    case DropSenders =>
    case Receive => ReceiveKeepsInv(start, s);
    case Handle(io) => HandleKeepsInv(start, s, io);
    case Finish =>
    case Crash => CrashKeepsInv(start, s);
  }

  lemma {:induction false} Reachable(start: map<int, string>, actions: seq<Action>)
    requires Run(start, actions).Some?
    ensures Inv(start, Run(start, actions).value)
  {
    if actions != [] {
      var last := |actions| - 1;
      Reachable(start, actions[..last]);
      StepKeepsInv(start, Run(start, actions[..last]).value, actions[last]);
    }
  }

  // ---------- what it means ----------

  /** In every interleaving each recorded entry is accounted for exactly once, and the queue is bounded. */
  lemma Conservation(start: map<int, string>, actions: seq<Action>)
    requires Run(start, actions).Some?
    ensures var s := Run(start, actions).value;
            |s.entries| == s.dropped + |s.full| + |s.closed| + |s.handled| + |InHand(s)| + |s.queue| + |s.lost|
    ensures |Run(start, actions).value.queue| <= QUEUE_CAPACITY
  {
    Reachable(start, actions);
  }

  /** In every reachable state with a sender an entry can be recorded; as long as the consumer lives it goes to the end of
      the queue exactly when fewer than 65536 entries wait, and is refused exactly when 65536 do. */
  lemma QueuedWhileThereIsRoom(start: map<int, string>, actions: seq<Action>, entry: Entry)
    requires Run(start, actions).Some? && Run(start, actions).value.sending
    ensures Run(start, actions + [TrySend(entry)]).Some?
    ensures var s, t := Run(start, actions).value, Run(start, actions + [TrySend(entry)]).value;
            var me := |s.entries|;
            && t.entries == s.entries + [entry]
            && (if s.consumer.Finished? || s.consumer.Crashed?
                then t.queue == s.queue && t.accepted == s.accepted && t.full == s.full && me in t.closed
                else && (t.queue == s.queue + [me] <==> |s.queue| < 65_536)
                     && (t.accepted == s.accepted + [me] <==> |s.queue| < 65_536)
                     && (me in t.full <==> |s.queue| == 65_536) && t.closed == s.closed)
  {
    Reachable(start, actions);
    assert (actions + [TrySend(entry)])[..|actions|] == actions;
    var s := Run(start, actions).value;
    if !s.consumer.Finished? && !s.consumer.Crashed? && |s.queue| == 65_536 {
      assert |s.queue| != |s.queue + [|s.entries|]| && |s.accepted| != |s.accepted + [|s.entries|]|;
    }
  }

  /** Action `n` records call `c` when 65536 entries wait. */
  ghost predicate RefusedAt(start: map<int, string>, actions: seq<Action>, n: nat, c: nat) {
    && n < |actions| && actions[n].TrySend? && Run(start, actions[..n]).Some?
    && |Run(start, actions[..n]).value.entries| == c && |Run(start, actions[..n]).value.queue| == 65_536
  }

  lemma RefusedByStep(start: map<int, string>, s: State, a: Action, c: nat)
    requires Inv(start, s) && Step(s, a).Some? && c !in s.full && c !in s.counted
    requires c in Step(s, a).value.full || c in Step(s, a).value.counted
    ensures a.TrySend? && |s.entries| == c && |s.queue| == 65_536
  {
  }

  /** Over every run an entry is dropped because the queue was full only when 65536 entries waited. */
  lemma {:induction false} DroppedOnlyWhenFull(start: map<int, string>, actions: seq<Action>, c: nat)
    requires Run(start, actions).Some?
    requires var s := Run(start, actions).value; c in s.full || c in s.counted
    ensures exists n: nat :: RefusedAt(start, actions, n, c)
  {
    var last := |actions| - 1;
    var before := actions[..last];
    var s := Run(start, before).value;
    if c in s.full || c in s.counted {
      DroppedOnlyWhenFull(start, before, c);
      var n: nat :| RefusedAt(start, before, n, c);
      assert before[..n] == actions[..n];
      assert RefusedAt(start, actions, n, c);
    } else {
      Reachable(start, before);
      RefusedByStep(start, s, actions[last], c);
      assert RefusedAt(start, actions, last, c);
    }
  }

  /** A refused call can always count its drop, and gives the warning exactly when it is the first to do so. */
  lemma EachDropIsCounted(s: State, c: nat)
    ensures Step(s, CountDrop(c)).Some? <==> c in s.full
    ensures c in s.full ==> var t := Step(s, CountDrop(c)).value;
                            && t.dropped == s.dropped + 1 && c !in t.full && c in t.counted
                            && t.warned == if s.dropped == 0 then s.warned + {c} else s.warned
  {
  }

  /** Entries are handled in the order they were sent, none twice. */
  lemma FirstInFirstOut(start: map<int, string>, actions: seq<Action>)
    requires Run(start, actions).Some?
    ensures var s := Run(start, actions).value;
            && s.handled <= s.accepted
            && forall i, j :: 0 <= i < j < |s.handled| ==> s.handled[i] < s.handled[j]
  {
    Reachable(start, actions);
    var s := Run(start, actions).value;
    assert forall i :: 0 <= i < |s.handled| ==> s.handled[i] == s.accepted[i];
  }

  /** However the senders interleave, exactly one of them logs the warning once an entry was dropped. */
  lemma OneWarning(start: map<int, string>, actions: seq<Action>)
    requires Run(start, actions).Some?
    ensures var s := Run(start, actions).value;
            |s.warned| == (if s.dropped > 0 then 1 else 0) && s.warned <= s.counted
  {
    Reachable(start, actions);
  }

  /** When the consumer has finished, every entry was counted as dropped or handled by the writer, and each file
      holds what the handled entries of its day added. */
  lemma FinishedHandlesAll(start: map<int, string>, actions: seq<Action>, day: int)
    requires Run(start, actions).Some? && Run(start, actions).value.consumer.Finished?
    ensures var s := Run(start, actions).value;
            && s.handled == s.accepted && |s.entries| == s.dropped + |s.handled|
            && IsRun(start, s.log, s.steps) && |s.log| == |s.handled|
            && (forall i :: 0 <= i < |s.handled| ==> s.handled[i] < |s.entries|)
            && (forall i :: 0 <= i < |s.handled| ==>
                  s.log[i].day == EntryDay(s.entries[s.handled[i]].nowUs) && s.log[i].row == s.entries[s.handled[i]].row)
            && FileText(s.writer.files, day) == FileText(start, day) + Added(s.log, s.steps, day, |s.log|)
  {
    Reachable(start, actions);
    var s := Run(start, actions).value;
    FilesHoldTheirDays(start, s.log, s.steps, day, |s.log|);
  }

  // ---------- shutting down ----------

  /** The turns left to the consumer. */
  function Work(s: State): nat {
    2 * |s.queue| + match s.consumer
                    case Idle => 1
                    case Handling(_) => 2
                    case _ => 0
  }

  function RunFrom(s: State, actions: seq<Action>): Option<State> {
    if actions == [] then Some(s)
    else
      var before := RunFrom(s, actions[..|actions| - 1]);
      if before.None? then None else Step(before.value, actions[|actions| - 1])
  }

  /** The consumer can always go on until it has finished (or crashed): it takes the first waiting entry, handles the one
      in hand, or finishes; only with nothing waiting and a sender left does it wait. */
  lemma ConsumerNeverStuck(start: map<int, string>, actions: seq<Action>, io: Io)
    requires Run(start, actions).Some?
    ensures var s := Run(start, actions).value;
            && (s.consumer.Handling? ==> Step(s, Handle(io)).Some?)
            && (s.consumer.Idle? && s.queue != [] ==>
                  Step(s, Receive).Some? && Step(s, Receive).value.consumer == Handling(s.queue[0]))
            && (s.consumer.Idle? && s.queue == [] && !s.sending ==> Step(s, Finish).Some?)
  {
    Reachable(start, actions);
    var s := Run(start, actions).value;
    if s.consumer.Handling? {
      assert s.accepted[|s.handled|] == s.consumer.call;
      assert s.consumer.call in s.accepted;
    }
  }

  /** After the last sender is gone only boundedly many actions remain: two for each waiting entry and those of
      the entry in hand. */
  lemma {:induction false} ConsumerDrains(start: map<int, string>, actions: seq<Action>, more: seq<Action>)
    requires Run(start, actions).Some? && !Run(start, actions).value.sending
    requires RunFrom(Run(start, actions).value, more).Some?
    ensures var s := Run(start, actions).value; var t := RunFrom(s, more).value;
            !t.sending && t.full == {} && |more| + Work(t) <= Work(s)
  {
    Reachable(start, actions);
    if more != [] {
      ConsumerDrains(start, actions, more[..|more| - 1]);
    }
  }
}
