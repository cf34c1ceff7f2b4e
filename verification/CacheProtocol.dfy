/** The single-flight protocol of `get_result_at` (`src/cache.rs:177-263`) as a transition system:
    any number of calls, each stopped between its atomic steps, interleaved in any order with each
    other and with `clear`.  Calls and cells are numbered in order of creation.  Dropped futures are
    not part of this model. */
module CacheProtocol {
  import opened Common
  import opened CacheInner

  type Outcome = Result<string, string>

  /** Where a call is: after the first locked section (`Attached`), past the fast-path check and
      inside `get_or_init` (`Waiting`), running its own creator (`Driving`), holding the result and
      about to run the error branch (`Leaving`), or returned (`Done`). */
  datatype Pc = Attached | Waiting | Driving | Leaving(result: Outcome) | Done(result: Outcome)

  /** `produced` is the result of the call's own creator, when it ran. */
  datatype Call = Call(key: string, now: real, cell: nat, hit: bool, pc: Pc, produced: Option<Outcome>)

  /** `driver` is the call that won the once-cell; `claimant` the one that stored the cell. */
  datatype Cell = Cell(key: string, claimed: int, claimant: nat, driver: Option<nat>, value: Option<Outcome>)

  datatype State = State(inner: Inner<nat>, cells: seq<Cell>, calls: seq<Call>)

  datatype Event =
    | Enter(key: string, now: real)
    | Check(i: nat)
    | Start(i: nat)
    | Complete(i: nat, result: Outcome)
    | Await(i: nat)
    | Leave(i: nat)
    | Clear

  function Init(): State { State(Initial(), [], []) }

  function Goto(s: State, i: nat, pc: Pc): State
    requires i < |s.calls|
  {
    s.(calls := s.calls[i := s.calls[i].(pc := pc)])
  }

  predicate Filled(s: State, cell: nat) {
    cell < |s.cells| && s.cells[cell].value.Some?
  }

  /** First locked section: attach to a valid entry or claim a fresh cell. */
  function StepEnter(cfg: Config, s: State, key: string, now: real): State {
    var found := Found<nat>(cfg, s.inner, key, now);
    var me := |s.calls|;
    var cell := if found.Some? then found.value else |s.cells|;
    var inner := AfterEnter(cfg, s.inner, key, now, |s.cells|, found.Some? && Filled(s, found.value));
    var cells := if found.Some? then s.cells
                 else s.cells + [Cell(key, Seconds(now), me, None, None)];
    State(inner, cells, s.calls + [Call(key, now, cell, found.Some?, Attached, None)])
  }

  /** `None` when the event is not possible in `s`. */
  function Step(cfg: Config, s: State, e: Event): Option<State> {
    match e
    case Enter(key, now) => Some(StepEnter(cfg, s, key, now))
    case Check(i) =>
      if i < |s.calls| && s.calls[i].pc == Attached then
        var c := s.calls[i].cell;
        if s.calls[i].hit && Filled(s, c) then Some(Goto(s, i, Done(s.cells[c].value.value)))
        else Some(Goto(s, i, Waiting))
      else None
    case Start(i) =>
      if i < |s.calls| && s.calls[i].pc == Waiting && s.calls[i].cell < |s.cells| &&
         s.cells[s.calls[i].cell].value == None && s.cells[s.calls[i].cell].driver == None then
        var c := s.calls[i].cell;
        Some(Goto(s, i, Driving).(cells := s.cells[c := s.cells[c].(driver := Some(i))]))
      else None
    case Complete(i, result) =>
      if i < |s.calls| && s.calls[i].pc == Driving && s.calls[i].cell < |s.cells| then
        var c := s.calls[i].cell;
        Some(s.(cells := s.cells[c := s.cells[c].(value := Some(result))],
                calls := s.calls[i := s.calls[i].(pc := Leaving(result), produced := Some(result))]))
      else None
    case Await(i) =>
      if i < |s.calls| && s.calls[i].pc == Waiting && Filled(s, s.calls[i].cell)
      then Some(Goto(s, i, Leaving(s.cells[s.calls[i].cell].value.value)))
      else None
    case Leave(i) =>
      if i < |s.calls| && s.calls[i].pc.Leaving? then
        var r := s.calls[i].pc.result;
        var inner := if r.Err? then AfterFailure(s.inner, s.calls[i].key, s.calls[i].cell) else s.inner;
        Some(Goto(s, i, Done(r)).(inner := inner))
      else None
    case Clear => Some(s.(inner := Initial()))
  }

  /** The state a sequence of events leads to, `None` when one of them is not possible. */
  function Run(cfg: Config, events: seq<Event>): Option<State> {
    if events == [] then Some(Init())
    else
      match Run(cfg, events[..|events| - 1])
      case None => None
      case Some(s) => Step(cfg, s, events[|events| - 1])
  }

  // ---------- the invariant ----------

  ghost predicate StoredOk(cfg: Config, s: State) {
    forall k :: k in s.inner.cache ==>
      var e := s.inner.cache[k];
      e.cell < |s.cells| && s.cells[e.cell].key == k && e.expires == s.cells[e.cell].claimed + cfg.ttl
  }

  ghost predicate CellOk(s: State, c: nat)
    requires c < |s.cells|
  {
    var cell := s.cells[c];
    && cell.claimant < |s.calls| && s.calls[cell.claimant].cell == c && !s.calls[cell.claimant].hit
    && cell.claimed == Seconds(s.calls[cell.claimant].now)
    && (cell.driver.Some? ==>
          && cell.driver.value < |s.calls|
          && s.calls[cell.driver.value].cell == c
          && s.calls[cell.driver.value].produced == cell.value
          && (cell.value == None ==> s.calls[cell.driver.value].pc == Driving))
    && (cell.driver == None ==> cell.value == None)
  }

  ghost predicate CallOk(cfg: Config, s: State, i: nat)
    requires i < |s.calls|
  {
    var call := s.calls[i];
    && call.cell < |s.cells|
    && s.cells[call.cell].key == call.key
    && (if call.hit then Seconds(call.now) < s.cells[call.cell].claimed + cfg.ttl
        else s.cells[call.cell].claimant == i)
    && (call.pc == Driving ==> s.cells[call.cell].driver == Some(i) && s.cells[call.cell].value == None)
    && (call.pc.Leaving? || call.pc.Done? ==> s.cells[call.cell].value == Some(call.pc.result))
    && (call.produced.Some? ==> s.cells[call.cell].driver == Some(i))
    && (call.pc == Attached || call.pc == Waiting ==> s.cells[call.cell].driver != Some(i))
  }

  /** If the cell stored under `k` failed, its driver has not run its error branch yet. */
  ghost predicate FailureOk(s: State, k: string)
    requires k in s.inner.cache
  {
    var c := s.inner.cache[k].cell;
    c < |s.cells| && s.cells[c].value.Some? && s.cells[c].value.value.Err? ==>
      s.cells[c].driver.Some? && s.cells[c].driver.value < |s.calls| &&
      s.calls[s.cells[c].driver.value].pc.Leaving?
  }

  ghost predicate Inv(cfg: Config, s: State) {
    && WellFormed(cfg, s.inner)
    && StoredOk(cfg, s)
    && (forall c :: 0 <= c < |s.cells| ==> CellOk(s, c))
    && (forall i :: 0 <= i < |s.calls| ==> CallOk(cfg, s, i))
    && (forall k :: k in s.inner.cache ==> FailureOk(s, k))
  }

  lemma EnterKeepsInv(cfg: Config, s: State, key: string, now: real)
    requires Inv(cfg, s)
    ensures Inv(cfg, StepEnter(cfg, s, key, now))
  {
    var t := StepEnter(cfg, s, key, now);
    var found := Found<nat>(cfg, s.inner, key, now);
    EnterKeepsWellFormed(cfg, s.inner, key, now, |s.cells|, found.Some? && Filled(s, found.value));
    EnterKeepsStoredOk(cfg, s, key, now);
    forall c | 0 <= c < |t.cells| ensures CellOk(t, c) {
      if c < |s.cells| { assert CellOk(s, c); }
    }
    forall i | 0 <= i < |t.calls| ensures CallOk(cfg, t, i) {
      EnterKeepsCallOk(cfg, s, key, now, i);
    }
    forall k | k in t.inner.cache ensures FailureOk(t, k) {
      EnterKeepsFailureOk(cfg, s, key, now, k);
    }
  }

  lemma EnterKeepsStoredOk(cfg: Config, s: State, key: string, now: real)
    requires Inv(cfg, s)
    ensures StoredOk(cfg, StepEnter(cfg, s, key, now))
  {
    var found := Found<nat>(cfg, s.inner, key, now);
    EnterEntries(cfg, s.inner, key, now, |s.cells|, found.Some? && Filled(s, found.value));
  }

  lemma EnterKeepsCallOk(cfg: Config, s: State, key: string, now: real, i: nat)
    requires Inv(cfg, s) && i <= |s.calls|
    ensures CallOk(cfg, StepEnter(cfg, s, key, now), i)
  {
    var found := Found<nat>(cfg, s.inner, key, now);
    EnterEntries(cfg, s.inner, key, now, |s.cells|, found.Some? && Filled(s, found.value));
    if i < |s.calls| {
      assert CallOk(cfg, s, i);
    } else if found.Some? {
      assert CellOk(s, found.value);
    }
  }

  lemma EnterKeepsFailureOk(cfg: Config, s: State, key: string, now: real, k: string)
    requires Inv(cfg, s) && k in StepEnter(cfg, s, key, now).inner.cache
    ensures FailureOk(StepEnter(cfg, s, key, now), k)
  {
    var found := Found<nat>(cfg, s.inner, key, now);
    EnterEntries(cfg, s.inner, key, now, |s.cells|, found.Some? && Filled(s, found.value));
    if k in s.inner.cache {
      assert FailureOk(s, k) && CellOk(s, s.inner.cache[k].cell);
    }
  }

  /** The steps of an existing call before its error branch: the map stays as it is, and only the
      call's own entry and that of its cell change. */
  ghost predicate Advances(s: State, t: State, i: nat) {
    && i < |s.calls| == |t.calls| && |t.cells| == |s.cells| && t.inner == s.inner
    && s.calls[i].cell < |s.cells|
    && t.calls == s.calls[i := t.calls[i]] && t.cells == s.cells[s.calls[i].cell := t.cells[s.calls[i].cell]]
    && t.calls[i].(pc := s.calls[i].pc, produced := s.calls[i].produced) == s.calls[i]
    && t.cells[s.calls[i].cell].(driver := s.cells[s.calls[i].cell].driver, value := s.cells[s.calls[i].cell].value)
       == s.cells[s.calls[i].cell]
  }

  lemma AdvancesKeepsInv(cfg: Config, s: State, t: State, i: nat)
    requires Inv(cfg, s) && Advances(s, t, i)
    requires CellOk(t, s.calls[i].cell)
    requires forall j :: 0 <= j < |t.calls| && t.calls[j].cell == s.calls[i].cell ==> CallOk(cfg, t, j)
    requires forall k :: k in t.inner.cache && t.inner.cache[k].cell == s.calls[i].cell ==> FailureOk(t, k)
    ensures Inv(cfg, t)
  {
    forall c | 0 <= c < |t.cells| ensures CellOk(t, c) { assert CellOk(s, c); }
    forall j | 0 <= j < |t.calls| ensures CallOk(cfg, t, j) { assert CallOk(cfg, s, j); }
    forall k | k in t.inner.cache ensures FailureOk(t, k) {
      assert FailureOk(s, k) && CellOk(s, s.inner.cache[k].cell);
    }
  }

  /** A call that is not a driver moves on, with the cell's value if it takes a result. */
  lemma GotoKeepsInv(cfg: Config, s: State, i: nat, pc: Pc)
    requires Inv(cfg, s) && i < |s.calls|
    requires s.calls[i].pc == Attached || s.calls[i].pc == Waiting
    requires pc == Waiting ||
             ((pc.Leaving? || pc.Done?) && Filled(s, s.calls[i].cell) &&
              s.cells[s.calls[i].cell].value == Some(pc.result))
    ensures Inv(cfg, Goto(s, i, pc))
  {
    var t := Goto(s, i, pc);
    assert CallOk(cfg, s, i);
    forall c | 0 <= c < |t.cells| ensures CellOk(t, c) { assert CellOk(s, c); }
    forall j | 0 <= j < |t.calls| ensures CallOk(cfg, t, j) { assert CallOk(cfg, s, j); }
    forall k | k in t.inner.cache ensures FailureOk(t, k) {
      assert FailureOk(s, k) && CellOk(s, s.inner.cache[k].cell);
    }
  }

  lemma StartKeepsInv(cfg: Config, s: State, i: nat)
    requires Inv(cfg, s) && Step(cfg, s, Start(i)).Some?
    ensures Inv(cfg, Step(cfg, s, Start(i)).value)
  {
    var t := Step(cfg, s, Start(i)).value;
    var c := s.calls[i].cell;
    assert CallOk(cfg, s, i) && CellOk(s, c);
    forall j | 0 <= j < |t.calls| && t.calls[j].cell == c ensures CallOk(cfg, t, j) {
      assert CallOk(cfg, s, j);
    }
    forall k | k in t.inner.cache && t.inner.cache[k].cell == c ensures FailureOk(t, k) {
      assert FailureOk(s, k);
    }
    AdvancesKeepsInv(cfg, s, t, i);
  }

  lemma CompleteKeepsInv(cfg: Config, s: State, i: nat, result: Outcome)
    requires Inv(cfg, s) && Step(cfg, s, Complete(i, result)).Some?
    ensures Inv(cfg, Step(cfg, s, Complete(i, result)).value)
  {
    var t := Step(cfg, s, Complete(i, result)).value;
    var c := s.calls[i].cell;
    assert CallOk(cfg, s, i) && CellOk(s, c);
    forall j | 0 <= j < |t.calls| && t.calls[j].cell == c ensures CallOk(cfg, t, j) {
      assert CallOk(cfg, s, j);
    }
    forall k | k in t.inner.cache && t.inner.cache[k].cell == c ensures FailureOk(t, k) {
      assert FailureOk(s, k);
    }
    AdvancesKeepsInv(cfg, s, t, i);
  }

  lemma ClearKeepsInv(cfg: Config, s: State)
    requires Inv(cfg, s)
    ensures Inv(cfg, s.(inner := Initial()))
  {
    var t := s.(inner := Initial());
    forall c | 0 <= c < |t.cells| ensures CellOk(t, c) { assert CellOk(s, c); }
    forall i | 0 <= i < |t.calls| ensures CallOk(cfg, t, i) { assert CallOk(cfg, s, i); }
  }

  /** The error branch takes the failed cell out of the map, wherever its key now leads. */
  lemma LeaveKeepsInv(cfg: Config, s: State, i: nat)
    requires Inv(cfg, s) && Step(cfg, s, Leave(i)).Some?
    ensures Inv(cfg, Step(cfg, s, Leave(i)).value)
  {
    var t := Step(cfg, s, Leave(i)).value;
    assert CallOk(cfg, s, i);
    FailureKeepsWellFormed(cfg, s.inner, s.calls[i].key, s.calls[i].cell);
    forall c | 0 <= c < |t.cells| ensures CellOk(t, c) { assert CellOk(s, c); }
    forall j | 0 <= j < |t.calls| ensures CallOk(cfg, t, j) { assert CallOk(cfg, s, j); }
    forall k | k in t.inner.cache ensures FailureOk(t, k) {
      LeaveKeepsFailureOk(cfg, s, i, k);
    }
  }

  lemma LeaveKeepsFailureOk(cfg: Config, s: State, i: nat, k: string)
    requires Inv(cfg, s) && Step(cfg, s, Leave(i)).Some?
    requires k in Step(cfg, s, Leave(i)).value.inner.cache
    ensures k in s.inner.cache && FailureOk(Step(cfg, s, Leave(i)).value, k)
  {
    assert CallOk(cfg, s, i);
    assert FailureOk(s, k) && CellOk(s, s.inner.cache[k].cell);
  }

  lemma StepKeepsInv(cfg: Config, s: State, e: Event)
    requires Inv(cfg, s) && Step(cfg, s, e).Some?
    ensures Inv(cfg, Step(cfg, s, e).value)
  {
    match e
    case Enter(key, now) => EnterKeepsInv(cfg, s, key, now);
    case Clear => ClearKeepsInv(cfg, s);
    case Leave(i) => LeaveKeepsInv(cfg, s, i);
    case Check(i) => GotoKeepsInv(cfg, s, i, Step(cfg, s, e).value.calls[i].pc);
    case Start(i) => StartKeepsInv(cfg, s, i);
    case Complete(i, result) => CompleteKeepsInv(cfg, s, i, result);
    case Await(i) => GotoKeepsInv(cfg, s, i, Step(cfg, s, e).value.calls[i].pc);
  }

  /** The invariant holds after every sequence of events. */
  lemma {:induction false} Reachable(cfg: Config, events: seq<Event>)
    requires Run(cfg, events).Some?
    ensures Inv(cfg, Run(cfg, events).value)
  {
    if events != [] {
      Reachable(cfg, events[..|events| - 1]);
      StepKeepsInv(cfg, Run(cfg, events[..|events| - 1]).value, events[|events| - 1]);
    }
  }

  // ---------- what every interleaving keeps ----------

  /** Call `d` shares call `i`'s cell and key, and its own creator returned `r`. */
  ghost predicate ProducedFor(s: State, i: nat, d: nat, r: Outcome)
    requires i < |s.calls|
  {
    d < |s.calls| && s.calls[d].cell == s.calls[i].cell && s.calls[d].key == s.calls[i].key &&
    s.calls[d].produced == Some(r)
  }

  /** At most one attached call runs its creator, and whoever returns returns that creator's result,
      made for the same key. */
  lemma SingleFlight(cfg: Config, events: seq<Event>)
    requires Run(cfg, events).Some?
    ensures var s := Run(cfg, events).value;
            && (forall i, j ::
                  && 0 <= i < |s.calls| && 0 <= j < |s.calls| && s.calls[i].cell == s.calls[j].cell
                  && s.calls[i].produced.Some? && s.calls[j].produced.Some?
                  ==> i == j)
            && (forall i :: 0 <= i < |s.calls| && s.calls[i].pc.Done? ==>
                  exists d :: ProducedFor(s, i, d, s.calls[i].pc.result))
  {
    Reachable(cfg, events);
    var s := Run(cfg, events).value;
    forall i, j | 0 <= i < |s.calls| && 0 <= j < |s.calls| && s.calls[i].cell == s.calls[j].cell &&
                  s.calls[i].produced.Some? && s.calls[j].produced.Some?
      ensures i == j
    {
      assert CallOk(cfg, s, i) && CallOk(cfg, s, j);
    }
    forall i | 0 <= i < |s.calls| && s.calls[i].pc.Done?
      ensures exists d :: ProducedFor(s, i, d, s.calls[i].pc.result)
    {
      assert CallOk(cfg, s, i) && CellOk(s, s.calls[i].cell);
      var d := s.cells[s.calls[i].cell].driver.value;
      assert CallOk(cfg, s, d);
      assert ProducedFor(s, i, d, s.calls[i].pc.result);
    }
  }

  /** A returned result is the caller's own generation, or one claimed less than `ttl` seconds
      before the caller's clock. */
  lemma ResultsAreFresh(cfg: Config, events: seq<Event>, i: nat)
    requires Run(cfg, events).Some? && i < |Run(cfg, events).value.calls|
    ensures var s := Run(cfg, events).value;
            exists j :: 0 <= j < |s.calls| && s.calls[j].cell == s.calls[i].cell && !s.calls[j].hit &&
              (j == i || Seconds(s.calls[i].now) < Seconds(s.calls[j].now) + cfg.ttl)
  {
    Reachable(cfg, events);
    var s := Run(cfg, events).value;
    assert CallOk(cfg, s, i) && CellOk(s, s.calls[i].cell);
    var j := s.cells[s.calls[i].cell].claimant;
    assert s.calls[j].cell == s.calls[i].cell;
  }

  /** With no call in flight, every stored entry holds a success. */
  lemma NoFailureOutlivesItsCalls(cfg: Config, events: seq<Event>)
    requires Run(cfg, events).Some?
    requires forall i :: 0 <= i < |Run(cfg, events).value.calls| ==> Run(cfg, events).value.calls[i].pc.Done?
    ensures var s := Run(cfg, events).value;
            forall k :: k in s.inner.cache ==>
              Filled(s, s.inner.cache[k].cell) && s.cells[s.inner.cache[k].cell].value.value.Ok?
  {
    Reachable(cfg, events);
    var s := Run(cfg, events).value;
    forall k | k in s.inner.cache
      ensures Filled(s, s.inner.cache[k].cell) && s.cells[s.inner.cache[k].cell].value.value.Ok?
    {
      var c := s.inner.cache[k].cell;
      assert FailureOk(s, k) && CellOk(s, c);
      assert CallOk(cfg, s, s.cells[c].claimant);
    }
  }

  /** In every reachable state a call is attached to the cell stored under its key exactly when that has not expired;
      otherwise it claims a fresh one, to expire `ttl` seconds later. */
  lemma EnterAttaches(cfg: Config, events: seq<Event>, key: string, now: real)
    requires Run(cfg, events).Some?
    ensures Run(cfg, events + [Enter(key, now)]).Some?
    ensures var s, t := Run(cfg, events).value, Run(cfg, events + [Enter(key, now)]).value;
            var me := |s.calls|;
            && |t.calls| == me + 1 && t.calls[..me] == s.calls
            && t.calls[me].key == key && t.calls[me].now == now && t.calls[me].pc == Attached
            && (t.calls[me].hit <==> key in s.inner.cache && Seconds(now) < s.inner.cache[key].expires)
            && (if t.calls[me].hit then t.calls[me].cell == s.inner.cache[key].cell && t.cells == s.cells
                else t.calls[me].cell == |s.cells| && t.cells == s.cells + [Cell(key, Seconds(now), me, None, None)])
            && key in t.inner.cache && t.inner.cache[key].cell == t.calls[me].cell
            && (!t.calls[me].hit ==> t.inner.cache[key].expires == Seconds(now) + cfg.ttl)
  {
    assert (events + [Enter(key, now)])[..|events|] == events;
    FoundIff<nat>(cfg, Run(cfg, events).value.inner, key, now);
  }

  /** In every reachable state a call for a key whose stored result has not expired returns this result, a success as well
      as a failure still stored, and does not run its creator; and it counts as a hit. */
  lemma StoredResultIsServed(cfg: Config, events: seq<Event>, key: string, now: real)
    requires Run(cfg, events).Some?
    requires var s := Run(cfg, events).value;
             key in s.inner.cache && Seconds(now) < s.inner.cache[key].expires && Filled(s, s.inner.cache[key].cell)
    ensures var s := Run(cfg, events).value;
            var me := |s.calls|;
            var after := Run(cfg, events + [Enter(key, now)] + [Check(me)]);
            && after.Some? && me < |after.value.calls|
            && after.value.calls[me].pc == Done(s.cells[s.inner.cache[key].cell].value.value)
            && after.value.calls[me].produced == None && after.value.inner.hits == s.inner.hits + 1
  {
    EnterAttaches(cfg, events, key, now);
    var s := Run(cfg, events).value;
    var entered := events + [Enter(key, now)];
    assert entered[..|events|] == events && (entered + [Check(|s.calls|)])[..|entered|] == entered;
    FoundIff<nat>(cfg, s.inner, key, now);
    EnterCounts(cfg, s.inner, key, now, |s.cells|, true);
  }

  /** In every reachable state the creator may end with any result, and this is what its cell holds and its call leaves
      with; nothing but the two locked sections and `clear` touches what is stored. */
  lemma CreatorDecides(cfg: Config, events: seq<Event>, e: Event)
    requires Run(cfg, events).Some? && !e.Enter? && !e.Leave?
    ensures var s, next := Run(cfg, events).value, Run(cfg, events + [e]);
            && (e.Complete? ==> (next.Some? <==> e.i < |s.calls| && s.calls[e.i].pc == Driving))
            && (e.Complete? && next.Some? ==>
                  && s.calls[e.i].cell < |next.value.cells| && e.i < |next.value.calls|
                  && next.value.cells[s.calls[e.i].cell].value == Some(e.result)
                  && next.value.calls[e.i].pc == Leaving(e.result) && next.value.calls[e.i].produced == Some(e.result))
            && (next.Some? && !e.Clear? ==> next.value.inner == s.inner)
            && (e.Clear? ==> next.Some? && next.value.inner == Inner(map[], [], 0.0, 0, 0))
  {
    assert (events + [e])[..|events|] == events;
    Reachable(cfg, events);
    var s := Run(cfg, events).value;
    if e.Complete? && e.i < |s.calls| { assert CallOk(cfg, s, e.i); }
  }

  /** The error branch removes its own generation and no other entry; a success stays stored. */
  lemma FailureRemovesOnlyItself(cfg: Config, events: seq<Event>, i: nat)
    requires Run(cfg, events).Some? && Run(cfg, events + [Leave(i)]).Some?
    ensures var s, t := Run(cfg, events).value, Run(cfg, events + [Leave(i)]).value;
            && i < |s.calls| && s.calls[i].pc.Leaving? && t.calls[i].pc == Done(s.calls[i].pc.result)
            && (forall k :: k in s.inner.cache && s.inner.cache[k].cell != s.calls[i].cell ==>
                  k in t.inner.cache && t.inner.cache[k] == s.inner.cache[k])
            && (if s.calls[i].pc.result.Ok? then t.inner == s.inner
                else forall k :: k in t.inner.cache ==> t.inner.cache[k].cell != s.calls[i].cell)
  {
    assert (events + [Leave(i)])[..|events|] == events;
    Reachable(cfg, events);
    var s, t := Run(cfg, events).value, Run(cfg, events + [Leave(i)]).value;
    assert CallOk(cfg, s, i);
  }

  /** What no step ever takes back. */
  ghost predicate Stable(s: State, t: State) {
    && |s.cells| <= |t.cells| && |s.calls| <= |t.calls|
    && (forall c :: 0 <= c < |s.cells| ==>
          && t.cells[c].key == s.cells[c].key && t.cells[c].claimed == s.cells[c].claimed
          && (s.cells[c].driver.Some? ==> t.cells[c].driver == s.cells[c].driver)
          && (s.cells[c].value.Some? ==> t.cells[c].value == s.cells[c].value))
    && (forall i :: 0 <= i < |s.calls| ==>
          && t.calls[i].key == s.calls[i].key && t.calls[i].cell == s.calls[i].cell
          && (s.calls[i].produced.Some? ==> t.calls[i].produced == s.calls[i].produced)
          && (s.calls[i].pc.Done? ==> t.calls[i].pc == s.calls[i].pc))
  }

  lemma StepIsStable(cfg: Config, s: State, e: Event)
    requires Inv(cfg, s) && Step(cfg, s, e).Some?
    ensures Stable(s, Step(cfg, s, e).value)
  {
    if !e.Enter? && !e.Clear? {
      assert CallOk(cfg, s, e.i);
      assert CellOk(s, s.calls[e.i].cell);
    }
  }

  /** A cell is completed at most once: its driver and its value never change again, whatever
      happens later, and neither does what a call returned. */
  lemma {:induction false} CompletedOnce(cfg: Config, events: seq<Event>, m: nat)
    requires m <= |events| && Run(cfg, events).Some?
    ensures Run(cfg, events[..m]).Some?
    ensures Stable(Run(cfg, events[..m]).value, Run(cfg, events).value)
  {
    if m == |events| {
      assert events[..m] == events;
    } else {
      LastStepIsStable(cfg, events);
      var before := events[..|events| - 1];
      CompletedOnce(cfg, before, m);
      assert before[..m] == events[..m];
      var s, p, t := Run(cfg, events[..m]).value, Run(cfg, before).value, Run(cfg, events).value;
      StableTransitive(s, p, t);
    }
  }

  lemma LastStepIsStable(cfg: Config, events: seq<Event>)
    requires events != [] && Run(cfg, events).Some?
    ensures Run(cfg, events[..|events| - 1]).Some?
    ensures Stable(Run(cfg, events[..|events| - 1]).value, Run(cfg, events).value)
  {
    Reachable(cfg, events[..|events| - 1]);
    StepIsStable(cfg, Run(cfg, events[..|events| - 1]).value, events[|events| - 1]);
  }

  lemma StableTransitive(s: State, t: State, u: State)
    requires Stable(s, t) && Stable(t, u)
    ensures Stable(s, u)
  {
  }

  /** A cell that was claimed and is in no entry. */
  ghost predicate IsOut(s: State, c: nat) {
    c < |s.cells| && forall k :: k in s.inner.cache ==> s.inner.cache[k].cell != c
  }

  lemma StepKeepsOut(cfg: Config, s: State, e: Event, c: nat)
    requires Step(cfg, s, e).Some? && IsOut(s, c)
    ensures IsOut(Step(cfg, s, e).value, c)
  {
    if e.Enter? {
      var found := Found<nat>(cfg, s.inner, e.key, e.now);
      EnterEntries(cfg, s.inner, e.key, e.now, |s.cells|, found.Some? && Filled(s, found.value));
    }
  }

  /** Over every run, a cell that was claimed and is in no entry never comes back. */
  lemma {:induction false} OutStaysOut(cfg: Config, events: seq<Event>, m: nat, c: nat)
    requires m <= |events| && Run(cfg, events).Some? && Run(cfg, events[..m]).Some?
    requires IsOut(Run(cfg, events[..m]).value, c)
    ensures IsOut(Run(cfg, events).value, c)
  {
    if m == |events| {
      assert events[..m] == events;
    } else {
      var before := events[..|events| - 1];
      assert before[..m] == events[..m];
      OutStaysOut(cfg, before, m, c);
      StepKeepsOut(cfg, Run(cfg, before).value, events[|events| - 1], c);
    }
  }

  /** After a failed call has left, no later state of any run stores its cell. */
  lemma FailureIsRemovedForGood(cfg: Config, events: seq<Event>, i: nat, more: seq<Event>)
    requires Run(cfg, events + [Leave(i)] + more).Some?
    requires Run(cfg, events).Some? && i < |Run(cfg, events).value.calls|
    requires var pc := Run(cfg, events).value.calls[i].pc; pc.Leaving? && pc.result.Err?
    ensures IsOut(Run(cfg, events + [Leave(i)] + more).value, Run(cfg, events).value.calls[i].cell)
  {
    var all, m := events + [Leave(i)] + more, |events| + 1;
    assert all[..m] == events + [Leave(i)];
    CompletedOnce(cfg, all, m);
    Reachable(cfg, events);
    assert CallOk(cfg, Run(cfg, events).value, i);
    FailureRemovesOnlyItself(cfg, events, i);
    assert (events + [Leave(i)])[..|events|] == events;
    OutStaysOut(cfg, all, m, Run(cfg, events).value.calls[i].cell);
  }

  // ---------- every call can finish ----------

  function Weight(pc: Pc): nat {
    match pc
    case Attached => 4
    case Waiting => 3
    case Driving => 2
    case Leaving(_) => 1
    case Done(_) => 0
  }

  function Work(calls: seq<Call>): nat {
    if calls == [] then 0 else Work(calls[..|calls| - 1]) + Weight(calls[|calls| - 1].pc)
  }

  lemma {:induction false} WorkUpdate(calls: seq<Call>, i: nat, call: Call)
    requires i < |calls|
    ensures Work(calls[i := call]) == Work(calls) - Weight(calls[i].pc) + Weight(call.pc)
  {
    var n := |calls| - 1;
    if i == n {
      assert calls[i := call][..n] == calls[..n];
    } else {
      assert calls[i := call][..n] == calls[..n][i := call];
      WorkUpdate(calls[..n], i, call);
    }
  }

  lemma {:induction false} WorkBound(calls: seq<Call>)
    ensures Work(calls) <= 4 * |calls|
    ensures Work(calls) == 0 ==> forall i :: 0 <= i < |calls| ==> calls[i].pc.Done?
  {
    if calls != [] {
      var n := |calls| - 1;
      WorkBound(calls[..n]);
      forall i | 0 <= i < |calls| && Work(calls) == 0 ensures calls[i].pc.Done? {
        if i < n { assert calls[i] == calls[..n][i]; }
      }
    }
  }

  predicate Internal(e: Event) { !e.Enter? && !e.Clear? }

  /** In every reachable state an unfinished call can take a step, or the call driving its cell is
      running its creator and may complete with any result. */
  lemma NeverStuck(cfg: Config, events: seq<Event>, i: nat)
    requires Run(cfg, events).Some? && i < |Run(cfg, events).value.calls|
    requires !Run(cfg, events).value.calls[i].pc.Done?
    ensures var s := Run(cfg, events).value;
            || (exists e :: e in [Check(i), Start(i), Await(i), Leave(i)] && Step(cfg, s, e).Some?)
            || (exists d: nat :: d < |s.calls| && s.calls[d].cell == s.calls[i].cell &&
                  forall r :: Step(cfg, s, Complete(d, r)).Some?)
  {
    Reachable(cfg, events);
    var s := Run(cfg, events).value;
    assert CallOk(cfg, s, i);
    var c := s.calls[i].cell;
    assert CellOk(s, c);
    var own := [Check(i), Start(i), Await(i), Leave(i)];
    match s.calls[i].pc
    case Attached => assert own[0] in own && Step(cfg, s, own[0]).Some?;
    case Waiting =>
      if s.cells[c].value.Some? {
        assert own[2] in own && Step(cfg, s, own[2]).Some?;
      } else if s.cells[c].driver == None {
        assert own[1] in own && Step(cfg, s, own[1]).Some?;
      } else {
        var d := s.cells[c].driver.value;
        assert forall r :: Step(cfg, s, Complete(d, r)).Some?;
      }
    case Driving => assert forall r :: Step(cfg, s, Complete(i, r)).Some?;
    case Leaving(_) => assert own[3] in own && Step(cfg, s, own[3]).Some?;
    case Done(_) =>
  }

  lemma StepUsesWork(cfg: Config, s: State, e: Event)
    requires Internal(e) && Step(cfg, s, e).Some?
    ensures var t := Step(cfg, s, e).value;
            |t.calls| == |s.calls| && Work(t.calls) < Work(s.calls)
  {
    var t := Step(cfg, s, e).value;
    assert t.calls == s.calls[e.i := t.calls[e.i]];
    WorkUpdate(s.calls, e.i, t.calls[e.i]);
  }

  /** Without new calls, at most four steps per call remain; when they are used up, every call has
      returned. */
  lemma {:induction false} CallsFinish(cfg: Config, events: seq<Event>, more: seq<Event>)
    requires Run(cfg, events + more).Some?
    requires forall e :: e in more ==> Internal(e)
    ensures Run(cfg, events).Some?
    ensures var s, t := Run(cfg, events).value, Run(cfg, events + more).value;
            && |more| + Work(t.calls) <= Work(s.calls) <= 4 * |s.calls|
            && (|more| == Work(s.calls) ==> forall i :: 0 <= i < |t.calls| ==> t.calls[i].pc.Done?)
  {
    var all := events + more;
    if more == [] {
      assert all == events;
    } else {
      var n := |more| - 1;
      assert all[..|all| - 1] == events + more[..n];
      CallsFinish(cfg, events, more[..n]);
      assert all[|all| - 1] == more[n];
      StepUsesWork(cfg, Run(cfg, all[..|all| - 1]).value, more[n]);
    }
    WorkBound(Run(cfg, events).value.calls);
    WorkBound(Run(cfg, all).value.calls);
  }
}
