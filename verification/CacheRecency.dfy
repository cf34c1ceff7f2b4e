/** The `keys` list of a size-capped cache is the order of last use, so the entry evicted is the
    least recently used one; which of the attached calls runs its creator; and who sees a failure. */
module CacheRecency {
  import opened Common
  import opened CacheInner
  import opened CacheProtocol

  /** One plus the position of the last call for `key`, 0 when there was none. */
  function LastUse(events: seq<Event>, key: string): nat {
    if events == [] then 0
    else if events[|events| - 1].Enter? && events[|events| - 1].key == key then |events|
    else LastUse(events[..|events| - 1], key)
  }

  lemma {:induction false} LastUseBound(events: seq<Event>, key: string)
    ensures LastUse(events, key) <= |events|
  {
    if events != [] { LastUseBound(events[..|events| - 1], key); }
  }

  /** Each key was last used before all the keys behind it. */
  ghost predicate ByLastUse(keys: seq<string>, events: seq<Event>) {
    keys != [] ==>
      && (forall k :: k in keys[1..] ==> LastUse(events, keys[0]) < LastUse(events, k))
      && ByLastUse(keys[1..], events)
  }

  lemma {:induction false} ByLastUseIndices(keys: seq<string>, events: seq<Event>)
    requires ByLastUse(keys, events)
    ensures forall i, j :: 0 <= i < j < |keys| ==> LastUse(events, keys[i]) < LastUse(events, keys[j])
  {
    if keys != [] {
      ByLastUseIndices(keys[1..], events);
      forall i, j | 0 <= i < j < |keys| ensures LastUse(events, keys[i]) < LastUse(events, keys[j]) {
        assert keys[j] == keys[1..][j - 1];
        if i > 0 { assert keys[i] == keys[1..][i - 1]; }
      }
    }
  }

  lemma {:induction false} WithoutByLastUse(keys: seq<string>, key: string, events: seq<Event>)
    requires ByLastUse(keys, events)
    ensures ByLastUse(Without(keys, key), events)
    ensures forall k :: k in Without(keys, key) ==> k in keys
  {
    if keys != [] && keys[0] != key {
      WithoutByLastUse(keys[1..], key, events);
      assert Without(keys, key)[1..] == Without(keys[1..], key);
    }
  }

  lemma {:induction false} OutsideByLastUse(keys: seq<string>, gone: set<string>, events: seq<Event>)
    requires ByLastUse(keys, events)
    ensures ByLastUse(Outside(keys, gone), events)
    ensures forall k :: k in Outside(keys, gone) ==> k in keys
  {
    if keys != [] {
      OutsideByLastUse(keys[1..], gone, events);
      if keys[0] !in gone {
        assert Outside(keys, gone)[1..] == Outside(keys[1..], gone);
      }
    }
  }

  /** The newest call moves its own last use, and no other, to the end. */
  lemma LastUseAfter(events: seq<Event>, e: Event, k: string)
    ensures LastUse(events + [e], k) ==
            if e.Enter? && e.key == k then |events| + 1 else LastUse(events, k)
    ensures LastUse(events, k) <= |events|
  {
    assert (events + [e])[..|events|] == events;
    LastUseBound(events, k);
  }

  /** Putting the key of the newest call at the back of a list without it. */
  lemma {:induction false} AppendByLastUse(keys: seq<string>, key: string, events: seq<Event>, now: real)
    requires key !in keys && ByLastUse(keys, events)
    ensures ByLastUse(keys + [key], events + [Enter(key, now)])
  {
    if keys != [] {
      AppendByLastUse(keys[1..], key, events, now);
      assert (keys + [key])[1..] == keys[1..] + [key];
      forall k | k in keys[1..] + [key]
        ensures LastUse(events + [Enter(key, now)], keys[0]) < LastUse(events + [Enter(key, now)], k)
      {
        LastUseAfter(events, Enter(key, now), keys[0]);
        LastUseAfter(events, Enter(key, now), k);
      }
    }
  }

  lemma TouchByLastUse(keys: seq<string>, key: string, events: seq<Event>, now: real)
    requires NoDup(keys) && ByLastUse(keys, events)
    ensures ByLastUse(Without(keys, key) + [key], events + [Enter(key, now)])
  {
    WithoutByLastUse(keys, key, events);
    WithoutMeaning(keys, key);
    AppendByLastUse(Without(keys, key), key, events, now);
  }

  lemma {:induction false} OtherEventByLastUse(keys: seq<string>, events: seq<Event>, e: Event)
    requires !e.Enter? && ByLastUse(keys, events)
    ensures ByLastUse(keys, events + [e])
  {
    if keys != [] {
      OtherEventByLastUse(keys[1..], events, e);
      forall k | k in keys[1..] ensures LastUse(events + [e], keys[0]) < LastUse(events + [e], k) {
        LastUseAfter(events, e, keys[0]);
        LastUseAfter(events, e, k);
      }
    }
  }

  lemma StepByLastUse(cfg: Config, s: State, t: State, before: seq<Event>, events: seq<Event>)
    requires events != [] && before == events[..|events| - 1]
    requires cfg.size.Some? && Inv(cfg, s) && Step(cfg, s, events[|events| - 1]) == Some(t)
    requires ByLastUse(s.inner.keys, before)
    ensures ByLastUse(t.inner.keys, events)
  {
    var e := events[|events| - 1];
    assert events == before + [e];
    if e.Enter? {
      EnterByLastUse(cfg, s, e.key, e.now, before);
    } else {
      if e.Leave? { WithoutByLastUse(s.inner.keys, s.calls[e.i].key, before); }
      OtherEventByLastUse(t.inner.keys, before, e);
    }
  }

  /** The key list after the first locked section: swept, possibly without its front, and with the key at the back. */
  lemma KeysAfterEnter(cfg: Config, s: Inner<nat>, key: string, now: real, claimed: nat, filled: bool)
    requires cfg.size.Some?
    ensures var keys := Cleaned(cfg, s, now).keys;
            var after := AfterEnter(cfg, s, key, now, claimed, filled).keys;
            after == Without(keys, key) + [key] || (keys != [] && after == Without(keys[1..], key) + [key])
  {
  }

  lemma EnterByLastUse(cfg: Config, s: State, key: string, now: real, events: seq<Event>)
    requires cfg.size.Some? && Inv(cfg, s) && ByLastUse(s.inner.keys, events)
    ensures ByLastUse(StepEnter(cfg, s, key, now).inner.keys, events + [Enter(key, now)])
  {
    var s1 := Cleaned(cfg, s.inner, now);
    var found := Found<nat>(cfg, s.inner, key, now);
    CleanedWellFormed(cfg, s.inner, now);
    OutsideByLastUse(s.inner.keys, Expired(s.inner, Seconds(now)), events);
    assert ByLastUse(s1.keys, events);
    TouchByLastUse(s1.keys, key, events, now);
    if s1.keys != [] { TouchByLastUse(s1.keys[1..], key, events, now); }
    KeysAfterEnter(cfg, s.inner, key, now, |s.cells|, found.Some? && Filled(s, found.value));
  }

  /** With a size cap, the key list is strictly ordered by last use after every run. */
  lemma {:induction false} KeysAreOrderedByLastUse(cfg: Config, events: seq<Event>)
    requires cfg.size.Some? && Run(cfg, events).Some?
    ensures ByLastUse(Run(cfg, events).value.inner.keys, events)
  {
    if events != [] {
      var before := events[..|events| - 1];
      KeysAreOrderedByLastUse(cfg, before);
      Reachable(cfg, before);
      StepByLastUse(cfg, Run(cfg, before).value, Run(cfg, events).value, before, events);
    }
  }

  /** An entry that a call takes out was either expired and swept by the cleanup, or the call was a
      miss on a full cache and every entry still stored was used at least as recently. */
  lemma EvictsLeastRecentlyUsed(cfg: Config, events: seq<Event>, key: string, now: real, victim: string)
    requires cfg.size.Some? && Run(cfg, events).Some?
    requires victim in Run(cfg, events).value.inner.cache
    requires victim !in Run(cfg, events + [Enter(key, now)]).value.inner.cache
    ensures var s := Run(cfg, events).value.inner;
            || (CleanupDue(cfg, s, now) && !s.cache[victim].IsValid(Seconds(now)))
            || (&& Found(cfg, s, key, now) == None
                && |Cleaned(cfg, s, now).cache| >= cfg.size.value
                && forall k :: k in Cleaned(cfg, s, now).cache ==> LastUse(events, victim) <= LastUse(events, k))
  {
    assert (events + [Enter(key, now)])[..|events|] == events;
    KeysAreOrderedByLastUse(cfg, events);
    Reachable(cfg, events);
    var state := Run(cfg, events).value;
    var s := state.inner;
    var s1 := Cleaned(cfg, s, now);
    var found := Found<nat>(cfg, s, key, now);
    EnterRemoves(cfg, s, key, now, |state.cells|, found.Some? && Filled(state, found.value), victim);
    if victim in s1.cache && s1.keys != [] && s1.keys[0] == victim {
      CleanedWellFormed(cfg, s, now);
      OutsideByLastUse(s.keys, Expired(s, Seconds(now)), events);
      FrontIsOldest(s1.keys, events);
      assert forall k :: k in s1.cache ==> k in s1.keys;
    }
  }

  lemma FrontIsOldest(keys: seq<string>, events: seq<Event>)
    requires keys != [] && ByLastUse(keys, events)
    ensures forall k :: k in keys ==> LastUse(events, keys[0]) <= LastUse(events, k)
  {
    assert forall k :: k in keys <==> k == keys[0] || k in keys[1..];
  }

  /** After every run: no key twice in the list, list and map agree, the cap holds with 1 as the
      least bound, and hits never exceed gets. */
  lemma BoundedAndConsistent(cfg: Config, events: seq<Event>)
    requires Run(cfg, events).Some?
    ensures var s := Run(cfg, events).value.inner;
            && (forall i, j :: 0 <= i < j < |s.keys| ==> s.keys[i] != s.keys[j])
            && (forall k :: k in s.keys <==> k in s.cache)
            && (cfg.size.Some? ==> |s.cache| <= (if cfg.size.value == 0 then 1 else cfg.size.value))
            && s.hits <= s.total
  {
    Reachable(cfg, events);
  }

  /** A cap of zero still stores one entry: the bound above cannot be lowered to `size`. */
  lemma ZeroCapStoresOne(cfg: Config, key: string, now: real)
    requires cfg.size == Some(0)
    ensures Run(cfg, [Enter(key, now)]).Some?
    ensures |Run(cfg, [Enter(key, now)]).value.inner.cache| == 1
  {
    assert [Enter(key, now)][..0] == [];
  }

  // ---------- who runs the creator ----------

  function DriverOf(s: State, c: nat): Option<nat> {
    if c < |s.cells| then s.cells[c].driver else None
  }

  /** What a call that has not started yet does to run its creator. */
  function StartEvents(s: State, i: nat): seq<Event>
    requires i < |s.calls|
  {
    if s.calls[i].pc == Attached then [Check(i), Start(i)] else [Start(i)]
  }

  /** In every reachable state each attached call that has not gone on can run its own creator exactly as long as no
      other call runs one for the cell, whether or not it claimed the cell. */
  lemma AnyAttachedCallCanDrive(cfg: Config, events: seq<Event>, i: nat)
    requires Run(cfg, events).Some? && i < |Run(cfg, events).value.calls|
    requires var s := Run(cfg, events).value;
             s.calls[i].pc == Waiting || (s.calls[i].pc == Attached && !Filled(s, s.calls[i].cell))
    ensures var s := Run(cfg, events).value;
            var after := Run(cfg, events + StartEvents(s, i));
            && (after.Some? <==> DriverOf(s, s.calls[i].cell) == None)
            && (after.Some? ==> && DriverOf(after.value, s.calls[i].cell) == Some(i) && i < |after.value.calls|
                                && after.value.calls[i] == s.calls[i].(pc := Driving))
  {
    Reachable(cfg, events);
    var s := Run(cfg, events).value;
    assert CallOk(cfg, s, i) && CellOk(s, s.calls[i].cell);
    if s.calls[i].pc == Attached {
      RunOneMore(cfg, events, Check(i));
      RunOneMore(cfg, events + [Check(i)], Start(i));
      assert events + [Check(i)] + [Start(i)] == events + StartEvents(s, i);
    } else {
      RunOneMore(cfg, events, Start(i));
    }
  }

  lemma RunOneMore(cfg: Config, events: seq<Event>, e: Event)
    ensures Run(cfg, events + [e]) == if Run(cfg, events).None? then None else Step(cfg, Run(cfg, events).value, e)
  {
    assert (events + [e])[..|events|] == events;
  }

  /** Event `n` is the start of call `i`, which is attached to cell `c`. */
  ghost predicate StartsOn(cfg: Config, events: seq<Event>, n: nat, i: nat, c: nat) {
    && n < |events| && events[n] == Start(i) && Run(cfg, events[..n]).Some?
    && i < |Run(cfg, events[..n]).value.calls| && Run(cfg, events[..n]).value.calls[i].cell == c
  }

  ghost function Starts(cfg: Config, events: seq<Event>, c: nat): (nat, nat) -> bool {
    (n: nat, i: nat) => StartsOn(cfg, events, n, i, c)
  }

  /** A step changes a cell's driver only by starting a call attached to it, and only once. */
  lemma DriverStep(cfg: Config, s: State, e: Event, c: nat)
    requires Inv(cfg, s) && Step(cfg, s, e).Some?
    ensures if e.Start? && s.calls[e.i].cell == c
            then DriverOf(s, c) == None && DriverOf(Step(cfg, s, e).value, c) == Some(e.i)
            else DriverOf(Step(cfg, s, e).value, c) == DriverOf(s, c)
  {
  }

  lemma DriverAfterEvent(cfg: Config, events: seq<Event>, k: nat, c: nat)
    requires k < |events| && Run(cfg, events[..k + 1]).Some?
    ensures Run(cfg, events[..k]).Some?
    ensures var before := DriverOf(Run(cfg, events[..k]).value, c);
            var after := DriverOf(Run(cfg, events[..k + 1]).value, c);
            var starts := Starts(cfg, events, c);
            if exists i: nat :: starts(k, i) then before == None && after.Some? && starts(k, after.value)
            else after == before
  {
    RunOneMore(cfg, events[..k], events[k]);
    assert events[..k] + [events[k]] == events[..k + 1];
    Reachable(cfg, events[..k]);
    DriverStep(cfg, Run(cfg, events[..k]).value, events[k], c);
    if events[k].Start? && Run(cfg, events[..k]).value.calls[events[k].i].cell == c {
      assert Starts(cfg, events, c)(k, events[k].i);
    }
  }

  /** Among the first `k` events, the start that made the driver is the only one, or there is none. */
  ghost predicate OnlyStart(starts: (nat, nat) -> bool, k: nat, driver: Option<nat>) {
    && (driver.Some? ==> exists n: nat :: n < k && starts(n, driver.value))
    && (driver == None ==> forall n: nat, i: nat :: n < k ==> !starts(n, i))
    && (forall n: nat, i: nat, m: nat, j: nat :: n < k && m < k && starts(n, i) && starts(m, j) ==> n == m)
  }

  lemma OnlyStartGrows(starts: (nat, nat) -> bool, k: nat, before: Option<nat>, after: Option<nat>)
    requires OnlyStart(starts, k, before)
    requires if exists i: nat :: starts(k, i) then before == None && after.Some? && starts(k, after.value)
             else after == before
    ensures OnlyStart(starts, k + 1, after)
  {
    if before.Some? {
      var n: nat :| n < k && starts(n, before.value);
    }
  }

  lemma {:induction false} OnlyStartSoFar(cfg: Config, events: seq<Event>, k: nat, c: nat)
    requires k <= |events| && Run(cfg, events[..k]).Some?
    ensures OnlyStart(Starts(cfg, events, c), k, DriverOf(Run(cfg, events[..k]).value, c))
  {
    if k > 0 {
      DriverAfterEvent(cfg, events, k - 1, c);
      OnlyStartSoFar(cfg, events, k - 1, c);
      var before, after := DriverOf(Run(cfg, events[..k - 1]).value, c), DriverOf(Run(cfg, events[..k]).value, c);
      OnlyStartGrows(Starts(cfg, events, c), k - 1, before, after);
    }
  }

  /** In every reachable state the driver of a cell is the call whose start is the only start on it. */
  lemma DriverIsTheStart(cfg: Config, events: seq<Event>, c: nat)
    requires Run(cfg, events).Some?
    ensures forall i: nat :: DriverOf(Run(cfg, events).value, c) == Some(i) <==>
                             exists n: nat :: StartsOn(cfg, events, n, i, c)
    ensures forall n: nat, i: nat, m: nat, j: nat ::
              StartsOn(cfg, events, n, i, c) && StartsOn(cfg, events, m, j, c) ==> n == m
  {
    assert events[..|events|] == events;
    OnlyStartSoFar(cfg, events, |events|, c);
    assert forall n: nat, i: nat :: Starts(cfg, events, c)(n, i) <==> StartsOn(cfg, events, n, i, c);
  }

  /** The caller that claimed a key runs its creator exactly when its start is the first on that cell. */
  lemma ClaimantDrivesIfFirst(cfg: Config, events: seq<Event>, c: nat)
    requires Run(cfg, events).Some? && c < |Run(cfg, events).value.cells|
    ensures var cell := Run(cfg, events).value.cells[c];
            cell.driver == Some(cell.claimant) <==>
            exists n: nat :: && StartsOn(cfg, events, n, cell.claimant, c)
                             && forall m: nat, j: nat :: m < n ==> !StartsOn(cfg, events, m, j, c)
  {
    DriverIsTheStart(cfg, events, c);
    var cell := Run(cfg, events).value.cells[c];
    if cell.driver == Some(cell.claimant) {
      assert DriverOf(Run(cfg, events).value, c) == Some(cell.claimant);
      var n: nat :| StartsOn(cfg, events, n, cell.claimant, c);
      assert forall m: nat, j: nat :: m < n ==> !StartsOn(cfg, events, m, j, c);
    }
  }

  // ---------- failures ----------

  /** A call can be attached to a failed cell only while the driver of that cell is still on its way
      to the error branch. */
  lemma FailureServedOnlyBeforeDriverLeaves(cfg: Config, events: seq<Event>, key: string, now: real)
    requires Run(cfg, events).Some?
    requires var s := Run(cfg, events).value;
             var found := Found<nat>(cfg, s.inner, key, now);
             found.Some? && Filled(s, found.value) && s.cells[found.value].value.value.Err?
    ensures var s := Run(cfg, events).value;
            var cell := s.cells[Found<nat>(cfg, s.inner, key, now).value];
            && cell.key == key && cell.driver.Some? && cell.driver.value < |s.calls|
            && s.calls[cell.driver.value].pc == Leaving(cell.value.value)
  {
    Reachable(cfg, events);
    var s := Run(cfg, events).value;
    assert FailureOk(s, key) && CellOk(s, s.inner.cache[key].cell);
    assert CallOk(cfg, s, s.cells[s.inner.cache[key].cell].driver.value);
  }

  /** In every reachable state a call that finds a failure returns it, without running its creator, as a hit. */
  lemma FoundFailureIsServed(cfg: Config, events: seq<Event>, key: string, now: real)
    requires Run(cfg, events).Some?
    requires var s := Run(cfg, events).value;
             var found := Found<nat>(cfg, s.inner, key, now);
             found.Some? && Filled(s, found.value) && s.cells[found.value].value.value.Err?
    ensures var s := Run(cfg, events).value;
            var me := |s.calls|;
            var after := Run(cfg, events + [Enter(key, now), Check(me)]);
            && after.Some? && me < |after.value.calls|
            && after.value.calls[me].pc == Done(s.cells[Found<nat>(cfg, s.inner, key, now).value].value.value)
            && after.value.calls[me].produced == None
            && after.value.inner.hits == s.inner.hits + 1
  {
    var s := Run(cfg, events).value;
    RunOneMore(cfg, events, Enter(key, now));
    RunOneMore(cfg, events + [Enter(key, now)], Check(|s.calls|));
    assert events + [Enter(key, now)] + [Check(|s.calls|)] == events + [Enter(key, now), Check(|s.calls|)];
  }

  /** A run in which that happens. */
  lemma FailureCanBeServed(key: string, error: string)
    ensures var cfg := Config(20, None, None);
            var events := [Enter(key, 0.0), Check(0), Start(0), Complete(0, Err(error)), Enter(key, 0.0), Check(1)];
            && Run(cfg, events).Some?
            && Run(cfg, events).value.calls[1].pc == Done(Err(error))
            && Run(cfg, events).value.calls[1].produced == None
            && Run(cfg, events).value.inner.hits == 1
  {
    var cfg := Config(20, None, None);
    var events := [Enter(key, 0.0), Check(0), Start(0), Complete(0, Err(error)), Enter(key, 0.0), Check(1)];
    var e1, e2, e3, e4, e5 := events[..1], events[..2], events[..3], events[..4], events[..5];
    assert e1[..0] == [] && e2[..1] == e1 && e3[..2] == e2 && e4[..3] == e3 && e5[..4] == e4 && events[..5] == e5;
    assert Run(cfg, e1) == Some(StepEnter(cfg, Init(), key, 0.0));
    assert Run(cfg, e2).Some? && Run(cfg, e2).value.calls[0].pc == Waiting;
    assert Run(cfg, e3).Some? && Run(cfg, e3).value.calls[0].pc == Driving;
    assert Run(cfg, e4).Some? && Run(cfg, e4).value.cells[0].value == Some(Err(error));
    assert Run(cfg, e5).Some? && Run(cfg, e5).value.calls[1].cell == 0 && Run(cfg, e5).value.calls[1].hit;
  }
}
