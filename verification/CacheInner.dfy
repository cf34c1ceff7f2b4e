/** What the locked sections of `src/cache.rs` do to `Inner`, as functions on values.
    `C` stands for the identity of a shared once-cell: an object in `ObjectCache`, a number in
    `CacheProtocol`.  Two `Arc<CacheEntry>` are the same pointer exactly when their cells are. */
module CacheInner {
  import opened Common

  datatype Config = Config(ttl: int, size: Option<nat>, cleanupPeriod: Option<real>)

  datatype Entry<C> = Entry(expires: int, cell: C) {
    predicate IsValid(now: int) { now < expires }
  }

  datatype Inner<C> = Inner(
    cache: map<string, Entry<C>>,
    keys: seq<string>,  // front = least recently used
    lastCleanup: real,
    total: nat,
    hits: nat)

  /** `now as i64`: truncation toward zero. */
  function Seconds(now: real): (t: int)
    ensures now >= 0.0 ==> 0 <= t && t as real <= now < t as real + 1.0
    ensures now <= 0.0 ==> t <= 0 && t as real - 1.0 < now <= t as real
  {
    if now >= 0.0 then now.Floor else -((-now).Floor)
  }

  function Initial<C>(): Inner<C> {
    Inner(map[], [], 0.0, 0, 0)
  }

  // ---------- the recency list ----------

  ghost predicate NoDup(keys: seq<string>) {
    forall i, j :: 0 <= i < j < |keys| ==> keys[i] != keys[j]
  }

  /** `keys` without the first occurrence of `key`. */
  function Without(keys: seq<string>, key: string): seq<string> {
    if keys == [] then []
    else if keys[0] == key then keys[1..]
    else [keys[0]] + Without(keys[1..], key)
  }

  /** `keys` without every element of `gone`, order kept. */
  function Outside(keys: seq<string>, gone: set<string>): seq<string> {
    if keys == [] then []
    else if keys[0] in gone then Outside(keys[1..], gone)
    else [keys[0]] + Outside(keys[1..], gone)
  }

  // ---------- the operations ----------

  function RemoveOldest<C>(s: Inner<C>): Inner<C> {
    if s.keys == [] then s else s.(keys := s.keys[1..], cache := s.cache - {s.keys[0]})
  }

  function TrackUsage<C>(s: Inner<C>, key: string): Inner<C> {
    s.(keys := Without(s.keys, key) + [key])
  }

  function Expired<C>(s: Inner<C>, now: int): set<string> {
    set k | k in s.cache && !s.cache[k].IsValid(now)
  }

  function CleanExpired<C>(s: Inner<C>, now: int): Inner<C> {
    var gone := Expired(s, now);
    s.(cache := s.cache - gone, keys := Outside(s.keys, gone))
  }

  predicate CleanupDue<C>(cfg: Config, s: Inner<C>, now: real) {
    cfg.cleanupPeriod.Some? && now > s.lastCleanup + cfg.cleanupPeriod.value
  }

  /** The state the lookup sees: after the periodic cleanup, when it is due. */
  function Cleaned<C>(cfg: Config, s: Inner<C>, now: real): Inner<C> {
    if CleanupDue(cfg, s, now) then CleanExpired(s, Seconds(now)).(lastCleanup := now) else s
  }

  /** The cell a call for `key` is attached to without claiming a new one. */
  function Found<C>(cfg: Config, s: Inner<C>, key: string, now: real): Option<C> {
    var s1 := Cleaned(cfg, s, now);
    if key in s1.cache && s1.cache[key].IsValid(Seconds(now)) then Some(s1.cache[key].cell) else None
  }

  predicate Evicts<C>(cfg: Config, s: Inner<C>) {
    cfg.size.Some? && |s.cache| >= cfg.size.value
  }

  /** The first locked section of `get_result_at`.  `claimed` is the new cell a miss stores, `filled`
      whether a found cell already holds its result. */
  function AfterEnter<C>(cfg: Config, s: Inner<C>, key: string, now: real, claimed: C, filled: bool): Inner<C> {
    var s1 := Cleaned(cfg, s, now);
    var s2 := s1.(total := s1.total + 1);
    if Found(cfg, s, key, now).Some? then
      var s3 := if cfg.size.Some? then TrackUsage(s2, key) else s2;
      s3.(hits := s3.hits + if filled then 1 else 0)
    else
      var s3 := TrackUsage(if Evicts(cfg, s2) then RemoveOldest(s2) else s2, key);
      s3.(cache := s3.cache[key := Entry(Seconds(now) + cfg.ttl, claimed)])
  }

  /** The second locked section: forget a failed cell unless a newer generation took its place. */
  function AfterFailure<C(==)>(s: Inner<C>, key: string, cell: C): Inner<C> {
    if key in s.cache && s.cache[key].cell == cell
    then s.(cache := s.cache - {key}, keys := Without(s.keys, key))
    else s
  }

  // ---------- the invariant ----------

  /** The largest number of entries a size cap really allows. */
  function Capacity(size: nat): nat { if size == 0 then 1 else size }

  ghost predicate WellFormed<C>(cfg: Config, s: Inner<C>) {
    && NoDup(s.keys)
    && (forall k :: k in s.keys <==> k in s.cache)
    && (cfg.size.Some? ==> |s.cache| <= Capacity(cfg.size.value))
    && s.hits <= s.total
  }

  lemma {:induction false} WithoutMeaning(keys: seq<string>, key: string)
    requires NoDup(keys)
    ensures NoDup(Without(keys, key))
    ensures forall k :: k in Without(keys, key) <==> k in keys && k != key
  {
    if keys != [] && keys[0] != key {
      WithoutMeaning(keys[1..], key);
      var w := Without(keys[1..], key);
      assert Without(keys, key) == [keys[0]] + w;
      assert keys[0] !in w;
      assert forall k :: k in keys <==> k == keys[0] || k in keys[1..];
    }
  }

  lemma TouchMeaning(keys: seq<string>, key: string)
    requires NoDup(keys)
    ensures NoDup(Without(keys, key) + [key])
    ensures forall k :: k in Without(keys, key) + [key] <==> k in keys || k == key
  {
    WithoutMeaning(keys, key);
    var w := Without(keys, key);
    assert forall i :: 0 <= i < |w| ==> w[i] in w;
  }

  /** Deleting at the first position found is `Without`. */
  lemma {:induction false} WithoutAt(keys: seq<string>, key: string, pos: nat)
    requires pos < |keys| && keys[pos] == key && key !in keys[..pos]
    ensures Without(keys, key) == keys[..pos] + keys[pos + 1..]
  {
    if pos > 0 {
      assert keys[0] == keys[..pos][0];
      assert keys[1..][..pos - 1] == keys[..pos][1..];
      WithoutAt(keys[1..], key, pos - 1);
    }
  }

  lemma {:induction false} WithoutAbsent(keys: seq<string>, key: string)
    requires key !in keys
    ensures Without(keys, key) == keys
  {
    if keys != [] { WithoutAbsent(keys[1..], key); }
  }

  lemma {:induction false} OutsideMeaning(keys: seq<string>, gone: set<string>)
    requires NoDup(keys)
    ensures NoDup(Outside(keys, gone))
    ensures forall k :: k in Outside(keys, gone) <==> k in keys && k !in gone
  {
    if keys != [] {
      OutsideMeaning(keys[1..], gone);
      assert forall k :: k in keys <==> k == keys[0] || k in keys[1..];
    }
  }

  lemma {:induction false} OutsideNothing(keys: seq<string>)
    ensures Outside(keys, {}) == keys
  {
    if keys != [] { OutsideNothing(keys[1..]); }
  }

  /** One more key dropped, in whatever order the map hands them out. */
  lemma {:induction false} OutsideStep(keys: seq<string>, gone: set<string>, key: string)
    requires NoDup(keys) && key !in gone
    ensures Without(Outside(keys, gone), key) == Outside(keys, gone + {key})
  {
    if keys != [] {
      OutsideStep(keys[1..], gone, key);
      if keys[0] == key {
        OutsideMeaning(keys[1..], gone);
        OutsideSame(keys[1..], gone, key);
      }
    }
  }

  lemma {:induction false} OutsideSame(keys: seq<string>, gone: set<string>, key: string)
    requires key !in keys
    ensures Outside(keys, gone) == Outside(keys, gone + {key})
  {
    if keys != [] { OutsideSame(keys[1..], gone, key); }
  }

  lemma RemovalSize<C>(m: map<string, Entry<C>>, key: string)
    requires key in m
    ensures |m - {key}| == |m| - 1
  {
    assert (m - {key}).Keys == m.Keys - {key};
  }

  lemma SubtractionSize<C>(m: map<string, Entry<C>>, gone: set<string>)
    ensures |m - gone| <= |m|
  {
    var rest := (m - gone).Keys;
    assert rest <= m.Keys;
    assert |m.Keys| == |rest| + |m.Keys - rest|;
  }

  lemma CleanExpiredWellFormed<C>(cfg: Config, s: Inner<C>, now: int)
    requires WellFormed(cfg, s)
    ensures WellFormed(cfg, CleanExpired(s, now))
  {
    var gone := Expired(s, now);
    OutsideMeaning(s.keys, gone);
    SubtractionSize(s.cache, gone);
  }

  lemma CleanedWellFormed<C>(cfg: Config, s: Inner<C>, now: real)
    requires WellFormed(cfg, s)
    ensures WellFormed(cfg, Cleaned(cfg, s, now))
  {
    CleanExpiredWellFormed(cfg, s, Seconds(now));
  }

  lemma RemoveOldestWellFormed<C>(cfg: Config, s: Inner<C>)
    requires WellFormed(cfg, s)
    ensures WellFormed(cfg, RemoveOldest(s))
    ensures s.cache != map[] ==> |RemoveOldest(s).cache| == |s.cache| - 1
  {
    if s.keys != [] {
      var oldest := s.keys[0];
      assert oldest in s.keys;
      RemovalSize(s.cache, oldest);
      assert forall k :: k in s.keys <==> k == oldest || k in s.keys[1..];
    } else {
      assert forall k :: k !in s.cache;
    }
  }

  /** Storing a fresh entry after the eviction check. */
  lemma ClaimKeepsWellFormed<C>(cfg: Config, s: Inner<C>, key: string, entry: Entry<C>)
    requires WellFormed(cfg, s)
    ensures var e := if Evicts(cfg, s) then RemoveOldest(s) else s;
            var t := TrackUsage(e, key);
            WellFormed(cfg, t.(cache := t.cache[key := entry]))
  {
    RemoveOldestWellFormed(cfg, s);
    var e := if Evicts(cfg, s) then RemoveOldest(s) else s;
    assert s.cache == map[] ==> |s.cache| == 0;
    assert cfg.size.Some? ==> |e.cache| < Capacity(cfg.size.value);
    TouchMeaning(e.keys, key);
    assert |e.cache[key := entry]| <= |e.cache| + 1;
  }

  /** Every `get_result` keeps the structure well formed, capped or not. */
  lemma EnterKeepsWellFormed<C>(cfg: Config, s: Inner<C>, key: string, now: real, claimed: C, filled: bool)
    requires WellFormed(cfg, s)
    ensures WellFormed(cfg, AfterEnter(cfg, s, key, now, claimed, filled))
  {
    CleanedWellFormed(cfg, s, now);
    var s1 := Cleaned(cfg, s, now);
    var s2 := s1.(total := s1.total + 1);
    if Found(cfg, s, key, now).Some? {
      TouchMeaning(s2.keys, key);
    } else {
      ClaimKeepsWellFormed(cfg, s2, key, Entry(Seconds(now) + cfg.ttl, claimed));
    }
  }

  lemma FailureKeepsWellFormed<C>(cfg: Config, s: Inner<C>, key: string, cell: C)
    requires WellFormed(cfg, s)
    ensures WellFormed(cfg, AfterFailure(s, key, cell))
  {
    WithoutMeaning(s.keys, key);
    SubtractionSize(s.cache, {key});
  }

  /** Where the entries after a call come from: everything was stored before, except the claimed
      cell of a miss. */
  lemma EnterEntries<C>(cfg: Config, s: Inner<C>, key: string, now: real, claimed: C, filled: bool)
    ensures var after := AfterEnter(cfg, s, key, now, claimed, filled).cache;
            && (forall k :: k in after && k != key ==> k in s.cache && after[k] == s.cache[k])
            && (match Found(cfg, s, key, now)
                case Some(cell) =>
                  key in s.cache && key in after && after[key] == s.cache[key] && after[key].cell == cell &&
                  Seconds(now) < after[key].expires
                case None => key in after && after[key] == Entry(Seconds(now) + cfg.ttl, claimed))
  {
  }

  /** Which stored entries a call takes out: the ones the cleanup sweeps, and the front of the list
      when a miss finds the cache full. */
  lemma EnterRemoves<C>(cfg: Config, s: Inner<C>, key: string, now: real, claimed: C, filled: bool, victim: string)
    requires victim in s.cache && victim !in AfterEnter(cfg, s, key, now, claimed, filled).cache
    ensures var s1 := Cleaned(cfg, s, now);
            || (CleanupDue(cfg, s, now) && !s.cache[victim].IsValid(Seconds(now)))
            || (Found(cfg, s, key, now) == None && Evicts(cfg, s1) && victim in s1.cache &&
                s1.keys != [] && s1.keys[0] == victim)
  {
  }

  // ---------- the locked section over the fields themselves ----------

  /** An entry is found exactly when the key is stored and has not expired, whether or not a cleanup is due. */
  lemma FoundIff<C>(cfg: Config, s: Inner<C>, key: string, now: real)
    ensures Found(cfg, s, key, now) ==
            if key in s.cache && Seconds(now) < s.cache[key].expires then Some(s.cache[key].cell) else None
  {
  }

  /** The cleanup is due more than a period after the last one; then exactly the entries that have not expired are left,
      and otherwise all of them. */
  lemma CleanedIff<C>(cfg: Config, s: Inner<C>, now: real, k: string)
    ensures var due := cfg.cleanupPeriod.Some? && now > s.lastCleanup + cfg.cleanupPeriod.value;
            && (k in Cleaned(cfg, s, now).cache <==> k in s.cache && (due ==> Seconds(now) < s.cache[k].expires))
            && (k in Cleaned(cfg, s, now).cache ==> Cleaned(cfg, s, now).cache[k] == s.cache[k])
            && Cleaned(cfg, s, now).lastCleanup == (if due then now else s.lastCleanup)
  {
  }

  /** The counters: every call is counted, and a hit exactly when a found cell is filled; the cleanup's clock is kept. */
  lemma EnterCounts<C>(cfg: Config, s: Inner<C>, key: string, now: real, claimed: C, filled: bool)
    ensures var after := AfterEnter(cfg, s, key, now, claimed, filled);
            && after.total == s.total + 1
            && after.hits == s.hits + (if key in s.cache && Seconds(now) < s.cache[key].expires && filled then 1 else 0)
            && after.lastCleanup == Cleaned(cfg, s, now).lastCleanup
  {
  }

  /** Which entries a call leaves: its own key's, and of the others those the cleanup left, but for the front of the list
      when a miss finds the cap reached. */
  lemma EnterLeaves<C>(cfg: Config, s: Inner<C>, key: string, now: real, claimed: C, filled: bool, k: string)
    requires WellFormed(cfg, s)
    ensures var after, left := AfterEnter(cfg, s, key, now, claimed, filled), Cleaned(cfg, s, now);
            var hit := key in s.cache && Seconds(now) < s.cache[key].expires;
            && (k in after.cache <==>
                k == key || (k in left.cache
                             && !(!hit && cfg.size.Some? && |left.cache| >= cfg.size.value && left.keys != []
                                  && k == left.keys[0])))
            && (k in after.cache && k != key ==> after.cache[k] == s.cache[k])
            && (key in after.cache && after.cache[key] ==
                if hit then s.cache[key] else Entry(Seconds(now) + cfg.ttl, claimed))
  {
  }
}
