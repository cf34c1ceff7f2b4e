/** `ObjectCache` of `src/cache.rs` with its mutable fields.  Each method is one section run under
    the lock, proved equal to the value-level operation of `CacheInner`; `GetResultAt` is a call no
    other task interrupts.  `CacheProtocol` covers the interrupted ones. */
module ObjectCache {
  import opened Common
  import opened CacheInner

  type Outcome = Result<string, string>

  /** The shared result of one generation of a key. */
  class OnceCell {
    var value: Option<Outcome>

    constructor ()
      ensures value == None
    {
      value := None;
    }
  }

  /** First position of `key`, or `|keys|`. */
  method Position(keys: seq<string>, key: string) returns (pos: nat)
    ensures pos <= |keys| && key !in keys[..pos]
    ensures pos < |keys| ==> keys[pos] == key
  {
    pos := 0;
    while pos < |keys| && keys[pos] != key
      invariant pos <= |keys| && key !in keys[..pos]
    {
      pos := pos + 1;
    }
  }

  /** `if let Some(pos) = keys.iter().position(..) { keys.remove(pos) }`. */
  method RemoveKey(keys: seq<string>, key: string) returns (rest: seq<string>)
    ensures rest == Without(keys, key)
  {
    var pos := Position(keys, key);
    if pos < |keys| {
      WithoutAt(keys, key, pos);
      rest := keys[..pos] + keys[pos + 1..];
    } else {
      WithoutAbsent(keys, key);
      rest := keys;
    }
  }

  /** The loop of `clean_expired`: one removal per expired key, in the arbitrary order of the map. */
  method DropAll<C>(cache: map<string, Entry<C>>, keys: seq<string>, expired: set<string>)
    returns (left: map<string, Entry<C>>, listed: seq<string>)
    requires NoDup(keys)
    ensures left == cache - expired
    ensures listed == Outside(keys, expired)
  {
    left, listed := cache, keys;
    var todo := expired;
    ghost var gone: set<string> := {};
    OutsideNothing(keys);
    while todo != {}
      invariant gone !! todo && gone + todo == expired
      invariant left == cache - gone
      invariant listed == Outside(keys, gone)
      decreases |todo|
    {
      var key :| key in todo;
      OutsideStep(keys, gone, key);
      listed := RemoveKey(listed, key);
      left := left - {key};
      todo, gone := todo - {key}, gone + {key};
    }
  }

  class ObjectCache {
    const config: Config
    var cache: map<string, Entry<OnceCell>>
    var keys: seq<string>
    var lastCleanup: real
    var total: nat
    var hits: nat

    ghost function State(): Inner<OnceCell> reads this {
      Inner(cache, keys, lastCleanup, total, hits)
    }

    ghost predicate Valid() reads this {
      WellFormed(config, State())
    }

    constructor (config: Config)
      ensures Valid() && State() == Initial() && this.config == config
    {
      this.config := config;
      cache, keys, lastCleanup, total, hits := map[], [], 0.0, 0, 0;
    }

    method RemoveOldestEntry()
      modifies this
      ensures State() == RemoveOldest(old(State()))
    {
      if |keys| > 0 {
        var key := keys[0];
        keys := keys[1..];
        cache := cache - {key};
      }
    }

    method TrackUsage(key: string)
      modifies this
      ensures State() == CacheInner.TrackUsage(old(State()), key)
    {
      keys := RemoveKey(keys, key);
      keys := keys + [key];
    }

    method CleanExpired(now: real)
      requires Valid()
      modifies this
      ensures Valid()
      ensures State() == CacheInner.CleanExpired(old(State()), Seconds(now))
    {
      CleanExpiredWellFormed(config, State(), Seconds(now));
      var expired := set k | k in cache && !cache[k].IsValid(Seconds(now));
      assert expired == Expired(State(), Seconds(now));
      cache, keys := DropAll(cache, keys, expired);
    }

    /** The periodic cleanup at the start of a call. */
    method Cleanup(now: real)
      requires Valid()
      modifies this
      ensures Valid()
      ensures State() == Cleaned(config, old(State()), now)
    {
      CleanedWellFormed(config, State(), now);
      if config.cleanupPeriod.Some? && now > lastCleanup + config.cleanupPeriod.value {
        CleanExpired(now);
        lastCleanup := now;
      }
    }

    /** The miss branch: evict when the cap is reached, then store a fresh, empty cell. */
    method Claim(key: string, now: real) returns (entry: Entry<OnceCell>)
      modifies this
      ensures fresh(entry.cell) && entry.cell.value == None
      ensures entry.expires == Seconds(now) + config.ttl
      ensures var s := old(State());
              var t := CacheInner.TrackUsage(if Evicts(config, s) then RemoveOldest(s) else s, key);
              State() == t.(cache := t.cache[key := entry])
    {
      if config.size.Some? && |cache| >= config.size.value {
        RemoveOldestEntry();
      }
      var cell := new OnceCell();
      entry := Entry(Seconds(now) + config.ttl, cell);
      TrackUsage(key);
      cache := cache[key := entry];
    }

    /** The hit branch: the key becomes the last used one when there is a cap, and a filled cell counts as a hit. */
    method Reuse(key: string) returns (entry: Entry<OnceCell>)
      requires key in cache
      modifies this
      ensures entry == old(cache)[key]
      ensures var s := if config.size.Some? then CacheInner.TrackUsage(old(State()), key) else old(State());
              State() == s.(hits := s.hits + if entry.cell.value.Some? then 1 else 0)
    {
      entry := cache[key];
      if config.size.Some? {
        TrackUsage(key);
      }
      if entry.cell.value.Some? {
        hits := hits + 1;
      }
    }

    /** The first locked section: cleanup, lookup, and on a miss eviction and claim. */
    method Enter(key: string, now: real) returns (entry: Entry<OnceCell>, hit: bool)
      requires Valid()
      modifies this
      ensures Valid()
      ensures hit <==> key in old(cache) && Seconds(now) < old(cache)[key].expires
      ensures hit ==> entry == old(cache)[key] && old(allocated(entry.cell))
      ensures !hit ==> fresh(entry.cell) && entry.cell.value == None
      ensures key in cache && cache[key] == entry
      ensures !hit ==> entry.expires == Seconds(now) + config.ttl
      ensures State() == AfterEnter(config, old(State()), key, now, entry.cell, hit && entry.cell.value.Some?)
    {
      Cleanup(now);
      total := total + 1;
      CleanedIff(config, old(State()), now, key);
      if key in cache && cache[key].IsValid(Seconds(now)) {
        hit := true;
        entry := Reuse(key);
      } else {
        hit := false;
        entry := Claim(key, now);
      }
      ghost var after := AfterEnter(config, old(State()), key, now, entry.cell, hit && entry.cell.value.Some?);
      assert State() == after;
      EnterKeepsWellFormed(config, old(State()), key, now, entry.cell, hit && entry.cell.value.Some?);
    }

    /** The second locked section, run by every caller that got an error from `get_or_init`. */
    method Forget(key: string, cell: OnceCell)
      requires Valid()
      modifies this
      ensures Valid()
      ensures State() == AfterFailure(old(State()), key, cell)
      ensures key in cache ==> cache[key].cell != cell
    {
      FailureKeepsWellFormed(config, State(), key, cell);
      if key in cache && cache[key].cell == cell {
        cache := cache - {key};
        keys := RemoveKey(keys, key);
      }
    }

    /** An uninterrupted `get_result_at`; `produced` is what the caller's creator would return.  A result stored under
        `key` that has not expired is returned as stored; otherwise the creator runs, a success stays stored under `key`
        and a failure leaves nothing behind. */
    method GetResultAt(key: string, produced: Outcome, now: real) returns (result: Outcome)
      requires Valid()
      modifies this, set e <- cache.Values :: e.cell
      ensures Valid()
      ensures if old(key in cache && Seconds(now) < cache[key].expires && cache[key].cell.value.Some?)
              then result == old(cache[key].cell.value).value && unchanged(old(cache[key].cell))
              else result == produced &&
                   (result.Ok? ==> key in cache && cache[key].cell.value == Some(result)) &&
                   (result.Err? ==> key !in cache)
    {
      var entry, hit := Enter(key, now);
      assert hit ==> entry in old(cache).Values;
      if hit && entry.cell.value.Some? {
        return entry.cell.value.value;
      }
      if entry.cell.value == None {
        entry.cell.value := Some(produced);
      }
      result := entry.cell.value.value;
      if result.Err? {
        Forget(key, entry.cell);
      }
    }

    /** Hits over gets; never above one. */
    method GetRatio() returns (ratio: real)
      requires Valid()
      ensures 0.0 <= ratio <= 1.0
      ensures ratio * total as real == hits as real
    {
      if hits == 0 {
        ratio := 0.0;
      } else {
        ratio := hits as real / total as real;
      }
    }

    method Clear()
      modifies this
      ensures Valid() && State() == Initial()
    {
      cache, keys, total, hits, lastCleanup := map[], [], 0, 0, 0.0;
    }
  }
}
