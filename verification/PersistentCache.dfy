/**
 LRUPersistentCache: a versioned map in memory, kept in step with a store by one
 syncer that runs concurrently with the writers. Every section the code runs
 under the cache lock, and every access to the store, is one step; a run is any
 interleaving of the syncer's steps with those of the writers.

 The eviction order of the map is foreign: which entries a put evicts is chosen
 by the event. A failed write may leave anything in the store.
 */
module PersistentCache {

  type Key = string
  type Value = string
  type Entries = map<Key, Value>

  /** What the persistence layer would load. */
  datatype Disk = Readable(entries: Entries) | Unreadable

  /** Where the syncer is inside `syncNow` or its failure handling. */
  datatype Pc =
    | Idle
    | Checked                              // the versions differed
    | Holding(data: Entries, version: nat) // a snapshot was taken
    | Stored(version: nat)                 // `persist` succeeded, its version is not recorded yet
    | Failing                              // `syncNow` returned false
    | GivingUp(version: nat)               // nSyncRetries_ failures, the version to pretend is chosen

  datatype Cache = Cache(
    mem: Entries,
    version: nat,
    persisted: nat,        // persistedVersion_
    disk: Disk,
    pc: Pc,
    retries: int,          // nSyncRetries_
    failures: nat,         // nSyncFailures
    history: seq<Entries>, // the map at versions 1, 2, ...
    log: seq<bool>,        // the outcomes of all attempts on pending data
    gaveUp: bool,          // the syncer gave up and nothing was persisted since
    damaged: bool)         // a failed write changed the store and nothing was persisted since

  datatype Event =
    | Put(key: Key, val: Value, evicted: set<Key>)
    | Remove(key: Key)
    | Clear
    | Check
    | Snapshot(ok: bool)
    | Persist(ok: bool, after: Disk)
    | Confirm
    | CountFailure
    | ConfirmGiveUp

  predicate Possible(s: Cache, e: Event) {
    match e
    case Put(key, _, evicted) => key !in evicted && evicted <= s.mem.Keys
    case Remove(_) => true
    case Clear => true
    case Check => s.pc == Idle
    case Snapshot(_) => s.pc == Checked
    case Persist(_, _) => s.pc.Holding?
    case Confirm => s.pc.Stored?
    case CountFailure => s.pc == Failing
    case ConfirmGiveUp => s.pc.GivingUp?
  }

  /** A change of the map: the next version. */
  function Bump(s: Cache, mem: Entries): (s': Cache) {
    s.(mem := mem, version := s.version + 1, history := s.history + [mem])
  }

  /** `hasChangedSince(getLastPersistedVersion())` */
  predicate Pending(s: Cache) {
    s.version != s.persisted
  }

  function Apply(s: Cache, e: Event): (s': Cache)
    requires Possible(s, e)
  {
    match e
    case Put(key, val, evicted) => Bump(s, (s.mem - evicted)[key := val])
    case Remove(key) => if key in s.mem then Bump(s, s.mem - {key}) else s
    case Clear => if s.mem == map[] then s else Bump(s, map[])
    case Check => if Pending(s) then s.(pc := Checked) else s.(failures := 0)
    case Snapshot(ok) =>
      if ok then s.(pc := Holding(s.mem, s.version)) else s.(pc := Failing, log := s.log + [false])
    case Persist(ok, after) =>
      if ok then
        s.(disk := Readable(s.pc.data), pc := Stored(s.pc.version), log := s.log + [true],
           gaveUp := false, damaged := false)
      else
        s.(disk := after, pc := Failing, log := s.log + [false], damaged := s.damaged || after != s.disk)
    case Confirm => s.(persisted := s.pc.version, pc := Idle, failures := 0)
    case CountFailure =>
      s.(failures := s.failures + 1,
         pc := if s.failures + 1 == s.retries then GivingUp(s.version) else Idle)
    case ConfirmGiveUp => s.(persisted := s.pc.version, pc := Idle, failures := 0, gaveUp := true)
  }

  predicate IsRun(s: Cache, events: seq<Event>)
    decreases |events|
  {
    events == [] || (Possible(s, events[0]) && IsRun(Apply(s, events[0]), events[1..]))
  }

  function After(s: Cache, events: seq<Event>): (s': Cache)
    requires IsRun(s, events)
    decreases |events|
  {
    if events == [] then s else After(Apply(s, events[0]), events[1..])
  }

  // ---------------------------------------------------------------------------
  // Loading
  // ---------------------------------------------------------------------------

  predicate SubMap(a: Entries, b: Entries) {
    forall k | k in a :: k in b && b[k] == a[k]
  }

  /**
   `setPersistenceHelper(true)` after a load: `kept` is what conversion errors
   and the capacity left of the stored pairs. The version moves if a pair was
   set.
   */
  function Loaded(stored: Entries, kept: Entries, retries: int): (s: Cache) {
    var history := if kept == map[] then [map[]] else [map[], kept];
    Cache(kept, |history|, |history|, Readable(stored), Idle, retries, 0, history, [], false, false)
  }

  /** What `loadData` makes of a list of pairs that all convert and fit. */
  function FromPairs(pairs: seq<(Key, Value)>): (m: Entries) {
    if pairs == [] then map[]
    else
      var last := pairs[|pairs| - 1];
      FromPairs(pairs[..|pairs| - 1])[last.0 := last.1]
  }

  predicate Listed(pairs: seq<(Key, Value)>, k: Key) {
    exists i | 0 <= i < |pairs| :: pairs[i].0 == k
  }

  /** The pairs are a serialization of the map, in whatever order. */
  predicate Lists(pairs: seq<(Key, Value)>, m: Entries) {
    && (forall i | 0 <= i < |pairs| :: pairs[i].0 in m && m[pairs[i].0] == pairs[i].1)
    && (forall k | k in m :: Listed(pairs, k))
  }

  lemma {:induction false} FromPairsHas(pairs: seq<(Key, Value)>, m: Entries)
    requires forall i | 0 <= i < |pairs| :: pairs[i].0 in m && m[pairs[i].0] == pairs[i].1
    ensures SubMap(FromPairs(pairs), m)
    ensures forall i | 0 <= i < |pairs| :: pairs[i].0 in FromPairs(pairs)
  {
    if pairs != [] {
      FromPairsHas(pairs[..|pairs| - 1], m);
      forall i | 0 <= i < |pairs| - 1 ensures pairs[i].0 in FromPairs(pairs) {
        assert pairs[i] == pairs[..|pairs| - 1][i];
      }
    }
  }

  /** Loading what a snapshot serialized, in any order, gives the map back. */
  lemma LoadUndoesSnapshot(pairs: seq<(Key, Value)>, m: Entries)
    requires Lists(pairs, m)
    ensures FromPairs(pairs) == m
  {
    FromPairsHas(pairs, m);
    forall k | k in m ensures k in FromPairs(pairs) {
      assert Listed(pairs, k);
    }
  }

  /** Each key is stored once, as in what a snapshot serializes. */
  predicate Distinct(pairs: seq<(Key, Value)>) {
    forall i, j | 0 <= i < j < |pairs| :: pairs[i].0 != pairs[j].0
  }

  /** Which entry the eviction map lets go when it is over capacity after a key was set. */
  type Eviction = (Entries, Key) -> Key

  /** What is asked of it: never the key that was just set. */
  ghost predicate SparesNewest(evict: Eviction) {
    forall m: Entries, k | k in m && |m| > 1 :: evict(m, k) in m && evict(m, k) != k
  }

  /** `cache_.set` on a map of that capacity; zero means unbounded. */
  function SetEntry(m: Entries, k: Key, v: Value, capacity: nat, evict: Eviction): (m': Entries) {
    var more := m[k := v];
    if 0 < capacity < |more| then more - {evict(more, k)} else more
  }

  /** `loadData`: the first `good` pairs convert, and the loop ends at the next one. */
  function LoadPairs(pairs: seq<(Key, Value)>, good: nat, capacity: nat, evict: Eviction): (m: Entries)
    requires good <= |pairs|
  {
    if good == 0 then map[]
    else SetEntry(LoadPairs(pairs, good - 1, capacity, evict), pairs[good - 1].0, pairs[good - 1].1, capacity, evict)
  }

  function MapSize(pairs: seq<(Key, Value)>): (n: nat)
    ensures n <= |pairs|
    ensures Distinct(pairs) ==> n == |pairs|
  {
    FromPairsSize(pairs);
    |FromPairs(pairs)|
  }

  lemma ListedAppends(pairs: seq<(Key, Value)>, last: (Key, Value), k: Key)
    ensures Listed(pairs + [last], k) <==> Listed(pairs, k) || last.0 == k
  {
    var all := pairs + [last];
    assert all[|pairs|] == last;
    assert forall i | 0 <= i < |pairs| :: all[i] == pairs[i];
  }

  lemma {:induction false} FromPairsKeys(pairs: seq<(Key, Value)>, k: Key)
    ensures k in FromPairs(pairs) <==> Listed(pairs, k)
  {
    if pairs != [] {
      var rest, last := pairs[..|pairs| - 1], pairs[|pairs| - 1];
      FromPairsKeys(rest, k);
      ListedAppends(rest, last, k);
      assert pairs == rest + [last];
    }
  }

  lemma {:induction false} FromPairsSize(pairs: seq<(Key, Value)>)
    ensures |FromPairs(pairs)| <= |pairs|
    ensures Distinct(pairs) ==> |FromPairs(pairs)| == |pairs|
  {
    if pairs != [] {
      var rest, last := pairs[..|pairs| - 1], pairs[|pairs| - 1];
      FromPairsSize(rest);
      FromPairsKeys(rest, last.0);
      assert FromPairs(pairs).Keys == FromPairs(rest).Keys + {last.0};
    }
  }

  lemma {:induction false} FromPairsGrows(pairs: seq<(Key, Value)>, n: nat)
    requires n <= |pairs|
    ensures |FromPairs(pairs[..n])| <= |FromPairs(pairs)|
    decreases |pairs| - n
  {
    if n == |pairs| {
      assert pairs[..n] == pairs;
    } else {
      FromPairsGrows(pairs, n + 1);
      assert pairs[..n + 1][..n] == pairs[..n];
      var some, more := FromPairs(pairs[..n]), FromPairs(pairs[..n + 1]);
      assert more.Keys == some.Keys + {pairs[n].0};
      assert |some.Keys| <= |more.Keys|;
    }
  }

  /** What fits is loaded as it is. */
  lemma {:induction false} LoadKeepsWhatFits(pairs: seq<(Key, Value)>, good: nat, capacity: nat, evict: Eviction)
    requires good <= |pairs| && (capacity == 0 || |FromPairs(pairs)| <= capacity)
    ensures LoadPairs(pairs, good, capacity, evict) == FromPairs(pairs[..good])
  {
    if good > 0 {
      LoadKeepsWhatFits(pairs, good - 1, capacity, evict);
      assert pairs[..good][..good - 1] == pairs[..good - 1];
      FromPairsGrows(pairs, good);
    }
  }

  lemma NewestIsSpared(m: Entries, k: Key, evict: Eviction)
    requires SparesNewest(evict) && k in m && |m| > 1
    ensures evict(m, k) in m && evict(m, k) != k
  {
  }

  lemma SetIsBounded(m: Entries, k: Key, v: Value, capacity: nat, evict: Eviction)
    requires SparesNewest(evict) && (capacity > 0 ==> |m| <= capacity)
    ensures var m' := SetEntry(m, k, v, capacity, evict);
            && k in m' && (capacity > 0 ==> |m'| <= capacity)
            && m'.Keys <= m.Keys + {k}
  {
    hide SparesNewest;
    var more := m[k := v];
    assert more.Keys == m.Keys + {k};
    assert |more.Keys| <= |m.Keys| + 1;
    if 0 < capacity < |more| {
      NewestIsSpared(more, k, evict);
      var less := more - {evict(more, k)};
      assert less.Keys == more.Keys - {evict(more, k)};
      assert |less.Keys| == |more.Keys| - 1;
    }
  }

  /** The load never holds more than the capacity, nor a key it has not read. */
  lemma {:induction false} LoadIsBounded(pairs: seq<(Key, Value)>, good: nat, capacity: nat, evict: Eviction)
    requires good <= |pairs| && SparesNewest(evict)
    ensures var m := LoadPairs(pairs, good, capacity, evict);
            && (capacity > 0 ==> |m| <= capacity)
            && (forall k | k in m :: Listed(pairs[..good], k))
            && (good > 0 ==> m != map[])
  {
    hide SetEntry, Listed, SparesNewest;
    if good > 0 {
      LoadIsBounded(pairs, good - 1, capacity, evict);
      SetIsBounded(LoadPairs(pairs, good - 1, capacity, evict), pairs[good - 1].0, pairs[good - 1].1, capacity, evict);
      assert pairs[..good] == pairs[..good - 1] + [pairs[good - 1]];
      forall k | k in LoadPairs(pairs, good, capacity, evict) ensures Listed(pairs[..good], k) {
        ListedAppends(pairs[..good - 1], pairs[good - 1], k);
      }
    }
  }

  /** The same when `load` returned nothing: the map starts empty, and both versions stay at one. */
  function NotLoaded(disk: Disk, retries: int): (s: Cache) {
    Cache(map[], 1, 1, disk, Idle, retries, 0, [map[]], [], false, false)
  }

  /** How loading went: pairs were read and some kept, or nothing could be read. */
  datatype LoadOutcome = Pairs(stored: Entries, kept: Entries) | Nothing(disk: Disk)

  function AfterLoad(load: LoadOutcome, retries: int): (s: Cache) {
    match load
    case Pairs(stored, kept) => Loaded(stored, kept, retries)
    case Nothing(disk) => NotLoaded(disk, retries)
  }

  // ---------------------------------------------------------------------------
  // What every run keeps
  // ---------------------------------------------------------------------------

  /** The map as it was at version v. */
  predicate WasAt(s: Cache, data: Entries, v: nat) {
    1 <= v <= |s.history| && s.history[v - 1] == data
  }

  predicate VersionsAgree(s: Cache) {
    && 1 <= s.persisted <= s.version && WasAt(s, s.mem, s.version) && |s.history| == s.version
    && (s.pc != Idle ==> s.persisted < s.version)
    && (s.failures > 0 ==> s.persisted < s.version)
    && (s.pc.Holding? ==> WasAt(s, s.pc.data, s.pc.version))
    && (s.pc.Stored? || s.pc.GivingUp? ==> 1 <= s.pc.version <= s.version)
  }

  /** Unless the syncer gave up, the store is the map of the persisted version (or of the one being recorded). */
  predicate StoreAgrees(s: Cache) {
    && (s.pc.Stored? ==> s.disk.Readable? && WasAt(s, s.disk.entries, s.pc.version) && !s.gaveUp && !s.damaged)
    && (!s.gaveUp && !s.damaged && !s.pc.Stored? ==> s.disk.Readable? && WasAt(s, s.disk.entries, s.persisted))
    && (s.damaged && !s.gaveUp ==> s.persisted < s.version)
  }

  /** The last n attempts on pending data all failed. */
  predicate LastFailed(log: seq<bool>, n: int) {
    n <= |log| && forall i | |log| - n <= i < |log| && 0 <= i :: !log[i]
  }

  predicate RetriesCounted(s: Cache) {
    && (s.retries >= 1 ==> s.failures <= s.retries && (s.failures == s.retries <==> s.pc.GivingUp?))
    && (s.pc.GivingUp? ==> s.retries >= 1)
    && (!s.pc.Stored? ==> LastFailed(s.log, s.failures + if s.pc == Failing then 1 else 0))
    && (s.gaveUp ==> s.retries >= 1 && LastFailed(s.log, s.retries))
  }

  /** The bookkeeping of versions and failures, whatever the store holds. */
  predicate Counted(s: Cache) {
    VersionsAgree(s) && RetriesCounted(s)
  }

  predicate Inv(s: Cache) {
    Counted(s) && StoreAgrees(s)
  }

  lemma LoadIsCounted(stored: Entries, kept: Entries, retries: int)
    ensures Counted(Loaded(stored, kept, retries)) && !Pending(Loaded(stored, kept, retries))
    ensures Inv(Loaded(stored, kept, retries)) <==> kept == stored
  {
    var s := Loaded(stored, kept, retries);
    assert s.history[s.version - 1] == kept;
  }

  /**
   When a load puts cache and store in agreement: if every pair converts and the
   distinct keys fit the capacity, and for the distinct keys of a snapshot only
   then. Either way nothing is pending afterwards.
   */
  lemma LoadAgreesIff(pairs: seq<(Key, Value)>, good: nat, capacity: nat, evict: Eviction, retries: int)
    requires good <= |pairs| && SparesNewest(evict)
    ensures var s := Loaded(FromPairs(pairs), LoadPairs(pairs, good, capacity, evict), retries);
            var complete := good == |pairs| && (capacity == 0 || MapSize(pairs) <= capacity);
            && !Pending(s) && Counted(s)
            && (complete ==> Inv(s) && s.mem == FromPairs(pairs))
            && (Distinct(pairs) ==> (Inv(s) <==> complete))
  {
    hide Inv, Counted;
    var kept := LoadPairs(pairs, good, capacity, evict);
    LoadIsCounted(FromPairs(pairs), kept, retries);
    LoadIsBounded(pairs, good, capacity, evict);
    if capacity == 0 || MapSize(pairs) <= capacity {
      LoadKeepsWhatFits(pairs, good, capacity, evict);
      if good == |pairs| {
        assert pairs[..good] == pairs;
      } else if Distinct(pairs) {
        UnreadKeyIsMissing(pairs, good, kept);
      }
    }
  }

  lemma UnreadKeyIsMissing(pairs: seq<(Key, Value)>, good: nat, kept: Entries)
    requires good < |pairs| && Distinct(pairs) && forall k | k in kept :: Listed(pairs[..good], k)
    ensures kept != FromPairs(pairs)
  {
    var k := pairs[good].0;
    FromPairsKeys(pairs, k);
    assert Listed(pairs, k);
    assert !Listed(pairs[..good], k);
  }

  const TWO_PAIRS: seq<(Key, Value)> := [("a", "1"), ("b", "2")]

  /** A pair that does not convert: nothing is pending, and the store holds more. */
  lemma ConversionErrorLosesAPair(retries: int, evict: Eviction)
    ensures var s := Loaded(FromPairs(TWO_PAIRS), LoadPairs(TWO_PAIRS, 1, 0, evict), retries);
            !Pending(s) && s.mem == map["a" := "1"] && s.disk == Readable(map["a" := "1", "b" := "2"])
  {
    assert TWO_PAIRS[..1] == [("a", "1")] && TWO_PAIRS[..1][..0] == [];
    assert FromPairs(TWO_PAIRS[..1]) == map["a" := "1"];
    assert LoadPairs(TWO_PAIRS, 1, 0, evict) == map["a" := "1"];
  }

  /** A pair that does not fit: the same, whichever pair is let go. */
  lemma CapacityLosesAPair(retries: int, evict: Eviction)
    requires SparesNewest(evict)
    ensures var s := Loaded(FromPairs(TWO_PAIRS), LoadPairs(TWO_PAIRS, 2, 1, evict), retries);
            !Pending(s) && |s.mem| <= 1 && s.disk == Readable(map["a" := "1", "b" := "2"])
  {
    ConversionErrorLosesAPair(retries, evict);
    LoadIsBounded(TWO_PAIRS, 2, 1, evict);
  }

  /** After a failed load nothing is pending although the store differs from the map, unless it is readably empty. */
  lemma FailedLoadAgreesIff(disk: Disk, retries: int)
    ensures !Pending(NotLoaded(disk, retries)) && Counted(NotLoaded(disk, retries))
    ensures Inv(NotLoaded(disk, retries)) <==> disk == Readable(map[])
  {
    var s := NotLoaded(disk, retries);
    assert s.history[0] == map[];
  }

  lemma StepKeepsVersions(s: Cache, e: Event)
    requires VersionsAgree(s) && Possible(s, e)
    ensures VersionsAgree(Apply(s, e))
  {
  }

  lemma StepKeepsStore(s: Cache, e: Event)
    requires VersionsAgree(s) && StoreAgrees(s) && Possible(s, e)
    ensures StoreAgrees(Apply(s, e))
  {
  }

  lemma StepKeepsRetries(s: Cache, e: Event)
    requires VersionsAgree(s) && RetriesCounted(s) && Possible(s, e)
    ensures RetriesCounted(Apply(s, e))
  {
  }

  lemma StepKeepsInv(s: Cache, e: Event)
    requires Inv(s) && Possible(s, e)
    ensures Inv(Apply(s, e))
  {
    StepKeepsVersions(s, e);
    StepKeepsStore(s, e);
    StepKeepsRetries(s, e);
  }

  lemma {:induction false} RunKeepsInv(s: Cache, events: seq<Event>)
    requires Inv(s) && IsRun(s, events)
    ensures Inv(After(s, events))
    decreases |events|
  {
    hide Inv, Apply, Possible;
    if events != [] {
      StepKeepsInv(s, events[0]);
      RunKeepsInv(Apply(s, events[0]), events[1..]);
    }
  }

  /** The bookkeeping survives every run, also one that follows a failed or partial load. */
  lemma {:induction false} RunKeepsCounted(s: Cache, events: seq<Event>)
    requires Counted(s) && IsRun(s, events)
    ensures Counted(After(s, events))
    decreases |events|
  {
    hide Apply, Possible, VersionsAgree, RetriesCounted;
    if events != [] {
      StepKeepsVersions(s, events[0]);
      StepKeepsRetries(s, events[0]);
      RunKeepsCounted(Apply(s, events[0]), events[1..]);
    }
  }

  /**
   Cache and store agree in every interleaving that follows a complete load: the
   persisted version never exceeds the version in memory; unless the syncer gave
   up, an undamaged store is the map as it was at the persisted version, and
   equal versions mean that loading the store again restores this very map, at
   once in agreement.
   */
  lemma EveryRunAgrees(stored: Entries, retries: int, events: seq<Event>)
    requires IsRun(Loaded(stored, stored, retries), events)
    ensures var s := After(Loaded(stored, stored, retries), events);
            && s.persisted <= s.version
            && (!s.gaveUp && !s.damaged && !s.pc.Stored? ==>
                  s.disk.Readable? && WasAt(s, s.disk.entries, s.persisted))
            && (!s.gaveUp && !Pending(s) ==>
                  && s.disk == Readable(s.mem)
                  && Loaded(s.disk.entries, s.disk.entries, retries).mem == s.mem)
            && (s.gaveUp ==> retries >= 1 && LastFailed(s.log, retries))
  {
    var start := Loaded(stored, stored, retries);
    LoadIsCounted(stored, stored, retries);
    RunKeepsInv(start, events);
    RetriesAreFixed(start, events);
  }

  lemma {:induction false} RetriesAreFixed(s: Cache, events: seq<Event>)
    requires IsRun(s, events)
    ensures After(s, events).retries == s.retries
    decreases |events|
  {
    if events != [] {
      RetriesAreFixed(Apply(s, events[0]), events[1..]);
    }
  }

  /** Giving up is what breaks the agreement: equal versions, nothing pending, and an update the store never saw. */
  lemma GivingUpHidesAnUpdate(key: Key, val: Value)
    ensures var events := [Put(key, val, {}), Check, Snapshot(false), CountFailure, ConfirmGiveUp];
            && IsRun(Loaded(map[], map[], 1), events)
            && var s := After(Loaded(map[], map[], 1), events);
               s.gaveUp && !Pending(s) && s.disk == Readable(map[]) && s.mem == map[key := val]
  {
    var s0 := Loaded(map[], map[], 1);
    var e := [Put(key, val, {}), Check, Snapshot(false), CountFailure, ConfirmGiveUp];
    var s1 := Apply(s0, e[0]);
    var s2 := Apply(s1, e[1]);
    var s3 := Apply(s2, e[2]);
    var s4 := Apply(s3, e[3]);
    var s5 := Apply(s4, e[4]);
    assert e[4..][1..] == [] && e[3..][1..] == e[4..] && e[2..][1..] == e[3..];
    assert e[1..][1..] == e[2..] && e[0..][1..] == e[1..] && e[0..] == e;
    assert IsRun(s4, e[4..]) && After(s4, e[4..]) == s5;
    assert IsRun(s3, e[3..]) && After(s3, e[3..]) == s5;
    assert IsRun(s2, e[2..]) && After(s2, e[2..]) == s5;
    assert IsRun(s1, e[1..]) && After(s1, e[1..]) == s5;
    assert (map[] - {})[key := val] == map[key := val];
  }

  // ---------------------------------------------------------------------------
  // What a key holds
  // ---------------------------------------------------------------------------

  datatype Held = Missing | Holds(val: Value)

  function Lookup(m: Entries, k: Key): (h: Held) {
    if k in m then Holds(m[k]) else Missing
  }

  /** The event is about the key: it sets it, removes it, evicts it or clears the map. */
  predicate Touches(e: Event, k: Key) {
    match e
    case Put(key, _, evicted) => key == k || k in evicted
    case Remove(key) => key == k
    case Clear => true
    case _ => false
  }

  /** What an event that is about the key leaves of it. */
  function LeftOf(e: Event, k: Key): (h: Held) {
    if e.Put? && e.key == k then Holds(e.val) else Missing
  }

  lemma StepOnKey(s: Cache, e: Event, k: Key)
    requires Possible(s, e)
    ensures Lookup(Apply(s, e).mem, k) == if Touches(e, k) then LeftOf(e, k) else Lookup(s.mem, k)
  {
  }

  /** A key that no event of a run is about holds what it held. */
  lemma {:induction false} UntouchedKeyStays(s: Cache, events: seq<Event>, k: Key)
    requires IsRun(s, events) && forall i | 0 <= i < |events| :: !Touches(events[i], k)
    ensures Lookup(After(s, events).mem, k) == Lookup(s.mem, k)
    decreases |events|
  {
    hide Apply, Possible, Touches, Lookup;
    if events != [] {
      StepOnKey(s, events[0], k);
      UntouchedKeyStays(Apply(s, events[0]), events[1..], k);
    }
  }

  /**
   The latest event about a key decides, over every run and whatever the syncer
   does: after a put the key holds the value that was put, after a removal, an
   eviction or a clear it is missing.
   */
  lemma {:induction false} LatestTouchDecides(s: Cache, events: seq<Event>, at: nat, k: Key)
    requires IsRun(s, events) && at < |events| && Touches(events[at], k)
    requires forall i | at < i < |events| :: !Touches(events[i], k)
    ensures Lookup(After(s, events).mem, k) == LeftOf(events[at], k)
    decreases |events|
  {
    hide Apply, Possible, Touches, Lookup, LeftOf;
    var s' := Apply(s, events[0]);
    if at == 0 {
      StepOnKey(s, events[0], k);
      UntouchedKeyStays(s', events[1..], k);
    } else {
      assert forall i | at - 1 < i < |events| - 1 :: events[1..][i] == events[i + 1];
      LatestTouchDecides(s', events[1..], at - 1, k);
    }
  }

  /** The version moves with every put and otherwise exactly with the map, by one. */
  lemma VersionMovesIff(s: Cache, e: Event)
    requires Possible(s, e)
    ensures Apply(s, e).version == s.version + if e.Put? || Apply(s, e).mem != s.mem then 1 else 0
  {
  }

  // ---------------------------------------------------------------------------
  // The loop of `sync`
  // ---------------------------------------------------------------------------

  /** What one attempt on pending data meets. */
  datatype Attempt = SnapshotFails | PersistFails(after: Disk) | Succeeds

  /** One turn of the loop, with no writer in between. */
  function Turn(s: Cache, a: Attempt): (s': Cache)
    requires s.pc == Idle
    ensures s'.pc == Idle
  {
    if !Pending(s) then s.(failures := 0)
    else match a
      case Succeeds =>
        s.(disk := Readable(s.mem), persisted := s.version, failures := 0, log := s.log + [true],
           gaveUp := false, damaged := false)
      case SnapshotFails => Failed(s)
      case PersistFails(after) => Failed(s.(disk := after, damaged := s.damaged || after != s.disk))
  }

  function Failed(s: Cache): (s': Cache)
    ensures s'.pc == s.pc
  {
    var t := s.(log := s.log + [false], failures := s.failures + 1);
    if t.failures == s.retries then t.(persisted := s.version, failures := 0, gaveUp := true) else t
  }

  /** The steps of a turn. */
  function TurnSteps(s: Cache, a: Attempt): (events: seq<Event>) {
    if !Pending(s) then [Check]
    else match a
      case Succeeds => [Check, Snapshot(true), Persist(true, s.disk), Confirm]
      case SnapshotFails => [Check, Snapshot(false)] + FailureSteps(s)
      case PersistFails(after) => [Check, Snapshot(true), Persist(false, after)] + FailureSteps(s)
  }

  function FailureSteps(s: Cache): (events: seq<Event>) {
    if s.failures + 1 == s.retries then [CountFailure, ConfirmGiveUp] else [CountFailure]
  }

  lemma {:induction false} RunsCompose(s: Cache, first: seq<Event>, second: seq<Event>)
    requires IsRun(s, first) && IsRun(After(s, first), second)
    ensures IsRun(s, first + second) && After(s, first + second) == After(After(s, first), second)
    decreases |first|
  {
    hide Apply, Possible;
    if first == [] {
      assert first + second == second;
    } else {
      RunsCompose(Apply(s, first[0]), first[1..], second);
      assert (first + second)[1..] == first[1..] + second;
    }
  }

  lemma OneStep(s: Cache, e: Event)
    requires Possible(s, e)
    ensures IsRun(s, [e]) && After(s, [e]) == Apply(s, e)
  {
    assert [e][1..] == [];
    assert IsRun(Apply(s, e), []);
  }

  lemma TwoSteps(s: Cache, e: Event, f: Event)
    requires Possible(s, e) && Possible(Apply(s, e), f)
    ensures IsRun(s, [e, f]) && After(s, [e, f]) == Apply(Apply(s, e), f)
  {
    hide Apply, Possible;
    OneStep(s, e);
    OneStep(Apply(s, e), f);
    RunsCompose(s, [e], [f]);
    assert [e] + [f] == [e, f];
  }

  lemma FailureIsARun(s: Cache)
    requires s.pc == Failing
    ensures IsRun(s, FailureSteps(s))
    ensures After(s, FailureSteps(s)) ==
            if s.failures + 1 == s.retries
            then s.(persisted := s.version, failures := 0, gaveUp := true, pc := Idle)
            else s.(failures := s.failures + 1, pc := Idle)
  {
    if s.failures + 1 == s.retries {
      TwoSteps(s, CountFailure, ConfirmGiveUp);
    } else {
      OneStep(s, CountFailure);
    }
  }

  lemma SuccessIsARun(s: Cache)
    requires s.pc == Idle && Pending(s)
    ensures IsRun(s, TurnSteps(s, Succeeds)) && After(s, TurnSteps(s, Succeeds)) == Turn(s, Succeeds)
  {
    var take, write := [Check, Snapshot(true)], [Persist(true, s.disk), Confirm];
    TwoSteps(s, Check, Snapshot(true));
    var held := s.(pc := Holding(s.mem, s.version));
    assert Apply(Apply(s, Check), Snapshot(true)) == held;
    TwoSteps(held, Persist(true, s.disk), Confirm);
    RunsCompose(s, take, write);
    assert take + write == TurnSteps(s, Succeeds);
  }

  lemma SnapshotFailureIsARun(s: Cache)
    requires s.pc == Idle && Pending(s)
    ensures IsRun(s, TurnSteps(s, SnapshotFails)) && After(s, TurnSteps(s, SnapshotFails)) == Turn(s, SnapshotFails)
  {
    TwoSteps(s, Check, Snapshot(false));
    var failing := s.(pc := Failing, log := s.log + [false]);
    assert Apply(Apply(s, Check), Snapshot(false)) == failing;
    FailureIsARun(failing);
    RunsCompose(s, [Check, Snapshot(false)], FailureSteps(failing));
  }

  lemma PersistFailureIsARun(s: Cache, after: Disk)
    requires s.pc == Idle && Pending(s)
    ensures var a := PersistFails(after);
            IsRun(s, TurnSteps(s, a)) && After(s, TurnSteps(s, a)) == Turn(s, a)
  {
    var take, write := [Check, Snapshot(true)], [Persist(false, after)];
    TwoSteps(s, Check, Snapshot(true));
    var held := s.(pc := Holding(s.mem, s.version));
    assert Apply(Apply(s, Check), Snapshot(true)) == held;
    OneStep(held, write[0]);
    var failing := Apply(held, write[0]);
    FailureIsARun(failing);
    hide IsRun, After;
    RunsCompose(s, take, write);
    RunsCompose(s, take + write, FailureSteps(failing));
    assert take + write == [Check, Snapshot(true), Persist(false, after)];
  }

  /** A turn of the loop is a run of the protocol. */
  lemma TurnIsARun(s: Cache, a: Attempt)
    requires s.pc == Idle
    ensures IsRun(s, TurnSteps(s, a)) && After(s, TurnSteps(s, a)) == Turn(s, a)
  {
    if !Pending(s) {
      OneStep(s, Check);
    } else {
      hide IsRun, After, Turn, TurnSteps;
      match a
      case Succeeds => SuccessIsARun(s);
      case SnapshotFails => SnapshotFailureIsARun(s);
      case PersistFails(after) => PersistFailureIsARun(s, after);
    }
  }

  /** One successful attempt establishes the agreement from any state, a failed load and a given-up update included. */
  lemma SuccessRestoresAgreement(s: Cache)
    requires VersionsAgree(s) && s.pc == Idle && Pending(s)
    ensures var s' := Turn(s, Succeeds);
            VersionsAgree(s') && StoreAgrees(s') && !Pending(s') && s'.disk == Readable(s.mem)
  {
    assert s.history[s.version - 1] == s.mem;
  }

  lemma TurnKeepsCounted(s: Cache, a: Attempt)
    requires Counted(s) && s.pc == Idle
    ensures Counted(Turn(s, a))
  {
    hide Counted;
    TurnIsARun(s, a);
    RunKeepsCounted(s, TurnSteps(s, a));
  }

  /** The loop once the destructor has asked it to stop: it goes on while something is pending. */
  function Drain(s: Cache, attempts: seq<Attempt>): (s': Cache)
    requires s.pc == Idle
    ensures s'.pc == Idle
    decreases |attempts|
  {
    if !Pending(s) || attempts == [] then s else Drain(Turn(s, attempts[0]), attempts[1..])
  }

  predicate AllFail(attempts: seq<Attempt>) {
    forall i | 0 <= i < |attempts| :: attempts[i] != Succeeds
  }

  /**
   Shutdown terminates, whatever was loaded: with a retry configured and no
   writers left, the loop exits after at most the remaining retries. If something
   was pending, then on exit the store holds the map or the last nSyncRetries
   attempts all failed; if nothing was, no attempt is made, and the same holds
   where cache and store agreed.
   */
  lemma {:induction false} ShutdownTerminates(s: Cache, attempts: seq<Attempt>)
    requires Counted(s) && s.pc == Idle && s.retries >= 1
    requires |attempts| >= s.retries - s.failures
    ensures var s' := Drain(s, attempts);
            && !Pending(s') && s'.mem == s.mem && s'.version == s.version
            && |s'.log| - |s.log| <= s.retries - s.failures
            && (!Pending(s) ==> s' == s)
            && (Pending(s) || StoreAgrees(s) ==>
                  if s'.gaveUp then LastFailed(s'.log, s.retries) else s'.disk == Readable(s.mem))
    decreases |attempts|
  {
    if Pending(s) {
      hide Counted, Turn, LastFailed, StoreAgrees;
      TurnProgresses(s, attempts[0]);
      var t := Turn(s, attempts[0]);
      if Pending(t) {
        ShutdownTerminates(t, attempts[1..]);
      }
    } else {
      assert WasAt(s, s.mem, s.version);
    }
  }

  /** A turn on pending data ends the loop or uses up one retry. */
  lemma TurnProgresses(s: Cache, a: Attempt)
    requires Counted(s) && s.pc == Idle && s.retries >= 1 && Pending(s)
    ensures var t := Turn(s, a);
            && Counted(t) && t.mem == s.mem && t.version == s.version && t.retries == s.retries
            && |t.log| == |s.log| + 1 && s.failures < s.retries
            && (if Pending(t) then t.failures == s.failures + 1 < s.retries
                else if t.gaveUp then LastFailed(t.log, s.retries) else t.disk == Readable(s.mem))
            && (a == Succeeds <==> !Pending(t) && !t.gaveUp)
            && (t.disk == match a case Succeeds => Readable(s.mem) case SnapshotFails => s.disk case PersistFails(d) => d)
  {
    TurnKeepsCounted(s, a);
  }

  /**
   So every cache can be shut down: after any load, failed and partial ones
   included, and any run that leaves the syncer between two turns.
   */
  lemma EveryRunShutsDown(load: LoadOutcome, retries: nat, events: seq<Event>, attempts: seq<Attempt>)
    requires IsRun(AfterLoad(load, retries), events) && After(AfterLoad(load, retries), events).pc == Idle
    requires 1 <= retries <= |attempts|
    ensures var s := After(AfterLoad(load, retries), events);
            var s' := Drain(s, attempts);
            && !Pending(s') && |s'.log| <= |s.log| + retries
            && (Pending(s) ==> if s'.gaveUp then LastFailed(s'.log, retries) else s'.disk == Readable(s.mem))
  {
    hide Counted, IsRun, After, LastFailed, Drain;
    var start := AfterLoad(load, retries);
    match load {
      case Pairs(stored, kept) => LoadIsCounted(stored, kept, retries);
      case Nothing(disk) => FailedLoadAgreesIff(disk, retries);
    }
    RunKeepsCounted(start, events);
    RetriesAreFixed(start, events);
    ShutdownTerminates(After(start, events), attempts);
  }

  /** The exact bound when nothing succeeds: pending data is given up after the remaining retries, and only then. */
  lemma {:induction false} FailingLoopStopsIff(s: Cache, attempts: seq<Attempt>)
    requires Counted(s) && s.pc == Idle && Pending(s) && AllFail(attempts)
    ensures !Pending(Drain(s, attempts)) <==> s.retries >= 1 && |attempts| >= s.retries - s.failures
    decreases |attempts|
  {
    if attempts != [] {
      var t := Turn(s, attempts[0]);
      TurnKeepsCounted(s, attempts[0]);
      if Pending(t) {
        FailingLoopStopsIff(t, attempts[1..]);
      }
    }
  }
}
