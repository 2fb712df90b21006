/**
 The cache as an object: LRUInMemoryCache's map and version, CachePersistence's
 persisted version, and the syncer's loop. `View` gives the state of the
 protocol of the module PersistentCache; its history, its log and its two marks
 are kept as ghost fields.
 */
module LRUPersistentCacheObject {
  import opened PersistentCache

  datatype Option<T> = None | Some(value: T)

  class LRUPersistentCache {
    const retries: int

    var cache: Entries
    var version: nat
    var persistedVersion: nat
    var disk: Disk
    var failures: nat
    ghost var history: seq<Entries>
    ghost var log: seq<bool>
    ghost var gaveUp: bool
    ghost var damaged: bool

    ghost function View(): (s: Cache)
      reads this
      ensures s.pc == Idle
    {
      Cache(cache, version, persistedVersion, disk, Idle, retries, failures, history, log, gaveUp, damaged)
    }

    /**
     Construction and `setPersistenceHelper(true)`: `pairs` is what `load` returned,
     if anything, and the first `good` of them convert.
     */
    constructor (d: Disk, pairs: Option<seq<(Key, Value)>>, good: nat, capacity: nat, evict: Eviction,
                 nSyncRetries: int)
      requires pairs.Some? ==> d == Readable(FromPairs(pairs.value)) && good <= |pairs.value|
      requires SparesNewest(evict)
      ensures View() == AfterLoad(
                          if pairs.Some? then Pairs(FromPairs(pairs.value), LoadPairs(pairs.value, good, capacity, evict))
                          else Nothing(d),
                          nSyncRetries)
    {
      retries, disk, failures := nSyncRetries, d, 0;
      history, log, gaveUp, damaged := [map[]], [], false, false;
      cache, version, persistedVersion := map[], 1, 1;
      if pairs.Some? {
        var kept, updated: bool := map[], false;
        for i := 0 to good
          invariant kept == LoadPairs(pairs.value, i, capacity, evict) && updated == (i > 0)
        {
          kept := SetEntry(kept, pairs.value[i].0, pairs.value[i].1, capacity, evict);
          updated := true;
        }
        LoadIsBounded(pairs.value, good, capacity, evict);
        if updated {
          history := [map[], kept];
          cache, version, persistedVersion := kept, 2, 2;
        }
      }
    }

    /** The loops of `convertToKeyValuePairs` and `loadData`: a snapshot is loaded as the map it was taken of. */
    static method SaveAndLoad(m: Entries) returns (pairs: seq<(Key, Value)>, loaded: Entries)
      ensures Lists(pairs, m) && loaded == m
    {
      pairs := [];
      var left := m.Keys;
      while left != {}
        invariant left <= m.Keys
        invariant forall i | 0 <= i < |pairs| :: pairs[i].0 in m && m[pairs[i].0] == pairs[i].1
        invariant forall k | k in m && k !in left :: Listed(pairs, k)
        decreases |left|
      {
        var k :| k in left;
        ghost var before := pairs;
        pairs := pairs + [(k, m[k])];
        left := left - {k};
        forall x | x in m && x !in left ensures Listed(pairs, x) {
          if x == k {
            assert pairs[|before|].0 == k;
          } else {
            assert Listed(before, x);
            assert forall i | 0 <= i < |before| :: pairs[i] == before[i];
          }
        }
      }
      loaded := map[];
      for i := 0 to |pairs|
        invariant loaded == FromPairs(pairs[..i])
      {
        assert pairs[..i + 1][..i] == pairs[..i];
        loaded := loaded[pairs[i].0 := pairs[i].1];
      }
      assert pairs[..|pairs|] == pairs;
      LoadUndoesSnapshot(pairs, m);
    }

    ghost method Record()
      modifies `history
      ensures history == old(history) + [cache]
    {
      history := history + [cache];
    }

    method Get(key: Key) returns (r: Option<Value>)
      ensures r == if key in cache then Some(cache[key]) else None
    {
      if key in cache {
        return Some(cache[key]);
      }
      return None;
    }

    method Put(key: Key, val: Value, evicted: set<Key>)
      requires key !in evicted && evicted <= cache.Keys
      modifies `cache, `version, `history
      ensures View() == Apply(old(View()), PersistentCache.Put(key, val, evicted))
    {
      cache := (cache - evicted)[key := val];
      version := version + 1;
      Record();
    }

    method Remove(key: Key) returns (erased: bool)
      modifies `cache, `version, `history
      ensures erased <==> key in old(cache)
      ensures View() == Apply(old(View()), PersistentCache.Remove(key))
    {
      erased := key in cache;
      if erased {
        cache := cache - {key};
        version := version + 1;
        Record();
      }
    }

    method Clear()
      modifies `cache, `version, `history
      ensures View() == Apply(old(View()), PersistentCache.Clear)
    {
      if cache == map[] {
        return;
      }
      cache := map[];
      version := version + 1;
      Record();
    }

    method HasPendingUpdates() returns (r: bool)
      ensures r <==> Pending(View())
    {
      r := version != persistedVersion;
    }

    /** `syncNow`, with the outcome of its snapshot and its write given. */
    method SyncNow(a: Attempt) returns (ok: bool)
      modifies `disk, `persistedVersion, `log, `gaveUp, `damaged
      ensures ok <==> !old(Pending(View())) || a == Succeeds
      ensures if ok then View().(failures := 0) == Turn(old(View()), a)
              else View() == old(View()).(disk := if a.PersistFails? then a.after else old(disk),
                                          damaged := old(damaged) || (a.PersistFails? && a.after != old(disk)),
                                          log := old(log) + [false])
    {
      if version == persistedVersion {
        return true;
      }
      match a
      case SnapshotFails =>
        log := log + [false];
        ok := false;
      case PersistFails(after) =>
        damaged := damaged || after != disk;
        disk := after;
        log := log + [false];
        ok := false;
      case Succeeds =>
        disk := Readable(cache);
        persistedVersion := version;
        log, gaveUp, damaged := log + [true], false, false;
        ok := true;
    }

    /** One turn of `sync`, which is also `oneShotSync` after its load. */
    method SyncTurn(a: Attempt)
      modifies `disk, `persistedVersion, `failures, `log, `gaveUp, `damaged
      ensures View() == Turn(old(View()), a)
    {
      var ok := SyncNow(a);
      if !ok {
        failures := failures + 1;
        if failures == retries {
          persistedVersion := version;
          failures := 0;
          gaveUp := true;
        }
      } else {
        failures := 0;
      }
    }

    /**
     The loop of `sync` once stop is set. With no more writers it exits within
     the remaining retries, and the attempts beyond its exit are not made.
     */
    method SyncUntilDone(attempts: seq<Attempt>)
      requires Counted(View()) && retries >= 1 && |attempts| >= retries - failures
      modifies `disk, `persistedVersion, `failures, `log, `gaveUp, `damaged
      ensures View() == Drain(old(View()), attempts)
      ensures !Pending(View()) && (gaveUp ==> LastFailed(log, retries))
      ensures old(Pending(View()) || StoreAgrees(View())) && !gaveUp ==> disk == Readable(cache)
    {
      hide Turn, LastFailed, StoreAgrees;
      ShutdownTerminates(View(), attempts);
      ghost var goal := Drain(View(), attempts);
      var i := 0;
      while version != persistedVersion
        invariant 0 <= i <= |attempts|
        invariant Drain(View(), attempts[i..]) == goal
        decreases |attempts| - i
      {
        assert attempts[i..] != [];
        assert attempts[i..][0] == attempts[i] && attempts[i..][1..] == attempts[i + 1..];
        SyncTurn(attempts[i]);
        i := i + 1;
      }
    }
  }
}
