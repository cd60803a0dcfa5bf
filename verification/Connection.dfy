/** `connection.rs`: the connection tracker and the pid cache. `now` is the reading of the monotone
    clock, in milliseconds, taken inside the operation's lock section. */
module Connection {
  import opened Common

  // --- ConnectionTracker ---

  datatype ConnectionInfo = ConnectionInfo(srcIp: u32, srcPort: u16, destIp: u32, destPort: u16, lastActivity: nat)

  type Connections = map<u16, ConnectionInfo>

  /** Keys repeat the source port stored in the entry. */
  ghost predicate KeyedByPort(c: Connections) {
    forall p :: p in c ==> c[p].srcPort == p
  }

  predicate Fresh(info: ConnectionInfo, now: nat) {
    Elapsed(info.lastActivity, now) < CONNECTION_TIMEOUT_MS
  }

  function Retained(c: Connections, now: nat): Connections {
    map p | p in c && Fresh(c[p], now) :: c[p]
  }

  function Destination(c: Connections, port: u16): Option<(u32, u16)> {
    if port in c then Some((c[port].destIp, c[port].destPort)) else None
  }

  /** The possible answers of `find_by_dest`: the map is walked in no particular order. */
  ghost predicate FoundByDest(c: Connections, ip: u32, port: u16, r: Option<u16>) {
    match r
    case Some(p) => exists k :: k in c && c[k].srcPort == p && c[k].destIp == ip && c[k].destPort == port
    case None => forall k :: k in c ==> !(c[k].destIp == ip && c[k].destPort == port)
  }

  class ConnectionTracker {
    var connections: Connections

    ghost predicate Valid()
      reads this
    {
      KeyedByPort(connections)
    }

    constructor ()
      ensures Valid() && connections == map[]
    {
      connections := map[];
    }

    method Add(srcPort: u16, srcIp: u32, destIp: u32, destPort: u16, now: nat)
      requires Valid()
      modifies this
      ensures Valid()
      ensures connections == old(connections)[srcPort := ConnectionInfo(srcIp, srcPort, destIp, destPort, now)]
    {
      connections := connections[srcPort := ConnectionInfo(srcIp, srcPort, destIp, destPort, now)];
    }

    method Get(srcPort: u16) returns (dest: Option<(u32, u16)>)
      ensures dest == Destination(connections, srcPort)
    {
      if srcPort in connections {
        var c := connections[srcPort];
        dest := Some((c.destIp, c.destPort));
      } else {
        dest := None;
      }
    }

    method IsTracked(srcPort: u16) returns (tracked: bool)
      ensures tracked == (srcPort in connections)
    {
      tracked := srcPort in connections;
    }

    method CleanupStale(now: nat)
      requires Valid()
      modifies this
      ensures Valid()
      ensures connections == Retained(old(connections), now)
    {
      var kept: Connections := map[];
      var todo := connections.Keys;
      while todo != {}
        invariant todo <= connections.Keys && connections == old(connections)
        invariant kept == map p | p in connections && p !in todo && Fresh(connections[p], now) :: connections[p]
      {
        var p :| p in todo;
        todo := todo - {p};
        if Elapsed(connections[p].lastActivity, now) < CONNECTION_TIMEOUT_MS {
          kept := kept[p := connections[p]];
        }
      }
      connections := kept;
    }

    method Clear()
      modifies this
      ensures Valid() && connections == map[]
    {
      connections := map[];
    }

    method FindByDest(destIp: u32, destPort: u16) returns (r: Option<u16>)
      ensures FoundByDest(connections, destIp, destPort, r)
    {
      var todo := connections.Keys;
      while todo != {}
        invariant todo <= connections.Keys
        invariant forall k :: k in connections && k !in todo ==>
          !(connections[k].destIp == destIp && connections[k].destPort == destPort)
      {
        var k :| k in todo;
        var info := connections[k];
        if info.destIp == destIp && info.destPort == destPort {
          return Some(info.srcPort);
        }
        todo := todo - {k};
      }
      r := None;
    }
  }

  /** Reverse lookup inverts forward lookup. */
  lemma FindThenGet(c: Connections, ip: u32, port: u16, r: Option<u16>)
    requires KeyedByPort(c) && FoundByDest(c, ip, port, r)
    ensures r.Some? <==> exists k :: k in c && Destination(c, k) == Some((ip, port))
    ensures r.Some? ==> Destination(c, r.value) == Some((ip, port))
  {
    if r.Some? {
      var k :| k in c && c[k].srcPort == r.value && c[k].destIp == ip && c[k].destPort == port;
      assert Destination(c, k) == Some((ip, port));
    }
  }

  /** If only one tracked port has the destination, every walk order finds that port. */
  lemma FindUnique(c: Connections, p: u16, r: Option<u16>)
    requires KeyedByPort(c) && p in c
    requires forall k :: k in c && k != p ==> Destination(c, k) != Destination(c, p)
    requires FoundByDest(c, c[p].destIp, c[p].destPort, r)
    ensures r == Some(p)
  {
    if r.Some? {
      var k :| k in c && c[k].srcPort == r.value && c[k].destIp == c[p].destIp && c[k].destPort == c[p].destPort;
      assert Destination(c, k) == Destination(c, p);
    }
  }

  // --- PidCache ---

  datatype PidCacheKey = PidCacheKey(srcIp: u32, srcPort: u16, isUdp: bool)
  datatype PidCacheEntry = PidCacheEntry(pid: u32, timestamp: nat)

  type PidEntries = map<PidCacheKey, PidCacheEntry>

  predicate Live(e: PidCacheEntry, now: nat) {
    Elapsed(e.timestamp, now) < PID_CACHE_TTL_MS
  }

  function Cached(c: PidEntries, key: PidCacheKey, now: nat): Option<u32> {
    if key in c && Live(c[key], now) then Some(c[key].pid) else None
  }

  function LiveOnly(c: PidEntries, now: nat): PidEntries {
    map k | k in c && Live(c[k], now) :: c[k]
  }

  class PidCache {
    var cache: PidEntries

    constructor ()
      ensures cache == map[]
    {
      cache := map[];
    }

    method Get(key: PidCacheKey, now: nat) returns (pid: Option<u32>)
      ensures pid == Cached(cache, key, now)
    {
      if key in cache {
        var entry := cache[key];
        pid := if Elapsed(entry.timestamp, now) < PID_CACHE_TTL_MS then Some(entry.pid) else None;
      } else {
        pid := None;
      }
    }

    method Put(key: PidCacheKey, pid: u32, now: nat)
      modifies this
      ensures cache == old(cache)[key := PidCacheEntry(pid, now)]
    {
      cache := cache[key := PidCacheEntry(pid, now)];
    }

    method Cleanup(now: nat)
      modifies this
      ensures cache == LiveOnly(old(cache), now)
    {
      var kept: PidEntries := map[];
      var todo := cache.Keys;
      while todo != {}
        invariant todo <= cache.Keys && cache == old(cache)
        invariant kept == map k | k in cache && k !in todo && Live(cache[k], now) :: cache[k]
      {
        var k :| k in todo;
        todo := todo - {k};
        if Elapsed(cache[k].timestamp, now) < PID_CACHE_TTL_MS {
          kept := kept[k := cache[k]];
        }
      }
      cache := kept;
    }

    method Clear()
      modifies this
      ensures cache == map[]
    {
      cache := map[];
    }
  }

  // --- Every sequence of cache operations ---

  datatype CacheOp =
    | Put(key: PidCacheKey, pid: u32)
    | Cleanup
    | Clear
    | Advance(ms: nat)

  datatype CacheState = CacheState(cache: PidEntries, now: nat)

  function Exec(ops: seq<CacheOp>, start: nat): CacheState {
    if ops == [] then CacheState(map[], start)
    else
      var s := Exec(ops[..|ops| - 1], start);
      match ops[|ops| - 1]
      case Put(key, pid) => s.(cache := s.cache[key := PidCacheEntry(pid, s.now)])
      case Cleanup => s.(cache := LiveOnly(s.cache, s.now))
      case Clear => s.(cache := map[])
      case Advance(ms) => s.(now := s.now + ms)
  }

  /** The most recent put for the key since the last clear, and how long ago it was. */
  function LatestPut(ops: seq<CacheOp>, key: PidCacheKey): Option<(u32, nat)> {
    if ops == [] then None
    else
      var earlier := LatestPut(ops[..|ops| - 1], key);
      match ops[|ops| - 1]
      case Put(k, pid) => if k == key then Some((pid, 0)) else earlier
      case Cleanup => earlier
      case Clear => None
      case Advance(ms) => if earlier.Some? then Some((earlier.value.0, earlier.value.1 + ms)) else None
  }

  function Specified(ops: seq<CacheOp>, key: PidCacheKey): Option<u32> {
    match LatestPut(ops, key)
    case Some(put) => if put.1 < 10_000 then Some(put.0) else None
    case None => None
  }

  lemma {:induction false} CacheTracksLatest(ops: seq<CacheOp>, start: nat, key: PidCacheKey)
    ensures var s := Exec(ops, start); var l := LatestPut(ops, key);
      && (key in s.cache ==> s.cache[key].timestamp <= s.now)
      && (key in s.cache ==> l == Some((s.cache[key].pid, s.now - s.cache[key].timestamp)))
      && (key !in s.cache && l.Some? ==> l.value.1 >= PID_CACHE_TTL_MS)
  {
    if ops == [] {
    } else {
      CacheTracksLatest(ops[..|ops| - 1], start, key);
    }
  }

  /** `get` returns the latest uncleared put if it is younger than the time to live, whatever happened before. */
  lemma CacheIsLatestPut(ops: seq<CacheOp>, start: nat, key: PidCacheKey)
    ensures Cached(Exec(ops, start).cache, key, Exec(ops, start).now) == Specified(ops, key)
  {
    CacheTracksLatest(ops, start, key);
  }

  function WithoutCleanup(ops: seq<CacheOp>): seq<CacheOp> {
    if ops == [] then []
    else WithoutCleanup(ops[..|ops| - 1]) + if ops[|ops| - 1] == Cleanup then [] else [ops[|ops| - 1]]
  }

  lemma {:induction false} LatestIgnoresCleanup(ops: seq<CacheOp>, key: PidCacheKey)
    ensures LatestPut(WithoutCleanup(ops), key) == LatestPut(ops, key)
  {
    if ops == [] {
    } else {
      var init, last := ops[..|ops| - 1], ops[|ops| - 1];
      LatestIgnoresCleanup(init, key);
      if last != Cleanup {
        var w := WithoutCleanup(ops);
        assert w[..|w| - 1] == WithoutCleanup(init) && w[|w| - 1] == last;
      } else {
        assert WithoutCleanup(ops) == WithoutCleanup(init);
      }
    }
  }

  lemma {:induction false} CleanupKeepsClock(ops: seq<CacheOp>, start: nat)
    ensures Exec(WithoutCleanup(ops), start).now == Exec(ops, start).now
  {
    if ops == [] {
    } else {
      var init, last := ops[..|ops| - 1], ops[|ops| - 1];
      CleanupKeepsClock(init, start);
      if last != Cleanup {
        var w := WithoutCleanup(ops);
        assert w[..|w| - 1] == WithoutCleanup(init) && w[|w| - 1] == last;
      } else {
        assert WithoutCleanup(ops) == WithoutCleanup(init);
      }
    }
  }

  /** Cleanup steps cannot be observed through `get`. */
  lemma CleanupIsUnobservable(ops: seq<CacheOp>, start: nat, key: PidCacheKey)
    ensures var s := Exec(ops, start); var t := Exec(WithoutCleanup(ops), start);
      s.now == t.now && Cached(s.cache, key, s.now) == Cached(t.cache, key, t.now)
  {
    CacheIsLatestPut(ops, start, key);
    CacheIsLatestPut(WithoutCleanup(ops), start, key);
    LatestIgnoresCleanup(ops, key);
    CleanupKeepsClock(ops, start);
  }
}
