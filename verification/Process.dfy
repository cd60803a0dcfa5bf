/** `process.rs`: the memoised pid lookup. What the kernel and `/proc` answer is a parameter. */
module Process {
  import opened Common
  import opened Connection

  /** Answers of the two resolvers at the moment of the call. */
  datatype Answer = Answer(netlink: Option<u32>, procNetUdp: Option<u32>)

  function Resolved(answer: Answer, isUdp: bool): u32 {
    match answer.netlink
    case Some(pid) => pid
    case None => if isUdp && answer.procNetUdp.Some? then answer.procNetUdp.value else 0
  }

  function LookupPid(cache: PidEntries, key: PidCacheKey, now: nat, answer: Answer): u32 {
    match Cached(cache, key, now)
    case Some(pid) => pid
    case None => Resolved(answer, key.isUdp)
  }

  /** The cache afterwards; `later` is the clock when the answer is stored. */
  function Remembered(cache: PidEntries, key: PidCacheKey, now: nat, later: nat, answer: Answer): PidEntries {
    if Cached(cache, key, now).None? && Resolved(answer, key.isUdp) != 0
    then cache[key := PidCacheEntry(Resolved(answer, key.isUdp), later)]
    else cache
  }

  method GetPidFromConnection(cache: PidCache, key: PidCacheKey, now: nat, later: nat, answer: Answer)
    returns (pid: u32)
    modifies cache
    ensures pid == LookupPid(old(cache.cache), key, now, answer)
    ensures cache.cache == Remembered(old(cache.cache), key, now, later, answer)
  {
    var hit := cache.Get(key, now);
    if hit.Some? { return hit.value; }
    match answer.netlink {
      case Some(p) => pid := p;
      case None =>
        if key.isUdp {
          pid := if answer.procNetUdp.Some? then answer.procNetUdp.value else 0;
        } else {
          pid := 0;
        }
    }
    if pid != 0 { cache.Put(key, pid, later); }
  }

  /** A live cache entry answers; otherwise netlink does, and if it knows nothing, `/proc` does for UDP only.
      Zero stands for no answer and is not stored, every other answer is stored with the time of storing. */
  lemma LookupExactly(cache: PidEntries, key: PidCacheKey, now: nat, later: nat, answer: Answer, pid: u32)
    requires pid != 0
    ensures LookupPid(cache, key, now, answer) == pid <==>
      if key in cache && Elapsed(cache[key].timestamp, now) < 10_000 then cache[key].pid == pid
      else answer.netlink == Some(pid) || (answer.netlink == None && key.isUdp && answer.procNetUdp == Some(pid))
    ensures var stored := Remembered(cache, key, now, later, answer);
      if key in cache && Elapsed(cache[key].timestamp, now) < 10_000 then stored == cache
      else
        && (LookupPid(cache, key, now, answer) == pid ==> stored == cache[key := PidCacheEntry(pid, later)])
        && (LookupPid(cache, key, now, answer) == 0 ==> stored == cache)
  {
  }

  // --- Every sequence of lookups ---

  datatype Op =
    | Lookup(key: PidCacheKey, answer: Answer, delay: nat)
    | Cleanup
    | Clear
    | Advance(ms: nat)

  /** One consultation of the resolvers: what they said, and when the answer was stored. */
  datatype Consulted = Consulted(key: PidCacheKey, pid: u32, at: nat)

  datatype State = State(cache: PidEntries, now: nat, consulted: seq<Consulted>)

  function Apply(s: State, op: Op): State {
    match op
    case Lookup(key, answer, delay) =>
      State(Remembered(s.cache, key, s.now, s.now + delay, answer), s.now + delay,
        if Cached(s.cache, key, s.now).None?
        then s.consulted + [Consulted(key, Resolved(answer, key.isUdp), s.now + delay)] else s.consulted)
    case Cleanup => s.(cache := LiveOnly(s.cache, s.now))
    case Clear => s.(cache := map[])
    case Advance(ms) => s.(now := s.now + ms)
  }

  function Exec(ops: seq<Op>, start: nat): State {
    if ops == [] then State(map[], start, []) else Apply(Exec(ops[..|ops| - 1], start), ops[|ops| - 1])
  }

  /** Zero is never cached, and every entry repeats an answer the resolvers gave at its time stamp. */
  ghost predicate Grounded(s: State) {
    && (forall k :: k in s.cache ==> s.cache[k].pid != 0 && s.cache[k].timestamp <= s.now)
    && (forall k :: k in s.cache ==> Consulted(k, s.cache[k].pid, s.cache[k].timestamp) in s.consulted)
  }

  lemma {:induction false} CacheIsGrounded(ops: seq<Op>, start: nat)
    ensures Grounded(Exec(ops, start))
  {
    if ops == [] {
    } else {
      CacheIsGrounded(ops[..|ops| - 1], start);
      var s, t := Exec(ops[..|ops| - 1], start), Exec(ops, start);
      forall k | k in t.cache ensures t.cache[k].pid != 0 && t.cache[k].timestamp <= t.now
        ensures Consulted(k, t.cache[k].pid, t.cache[k].timestamp) in t.consulted
      {
        if k in s.cache && s.cache[k] == t.cache[k] {
          assert Consulted(k, s.cache[k].pid, s.cache[k].timestamp) in s.consulted;
        } else {
          assert t.consulted[|t.consulted| - 1] == Consulted(k, t.cache[k].pid, t.cache[k].timestamp);
        }
      }
    }
  }

  /** A lookup after any history returns the present answer of the resolvers, or one they gave
      for the same connection less than ten seconds ago. */
  lemma LookupIsFreshOrRecent(ops: seq<Op>, start: nat, key: PidCacheKey, answer: Answer)
    ensures var s := Exec(ops, start); var pid := LookupPid(s.cache, key, s.now, answer);
      || (pid == Resolved(answer, key.isUdp) && Cached(s.cache, key, s.now).None?)
      || (pid != 0 && exists c :: c in s.consulted && c.key == key && c.pid == pid
                                  && c.at <= s.now < c.at + 10_000)
  {
    CacheIsGrounded(ops, start);
    var s := Exec(ops, start);
    if Cached(s.cache, key, s.now).Some? {
      assert Consulted(key, s.cache[key].pid, s.cache[key].timestamp) in s.consulted;
    }
  }
}
