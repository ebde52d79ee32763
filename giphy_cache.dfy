/**
 * The two-tier cache of src/api/giphy.ts as values: an in-memory map and the
 * session store, both keyed "gif:" + id, read with a ten-minute time-to-live.
 * The class `GiphyClient.CatalogClient` holds the two maps and writes them.
 */
module GiphyCache {
  import opened Wrappers
  import opened GiphyTypes

  /** Ten minutes, in milliseconds. */
  const TtlMs: int := 10 * 60 * 1000

  /** A cached record and the clock reading at which it was stored. */
  datatype CacheEntry = CacheEntry(value: Gif, ts: int)

  /** What the session store holds under a key: a stored entry, or text that does not parse as one. */
  datatype SessionItem = Stored(entry: CacheEntry) | Unparsable

  type Memory = map<string, CacheEntry>
  type Session = map<string, SessionItem>

  /** `cacheKey`. */
  function CacheKey(id: string): string {
    "gif:" + id
  }

  /** Distinct ids never share a cache slot. */
  lemma CacheKeyInjective(a: string, b: string)
    ensures CacheKey(a) == CacheKey(b) <==> a == b
  {
    if CacheKey(a) == CacheKey(b) {
      assert a == CacheKey(a)[4..] && b == CacheKey(b)[4..];
    }
  }

  /** An entry is live unless more than the TTL has passed since it was stored. */
  predicate Live(e: CacheEntry, now: int) {
    !(now - e.ts > TtlMs)
  }

  /** `getFromMemory`. */
  function FromMemory(memory: Memory, key: string, now: int): Option<Gif> {
    if key in memory && Live(memory[key], now) then Some(memory[key].value) else None
  }

  /** `getFromSession`: an absent, unparsable or stale item is a miss. */
  function FromSession(session: Session, key: string, now: int): Option<Gif> {
    if key in session && session[key].Stored? && Live(session[key].entry, now) then Some(session[key].entry.value) else None
  }

  /** `getFromMemory(key) ?? getFromSession(key)`. */
  function Lookup(memory: Memory, session: Session, key: string, now: int): Option<Gif> {
    match FromMemory(memory, key, now)
    case Some(g) => Some(g)
    case None => FromSession(session, key, now)
  }

  /**
   * A lookup hits exactly when the memory tier holds a live entry, whose
   * value it returns, or failing that the session tier holds a live one.
   */
  lemma LookupSpec(memory: Memory, session: Session, key: string, now: int, g: Gif)
    ensures Lookup(memory, session, key, now) == Some(g) <==>
      || (key in memory && Live(memory[key], now) && memory[key].value == g)
      || (!(key in memory && Live(memory[key], now))
          && key in session && session[key].Stored? && Live(session[key].entry, now) && session[key].entry.value == g)
  {
  }

  /** An entry written at time `ts` is still a hit at exactly `ts` + TTL, and a miss one millisecond later. */
  lemma TtlBoundary(memory: Memory, key: string, g: Gif, ts: int)
    ensures FromMemory(memory[key := CacheEntry(g, ts)], key, ts + TtlMs) == Some(g)
    ensures FromMemory(memory[key := CacheEntry(g, ts)], key, ts + TtlMs + 1) == None
  {
  }

  /** What was just written to the memory tier is read back, whatever the session tier holds, for the whole TTL. */
  lemma WrittenIsHit(memory: Memory, session: Session, key: string, g: Gif, ts: int, now: int)
    requires now - ts <= TtlMs
    ensures Lookup(memory[key := CacheEntry(g, ts)], session, key, now) == Some(g)
  {
  }

  /** With neither tier holding a live entry, the lookup misses; a stale memory entry falls through to the session tier. */
  lemma StaleIsMiss(memory: Memory, session: Session, key: string, now: int)
    requires key in memory ==> !Live(memory[key], now)
    ensures Lookup(memory, session, key, now) == FromSession(session, key, now)
    ensures (key in session && session[key].Stored? ==> !Live(session[key].entry, now)) ==>
      Lookup(memory, session, key, now).None?
  {
  }

  /** The entries `fetched.forEach(g => setCache(cacheKey(g.id), g))` writes: one per id, the last record with that id winning. */
  function Stamp(gifs: seq<Gif>, now: int): (m: Memory)
    ensures forall k :: k in m ==> exists i :: 0 <= i < |gifs| && k == CacheKey(gifs[i].id)
  {
    if gifs == [] then map[]
    else
      var g := gifs[|gifs| - 1];
      var front := gifs[..|gifs| - 1];
      var m := Stamp(front, now);
      assert forall i :: 0 <= i < |front| ==> front[i] == gifs[i];
      m[CacheKey(g.id) := CacheEntry(g, now)]
  }

  /**
   * Every written record is cached under its own id, stamped with the time of
   * writing, and each slot holds the last record written with that id.
   */
  lemma {:induction false} StampSpec(gifs: seq<Gif>, now: int, i: nat)
    requires i < |gifs|
    ensures CacheKey(gifs[i].id) in Stamp(gifs, now)
    ensures Stamp(gifs, now)[CacheKey(gifs[i].id)].ts == now
    ensures Stamp(gifs, now)[CacheKey(gifs[i].id)].value.id == gifs[i].id
    ensures (forall j :: i < j < |gifs| ==> gifs[j].id != gifs[i].id) ==>
      Stamp(gifs, now)[CacheKey(gifs[i].id)].value == gifs[i]
  {
    var n := |gifs| - 1;
    var g := gifs[n];
    var front := gifs[..n];
    if i < n {
      assert front[i] == gifs[i];
      StampSpec(front, now, i);
      CacheKeyInjective(g.id, gifs[i].id);
    }
  }

  /** Every memory entry sits under its own record's key, as `setCache(cacheKey(g.id), g)` puts it. */
  predicate MemoryConsistent(memory: Memory) {
    forall k :: k in memory ==> k == CacheKey(memory[k].value.id)
  }

  /** Every stored session entry sits under its own record's key. */
  predicate SessionConsistent(session: Session) {
    forall k :: k in session && session[k].Stored? ==> k == CacheKey(session[k].entry.value.id)
  }

  /** With both tiers consistent, a hit under an id's key is a record with that id. */
  lemma LookupId(memory: Memory, session: Session, x: string, now: int)
    requires MemoryConsistent(memory) && SessionConsistent(session)
    ensures Lookup(memory, session, CacheKey(x), now).Some? ==> Lookup(memory, session, CacheKey(x), now).value.id == x
  {
    var key := CacheKey(x);
    if key in memory {
      CacheKeyInjective(x, memory[key].value.id);
    }
    if key in session && session[key].Stored? {
      CacheKeyInjective(x, session[key].entry.value.id);
    }
  }

  /** Writing records under their own keys keeps the memory tier consistent. */
  lemma {:induction false} StampConsistent(memory: Memory, gifs: seq<Gif>, now: int)
    requires MemoryConsistent(memory)
    ensures MemoryConsistent(memory + Stamp(gifs, now))
  {
    if gifs != [] {
      var g := gifs[|gifs| - 1];
      var front := gifs[..|gifs| - 1];
      var written := Stamp(front, now);
      assert Stamp(gifs, now) == written[CacheKey(g.id) := CacheEntry(g, now)];
      StampConsistent(memory, front, now);
      UnionUpdate(memory, written, CacheKey(g.id), CacheEntry(g, now));
      ConsistentUpdate(memory + written, g, now);
    }
  }

  /** Caching one record under its own key keeps the memory tier consistent. */
  lemma ConsistentUpdate(memory: Memory, g: Gif, now: int)
    requires MemoryConsistent(memory)
    ensures MemoryConsistent(memory[CacheKey(g.id) := CacheEntry(g, now)])
  {
  }

  /**
   * `getGifById` writes under the requested id's key: a record with another id
   * breaks consistency, and the next lookup of the requested id returns it.
   */
  lemma MismatchedWrite(memory: Memory, session: Session, id: string, g: Gif, now: int)
    requires g.id != id
    ensures !MemoryConsistent(memory[CacheKey(id) := CacheEntry(g, now)])
    ensures Lookup(memory[CacheKey(id) := CacheEntry(g, now)], session, CacheKey(id), now) == Some(g)
  {
    var m := memory[CacheKey(id) := CacheEntry(g, now)];
    CacheKeyInjective(id, g.id);
    assert CacheKey(id) in m && CacheKey(id) != CacheKey(m[CacheKey(id)].value.id);
  }

  /** Writing one more record extends the written entries by that record's. */
  lemma StampSnoc(gifs: seq<Gif>, i: nat, now: int)
    requires i < |gifs|
    ensures Stamp(gifs[..i + 1], now) == Stamp(gifs[..i], now)[CacheKey(gifs[i].id) := CacheEntry(gifs[i], now)]
  {
    assert gifs[..i + 1][..i] == gifs[..i];
  }

  lemma UnionUpdate<V>(m: map<string, V>, s: map<string, V>, k: string, v: V)
    ensures (m + s)[k := v] == m + s[k := v]
  {
  }

  /** The session counterpart of a set of memory entries. */
  function ToSession(m: Memory): Session {
    map k | k in m :: Stored(m[k])
  }

  lemma ToSessionUpdate(ss: Session, m: Memory, k: string, e: CacheEntry)
    ensures (ss + ToSession(m))[k := Stored(e)] == ss + ToSession(m[k := e])
  {
  }
}
