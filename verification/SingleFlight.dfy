/** The recommendation cache: one lock per cache key, kept in a table only while it is in use, around an
    expiring cache, so that concurrent requests for one key share one fetch. */
module SingleFlight {
  import opened Basics

  type Key = string
  type Thread = nat

  // ----- the cache -----

  datatype Slot = Slot(expires: int, values: string)

  /** What is left at a given time. */
  function Unexpired(cache: map<Key, Slot>, now: int): map<Key, Slot> {
    map k | k in cache && now < cache[k].expires :: cache[k]
  }

  class AiCache {
    var slots: map<Key, Slot>
    const ttl: int

    constructor (ttl: int)
      ensures slots == map[] && this.ttl == ttl
    {
      slots, this.ttl := map[], ttl;
    }

    /** The eviction loop, over the keys present when it starts. */
    method Evict(now: int)
      modifies this
      ensures slots == Unexpired(old(slots), now)
    {
      var todo := slots.Keys;
      while todo != {}
        invariant todo <= slots.Keys <= old(slots).Keys
        invariant forall k | k in slots :: slots[k] == old(slots)[k]
        invariant forall k | k in old(slots) && k !in todo :: k in slots <==> now < old(slots)[k].expires
        decreases |todo|
      {
        var key :| key in todo;
        todo := todo - {key};
        if slots[key].expires <= now {
          slots := slots - {key};
        }
      }
    }

    /** `_cache_get`, with the time it read before it took the cache lock. */
    method Get(key: Key, now: int) returns (values: Option<string>)
      modifies this
      ensures slots == Unexpired(old(slots), now)
      ensures values == if key in slots then Some(slots[key].values) else None
    {
      Evict(now);
      values := if key in slots then Some(slots[key].values) else None;
    }

    /** `_cache_set`, with the time it reads while it holds the cache lock. */
    method Set(key: Key, values: string, now: int)
      modifies this
      ensures slots == Unexpired(old(slots), now)[key := Slot(now + ttl, values)]
    {
      Evict(now);
      slots := slots[key := Slot(now + ttl, values)];
    }
  }

  // ----- the lock table -----

  datatype Entry = Entry(users: nat, holder: Option<Thread>)

  /** Entries are objects: they have an identity, and may outlive their place in the table. */
  datatype Locks = Locks(table: map<Key, nat>, entries: map<nat, Entry>, next: nat)

  predicate LocksOk(l: Locks) {
    && (forall k | k in l.table :: l.table[k] in l.entries)
    && (forall e | e in l.entries :: e < l.next)
  }

  /** The first guarded section of `_ai_key_lock`. */
  function EnterLocks(l: Locks, key: Key): (Locks, nat) {
    if key in l.table && l.table[key] in l.entries then
      var e := l.table[key];
      (l.(entries := l.entries[e := l.entries[e].(users := l.entries[e].users + 1)]), e)
    else
      (Locks(l.table[key := l.next], l.entries[l.next := Entry(1, None)], l.next + 1), l.next)
  }

  /** The second one. */
  function LeaveLocks(l: Locks, key: Key, e: nat): Locks
    requires e in l.entries && l.entries[e].users > 0
  {
    var users := l.entries[e].users - 1;
    var left := l.(entries := l.entries[e := l.entries[e].(users := users)]);
    if users == 0 && key in l.table && l.table[key] == e then left.(table := l.table - {key}) else left
  }

  class KeyLocks {
    var table: map<Key, nat>
    var entries: map<nat, Entry>
    var next: nat

    ghost function View(): Locks
      reads this
    {
      Locks(table, entries, next)
    }

    constructor ()
      ensures View() == Locks(map[], map[], 0)
    {
      table, entries, next := map[], map[], 0;
    }

    method Enter(key: Key) returns (entry: nat)
      requires LocksOk(View())
      modifies this
      ensures View() == EnterLocks(old(View()), key).0 && entry == EnterLocks(old(View()), key).1
    {
      if key !in table {
        entry := next;
        next := next + 1;
        entries := entries[entry := Entry(0, None)];
        table := table[key := entry];
      } else {
        entry := table[key];
      }
      entries := entries[entry := entries[entry].(users := entries[entry].users + 1)];
    }

    method Leave(key: Key, entry: nat)
      requires entry in entries && entries[entry].users > 0
      modifies this
      ensures View() == LeaveLocks(old(View()), key, entry)
    {
      entries := entries[entry := entries[entry].(users := entries[entry].users - 1)];
      if entries[entry].users == 0 && key in table && table[key] == entry {
        table := table - {key};
      }
    }
  }

  // ----- threads -----

  /** Where a thread is between entering and leaving: waiting for the lock; holding it, having read the
      clock, fetching, finished; or having released it. */
  datatype Stage =
    | Waiting
    | Locked
    | Looking(now: int)
    | Fetching
    | Finished(result: Option<string>)
    | Released

  datatype Request = Request(key: Key, entry: nat, refresh: bool, stage: Stage)

  predicate Inside(s: Stage) {
    !s.Waiting? && !s.Released?
  }

  /** A valid fetch, as it was stored. */
  datatype Stored = Stored(key: Key, time: int, values: string, refresh: bool)

  datatype World = World(clock: int, locks: Locks, cache: map<Key, Slot>, threads: map<Thread, Request>, log: seq<Stored>)

  datatype Action =
    | Enter(thread: Thread, key: Key, refresh: bool)
    | Acquire(thread: Thread)
    | ReadClock(thread: Thread)
    | LookUp(thread: Thread)
    | StoreFetched(thread: Thread, values: string)
    | GiveUp(thread: Thread)
    | Release(thread: Thread)
    | Leave(thread: Thread)
    | Tick(seconds: nat)

  function At(threads: map<Thread, Request>, t: Thread, s: Stage): map<Thread, Request>
    requires t in threads
  {
    threads[t := threads[t].(stage := s)]
  }

  function Held(l: Locks, e: nat, holder: Option<Thread>): Locks
    requires e in l.entries
  {
    l.(entries := l.entries[e := l.entries[e].(holder := holder)])
  }

  /** One step; a step that is not enabled changes nothing. */
  function Do(ttl: int, w: World, a: Action): World {
    match a
    case Tick(seconds) => w.(clock := w.clock + seconds)
    case Enter(t, key, refresh) =>
      if t in w.threads then w
      else
        var (locks, entry) := EnterLocks(w.locks, key);
        w.(locks := locks, threads := w.threads[t := Request(key, entry, refresh, Waiting)])
    case _ =>
      if a.thread in w.threads && w.threads[a.thread].entry in w.locks.entries then Step(ttl, w, a, w.threads[a.thread])
      else w
  }

  function Step(ttl: int, w: World, a: Action, r: Request): World
    requires !a.Tick? && !a.Enter?
    requires a.thread in w.threads && r == w.threads[a.thread] && r.entry in w.locks.entries
  {
    match a
    case Acquire(t) =>
      if r.stage.Waiting? && w.locks.entries[r.entry].holder.None?
      then w.(locks := Held(w.locks, r.entry, Some(t)), threads := At(w.threads, t, Locked)) else w
    case ReadClock(t) =>
      if r.stage.Locked? then w.(threads := At(w.threads, t, if r.refresh then Fetching else Looking(w.clock))) else w
    case LookUp(t) =>
      if r.stage.Looking? then
        var cache := Unexpired(w.cache, r.stage.now);
        w.(cache := cache,
           threads := At(w.threads, t, if r.key in cache then Finished(Some(cache[r.key].values)) else Fetching))
      else w
    case StoreFetched(t, values) =>
      if r.stage.Fetching? then
        w.(cache := Unexpired(w.cache, w.clock)[r.key := Slot(w.clock + ttl, values)],
           log := w.log + [Stored(r.key, w.clock, values, r.refresh)],
           threads := At(w.threads, t, Finished(Some(values))))
      else w
    case GiveUp(t) =>
      if Inside(r.stage) && !r.stage.Finished? then w.(threads := At(w.threads, t, Finished(None))) else w
    case Release(t) =>
      if r.stage.Finished?
      then w.(locks := Held(w.locks, r.entry, None), threads := At(w.threads, t, Released)) else w
    case Leave(t) =>
      if r.stage.Released? && w.locks.entries[r.entry].users > 0
      then w.(locks := LeaveLocks(w.locks, r.key, r.entry), threads := w.threads - {t}) else w
  }

  function Last(log: seq<Stored>, key: Key): Option<Stored>
    decreases |log|
  {
    if log == [] then None
    else if log[|log| - 1].key == key then Some(log[|log| - 1])
    else Last(log[..|log| - 1], key)
  }

  // ----- what every run keeps -----

  function UsersOf(threads: map<Thread, Request>, e: nat): set<Thread> {
    set t | t in threads && threads[t].entry == e
  }

  /** All the threads that use a key share its entry, and hold it one at a time. */
  ghost predicate Sharing(l: Locks, threads: map<Thread, Request>) {
    && LocksOk(l)
    && (forall t | t in threads :: threads[t].key in l.table && l.table[threads[t].key] == threads[t].entry)
    && (forall t | t in threads :: Inside(threads[t].stage) <==> l.entries[threads[t].entry].holder == Some(t))
    && (forall e | e in l.entries && l.entries[e].holder.Some? ::
          l.entries[e].holder.value in threads && threads[l.entries[e].holder.value].entry == e)
    && (forall k, k' | k in l.table && k' in l.table && l.table[k] == l.table[k'] :: k == k')
  }

  /** The user count of an entry in the table is the number of threads that use it, and is not zero. */
  ghost predicate Counted(l: Locks, threads: map<Thread, Request>) {
    forall k | k in l.table ::
      l.table[k] in l.entries && l.entries[l.table[k]].users == |UsersOf(threads, l.table[k])| > 0
  }

  /** The cache holds the latest fetch of a key until it expires. */
  predicate CachedOk(ttl: int, clock: int, cache: map<Key, Slot>, log: seq<Stored>, key: Key) {
    match Last(log, key)
    case None => key !in cache
    case Some(s) =>
      && s.time <= clock
      && (if key in cache then cache[key] == Slot(s.time + ttl, s.values) else s.time + ttl <= clock)
  }

  ghost predicate CacheOk(ttl: int, clock: int, cache: map<Key, Slot>, log: seq<Stored>) {
    forall k: Key :: CachedOk(ttl, clock, cache, log, k)
  }

  predicate ThreadOk(ttl: int, clock: int, log: seq<Stored>, r: Request) {
    && (r.stage.Looking? ==> r.stage.now <= clock)
    && (r.stage.Fetching? && !r.refresh ==> Last(log, r.key).Some? ==> Last(log, r.key).value.time + ttl <= clock)
  }

  ghost predicate ThreadsOk(ttl: int, clock: int, log: seq<Stored>, threads: map<Thread, Request>) {
    forall t | t in threads :: ThreadOk(ttl, clock, log, threads[t])
  }

  ghost predicate Spaced(ttl: int, log: seq<Stored>) {
    forall i, j | 0 <= i < j < |log| && log[i].key == log[j].key ::
      log[i].time <= log[j].time && (!log[j].refresh ==> log[i].time + ttl <= log[j].time)
  }

  ghost predicate Invariant(ttl: int, w: World) {
    && Sharing(w.locks, w.threads) && Counted(w.locks, w.threads)
    && CacheOk(ttl, w.clock, w.cache, w.log)
    && ThreadsOk(ttl, w.clock, w.log, w.threads)
    && Spaced(ttl, w.log)
  }

  // The lock table.

  lemma UsersEnter(threads: map<Thread, Request>, t: Thread, r: Request, e: nat)
    requires t !in threads
    ensures |UsersOf(threads[t := r], e)| == |UsersOf(threads, e)| + if r.entry == e then 1 else 0
  {
    if r.entry == e {
      assert UsersOf(threads[t := r], e) == UsersOf(threads, e) + {t};
    } else {
      assert UsersOf(threads[t := r], e) == UsersOf(threads, e);
    }
  }

  lemma UsersLeave(threads: map<Thread, Request>, t: Thread, e: nat)
    requires t in threads
    ensures |UsersOf(threads - {t}, e)| == |UsersOf(threads, e)| - if threads[t].entry == e then 1 else 0
  {
    if threads[t].entry == e {
      assert UsersOf(threads, e) == UsersOf(threads - {t}, e) + {t};
    } else {
      assert UsersOf(threads - {t}, e) == UsersOf(threads, e);
    }
  }

  lemma UsersStay(threads: map<Thread, Request>, t: Thread, s: Stage, e: nat)
    requires t in threads
    ensures UsersOf(threads[t := threads[t].(stage := s)], e) == UsersOf(threads, e)
  {
  }

  lemma NotYetUsed(l: Locks, threads: map<Thread, Request>)
    requires Sharing(l, threads)
    ensures UsersOf(threads, l.next) == {}
    ensures forall t | t in threads :: threads[t].entry in l.entries && threads[t].entry < l.next
  {
    forall t | t in threads ensures threads[t].entry in l.entries && threads[t].entry < l.next {
      assert threads[t].key in l.table;
    }
  }

  lemma EnterCounts(l: Locks, threads: map<Thread, Request>, t: Thread, key: Key, refresh: bool)
    requires Sharing(l, threads) && Counted(l, threads) && t !in threads
    ensures var (locks, entry) := EnterLocks(l, key);
            Counted(locks, threads[t := Request(key, entry, refresh, Waiting)])
  {
    var (locks, entry) := EnterLocks(l, key);
    var r := Request(key, entry, refresh, Waiting);
    NotYetUsed(l, threads);
    forall k | k in locks.table
      ensures locks.table[k] in locks.entries
      ensures locks.entries[locks.table[k]].users == |UsersOf(threads[t := r], locks.table[k])| > 0
    {
      UsersEnter(threads, t, r, locks.table[k]);
    }
  }

  lemma EnterShares(l: Locks, threads: map<Thread, Request>, t: Thread, key: Key, refresh: bool)
    requires Sharing(l, threads) && t !in threads
    ensures var (locks, entry) := EnterLocks(l, key);
            Sharing(locks, threads[t := Request(key, entry, refresh, Waiting)])
  {
    NotYetUsed(l, threads);
  }

  lemma LeaveCounts(l: Locks, threads: map<Thread, Request>, t: Thread)
    requires Sharing(l, threads) && Counted(l, threads) && t in threads
    requires threads[t].entry in l.entries && l.entries[threads[t].entry].users > 0
    ensures Counted(LeaveLocks(l, threads[t].key, threads[t].entry), threads - {t})
  {
    var left := LeaveLocks(l, threads[t].key, threads[t].entry);
    assert threads[t].key in l.table;
    forall k | k in left.table
      ensures left.table[k] in left.entries
      ensures left.entries[left.table[k]].users == |UsersOf(threads - {t}, left.table[k])| > 0
    {
      UsersLeave(threads, t, left.table[k]);
    }
  }

  lemma LeaveShares(l: Locks, threads: map<Thread, Request>, t: Thread)
    requires Sharing(l, threads) && Counted(l, threads) && t in threads && threads[t].stage.Released?
    requires threads[t].entry in l.entries && l.entries[threads[t].entry].users > 0
    ensures Sharing(LeaveLocks(l, threads[t].key, threads[t].entry), threads - {t})
  {
    var r := threads[t];
    assert r.key in l.table && l.table[r.key] == r.entry;
    UsersLeave(threads, t, r.entry);
    forall u | u in threads && u != t && threads[u].key == r.key ensures l.entries[r.entry].users > 1 {
      assert u in UsersOf(threads - {t}, r.entry);
    }
  }

  lemma StageCounts(l: Locks, threads: map<Thread, Request>, t: Thread, s: Stage)
    requires Counted(l, threads) && t in threads
    ensures Counted(l, At(threads, t, s))
  {
    forall k | k in l.table ensures UsersOf(At(threads, t, s), l.table[k]) == UsersOf(threads, l.table[k]) {
      UsersStay(threads, t, s, l.table[k]);
    }
  }

  lemma HolderDoesNotCount(l: Locks, threads: map<Thread, Request>, e: nat, holder: Option<Thread>)
    requires Counted(l, threads) && e in l.entries
    ensures Counted(Held(l, e, holder), threads)
  {
  }

  /** Changing a thread's stage, with the lock taken or given back accordingly. */
  lemma StageShares(l: Locks, threads: map<Thread, Request>, t: Thread, s: Stage, holder: Option<Thread>)
    requires Sharing(l, threads) && t in threads && threads[t].entry in l.entries
    requires l.entries[threads[t].entry].holder.None? || l.entries[threads[t].entry].holder == Some(t)
    requires holder == if Inside(s) then Some(t) else None
    ensures Sharing(Held(l, threads[t].entry, holder), At(threads, t, s))
  {
    var e, h, after := threads[t].entry, Held(l, threads[t].entry, holder), At(threads, t, s);
    assert LocksOk(h);
    NotYetUsed(l, threads);
    forall u | u in after ensures Inside(after[u].stage) <==> h.entries[after[u].entry].holder == Some(u) {
      assert u != t ==> after[u] == threads[u];
    }
  }

  lemma HeldStays(l: Locks, threads: map<Thread, Request>, t: Thread, s: Stage)
    requires Sharing(l, threads) && t in threads && Inside(threads[t].stage) && Inside(s)
    requires threads[t].entry in l.entries
    ensures Sharing(l, At(threads, t, s))
  {
    var e := threads[t].entry;
    StageShares(l, threads, t, s, Some(t));
    assert l.entries[e := l.entries[e].(holder := Some(t))] == l.entries;
  }

  lemma LocksKeep(ttl: int, w: World, a: Action)
    requires Sharing(w.locks, w.threads) && Counted(w.locks, w.threads)
    ensures var w' := Do(ttl, w, a); Sharing(w'.locks, w'.threads) && Counted(w'.locks, w'.threads)
  {
    var w' := Do(ttl, w, a);
    hide Sharing, Counted, LocksOk, Last, Unexpired, EnterLocks, LeaveLocks;
    if !a.Tick? && w' != w {
      var t := a.thread;
      if a.Enter? {
        EnterShares(w.locks, w.threads, t, a.key, a.refresh);
        EnterCounts(w.locks, w.threads, t, a.key, a.refresh);
      } else if a.Leave? {
        LeaveShares(w.locks, w.threads, t);
        LeaveCounts(w.locks, w.threads, t);
      } else {
        StageLocksKeep(ttl, w, a);
      }
    }
  }

  lemma StageLocksKeep(ttl: int, w: World, a: Action)
    requires Sharing(w.locks, w.threads) && Counted(w.locks, w.threads)
    requires !a.Tick? && !a.Enter? && !a.Leave? && a.thread in w.threads && w.threads[a.thread].entry in w.locks.entries
    requires Do(ttl, w, a) != w
    ensures var w' := Do(ttl, w, a); Sharing(w'.locks, w'.threads) && Counted(w'.locks, w'.threads)
  {
    var t, r, w' := a.thread, w.threads[a.thread], Do(ttl, w, a);
    HolderIsSelf(w.locks, w.threads, t);
    hide Sharing, Counted, LocksOk, Last, Unexpired;
    var s := w'.threads[t].stage;
    StageCounts(w.locks, w.threads, t, s);
    if a.Acquire? || a.Release? {
      var holder := if a.Acquire? then Some(t) else None;
      StageShares(w.locks, w.threads, t, s, holder);
      HolderDoesNotCount(w.locks, At(w.threads, t, s), r.entry, holder);
    } else {
      HeldStays(w.locks, w.threads, t, s);
    }
  }

  lemma HolderIsSelf(l: Locks, threads: map<Thread, Request>, t: Thread)
    requires Sharing(l, threads) && t in threads && threads[t].entry in l.entries
    ensures Inside(threads[t].stage) <==> l.entries[threads[t].entry].holder == Some(t)
  {
  }

  // The cache and the log.

  lemma LastSnoc(log: seq<Stored>, s: Stored, key: Key)
    ensures Last(log + [s], key) == if s.key == key then Some(s) else Last(log, key)
  {
    assert (log + [s])[..|log|] == log;
  }

  lemma {:induction false} LastIsLatest(ttl: int, log: seq<Stored>, i: nat)
    requires Spaced(ttl, log) && i < |log|
    ensures var last := Last(log, log[i].key); last.Some? && log[i].time <= last.value.time
    decreases |log|
  {
    var n := |log| - 1;
    if log[n].key != log[i].key {
      assert Spaced(ttl, log[..n]);
      LastIsLatest(ttl, log[..n], i);
    }
  }

  /** A fetch that looked in the cache first begins a full lifetime after the previous one. */
  lemma StoreSpaced(ttl: int, clock: int, cache: map<Key, Slot>, log: seq<Stored>, r: Request, s: Stored)
    requires Spaced(ttl, log) && CachedOk(ttl, clock, cache, log, r.key) && ThreadOk(ttl, clock, log, r)
    requires r.stage.Fetching? && s.key == r.key && s.time == clock && s.refresh == r.refresh
    ensures Spaced(ttl, log + [s])
  {
    forall i | 0 <= i < |log| && log[i].key == s.key
      ensures log[i].time <= s.time && (!s.refresh ==> log[i].time + ttl <= s.time)
    {
      LastIsLatest(ttl, log, i);
    }
  }

  /** Threads inside one key's region exclude each other. */
  lemma OneInside(l: Locks, threads: map<Thread, Request>, t: Thread, u: Thread)
    requires Sharing(l, threads) && t in threads && u in threads
    requires Inside(threads[t].stage) && Inside(threads[u].stage)
    ensures threads[t].key == threads[u].key ==> t == u
  {
    assert threads[t].key in l.table && threads[u].key in l.table;
  }

  lemma StoreCaches(ttl: int, clock: int, cache: map<Key, Slot>, log: seq<Stored>, s: Stored)
    requires CacheOk(ttl, clock, cache, log) && s.time == clock
    ensures CacheOk(ttl, clock, Unexpired(cache, clock)[s.key := Slot(clock + ttl, s.values)], log + [s])
  {
    var cache', log' := Unexpired(cache, clock)[s.key := Slot(clock + ttl, s.values)], log + [s];
    forall k: Key ensures CachedOk(ttl, clock, cache', log', k) {
      LastSnoc(log, s, k);
      assert CachedOk(ttl, clock, cache, log, k);
    }
  }

  lemma EvictionIsSafe(ttl: int, clock: int, cache: map<Key, Slot>, log: seq<Stored>, now: int)
    requires CacheOk(ttl, clock, cache, log) && now <= clock
    ensures CacheOk(ttl, clock, Unexpired(cache, now), log)
  {
    forall k: Key ensures CachedOk(ttl, clock, Unexpired(cache, now), log, k) {
      assert CachedOk(ttl, clock, cache, log, k);
    }
  }

  lemma StoreLeavesOthers(ttl: int, w: World, t: Thread, s: Stored)
    requires ThreadsOk(ttl, w.clock, w.log, w.threads) && Sharing(w.locks, w.threads)
    requires t in w.threads && w.threads[t].stage.Fetching? && s.key == w.threads[t].key
    ensures ThreadsOk(ttl, w.clock, w.log + [s], At(w.threads, t, Finished(Some(s.values))))
  {
    var after := At(w.threads, t, Finished(Some(s.values)));
    forall u | u in after ensures ThreadOk(ttl, w.clock, w.log + [s], after[u]) {
      assert ThreadOk(ttl, w.clock, w.log, w.threads[u]);
      LastSnoc(w.log, s, after[u].key);
      if w.threads[u].stage.Fetching? {
        OneInside(w.locks, w.threads, t, u);
      }
    }
  }

  lemma StoreKeeps(ttl: int, w: World, t: Thread, values: string)
    requires Invariant(ttl, w) && t in w.threads && w.threads[t].stage.Fetching?
    ensures CacheInvariant(ttl, Do(ttl, w, StoreFetched(t, values)))
  {
    var r := w.threads[t];
    var s := Stored(r.key, w.clock, values, r.refresh);
    assert ThreadOk(ttl, w.clock, w.log, r) && CachedOk(ttl, w.clock, w.cache, w.log, r.key);
    hide Sharing, Counted, CacheOk, ThreadsOk, ThreadOk, CachedOk, Spaced, Unexpired;
    StoreSpaced(ttl, w.clock, w.cache, w.log, r, s);
    StoreCaches(ttl, w.clock, w.cache, w.log, s);
    StoreLeavesOthers(ttl, w, t, s);
  }

  ghost predicate CacheInvariant(ttl: int, w: World) {
    CacheOk(ttl, w.clock, w.cache, w.log) && ThreadsOk(ttl, w.clock, w.log, w.threads) && Spaced(ttl, w.log)
  }

  lemma StageOk(ttl: int, clock: int, log: seq<Stored>, threads: map<Thread, Request>, t: Thread, r: Request)
    requires ThreadsOk(ttl, clock, log, threads) && ThreadOk(ttl, clock, log, r)
    ensures ThreadsOk(ttl, clock, log, threads[t := r])
  {
    hide ThreadOk;
  }

  lemma LookUpKeeps(ttl: int, w: World, t: Thread)
    requires Invariant(ttl, w) && t in w.threads && w.threads[t].stage.Looking?
    ensures CacheInvariant(ttl, Do(ttl, w, LookUp(t)))
  {
    var r, w' := w.threads[t], Do(ttl, w, LookUp(t));
    assert ThreadOk(ttl, w.clock, w.log, r);
    EvictionIsSafe(ttl, w.clock, w.cache, w.log, r.stage.now);
    assert CachedOk(ttl, w.clock, Unexpired(w.cache, r.stage.now), w.log, r.key);
    hide Sharing, Counted, CacheOk, ThreadsOk, Spaced, Unexpired;
    StageOk(ttl, w.clock, w.log, w.threads, t, w'.threads[t]);
  }

  /** Steps that leave the cache alone. */
  lemma OtherStepKeeps(ttl: int, w: World, a: Action)
    requires Invariant(ttl, w) && !a.Tick? && !a.LookUp? && !a.StoreFetched? && !a.Leave?
    ensures CacheInvariant(ttl, Do(ttl, w, a))
  {
    var w' := Do(ttl, w, a);
    if w' != w {
      assert ThreadOk(ttl, w.clock, w.log, w'.threads[a.thread]);
      hide Sharing, Counted, CacheOk, ThreadsOk, Spaced, ThreadOk, EnterLocks;
      StageOk(ttl, w.clock, w.log, w.threads, a.thread, w'.threads[a.thread]);
    }
  }

  lemma TimePasses(ttl: int, w: World, clock: int)
    requires CacheInvariant(ttl, w) && w.clock <= clock
    ensures CacheInvariant(ttl, w.(clock := clock))
  {
    forall k: Key ensures CachedOk(ttl, clock, w.cache, w.log, k) {
      assert CachedOk(ttl, w.clock, w.cache, w.log, k);
    }
    forall t | t in w.threads ensures ThreadOk(ttl, clock, w.log, w.threads[t]) {
      assert ThreadOk(ttl, w.clock, w.log, w.threads[t]);
    }
  }

  lemma StepKeeps(ttl: int, w: World, a: Action)
    requires Invariant(ttl, w)
    ensures Invariant(ttl, Do(ttl, w, a))
  {
    LocksKeep(ttl, w, a);
    hide Sharing, Counted, CacheOk, Spaced, EnterLocks, LeaveLocks, Unexpired;
    if a.Tick? {
      TimePasses(ttl, w, w.clock + a.seconds);
    } else if a.LookUp? {
      if a.thread in w.threads && w.threads[a.thread].stage.Looking? {
        LookUpKeeps(ttl, w, a.thread);
      }
    } else if a.StoreFetched? {
      if a.thread in w.threads && w.threads[a.thread].stage.Fetching? {
        StoreKeeps(ttl, w, a.thread, a.values);
      }
    } else if !a.Leave? {
      OtherStepKeeps(ttl, w, a);
    }
  }

  function Run(ttl: int, w: World, actions: seq<Action>): World
    decreases |actions|
  {
    if actions == [] then w else Run(ttl, Do(ttl, w, actions[0]), actions[1..])
  }

  function Start(clock: int): World {
    World(clock, Locks(map[], map[], 0), map[], map[], [])
  }

  lemma {:induction false} RunKeeps(ttl: int, w: World, actions: seq<Action>)
    requires Invariant(ttl, w)
    ensures Invariant(ttl, Run(ttl, w, actions))
    decreases |actions|
  {
    hide Invariant, Do;
    if actions != [] {
      StepKeeps(ttl, w, actions[0]);
      RunKeeps(ttl, Do(ttl, w, actions[0]), actions[1..]);
    }
  }

  // ----- the results -----

  /** In every run, at most one thread at a time is inside the region of a key. */
  lemma MutualExclusion(ttl: int, clock: int, actions: seq<Action>, t: Thread, u: Thread)
    requires var w := Run(ttl, Start(clock), actions);
             && t in w.threads && u in w.threads && w.threads[t].key == w.threads[u].key
             && Inside(w.threads[t].stage) && Inside(w.threads[u].stage)
    ensures t == u
  {
    RunKeeps(ttl, Start(clock), actions);
    var w := Run(ttl, Start(clock), actions);
    OneInside(w.locks, w.threads, t, u);
  }

  /** In every run, the table has an entry for a key exactly while some thread uses it, with the number
      of those threads as its count: no entry is leaked and none is dropped under a waiting thread. */
  lemma TableIsWhatIsUsed(ttl: int, clock: int, actions: seq<Action>, key: Key)
    ensures var w := Run(ttl, Start(clock), actions);
            var users := set t | t in w.threads && w.threads[t].key == key;
            && (key in w.locks.table <==> users != {})
            && (key in w.locks.table ==>
                  w.locks.table[key] in w.locks.entries && w.locks.entries[w.locks.table[key]].users == |users|)
  {
    RunKeeps(ttl, Start(clock), actions);
    var w := Run(ttl, Start(clock), actions);
    hide Run;
    if key in w.locks.table {
      var e := w.locks.table[key];
      var users := set t | t in w.threads && w.threads[t].key == key;
      forall t | t in w.threads ensures w.threads[t].entry == e <==> w.threads[t].key == key {
        assert w.threads[t].key in w.locks.table;
      }
      assert users == UsersOf(w.threads, e);
    }
  }

  /** In every run, with a clock that does not go back, a valid fetch made without a refresh comes at
      least one lifetime after every earlier one for its key: concurrent requests share one fetch. */
  lemma OneFetchPerLifetime(ttl: int, clock: int, actions: seq<Action>, i: nat, j: nat)
    requires var log := Run(ttl, Start(clock), actions).log;
             i < j < |log| && log[i].key == log[j].key && !log[j].refresh
    ensures var log := Run(ttl, Start(clock), actions).log; log[i].time + ttl <= log[j].time
  {
    RunKeeps(ttl, Start(clock), actions);
  }

  /** In every run, a request answered from the cache gets the values of the latest fetch for its key,
      read within its lifetime. */
  lemma HitIsLatest(ttl: int, clock: int, actions: seq<Action>, t: Thread)
    requires var w := Run(ttl, Start(clock), actions);
             t in w.threads && w.threads[t].stage.Looking? && t in Do(ttl, w, LookUp(t)).threads
             && Do(ttl, w, LookUp(t)).threads[t].stage.Finished?
    ensures var w := Run(ttl, Start(clock), actions);
            var last := Last(w.log, w.threads[t].key);
            && last.Some? && w.threads[t].stage.now < last.value.time + ttl
            && Do(ttl, w, LookUp(t)).threads[t].stage.result == Some(last.value.values)
  {
    RunKeeps(ttl, Start(clock), actions);
    var w := Run(ttl, Start(clock), actions);
    hide Run;
    assert CachedOk(ttl, w.clock, w.cache, w.log, w.threads[t].key);
  }

  // ----- what a request does next -----

  lemma {:induction false} RunMore(ttl: int, w: World, actions: seq<Action>, a: Action)
    ensures Run(ttl, w, actions + [a]) == Do(ttl, Run(ttl, w, actions), a)
    decreases |actions|
  {
    hide Do;
    if actions == [] {
      assert [] + [a] == [a] && [a][1..] == [];
    } else {
      assert (actions + [a])[0] == actions[0] && (actions + [a])[1..] == actions[1..] + [a];
      RunMore(ttl, Do(ttl, w, actions[0]), actions[1..], a);
    }
  }

  /** A request that holds the lock is answered from the cache exactly when it asks for no refresh and the
      latest fetch for its key is within its lifetime, and then with the values of that fetch; in every
      other case it goes on to fetch. */
  lemma CachedExactlyWithinLifetime(ttl: int, clock: int, actions: seq<Action>, t: Thread)
    requires 0 < ttl && t in Run(ttl, Start(clock), actions).threads
    requires Run(ttl, Start(clock), actions).threads[t].stage.Locked?
    ensures var w := Run(ttl, Start(clock), actions);
            var r, last := w.threads[t], Last(w.log, w.threads[t].key);
            var after := Run(ttl, Start(clock), actions + [ReadClock(t)] + [LookUp(t)]);
            && t in after.threads && after.log == w.log
            && after.threads[t].stage
               == if !r.refresh && last.Some? && w.clock < last.value.time + ttl
                  then Finished(Some(last.value.values)) else Fetching
  {
    RunKeeps(ttl, Start(clock), actions);
    RunMore(ttl, Start(clock), actions, ReadClock(t));
    RunMore(ttl, Start(clock), actions + [ReadClock(t)], LookUp(t));
    var w := Run(ttl, Start(clock), actions);
    assert w.threads[t].entry in w.locks.entries;
    assert CachedOk(ttl, w.clock, w.cache, w.log, w.threads[t].key);
    hide Run, Sharing, Counted, ThreadsOk, Spaced;
  }

  lemma ActiveEntry(ttl: int, w: World, t: Thread)
    requires Invariant(ttl, w) && t in w.threads
    ensures w.threads[t].entry in w.locks.entries && w.locks.entries[w.threads[t].entry].users > 0
  {
    assert w.threads[t].key in w.locks.table;
  }

  lemma StageMovesOn(ttl: int, w: World, t: Thread)
    requires t in w.threads && w.threads[t].entry in w.locks.entries && w.locks.entries[w.threads[t].entry].users > 0
    ensures var r := w.threads[t];
            && (r.stage.Waiting? && w.locks.entries[r.entry].holder.None? ==>
                  Do(ttl, w, Acquire(t)).threads == At(w.threads, t, Locked))
            && (r.stage.Finished? ==> Do(ttl, w, Release(t)).threads == At(w.threads, t, Released))
            && (r.stage.Released? ==> t !in Do(ttl, w, Leave(t)).threads)
  {
    hide LeaveLocks;
  }

  lemma FetchMovesOn(ttl: int, w: World, t: Thread, values: string)
    requires t in w.threads && w.threads[t].entry in w.locks.entries && w.threads[t].stage.Fetching?
    ensures var r, after := w.threads[t], Do(ttl, w, StoreFetched(t, values));
            && after.threads == At(w.threads, t, Finished(Some(values)))
            && Last(after.log, r.key) == Some(Stored(r.key, w.clock, values, r.refresh))
  {
    var r := w.threads[t];
    LastSnoc(w.log, Stored(r.key, w.clock, values, r.refresh), r.key);
    hide Last, Unexpired;
  }

  /** No request waits for anything but its lock: it gets the lock when that is free, what it fetches is
      stored and returned, and it then gives the lock back and leaves. */
  lemma EveryStageMovesOn(ttl: int, clock: int, actions: seq<Action>, t: Thread, values: string)
    requires 0 < ttl && t in Run(ttl, Start(clock), actions).threads
    ensures var w := Run(ttl, Start(clock), actions);
            var r := w.threads[t];
            && r.entry in w.locks.entries
            && (r.stage.Waiting? && w.locks.entries[r.entry].holder.None? ==>
                  Run(ttl, Start(clock), actions + [Acquire(t)]).threads == At(w.threads, t, Locked))
            && (r.stage.Fetching? ==>
                  var after := Run(ttl, Start(clock), actions + [StoreFetched(t, values)]);
                  && after.threads == At(w.threads, t, Finished(Some(values)))
                  && Last(after.log, r.key) == Some(Stored(r.key, w.clock, values, r.refresh)))
            && (r.stage.Finished? ==> Run(ttl, Start(clock), actions + [Release(t)]).threads == At(w.threads, t, Released))
            && (r.stage.Released? ==> t !in Run(ttl, Start(clock), actions + [Leave(t)]).threads)
  {
    RunKeeps(ttl, Start(clock), actions);
    var w := Run(ttl, Start(clock), actions);
    RunMore(ttl, Start(clock), actions, Acquire(t));
    RunMore(ttl, Start(clock), actions, StoreFetched(t, values));
    RunMore(ttl, Start(clock), actions, Release(t));
    RunMore(ttl, Start(clock), actions, Leave(t));
    ActiveEntry(ttl, w, t);
    hide Run, Do, Invariant, Last;
    StageMovesOn(ttl, w, t);
    if w.threads[t].stage.Fetching? {
      FetchMovesOn(ttl, w, t, values);
    }
  }
}
