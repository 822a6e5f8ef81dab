/** The shared executable-digest cache: staged commits, eviction, and resolvers that
    interleave on one cache. */
module ExecutableDigests {
  import opened Wrappers

  const CAPACITY: nat := 1_024

  /** The file identity a digest is cached under. */
  datatype CacheKey = CacheKey(
    device: int, inode: int, size: int, mtime: int, mtimeNsec: int, ctime: int, ctimeNsec: int)

  type Digest = string

  type Entries = map<CacheKey, Digest>

  /** Hash of the file with a given identity: the key determines the content. */
  type Content = CacheKey -> Digest

  ghost predicate Agrees(entries: Entries, content: Content) {
    forall k | k in entries :: entries[k] == content(k)
  }

  ghost predicate CacheOk(entries: Entries, content: Content) {
    Agrees(entries, content) && |entries| <= CAPACITY
  }

  /** The cache after storing one digest: full caches lose `evict`, others nothing. */
  ghost predicate StoredIn(before: Entries, key: CacheKey, digest: Digest, evict: CacheKey, after: Entries) {
    if |before| >= CAPACITY
    then evict in before && after == (before - {evict})[key := digest]
    else after == before[key := digest]
  }

  ghost function KeysAfter(now: set<CacheKey>, key: CacheKey, evict: CacheKey): set<CacheKey> {
    (if |now| >= CAPACITY then now - {evict} else now) + {key}
  }

  lemma KeysAfterFit(now: set<CacheKey>, key: CacheKey, evict: CacheKey)
    requires |now| <= CAPACITY && (|now| >= CAPACITY ==> evict in now)
    ensures |KeysAfter(now, key, evict)| <= CAPACITY
  {
    if |now| >= CAPACITY {
      assert |now - {evict}| == |now| - 1;
    }
  }

  lemma StoredKeys(before: Entries, key: CacheKey, digest: Digest, evict: CacheKey, after: Entries)
    requires StoredIn(before, key, digest, evict, after)
    ensures after.Keys == KeysAfter(before.Keys, key, evict) && (|before.Keys| >= CAPACITY ==> evict in before)
  {
    assert |before.Keys| == |before|;
    if |before| >= CAPACITY {
      assert (before - {evict}).Keys == before.Keys - {evict};
    }
  }

  lemma StoreKeepsCache(before: Entries, key: CacheKey, digest: Digest, evict: CacheKey, after: Entries,
                        content: Content)
    requires StoredIn(before, key, digest, evict, after) && CacheOk(before, content) && digest == content(key)
    ensures CacheOk(after, content) && key in after
    ensures forall k | k in before && k != evict :: k in after
  {
    StoredKeys(before, key, digest, evict, after);
    KeysAfterFit(before.Keys, key, evict);
    assert |after.Keys| == |after| && |before.Keys| == |before|;
  }

  // ---- The cache object ----

  class DigestCache {
    var entries: Entries

    constructor ()
      ensures entries == map[]
    {
      entries := map[];
    }

    /** Insert, evicting one arbitrary entry when the cache is full. */
    method Store(key: CacheKey, digest: Digest)
      modifies this
      ensures exists evict :: StoredIn(old(entries), key, digest, evict, entries)
    {
      var before := entries;
      var evict := key;
      if |entries| >= CAPACITY {
        evict :| evict in entries;
        entries := entries - {evict};
      }
      entries := entries[key := digest];
      assert StoredIn(before, key, digest, evict, entries);
    }
  }

  // ---- One resolution ----

  /** What a resolution meets in one process: its executable's identity, whether hashing
      it works, and whether its snapshot is still valid at the end. */
  datatype Exe = Exe(key: CacheKey, hashable: bool, valid: bool)

  /** The digest of one executable: pending digests first, then the shared cache, then
      hashing, whose result becomes pending. */
  method ResolveOpenExecutable(cache: DigestCache, pending: Entries, exe: Exe, content: Content)
    returns (r: Option<Digest>, next: Entries)
    requires Agrees(cache.entries, content) && Agrees(pending, content)
    ensures r.Some? ==> r.value == content(exe.key) && Agrees(next, content)
    ensures r.None? <==> !exe.hashable && exe.key !in pending && exe.key !in cache.entries
    ensures next == if exe.key in pending || exe.key in cache.entries || !exe.hashable
                    then pending else pending[exe.key := content(exe.key)]
  {
    if exe.key in pending {
      return Some(pending[exe.key]), pending;
    }
    if exe.key in cache.entries {
      return Some(cache.entries[exe.key]), pending;
    }
    if !exe.hashable {
      return None, pending;
    }
    return Some(content(exe.key)), pending[exe.key := content(exe.key)];
  }

  /** Which keys a commit leaves: only old and pending ones; all of them when there is
      room; never fewer than fit; and some pending one even in a full cache. */
  ghost predicate Committed(before: set<CacheKey>, pending: set<CacheKey>, after: set<CacheKey>) {
    && after <= before + pending
    && (|before| + |pending| <= CAPACITY ==> after == before + pending)
    && (pending != {} ==> after * pending != {})
    && (before !! pending ==> |after| == if |before| + |pending| <= CAPACITY then |before| + |pending| else CAPACITY)
  }

  lemma {:induction false} UnionSize<T>(a: set<T>, b: set<T>)
    ensures |a + b| <= |a| + |b|
    decreases |a|
  {
    if a == {} {
      assert a + b == b;
    } else {
      var x :| x in a;
      UnionSize(a - {x}, b);
      assert a + b == (a - {x} + b) + {x};
    }
  }

  lemma CommitStep(before: set<CacheKey>, done: set<CacheKey>, now: set<CacheKey>, key: CacheKey, evict: CacheKey)
    requires Committed(before, done, now) && |before| <= CAPACITY && |now| <= CAPACITY && key !in done
    requires |now| >= CAPACITY ==> evict in now
    ensures Committed(before, done + {key}, KeysAfter(now, key, evict))
  {
    UnionSize(before, done);
    assert key in KeysAfter(now, key, evict) * (done + {key});
    if |now| >= CAPACITY {
      assert |now - {evict}| == |now| - 1;
    }
  }

  /** Part of the pending digests is stored: `rest` is still to come. */
  ghost predicate PartlyCommitted(start: Entries, entries: Entries, rest: Entries, now: Entries, content: Content) {
    && CacheOk(now, content) && Agrees(rest, content) && rest.Keys <= entries.Keys
    && |start.Keys| <= CAPACITY && |now.Keys| <= CAPACITY
    && Committed(start.Keys, entries.Keys - rest.Keys, now.Keys)
  }

  lemma CommitKeys(start: set<CacheKey>, entries: set<CacheKey>, rest: set<CacheKey>, now: set<CacheKey>,
                   key: CacheKey, evict: CacheKey)
    requires |start| <= CAPACITY && |now| <= CAPACITY && Committed(start, entries - rest, now)
    requires key in rest && rest <= entries && (|now| >= CAPACITY ==> evict in now)
    ensures Committed(start, entries - (rest - {key}), KeysAfter(now, key, evict))
  {
    CommitStep(start, entries - rest, now, key, evict);
    assert entries - (rest - {key}) == entries - rest + {key};
  }

  lemma RemoveKey(rest: Entries, key: CacheKey, content: Content)
    requires key in rest && Agrees(rest, content)
    ensures (rest - {key}).Keys == rest.Keys - {key} && |rest - {key}| < |rest| && Agrees(rest - {key}, content)
  {
    assert |rest.Keys| == |rest| && |(rest - {key}).Keys| == |rest - {key}|;
  }

  lemma CommitOne(start: Entries, entries: Entries, rest: Entries, now: Entries, key: CacheKey, after: Entries,
                  content: Content)
    requires key in rest && PartlyCommitted(start, entries, rest, now, content)
    requires exists evict :: StoredIn(now, key, rest[key], evict, after)
    ensures PartlyCommitted(start, entries, rest - {key}, after, content) && |rest - {key}| < |rest|
  {
    var evict :| StoredIn(now, key, rest[key], evict, after);
    assert CacheOk(after, content) by {
      StoreKeepsCache(now, key, rest[key], evict, after, content);
    }
    StoredKeys(now, key, rest[key], evict, after);
    RemoveKey(rest, key, content);
    CommitKeys(start.Keys, entries.Keys, rest.Keys, now.Keys, key, evict);
    KeysFit(after, content);
  }

  lemma KeysFit(entries: Entries, content: Content)
    requires CacheOk(entries, content)
    ensures |entries.Keys| <= CAPACITY
  {
    assert |entries.Keys| == |entries|;
  }

  lemma CommitStart(entries: Entries, now: Entries, content: Content)
    requires CacheOk(now, content) && Agrees(entries, content)
    ensures PartlyCommitted(now, entries, entries, now, content)
  {
    assert |now.Keys| == |now|;
    assert entries.Keys - entries.Keys == {};
  }

  lemma CommitEnd(start: Entries, entries: Entries, now: Entries, content: Content)
    requires PartlyCommitted(start, entries, map[], now, content)
    ensures Committed(start.Keys, entries.Keys, now.Keys)
  {
    var none: Entries := map[];
    assert entries.Keys - none.Keys == entries.Keys;
  }

  method CommitPending(cache: DigestCache, entries: Entries, content: Content)
    requires CacheOk(cache.entries, content) && Agrees(entries, content)
    modifies cache
    ensures CacheOk(cache.entries, content)
    ensures Committed(old(cache.entries).Keys, entries.Keys, cache.entries.Keys)
  {
    var pending := entries;
    CommitStart(entries, cache.entries, content);
    while pending != map[]
      invariant PartlyCommitted(old(cache.entries), entries, pending, cache.entries, content)
      decreases |pending|
    {
      var key :| key in pending;
      ghost var before := cache.entries;
      cache.Store(key, pending[key]);
      CommitOne(old(cache.entries), entries, pending, before, key, cache.entries, content);
      pending := pending - {key};
    }
    CommitEnd(old(cache.entries), entries, cache.entries, content);
  }

  ghost predicate Seen(chain: seq<Exe>, n: nat, key: CacheKey)
    requires n <= |chain|
  {
    exists j :: 0 <= j < n && chain[j].key == key
  }

  /** Process `i` gets a digest: it can be hashed, or its key is cached or came up earlier
      in the chain. */
  ghost predicate Obtainable(entries: Entries, chain: seq<Exe>, i: nat)
    requires i < |chain|
  {
    chain[i].hashable || chain[i].key in entries || Seen(chain, i, chain[i].key)
  }

  /** The executables of a chain that the cache does not know. */
  ghost function Missing(entries: Entries, chain: seq<Exe>): set<CacheKey> {
    set i | 0 <= i < |chain| && chain[i].key !in entries :: chain[i].key
  }

  /** Digests of a process and its ancestors in order; digests computed on the way are
      reused at once. */
  method CollectDigests(cache: DigestCache, chain: seq<Exe>, content: Content)
    returns (r: Option<seq<Digest>>, pending: Entries)
    requires Agrees(cache.entries, content)
    ensures Agrees(pending, content)
    ensures r.Some? ==> |r.value| == |chain| && forall i | 0 <= i < |chain| :: r.value[i] == content(chain[i].key)
    ensures r.Some? <==> forall i: nat | i < |chain| :: Obtainable(cache.entries, chain, i)
    ensures r.Some? ==> pending.Keys == Missing(cache.entries, chain)
  {
    pending := map[];
    var digests: seq<Digest> := [];
    for i := 0 to |chain|
      invariant Agrees(pending, content)
      invariant |digests| == i && forall j | 0 <= j < i :: digests[j] == content(chain[j].key)
      invariant forall k | k in pending :: Seen(chain, i, k) && k !in cache.entries
      invariant forall j | 0 <= j < i :: chain[j].key in pending || chain[j].key in cache.entries
      invariant forall j: nat | j < i :: Obtainable(cache.entries, chain, j)
    {
      var digest, next := ResolveOpenExecutable(cache, pending, chain[i], content);
      if digest.None? {
        assert !Obtainable(cache.entries, chain, i);
        return None, pending;
      }
      digests, pending := digests + [digest.value], next;
    }
    assert forall k | k in pending :: k in Missing(cache.entries, chain);
    return Some(digests), pending;
  }

  method ValidateSnapshots(chain: seq<Exe>) returns (ok: bool)
    ensures ok <==> forall i | 0 <= i < |chain| :: chain[i].valid
  {
    for i := 0 to |chain|
      invariant forall j | 0 <= j < i :: chain[j].valid
    {
      if !chain[i].valid {
        return false;
      }
    }
    return true;
  }

  /** A resolution: digests reach the shared cache only after every snapshot validated,
      and a resolution that fails leaves it untouched. */
  method Resolve(cache: DigestCache, chain: seq<Exe>, content: Content) returns (r: Option<seq<Digest>>)
    requires CacheOk(cache.entries, content)
    modifies cache
    ensures CacheOk(cache.entries, content)
    ensures r.None? ==> cache.entries == old(cache.entries)
    ensures r.Some? ==> |r.value| == |chain| && forall i | 0 <= i < |chain| :: r.value[i] == content(chain[i].key)
    ensures r.Some? <==>
              && (forall i: nat | i < |chain| :: Obtainable(old(cache.entries), chain, i))
              && (forall i | 0 <= i < |chain| :: chain[i].valid)
    ensures r.Some? ==> Committed(old(cache.entries).Keys, Missing(old(cache.entries), chain), cache.entries.Keys)
    ensures r.Some? && Missing(old(cache.entries), chain) != {} ==>
              exists i :: 0 <= i < |chain| && chain[i].key !in old(cache.entries) && chain[i].key in cache.entries
    ensures r.Some? && |old(cache.entries)| + |Missing(old(cache.entries), chain)| <= CAPACITY ==>
              forall i | 0 <= i < |chain| :: chain[i].key in cache.entries
  {
    var digests, pending := CollectDigests(cache, chain, content);
    if digests.None? {
      return None;
    }
    var ok := ValidateSnapshots(chain);
    if !ok {
      return None;
    }
    ghost var missing := Missing(cache.entries, chain);
    CommitPending(cache, pending, content);
    if missing != {} {
      ghost var k :| k in cache.entries.Keys * missing;
      ghost var i :| 0 <= i < |chain| && chain[i].key !in old(cache.entries) && chain[i].key == k;
    }
    return digests;
  }

  // ---- Interleaved resolutions ----

  datatype Pc =
    | Resolving
    | Hashing           // missed in the pending digests and in the cache
    | Validating(done: nat)
    | Committing
    | Done
    | Failed

  /** `stored` counts the entries this resolution has put into the shared cache. */
  datatype Resolver = Resolver(chain: seq<CacheKey>, pc: Pc, pending: Entries, digests: seq<Digest>, stored: nat)

  datatype State = State(cache: Entries, resolvers: seq<Resolver>)

  datatype Step =
    | Lookup                          // one locked read of the cache
    | Hash
    | HashFails
    | Validate(ok: bool)
    | Commit(key: CacheKey, evict: CacheKey)
    | Finish

  predicate CanStep(cache: Entries, r: Resolver, step: Step) {
    match step
    case Lookup => r.pc.Resolving? && |r.digests| < |r.chain|
    case Hash => r.pc.Hashing? && |r.digests| < |r.chain|
    case HashFails => r.pc.Hashing?
    case Validate(_) => || (r.pc.Resolving? && |r.digests| == |r.chain| && r.chain != [])
                        || (r.pc.Validating? && r.pc.done < |r.chain|)
    case Commit(key, evict) => r.pc.Committing? && key in r.pending && (|cache| >= CAPACITY ==> evict in cache)
    case Finish => r.pc.Committing? && r.pending == map[]
  }

  function NextResolver(cache: Entries, r: Resolver, step: Step, content: Content): Resolver
    requires CanStep(cache, r, step)
  {
    match step
    case Lookup =>
      var key := r.chain[|r.digests|];
      if key in r.pending then r.(digests := r.digests + [r.pending[key]])
      else if key in cache then r.(digests := r.digests + [cache[key]])
      else r.(pc := Hashing)
    case Hash =>
      var key := r.chain[|r.digests|];
      r.(pc := Resolving, pending := r.pending[key := content(key)], digests := r.digests + [content(key)])
    case HashFails => r.(pc := Failed)
    case Validate(ok) =>
      var done := if r.pc.Validating? then r.pc.done + 1 else 1;
      r.(pc := if !ok then Failed else if done == |r.chain| then Committing else Validating(done))
    case Commit(key, _) => r.(pending := r.pending - {key}, stored := r.stored + 1)
    case Finish => r.(pc := Done)
  }

  function NextCache(cache: Entries, r: Resolver, step: Step): Entries
    requires CanStep(cache, r, step)
  {
    match step
    case Commit(key, evict) =>
      (if |cache| >= CAPACITY then cache - {evict} else cache)[key := r.pending[key]]
    case _ => cache
  }

  ghost predicate Moves(s: State, i: nat, step: Step, t: State, content: Content) {
    && i < |s.resolvers| && CanStep(s.cache, s.resolvers[i], step)
    && t == State(NextCache(s.cache, s.resolvers[i], step),
                  s.resolvers[i := NextResolver(s.cache, s.resolvers[i], step, content)])
  }

  ghost predicate Init(s: State, content: Content) {
    && CacheOk(s.cache, content)
    && forall i | 0 <= i < |s.resolvers| ::
         var r := s.resolvers[i]; r.pc == Resolving && r.pending == map[] && r.digests == [] && r.stored == 0
  }

  ghost predicate IsRun(run: seq<State>, who: seq<nat>, steps: seq<Step>, content: Content) {
    && |run| == |steps| + 1 && |who| == |steps| && Init(run[0], content)
    && forall n | 0 <= n < |steps| :: Moves(run[n], who[n], steps[n], run[n + 1], content)
  }

  ghost predicate ResolverOk(r: Resolver, content: Content) {
    && Agrees(r.pending, content)
    && |r.digests| <= |r.chain|
    && (forall j | 0 <= j < |r.digests| :: r.digests[j] == content(r.chain[j]))
    && (r.pc.Validating? || r.pc.Committing? || r.pc.Done? ==> |r.digests| == |r.chain|)
    && (r.stored > 0 ==> r.pc.Committing? || r.pc.Done?)
  }

  ghost predicate Inv(s: State, content: Content) {
    CacheOk(s.cache, content) && forall i | 0 <= i < |s.resolvers| :: ResolverOk(s.resolvers[i], content)
  }

  lemma ResolverStaysOk(cache: Entries, r: Resolver, step: Step, content: Content)
    requires Agrees(cache, content) && ResolverOk(r, content) && CanStep(cache, r, step)
    ensures ResolverOk(NextResolver(cache, r, step, content), content)
  {
  }

  lemma CacheStaysOk(cache: Entries, r: Resolver, step: Step, content: Content)
    requires CacheOk(cache, content) && ResolverOk(r, content) && CanStep(cache, r, step)
    ensures CacheOk(NextCache(cache, r, step), content)
  {
    if step.Commit? {
      StoreKeepsCache(cache, step.key, r.pending[step.key], step.evict, NextCache(cache, r, step), content);
    }
  }

  lemma MovesKeepInv(s: State, i: nat, step: Step, t: State, content: Content)
    requires Inv(s, content) && Moves(s, i, step, t, content)
    ensures Inv(t, content)
  {
    ResolverStaysOk(s.cache, s.resolvers[i], step, content);
    CacheStaysOk(s.cache, s.resolvers[i], step, content);
  }

  lemma {:induction false} RunKeepsInv(run: seq<State>, who: seq<nat>, steps: seq<Step>, content: Content, n: nat)
    requires IsRun(run, who, steps, content) && n < |run|
    ensures Inv(run[n], content)
    decreases n
  {
    if n > 0 {
      RunKeepsInv(run, who, steps, content, n - 1);
      assert Moves(run[n - 1], who[n - 1], steps[n - 1], run[n - 1 + 1], content);
      MovesKeepInv(run[n - 1], who[n - 1], steps[n - 1], run[n], content);
    }
  }

  /** However resolvers interleave on one cache: every digest of a finished resolution is
      the hash of the executable it belongs to, a failed resolution has stored nothing,
      and the cache stays within its capacity. */
  lemma SharedCacheIsSound(run: seq<State>, who: seq<nat>, steps: seq<Step>, content: Content, n: nat)
    requires IsRun(run, who, steps, content) && n < |run|
    ensures |run[n].cache| <= CAPACITY
    ensures forall i | 0 <= i < |run[n].resolvers| ::
              var r := run[n].resolvers[i];
              && (r.pc.Done? ==>
                    |r.digests| == |r.chain| && forall j | 0 <= j < |r.chain| :: r.digests[j] == content(r.chain[j]))
              && (r.pc.Failed? ==> r.stored == 0)
  {
    RunKeepsInv(run, who, steps, content, n);
  }

  /** A step changes the cache only when it is a commit, which the counter records. */
  lemma OnlyCommitsStore(s: State, i: nat, step: Step, t: State, content: Content)
    requires Moves(s, i, step, t, content)
    ensures t.cache != s.cache ==> t.resolvers[i].stored == s.resolvers[i].stored + 1
    ensures forall j | 0 <= j < |s.resolvers| && j != i :: t.resolvers[j] == s.resolvers[j]
  {
  }
}
