/** The bounded registry of connection pools, one per credential digest. */
module Pool {
  import opened Wrappers

  /** A digest as a number, in its natural order. */
  type Digest = nat

  type Pair = (string, string)

  /** `pool` identifies a connection pool. */
  datatype Entry = Entry(pool: nat, credKeys: seq<Pair>, lastUsed: nat)

  type Pools = map<Digest, Entry>

  /** Whether `a` is evicted before `b`: used longer ago, or by digest. */
  predicate Older(pools: Pools, a: Digest, b: Digest)
    requires a in pools && b in pools
  {
    pools[a].lastUsed < pools[b].lastUsed || (pools[a].lastUsed == pools[b].lastUsed && a < b)
  }

  ghost predicate IsLru(pools: Pools, k: Digest) {
    k in pools && forall j :: j in pools && j != k ==> Older(pools, k, j)
  }

  lemma {:induction false} LruExists(pools: Pools)
    requires pools != map[]
    ensures exists k :: IsLru(pools, k)
    decreases |pools|
  {
    var k :| k in pools;
    var others := pools - {k};
    assert forall j :: j in pools && j != k ==> j in others && others[j] == pools[j];
    if others == map[] {
      assert forall j :: j in pools ==> j == k;
      assert IsLru(pools, k);
    } else {
      LruExists(others);
      var m :| IsLru(others, m);
      if Older(pools, k, m) {
        assert IsLru(pools, k);
      } else {
        assert IsLru(pools, m);
      }
    }
  }

  ghost function Lru(pools: Pools): (k: Digest)
    requires pools != map[]
    ensures IsLru(pools, k)
  {
    LruExists(pools);
    var k :| IsLru(pools, k);
    k
  }

  lemma LruIsUnique(pools: Pools, a: Digest, b: Digest)
    requires IsLru(pools, a) && IsLru(pools, b)
    ensures a == b
  {
  }

  /** Evicting until there is room for one more, or nothing is left. */
  ghost function Trimmed(pools: Pools, max: nat): Pools
    decreases |pools|
  {
    if |pools| < max || pools == map[] then pools else Trimmed(pools - {Lru(pools)}, max)
  }

  /** What is left are the newest entries, as many as fit with one place free. */
  ghost predicate KeepsNewest(pools: Pools, kept: Pools, max: nat) {
    && (forall k :: k in kept ==> k in pools && kept[k] == pools[k])
    && |kept| == (if |pools| < max then |pools| else if max == 0 then 0 else max - 1)
    && (forall k, j :: k in kept && j in pools && j !in kept ==>
          pools[j].lastUsed < pools[k].lastUsed || (pools[j].lastUsed == pools[k].lastUsed && j < k))
  }

  lemma {:induction false} TrimmedKeepsNewest(pools: Pools, max: nat)
    ensures KeepsNewest(pools, Trimmed(pools, max), max)
    decreases |pools|
  {
    if !(|pools| < max || pools == map[]) {
      var k := Lru(pools);
      TrimmedKeepsNewest(pools - {k}, max);
      KeepsNewestAfter(pools, k, Trimmed(pools - {k}, max), max);
    }
  }

  lemma KeepsNewestAfter(pools: Pools, k: Digest, kept: Pools, max: nat)
    requires |pools| >= max && IsLru(pools, k) && KeepsNewest(pools - {k}, kept, max)
    ensures KeepsNewest(pools, kept, max)
  {
    OneFewer(pools, k);
    forall i, j | i in kept && j in pools && j !in kept
      ensures pools[j].lastUsed < pools[i].lastUsed || (pools[j].lastUsed == pools[i].lastUsed && j < i)
    {
      assert i in pools - {k};
      if j == k {
        assert Older(pools, k, i);
      } else {
        assert j in pools - {k};
      }
    }
  }

  lemma OneFewer(pools: Pools, k: Digest)
    requires k in pools
    ensures |pools - {k}| == |pools| - 1
  {
    assert pools == (pools - {k})[k := pools[k]];
  }

  // ---------------------------------------------------------------------
  // The registry
  // ---------------------------------------------------------------------

  function Touched(pools: Pools, digest: Digest, now: nat): Pools
    requires digest in pools
  {
    pools[digest := pools[digest].(lastUsed := now)]
  }

  predicate Carries(e: Entry, pair: Pair) {
    pair in e.credKeys
  }

  function Without(pools: Pools, pair: Pair): Pools {
    map k | k in pools && !Carries(pools[k], pair) :: pools[k]
  }

  predicate Idle(e: Entry, now: nat, idle: nat) {
    (if now < e.lastUsed then 0 else now - e.lastUsed) >= idle
  }

  function Swept(pools: Pools, now: nat, idle: nat): Pools {
    map k | k in pools && !Idle(pools[k], now, idle) :: pools[k]
  }

  class PoolRegistry {
    const maxEntries: nat
    const idleEviction: nat
    var pools: Pools

    constructor (maxEntries: nat, idleEviction: nat)
      ensures this.maxEntries == maxEntries && this.idleEviction == idleEviction && pools == map[]
    {
      this.maxEntries, this.idleEviction, pools := maxEntries, idleEviction, map[];
    }

    /**
     `get_or_build`, with what building gives if it comes to that. `now` is read before the
     lock is taken, so it may be behind the last stamp.
     */
    method GetOrBuild(digest: Digest, credKeys: seq<Pair>, now: nat, build: Option<nat>)
      returns (r: Option<nat>)
      modifies this
      ensures pools == Looked(old(pools), maxEntries, digest, credKeys, now, build)
      ensures r == if digest in old(pools) then Some(old(pools)[digest].pool) else build
    {
      if digest in pools {
        var entry := pools[digest];
        pools := pools[digest := entry.(lastUsed := now)];
        return Some(entry.pool);
      }
      if build.None? {
        return None;
      }
      while |pools| >= maxEntries
        invariant Trimmed(pools, maxEntries) == Trimmed(old(pools), maxEntries)
        decreases |pools|
      {
        var lru := FindLru();
        if lru.None? {
          break;
        }
        LruIsUnique(pools, lru.value, Lru(pools));
        OneFewer(pools, lru.value);
        pools := pools - {lru.value};
      }
      pools := pools[digest := Entry(build.value, credKeys, now)];
      r := build;
    }

    /** The entry to evict first, if there is any. */
    method FindLru() returns (lru: Option<Digest>)
      ensures lru.None? <==> pools == map[]
      ensures lru.Some? ==> IsLru(pools, lru.value)
    {
      lru := None;
      var left := pools.Keys;
      while left != {}
        invariant left <= pools.Keys
        invariant lru.None? <==> left == pools.Keys
        invariant lru.Some? ==> lru.value in pools && lru.value !in left
        invariant lru.Some? ==>
          forall j :: j in pools && j !in left && j != lru.value ==> Older(pools, lru.value, j)
        decreases left
      {
        var k :| k in left;
        left := left - {k};
        if lru.None? || Older(pools, k, lru.value) {
          lru := Some(k);
        }
      }
    }

    method RemoveAll(toRemove: set<Digest>)
      requires toRemove <= pools.Keys
      modifies this
      ensures pools == old(pools) - toRemove && |pools| == |old(pools)| - |toRemove|
    {
      var left, removed: set<Digest> := toRemove, {};
      while left != {}
        invariant removed + left == toRemove && pools == old(pools) - removed
        decreases left
      {
        var k :| k in left;
        assert old(pools) - removed - {k} == old(pools) - (removed + {k});
        pools := pools - {k};
        left, removed := left - {k}, removed + {k};
      }
      assert removed == toRemove;
      SizeWithout(old(pools), toRemove);
    }

    /** `evict_for`. */
    method EvictFor(pair: Pair) returns (count: nat)
      modifies this
      ensures pools == Without(old(pools), pair)
      ensures count == |old(pools)| - |pools|
    {
      var toRemove := set k | k in pools && Carries(pools[k], pair);
      count := |toRemove|;
      RemoveAll(toRemove);
    }

    /** `evict_for_secret`: the lot. */
    method EvictForSecret() returns (count: nat)
      modifies this
      ensures pools == map[] && count == |old(pools)|
    {
      count := |pools|;
      pools := map[];
    }

    /** `sweep_idle`. */
    method SweepIdle(now: nat) returns (count: nat)
      modifies this
      ensures pools == Swept(old(pools), now, idleEviction)
      ensures count == |old(pools)| - |pools|
    {
      var toRemove := set k | k in pools && Idle(pools[k], now, idleEviction);
      count := |toRemove|;
      RemoveAll(toRemove);
    }
  }

  lemma OneApart(pools: Pools, keys: set<Digest>, k: Digest)
    requires k in keys
    ensures pools - {k} - (keys - {k}) == pools - keys && |keys - {k}| == |keys| - 1
  {
  }

  lemma {:induction false} SizeWithout(pools: Pools, keys: set<Digest>)
    requires keys <= pools.Keys
    ensures |pools - keys| == |pools| - |keys|
    decreases |keys|
  {
    if keys == {} {
      assert pools - keys == pools;
    } else {
      var k :| k in keys;
      OneFewer(pools, k);
      SizeWithout(pools - {k}, keys - {k});
      OneApart(pools, keys, k);
    }
  }

  lemma {:induction false} FewerKeys(pools: Pools, kept: Pools)
    requires kept.Keys <= pools.Keys
    ensures |kept| <= |pools|
    decreases |kept|
  {
    if kept != map[] {
      var k :| k in kept;
      OneFewer(kept, k);
      OneFewer(pools, k);
      FewerKeys(pools - {k}, kept - {k});
    }
  }

  /** A lookup: a hit is stamped, a build that works is added once there is room. */
  ghost function Looked(
    pools: Pools, max: nat, digest: Digest, credKeys: seq<Pair>, now: nat, build: Option<nat>): Pools
  {
    if digest in pools then Touched(pools, digest, now)
    else if build.None? then pools
    else Trimmed(pools, max)[digest := Entry(build.value, credKeys, now)]
  }

  // ---------------------------------------------------------------------
  // Runs
  // ---------------------------------------------------------------------

  datatype Step =
    | Looks(digest: Digest, credKeys: seq<Pair>, now: nat, build: Option<nat>)
    | Revokes(pair: Pair)
    | Rotates
    | Sweeps(now: nat)

  ghost function Do(max: nat, idle: nat, pools: Pools, step: Step): Pools {
    match step
    case Looks(digest, credKeys, now, build) => Looked(pools, max, digest, credKeys, now, build)
    case Revokes(pair) => Without(pools, pair)
    case Rotates => map[]
    case Sweeps(now) => Swept(pools, now, idle)
  }

  ghost function Run(max: nat, idle: nat, steps: seq<Step>): Pools {
    if steps == [] then map[] else Do(max, idle, Run(max, idle, steps[..|steps| - 1]), steps[|steps| - 1])
  }

  /** A lookup of `digest` that builds `e`, if it misses. */
  predicate Builds(step: Step, digest: Digest, e: Entry) {
    step.Looks? && step.digest == digest && step.build == Some(e.pool) && step.credKeys == e.credKeys
  }

  /** An entry is there because it was, up to its stamp, or because this lookup built it. */
  predicate Kept(pools: Pools, step: Step, k: Digest, e: Entry) {
    if k in pools then pools[k].pool == e.pool && pools[k].credKeys == e.credKeys else Builds(step, k, e)
  }

  lemma EntryComesFrom(max: nat, idle: nat, pools: Pools, step: Step, k: Digest)
    requires k in Do(max, idle, pools, step)
    ensures Kept(pools, step, k, Do(max, idle, pools, step)[k])
  {
    if step.Looks? {
      TrimmedKeepsNewest(pools, max);
    }
  }

  lemma StepIsBounded(max: nat, idle: nat, pools: Pools, step: Step)
    ensures var bound := if max == 0 then 1 else max;
            |pools| <= bound ==> |Do(max, idle, pools, step)| <= bound
  {
    match step
    case Looks(digest, credKeys, now, build) =>
      if digest in pools {
        FewerKeys(pools, Touched(pools, digest, now));
      } else if build.Some? {
        TrimmedKeepsNewest(pools, max);
      }
    case Revokes(pair) => FewerKeys(pools, Without(pools, pair));
    case Rotates =>
    case Sweeps(now) => FewerKeys(pools, Swept(pools, now, idle));
  }

  /** The registry never holds more than `pool_max_entries` pools, or one if that is 0. */
  lemma {:induction false} NeverOverfull(max: nat, idle: nat, steps: seq<Step>)
    ensures |Run(max, idle, steps)| <= if max == 0 then 1 else max
    decreases |steps|
  {
    if steps != [] {
      NeverOverfull(max, idle, steps[..|steps| - 1]);
      StepIsBounded(max, idle, Run(max, idle, steps[..|steps| - 1]), steps[|steps| - 1]);
    }
  }

  lemma RunOn(max: nat, idle: nat, steps: seq<Step>, i: nat)
    requires i < |steps|
    ensures Run(max, idle, steps[..i + 1]) == Do(max, idle, Run(max, idle, steps[..i]), steps[i])
  {
    var more := steps[..i + 1];
    assert more[..|more| - 1] == steps[..i] && more[|more| - 1] == steps[i];
  }

  /**
   Every entry was built by a lookup of its own digest that missed, with its credentials; and
   if `i` steps into the run it was not there with them, by one after those.
   */
  lemma {:induction false} BuiltSince(max: nat, idle: nat, steps: seq<Step>, i: nat, j: nat, k: Digest)
    returns (m: nat)
    requires i <= j <= |steps| && k in Run(max, idle, steps[..j])
    requires var before := Run(max, idle, steps[..i]);
             k in before ==> before[k].credKeys != Run(max, idle, steps[..j])[k].credKeys
    ensures i <= m < j && Builds(steps[m], k, Run(max, idle, steps[..j])[k]) && k !in Run(max, idle, steps[..m])
    decreases j
  {
    var was := Run(max, idle, steps[..j - 1]);
    assert Kept(was, steps[j - 1], k, Run(max, idle, steps[..j])[k]) by {
      RunOn(max, idle, steps, j - 1);
      EntryComesFrom(max, idle, was, steps[j - 1], k);
    }
    if k in was {
      m := BuiltSince(max, idle, steps, i, j - 1, k);
    } else {
      m := j - 1;
    }
  }

  /** So a hit returns a pool built for the digest it is asked for. */
  lemma HitWasBuiltForDigest(max: nat, idle: nat, steps: seq<Step>, digest: Digest) returns (m: nat)
    requires digest in Run(max, idle, steps)
    ensures m < |steps| && Builds(steps[m], digest, Run(max, idle, steps)[digest])
    ensures digest !in Run(max, idle, steps[..m])
  {
    assert steps[..|steps|] == steps;
    m := BuiltSince(max, idle, steps, 0, |steps|, digest);
  }

  /** After a revocation, a pool that carries the pair was built by a later lookup that missed and brought it again. */
  lemma RevokedStaysOut(max: nat, idle: nat, steps: seq<Step>, i: nat, k: Digest, pair: Pair) returns (m: nat)
    requires i < |steps| && steps[i] == Revokes(pair)
    requires k in Run(max, idle, steps) && Carries(Run(max, idle, steps)[k], pair)
    ensures i < m < |steps| && Builds(steps[m], k, Run(max, idle, steps)[k]) && k !in Run(max, idle, steps[..m])
  {
    assert steps[..|steps|] == steps;
    RunOn(max, idle, steps, i);
    m := BuiltSince(max, idle, steps, i + 1, |steps|, k);
  }

  /**
   A hit leaves the stored credentials as they were. So revoking a pair right after a lookup
   that brought it evicts the pool handed out exactly when the lookup built it, or the one
   that did had brought the pair too.
   */
  lemma RevocationReaches(max: nat, pools: Pools, digest: Digest, credKeys: seq<Pair>, now: nat, pool: nat, pair: Pair)
    requires pair in credKeys
    ensures var after := Looked(pools, max, digest, credKeys, now, Some(pool));
            digest !in Without(after, pair) <==> digest !in pools || Carries(pools[digest], pair)
  {
  }

  /** When `k` was last looked up, if it was. */
  function LastLookup(steps: seq<Step>, k: Digest): Option<nat> {
    if steps == [] then None
    else
      var last := steps[|steps| - 1];
      if last.Looks? && last.digest == k then Some(last.now) else LastLookup(steps[..|steps| - 1], k)
  }

  /** One step stamps the entry it looks up, and no other. */
  lemma StepStamps(max: nat, idle: nat, pools: Pools, step: Step, k: Digest)
    requires k in Do(max, idle, pools, step)
    ensures var used := Do(max, idle, pools, step)[k].lastUsed;
            if step.Looks? && step.digest == k then used == step.now else k in pools && used == pools[k].lastUsed
  {
    if step.Looks? {
      TrimmedKeepsNewest(pools, max);
    }
  }

  /** In every run the last use of an entry is the time of the last lookup of its digest. */
  lemma {:induction false} LastUseIsLastLookup(max: nat, idle: nat, steps: seq<Step>, k: Digest)
    requires k in Run(max, idle, steps)
    ensures LastLookup(steps, k) == Some(Run(max, idle, steps)[k].lastUsed)
    decreases |steps|
  {
    var front, last := steps[..|steps| - 1], steps[|steps| - 1];
    StepStamps(max, idle, Run(max, idle, front), last, k);
    if !(last.Looks? && last.digest == k) {
      LastUseIsLastLookup(max, idle, front, k);
    }
  }

  /** A sweep keeps exactly the pools of digests looked up less than the window ago, or later than its own clock. */
  lemma SweepKeepsRecent(max: nat, idle: nat, steps: seq<Step>, now: nat, k: Digest)
    requires k in Run(max, idle, steps)
    ensures var used := LastLookup(steps, k);
            && used.Some?
            && (k in Run(max, idle, steps + [Sweeps(now)]) <==> idle > 0 && now < used.value + idle)
    ensures k in Run(max, idle, steps + [Sweeps(now)]) ==>
              Run(max, idle, steps + [Sweeps(now)])[k] == Run(max, idle, steps)[k]
  {
    LastUseIsLastLookup(max, idle, steps, k);
    assert (steps + [Sweeps(now)])[..|steps|] == steps;
  }

  /** A sweep, a revocation and a rotation bring nothing in. */
  lemma OnlyLookupsAdd(max: nat, idle: nat, pools: Pools, step: Step, k: Digest)
    requires k in Do(max, idle, pools, step) && k !in pools
    ensures step.Looks? && step.digest == k && step.build.Some?
    ensures Do(max, idle, pools, step)[k] == Entry(step.build.value, step.credKeys, step.now)
  {
    if step.Looks? {
      TrimmedKeepsNewest(pools, max);
    }
  }

  /**
   What a lookup does to the other pools: nothing on a hit or a failed build; on a miss that
   builds, the newest stay, as many as fit beside the new one.
   */
  lemma LookupLeavesOthers(
    max: nat, pools: Pools, digest: Digest, credKeys: seq<Pair>, now: nat, build: Option<nat>)
    ensures var others := Looked(pools, max, digest, credKeys, now, build) - {digest};
            if digest in pools || build.None? then others == pools - {digest} else KeepsNewest(pools, others, max)
  {
    if digest !in pools && build.Some? {
      TrimmedKeepsNewest(pools, max);
      assert Looked(pools, max, digest, credKeys, now, build) - {digest} == Trimmed(pools, max);
    }
  }

  /** Every lookup brings the same credentials, as those of one profile do. */
  predicate AllBring(steps: seq<Step>, keys: seq<Pair>) {
    forall step :: step in steps && step.Looks? ==> step.credKeys == keys
  }

  /** In a registry of one profile, revoking a pair leaves no pool if the profile uses it, and every pool if not. */
  lemma RevocationClears(max: nat, idle: nat, steps: seq<Step>, keys: seq<Pair>, pair: Pair)
    requires AllBring(steps, keys)
    ensures Without(Run(max, idle, steps), pair) == if pair in keys then map[] else Run(max, idle, steps)
  {
    var pools := Run(max, idle, steps);
    forall k | k in pools
      ensures pools[k].credKeys == keys
    {
      var m := HitWasBuiltForDigest(max, idle, steps, k);
      assert steps[m] in steps;
    }
  }
}
