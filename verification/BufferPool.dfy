/** The buffer allocator of src/common/buffer_pool.h. Each critical section is one atomic call. */
module BufferPool {
  import opened Bytes

  datatype PoolConfig = PoolConfig(bufferSize: nat, initialCount: nat, maxCount: nat)

  datatype Bucket = Bucket(config: PoolConfig, buffers: seq<array<byte>>, allocatedCount: nat)

  // ---------- configured sizes ----------

  predicate StrictlySorted(s: seq<nat>) {
    forall i, j :: 0 <= i < j < |s| ==> s[i] < s[j]
  }

  function Insert(x: nat, s: seq<nat>): (r: seq<nat>)
    requires StrictlySorted(s)
    ensures StrictlySorted(r) && forall y :: y in r <==> y == x || y in s
  {
    if s == [] then [x]
    else if x < s[0] then [x] + s
    else if x == s[0] then s
    else
      var r := Insert(x, s[1..]);
      assert forall k :: 0 <= k < |r| ==> r[k] in r && s[0] < r[k];
      [s[0]] + r
  }

  /** `std::sort`, then `erase` of what `std::unique` leaves over. */
  function SortUnique(s: seq<nat>): (r: seq<nat>)
    ensures StrictlySorted(r) && forall y :: y in r <==> y in s
  {
    if s == [] then [] else Insert(s[0], SortUnique(s[1..]))
  }

  /** `std::lower_bound`: the first index whose size is at least `n`. */
  function LowerBound(s: seq<nat>, n: nat): (i: nat)
    requires StrictlySorted(s)
    ensures i <= |s| && forall k :: 0 <= k < |s| ==> (s[k] < n <==> k < i)
  {
    if s == [] || s[0] >= n then 0 else 1 + LowerBound(s[1..], n)
  }

  /** A buffer for `n` bytes has the smallest configured size that is large enough, or exactly `n` bytes when
      no configured size is. */
  ghost predicate BestFit(sizes: seq<nat>, n: nat, length: nat) {
    if exists s :: s in sizes && s >= n then
      length in sizes && length >= n && forall s :: s in sizes && s >= n ==> length <= s
    else
      length == n
  }

  function Sizes(configs: seq<PoolConfig>): (r: seq<nat>)
    ensures |r| == |configs| && forall i :: 0 <= i < |r| ==> r[i] == configs[i].bufferSize
  {
    if configs == [] then [] else Sizes(configs[..|configs| - 1]) + [configs[|configs| - 1].bufferSize]
  }

  lemma SizesSnoc(configs: seq<PoolConfig>, config: PoolConfig)
    ensures Sizes(configs + [config]) == Sizes(configs) + [config.bufferSize]
  {
    assert (configs + [config])[..|configs|] == configs;
  }

  // ---------- the counts of one bucket ----------

  /** Free buffers, pooled buffers in use, and the fields `allocated_count` and `max_count`. */
  datatype Counts = Counts(free: nat, used: nat, count: nat, max: nat)

  datatype Op = Take(memory: bool) | GiveBack

  function Apply(c: Counts, op: Op): Counts {
    match op
    case Take(memory) =>
      if c.free > 0 then c.(free := c.free - 1, used := c.used + 1)
      else if c.count < c.max && memory then c.(used := c.used + 1, count := c.count + 1)
      else c
    case GiveBack =>
      if c.used == 0 then c
      else if c.free < c.max then c.(free := c.free + 1, used := c.used - 1)
      else if c.count > 0 then c.(used := c.used - 1, count := c.count - 1)
      else c
  }

  function Run(c: Counts, ops: seq<Op>): Counts
    decreases |ops|
  {
    if ops == [] then c else Run(Apply(c, ops[0]), ops[1..])
  }

  function Start(initial: nat, max: nat): Counts {
    Counts(initial, 0, initial, max)
  }

  /** Returning a buffer now would delete it. */
  predicate WouldOverflow(c: Counts) {
    c.used > 0 && c.free >= c.max
  }

  predicate Conserved(c: Counts, initial: nat) {
    && c.free + c.used == c.count
    && (c.count <= c.max || c.count <= initial)
  }

  lemma {:induction false} RunConserved(c: Counts, ops: seq<Op>, initial: nat)
    requires Conserved(c, initial)
    ensures Conserved(Run(c, ops), initial) && Run(c, ops).max == c.max
    decreases |ops|
  {
    if ops != [] {
      RunConserved(Apply(c, ops[0]), ops[1..], initial);
    }
  }

  /** `Return` can meet a full bucket exactly when more buffers were preallocated than the bucket's maximum. */
  lemma OverflowIff(initial: nat, max: nat)
    ensures (exists ops :: WouldOverflow(Run(Start(initial, max), ops))) <==> initial > max
  {
    forall ops | initial <= max ensures !WouldOverflow(Run(Start(initial, max), ops)) {
      RunConserved(Start(initial, max), ops, initial);
    }
    if initial > max {
      var ops := [Take(true)];
      assert Run(Start(initial, max), ops) == Run(Apply(Start(initial, max), Take(true)), []);
      assert WouldOverflow(Run(Start(initial, max), ops));
    }
  }

  // ---------- the configuration ----------

  /** Buffers preallocated for a size: every entry for it preallocates. */
  function InitialOf(configs: seq<PoolConfig>, size: nat): nat {
    if configs == [] then 0
    else
      var last := configs[|configs| - 1];
      InitialOf(configs[..|configs| - 1], size) + if last.bufferSize == size then last.initialCount else 0
  }

  /** The maximum for a size: the last entry for it decides. */
  function MaxOf(configs: seq<PoolConfig>, size: nat): nat {
    if configs == [] then 0
    else
      var last := configs[|configs| - 1];
      if last.bufferSize == size then last.maxCount else MaxOf(configs[..|configs| - 1], size)
  }

  // ---------- one bucket and the buffers taken from it ----------

  predicate NoDuplicates<T(==)>(s: seq<T>) {
    forall i, j :: 0 <= i < j < |s| ==> s[i] != s[j]
  }

  /** No buffer is free twice, none is both free and in use, and each has the bucket's size. As sizes differ
      from bucket to bucket, no buffer belongs to two buckets. */
  ghost predicate BucketOk(size: nat, b: Bucket, used: set<array<byte>>) {
    && b.config.bufferSize == size
    && NoDuplicates(b.buffers)
    && (forall x :: x in b.buffers ==> x.Length == size && x !in used)
    && (forall x :: x in used ==> x.Length == size)
  }

  ghost function CountsOf(b: Bucket, used: set<array<byte>>): Counts {
    Counts(|b.buffers|, |used|, b.allocatedCount, b.config.maxCount)
  }

  ghost predicate EntryOk(size: nat, b: Bucket, used: set<array<byte>>, initial: nat, max: nat) {
    && BucketOk(size, b, used)
    && Conserved(CountsOf(b, used), initial)
    && b.config.maxCount == max
  }

  type Buckets = map<nat, Bucket>
  type Held = map<nat, set<array<byte>>>

  ghost predicate TableOk(buckets: Buckets, held: Held, configs: seq<PoolConfig>) {
    && held.Keys == buckets.Keys
    && forall s :: s in buckets ==> EntryOk(s, buckets[s], held[s], InitialOf(configs, s), MaxOf(configs, s))
  }

  lemma TableUpdate(buckets: Buckets, held: Held, configs: seq<PoolConfig>, size: nat, b: Bucket, used: set<array<byte>>)
    requires TableOk(buckets, held, configs) && size in buckets
    requires EntryOk(size, b, used, InitialOf(configs, size), MaxOf(configs, size))
    ensures TableOk(buckets[size := b], held[size := used], configs)
  {
    hide EntryOk;
  }

  /** `buffer` has been taken from the bucket for `size`, and every other bucket is as before. */
  ghost predicate Took(b: Buckets, held: Held, b': Buckets, held': Held, size: nat, buffer: array<byte>, memory: bool) {
    && size in b && size in held && size in b'
    && buffer.Length == size && buffer !in held[size]
    && held' == held[size := held[size] + {buffer}]
    && b' == b[size := b'[size]]
    && CountsOf(b'[size], held'[size]) == Apply(CountsOf(b[size], held[size]), Take(memory))
    && (b[size].buffers != [] ==> b[size].buffers == b'[size].buffers + [buffer])
  }

  lemma EntryOf(buckets: Buckets, held: Held, configs: seq<PoolConfig>, size: nat)
    requires TableOk(buckets, held, configs) && size in buckets
    ensures size in held
    ensures EntryOk(size, buckets[size], held[size], InitialOf(configs, size), MaxOf(configs, size))
    ensures buckets[size].config.maxCount == MaxOf(configs, size)
  {
  }

  lemma LowerBoundFits(sizes: seq<nat>, n: nat)
    requires StrictlySorted(sizes)
    ensures var i := LowerBound(sizes, n); BestFit(sizes, n, if i == |sizes| then n else sizes[i])
  {
    var i := LowerBound(sizes, n);
    if i < |sizes| {
      assert sizes[i] in sizes;
      forall s | s in sizes && s >= n ensures sizes[i] <= s {
        var k :| 0 <= k < |sizes| && sizes[k] == s;
      }
    }
  }

  /** A free buffer is taken from the back. */
  lemma TakeFree(size: nat, b: Bucket, used: set<array<byte>>, initial: nat, max: nat, memory: bool)
    requires EntryOk(size, b, used, initial, max) && b.buffers != []
    ensures var last := |b.buffers| - 1;
            var b', used' := b.(buffers := b.buffers[..last]), used + {b.buffers[last]};
            && EntryOk(size, b', used', initial, max)
            && b.buffers[last] !in used && b.buffers[last].Length == size
            && CountsOf(b', used') == Apply(CountsOf(b, used), Take(memory))
  {
    var last := |b.buffers| - 1;
    assert b.buffers[last] in b.buffers;
    forall x | x in b.buffers[..last] ensures x in b.buffers && x != b.buffers[last] {
    }
  }

  /** The bucket grows by a buffer that was neither free nor in use. */
  lemma TakeNew(size: nat, b: Bucket, used: set<array<byte>>, initial: nat, max: nat, buffer: array<byte>)
    requires EntryOk(size, b, used, initial, max) && b.buffers == [] && b.allocatedCount < max
    requires buffer !in used && buffer.Length == size
    ensures var b', used' := b.(allocatedCount := b.allocatedCount + 1), used + {buffer};
            && EntryOk(size, b', used', initial, max)
            && CountsOf(b', used') == Apply(CountsOf(b, used), Take(true))
  {
  }

  /** A buffer comes back. */
  lemma GiveBackOk(size: nat, b: Bucket, used: set<array<byte>>, initial: nat, max: nat, buffer: array<byte>)
    requires EntryOk(size, b, used, initial, max) && buffer in used
    ensures var b' := if |b.buffers| < max then b.(buffers := b.buffers + [buffer])
                      else b.(allocatedCount := b.allocatedCount - 1);
            && EntryOk(size, b', used - {buffer}, initial, max)
            && CountsOf(b', used - {buffer}) == Apply(CountsOf(b, used), GiveBack)
            && (initial <= max ==> |b.buffers| < max)
  {
    assert used == used - {buffer} + {buffer};
    assert |used| == |used - {buffer}| + 1;
  }

  /** Preallocated, nothing taken. */
  ghost predicate Filled(buckets: Buckets, held: Held, configs: seq<PoolConfig>) {
    && held.Keys == buckets.Keys
    && (forall s :: s in buckets ==>
          && BucketOk(s, buckets[s], {}) && held[s] == {}
          && CountsOf(buckets[s], {}) == Start(InitialOf(configs, s), MaxOf(configs, s)))
    && forall s :: s !in buckets ==> InitialOf(configs, s) == 0
  }

  lemma FilledSnoc(buckets: Buckets, held: Held, configs: seq<PoolConfig>, config: PoolConfig, b: Bucket)
    requires Filled(buckets, held, configs)
    requires b.config == config && BucketOk(config.bufferSize, b, {})
    requires var had := if config.bufferSize in buckets then buckets[config.bufferSize].allocatedCount else 0;
             |b.buffers| == had + config.initialCount == b.allocatedCount
    ensures Filled(buckets[config.bufferSize := b], held[config.bufferSize := {}], configs + [config])
  {
    assert (configs + [config])[..|configs|] == configs;
    forall s | s != config.bufferSize
      ensures InitialOf(configs + [config], s) == InitialOf(configs, s)
      ensures MaxOf(configs + [config], s) == MaxOf(configs, s)
    {
    }
  }

  lemma FilledOk(buckets: Buckets, held: Held, configs: seq<PoolConfig>)
    requires Filled(buckets, held, configs)
    ensures TableOk(buckets, held, configs)
  {
  }

  class BufferPool {
    var buckets: Buckets
    var bucketSizes: seq<nat>
    ghost const configs: seq<PoolConfig>
    ghost var held: Held

    ghost predicate Valid()
      reads this
    {
      && StrictlySorted(bucketSizes)
      && (forall s :: s in bucketSizes <==> s in buckets)
      && TableOk(buckets, held, configs)
    }

    constructor (configs: seq<PoolConfig>)
      ensures Valid() && this.configs == configs
      ensures forall s :: s in bucketSizes <==> s in Sizes(configs)
      ensures Filled(buckets, held, configs)
    {
      this.configs := configs;
      buckets := map[];
      bucketSizes := [];
      held := map[];
      new;
      assert Filled(buckets, held, []);
      hide TableOk, Filled, Sizes, BucketOk, EntryOk, InitialOf, MaxOf;
      var i := 0;
      while i < |configs|
        invariant 0 <= i <= |configs|
        invariant bucketSizes == Sizes(configs[..i])
        invariant forall s :: s in bucketSizes <==> s in buckets
        invariant Filled(buckets, held, configs[..i])
      {
        assert configs[..i + 1] == configs[..i] + [configs[i]];
        SizesSnoc(configs[..i], configs[i]);
        buckets := AddBucket(buckets, held, configs[..i], configs[i]);
        held := held[configs[i].bufferSize := {}];
        bucketSizes := bucketSizes + [configs[i].bufferSize];
        i := i + 1;
      }
      assert configs[..i] == configs;
      FilledOk(buckets, held, configs);
      bucketSizes := SortUnique(bucketSizes);
    }

    static method AddBucket(buckets: Buckets, ghost held: Held, ghost done: seq<PoolConfig>, config: PoolConfig)
      returns (r: Buckets)
      requires Filled(buckets, held, done)
      ensures Filled(r, held[config.bufferSize := {}], done + [config])
      ensures r.Keys == buckets.Keys + {config.bufferSize}
    {
      var b := if config.bufferSize in buckets then buckets[config.bufferSize].(config := config) else Bucket(config, [], 0);
      ghost var had := b.allocatedCount;
      var i := 0;
      while i < config.initialCount
        invariant 0 <= i <= config.initialCount
        invariant BucketOk(config.bufferSize, b, {}) && b.config == config
        invariant |b.buffers| == had + i == b.allocatedCount
      {
        var buffer := new byte[config.bufferSize];
        b := b.(buffers := b.buffers + [buffer], allocatedCount := b.allocatedCount + 1);
        i := i + 1;
      }
      FilledSnoc(buckets, held, done, config, b);
      r := buckets[config.bufferSize := b];
    }

    /** `memory` says whether allocating a new array would succeed; the result is null when it throws.
        `home` is the bucket the buffer's deleter will return it to, if any. */
    method Get(size: nat, memory: bool) returns (buffer: array?<byte>, home: Option<nat>)
      requires Valid()
      modifies this
      ensures Valid() && bucketSizes == old(bucketSizes)
      ensures buffer != null ==> BestFit(bucketSizes, size, buffer.Length)
      ensures buffer == null ==> !memory
      ensures buffer != null ==>
                var s := buffer.Length;
                home.Some? <==> s in old(buckets) && (old(buckets)[s].buffers != [] ||
                                                      old(buckets)[s].allocatedCount < old(buckets)[s].config.maxCount)
      ensures home.None? ==> unchanged(this) && (buffer != null ==> fresh(buffer))
      ensures home.Some? ==>
                && buffer != null
                && Took(old(buckets), old(held), buckets, held, home.value, buffer, memory)
                && (buffer in old(buckets)[home.value].buffers || fresh(buffer))
    {
      hide TableOk, EntryOk, BucketOk, Conserved, BestFit, LowerBound, CountsOf, InitialOf, MaxOf;
      buffer, home := null, None;
      LowerBoundFits(bucketSizes, size);
      var it := LowerBound(bucketSizes, size);
      if it == |bucketSizes| {
        if memory {
          buffer := new byte[size];
        }
        return;
      }
      var bucketSize := bucketSizes[it];
      var bucket := buckets[bucketSize];
      EntryOf(buckets, held, configs, bucketSize);
      ghost var initial, max := InitialOf(configs, bucketSize), MaxOf(configs, bucketSize);
      if bucket.buffers != [] {
        var last := |bucket.buffers| - 1;
        TakeFree(bucketSize, bucket, held[bucketSize], initial, max, memory);
        buffer := bucket.buffers[last];
        TableUpdate(buckets, held, configs, bucketSize, bucket.(buffers := bucket.buffers[..last]), held[bucketSize] + {buffer});
        buckets := buckets[bucketSize := bucket.(buffers := bucket.buffers[..last])];
        held := held[bucketSize := held[bucketSize] + {buffer}];
        home := Some(bucketSize);
        return;
      }
      if bucket.allocatedCount < bucket.config.maxCount {
        if memory {
          buffer := new byte[bucketSize];
          TakeNew(bucketSize, bucket, held[bucketSize], initial, max, buffer);
          TableUpdate(buckets, held, configs, bucketSize, bucket.(allocatedCount := bucket.allocatedCount + 1), held[bucketSize] + {buffer});
          buckets := buckets[bucketSize := bucket.(allocatedCount := bucket.allocatedCount + 1)];
          held := held[bucketSize := held[bucketSize] + {buffer}];
          home := Some(bucketSize);
        }
        return;
      }
      if memory {
        buffer := new byte[bucketSize];
      }
    }

    /** Run by the deleter of a buffer that `Get` handed out with a home. */
    method Return(bucketSize: nat, buffer: array<byte>)
      requires Valid()
      requires bucketSize in held ==> buffer in held[bucketSize]
      modifies this
      ensures Valid() && bucketSizes == old(bucketSizes)
      ensures bucketSize !in old(buckets) ==> unchanged(this)
      ensures bucketSize in old(buckets) ==>
                && bucketSize in buckets
                && held == old(held)[bucketSize := old(held)[bucketSize] - {buffer}]
                && buckets == old(buckets)[bucketSize := buckets[bucketSize]]
                && CountsOf(buckets[bucketSize], held[bucketSize])
                     == Apply(CountsOf(old(buckets)[bucketSize], old(held)[bucketSize]), GiveBack)
                && (InitialOf(configs, bucketSize) <= MaxOf(configs, bucketSize) ==>
                      buckets[bucketSize].buffers == old(buckets)[bucketSize].buffers + [buffer])
    {
      if bucketSize !in buckets {
        return;
      }
      var bucket := buckets[bucketSize];
      GiveBackOk(bucketSize, bucket, held[bucketSize], InitialOf(configs, bucketSize), MaxOf(configs, bucketSize), buffer);
      if |bucket.buffers| < bucket.config.maxCount {
        bucket := bucket.(buffers := bucket.buffers + [buffer]);
      } else {
        bucket := bucket.(allocatedCount := bucket.allocatedCount - 1);
      }
      TableUpdate(buckets, held, configs, bucketSize, bucket, held[bucketSize] - {buffer});
      buckets := buckets[bucketSize := bucket];
      held := held[bucketSize := held[bucketSize] - {buffer}];
    }
  }
}
