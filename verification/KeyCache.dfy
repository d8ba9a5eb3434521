/** The cache of known keys, a map in 1024 shards (uploader/cmap.go). */
module KeyCache {
  import opened ByteStrings
  import opened Varint

  const SHARD_COUNT := 1024

  /** Products wrap around. */
  function Mixed(hash: bv32, c: byte): bv32
  {
    (hash * 16777619) ^ (c as bv32)
  }

  /** The 32-bit hash after the bytes from `i` on. */
  function Fnv32From(key: bytes, i: nat, hash: bv32): bv32
    requires i <= |key|
    decreases |key| - i
  {
    if i == |key| then hash else Fnv32From(key, i + 1, Mixed(hash, key[i]))
  }

  method Fnv32(key: bytes) returns (hash: bv32)
    ensures hash == Fnv32From(key, 0, 2166136261)
  {
    hide Mixed;
    hash := 2166136261;
    for i := 0 to |key|
      invariant Fnv32From(key, i, hash) == Fnv32From(key, 0, 2166136261)
    {
      hash := Mixed(hash, key[i]);
    }
  }

  /** The 32-bit FNV-1 hashes of nothing and of `a`. */
  lemma KnownHashes()
    ensures Fnv32From([], 0, 2166136261) == 0x811c9dc5 && Fnv32From([97], 0, 2166136261) == 0x050c5d7e
  {
    assert Fnv32From([97], 0, 2166136261) == Fnv32From([97], 1, Mixed(2166136261, 97)) == Mixed(2166136261, 97);
  }

  function ShardOf(key: bytes): (i: nat)
    ensures i < SHARD_COUNT
  {
    (Fnv32From(key, 0, 2166136261) as nat) % SHARD_COUNT
  }

  /** The entries of one map that belong to a shard before `n`. */
  ghost function Below(m: map<bytes, int64>, n: nat): map<bytes, int64>
  {
    map k | k in m && ShardOf(k) < n :: m[k]
  }

  ghost function InShard(m: map<bytes, int64>, i: nat): map<bytes, int64>
  {
    map k | k in m && ShardOf(k) == i :: m[k]
  }

  ghost function Kept(m: map<bytes, int64>, deadline: int64): map<bytes, int64>
  {
    map k | k in m && m[k] >= deadline :: m[k]
  }

  lemma BelowStep(m: map<bytes, int64>, n: nat)
    ensures |Below(m, n + 1)| == |Below(m, n)| + |InShard(m, n)|
  {
    hide ShardOf;
    var a, b := Below(m, n), InShard(m, n);
    assert Below(m, n + 1).Keys == a.Keys + b.Keys;
    assert a.Keys !! b.Keys;
    assert |a.Keys + b.Keys| == |a.Keys| + |b.Keys|;
    assert |Below(m, n + 1)| == |Below(m, n + 1).Keys| && |a| == |a.Keys| && |b| == |b.Keys|;
  }

  class CMap {
    const shards: array<map<bytes, int64>>
    /** The map that the shards make up. */
    ghost var all: map<bytes, int64>

    ghost predicate Valid()
      reads this, shards
    {
      shards.Length == SHARD_COUNT && forall i | 0 <= i < SHARD_COUNT :: shards[i] == InShard(all, i)
    }

    constructor ()
      ensures Valid() && fresh(shards) && all == map[]
    {
      shards := new map<bytes, int64>[SHARD_COUNT](_ => map[]);
      all := map[];
    }

    method GetShard(key: bytes) returns (i: nat)
      requires Valid()
      ensures i == ShardOf(key)
    {
      var hash := Fnv32(key);
      i := (hash as nat) % SHARD_COUNT;
    }

    method Exists(key: bytes) returns (ok: bool)
      requires Valid()
      ensures ok <==> key in all
    {
      hide Fnv32From;
      var i := GetShard(key);
      ok := key in shards[i];
    }

    method Add(key: bytes, value: int64)
      requires Valid()
      modifies this, shards
      ensures Valid() && all == old(all)[key := value]
    {
      hide ShardOf;
      var i := GetShard(key);
      shards[i] := shards[i][key := value];
      all := all[key := value];
      AddInShard(old(all), key, value);
    }

    method Merge(keys: set<bytes>, value: int64)
      requires Valid()
      modifies this, shards
      ensures Valid() && all == old(all) + map k | k in keys :: value
    {
      var left := keys;
      while left != {}
        invariant Valid() && left <= keys
        invariant all == old(all) + map k | k in keys - left :: value
        decreases left
      {
        var key :| key in left;
        Add(key, value);
        left := left - {key};
      }
    }

    /** The sum of the shards' sizes is the number of keys. */
    method Count() returns (count: nat)
      requires Valid()
      ensures count == |all|
    {
      hide ShardOf, Below, InShard;
      count := 0;
      BelowNone(all);
      for i := 0 to SHARD_COUNT
        invariant count == |Below(all, i)|
      {
        BelowStep(all, i);
        count := count + |shards[i]|;
      }
      BelowAll(all);
    }

    /** Counts nothing. */
    method Clear() returns (count: nat)
      requires Valid()
      modifies this, shards
      ensures Valid() && all == map[] && count == 0
    {
      hide ShardOf;
      count := 0;
      for i := 0 to SHARD_COUNT
        invariant shards.Length == SHARD_COUNT && forall j | 0 <= j < i :: shards[j] == map[]
      {
        shards[i] := map[];
      }
      all := map[];
    }

    /** Removes the entries older than the deadline, and finds the oldest of the others. */
    method Expire(deadline: int64, now: int64) returns (count: nat, oldest: int64)
      requires Valid()
      modifies this, shards
      ensures Valid() && all == Kept(old(all), deadline)
      ensures count == |old(all)| - |all|
      ensures IsOldest(oldest, now, all)
    {
      hide ShardOf, Below, InShard, Kept;
      ghost var was, kept := all, Kept(all, deadline);
      count, oldest := 0, now;
      BelowNone(was);
      BelowNone(kept);
      for i := 0 to SHARD_COUNT
        invariant shards.Length == SHARD_COUNT && all == was
        invariant forall j | 0 <= j < i :: shards[j] == InShard(kept, j)
        invariant forall j | i <= j < SHARD_COUNT :: shards[j] == InShard(was, j)
        invariant count == |Below(was, i)| - |Below(kept, i)|
        invariant IsOldest(oldest, now, Below(kept, i))
      {
        var c, o, left := ExpireShard(shards[i], deadline, oldest);
        BelowStep(was, i);
        BelowStep(kept, i);
        KeptInShard(was, i, deadline);
        OldestStep(oldest, o, now, kept, i);
        shards[i] := left;
        count := count + c;
        oldest := o;
      }
      all := kept;
      BelowAll(was);
      BelowAll(kept);
    }
  }

  /** The least of the values, or `now` if that is less. */
  ghost predicate IsOldest(oldest: int64, now: int64, m: map<bytes, int64>)
  {
    && oldest <= now && (forall k | k in m :: oldest <= m[k])
    && (oldest == now || exists k | k in m :: m[k] == oldest)
  }

  lemma OldestStep(before: int64, after: int64, now: int64, m: map<bytes, int64>, i: nat)
    requires IsOldest(before, now, Below(m, i)) && IsOldest(after, before, InShard(m, i))
    ensures IsOldest(after, now, Below(m, i + 1))
  {
    hide ShardOf;
    if after != now {
      if after == before {
        var k :| k in Below(m, i) && Below(m, i)[k] == before;
        assert k in Below(m, i + 1);
      } else {
        var k :| k in InShard(m, i) && InShard(m, i)[k] == after;
        assert k in Below(m, i + 1);
      }
    }
  }

  lemma BelowNone(m: map<bytes, int64>)
    ensures Below(m, 0) == map[]
  {
    hide ShardOf;
  }

  lemma BelowAll(m: map<bytes, int64>)
    ensures Below(m, SHARD_COUNT) == m
  {
    hide Fnv32From;
  }

  lemma KeptInShard(m: map<bytes, int64>, i: nat, deadline: int64)
    ensures Kept(InShard(m, i), deadline) == InShard(Kept(m, deadline), i)
  {
    hide ShardOf;
  }

  lemma AddInShard(m: map<bytes, int64>, key: bytes, value: int64)
    ensures forall i | 0 <= i < SHARD_COUNT ::
              InShard(m[key := value], i) == if i == ShardOf(key) then InShard(m, i)[key := value] else InShard(m, i)
  {
    hide ShardOf;
  }

  /** One shard, under its lock. */
  method ExpireShard(items: map<bytes, int64>, deadline: int64, min: int64)
      returns (count: nat, oldest: int64, kept: map<bytes, int64>)
    ensures kept == Kept(items, deadline) && count == |items| - |kept|
    ensures IsOldest(oldest, min, kept)
  {
    kept, count, oldest := items, 0, min;
    var left := items.Keys;
    while left != {}
      invariant left <= items.Keys && kept.Keys <= items.Keys && (forall k | k in kept :: kept[k] == items[k])
      invariant forall k | k in items :: k in kept <==> k in left || items[k] >= deadline
      invariant count == |items| - |kept|
      invariant oldest <= min && forall k | k in kept && k !in left :: oldest <= items[k]
      invariant oldest == min || exists k | k in kept && k !in left :: items[k] == oldest
      decreases left
    {
      var k :| k in left;
      left := left - {k};
      if items[k] < deadline {
        ghost var before := kept;
        kept := kept - {k};
        assert before.Keys == kept.Keys + {k};
        count := count + 1;
      } else if items[k] < oldest {
        oldest := items[k];
      }
    }
  }
}
