/**
 * pkg/storage/store.go: a memory map in front of a bolt bucket. Bolt's
 * transactions and the serializer are abstract; a transaction commits or leaves
 * the bucket as it was.
 */
module Storages {
  import opened PoolTypes

  type Data = seq<bv8>

  // ----- the two maps as values -----

  /** What the program sees and what is on the disk. */
  datatype Maps<V> = Maps(store: map<string, V>, bucket: map<string, Data>)

  datatype StoreOp<V> =
    | PutOp(key: string, value: V, committed: bool)
    | DeleteOp(key: string, committed: bool)

  datatype Codec<!V> = Codec(serializer: V -> Option<Data>, deserializer: Data -> Option<V>)

  ghost predicate RoundTrip<V(!new)>(c: Codec<V>) {
    forall v: V :: c.serializer(v).Some? ==> c.deserializer(c.serializer(v).value) == Some(v)
  }

  /** The bucket decoded, or None where some entry cannot be. */
  ghost function Decoded<V>(c: Codec<V>, bucket: map<string, Data>): (r: Option<map<string, V>>) {
    if forall k | k in bucket :: c.deserializer(bucket[k]).Some?
    then Some(map k | k in bucket :: c.deserializer(bucket[k]).value)
    else None
  }

  ghost predicate Coherent<V>(c: Codec<V>, m: Maps<V>) {
    Decoded(c, m.bucket) == Some(m.store)
  }

  /** An operation that is not committed, or whose value cannot be encoded, changes nothing. */
  function ApplyOp<V>(c: Codec<V>, m: Maps<V>, op: StoreOp<V>): (r: Maps<V>) {
    match op
    case PutOp(k, v, committed) =>
      if committed && c.serializer(v).Some?
      then Maps(m.store[k := v], m.bucket[k := c.serializer(v).value]) else m
    case DeleteOp(k, committed) =>
      if committed then Maps(m.store - {k}, m.bucket - {k}) else m
  }

  function ApplyOps<V>(c: Codec<V>, m: Maps<V>, ops: seq<StoreOp<V>>): (r: Maps<V>) {
    if ops == [] then m
    else ApplyOp(c, ApplyOps(c, m, ops[..|ops| - 1]), ops[|ops| - 1])
  }

  lemma OpKeepsCoherence<V(!new)>(c: Codec<V>, m: Maps<V>, op: StoreOp<V>)
    requires RoundTrip(c) && Coherent(c, m)
    ensures Coherent(c, ApplyOp(c, m, op))
  {
    var r := ApplyOp(c, m, op);
    assert m.store.Keys == m.bucket.Keys;
    forall k | k in r.bucket
      ensures c.deserializer(r.bucket[k]).Some? && k in r.store && c.deserializer(r.bucket[k]).value == r.store[k]
    {
      assert k in m.bucket ==> c.deserializer(m.bucket[k]) == Some(m.store[k]);
    }
    assert r.store.Keys == r.bucket.Keys;
    assert Decoded(c, r.bucket).Some? && Decoded(c, r.bucket).value == r.store;
  }

  /**
   * Over any serial run of Put and Delete with transactions that may fail the
   * memory map is the decoded disk map, so a load after a restart, which sees
   * the bucket alone, rebuilds the map the program had.
   */
  lemma {:induction false} RunKeepsCoherence<V(!new)>(c: Codec<V>, m: Maps<V>, ops: seq<StoreOp<V>>)
    requires RoundTrip(c) && Coherent(c, m)
    ensures Decoded(c, ApplyOps(c, m, ops).bucket) == Some(ApplyOps(c, m, ops).store)
  {
    if ops != [] {
      var n := |ops| - 1;
      RunKeepsCoherence(c, m, ops[..n]);
      OpKeepsCoherence(c, ApplyOps(c, m, ops[..n]), ops[n]);
    }
  }

  /** Coherence needs the round trip: one value that does not survive it is enough to lose coherence. */
  lemma RoundTripIsNeeded<V(!new)>(c: Codec<V>, m: Maps<V>, key: string, v: V)
    requires Coherent(c, m) && c.serializer(v).Some?
    ensures Coherent(c, ApplyOp(c, m, PutOp(key, v, true))) <==> c.deserializer(c.serializer(v).value) == Some(v)
  {
    var r := ApplyOp(c, m, PutOp(key, v, true));
    assert m.store.Keys == m.bucket.Keys;
    assert forall k | k in m.bucket :: c.deserializer(m.bucket[k]) == Some(m.store[k]);
    assert Coherent(c, r) ==> c.deserializer(r.bucket[key]) == Some(r.store[key]);
    if c.deserializer(c.serializer(v).value) == Some(v) {
      forall k | k in r.bucket
        ensures c.deserializer(r.bucket[k]) == Some(r.store[k])
      {
      }
      assert Decoded(c, r.bucket).value == r.store;
    }
  }

  // ----- the classes -----

  /** A bolt database with the one bucket the daemon uses. */
  class Bolt {
    var created: bool
    var bucket: map<string, Data>
    var faults: nat

    constructor ()
      ensures !created && bucket == map[]
    {
      created := false;
      bucket := map[];
      faults := *;
    }

    /** Does this transaction commit? */
    method Commits() returns (ok: bool)
      modifies this`faults
      ensures if ok then faults == old(faults) else faults < old(faults)
    {
      var fail: bool := *;
      if fail && faults > 0 {
        faults := faults - 1;
        return false;
      }
      return true;
    }

    method CreateBucketIfNotExists() returns (ok: bool)
      modifies this`created, this`faults
      ensures ok ==> created && faults == old(faults)
      ensures !ok ==> created == old(created) && faults < old(faults)
    {
      ok := Commits();
      if ok {
        created := true;
      }
    }

    method Put(key: string, data: Data) returns (ok: bool)
      requires created
      modifies this`bucket, this`faults
      ensures bucket == if ok then old(bucket)[key := data] else old(bucket)
      ensures if ok then faults == old(faults) else faults < old(faults)
    {
      ok := Commits();
      if ok {
        bucket := bucket[key := data];
      }
    }

    method Delete(key: string) returns (ok: bool)
      requires created
      modifies this`bucket, this`faults
      ensures bucket == if ok then old(bucket) - {key} else old(bucket)
      ensures if ok then faults == old(faults) else faults < old(faults)
    {
      ok := Commits();
      if ok {
        bucket := bucket - {key};
      }
    }
  }

  class MemoryStorage<V> {
    var store: map<string, V>

    constructor ()
      ensures store == map[]
    {
      store := map[];
    }

    method Put(key: string, value: V)
      modifies this
      ensures store == old(store)[key := value]
    {
      store := store[key := value];
    }

    method Get(key: string) returns (r: Result<V>)
      ensures r == if key in store then Ok(store[key]) else Err(NotFound)
    {
      if key !in store {
        return Err(NotFound);
      }
      return Ok(store[key]);
    }

    /** The values, in no particular order. */
    method List() returns (values: seq<V>, ghost keys: seq<string>)
      ensures |keys| == |values|
      ensures forall i | 0 <= i < |keys| :: keys[i] in store && values[i] == store[keys[i]]
      ensures forall i, j | 0 <= i < j < |keys| :: keys[i] != keys[j]
      ensures forall k | k in store :: k in keys
      ensures |values| == |store| && forall k | k in store :: store[k] in values
    {
      values, keys := [], [];
      var left := store.Keys;
      while left != {}
        invariant left <= store.Keys && |keys| == |values| && |values| + |left| == |store|
        invariant forall i | 0 <= i < |keys| :: keys[i] in store && keys[i] !in left && values[i] == store[keys[i]]
        invariant forall i, j | 0 <= i < j < |keys| :: keys[i] != keys[j]
        invariant forall k | k in store && k !in left :: k in keys
        decreases left
      {
        var k :| k in left;
        values := values + [store[k]];
        keys := keys + [k];
        left := left - {k};
      }
      forall k | k in store
        ensures store[k] in values
      {
        var i :| 0 <= i < |keys| && keys[i] == k;
        assert values[i] == store[k];
      }
    }

    method Delete(key: string)
      modifies this
      ensures store == old(store) - {key}
    {
      store := store - {key};
    }
  }

  class DiskStorage<V(!new)> {
    const db: Bolt
    const memory: MemoryStorage<V>
    const codec: Codec<V>

    ghost predicate Valid()
      reads this, db, memory
    {
      db.created && Coherent(codec, View())
    }

    ghost function View(): (r: Maps<V>)
      reads this, db, memory
    {
      Maps(memory.store, db.bucket)
    }

    constructor Open(db: Bolt, codec: Codec<V>)
      ensures this.db == db && this.codec == codec && fresh(memory) && memory.store == map[]
    {
      this.db := db;
      this.codec := codec;
      memory := new MemoryStorage();
    }

    /** NewDiskStorage: open and load. It succeeds exactly when the bucket can be read and decoded. */
    static method NewDiskStorage(db: Bolt, codec: Codec<V>) returns (r: Result<DiskStorage<V>>)
      modifies db`created, db`faults
      ensures r.Ok? ==>
                fresh(r.value) && fresh(r.value.memory) && r.value.db == db && r.value.codec == codec
                && r.value.Valid() && Decoded(codec, db.bucket) == Some(r.value.memory.store)
      ensures old(db.faults) == 0 ==> (r.Ok? <==> Decoded(codec, db.bucket).Some?)
      ensures r.Err? ==> Decoded(codec, db.bucket).None? || db.faults < old(db.faults)
    {
      var disk := new DiskStorage<V>.Open(db, codec);
      var loaded := disk.Load();
      if loaded.Err? {
        return Err(loaded.error);
      }
      return Ok(disk);
    }

    /** load: decode every entry the cursor shows into the empty memory map. */
    method Load() returns (r: Result<()>)
      requires memory.store == map[]
      modifies db`created, db`faults, memory
      ensures r.Ok? ==> Valid()
      ensures old(db.faults) == 0 ==> (r.Ok? <==> Decoded(codec, db.bucket).Some?)
      ensures r.Err? ==> Decoded(codec, db.bucket).None? || db.faults < old(db.faults)
    {
      var ok := db.CreateBucketIfNotExists();
      if !ok {
        return Err(StoreFailed);
      }
      ok := db.Commits();
      if !ok {
        return Err(StoreFailed);
      }
      var left := db.bucket.Keys;
      while left != {}
        invariant left <= db.bucket.Keys
        invariant memory.store.Keys == db.bucket.Keys - left
        invariant forall k | k in memory.store :: codec.deserializer(db.bucket[k]) == Some(memory.store[k])
        modifies memory
        decreases left
      {
        var k :| k in left;
        var obj := codec.deserializer(db.bucket[k]);
        if obj.None? {
          return Err(StoreFailed);
        }
        memory.Put(k, obj.value);
        left := left - {k};
      }
      assert Decoded(codec, db.bucket).Some? && Decoded(codec, db.bucket).value == memory.store;
      return Ok(());
    }

    /**
     * Put: the disk first, the memory only if the disk took it. It fails only
     * on a value that cannot be encoded and a transaction that does not commit.
     */
    method Put(key: string, value: V) returns (r: Result<()>)
      requires Valid() && RoundTrip(codec)
      modifies db`bucket, db`faults, memory
      ensures Valid() && View() == ApplyOp(codec, old(View()), PutOp(key, value, r.Ok?))
      ensures old(db.faults) == 0 ==> (r.Ok? <==> codec.serializer(value).Some?)
      ensures r.Ok? ==>
                codec.serializer(value).Some?
                && db.bucket == old(db.bucket)[key := codec.serializer(value).value]
                && memory.store == old(memory.store)[key := value]
      ensures r.Err? ==>
                r == Err(StoreFailed) && View() == old(View())
                && (codec.serializer(value).None? || db.faults < old(db.faults))
    {
      OpKeepsCoherence(codec, View(), PutOp(key, value, true));
      var data := codec.serializer(value);
      if data.None? {
        return Err(StoreFailed);
      }
      var ok := db.Put(key, data.value);
      if !ok {
        return Err(StoreFailed);
      }
      memory.Put(key, value);
      return Ok(());
    }

    method Get(key: string) returns (r: Result<V>)
      ensures r == if key in memory.store then Ok(memory.store[key]) else Err(NotFound)
    {
      r := memory.Get(key);
    }

    method List() returns (values: seq<V>, ghost keys: seq<string>)
      ensures |keys| == |values|
      ensures forall i | 0 <= i < |keys| :: keys[i] in memory.store && values[i] == memory.store[keys[i]]
      ensures forall i, j | 0 <= i < j < |keys| :: keys[i] != keys[j]
      ensures forall k | k in memory.store :: k in keys
      ensures |values| == |memory.store| && forall k | k in memory.store :: memory.store[k] in values
    {
      values, keys := memory.List();
    }

    method Delete(key: string) returns (r: Result<()>)
      requires Valid() && RoundTrip(codec)
      modifies db`bucket, db`faults, memory
      ensures Valid() && View() == ApplyOp(codec, old(View()), DeleteOp(key, r.Ok?))
      ensures old(db.faults) == 0 ==> r.Ok?
      ensures r.Ok? ==> db.bucket == old(db.bucket) - {key} && memory.store == old(memory.store) - {key}
      ensures r.Err? ==> r == Err(StoreFailed) && View() == old(View()) && db.faults < old(db.faults)
    {
      OpKeepsCoherence(codec, View(), DeleteOp(key, true));
      var ok := db.Delete(key);
      if !ok {
        return Err(StoreFailed);
      }
      memory.Delete(key);
      return Ok(());
    }
  }
}
