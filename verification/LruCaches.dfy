/** The cache of the front server as it is used: two maps and a total changed in place by every call. */
module LruCaches {
  import opened Collections
  import opened Cache

  /**
   * The cache the front server uses: two maps and a total changed in place. Each call is given what the clock reads in
   * it.
   */
  class LruCache {
    const limits: Limits
    var entries: seq<Item>
    var expiring: seq<Item>
    var bytes: real

    ghost function Model(): State
      reads this
    {
      State(entries, expiring, bytes)
    }

    ghost predicate IsValid()
      reads this
    {
      Valid(Model(), limits)
    }

    constructor (limits: Limits)
      ensures this.limits == limits && IsValid() && Model() == EMPTY
    {
      this.limits := limits;
      entries, expiring, bytes := [], [], 0.0;
    }

    method Drop(key: string) returns (removed: bool)
      modifies this
      ensures removed == HasKey(old(entries), key)
      ensures Model() == Remove(old(Model()), key)
    {
      var entry := Find(entries, key);
      FindMeaning(entries, key);
      if entry.None? {
        return false;
      }

      bytes := bytes - entry.value.bytes;
      expiring := Without(expiring, key);
      entries := Without(entries, key);
      return true;
    }

    method Sweep(time: real)
      requires Consistent(Model())
      modifies this
      ensures Model() == DropExpired(old(Model()), time)
    {
      hide Remove, Without, BytesOf, BytesAt;
      while expiring != [] && IsExpired(expiring[0], time)
        invariant Consistent(Model())
        invariant DropExpired(Model(), time) == DropExpired(old(Model()), time)
        decreases |expiring|
      {
        var key := expiring[0].key;
        assert expiring[0] in expiring && expiring[0] in entries;
        assert HasKey(expiring, key) && HasKey(entries, key);
        RemoveShrinks(Model(), key);
        RemoveConsistent(Model(), key);
        var _ := Drop(key);
      }
    }

    method PushOut()
      requires Consistent(Model())
      modifies this
      ensures Model() == Evict(old(Model()), limits)
    {
      hide Remove, Without, BytesOf, BytesAt;
      while |entries| > 0 && (|entries| > limits.maxEntries || (limits.maxBytes.Some? && bytes > limits.maxBytes.value))
        invariant Consistent(Model())
        invariant Evict(Model(), limits) == Evict(old(Model()), limits)
        decreases |entries|
      {
        var key := entries[0].key;
        assert HasKey(entries, key);
        RemoveFirst(Model());
        RemoveConsistent(Model(), key);
        var _ := Drop(key);
      }
    }

    method Get(key: string, now: real) returns (value: Option<Value>)
      requires IsValid()
      modifies this
      ensures IsValid()
      ensures (value, Model()) == Cache.Get(old(Model()), key, now)
    {
      hide Valid, Remove, Without;
      GetValid(Model(), key, now, limits);
      var entry := Find(entries, key);
      if entry.None? {
        return None;
      }

      if IsExpired(entry.value, now) {
        var _ := Drop(key);
        return None;
      }

      entries := Without(entries, key);
      entries := entries + [entry.value];
      return Some(entry.value.value);
    }

    /** The size is none when the one computed is not a number of 0 or more: that throws. */
    method Set(key: string, value: Value, size: Option<Size>, own: Option<Ttl>, now: real,
            later: real) returns (thrown: bool)
      requires IsValid()
      modifies this
      ensures IsValid() && thrown == size.None?
      ensures Model() == Cache.Set(old(Model()), key, value, size, own, now, later, limits)
    {
      hide Consistent, Fits, Remove, DropExpired, Evict, TtlOf;
      ghost var before := Model();
      ApplyValid(before, DoSet(key, value, size, own, now, later), limits);
      if size.None? {
        return true;
      }

      RemoveConsistent(before, key);
      DropExpiredConsistent(Remove(before, key), now);
      var _ := Drop(key);
      Sweep(now);
      ghost var swept := Model();
      KeyGone(entries, key);
      var ttl := TtlOf(own, limits);
      if limits.maxEntries < 1 || (limits.maxBytes.Some? && size.value > limits.maxBytes.value)
        || (ttl.Some? && ttl.value.Millis? && ttl.value.ms <= 0.0)
      {
        assert !IsKept(size.value, own, limits);
        return false;
      }

      assert IsKept(size.value, own, limits);
      var entry := Item(key, value, size.value, Expiry(ttl, later));
      AddedConsistent(swept, entry);
      entries := entries + [entry];
      if entry.expiresAt.At? {
        expiring := expiring + [entry];
      }
      bytes := bytes + size.value;
      assert Model() == Added(swept, entry);
      PushOut();
      return false;
    }

    method Delete(key: string) returns (removed: bool)
      requires IsValid()
      modifies this
      ensures IsValid() && removed == HasKey(old(entries), key)
      ensures Model() == Remove(old(Model()), key)
    {
      RemoveValid(Model(), key, limits);
      removed := Drop(key);
    }

    method Clear()
      modifies this
      ensures IsValid() && Model() == EMPTY
    {
      entries, expiring, bytes := [], [], 0.0;
    }

    method Size(now: real) returns (size: nat)
      requires IsValid()
      modifies this
      ensures IsValid() && Model() == DropExpired(old(Model()), now)
      ensures size == |DropExpired(old(Model()), now).entries|
    {
      DropExpiredValid(Model(), now, limits);
      Sweep(now);
      return |entries|;
    }

    method Bytes(now: real) returns (size: real)
      requires IsValid()
      modifies this
      ensures IsValid() && Model() == DropExpired(old(Model()), now)
      ensures size == BytesOf(DropExpired(old(Model()), now).entries)
    {
      DropExpiredValid(Model(), now, limits);
      Sweep(now);
      return bytes;
    }
  }
}
