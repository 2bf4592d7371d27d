/**
 * The least recently used cache of the front server, bounded by entries and bytes, whose entries expire. A JavaScript
 * `Map` is iterated oldest key first, which a sequence of items with distinct keys says here.
 */
module Cache {
  import opened Collections

  /** A number of bytes: any number of 0 or more. */
  type Size = r: real | r >= 0.0

  /** A moment, or never. */
  datatype Time = At(ms: real) | Never

  /** How long an entry stays valid for. */
  datatype Ttl = Millis(ms: real) | Forever

  /** The cache does not look into its values. */
  type Value = int

  datatype Item = Item(key: string, value: Value, bytes: Size, expiresAt: Time)

  /** No most bytes are an unlimited number of them; without a ttl the entries do not expire. */
  datatype Limits = Limits(maxEntries: nat, maxBytes: Option<Size>, ttl: Option<Ttl>)

  /** `entries` by last use, `expiring` by when they were set, each oldest first, and what the sizes add up to. */
  datatype State = State(entries: seq<Item>, expiring: seq<Item>, bytes: real)

  predicate IsExpired(item: Item, now: real) {
    item.expiresAt.At? && now >= item.expiresAt.ms
  }

  predicate HasKey(items: seq<Item>, key: string) {
    exists i :: 0 <= i < |items| && items[i].key == key
  }

  function Without(items: seq<Item>, key: string): (rest: seq<Item>)
    ensures |rest| <= |items|
    ensures HasKey(items, key) ==> |rest| < |items|
    ensures forall item :: item in rest <==> item in items && item.key != key
  {
    if items == [] then [] else if items[0].key == key then Without(items[1..], key)
      else [items[0]] + Without(items[1..], key)
  }

  function BytesOf(items: seq<Item>): Size {
    if items == [] then 0.0 else items[0].bytes + BytesOf(items[1..])
  }

  function BytesAt(items: seq<Item>, key: string): Size {
    if items == [] then 0.0 else if items[0].key == key then items[0].bytes else BytesAt(items[1..], key)
  }

  // ----- the operations -----

  /** `remove` */
  function Remove(c: State, key: string): State {
    if !HasKey(c.entries, key) then c
    else State(Without(c.entries, key), Without(c.expiring, key), c.bytes - BytesAt(c.entries, key))
  }

  /** `dropExpired`: up to the first entry that is still valid. */
  function DropExpired(c: State, now: real): State
    decreases |c.expiring|
  {
    if c.expiring == [] || !IsExpired(c.expiring[0], now) || !HasKey(c.entries, c.expiring[0].key) then c
    else
      assert HasKey(c.expiring, c.expiring[0].key);
      DropExpired(Remove(c, c.expiring[0].key), now)
  }

  predicate Fits(items: seq<Item>, limits: Limits) {
    |items| <= limits.maxEntries && (limits.maxBytes.Some? ==> BytesOf(items) <= limits.maxBytes.value)
  }

  predicate IsOver(c: State, limits: Limits) {
    |c.entries| > limits.maxEntries || (limits.maxBytes.Some? && c.bytes > limits.maxBytes.value)
  }

  /** `evict`: the least recently used ones go first. */
  function Evict(c: State, limits: Limits): State
    decreases |c.entries|
  {
    if c.entries == [] || !IsOver(c, limits) then c
    else
      assert HasKey(c.entries, c.entries[0].key);
      Evict(Remove(c, c.entries[0].key), limits)
  }

  function Find(items: seq<Item>, key: string): Option<Item> {
    if items == [] then None else if items[0].key == key then Some(items[0]) else Find(items[1..], key)
  }

  /** The value of the key, and the cache after it was asked for. */
  function Get(c: State, key: string, now: real): (Option<Value>, State) {
    match Find(c.entries, key)
    case None => (None, c)
    case Some(item) =>
      if IsExpired(item, now) then (None, Remove(c, key))
      else (Some(item.value), c.(entries := Without(c.entries, key) + [item]))
  }

  function Expiry(ttl: Option<Ttl>, now: real): Time {
    if ttl.Some? && ttl.value.Millis? then At(now + ttl.value.ms) else Never
  }

  /** The ttl of an entry: its own, or the one of the cache. */
  function TtlOf(own: Option<Ttl>, limits: Limits): Option<Ttl> {
    if own.Some? then own else limits.ttl
  }

  /** A value that can never fit, or that has expired already, is not kept. */
  predicate IsKept(bytes: Size, own: Option<Ttl>, limits: Limits) {
    var ttl := TtlOf(own, limits);
    && limits.maxEntries >= 1
    && (limits.maxBytes.Some? ==> bytes <= limits.maxBytes.value)
    && !(ttl.Some? && ttl.value.Millis? && ttl.value.ms <= 0.0)
  }

  /** The cache with the value added, before anything is pushed out. */
  function Added(c: State, item: Item): State {
    State(c.entries + [item], if item.expiresAt.At? then c.expiring + [item] else c.expiring, c.bytes + item.bytes)
  }

  /**
   * `set`: the clock is read for the sweep and again for the expiry. A size that is not a number of 0 or more throws
   * before anything is changed.
   */
  function Set(c: State, key: string, value: Value, size: Option<Size>, own: Option<Ttl>, now: real, later: real,
          limits: Limits): State
  {
    if size.None? then c
    else
      var swept := DropExpired(Remove(c, key), now);
      if !IsKept(size.value, own, limits) then swept
      else Evict(Added(swept, Item(key, value, size.value, Expiry(TtlOf(own, limits), later))), limits)
  }

  // ----- what every operation keeps -----

  predicate Distinct(items: seq<Item>) {
    forall i, j :: 0 <= i < j < |items| ==> items[i].key != items[j].key
  }

  /** The two maps agree, and the total is exact. */
  ghost predicate Consistent(c: State) {
    && Distinct(c.entries) && Distinct(c.expiring)
    && c.bytes == BytesOf(c.entries)
    && (forall item :: item in c.expiring <==> item in c.entries && item.expiresAt.At?)
  }

  lemma WithoutDistinct(items: seq<Item>, key: string)
    requires Distinct(items)
    ensures Distinct(Without(items, key))
    ensures BytesOf(Without(items, key)) == BytesOf(items) - BytesAt(items, key)
    ensures !HasKey(Without(items, key), key)
  {
    hide Without, BytesOf, BytesAt, Distinct;
    WithoutIsDistinct(items, key);
    WithoutBytes(items, key);
    KeyGone(Without(items, key), key);
  }

  lemma {:induction false} WithoutIsDistinct(items: seq<Item>, key: string)
    requires Distinct(items)
    ensures Distinct(Without(items, key))
  {
    hide Distinct;
    if items != [] {
      var rest := Without(items[1..], key);
      TailIsDistinct(items);
      WithoutIsDistinct(items[1..], key);
      if items[0].key != key {
        FirstIsDistinct(items[0], rest);
      }
    }
  }

  lemma TailIsDistinct(items: seq<Item>)
    requires Distinct(items) && items != []
    ensures Distinct(items[1..]) && forall item :: item in items[1..] ==> item.key != items[0].key
  {
  }

  lemma FirstIsDistinct(first: Item, rest: seq<Item>)
    requires Distinct(rest) && forall item :: item in rest ==> item.key != first.key
    ensures Distinct([first] + rest)
  {
    assert forall i :: 0 <= i < |rest| ==> rest[i] in rest;
  }

  lemma {:induction false} WithoutBytes(items: seq<Item>, key: string)
    requires Distinct(items)
    ensures BytesOf(Without(items, key)) == BytesOf(items) - BytesAt(items, key)
  {
    hide Distinct;
    if items != [] {
      TailIsDistinct(items);
      if items[0].key == key {
        WithoutNone(items[1..], key);
      } else {
        WithoutBytes(items[1..], key);
        assert ([items[0]] + Without(items[1..], key))[1..] == Without(items[1..], key);
      }
    }
  }

  lemma {:induction false} WithoutNone(items: seq<Item>, key: string)
    requires forall i :: 0 <= i < |items| ==> items[i].key != key
    ensures Without(items, key) == items && BytesAt(items, key) == 0.0
  {
    if items != [] {
      WithoutNone(items[1..], key);
    }
  }

  lemma RemoveConsistent(c: State, key: string)
    requires Consistent(c)
    ensures Consistent(Remove(c, key)) && !HasKey(Remove(c, key).entries, key)
    ensures forall item :: item in Remove(c, key).entries <==> item in c.entries && item.key != key
  {
    hide Without, BytesOf, BytesAt;
    WithoutDistinct(c.entries, key);
    WithoutDistinct(c.expiring, key);
    if !HasKey(c.entries, key) {
      assert forall item :: item in c.entries ==> item.key != key;
    }
  }

  /** Removing the first key leaves the rest. */
  lemma RemoveFirst(c: State)
    requires Consistent(c) && c.entries != []
    ensures Remove(c, c.entries[0].key).entries == c.entries[1..]
  {
    WithoutNone(c.entries[1..], c.entries[0].key);
    assert HasKey(c.entries, c.entries[0].key);
  }

  /** What the cache keeps between two operations. */
  ghost predicate Valid(c: State, limits: Limits) {
    Consistent(c) && Fits(c.entries, limits)
  }

  lemma {:induction false} DropExpiredConsistent(c: State, now: real)
    requires Consistent(c)
    ensures Consistent(DropExpired(c, now))
    ensures forall item :: item in DropExpired(c, now).entries ==> item in c.entries
    ensures forall item :: item in c.entries && !IsExpired(item, now) ==> item in DropExpired(c, now).entries
    ensures DropExpired(c, now).expiring == [] || !IsExpired(DropExpired(c, now).expiring[0], now)
    decreases |c.expiring|
  {
    hide Remove, IsExpired;
    if c.expiring != [] {
      var first := c.expiring[0];
      assert first in c.expiring && HasKey(c.expiring, first.key);
      assert first in c.entries;
      if IsExpired(first, now) && HasKey(c.entries, first.key) {
        RemoveConsistent(c, first.key);
        RemoveShrinks(c, first.key);
        OnlyItem(c, first);
        DropExpiredConsistent(Remove(c, first.key), now);
      }
    }
  }

  /** No other entry has the key of an entry. */
  lemma OnlyItem(c: State, item: Item)
    requires Consistent(c) && item in c.entries
    ensures forall other :: other in c.entries && other.key == item.key ==> other == item
  {
  }

  lemma RemoveShrinks(c: State, key: string)
    requires HasKey(c.entries, key) && HasKey(c.expiring, key)
    ensures |Remove(c, key).expiring| < |c.expiring|
  {
  }

  // ----- what is pushed out -----

  predicate IsLongestFittingSuffix(kept: seq<Item>, items: seq<Item>, limits: Limits) {
    exists k :: 0 <= k <= |items| && kept == items[k..] && Fits(kept, limits) && forall j :: 0 <= j < k ==>
      !Fits(items[j..], limits)
  }

  /** The eviction ends with the longest part of the most recently used entries that fits. */
  lemma {:induction false} EvictKeepsLongestSuffix(c: State, limits: Limits)
    requires Consistent(c)
    ensures Consistent(Evict(c, limits))
    ensures IsLongestFittingSuffix(Evict(c, limits).entries, c.entries, limits)
    decreases |c.entries|
  {
    hide Consistent, BytesOf, Remove;
    BytesExact(c);
    if c.entries == [] || !IsOver(c, limits) {
      BytesNone();
      assert c.entries[0..] == c.entries;
    } else {
      var rest := Remove(c, c.entries[0].key);
      RemoveConsistent(c, c.entries[0].key);
      RemoveFirst(c);
      EvictKeepsLongestSuffix(rest, limits);
      var k :| 0 <= k <= |rest.entries| && Evict(rest, limits).entries == rest.entries[k..]
        && Fits(rest.entries[k..], limits)
        && forall j :: 0 <= j < k ==> !Fits(rest.entries[j..], limits);
      assert c.entries[k + 1..] == rest.entries[k..];
      forall j | 0 <= j < k + 1 ensures !Fits(c.entries[j..], limits) {
        if j > 0 {
          assert c.entries[j..] == rest.entries[j - 1..];
        } else {
          assert c.entries[0..] == c.entries;
        }
      }
    }
  }

  lemma BytesExact(c: State)
    requires Consistent(c)
    ensures c.bytes == BytesOf(c.entries)
  {
  }

  lemma BytesNone()
    ensures BytesOf([]) == 0.0
  {
  }

  lemma AddedConsistent(c: State, item: Item)
    requires Consistent(c) && !HasKey(c.entries, item.key)
    ensures Consistent(Added(c, item))
  {
    hide BytesOf;
    BytesPush(c.entries, item);
    assert forall i :: 0 <= i < |c.expiring| ==> c.expiring[i] in c.expiring && c.expiring[i] in c.entries;
  }

  lemma {:induction false} BytesPush(items: seq<Item>, item: Item)
    ensures BytesOf(items + [item]) == BytesOf(items) + item.bytes
  {
    if items == [] {
      assert (items + [item])[1..] == [];
    } else {
      assert (items + [item])[1..] == items[1..] + [item];
      BytesPush(items[1..], item);
    }
  }

  /** A longest fitting suffix of a sequence whose last item fits keeps that item. */
  lemma LastIsKept(kept: seq<Item>, items: seq<Item>, limits: Limits)
    requires items != [] && Fits(items[|items| - 1..], limits) && IsLongestFittingSuffix(kept, items, limits)
    ensures kept != [] && kept[|kept| - 1] == items[|items| - 1]
  {
    hide Fits;
  }

  lemma KeyGone(items: seq<Item>, key: string)
    requires forall item :: item in items ==> item.key != key
    ensures !HasKey(items, key)
  {
  }

  lemma OneFits(item: Item, own: Option<Ttl>, limits: Limits)
    requires IsKept(item.bytes, own, limits)
    ensures Fits([item], limits)
  {
    assert [item][1..] == [];
    assert BytesOf([item]) == item.bytes + BytesOf([]);
  }

  /**
   * After a `set` that keeps its value, the cache is the longest part of the recency order (what was left of it, and
   * then the new entry) that fits both limits, and the new entry is not pushed out by its own `set`.
   */
  lemma SetKeepsLongestSuffix(c: State, key: string, value: Value, size: Size, own: Option<Ttl>, now: real, later: real,
          limits: Limits)
    requires Valid(c, limits) && IsKept(size, own, limits)
    ensures var swept := DropExpired(Remove(c, key), now);
      var item := Item(key, value, size, Expiry(TtlOf(own, limits), later));
      var after := Set(c, key, value, Some(size), own, now, later, limits);
      && Valid(after, limits)
      && IsLongestFittingSuffix(after.entries, swept.entries + [item], limits)
      && after.entries != [] && after.entries[|after.entries| - 1] == item
  {
    hide Consistent, DropExpired, Remove, Evict, Fits, IsKept;
    var swept := DropExpired(Remove(c, key), now);
    var item := Item(key, value, size, Expiry(TtlOf(own, limits), later));
    RemoveConsistent(c, key);
    DropExpiredConsistent(Remove(c, key), now);
    KeyGone(swept.entries, key);
    AddedConsistent(swept, item);
    EvictKeepsLongestSuffix(Added(swept, item), limits);
    OneFits(item, own, limits);
    assert (swept.entries + [item])[|swept.entries|..] == [item];
    LastIsKept(Evict(Added(swept, item), limits).entries, swept.entries + [item], limits);
  }

  // ----- the order of expiry -----

  /** The entries that are still valid, in their order. */
  function Live(items: seq<Item>, now: real): (live: seq<Item>)
    ensures forall item :: item in live <==> item in items && !IsExpired(item, now)
  {
    if items == [] then [] else (if IsExpired(items[0], now) then [] else [items[0]]) + Live(items[1..], now)
  }

  predicate InOrder(expiring: seq<Item>) {
    && (forall item :: item in expiring ==> item.expiresAt.At?)
    && forall i, j :: 0 <= i < j < |expiring| && expiring[i].expiresAt.At? && expiring[j].expiresAt.At? ==>
      expiring[i].expiresAt.ms <= expiring[j].expiresAt.ms
  }

  lemma {:induction false} LiveAll(items: seq<Item>, now: real)
    requires forall item :: item in items ==> !IsExpired(item, now)
    ensures Live(items, now) == items
  {
    if items != [] {
      LiveAll(items[1..], now);
    }
  }

  lemma {:induction false} LiveWithout(items: seq<Item>, key: string, now: real)
    requires forall item :: item in items && item.key == key ==> IsExpired(item, now)
    ensures Live(Without(items, key), now) == Live(items, now)
  {
    if items != [] {
      LiveWithout(items[1..], key, now);
      if items[0].key != key {
        assert ([items[0]] + Without(items[1..], key))[1..] == Without(items[1..], key);
      }
    }
  }

  lemma {:induction false} WithoutInOrder(items: seq<Item>, key: string)
    requires InOrder(items)
    ensures InOrder(Without(items, key))
  {
    hide InOrder;
    if items != [] {
      var rest := Without(items[1..], key);
      TailInOrder(items);
      WithoutInOrder(items[1..], key);
      if items[0].key != key {
        FirstInOrder(items[0], rest);
      }
    }
  }

  lemma TailInOrder(items: seq<Item>)
    requires InOrder(items) && items != []
    ensures InOrder(items[1..]) && items[0].expiresAt.At?
    ensures forall item :: item in items[1..] ==> item.expiresAt.At? && items[0].expiresAt.ms <= item.expiresAt.ms
  {
    assert items[0] in items && forall item :: item in items[1..] ==> item in items;
  }

  lemma FirstInOrder(first: Item, rest: seq<Item>)
    requires InOrder(rest) && first.expiresAt.At?
    requires forall item :: item in rest ==> item.expiresAt.At? && first.expiresAt.ms <= item.expiresAt.ms
    ensures InOrder([first] + rest)
  {
    assert forall i :: 0 <= i < |rest| ==> rest[i] in rest;
  }

  /** Nothing that has expired comes behind an entry that has not. */
  ghost predicate ExpiredComeFirst(expiring: seq<Item>, now: real) {
    forall i, j :: 0 <= i < j < |expiring| && IsExpired(expiring[j], now) ==> IsExpired(expiring[i], now)
  }

  lemma RemoveFirstExpiring(c: State)
    requires Consistent(c) && c.expiring != []
    ensures Remove(c, c.expiring[0].key).expiring == c.expiring[1..]
  {
    assert c.expiring[0] in c.expiring && c.expiring[0] in c.entries;
    assert HasKey(c.entries, c.expiring[0].key);
    WithoutNone(c.expiring[1..], c.expiring[0].key);
  }

  lemma TailComesFirst(expiring: seq<Item>, now: real)
    requires expiring != [] && IsExpired(expiring[0], now)
    ensures ExpiredComeFirst(expiring[1..], now) <==> ExpiredComeFirst(expiring, now)
  {
    hide IsExpired;
    assert forall i :: 0 <= i < |expiring[1..]| ==> expiring[1..][i] == expiring[i + 1];
    if ExpiredComeFirst(expiring[1..], now) {
      forall i, j | 0 <= i < j < |expiring| && IsExpired(expiring[j], now) ensures IsExpired(expiring[i], now) {
        if i > 0 {
          assert IsExpired(expiring[1..][j - 1], now) && IsExpired(expiring[1..][i - 1], now);
        }
      }
    }
  }

  /**
   * A sweep drops all the entries that have expired and nothing else exactly when none of them comes behind one that is
   * valid.
   */
  lemma {:induction false} SweepIsExact(c: State, now: real)
    requires Consistent(c)
    ensures DropExpired(c, now).entries == Live(c.entries, now) <==> ExpiredComeFirst(c.expiring, now)
    decreases |c.expiring|
  {
    hide Remove, Live, Without, ExpiredComeFirst;
    if c.expiring == [] || !IsExpired(c.expiring[0], now) {
      NothingIsDropped(c, now);
    } else {
      var first := c.expiring[0];
      assert first in c.expiring && HasKey(c.expiring, first.key);
      assert first in c.entries && HasKey(c.entries, first.key);
      OnlyItem(c, first);
      RemoveConsistent(c, first.key);
      RemoveFirstExpiring(c);
      TailComesFirst(c.expiring, now);
      RemoveEntries(c, first.key);
      LiveWithout(c.entries, first.key, now);
      SweepIsExact(Remove(c, first.key), now);
    }
  }

  /** Where the sweep stops. */
  lemma NothingIsDropped(c: State, now: real)
    requires Consistent(c) && (c.expiring == [] || !IsExpired(c.expiring[0], now))
    ensures c.entries == Live(c.entries, now) <==> ExpiredComeFirst(c.expiring, now)
  {
    hide Live, IsExpired;
    NeverExpires(now);
    if ExpiredComeFirst(c.expiring, now) {
      forall item | item in c.entries ensures !IsExpired(item, now) {
        if item in c.expiring {
          var i :| 0 <= i < |c.expiring| && c.expiring[i] == item;
        }
      }
      LiveAll(c.entries, now);
    } else {
      var i, j :| 0 <= i < j < |c.expiring| && IsExpired(c.expiring[j], now) && !IsExpired(c.expiring[i], now);
      assert c.expiring[j] in c.expiring && c.expiring[j] in c.entries && c.expiring[j] !in Live(c.entries, now);
    }
  }

  lemma NeverExpires(now: real)
    ensures forall item :: IsExpired(item, now) ==> item.expiresAt.At?
  {
  }

  /** With expiries that never go down from one to the next, that is so at every moment. */
  lemma SweepDropsAllExpired(c: State, now: real)
    requires Consistent(c) && InOrder(c.expiring)
    ensures DropExpired(c, now).entries == Live(c.entries, now)
  {
    hide Consistent, DropExpired, Live;
    SweepIsExact(c, now);
    assert forall i :: 0 <= i < |c.expiring| ==> c.expiring[i] in c.expiring;
  }

  lemma RemoveEntries(c: State, key: string)
    ensures Remove(c, key).entries == Without(c.entries, key)
  {
    if !HasKey(c.entries, key) {
      WithoutNone(c.entries, key);
    }
  }

  // ----- whole runs -----

  /** The calls on a cache, with what the clock read in them. `Look` is the size or the bytes asked for. */
  datatype Op =
    | DoGet(key: string, now: real)
    | DoSet(key: string, value: Value, size: Option<Size>, own: Option<Ttl>, now: real, later: real)
    | DoDelete(key: string)
    | DoClear
    | Look(now: real)

  const EMPTY := State([], [], 0.0)

  function Apply(c: State, op: Op, limits: Limits): State {
    match op
    case DoGet(key, now) => Get(c, key, now).1
    case DoSet(key, value, size, own, now, later) => Set(c, key, value, size, own, now, later, limits)
    case DoDelete(key) => Remove(c, key)
    case DoClear => EMPTY
    case Look(now) => DropExpired(c, now)
  }

  function Run(ops: seq<Op>, limits: Limits): State {
    if ops == [] then EMPTY else Apply(Run(ops[..|ops| - 1], limits), ops[|ops| - 1], limits)
  }

  /** There is room for one entry of its size, and it does not expire as soon as it is set. */
  predicate MayStay(size: Size, own: Option<Ttl>, limits: Limits) {
    && 1 <= limits.maxEntries
    && (limits.maxBytes == None || size <= limits.maxBytes.value)
    && match (own, limits.ttl)
       case (Some(Millis(ms)), _) => ms > 0.0
       case (None, Some(Millis(ms))) => ms > 0.0
       case _ => true
  }

  /** When an entry set at a moment expires: a ttl of its own comes before the one of the cache. */
  function Until(own: Option<Ttl>, limits: Limits, moment: real): Time {
    match (own, limits.ttl)
    case (Some(Millis(ms)), _) => At(moment + ms)
    case (None, Some(Millis(ms))) => At(moment + ms)
    case _ => Never
  }

  lemma StayMeans(size: Size, own: Option<Ttl>, limits: Limits, moment: real)
    ensures IsKept(size, own, limits) <==> MayStay(size, own, limits)
    ensures Expiry(TtlOf(own, limits), moment) == Until(own, limits, moment)
  {
  }

  /** What the latest `set` of the key says, unless the key was deleted or the cache was cleared since. */
  function Latest(ops: seq<Op>, key: string, limits: Limits): Option<Item> {
    if ops == [] then None
    else
      var before := Latest(ops[..|ops| - 1], key, limits);
      match ops[|ops| - 1]
      case DoGet(_, _) => before
      case DoSet(set_, value, size, own, _, later) =>
        if set_ != key || size.None? then before
        else if MayStay(size.value, own, limits) then Some(Item(key, value, size.value, Until(own, limits, later)))
        else None
      case DoDelete(deleted) => if deleted == key then None else before
      case DoClear => None
      case Look(_) => before
  }

  ghost predicate IsTruthful(c: State, ops: seq<Op>, limits: Limits) {
    forall item :: item in c.entries ==> Latest(ops, item.key, limits) == Some(item)
  }

  lemma {:induction false} FindMeaning(items: seq<Item>, key: string)
    ensures Find(items, key).None? <==> !HasKey(items, key)
    ensures Find(items, key).Some? ==>
      Find(items, key).value in items && Find(items, key).value.key == key
        && BytesAt(items, key) == Find(items, key).value.bytes
  {
    if items != [] && items[0].key != key {
      FindMeaning(items[1..], key);
      assert HasKey(items[1..], key) ==> HasKey(items, key) by {
        if HasKey(items[1..], key) {
          var i :| 0 <= i < |items[1..]| && items[1..][i].key == key;
          assert items[i + 1].key == key;
        }
      }
      assert HasKey(items, key) ==> HasKey(items[1..], key) by {
        if HasKey(items, key) {
          var i :| 0 <= i < |items| && items[i].key == key;
          assert items[1..][i - 1].key == key;
        }
      }
    }
  }

  lemma RemoveValid(c: State, key: string, limits: Limits)
    requires Valid(c, limits)
    ensures Valid(Remove(c, key), limits)
  {
    hide Without, BytesOf, BytesAt;
    RemoveConsistent(c, key);
    WithoutDistinct(c.entries, key);
  }

  lemma {:induction false} DropExpiredValid(c: State, now: real, limits: Limits)
    requires Valid(c, limits)
    ensures Valid(DropExpired(c, now), limits)
    decreases |c.expiring|
  {
    hide Valid, Remove;
    if c.expiring != [] && IsExpired(c.expiring[0], now) && HasKey(c.entries, c.expiring[0].key) {
      var key := c.expiring[0].key;
      assert HasKey(c.expiring, key);
      RemoveShrinks(c, key);
      RemoveValid(c, key, limits);
      DropExpiredValid(Remove(c, key), now, limits);
    }
  }

  /** A hit moves the entry to the end and changes nothing else. */
  lemma GetValid(c: State, key: string, now: real, limits: Limits)
    requires Valid(c, limits)
    ensures Valid(Get(c, key, now).1, limits)
    ensures forall item :: item in Get(c, key, now).1.entries ==> item in c.entries
  {
    hide Find, Remove, Without, BytesOf, BytesAt;
    FindMeaning(c.entries, key);
    if Find(c.entries, key).Some? {
      var item := Find(c.entries, key).value;
      RemoveValid(c, key, limits);
      RemoveConsistent(c, key);
      if !IsExpired(item, now) {
        WithoutDistinct(c.entries, key);
        BytesPush(Without(c.entries, key), item);
        OnlyItem(c, item);
        assert forall i :: 0 <= i < |Without(c.entries, key)| ==> Without(c.entries, key)[i] in Without(c.entries, key);
      }
    }
  }

  /** What an operation keeps: the maps agree, the total is exact, both limits hold. */
  lemma ApplyValid(c: State, op: Op, limits: Limits)
    requires Valid(c, limits)
    ensures Valid(Apply(c, op, limits), limits)
  {
    hide Consistent, Fits, Remove, DropExpired, Evict, Get, IsKept;
    match op
    case DoGet(key, now) => GetValid(c, key, now, limits);
    case DoSet(key, value, size, own, now, later) =>
      if size.Some? {
        RemoveValid(c, key, limits);
        DropExpiredValid(Remove(c, key), now, limits);
        if IsKept(size.value, own, limits) {
          SetKeepsLongestSuffix(c, key, value, size.value, own, now, later, limits);
        }
      }
    case DoDelete(key) => RemoveValid(c, key, limits);
    case DoClear => EmptyValid(limits);
    case Look(now) => DropExpiredValid(c, now, limits);
  }

  lemma EmptyValid(limits: Limits)
    ensures Valid(EMPTY, limits)
  {
  }

  /** In every run both limits hold after every operation, and the total is the exact sum of the sizes. */
  lemma {:induction false} EveryRunIsValid(ops: seq<Op>, limits: Limits)
    ensures Valid(Run(ops, limits), limits)
  {
    hide Valid, Apply;
    if ops == [] {
      EmptyValid(limits);
    } else {
      EveryRunIsValid(ops[..|ops| - 1], limits);
      ApplyValid(Run(ops[..|ops| - 1], limits), ops[|ops| - 1], limits);
    }
  }

  // ----- what a cache answers -----

  /** What a `set` leaves in the cache was there before under another key, or is what was set. */
  lemma SetEntries(c: State, op: Op, limits: Limits)
    requires Valid(c, limits) && op.DoSet? && op.size.Some?
    ensures forall item :: item in Apply(c, op, limits).entries ==>
      || (item in c.entries && item.key != op.key)
      || (IsKept(op.size.value, op.own, limits)
          && item == Item(op.key, op.value, op.size.value, Expiry(TtlOf(op.own, limits), op.later)))
  {
    hide Consistent, Fits, Remove, DropExpired, Evict, IsKept;
    RemoveConsistent(c, op.key);
    DropExpiredConsistent(Remove(c, op.key), op.now);
    if IsKept(op.size.value, op.own, limits) {
      SetKeepsLongestSuffix(c, op.key, op.value, op.size.value, op.own, op.now, op.later, limits);
    }
  }

  lemma ApplyTruthful(c: State, ops: seq<Op>, op: Op, limits: Limits)
    requires Valid(c, limits) && IsTruthful(c, ops, limits)
    ensures IsTruthful(Apply(c, op, limits), ops + [op], limits)
  {
    hide Consistent, Fits, Remove, DropExpired, Evict, Get, Set, IsKept;
    assert (ops + [op])[..|ops|] == ops;
    match op
    case DoGet(key, now) => GetValid(c, key, now, limits);
    case DoSet(_, _, size, _, _, _) =>
      if size.Some? {
        SetEntries(c, op, limits);
        StayMeans(size.value, op.own, limits, op.later);
      } else {
        assert Apply(c, op, limits) == c by { SetRefused(c, op, limits); }
      }
    case DoDelete(key) => RemoveConsistent(c, key);
    case DoClear =>
    case Look(now) => DropExpiredConsistent(c, now);
  }

  lemma SetRefused(c: State, op: Op, limits: Limits)
    requires op.DoSet? && op.size.None?
    ensures Apply(c, op, limits) == c
  {
  }

  lemma {:induction false} EveryRunIsTruthful(ops: seq<Op>, limits: Limits)
    ensures IsTruthful(Run(ops, limits), ops, limits)
  {
    hide Valid, Apply, IsTruthful;
    if ops == [] {
      EmptyTruthful(limits);
    } else {
      var before, op := ops[..|ops| - 1], ops[|ops| - 1];
      EveryRunIsValid(before, limits);
      EveryRunIsTruthful(before, limits);
      ApplyTruthful(Run(before, limits), before, op, limits);
      assert before + [op] == ops;
    }
  }

  lemma EmptyTruthful(limits: Limits)
    ensures IsTruthful(EMPTY, [], limits)
  {
  }

  /**
   * Over every run, with clocks that do what they like: a `get` only ever answers with the value of the latest `set` of
   * that key, not after the key was deleted, the cache was cleared or a `set` was not kept, and not after its expiry.
   */
  lemma GetAnswersTheLatestSet(ops: seq<Op>, key: string, now: real, limits: Limits)
    requires Get(Run(ops, limits), key, now).0.Some?
    ensures Latest(ops, key, limits).Some?
    ensures Latest(ops, key, limits).value.value == Get(Run(ops, limits), key, now).0.value
    ensures !IsExpired(Latest(ops, key, limits).value, now)
  {
    hide Run, Latest, Find;
    EveryRunIsTruthful(ops, limits);
    FindMeaning(Run(ops, limits).entries, key);
  }

  /** Its time to expire has not come. */
  predicate IsValidAt(item: Item, now: real) {
    match item.expiresAt
    case Never => true
    case At(ms) => now < ms
  }

  predicate Offers(items: seq<Item>, key: string, value: Value, now: real) {
    exists item :: item in items && item.key == key && item.value == value && IsValidAt(item, now)
  }

  /**
   * In every run a `get` answers with a value exactly when an entry of the key has it whose time to expire has not
   * come. An entry that has expired is dropped by it, and all others stay.
   */
  lemma GetAnswersExactly(ops: seq<Op>, key: string, value: Value, now: real, limits: Limits)
    ensures var items, after := Run(ops, limits).entries, Run(ops + [DoGet(key, now)], limits).entries;
      && (Get(Run(ops, limits), key, now).0 == Some(value) <==> Offers(items, key, value, now))
      && (forall item :: item in after <==> item in items && (item.key == key ==> IsValidAt(item, now)))
  {
    hide Run, Valid;
    EveryRunIsValid(ops, limits);
    ValidIsConsistent(Run(ops, limits), limits);
    GetOffers(Run(ops, limits), key, value, now);
    RunPush(ops, DoGet(key, now), limits);
  }

  lemma RunPush(ops: seq<Op>, op: Op, limits: Limits)
    ensures Run(ops + [op], limits) == Apply(Run(ops, limits), op, limits)
  {
    assert (ops + [op])[..|ops|] == ops;
  }

  lemma GetOffers(c: State, key: string, value: Value, now: real)
    requires Consistent(c)
    ensures var (answer, after) := Get(c, key, now);
      && (answer == Some(value) <==> Offers(c.entries, key, value, now))
      && (forall item :: item in after.entries <==> item in c.entries && (item.key == key ==> IsValidAt(item, now)))
  {
    hide Find, Without, Remove, BytesOf, BytesAt, Consistent;
    FindMeaning(c.entries, key);
    RemoveConsistent(c, key);
    RemoveEntries(c, key);
    if Find(c.entries, key).Some? {
      OnlyItem(c, Find(c.entries, key).value);
    } else {
      KeyNowhere(c.entries, key);
    }
  }

  lemma KeyNowhere(items: seq<Item>, key: string)
    requires !HasKey(items, key)
    ensures forall item :: item in items ==> item.key != key
  {
  }

  lemma ValidIsConsistent(c: State, limits: Limits)
    requires Valid(c, limits)
    ensures Consistent(c)
  {
  }

  /**
   * In every run a `set` leaves an entry of the key exactly when there is room for one of its size and it has a time
   * before it expires, and that is what was set; one whose size is no number leaves everything as it was.
   */
  lemma SetStaysExactly(ops: seq<Op>, op: Op, limits: Limits)
    requires op.DoSet?
    ensures var before, after := Run(ops, limits), Run(ops + [op], limits);
      if op.size.None? then after == before
      else
        && (HasKey(after.entries, op.key) <==> MayStay(op.size.value, op.own, limits))
        && (MayStay(op.size.value, op.own, limits) ==>
              after.entries != [] && after.entries[|after.entries| - 1]
                == Item(op.key, op.value, op.size.value, Until(op.own, limits, op.later)))
  {
    hide Run, Valid, Consistent, Remove, DropExpired, Evict, IsKept, IsLongestFittingSuffix, Until, MayStay;
    RunPush(ops, op, limits);
    var c := Run(ops, limits);
    EveryRunIsValid(ops, limits);
    ValidIsConsistent(c, limits);
    if op.size.Some? {
      StayMeans(op.size.value, op.own, limits, op.later);
      if IsKept(op.size.value, op.own, limits) {
        SetKeepsLongestSuffix(c, op.key, op.value, op.size.value, op.own, op.now, op.later, limits);
      } else {
        RemoveConsistent(c, op.key);
        DropExpiredConsistent(Remove(c, op.key), op.now);
        KeyGone(DropExpired(Remove(c, op.key), op.now).entries, op.key);
      }
    }
  }

  // ----- the order of use -----

  predicate IsUse(op: Op, key: string) {
    (op.DoGet? && op.key == key) || (op.DoSet? && op.key == key && op.size.Some?)
  }

  /** The last time the key was asked for or set, as a place among the calls. */
  function LastUse(ops: seq<Op>, key: string): int {
    if ops == [] then -1
    else if IsUse(ops[|ops| - 1], key) then |ops| - 1
    else LastUse(ops[..|ops| - 1], key)
  }

  /** Each item was used after the one ahead of it. */
  ghost predicate IsByUse(items: seq<Item>, ops: seq<Op>) {
    forall i, j :: 0 <= i < j < |items| ==> LastUse(ops, items[i].key) < LastUse(ops, items[j].key)
  }

  lemma {:induction false} UsedBefore(ops: seq<Op>, key: string)
    ensures LastUse(ops, key) < |ops|
  {
    if ops != [] {
      UsedBefore(ops[..|ops| - 1], key);
    }
  }

  lemma {:induction false} WithoutByUse(items: seq<Item>, key: string, ops: seq<Op>)
    requires IsByUse(items, ops)
    ensures IsByUse(Without(items, key), ops)
  {
    hide IsByUse;
    if items != [] {
      var rest := Without(items[1..], key);
      TailByUse(items, ops);
      WithoutByUse(items[1..], key, ops);
      if items[0].key != key {
        FirstByUse(items[0], rest, ops);
      }
    }
  }

  lemma TailByUse(items: seq<Item>, ops: seq<Op>)
    requires IsByUse(items, ops) && items != []
    ensures IsByUse(items[1..], ops)
    ensures forall item :: item in items[1..] ==> LastUse(ops, items[0].key) < LastUse(ops, item.key)
  {
    hide LastUse;
  }

  lemma FirstByUse(first: Item, rest: seq<Item>, ops: seq<Op>)
    requires IsByUse(rest, ops) && forall item :: item in rest ==> LastUse(ops, first.key) < LastUse(ops, item.key)
    ensures IsByUse([first] + rest, ops)
  {
    hide LastUse;
    assert forall i :: 0 <= i < |rest| ==> rest[i] in rest;
  }

  /** A call that is no use of theirs leaves their order alone, and one that uses another item puts it behind them. */
  lemma UseComesLast(items: seq<Item>, ops: seq<Op>, op: Op, used: seq<Item>)
    requires IsByUse(items, ops) && |used| <= 1
    requires forall item :: item in items ==> !IsUse(op, item.key)
    requires forall item :: item in used ==> IsUse(op, item.key)
    ensures IsByUse(items + used, ops + [op])
  {
    hide IsUse;
    var after, all := ops + [op], items + used;
    assert after[..|after| - 1] == ops;
    forall i | 0 <= i < |items| ensures LastUse(after, items[i].key) == LastUse(ops, items[i].key) < |ops| {
      UsedBefore(ops, items[i].key);
    }
    forall item | item in used ensures LastUse(after, item.key) == |ops| {
    }
    assert forall i :: |items| <= i < |all| ==> all[i] == used[i - |items|];
  }

  lemma RemoveByUse(c: State, key: string, ops: seq<Op>)
    requires IsByUse(c.entries, ops)
    ensures IsByUse(Remove(c, key).entries, ops)
  {
    hide IsByUse;
    WithoutByUse(c.entries, key, ops);
  }

  lemma {:induction false} DropExpiredByUse(c: State, now: real, ops: seq<Op>)
    requires IsByUse(c.entries, ops)
    ensures IsByUse(DropExpired(c, now).entries, ops)
    decreases |c.expiring|
  {
    hide IsByUse, Remove;
    if c.expiring != [] && IsExpired(c.expiring[0], now) && HasKey(c.entries, c.expiring[0].key) {
      var key := c.expiring[0].key;
      assert HasKey(c.expiring, key);
      RemoveShrinks(c, key);
      RemoveByUse(c, key, ops);
      DropExpiredByUse(Remove(c, key), now, ops);
    }
  }

  lemma {:induction false} EvictByUse(c: State, limits: Limits, ops: seq<Op>)
    requires IsByUse(c.entries, ops)
    ensures IsByUse(Evict(c, limits).entries, ops)
    decreases |c.entries|
  {
    hide IsByUse, IsOver;
    if c.entries != [] && IsOver(c, limits) {
      var key := c.entries[0].key;
      assert HasKey(c.entries, key);
      RemoveByUse(c, key, ops);
      EvictByUse(Remove(c, key), limits, ops);
    }
  }

  lemma GetByUse(c: State, ops: seq<Op>, key: string, now: real, limits: Limits)
    requires Valid(c, limits) && IsByUse(c.entries, ops)
    ensures IsByUse(Get(c, key, now).1.entries, ops + [DoGet(key, now)])
  {
    hide Find, Remove, Without, IsByUse, BytesOf, Fits;
    FindMeaning(c.entries, key);
    RemoveConsistent(c, key);
    RemoveEntries(c, key);
    WithoutByUse(c.entries, key, ops);
    var rest := Without(c.entries, key);
    var used := if Find(c.entries, key).Some? && !IsExpired(Find(c.entries, key).value, now)
      then [Find(c.entries, key).value] else [];
    UseComesLast(rest, ops, DoGet(key, now), used);
    assert rest + [] == rest;
    if Find(c.entries, key).None? {
      assert Remove(c, key) == c by { RemoveNone(c, key); }
    }
  }

  lemma RemoveNone(c: State, key: string)
    requires !HasKey(c.entries, key)
    ensures Remove(c, key) == c
  {
  }

  lemma SetByUse(c: State, ops: seq<Op>, op: Op, limits: Limits)
    requires Valid(c, limits) && IsByUse(c.entries, ops) && op.DoSet? && op.size.Some?
    ensures IsByUse(Apply(c, op, limits).entries, ops + [op])
  {
    hide Find, Remove, DropExpired, Evict, IsByUse, BytesOf, Fits, Consistent, IsKept;
    ValidIsConsistent(c, limits);
    RemoveConsistent(c, op.key);
    RemoveByUse(c, op.key, ops);
    DropExpiredConsistent(Remove(c, op.key), op.now);
    DropExpiredByUse(Remove(c, op.key), op.now, ops);
    var swept := DropExpired(Remove(c, op.key), op.now);
    var item := Item(op.key, op.value, op.size.value, Expiry(TtlOf(op.own, limits), op.later));
    UseComesLast(swept.entries, ops, op, [item]);
    UseComesLast(swept.entries, ops, op, []);
    assert swept.entries + [] == swept.entries;
    EvictByUse(Added(swept, item), limits, ops + [op]);
  }

  lemma ApplyByUse(c: State, ops: seq<Op>, op: Op, limits: Limits)
    requires Valid(c, limits) && IsByUse(c.entries, ops)
    ensures IsByUse(Apply(c, op, limits).entries, ops + [op])
  {
    hide Remove, DropExpired, Get, Set, IsByUse, Valid;
    match op
    case DoGet(key, now) => GetByUse(c, ops, key, now, limits);
    case DoSet(key, _, size, _, _, _) =>
      if size.Some? {
        SetByUse(c, ops, op, limits);
      } else {
        SetRefused(c, op, limits);
        OthersByUse(c.entries, ops, op);
      }
    case DoDelete(key) =>
      RemoveByUse(c, key, ops);
      OthersByUse(Remove(c, key).entries, ops, op);
    case DoClear => OthersByUse([], ops, op) by { NoneByUse(ops); }
    case Look(now) =>
      DropExpiredByUse(c, now, ops);
      OthersByUse(DropExpired(c, now).entries, ops, op);
  }

  lemma NoneByUse(ops: seq<Op>)
    ensures IsByUse([], ops)
  {
  }

  lemma OthersByUse(items: seq<Item>, ops: seq<Op>, op: Op)
    requires IsByUse(items, ops) && !op.DoGet? && (op.DoSet? ==> op.size.None?)
    ensures IsByUse(items, ops + [op])
  {
    hide IsByUse;
    UseComesLast(items, ops, op, []);
    assert items + [] == items;
  }

  /**
   * In every run the entries are in the order of their last use: a `get` of an entry counts as one just as a `set` of
   * it does. So those a `set` pushes out are the ones that were used least recently.
   */
  lemma {:induction false} EntriesAreByUse(ops: seq<Op>, limits: Limits)
    ensures IsByUse(Run(ops, limits).entries, ops)
  {
    hide Valid, Apply, IsByUse;
    if ops == [] {
      NoneByUse(ops);
    } else {
      var before, op := ops[..|ops| - 1], ops[|ops| - 1];
      EveryRunIsValid(before, limits);
      EntriesAreByUse(before, limits);
      ApplyByUse(Run(before, limits), before, op, limits);
      assert before + [op] == ops;
    }
  }

  // ----- a clock that does not go back, and one ttl for all -----

  function Clock(ops: seq<Op>, start: real): real {
    if ops == [] then start
    else
      match ops[|ops| - 1]
      case DoGet(_, now) => now
      case DoSet(_, _, _, _, _, later) => later
      case Look(now) => now
      case _ => Clock(ops[..|ops| - 1], start)
  }

  predicate IsOnTime(op: Op, clock: real) {
    match op
    case DoGet(_, now) => clock <= now
    case DoSet(_, _, _, _, now, later) => clock <= now <= later
    case Look(now) => clock <= now
    case _ => true
  }

  ghost predicate IsMonotone(ops: seq<Op>, start: real) {
    ops == [] || (IsMonotone(ops[..|ops| - 1], start) && IsOnTime(ops[|ops| - 1], Clock(ops[..|ops| - 1], start)))
  }

  predicate SharesTheTtl(op: Op) {
    op.DoSet? ==> op.own.None?
  }

  /** No expiry is before the one ahead of it, and none is after that of an entry set at the clock. */
  ghost predicate Ordered(c: State, clock: real, limits: Limits) {
    && InOrder(c.expiring)
    && (limits.ttl.None? || limits.ttl.value.Forever? ==> c.expiring == [])
    && (limits.ttl.Some? && limits.ttl.value.Millis? ==>
        forall item :: item in c.expiring && item.expiresAt.At? ==> item.expiresAt.ms <= clock + limits.ttl.value.ms)
  }

  lemma RemoveOrdered(c: State, key: string, clock: real, limits: Limits)
    requires Ordered(c, clock, limits)
    ensures Ordered(Remove(c, key), clock, limits)
  {
    hide InOrder, Without;
    WithoutInOrder(c.expiring, key);
  }

  lemma {:induction false} DropExpiredOrdered(c: State, now: real, clock: real, limits: Limits)
    requires Ordered(c, clock, limits)
    ensures Ordered(DropExpired(c, now), clock, limits)
    decreases |c.expiring|
  {
    hide Ordered, Remove;
    if c.expiring != [] && IsExpired(c.expiring[0], now) && HasKey(c.entries, c.expiring[0].key) {
      var key := c.expiring[0].key;
      assert HasKey(c.expiring, key);
      RemoveShrinks(c, key);
      RemoveOrdered(c, key, clock, limits);
      DropExpiredOrdered(Remove(c, key), now, clock, limits);
    }
  }

  lemma {:induction false} EvictOrdered(c: State, clock: real, limits: Limits)
    requires Ordered(c, clock, limits)
    ensures Ordered(Evict(c, limits), clock, limits)
    decreases |c.entries|
  {
    hide Ordered, IsOver;
    if c.entries != [] && IsOver(c, limits) {
      var key := c.entries[0].key;
      assert HasKey(c.entries, key);
      RemoveOrdered(c, key, clock, limits);
      EvictOrdered(Remove(c, key), clock, limits);
    }
  }

  lemma AddedOrdered(c: State, item: Item, clock: real, limits: Limits)
    requires Ordered(c, clock, limits) && item.expiresAt == Expiry(limits.ttl, clock)
    ensures Ordered(Added(c, item), clock, limits)
  {
    assert forall i :: 0 <= i < |c.expiring| ==> c.expiring[i] in c.expiring;
  }

  lemma LaterOrdered(c: State, clock: real, later: real, limits: Limits)
    requires Ordered(c, clock, limits) && clock <= later
    ensures Ordered(c, later, limits)
  {
    hide InOrder;
  }

  lemma ApplyOrdered(c: State, op: Op, clock: real, later: real, limits: Limits)
    requires Ordered(c, clock, limits) && IsOnTime(op, clock) && SharesTheTtl(op)
    requires later == Clock([op], clock)
    ensures Ordered(Apply(c, op, limits), later, limits)
  {
    hide Ordered, Remove, DropExpired, Evict, Find, IsKept, Without;
    assert [op][..0] == [];
    match op
    case DoGet(key, now) =>
      RemoveOrdered(c, key, clock, limits);
      MovedOrdered(c, key, now, clock, limits);
      LaterOrdered(Get(c, key, now).1, clock, later, limits);
    case DoSet(key, value, size, own, now, _) =>
      RemoveOrdered(c, key, clock, limits);
      DropExpiredOrdered(Remove(c, key), now, clock, limits);
      var swept := DropExpired(Remove(c, key), now);
      LaterOrdered(swept, clock, later, limits);
      LaterOrdered(c, clock, later, limits);
      if size.Some? && IsKept(size.value, own, limits) {
        var item := Item(key, value, size.value, Expiry(TtlOf(own, limits), later));
        AddedOrdered(swept, item, later, limits);
        EvictOrdered(Added(swept, item), later, limits);
      }
    case DoDelete(key) => RemoveOrdered(c, key, clock, limits);
    case DoClear => EmptyOrdered(later, limits);
    case Look(now) =>
      DropExpiredOrdered(c, now, clock, limits);
      LaterOrdered(DropExpired(c, now), clock, later, limits);
  }

  lemma MovedOrdered(c: State, key: string, now: real, clock: real, limits: Limits)
    requires Ordered(c, clock, limits)
    ensures Ordered(Get(c, key, now).1, clock, limits)
  {
    hide InOrder, Without, Find;
    RemoveOrdered(c, key, clock, limits);
  }

  lemma EmptyOrdered(clock: real, limits: Limits)
    ensures Ordered(EMPTY, clock, limits)
  {
  }

  lemma {:induction false} EveryRunIsOrdered(ops: seq<Op>, start: real, limits: Limits)
    requires IsMonotone(ops, start) && forall op :: op in ops ==> SharesTheTtl(op)
    ensures Ordered(Run(ops, limits), Clock(ops, start), limits)
  {
    hide Ordered, Apply;
    if ops == [] {
      EmptyOrdered(start, limits);
    } else {
      var before, op := ops[..|ops| - 1], ops[|ops| - 1];
      EveryRunIsOrdered(before, start, limits);
      assert [op][..0] == [];
      ApplyOrdered(Run(before, limits), op, Clock(before, start), Clock([op], Clock(before, start)), limits);
    }
  }

  /**
   * With a clock that does not go back and no ttl of their own, a sweep (every `set`, `size` and `bytes` makes one)
   * drops exactly the entries that have expired by then.
   */
  lemma SweepsLeaveNothingExpired(ops: seq<Op>, start: real, now: real, limits: Limits)
    requires IsMonotone(ops, start) && forall op :: op in ops ==> SharesTheTtl(op)
    ensures DropExpired(Run(ops, limits), now).entries == Live(Run(ops, limits).entries, now)
  {
    hide Run, Live;
    EveryRunIsOrdered(ops, start, limits);
    EveryRunIsValid(ops, limits);
    SweepDropsAllExpired(Run(ops, limits), now);
  }

  /**
   * The same for a `set` that keeps its value: what is left is the longest part that fits of the entries still valid,
   * in the order of their use, and the new one.
   */
  lemma SetLeavesTheLatestLiveEntries(ops: seq<Op>, op: Op, start: real, limits: Limits)
    requires IsMonotone(ops, start) && forall earlier :: earlier in ops ==> SharesTheTtl(earlier)
    requires op.DoSet? && op.size.Some? && IsKept(op.size.value, op.own, limits)
    ensures var item := Item(op.key, op.value, op.size.value, Expiry(TtlOf(op.own, limits), op.later));
      IsLongestFittingSuffix(Apply(Run(ops, limits), op, limits).entries,
                             Live(Without(Run(ops, limits).entries, op.key), op.now) + [item], limits)
  {
    hide Run, Live, Without, Valid, IsKept, Evict, DropExpired, IsLongestFittingSuffix, Ordered, Remove;
    var c := Run(ops, limits);
    EveryRunIsOrdered(ops, start, limits);
    EveryRunIsValid(ops, limits);
    ValidIsConsistent(c, limits);
    RemoveConsistent(c, op.key);
    RemoveOrdered(c, op.key, Clock(ops, start), limits);
    RemoveEntries(c, op.key);
    OrderedIsInOrder(Remove(c, op.key), Clock(ops, start), limits);
    SweepDropsAllExpired(Remove(c, op.key), op.now);
    SetKeepsLongestSuffix(c, op.key, op.value, op.size.value, op.own, op.now, op.later, limits);
  }

  lemma OrderedIsInOrder(c: State, clock: real, limits: Limits)
    requires Ordered(c, clock, limits)
    ensures InOrder(c.expiring)
  {
  }

  const LONG := Item("a", 1, 1.0, At(100.0))
  const SHORT := Item("b", 2, 1.0, At(10.0))

  /** Such a state is reached when an entry gets a ttl of its own: the shorter one behind it outlives its expiry. */
  lemma OwnTtlHoldsBackTheSweep()
    ensures var limits := Limits(8, None, None);
      var ops := [DoSet("a", 1, Some(1.0), Some(Millis(100.0)), 0.0, 0.0),
        DoSet("b", 2, Some(1.0), Some(Millis(10.0)), 0.0, 0.0)];
      && IsMonotone(ops, 0.0)
      && DropExpired(Run(ops, limits), 50.0).entries != Live(Run(ops, limits).entries, 50.0)
  {
    hide Run, Apply;
    var limits := Limits(8, None, None);
    var first, second := DoSet("a", 1, Some(1.0), Some(Millis(100.0)), 0.0, 0.0),
      DoSet("b", 2, Some(1.0), Some(Millis(10.0)), 0.0, 0.0);
    assert [first, second] == [first] + [second] && [first] == [] + [first];
    assert IsMonotone([], 0.0) && IsMonotone([first], 0.0);
    RunPush([], first, limits);
    RunPush([first], second, limits);
    RunNone(limits);
    BothAreSet(limits);
    ShortStays();
  }

  lemma RunNone(limits: Limits)
    ensures Run([], limits) == EMPTY
  {
  }

  lemma BothAreSet(limits: Limits)
    requires limits == Limits(8, None, None)
    ensures Apply(EMPTY, DoSet("a", 1, Some(1.0), Some(Millis(100.0)), 0.0, 0.0), limits) == State([LONG], [LONG], 1.0)
    ensures Apply(State([LONG], [LONG], 1.0), DoSet("b", 2, Some(1.0), Some(Millis(10.0)), 0.0, 0.0), limits)
         == State([LONG, SHORT], [LONG, SHORT], 2.0)
  {
    assert "a"[0] != "b"[0];
    assert !HasKey([LONG], "b");
    assert DropExpired(State([LONG], [LONG], 1.0), 0.0) == State([LONG], [LONG], 1.0);
  }

  lemma ShortStays()
    ensures var c := State([LONG, SHORT], [LONG, SHORT], 2.0);
      DropExpired(c, 50.0).entries != Live(c.entries, 50.0)
  {
    var c := State([LONG, SHORT], [LONG, SHORT], 2.0);
    assert DropExpired(c, 50.0) == c;
    assert c.entries[1] == SHORT && SHORT !in Live(c.entries, 50.0);
  }
}
