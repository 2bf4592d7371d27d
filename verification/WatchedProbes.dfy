/** The watched probe as it is used: the watchers, the listings and their total, changed in place by the callbacks. */
module WatchedProbes {
  import opened Collections
  import W = WatchedListings

  class WatchedProbe {
    const limits: W.Limits
    var watchers: map<string, nat>
    var listings: seq<W.Listing>
    var totalEntries: int
    var closed: bool

    ghost function Model(): W.Probe
      reads this
    {
      W.Probe(watchers, listings, totalEntries, closed)
    }

    constructor (limits: W.Limits)
      ensures this.limits == limits && Model() == W.EMPTY
    {
      this.limits := limits;
      watchers, listings, totalEntries, closed := map[], [], 0, false;
    }

    method Drop(directory: string)
      modifies this
      ensures Model() == W.Drop(old(Model()), directory)
    {
      totalEntries := totalEntries - W.SizeOf(W.Find(listings, directory));
      watchers := watchers - {directory};
      listings := W.Without(listings, directory);
    }

    method DropWatched(directory: string, watcher: nat)
      modifies this
      ensures Model() == W.DropWatched(old(Model()), directory, watcher)
    {
      if !(directory in watchers && watchers[directory] == watcher) {
        return;
      }
      Drop(directory);
    }

    method DropExpired(now: int)
      modifies this
      ensures Model() == W.DropExpired(old(Model()), now)
      decreases |listings|
    {
      if listings == [] || listings[0].expires > now {
        return;
      }
      Drop(listings[0].directory);
      DropExpired(now);
    }

    method Keep(directory: string, watcher: nat, names: Option<set<string>>, now: int, later: int)
      modifies this
      ensures Model() == W.Keep(old(Model()), directory, watcher, names, now, later, limits)
    {
      if !(directory in watchers && watchers[directory] == watcher) {
        return;
      }
      if names.None? {
        Drop(directory);
        return;
      }

      DropExpired(now);
      if totalEntries + |names.value| > limits.maxTotalEntries {
        Drop(directory);
        return;
      }
      listings := listings + [W.Listing(directory, names.value, later + limits.maxAge)];
      totalEntries := totalEntries + |names.value|;
    }

    /** `rests` and `missed` are what the caches with a cooldown say about the directory. */
    method List(directory: string, rests: bool, missed: bool, watcher: Option<nat>, now: int) returns (started: bool)
      modifies this
      ensures Model() == W.List(old(Model()), directory, rests, missed, watcher, now, limits)
      ensures started == W.Starts(old(Model()), Model(), directory)
    {
      if limits.maxDirectories == 0 || closed || directory in watchers || rests {
        return false;
      }
      if !missed {
        return false;
      }

      NoneAppears(Model(), now, directory);
      if |watchers| >= limits.maxDirectories {
        DropExpired(now);
      }
      if |watchers| >= limits.maxDirectories {
        return false;
      }
      if watcher.None? {
        return false;
      }

      watchers := watchers[directory := watcher.value];
      return true;
    }

    method IsMissingInListing(directory: string, name: string, now: int,
            normalize: string -> string) returns (missing: bool)
      modifies this
      ensures (missing, Model()) == W.Ask(old(Model()), directory, name, now, normalize)
    {
      var listing := W.Find(listings, directory);
      if listing.None? {
        return false;
      }
      if listing.value.expires <= now {
        Drop(directory);
        return false;
      }
      return normalize(name) !in listing.value.names;
    }

    method Close()
      modifies this
      ensures Model() == W.Close(old(Model()))
    {
      closed := true;
      totalEntries := 0;
      watchers := map[];
      listings := [];
    }
  }

  /** A sweep starts no watcher. */
  lemma {:induction false} NoneAppears(p: W.Probe, now: int, directory: string)
    ensures directory in W.DropExpired(p, now).watchers ==> directory in p.watchers
    decreases |p.listings|
  {
    if p.listings != [] && p.listings[0].expires <= now {
      NoneAppears(W.Drop(p, p.listings[0].directory), now, directory);
    }
  }
}
