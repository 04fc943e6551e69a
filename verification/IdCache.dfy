/** The duplicate filter of the AODV agent (section 6.5 of RFC 3561): entries are purged when they have
    expired, yet every answer is the one the complete history of calls gives. */
module IdCache {

  datatype UniqueId = UniqueId(context: int, id: int, expire: int) {
    predicate IsExpired(now: int) { expire < now }

    predicate HasKey(addr: int, key: int) { context == addr && id == key }
  }

  /** The entries that have not expired, in order. */
  function Live(s: seq<UniqueId>, now: int): seq<UniqueId> {
    if s == [] then []
    else Live(s[..|s| - 1], now) + if s[|s| - 1].IsExpired(now) then [] else [s[|s| - 1]]
  }

  lemma LiveAppend(s: seq<UniqueId>, u: UniqueId, now: int)
    ensures Live(s + [u], now) == Live(s, now) + if u.IsExpired(now) then [] else [u]
  {
  }

  /** What expires stays expired. */
  lemma {:induction false} LiveLater(s: seq<UniqueId>, now: int, later: int)
    requires now <= later
    ensures Live(Live(s, now), later) == Live(s, later)
  {
    if s != [] {
      var u := s[|s| - 1];
      LiveLater(s[..|s| - 1], now, later);
      var before := Live(s[..|s| - 1], now);
      assert before + [] == before;
      if !u.IsExpired(now) { LiveAppend(before, u, later); }
    }
  }

  lemma {:induction false} LiveMembers(s: seq<UniqueId>, now: int, u: UniqueId)
    ensures u in Live(s, now) <==> u in s && now <= u.expire
  {
    if s != [] {
      LiveMembers(s[..|s| - 1], now, u);
      assert s == s[..|s| - 1] + [s[|s| - 1]];
    }
  }

  predicate UniqueKeys(s: seq<UniqueId>) {
    forall i, j | 0 <= i < j < |s| :: s[i].context != s[j].context || s[i].id != s[j].id
  }

  lemma {:induction false} LiveUnique(s: seq<UniqueId>, now: int)
    requires UniqueKeys(s)
    ensures UniqueKeys(Live(s, now))
  {
    if s != [] {
      LiveUnique(s[..|s| - 1], now);
      var last, before := s[|s| - 1], Live(s[..|s| - 1], now);
      forall k | 0 <= k < |before| ensures !before[k].HasKey(last.context, last.id) {
        LiveMembers(s[..|s| - 1], now, before[k]);
      }
    }
  }

  lemma {:induction false} SizeOfUnique(s: seq<UniqueId>)
    requires UniqueKeys(s)
    ensures |s| == |set u | u in s|
  {
    if s != [] {
      var rest, last := s[..|s| - 1], s[|s| - 1];
      SizeOfUnique(rest);
      assert s == rest + [last] && last !in rest;
      assert (set u | u in s) == (set u | u in rest) + {last};
    }
  }

  lemma LiveSize(s: seq<UniqueId>, now: int)
    requires UniqueKeys(Live(s, now))
    ensures |Live(s, now)| == |set u | u in s && now <= u.expire|
  {
    SizeOfUnique(Live(s, now));
    forall u ensures u in Live(s, now) <==> u in s && now <= u.expire { LiveMembers(s, now, u); }
    assert (set u | u in Live(s, now)) == set u | u in s && now <= u.expire;
  }

  ghost predicate Seen(s: seq<UniqueId>, addr: int, id: int, now: int) {
    exists u :: u in s && u.context == addr && u.id == id && now <= u.expire
  }

  lemma NotSeen(s: seq<UniqueId>, addr: int, id: int, now: int)
    requires forall k | 0 <= k < |Live(s, now)| :: !Live(s, now)[k].HasKey(addr, id)
    ensures !Seen(s, addr, id, now)
  {
    if u :| u in s && u.HasKey(addr, id) && now <= u.expire { LiveMembers(s, now, u); }
  }

  lemma SeenAt(s: seq<UniqueId>, addr: int, id: int, now: int, k: nat)
    requires k < |Live(s, now)| && Live(s, now)[k].HasKey(addr, id)
    ensures Seen(s, addr, id, now)
  {
  }

  /** No later answer depends on which of the two is kept. */
  ghost predicate Agree(cache: seq<UniqueId>, accepted: seq<UniqueId>, now: int) {
    forall t | now <= t :: Live(cache, t) == Live(accepted, t)
  }

  lemma Accept(cache: seq<UniqueId>, accepted: seq<UniqueId>, now: int, u: UniqueId)
    requires Agree(cache, accepted, now) && UniqueKeys(cache) && forall k | 0 <= k < |cache| :: !cache[k].HasKey(u.context, u.id)
    ensures Agree(cache + [u], accepted + [u], now) && UniqueKeys(cache + [u])
  {
  }

  class IdCache {
    var cache: seq<UniqueId>
    var lifetime: int
    /** Every call that found no duplicate, with the time its entry was to expire. */
    ghost var accepted: seq<UniqueId>
    /** The time of the latest call. */
    ghost var clock: int

    /** From now on nothing tells the cache from the complete history. */
    ghost predicate Valid()
      reads this
    {
      UniqueKeys(cache) && Agree(cache, accepted, clock)
    }

    /** An empty cache, from time `now` on. */
    constructor (lifetime: int, now: int)
      ensures Valid() && cache == [] && accepted == [] && this.lifetime == lifetime && clock == now
    {
      this.lifetime := lifetime;
      clock := now;
      cache := [];
      accepted := [];
    }

    method SetLifetime(lifetime: int)
      requires Valid()
      modifies this`lifetime
      ensures Valid() && this.lifetime == lifetime
    {
      this.lifetime := lifetime;
    }

    method Purge(now: int)
      requires Valid() && clock <= now
      modifies this`cache, this`clock
      ensures Valid() && clock == now
      ensures cache == Live(accepted, now)
    {
      LiveUnique(cache, now);
      cache := Live(cache, now);
      clock := now;
      forall t | now <= t ensures Live(cache, t) == Live(accepted, t) {
        LiveLater(old(cache), now, t);
      }
    }

    /** The answer is yes exactly if an earlier call for the same key was answered no and its entry, with the lifetime
        of that moment, reaches up to now. */
    method IsDuplicate(addr: int, id: int, now: int) returns (dup: bool)
      requires Valid() && clock <= now
      modifies this`cache, this`clock, this`accepted
      ensures Valid() && clock == now
      ensures dup <==> Seen(old(accepted), addr, id, now)
      ensures accepted == if dup then old(accepted) else old(accepted) + [UniqueId(addr, id, lifetime + now)]
    {
      Purge(now);
      hide *;
      for i := 0 to |cache|
        invariant forall k | 0 <= k < i :: !cache[k].HasKey(addr, id)
      {
        if cache[i].HasKey(addr, id) {
          SeenAt(accepted, addr, id, now, i);
          return true;
        }
      }
      var uniqueId := UniqueId(addr, id, lifetime + now);
      NotSeen(accepted, addr, id, now);
      Accept(cache, accepted, now, uniqueId);
      cache := cache + [uniqueId];
      accepted := accepted + [uniqueId];
      dup := false;
    }

    /** The size is the number of keys a call would now find to be duplicates. */
    method GetSize(now: int) returns (size: nat)
      requires Valid() && clock <= now
      modifies this`cache, this`clock
      ensures Valid() && clock == now
      ensures size == |set u | u in accepted && now <= u.expire|
      ensures cache == Live(accepted, now) && UniqueKeys(cache) && size == |cache|
    {
      Purge(now);
      LiveSize(accepted, now);
      size := |cache|;
    }
  }
}
