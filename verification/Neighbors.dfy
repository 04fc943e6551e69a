/** The neighbour list of the AODV agent (local connectivity, section 6.10 of RFC 3561): over any run, the
    reports of every link alternate between its opening and its failure, and the list is what they leave open. */
module Neighbors {

  /** No hardware address is known yet. */
  const NO_MAC := 0

  datatype Neighbor = Neighbor(addr: int, mac: int, expire: int, close: bool) {
    predicate ToClose(now: int) { expire < now || close }
  }

  /** A neighbour enters the list, or the link-failure callback is called for it. */
  datatype Event = Opened(addr: int) | Failed(addr: int)

  // ---- the list ------------------------------------------------------------------------------

  function Keep(s: seq<Neighbor>, now: int): seq<Neighbor> {
    if s == [] then []
    else Keep(s[..|s| - 1], now) + if s[|s| - 1].ToClose(now) then [] else [s[|s| - 1]]
  }

  /** The failures reported by a purge. */
  function Failures(s: seq<Neighbor>, now: int): seq<Event> {
    if s == [] then []
    else Failures(s[..|s| - 1], now) + if s[|s| - 1].ToClose(now) then [Failed(s[|s| - 1].addr)] else []
  }

  function CloseMac(s: seq<Neighbor>, mac: int): seq<Neighbor> {
    seq(|s|, i requires 0 <= i < |s| => if s[i].mac == mac then s[i].(close := true) else s[i])
  }

  predicate Has(s: seq<Neighbor>, addr: int) { exists i | 0 <= i < |s| :: s[i].addr == addr }

  predicate UniqueAddrs(s: seq<Neighbor>) { forall i, j | 0 <= i < j < |s| :: s[i].addr != s[j].addr }

  predicate NoneFlagged(s: seq<Neighbor>) { forall i | 0 <= i < |s| :: !s[i].close }

  /** Whoever is in both lists does not expire earlier in the second. */
  ghost predicate ExpiriesKept(s: seq<Neighbor>, s': seq<Neighbor>) {
    forall e, e' | e in s && e' in s' && e.addr == e'.addr :: e.expire <= e'.expire
  }

  /** Those of `s` whose time is over, or that are flagged. */
  ghost function Over(s: seq<Neighbor>, now: int): set<Neighbor> { set e | e in s && (e.expire < now || e.close) }

  /** Those of `s` whose time is over, or that have this hardware address. */
  ghost function OverOrAt(s: seq<Neighbor>, mac: int, now: int): set<Neighbor> { set e | e in s && (e.expire < now || e.mac == mac) }

  /** Exactly those of `s` that are not gone, in the same order. */
  ghost predicate Left(s: seq<Neighbor>, gone: set<Neighbor>, left: seq<Neighbor>) {
    && (forall e :: e in left <==> e in s && e !in gone)
    && forall i, j | 0 <= i < j < |left| :: Before(s, left[i].addr, left[j].addr)
  }

  /** Exactly those that are gone have failed, in the same order. */
  ghost predicate Told(s: seq<Neighbor>, gone: set<Neighbor>, reports: seq<Event>) {
    && (forall a :: Failed(a) in reports <==> exists e :: e in gone && e.addr == a)
    && (forall i | 0 <= i < |reports| :: reports[i].Failed?)
    && forall i, j | 0 <= i < j < |reports| :: Before(s, reports[i].addr, reports[j].addr)
  }

  ghost predicate Before(s: seq<Neighbor>, a: int, b: int) {
    exists p, q | 0 <= p < q < |s| :: s[p].addr == a && s[q].addr == b
  }

  lemma BeforeAppend(s: seq<Neighbor>, e: Neighbor)
    ensures forall a, b | Before(s, a, b) :: Before(s + [e], a, b)
    ensures forall a | Has(s, a) :: Before(s + [e], a, e.addr)
  {
    forall a, b | Before(s, a, b) ensures Before(s + [e], a, b) {
      var p, q :| 0 <= p < q < |s| && s[p].addr == a && s[q].addr == b;
      assert (s + [e])[p].addr == a && (s + [e])[q].addr == b;
    }
    forall a | Has(s, a) ensures Before(s + [e], a, e.addr) {
      var p :| 0 <= p < |s| && s[p].addr == a;
      assert (s + [e])[p].addr == a && (s + [e])[|s|].addr == e.addr;
    }
  }

  lemma {:induction false} KeepLeaves(s: seq<Neighbor>, now: int)
    ensures Left(s, Over(s, now), Keep(s, now))
  {
    forall e ensures e in Keep(s, now) <==> e in s && e !in Over(s, now) { KeepMembers(s, now, e); }
    if s != [] {
      var rest, last := s[..|s| - 1], s[|s| - 1];
      assert s == rest + [last];
      KeepLeaves(rest, now);
      BeforeAppend(rest, last);
      var kept := Keep(rest, now);
      forall i, j | 0 <= i < j < |Keep(s, now)| ensures Before(s, Keep(s, now)[i].addr, Keep(s, now)[j].addr) {
        assert Keep(s, now)[i] == kept[i] && kept[i] in rest;
        if j < |kept| { assert Before(rest, kept[i].addr, kept[j].addr); } else { assert Has(rest, kept[i].addr); }
      }
    }
  }

  lemma {:induction false} FailuresTell(s: seq<Neighbor>, now: int)
    ensures Told(s, Over(s, now), Failures(s, now))
  {
    if s != [] {
      var rest, last := s[..|s| - 1], s[|s| - 1];
      assert s == rest + [last];
      FailuresTell(rest, now);
      BeforeAppend(rest, last);
      assert Over(s, now) == Over(rest, now) + if last.expire < now || last.close then {last} else {};
      var before, reports := Failures(rest, now), Failures(s, now);
      forall i, j | 0 <= i < j < |reports| ensures Before(s, reports[i].addr, reports[j].addr) {
        assert reports[i] == before[i];
        if j < |before| {
          assert Before(rest, before[i].addr, before[j].addr);
        } else {
          assert Failed(before[i].addr) in before && reports[j] == Failed(last.addr);
          var e :| e in Over(rest, now) && e.addr == before[i].addr;
          assert Has(rest, before[i].addr);
        }
      }
      forall a ensures Failed(a) in reports <==> exists e :: e in Over(s, now) && e.addr == a {
        ToldAppend(rest, last, now, a);
      }
    }
  }

  lemma ToldAppend(rest: seq<Neighbor>, last: Neighbor, now: int, a: int)
    requires Told(rest, Over(rest, now), Failures(rest, now))
    ensures Failed(a) in Failures(rest + [last], now) <==> exists e :: e in Over(rest + [last], now) && e.addr == a
  {
    var s := rest + [last];
    assert s[..|s| - 1] == rest;
    assert forall e :: e in Over(s, now) <==> e in Over(rest, now) || (e == last && (e.expire < now || e.close));
    assert Failed(a) in Failures(s, now) <==>
      Failed(a) in Failures(rest, now) || (last.addr == a && (last.expire < now || last.close));
  }

  /** What is over among those flagged is what is over or at this hardware address. */
  lemma FlaggedOver(s: seq<Neighbor>, mac: int, now: int)
    requires NoneFlagged(s)
    ensures Left(s, OverOrAt(s, mac, now), Keep(CloseMac(s, mac), now))
    ensures Told(s, OverOrAt(s, mac, now), Failures(CloseMac(s, mac), now))
  {
    var s' := CloseMac(s, mac);
    KeepLeaves(s', now);
    FailuresTell(s', now);
    hide Keep;
    hide Failures;
    forall e ensures e in Keep(s', now) <==> e in s && e !in OverOrAt(s, mac, now) { FlaggedMember(s, mac, e); }
    var reports := Failures(s', now);
    forall a ensures Failed(a) in reports <==> exists e :: e in OverOrAt(s, mac, now) && e.addr == a {
      FlaggedGone(s, mac, now, a);
    }
    SameOrder(s, mac);
  }

  lemma SameOrder(s: seq<Neighbor>, mac: int)
    ensures forall a, b :: Before(CloseMac(s, mac), a, b) ==> Before(s, a, b)
  {
  }

  /** Who is not flagged afterwards was there, with another hardware address. */
  lemma FlaggedMember(s: seq<Neighbor>, mac: int, e: Neighbor)
    requires NoneFlagged(s)
    ensures e in CloseMac(s, mac) && !e.close <==> e in s && e.mac != mac
  {
    var s' := CloseMac(s, mac);
    if e in s && e.mac != mac {
      var i :| 0 <= i < |s| && s[i] == e;
      assert s'[i] == e;
    }
  }

  lemma FlaggedGone(s: seq<Neighbor>, mac: int, now: int, a: int)
    requires NoneFlagged(s)
    ensures (exists e :: e in Over(CloseMac(s, mac), now) && e.addr == a) <==> exists e :: e in OverOrAt(s, mac, now) && e.addr == a
  {
    var s' := CloseMac(s, mac);
    if e :| e in Over(s', now) && e.addr == a {
      var i :| 0 <= i < |s'| && s'[i] == e;
      assert s[i] in OverOrAt(s, mac, now) && s[i].addr == a;
    }
    if e :| e in OverOrAt(s, mac, now) && e.addr == a {
      var i :| 0 <= i < |s| && s[i] == e;
      assert s'[i] in Over(s', now) && s'[i].addr == a;
    }
  }

  lemma {:induction false} KeepMembers(s: seq<Neighbor>, now: int, e: Neighbor)
    ensures e in Keep(s, now) <==> e in s && now <= e.expire && !e.close
  {
    if s != [] {
      KeepMembers(s[..|s| - 1], now, e);
      assert s == s[..|s| - 1] + [s[|s| - 1]];
    }
  }

  lemma {:induction false} KeepUnique(s: seq<Neighbor>, now: int)
    requires UniqueAddrs(s)
    ensures UniqueAddrs(Keep(s, now)) && NoneFlagged(Keep(s, now))
  {
    if s != [] {
      KeepUnique(s[..|s| - 1], now);
      var last, before := s[|s| - 1], Keep(s[..|s| - 1], now);
      forall k | 0 <= k < |before| ensures before[k].addr != last.addr {
        KeepMembers(s[..|s| - 1], now, before[k]);
      }
    }
  }

  // ---- the reports on one link -------------------------------------------------------------------

  /** Whether the reports on `addr` alternate and begin with an opening, and if so whether the link is open. */
  datatype Link = Open | Closed | Broken

  function After(l: Link, e: Event): Link {
    match (l, e)
    case (Closed, Opened(_)) => Open
    case (Open, Failed(_)) => Closed
    case _ => Broken
  }

  function LinkState(log: seq<Event>, addr: int): Link {
    if log == [] then Closed
    else
      var before := LinkState(log[..|log| - 1], addr);
      if log[|log| - 1].addr == addr then After(before, log[|log| - 1]) else before
  }

  /** All links have alternated, and the open ones are those in the list. */
  ghost predicate Alternating(log: seq<Event>, s: seq<Neighbor>) {
    forall a :: LinkState(log, a) == if Has(s, a) then Open else Closed
  }

  lemma StateAppend(log: seq<Event>, e: Event, a: int)
    ensures LinkState(log + [e], a) == if e.addr == a then After(LinkState(log, a), e) else LinkState(log, a)
  {
  }

  lemma OpenStep(log: seq<Event>, s: seq<Neighbor>, e: Neighbor)
    requires Alternating(log, s) && !Has(s, e.addr)
    ensures Alternating(log + [Opened(e.addr)], s + [e])
  {
    forall a ensures LinkState(log + [Opened(e.addr)], a) == if Has(s + [e], a) then Open else Closed {
      StateAppend(log, Opened(e.addr), a);
      HasAppend(s, e, a);
    }
  }

  lemma HasAppend(s: seq<Neighbor>, e: Neighbor, a: int)
    ensures Has(s + [e], a) <==> Has(s, a) || e.addr == a
  {
    if Has(s, a) {
      var i :| 0 <= i < |s| && s[i].addr == a;
      assert (s + [e])[i].addr == a;
    }
    if e.addr == a { assert (s + [e])[|s|].addr == a; }
  }

  /** A purge reports exactly the links it drops. */
  lemma {:induction false} PurgeStep(log: seq<Event>, s: seq<Neighbor>, now: int, a: int)
    requires UniqueAddrs(s) && LinkState(log, a) == if Has(s, a) then Open else Closed
    ensures LinkState(log + Failures(s, now), a) == if Has(Keep(s, now), a) then Open else Closed
    decreases |s|
  {
    if s == [] {
      assert log + [] == log;
    } else {
      var last, rest := s[|s| - 1], s[..|s| - 1];
      assert s == rest + [last];
      HasAppend(rest, last, a);
      if last.addr == a {
        assert !Has(rest, a);
        NoReports(log, rest, now, a);
        NotKept(rest, now, a);
      } else {
        PurgeStep(log, rest, now, a);
      }
      if last.ToClose(now) {
        assert log + Failures(s, now) == (log + Failures(rest, now)) + [Failed(last.addr)];
        assert Keep(s, now) == Keep(rest, now);
        StateAppend(log + Failures(rest, now), Failed(last.addr), a);
      } else {
        assert Failures(s, now) == Failures(rest, now);
        HasAppend(Keep(rest, now), last, a);
      }
    }
  }

  lemma {:induction false} NoReports(log: seq<Event>, s: seq<Neighbor>, now: int, a: int)
    requires !Has(s, a)
    ensures LinkState(log + Failures(s, now), a) == LinkState(log, a)
    decreases |s|
  {
    if s == [] {
      assert log + [] == log;
    } else {
      var last, rest := s[|s| - 1], s[..|s| - 1];
      assert s == rest + [last];
      HasAppend(rest, last, a);
      NoReports(log, rest, now, a);
      if last.ToClose(now) {
        assert log + Failures(s, now) == (log + Failures(rest, now)) + [Failed(last.addr)];
        StateAppend(log + Failures(rest, now), Failed(last.addr), a);
      } else {
        assert Failures(s, now) == Failures(rest, now);
      }
    }
  }

  lemma NotKept(s: seq<Neighbor>, now: int, a: int)
    requires !Has(s, a)
    ensures !Has(Keep(s, now), a)
  {
  }

  /** The same neighbours, in order, none expiring earlier; maybe more of them. */
  predicate Prolonged(s: seq<Neighbor>, s': seq<Neighbor>) {
    |s| <= |s'| && forall i | 0 <= i < |s| :: s[i].addr == s'[i].addr && s[i].expire <= s'[i].expire
  }

  lemma ProlongedKept(s: seq<Neighbor>, s': seq<Neighbor>, now: int)
    requires Prolonged(s, s') && UniqueAddrs(s')
    ensures ExpiriesKept(s, s') && ExpiriesKept(s, Keep(s', now))
  {
    forall e, e' | e in s && e' in s' && e.addr == e'.addr ensures e.expire <= e'.expire {
      var i :| 0 <= i < |s| && s[i] == e;
      var j :| 0 <= j < |s'| && s'[j] == e';
      assert s'[i].addr == s'[j].addr;
    }
    forall e, e' | e in s && e' in Keep(s', now) && e.addr == e'.addr ensures e.expire <= e'.expire {
      KeepMembers(s', now, e');
    }
  }

  lemma SameAddrs(log: seq<Event>, s: seq<Neighbor>, s': seq<Neighbor>)
    requires |s| == |s'| && forall i | 0 <= i < |s| :: s[i].addr == s'[i].addr
    ensures UniqueAddrs(s) ==> UniqueAddrs(s')
    ensures Alternating(log, s) ==> Alternating(log, s')
  {
  }

  // ---- the class -------------------------------------------------------------------------------------

  class Neighbors {
    var nb: seq<Neighbor>
    /** Whether a link-failure callback has been set; it is set, if at all, before the first neighbour appears. */
    const handled: bool
    ghost var log: seq<Event>

    ghost predicate Valid()
      reads this
    {
      UniqueAddrs(nb) && NoneFlagged(nb) && (handled ==> Alternating(log, nb))
    }

    constructor (handled: bool)
      ensures Valid() && nb == [] && log == [] && this.handled == handled
    {
      this.handled := handled;
      nb := [];
      log := [];
    }

    /** Report and drop what has expired or is flagged. */
    method Purge(now: int)
      requires UniqueAddrs(nb) && (handled ==> Alternating(log, nb))
      modifies this
      ensures Valid() && nb == Keep(old(nb), now) && |log| >= |old(log)|
      ensures log == old(log) + if handled then Failures(old(nb), now) else []
      ensures Left(old(nb), Over(old(nb), now), nb)
      ensures if handled then Told(old(nb), Over(old(nb), now), log[|old(log)|..]) else log == old(log)
    {
      KeepLeaves(nb, now);
      FailuresTell(nb, now);
      if nb == [] {
        return;
      }
      if handled {
        for j := 0 to |nb|
          invariant nb == old(nb) && log == old(log) + Failures(nb[..j], now)
        {
          if nb[j].ToClose(now) {
            log := log + [Failed(nb[j].addr)];
          }
          assert nb[..j + 1][..j] == nb[..j];
        }
        assert nb[..|nb|] == nb;
        forall a ensures LinkState(log, a) == if Has(Keep(nb, now), a) then Open else Closed {
          PurgeStep(old(log), nb, now, a);
        }
      }
      KeepUnique(nb, now);
      nb := Keep(nb, now);
    }

    /** Who is not expired is a neighbour; asking drops and reports the others. */
    method IsNeighbor(addr: int, now: int) returns (b: bool)
      requires Valid()
      modifies this
      ensures Valid() && nb == Keep(old(nb), now) && |log| >= |old(log)|
      ensures log == old(log) + if handled then Failures(old(nb), now) else []
      ensures Left(old(nb), Over(old(nb), now), nb)
      ensures if handled then Told(old(nb), Over(old(nb), now), log[|old(log)|..]) else log == old(log)
      ensures b <==> exists e :: e in old(nb) && e.addr == addr && now <= e.expire
    {
      hide Left;
      hide Told;
      hide Over;
      Purge(now);
      for i := 0 to |nb|
        invariant forall k | 0 <= k < i :: nb[k].addr != addr
      {
        if nb[i].addr == addr {
          KeepMembers(old(nb), now, nb[i]);
          return true;
        }
      }
      forall e | e in old(nb) && e.addr == addr ensures e.expire < now {
        KeepMembers(old(nb), now, e);
      }
      return false;
    }

    method GetExpireTime(addr: int, now: int) returns (left: int)
      requires Valid()
      modifies this
      ensures Valid() && nb == Keep(old(nb), now) && |log| >= |old(log)|
      ensures log == old(log) + if handled then Failures(old(nb), now) else []
      ensures Left(old(nb), Over(old(nb), now), nb)
      ensures if handled then Told(old(nb), Over(old(nb), now), log[|old(log)|..]) else log == old(log)
      ensures left >= 0
      ensures forall e | e in old(nb) && e.addr == addr :: left == if e.expire < now then 0 else e.expire - now
      ensures !Has(old(nb), addr) ==> left == 0
    {
      hide Left;
      hide Told;
      hide Over;
      Purge(now);
      for i := 0 to |nb|
        invariant forall k | 0 <= k < i :: nb[k].addr != addr
      {
        if nb[i].addr == addr {
          KeepMembers(old(nb), now, nb[i]);
          return nb[i].expire - now;
        }
      }
      forall e | e in old(nb) && e.addr == addr ensures e.expire < now {
        KeepMembers(old(nb), now, e);
      }
      return 0;
    }

    /** Hearing from a neighbour prolongs its entry, even an expired one that no purge has met yet, and then leaves
        all others alone. A new neighbour is entered, and this time expired entries are dropped: the new one too,
        at once, if it was given no time. */
    method Update(addr: int, expire: int, now: int, lookup: int -> int)
      requires Valid()
      modifies this
      ensures Valid() && ExpiriesKept(old(nb), nb)
      ensures Has(old(nb), addr) ==>
                |nb| == |old(nb)| && log == old(log)
                && forall i | 0 <= i < |nb| :: nb[i] ==
                     var e := old(nb)[i];
                     if e.addr != addr then e
                     else e.(expire := if e.expire < expire + now then expire + now else e.expire,
                             mac := if e.mac == NO_MAC then lookup(addr) else e.mac)
      ensures !Has(old(nb), addr) ==>
                var entered := old(nb) + [Neighbor(addr, lookup(addr), expire + now, false)];
                nb == Keep(entered, now)
                && log == old(log) + [Opened(addr)] + (if handled then Failures(entered, now) else [])
                && Left(entered, Over(entered, now), nb) && Told(entered, Over(entered, now), Failures(entered, now))
    {
      for i := 0 to |nb|
        invariant nb == old(nb) && log == old(log)
        invariant forall k | 0 <= k < i :: nb[k].addr != addr
      {
        if nb[i].addr == addr {
          Prolong(i, expire, now, lookup);
          return;
        }
      }
      Enter(addr, expire, now, lookup);
    }

    method Prolong(i: nat, expire: int, now: int, lookup: int -> int)
      requires Valid() && i < |nb|
      modifies this`nb
      ensures Valid() && ExpiriesKept(old(nb), nb) && |nb| == |old(nb)|
      ensures forall k | 0 <= k < |nb| && k != i :: nb[k] == old(nb)[k]
      ensures var e := old(nb)[i];
              nb[i] == e.(expire := if e.expire < expire + now then expire + now else e.expire,
                          mac := if e.mac == NO_MAC then lookup(e.addr) else e.mac)
    {
      var e := nb[i];
      e := e.(expire := if e.expire < expire + now then expire + now else e.expire);
      if e.mac == NO_MAC {
        e := e.(mac := lookup(e.addr));
      }
      nb := nb[i := e];
      SameAddrs(log, old(nb), nb);
      ProlongedKept(old(nb), nb, now);
    }

    method Enter(addr: int, expire: int, now: int, lookup: int -> int)
      requires Valid() && !Has(nb, addr)
      modifies this
      ensures Valid() && ExpiriesKept(old(nb), nb)
      ensures var entered := old(nb) + [Neighbor(addr, lookup(addr), expire + now, false)];
              && nb == Keep(entered, now)
              && log == old(log) + [Opened(addr)] + (if handled then Failures(entered, now) else [])
              && Left(entered, Over(entered, now), nb) && Told(entered, Over(entered, now), Failures(entered, now))
    {
      var neighbor := Neighbor(addr, lookup(addr), expire + now, false);
      if handled {
        OpenStep(log, nb, neighbor);
      }
      nb := nb + [neighbor];
      ProlongedKept(old(nb), nb, now);
      log := log + [Opened(addr)];
      FailuresTell(nb, now);
      Purge(now);
    }

    /** A transmission error closes all links to this hardware address. */
    method ProcessTxError(mac: int, now: int)
      requires Valid()
      modifies this
      ensures Valid() && ExpiriesKept(old(nb), nb)
      ensures nb == Keep(CloseMac(old(nb), mac), now)
      ensures log == old(log) + if handled then Failures(CloseMac(old(nb), mac), now) else []
      ensures Left(old(nb), OverOrAt(old(nb), mac, now), nb)
      ensures if handled then Told(old(nb), OverOrAt(old(nb), mac, now), log[|old(log)|..]) else log == old(log)
    {
      FlaggedOver(nb, mac, now);
      Flag(mac);
      SameAddrs(log, old(nb), nb);
      ProlongedKept(old(nb), nb, now);
      Purge(now);
    }

    method Flag(mac: int)
      modifies this`nb
      ensures nb == CloseMac(old(nb), mac)
    {
      for i := 0 to |nb|
        invariant |nb| == |old(nb)| && nb[i..] == old(nb)[i..]
        invariant forall k | 0 <= k < i :: nb[k] == CloseMac(old(nb), mac)[k]
      {
        assert nb[i] == nb[i..][0] == old(nb)[i];
        if nb[i].mac == mac {
          nb := nb[i := nb[i].(close := true)];
        }
        assert nb[i + 1..] == old(nb)[i..][1..];
      }
    }
  }
}
