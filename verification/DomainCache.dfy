/** The domain cache as an object whose vectors change in place. */
module DomainCache {
  import opened Net
  import opened Engine
  import opened DomainLog

  /** Updating the entry found, or pushing a new one, is the `Upsert` of the model. */
  lemma {:induction false} UpsertInPlace(list: seq<Entry>, i: nat, d: string, t: nat)
    requires i <= |list| && (forall j :: 0 <= j < i ==> list[j].domain != d)
    requires i < |list| ==> list[i].domain == d
    ensures Upsert(list, d, t) == if i < |list| then list[i := Entry(d, t)] else list + [Entry(d, t)]
  {
    if i > 0 {
      UpsertInPlace(list[1..], i - 1, d, t);
    }
  }

  /** The first `i` of the observations have been taken in. */
  ghost predicate TakenIn(entries0: Entries, log0: seq<Observation>, os: seq<Observation>, i: nat, entries: Entries, log: seq<Observation>)
    requires i <= |os|
  {
    log == log0 + os[..i] && InsertAll(entries, os[i..]) == InsertAll(entries0, os)
  }

  lemma TakeInNext(entries0: Entries, log0: seq<Observation>, os: seq<Observation>, i: nat, entries: Entries, log: seq<Observation>)
    requires i < |os| && TakenIn(entries0, log0, os, i, entries, log)
    ensures TakenIn(entries0, log0, os, i + 1, Insert(entries, os[i]), log + [os[i]])
  {
    assert os[i..][0] == os[i] && os[i..][1..] == os[i + 1..];
    assert os[..i + 1] == os[..i] + [os[i]];
  }

  class DomainCache {
    var entries: Entries
    ghost var log: seq<Observation>
    ghost var clock: nat

    ghost predicate Valid()
      reads this
    {
      Refines(entries, log, clock)
    }

    constructor ()
      ensures Valid() && entries == map[] && log == [] && clock == 0
    {
      entries, log, clock := map[], [], 0;
    }

    /** Finds the index of the entry for `d`, or the length of the list. */
    static method Find(list: seq<Entry>, d: string) returns (i: nat)
      ensures i <= |list| && (forall j :: 0 <= j < i ==> list[j].domain != d)
      ensures i < |list| ==> list[i].domain == d
    {
      i := 0;
      while i < |list| && list[i].domain != d
        invariant i <= |list| && forall j :: 0 <= j < i ==> list[j].domain != d
      {
        i := i + 1;
      }
    }

    /** The map after an insert: nothing for a zero TTL or a blank name, else the refreshed entry or a
        new one at the end of the address's list. */
    static method InsertInto(entries: Entries, ip: Ipv4Addr, name: string, ttl: nat, now: nat) returns (r: Entries)
      ensures r == Insert(entries, Observation(ip, name, ttl, now))
    {
      if ttl == 0 {
        return entries;
      }
      var normal := NormalName(name);
      if normal.None? {
        return entries;
      }
      var list := if ip in entries then entries[ip] else [];
      var i := Find(list, normal.value);
      UpsertInPlace(list, i, normal.value, now + ttl);
      if i < |list| {
        r := entries[ip := list[i := Entry(normal.value, now + ttl)]];
      } else {
        r := entries[ip := list + [Entry(normal.value, now + ttl)]];
      }
    }

    method InsertName(ip: Ipv4Addr, name: string, ttl: nat, now: nat)
      requires Valid() && clock <= now
      modifies this
      ensures Valid() && log == old(log) + [Observation(ip, name, ttl, now)] && clock == now
      ensures entries == Insert(old(entries), Observation(ip, name, ttl, now))
    {
      InsertRefines(entries, log, clock, Observation(ip, name, ttl, now));
      entries := InsertInto(entries, ip, name, ttl, now);
      log, clock := log + [Observation(ip, name, ttl, now)], now;
    }

    /** Returns the live names and drops what has expired for this address. */
    method LookUp(ip: Ipv4Addr, now: nat) returns (names: seq<string>)
      requires Valid() && clock <= now
      modifies this
      ensures Valid() && log == old(log) && clock == now
      ensures names == Found(old(entries), ip, now) && entries == Purge(old(entries), ip, now)
      ensures NameSet(names) == LiveNames(log, ip, now)
      ensures forall i, j :: 0 <= i < j < |names| ==> names[i] != names[j]
    {
      FoundIsLive(entries, log, clock, ip, now);
      PurgeRefines(entries, log, clock, ip, now);
      clock := now;
      if ip !in entries {
        return [];
      }
      var kept := Retain(entries[ip], now);
      names := Domains(kept);
      if kept == [] {
        entries := entries - {ip};
      } else {
        entries := entries[ip := kept];
      }
    }

    /** Learns all address answers of one response, in order, reading the clock for each. */
    method ObserveAnswers(answers: seq<Answer>, now: nat, delays: seq<nat>)
      requires Valid() && clock <= now
      modifies this
      ensures Valid() && log == old(log) + Stamped(answers, now, delays) && clock <= LastClock(now, delays)
      ensures entries == InsertAll(old(entries), Stamped(answers, now, delays))
    {
      ghost var stamped := Stamped(answers, now, delays);
      var reading := now;
      ClockIsBounded(now, delays, 0);
      for i := 0 to |answers|
        invariant Valid() && clock <= reading == ClockAt(now, delays, i) && clock <= LastClock(now, delays)
        invariant TakenIn(old(entries), old(log), stamped, i, entries, log)
      {
        TakeInNext(old(entries), old(log), stamped, i, entries, log);
        ClockIsBounded(now, delays, i);
        InsertName(answers[i].ip, answers[i].name, answers[i].ttl * SECOND, reading);
        reading := reading + if i < |delays| then delays[i] else 0;
      }
    }
  }
}
