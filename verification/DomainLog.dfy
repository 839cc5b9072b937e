/**
 The cache of domain names learned from DNS answers.  Entries expire lazily: a lookup purges what
 has expired for its own address and nothing else is ever cleaned up.  The specification is a plain log of
 observations; clock readings are inputs that never go back, in nanoseconds like the times to live.
 */
module DomainLog {
  import opened Wrappers
  import opened Net
  import opened Text
  import opened Engine

  datatype Entry = Entry(domain: string, expiresAt: nat)

  type Entries = map<Ipv4Addr, seq<Entry>>

  /** One address answer, seen at time `at`. */
  datatype Observation = Observation(ip: Ipv4Addr, name: string, ttl: nat, at: nat)

  function NormalName(name: string): Option<string> {
    if DomainForm(name) == [] then None else Some(DomainForm(name))
  }

  /** An observation counts only with a nonzero time to live and a name that is not blank. */
  predicate Counts(o: Observation) {
    o.ttl != 0 && NormalName(o.name).Some?
  }

  // ---------------------------------------------------------------------------
  // The log
  // ---------------------------------------------------------------------------

  /** A counting observation of `d` for `ip`. */
  predicate Hits(o: Observation, ip: Ipv4Addr, d: string) {
    Counts(o) && o.ip == ip && NormalName(o.name).value == d
  }

  /** When the latest counting observation of `d` for `ip` among the first `n` expires. */
  function LatestOf(log: seq<Observation>, n: nat, ip: Ipv4Addr, d: string): Option<nat>
    requires n <= |log|
  {
    if n == 0 then None
    else if Hits(log[n - 1], ip, d) then Some(log[n - 1].at + log[n - 1].ttl)
    else LatestOf(log, n - 1, ip, d)
  }

  function Latest(log: seq<Observation>, ip: Ipv4Addr, d: string): Option<nat> {
    LatestOf(log, |log|, ip, d)
  }

  predicate Live(log: seq<Observation>, ip: Ipv4Addr, now: nat, d: string) {
    Latest(log, ip, d).Some? && Latest(log, ip, d).value > now
  }

  /** The `i`-th observation gives `ip` its name at time `now`: it has a nonzero time to live that has not
      run out, its name is not blank, and no later observation of `ip` has the same name. */
  ghost predicate Current(log: seq<Observation>, i: nat, ip: Ipv4Addr, now: nat) {
    && i < |log| && log[i].ip == ip && log[i].ttl > 0 && log[i].at + log[i].ttl > now
    && DomainForm(log[i].name) != []
    && forall j :: i < j < |log| && log[j].ip == ip && log[j].ttl > 0 ==> DomainForm(log[j].name) != DomainForm(log[i].name)
  }

  /** The names that the log gives `ip` at time `now`, in their normal form. */
  ghost function LiveNames(log: seq<Observation>, ip: Ipv4Addr, now: nat): set<string> {
    set i: nat | i < |log| && Current(log, i, ip, now) :: DomainForm(log[i].name)
  }

  lemma {:induction false} LastHit(log: seq<Observation>, n: nat, ip: Ipv4Addr, d: string) returns (i: nat)
    requires n <= |log| && LatestOf(log, n, ip, d).Some?
    ensures i < n && Hits(log[i], ip, d) && LatestOf(log, n, ip, d) == Some(log[i].at + log[i].ttl)
    ensures forall j :: i < j < n ==> !Hits(log[j], ip, d)
  {
    if Hits(log[n - 1], ip, d) {
      i := n - 1;
    } else {
      i := LastHit(log, n - 1, ip, d);
    }
  }

  lemma {:induction false} LatestIsLastHit(log: seq<Observation>, n: nat, ip: Ipv4Addr, d: string, i: nat)
    requires i < n <= |log| && Hits(log[i], ip, d) && forall j :: i < j < n ==> !Hits(log[j], ip, d)
    ensures LatestOf(log, n, ip, d) == Some(log[i].at + log[i].ttl)
  {
    if i < n - 1 { LatestIsLastHit(log, n - 1, ip, d, i); }
  }

  lemma CurrentIsLive(log: seq<Observation>, i: nat, ip: Ipv4Addr, now: nat)
    requires Current(log, i, ip, now)
    ensures Live(log, ip, now, DomainForm(log[i].name))
  {
    LatestIsLastHit(log, |log|, ip, DomainForm(log[i].name), i);
  }

  lemma LiveIsCurrent(log: seq<Observation>, ip: Ipv4Addr, now: nat, d: string) returns (i: nat)
    requires Live(log, ip, now, d)
    ensures Current(log, i, ip, now) && DomainForm(log[i].name) == d
  {
    i := LastHit(log, |log|, ip, d);
  }

  lemma LiveNamesAreLive(log: seq<Observation>, ip: Ipv4Addr, now: nat, d: string)
    ensures d in LiveNames(log, ip, now) <==> Live(log, ip, now, d)
  {
    if Live(log, ip, now, d) { var i := LiveIsCurrent(log, ip, now, d); }
    if d in LiveNames(log, ip, now) {
      var i: nat :| i < |log| && Current(log, i, ip, now) && DomainForm(log[i].name) == d;
      CurrentIsLive(log, i, ip, now);
    }
  }

  // ---------------------------------------------------------------------------
  // The cache operations
  // ---------------------------------------------------------------------------

  /** The first entry of `d` gets the new expiry, or `d` goes to the end. */
  function Upsert(list: seq<Entry>, d: string, expiresAt: nat): seq<Entry> {
    if list == [] then [Entry(d, expiresAt)]
    else if list[0].domain == d then [Entry(d, expiresAt)] + list[1..]
    else [list[0]] + Upsert(list[1..], d, expiresAt)
  }

  function Retain(list: seq<Entry>, now: nat): seq<Entry> {
    if list == [] then []
    else if list[0].expiresAt > now then [list[0]] + Retain(list[1..], now)
    else Retain(list[1..], now)
  }

  function Domains(list: seq<Entry>): (names: seq<string>)
    ensures |names| == |list| && forall i :: 0 <= i < |list| ==> names[i] == list[i].domain
  {
    seq(|list|, i requires 0 <= i < |list| => list[i].domain)
  }

  function Insert(entries: Entries, o: Observation): Entries {
    if !Counts(o) then entries
    else
      var list := if o.ip in entries then entries[o.ip] else [];
      entries[o.ip := Upsert(list, NormalName(o.name).value, o.at + o.ttl)]
  }

  function Found(entries: Entries, ip: Ipv4Addr, now: nat): seq<string> {
    if ip in entries then Domains(Retain(entries[ip], now)) else []
  }

  function Purge(entries: Entries, ip: Ipv4Addr, now: nat): Entries {
    if ip !in entries then entries
    else if Retain(entries[ip], now) == [] then entries - {ip}
    else entries[ip := Retain(entries[ip], now)]
  }

  /** The clock is read again for every answer of a response; `delays[i]` passes after the `i`-th
      reading, and nothing after the last delay. */
  function ClockAt(now: nat, delays: seq<nat>, i: nat): nat {
    if i == 0 then now
    else ClockAt(now, delays, i - 1) + if i <= |delays| then delays[i - 1] else 0
  }

  /** No reading of a response is later than this. */
  function LastClock(now: nat, delays: seq<nat>): nat {
    ClockAt(now, delays, |delays|)
  }

  lemma {:induction false} ClockIsMonotone(now: nat, delays: seq<nat>, i: nat, j: nat)
    requires i <= j
    ensures now <= ClockAt(now, delays, i) <= ClockAt(now, delays, j)
    ensures |delays| <= i ==> ClockAt(now, delays, i) == ClockAt(now, delays, j)
    decreases j
  {
    if i < j {
      ClockIsMonotone(now, delays, i, j - 1);
    } else if i > 0 {
      ClockIsMonotone(now, delays, i - 1, j - 1);
    }
  }

  lemma ClockIsBounded(now: nat, delays: seq<nat>, i: nat)
    ensures now <= ClockAt(now, delays, i) <= LastClock(now, delays)
  {
    if i <= |delays| {
      ClockIsMonotone(now, delays, i, |delays|);
    } else {
      ClockIsMonotone(now, delays, |delays|, i);
    }
  }

  /** Times never go back, from `clock` up to `end`. */
  predicate Chronological(clock: nat, os: seq<Observation>, end: nat) {
    && (forall i :: 0 <= i < |os| ==> clock <= os[i].at <= end)
    && (forall i, j :: 0 <= i < j < |os| ==> os[i].at <= os[j].at)
  }

  lemma StampedIsChronological(answers: seq<Answer>, now: nat, delays: seq<nat>)
    ensures Chronological(now, Stamped(answers, now, delays), LastClock(now, delays))
  {
    var os := Stamped(answers, now, delays);
    forall i | 0 <= i < |os| ensures now <= os[i].at <= LastClock(now, delays) {
      ClockIsBounded(now, delays, i);
    }
    forall i, j | 0 <= i < j < |os| ensures os[i].at <= os[j].at {
      ClockIsMonotone(now, delays, i, j);
    }
  }

  /** An address answer of a DNS response; its time to live is in seconds. */
  datatype Answer = Answer(ip: Ipv4Addr, name: string, ttl: nat)

  function Stamped(answers: seq<Answer>, now: nat, delays: seq<nat>): (os: seq<Observation>)
    ensures |os| == |answers|
    ensures forall i :: 0 <= i < |answers| ==>
              os[i] == Observation(answers[i].ip, answers[i].name, 1_000_000_000 * answers[i].ttl, ClockAt(now, delays, i))
  {
    seq(|answers|, i requires 0 <= i < |answers| =>
      Observation(answers[i].ip, answers[i].name, answers[i].ttl * SECOND, ClockAt(now, delays, i)))
  }

  function InsertAll(entries: Entries, os: seq<Observation>): Entries
    decreases |os|
  {
    if os == [] then entries else InsertAll(Insert(entries, os[0]), os[1..])
  }

  // ---------------------------------------------------------------------------
  // The cache refines the log
  // ---------------------------------------------------------------------------

  predicate NoDuplicates(list: seq<Entry>) {
    forall i, j :: 0 <= i < j < |list| ==> list[i].domain != list[j].domain
  }

  /** Every entry is the latest observation of its name, and nothing unexpired is missing. */
  ghost predicate ListRefines(list: seq<Entry>, log: seq<Observation>, ip: Ipv4Addr, clock: nat) {
    && NoDuplicates(list)
    && (forall x :: x in list ==> Latest(log, ip, x.domain) == Some(x.expiresAt))
    && (forall d :: Live(log, ip, clock, d) ==> Entry(d, Latest(log, ip, d).value) in list)
  }

  function ListOf(entries: Entries, ip: Ipv4Addr): seq<Entry> {
    if ip in entries then entries[ip] else []
  }

  ghost predicate Refines(entries: Entries, log: seq<Observation>, clock: nat) {
    && (forall ip :: ip in entries ==> entries[ip] != [])
    && (forall ip :: ListRefines(ListOf(entries, ip), log, ip, clock))
  }

  lemma ConsDistinct(x: Entry, rest: seq<Entry>)
    requires NoDuplicates(rest) && forall y :: y in rest ==> y.domain != x.domain
    ensures NoDuplicates([x] + rest)
  {
    var list := [x] + rest;
    forall i, j | 0 <= i < j < |list| ensures list[i].domain != list[j].domain {
      assert list[j] == rest[j - 1] && rest[j - 1] in rest;
    }
  }

  lemma TailDistinct(list: seq<Entry>)
    requires list != [] && NoDuplicates(list)
    ensures NoDuplicates(list[1..]) && forall y :: y in list[1..] ==> y.domain != list[0].domain
  {
    var rest := list[1..];
    forall y | y in rest ensures y.domain != list[0].domain {
      var i :| 0 <= i < |rest| && rest[i] == y;
      assert list[i + 1] == y;
    }
  }

  lemma {:induction false} UpsertMembers(list: seq<Entry>, d: string, t: nat)
    requires NoDuplicates(list)
    ensures NoDuplicates(Upsert(list, d, t)) && Upsert(list, d, t) != []
    ensures forall x :: x in Upsert(list, d, t) <==> x == Entry(d, t) || (x in list && x.domain != d)
  {
    if list != [] {
      var first, rest := list[0], list[1..];
      assert list == [first] + rest;
      TailDistinct(list);
      if first.domain == d {
        ConsDistinct(Entry(d, t), rest);
      } else {
        UpsertMembers(rest, d, t);
        ConsDistinct(first, Upsert(rest, d, t));
      }
    }
  }

  /** A name keeps its place when it is refreshed, and a new one goes to the end. */
  lemma {:induction false} UpsertKeepsOrder(list: seq<Entry>, d: string, t: nat)
    ensures Domains(Upsert(list, d, t)) == if d in Domains(list) then Domains(list) else Domains(list) + [d]
  {
    if list != [] {
      var x, rest := list[0], list[1..];
      assert list == [x] + rest;
      DomainsCons(x, rest);
      if x.domain == d {
        DomainsCons(Entry(d, t), rest);
      } else {
        UpsertKeepsOrder(rest, d, t);
        DomainsCons(x, Upsert(rest, d, t));
        ConsKeeps(x.domain, Domains(rest), d);
      }
    }
  }

  lemma DomainsCons(x: Entry, rest: seq<Entry>)
    ensures Domains([x] + rest) == [x.domain] + Domains(rest)
  {
  }

  lemma ConsKeeps(n: string, names: seq<string>, d: string)
    requires n != d
    ensures d in [n] + names <==> d in names
    ensures [n] + (names + [d]) == [n] + names + [d]
  {
  }

  lemma {:induction false} RetainMembers(list: seq<Entry>, now: nat)
    requires NoDuplicates(list)
    ensures NoDuplicates(Retain(list, now))
    ensures forall x :: x in Retain(list, now) <==> x in list && x.expiresAt > now
  {
    if list != [] {
      var first, rest := list[0], list[1..];
      assert list == [first] + rest;
      TailDistinct(list);
      RetainMembers(rest, now);
      if first.expiresAt > now { ConsDistinct(first, Retain(rest, now)); }
    }
  }

  lemma {:induction false} LatestOfLonger(log: seq<Observation>, more: seq<Observation>, n: nat, ip: Ipv4Addr, d: string)
    requires n <= |log|
    ensures LatestOf(log + more, n, ip, d) == LatestOf(log, n, ip, d)
  {
    if n > 0 { LatestOfLonger(log, more, n - 1, ip, d); }
  }

  lemma LatestAppend(log: seq<Observation>, o: Observation, ip: Ipv4Addr, d: string)
    ensures Latest(log + [o], ip, d) == if Hits(o, ip, d) then Some(o.at + o.ttl) else Latest(log, ip, d)
  {
    LatestOfLonger(log, [o], |log|, ip, d);
  }

  lemma InsertRefinesAt(entries: Entries, log: seq<Observation>, clock: nat, o: Observation, ip: Ipv4Addr)
    requires ListRefines(ListOf(entries, ip), log, ip, clock) && clock <= o.at
    ensures ListRefines(ListOf(Insert(entries, o), ip), log + [o], ip, o.at)
  {
    var list, list' := ListOf(entries, ip), ListOf(Insert(entries, o), ip);
    forall d ensures Latest(log + [o], ip, d) ==
      if Hits(o, ip, d) then Some(o.at + o.ttl) else Latest(log, ip, d)
    {
      LatestAppend(log, o, ip, d);
    }
    if Counts(o) && o.ip == ip {
      UpsertMembers(list, NormalName(o.name).value, o.at + o.ttl);
      assert list' == Upsert(list, NormalName(o.name).value, o.at + o.ttl);
    } else {
      assert list' == list;
    }
    forall d | Live(log + [o], ip, o.at, d) ensures Entry(d, Latest(log + [o], ip, d).value) in list' {
      if !Hits(o, ip, d) {
        assert Live(log, ip, clock, d);
      }
    }
  }

  /** Inserting an observation keeps the cache a refinement of the longer log. */
  lemma InsertRefines(entries: Entries, log: seq<Observation>, clock: nat, o: Observation)
    requires Refines(entries, log, clock) && clock <= o.at
    ensures Refines(Insert(entries, o), log + [o], o.at)
  {
    forall ip ensures ListRefines(ListOf(Insert(entries, o), ip), log + [o], ip, o.at) {
      InsertRefinesAt(entries, log, clock, o, ip);
    }
    if Counts(o) {
      assert ListRefines(ListOf(entries, o.ip), log, o.ip, clock);
      UpsertMembers(ListOf(entries, o.ip), NormalName(o.name).value, o.at + o.ttl);
    }
  }

  /** A lookup purges without losing anything that could still be found. */
  lemma PurgeRefines(entries: Entries, log: seq<Observation>, clock: nat, ip: Ipv4Addr, now: nat)
    requires Refines(entries, log, clock) && clock <= now
    ensures Refines(Purge(entries, ip, now), log, now)
  {
    forall x ensures ListRefines(ListOf(Purge(entries, ip, now), x), log, x, now) {
      assert ListRefines(ListOf(entries, x), log, x, clock);
      forall d | Live(log, x, now, d) ensures Live(log, x, clock, d) { }
      if x == ip {
        RetainMembers(ListOf(entries, x), now);
        assert ListOf(Purge(entries, ip, now), x) == Retain(ListOf(entries, x), now);
      }
    }
  }

  /** A lookup leaves nothing expired behind for its own address, and every other address as it was. */
  lemma PurgeIsExact(entries: Entries, ip: Ipv4Addr, now: nat)
    requires ip in entries ==> NoDuplicates(entries[ip])
    ensures forall x :: x != ip ==> ListOf(Purge(entries, ip, now), x) == ListOf(entries, x)
    ensures ip in Purge(entries, ip, now) <==> Found(entries, ip, now) != []
    ensures forall x :: x in ListOf(Purge(entries, ip, now), ip) <==> x in ListOf(entries, ip) && x.expiresAt > now
    ensures Domains(ListOf(Purge(entries, ip, now), ip)) == Found(entries, ip, now)
  {
    if ip in entries { RetainMembers(entries[ip], now); }
  }

  /** What a lookup returns: the live names of the log, each once. */
  lemma FoundIsLive(entries: Entries, log: seq<Observation>, clock: nat, ip: Ipv4Addr, now: nat)
    requires Refines(entries, log, clock) && clock <= now
    ensures NameSet(Found(entries, ip, now)) == LiveNames(log, ip, now)
    ensures forall i, j :: 0 <= i < j < |Found(entries, ip, now)| ==> Found(entries, ip, now)[i] != Found(entries, ip, now)[j]
  {
    var list := ListOf(entries, ip);
    assert ListRefines(list, log, ip, clock);
    RetainMembers(list, now);
    var kept := Retain(list, now);
    var names := Found(entries, ip, now);
    assert names == Domains(kept);
    forall d ensures d in NameSet(names) <==> d in LiveNames(log, ip, now) {
      LiveNamesAreLive(log, ip, now, d);
      if d in names {
        var i :| 0 <= i < |names| && names[i] == d;
        assert kept[i] in kept;
      }
      if Live(log, ip, now, d) {
        assert Live(log, ip, clock, d);
        var x := Entry(d, Latest(log, ip, d).value);
        assert x in kept;
        var i :| 0 <= i < |kept| && kept[i] == x;
        assert names[i] == d;
      }
    }
  }

  // ---------------------------------------------------------------------------
  // Whole runs
  // ---------------------------------------------------------------------------

  datatype Event = Observe(o: Observation) | Query(ip: Ipv4Addr, now: nat) {
    function Time(): nat {
      if Observe? then o.at else now
    }
  }

  predicate Timely(clock: nat, es: seq<Event>)
    decreases |es|
  {
    es == [] || (clock <= es[0].Time() && Timely(es[0].Time(), es[1..]))
  }

  function Run(entries: Entries, es: seq<Event>): Entries
    decreases |es|
  {
    if es == [] then entries
    else
      Run(match es[0] case Observe(o) => Insert(entries, o) case Query(ip, now) => Purge(entries, ip, now), es[1..])
  }

  /** The observations of a run, without its lookups. */
  function LogOf(es: seq<Event>): seq<Observation>
    decreases |es|
  {
    if es == [] then []
    else (if es[0].Observe? then [es[0].o] else []) + LogOf(es[1..])
  }

  lemma LogOfStep(log: seq<Observation>, es: seq<Event>)
    requires es != []
    ensures log + LogOf(es) == (if es[0].Observe? then log + [es[0].o] else log) + LogOf(es[1..])
  {
  }

  lemma {:induction false} RunRefines(entries: Entries, log: seq<Observation>, clock: nat, es: seq<Event>) returns (last: nat)
    requires Refines(entries, log, clock) && Timely(clock, es)
    ensures Refines(Run(entries, es), log + LogOf(es), last)
    ensures last == if es == [] then clock else es[|es| - 1].Time()
    decreases |es|
  {
    if es == [] {
      assert log + LogOf(es) == log;
      last := clock;
    } else {
      match es[0]
      case Observe(o) =>
        InsertRefines(entries, log, clock, o);
        LogOfStep(log, es);
        last := RunRefines(Insert(entries, o), log + [o], o.at, es[1..]);
      case Query(ip, now) =>
        PurgeRefines(entries, log, clock, ip, now);
        LogOfStep(log, es);
        last := RunRefines(Purge(entries, ip, now), log, now, es[1..]);
    }
  }

  lemma {:induction false} TimelyLast(clock: nat, es: seq<Event>, e: Event)
    requires Timely(clock, es + [e])
    ensures Timely(clock, es) && (if es == [] then clock else es[|es| - 1].Time()) <= e.Time()
    decreases |es|
  {
    if es == [] {
      assert (es + [e])[0] == e;
    } else {
      assert (es + [e])[0] == es[0] && (es + [e])[1..] == es[1..] + [e];
      TimelyLast(es[0].Time(), es[1..], e);
    }
  }

  lemma EmptyRefines()
    ensures Refines(map[], [], 0)
  {
  }

  /** In every run with a clock that never goes back, a lookup returns exactly the names whose latest
      nonzero-TTL observation for the address has not expired, each once; no address keeps an empty list. */
  lemma LookupAgreesWithLog(es: seq<Event>, ip: Ipv4Addr, now: nat)
    requires Timely(0, es + [Query(ip, now)])
    ensures var names := Found(Run(map[], es), ip, now);
            && NameSet(names) == LiveNames(LogOf(es), ip, now)
            && (forall i, j :: 0 <= i < j < |names| ==> names[i] != names[j])
    ensures forall x :: x in Run(map[], es) ==> Run(map[], es)[x] != []
  {
    EmptyRefines();
    TimelyLast(0, es, Query(ip, now));
    var last := RunRefines(map[], [], 0, es);
    assert [] + LogOf(es) == LogOf(es);
    FoundIsLive(Run(map[], es), LogOf(es), last, ip, now);
  }

  /** Lookups made anywhere in between never change the set a later lookup returns. */
  lemma ExtraLookupsAreInvisible(es: seq<Event>, fs: seq<Event>, ip: Ipv4Addr, now: nat)
    requires Timely(0, es + [Query(ip, now)]) && Timely(0, fs + [Query(ip, now)]) && LogOf(es) == LogOf(fs)
    ensures NameSet(Found(Run(map[], es), ip, now)) == NameSet(Found(Run(map[], fs), ip, now))
  {
    LookupAgreesWithLog(es, ip, now);
    LookupAgreesWithLog(fs, ip, now);
  }

  /** The same observation up to the spelling of its name. */
  predicate Alike(x: Observation, y: Observation) {
    x.ip == y.ip && x.ttl == y.ttl && x.at == y.at && DomainForm(x.name) == DomainForm(y.name)
  }

  ghost predicate SameForms(xs: seq<Observation>, ys: seq<Observation>) {
    |xs| == |ys| && forall i {:trigger Alike(xs[i], ys[i])} :: 0 <= i < |xs| ==> Alike(xs[i], ys[i])
  }

  lemma AlikeAt(xs: seq<Observation>, ys: seq<Observation>, i: nat, ip: Ipv4Addr, d: string)
    requires SameForms(xs, ys) && i < |xs|
    ensures Hits(xs[i], ip, d) == Hits(ys[i], ip, d) && xs[i].at + xs[i].ttl == ys[i].at + ys[i].ttl
  {
    assert Alike(xs[i], ys[i]);
  }

  /** Logs that spell their names differently but with equal forms agree on every name. */
  lemma {:induction false} SpellingIsIrrelevant(xs: seq<Observation>, ys: seq<Observation>, n: nat, ip: Ipv4Addr, d: string)
    requires SameForms(xs, ys) && n <= |xs|
    ensures LatestOf(xs, n, ip, d) == LatestOf(ys, n, ip, d)
  {
    if n > 0 {
      SpellingIsIrrelevant(xs, ys, n - 1, ip, d);
      AlikeAt(xs, ys, n - 1, ip, d);
    }
  }

  lemma LiveNamesIgnoreSpelling(xs: seq<Observation>, ys: seq<Observation>, ip: Ipv4Addr, now: nat)
    requires SameForms(xs, ys)
    ensures LiveNames(xs, ip, now) == LiveNames(ys, ip, now)
  {
    forall d ensures d in LiveNames(xs, ip, now) <==> d in LiveNames(ys, ip, now) {
      SpellingIsIrrelevant(xs, ys, |xs|, ip, d);
      LiveNamesAreLive(xs, ip, now, d);
      LiveNamesAreLive(ys, ip, now, d);
    }
  }
}
