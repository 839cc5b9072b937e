/**
 The server's session and address table.  A handshake is two critical sections with a reply in
 between: look up or allocate, reply, insert.  Handshakes interleave with each other, with
 disconnects and with the expiry sweep; each critical section is one event.  Fresh session ids and
 clock readings are event inputs, and so is the entry a disconnect finds first.
 */
module SessionTable {
  import opened Wrappers
  import opened Net

  type SessionId = string

  datatype SocketAddr = SocketAddr(ip: Ipv4Addr, port: nat)

  const EXPIRY: nat := 3600 * SECOND
  const FIRST_CLIENT_ID: nat := 2

  datatype Client = Client(addr: SocketAddr, virtualIp: Ipv4Addr, lastSeen: nat)

  /** A handshake between its lookup and its insert; `replied` once the reply has gone out. */
  datatype Pending = Pending(id: SessionId, virtualIp: Ipv4Addr, addr: SocketAddr, replied: bool)

  /** `issued` lists the ids in allocation order; `granted` lists every id and address told to a client. */
  datatype State = State(
    sessions: map<SessionId, Client>,
    nextClientId: nat,
    pending: map<nat, Pending>,
    issued: seq<SessionId>,
    granted: seq<(SessionId, Ipv4Addr)>)

  datatype Event =
    | Begin(h: nat, addr: SocketAddr, provided: Option<SessionId>, newId: SessionId)
    | Reply(h: nat, sent: bool)
    | Commit(h: nat, now: nat)
    | Disconnect(addr: SocketAddr, victim: Option<SessionId>)
    | Sweep(now: nat)

  const INIT := State(map[], FIRST_CLIENT_ID, map[], [], [])

  /** `client_id as u8` in the last octet of 10.0.0.0/24. */
  function VirtualIp(clientId: nat): Ipv4Addr {
    Ipv4Addr(10, 0, 0, clientId % 256)
  }

  /** The address of the `k`-th allocation, counted from zero, without the counter's width. */
  function IpAt(k: nat): Ipv4Addr {
    VirtualIp(FIRST_CLIENT_ID + k)
  }

  predicate HasAddr(s: State, addr: SocketAddr, id: SessionId) {
    id in s.sessions && s.sessions[id].addr == addr
  }

  /** A sweep keeps a client seen less than an hour ago; one seen in the future counts as expired. */
  predicate Keeps(c: Client, now: nat) {
    c.lastSeen <= now && now - c.lastSeen < EXPIRY
  }

  predicate Enabled(s: State, e: Event) {
    match e
    case Begin(h, _, _, newId) => h !in s.pending && newId !in s.issued
    case Reply(h, _) => h in s.pending && !s.pending[h].replied
    case Commit(h, _) => h in s.pending && s.pending[h].replied
    case Disconnect(addr, victim) =>
      (match victim
       case Some(id) => HasAddr(s, addr, id)
       case None => forall id :: id in s.sessions ==> !HasAddr(s, addr, id))
    case Sweep(_) => true
  }

  function Apply(s: State, e: Event): State
    requires Enabled(s, e)
  {
    match e
    case Begin(h, addr, provided, newId) =>
      if provided.Some? && provided.value in s.sessions then
        s.(pending := s.pending[h := Pending(provided.value, s.sessions[provided.value].virtualIp, addr, false)])
      else
        s.(pending := s.pending[h := Pending(newId, VirtualIp(s.nextClientId), addr, false)],
           nextClientId := (s.nextClientId + 1) % U32_SIZE,
           issued := s.issued + [newId])
    case Reply(h, sent) =>
      var p := s.pending[h];
      if sent then s.(pending := s.pending[h := p.(replied := true)], granted := s.granted + [(p.id, p.virtualIp)])
      else s.(pending := s.pending - {h})
    case Commit(h, now) =>
      var p := s.pending[h];
      s.(sessions := s.sessions[p.id := Client(p.addr, p.virtualIp, now)], pending := s.pending - {h})
    case Disconnect(addr, victim) =>
      if victim.Some? then s.(sessions := s.sessions - {victim.value}) else s
    case Sweep(now) =>
      s.(sessions := map id | id in s.sessions && Keeps(s.sessions[id], now) :: s.sessions[id])
  }

  predicate Legal(s: State, es: seq<Event>)
    decreases |es|
  {
    es == [] || (Enabled(s, es[0]) && Legal(Apply(s, es[0]), es[1..]))
  }

  function Run(s: State, es: seq<Event>): State
    requires Legal(s, es)
    decreases |es|
  {
    if es == [] then s else Run(Apply(s, es[0]), es[1..])
  }

  // ---------------------------------------------------------------------------
  // One address per session id
  // ---------------------------------------------------------------------------

  /** `id` was issued, and `ip` is the address of its allocation. */
  ghost predicate Bound(issued: seq<SessionId>, id: SessionId, ip: Ipv4Addr) {
    exists k :: 0 <= k < |issued| && issued[k] == id && ip == IpAt(k)
  }

  predicate Distinct(issued: seq<SessionId>) {
    forall i, j :: 0 <= i < j < |issued| ==> issued[i] != issued[j]
  }

  ghost predicate Inv(s: State) {
    && Distinct(s.issued)
    && s.nextClientId == (FIRST_CLIENT_ID + |s.issued|) % U32_SIZE
    && (forall id :: id in s.sessions ==> Bound(s.issued, id, s.sessions[id].virtualIp))
    && (forall h :: h in s.pending ==> Bound(s.issued, s.pending[h].id, s.pending[h].virtualIp))
    && (forall i :: 0 <= i < |s.granted| ==> Bound(s.issued, s.granted[i].0, s.granted[i].1))
  }

  /** Truncating the 32-bit counter to a byte gives the same host byte as an unbounded counter. */
  lemma CounterWidthIsInvisible(n: nat)
    ensures VirtualIp(n % U32_SIZE) == VirtualIp(n) && (n % U32_SIZE + 1) % U32_SIZE == (n + 1) % U32_SIZE
  {
  }

  lemma BoundGrows(issued: seq<SessionId>, newId: SessionId, id: SessionId, ip: Ipv4Addr)
    requires Bound(issued, id, ip)
    ensures Bound(issued + [newId], id, ip)
  {
  }

  lemma BeginKeepsInv(s: State, e: Event)
    requires Inv(s) && Enabled(s, e) && e.Begin?
    ensures Inv(Apply(s, e))
  {
    var s' := Apply(s, e);
    if !(e.provided.Some? && e.provided.value in s.sessions) {
      var k := |s.issued|;
      CounterWidthIsInvisible(FIRST_CLIENT_ID + k);
      assert s'.issued[k] == e.newId;
      assert Bound(s'.issued, e.newId, IpAt(k));
      forall id | id in s'.sessions ensures Bound(s'.issued, id, s'.sessions[id].virtualIp) {
        BoundGrows(s.issued, e.newId, id, s.sessions[id].virtualIp);
      }
      forall h | h in s'.pending ensures Bound(s'.issued, s'.pending[h].id, s'.pending[h].virtualIp) {
        if h != e.h { BoundGrows(s.issued, e.newId, s.pending[h].id, s.pending[h].virtualIp); }
      }
      forall i | 0 <= i < |s'.granted| ensures Bound(s'.issued, s'.granted[i].0, s'.granted[i].1) {
        BoundGrows(s.issued, e.newId, s.granted[i].0, s.granted[i].1);
      }
    }
  }

  lemma InvStep(s: State, e: Event)
    requires Inv(s) && Enabled(s, e)
    ensures Inv(Apply(s, e))
  {
    if e.Begin? { BeginKeepsInv(s, e); }
  }

  lemma {:induction false} RunInv(s: State, es: seq<Event>)
    requires Inv(s) && Legal(s, es)
    ensures Inv(Run(s, es))
    decreases |es|
  {
    if es != [] {
      InvStep(s, es[0]);
      RunInv(Apply(s, es[0]), es[1..]);
    }
  }

  lemma BoundIsUnique(issued: seq<SessionId>, id: SessionId, ip: Ipv4Addr, k: nat)
    requires Distinct(issued) && Bound(issued, id, ip) && k < |issued| && issued[k] == id
    ensures ip == IpAt(k)
  {
  }

  /** Somewhere `id` goes with `ip`: in a reply already sent, in a handshake in flight or in the table. */
  ghost predicate Carries(s: State, id: SessionId, ip: Ipv4Addr) {
    || (id, ip) in s.granted
    || (exists h :: h in s.pending && s.pending[h].id == id && s.pending[h].virtualIp == ip)
    || (id in s.sessions && s.sessions[id].virtualIp == ip)
  }

  lemma CarriedIsBound(s: State, id: SessionId, ip: Ipv4Addr)
    requires Inv(s) && Carries(s, id, ip)
    ensures Bound(s.issued, id, ip)
  {
  }

  lemma {:induction false} IssuedGrows(s: State, es: seq<Event>)
    requires Legal(s, es)
    ensures s.issued <= Run(s, es).issued
    decreases |es|
  {
    if es != [] { IssuedGrows(Apply(s, es[0]), es[1..]); }
  }

  /** In every interleaving a session id has one address for the whole run: whatever reply, handshake in
      flight or table entry carries it at one moment, and whatever carries it at that moment or any later
      one, agree, even when the entry is removed between a reconnect's lookup and its insert. */
  lemma OneAddressPerSession(es: seq<Event>, later: seq<Event>, id: SessionId, ip: Ipv4Addr, ip': Ipv4Addr)
    requires Legal(INIT, es) && Legal(Run(INIT, es), later)
    requires Carries(Run(INIT, es), id, ip) && Carries(Run(Run(INIT, es), later), id, ip')
    ensures ip == ip'
  {
    var s := Run(INIT, es);
    RunInv(INIT, es);
    RunInv(s, later);
    IssuedGrows(s, later);
    CarriedIsBound(s, id, ip);
    CarriedIsBound(Run(s, later), id, ip');
    var k :| 0 <= k < |s.issued| && s.issued[k] == id && ip == IpAt(k);
    BoundIsUnique(Run(s, later).issued, id, ip', k);
  }

  // ---------------------------------------------------------------------------
  // Sharing addresses
  // ---------------------------------------------------------------------------

  /** `id` was the `k`-th allocation. */
  predicate IssuedAt(s: State, id: SessionId, k: nat) {
    k < |s.issued| && s.issued[k] == id
  }

  lemma HostByte(k: nat)
    ensures IpAt(k).d == if k % 256 < 254 then k % 256 + 2 else k % 256 - 254
  {
  }

  lemma IpAtCongruence(j: nat, k: nat)
    ensures IpAt(j) == IpAt(k) <==> j % 256 == k % 256
  {
    HostByte(j);
    HostByte(k);
  }

  /** The address of the `k`-th allocation, whoever carries it: 10.0.0.0 and the low byte of 2 + `k`. */
  lemma AddressIsItsAllocation(es: seq<Event>, id: SessionId, ip: Ipv4Addr, k: nat)
    requires Legal(INIT, es) && IssuedAt(Run(INIT, es), id, k) && Carries(Run(INIT, es), id, ip)
    ensures ip == Ipv4Addr(10, 0, 0, (2 + k) % 256) && ip.Bits() == 0x0A00_0000 + (2 + k) % 256
  {
    RunInv(INIT, es);
    CarriedIsBound(Run(INIT, es), id, ip);
    BoundIsUnique(Run(INIT, es).issued, id, ip, k);
  }

  /** Two sessions, live, in flight or only ever told to a client, share their address exactly when
      their allocation indices agree modulo 256. */
  lemma SharedAddressIffCongruent(
    es: seq<Event>, id1: SessionId, ip1: Ipv4Addr, k1: nat, id2: SessionId, ip2: Ipv4Addr, k2: nat)
    requires Legal(INIT, es) && IssuedAt(Run(INIT, es), id1, k1) && IssuedAt(Run(INIT, es), id2, k2)
    requires Carries(Run(INIT, es), id1, ip1) && Carries(Run(INIT, es), id2, ip2)
    ensures ip1 == ip2 <==> k1 % 256 == k2 % 256
  {
    var s := Run(INIT, es);
    RunInv(INIT, es);
    CarriedIsBound(s, id1, ip1);
    CarriedIsBound(s, id2, ip2);
    BoundIsUnique(s.issued, id1, ip1, k1);
    BoundIsUnique(s.issued, id2, ip2, k2);
    IpAtCongruence(k1, k2);
  }

  /** Such an address has one of the host bytes 0, 1 and 255 exactly if its allocation is one of the
      last three of its block of 256. */
  lemma ReservedHostByteIff(es: seq<Event>, id: SessionId, ip: Ipv4Addr, k: nat)
    requires Legal(INIT, es) && IssuedAt(Run(INIT, es), id, k) && Carries(Run(INIT, es), id, ip)
    ensures ip.d in {0, 1, 255} <==> k % 256 >= 253
  {
    var s := Run(INIT, es);
    RunInv(INIT, es);
    CarriedIsBound(s, id, ip);
    BoundIsUnique(s.issued, id, ip, k);
    HostByte(k);
  }

  /** `id` is a client that routing may pick for destination `ip`, in some iteration order. */
  predicate MayPick(s: State, ip: Ipv4Addr, id: SessionId) {
    id in s.sessions && s.sessions[id].virtualIp == ip
  }

  ghost predicate RoutingIsDeterministic(s: State) {
    forall ip, id1, id2 :: MayPick(s, ip, id1) && MayPick(s, ip, id2) ==> id1 == id2
  }

  /** No two live sessions are a multiple of 256 allocations apart. */
  ghost predicate NoCongruentPair(s: State) {
    forall k1, k2 :: 0 <= k1 < k2 < |s.issued| && s.issued[k1] in s.sessions && s.issued[k2] in s.sessions ==>
      k1 % 256 != k2 % 256
  }

  /** The client picked for a packet is independent of the map's order exactly when no two live
      sessions are congruent modulo 256. */
  lemma RoutingDeterminism(es: seq<Event>)
    requires Legal(INIT, es)
    ensures RoutingIsDeterministic(Run(INIT, es)) <==> NoCongruentPair(Run(INIT, es))
  {
    RunInv(INIT, es);
    var s := Run(INIT, es);
    if NoCongruentPair(s) {
      forall ip, id1, id2 | MayPick(s, ip, id1) && MayPick(s, ip, id2) ensures id1 == id2 {
        var k1 :| 0 <= k1 < |s.issued| && s.issued[k1] == id1 && ip == IpAt(k1);
        var k2 :| 0 <= k2 < |s.issued| && s.issued[k2] == id2 && ip == IpAt(k2);
        SharedAddressIffCongruent(es, id1, ip, k1, id2, ip, k2);
      }
    }
    if RoutingIsDeterministic(s) {
      forall k1, k2 | 0 <= k1 < k2 < |s.issued| && s.issued[k1] in s.sessions && s.issued[k2] in s.sessions
        ensures k1 % 256 != k2 % 256
      {
        var id1, id2 := s.issued[k1], s.issued[k2];
        SharedAddressIffCongruent(es, id1, s.sessions[id1].virtualIp, k1, id2, s.sessions[id2].virtualIp, k2);
        assert MayPick(s, s.sessions[id1].virtualIp, id1);
        assert MayPick(s, s.sessions[id2].virtualIp, id2);
      }
    }
  }

  /** While the live sessions span fewer than 256 allocations, every packet has at most one client. */
  lemma NarrowSpanRoutesDeterministically(es: seq<Event>, low: nat)
    requires Legal(INIT, es)
    requires forall k :: 0 <= k < |Run(INIT, es).issued| && Run(INIT, es).issued[k] in Run(INIT, es).sessions ==>
               low <= k < low + 256
    ensures RoutingIsDeterministic(Run(INIT, es))
  {
    RoutingDeterminism(es);
  }

  lemma FirstHostBytesAreFree(es: seq<Event>, id: SessionId, ip: Ipv4Addr)
    requires Legal(INIT, es) && |Run(INIT, es).issued| <= 253 && Carries(Run(INIT, es), id, ip)
    ensures ip.d !in {0, 1, 255}
  {
    RunInv(INIT, es);
    CarriedIsBound(Run(INIT, es), id, ip);
    var k :| 0 <= k < |Run(INIT, es).issued| && Run(INIT, es).issued[k] == id && ip == IpAt(k);
    HostByte(k);
  }

  lemma SmallIndicesDiffer(j: nat, k: nat)
    requires j < 256 && k < 256 && IpAt(j) == IpAt(k)
    ensures j == k
  {
    IpAtCongruence(j, k);
  }

  lemma FewAreDistinct(issued: seq<SessionId>, id1: SessionId, id2: SessionId, ip: Ipv4Addr)
    requires |issued| <= 256 && Bound(issued, id1, ip) && Bound(issued, id2, ip)
    ensures id1 == id2
  {
    var j :| 0 <= j < |issued| && issued[j] == id1 && ip == IpAt(j);
    var k :| 0 <= k < |issued| && issued[k] == id2 && ip == IpAt(k);
    SmallIndicesDiffer(j, k);
  }

  /** Until the 257th allocation no two ids share an address. */
  lemma FirstAddressesDiffer(es: seq<Event>, id1: SessionId, id2: SessionId, ip: Ipv4Addr)
    requires Legal(INIT, es) && |Run(INIT, es).issued| <= 256
    requires Carries(Run(INIT, es), id1, ip) && Carries(Run(INIT, es), id2, ip)
    ensures id1 == id2
  {
    RunInv(INIT, es);
    CarriedIsBound(Run(INIT, es), id1, ip);
    CarriedIsBound(Run(INIT, es), id2, ip);
    FewAreDistinct(Run(INIT, es).issued, id1, id2, ip);
  }

  /** Until the 254th allocation no two sessions, live, in flight or told to a client, share an address,
      and none has a reserved one. */
  lemma FirstAddressesAreSafe(es: seq<Event>)
    requires Legal(INIT, es) && |Run(INIT, es).issued| <= 253
    ensures forall id1, id2, ip :: Carries(Run(INIT, es), id1, ip) && Carries(Run(INIT, es), id2, ip) ==> id1 == id2
    ensures RoutingIsDeterministic(Run(INIT, es))
    ensures forall id, ip :: Carries(Run(INIT, es), id, ip) ==> ip.d !in {0, 1, 255}
  {
    NarrowSpanRoutesDeterministically(es, 0);
    forall id1, id2, ip | Carries(Run(INIT, es), id1, ip) && Carries(Run(INIT, es), id2, ip) ensures id1 == id2 {
      FirstAddressesDiffer(es, id1, id2, ip);
    }
    forall id, ip | Carries(Run(INIT, es), id, ip) ensures ip.d !in {0, 1, 255} {
      FirstHostBytesAreFree(es, id, ip);
    }
  }

  /** One complete handshake without a session id, from allocation to insert. */
  function Round(k: nat, addr: SocketAddr): seq<Event> {
    [Begin(k, addr, None, Name(k))] + ([Reply(k, true)] + ([Commit(k, 0)] + []))
  }

  function Rounds(n: nat, addr: SocketAddr): seq<Event> {
    if n == 0 then [] else Rounds(n - 1, addr) + Round(n - 1, addr)
  }

  /** A supply of distinct ids. */
  function Name(k: nat): (id: SessionId)
    ensures |id| == k
  {
    seq(k, _ => 'x')
  }

  lemma {:induction false} RunConcat(s: State, es: seq<Event>, fs: seq<Event>)
    ensures Legal(s, es + fs) <==> Legal(s, es) && Legal(Run(s, es), fs)
    ensures Legal(s, es + fs) ==> Run(s, es + fs) == Run(Run(s, es), fs)
    decreases |es|
  {
    if es == [] {
      assert es + fs == fs;
    } else {
      assert (es + fs)[1..] == es[1..] + fs;
      if Enabled(s, es[0]) { RunConcat(Apply(s, es[0]), es[1..], fs); }
    }
  }

  lemma RunRound(s: State, k: nat, addr: SocketAddr)
    requires k !in s.pending && Name(k) !in s.issued
    ensures Legal(s, Round(k, addr))
    ensures var s' := Run(s, Round(k, addr));
            && s'.issued == s.issued + [Name(k)] && s'.pending == s.pending
            && s'.sessions == s.sessions[Name(k) := Client(addr, VirtualIp(s.nextClientId), 0)]
  {
    var s1 := Apply(s, Begin(k, addr, None, Name(k)));
    var s2 := Apply(s1, Reply(k, true));
    var s3 := Apply(s2, Commit(k, 0));
    RunFirst(s2, Commit(k, 0), []);
    RunFirst(s1, Reply(k, true), [Commit(k, 0)] + []);
    RunFirst(s, Begin(k, addr, None, Name(k)), [Reply(k, true)] + ([Commit(k, 0)] + []));
    assert s3.pending == s.pending;
  }

  lemma RunFirst(s: State, e: Event, es: seq<Event>)
    requires Enabled(s, e) && Legal(Apply(s, e), es)
    ensures Legal(s, [e] + es) && Run(s, [e] + es) == Run(Apply(s, e), es)
  {
    assert ([e] + es)[1..] == es;
  }

  /** `n` handshakes are done and all their entries are there. */
  ghost predicate HasRounds(s: State, n: nat, addr: SocketAddr) {
    && |s.issued| == n && s.pending == map[]
    && (forall k: nat :: k < n ==> s.issued[k] == Name(k))
    && (forall k: nat :: k < n ==> HasAddr(s, addr, Name(k)))
  }

  lemma OneMoreRound(s: State, n: nat, addr: SocketAddr)
    requires HasRounds(s, n, addr)
    ensures Legal(s, Round(n, addr)) && HasRounds(Run(s, Round(n, addr)), n + 1, addr)
  {
    assert forall k: nat :: k < n ==> |Name(k)| != |Name(n)|;
    RunRound(s, n, addr);
    var s' := Run(s, Round(n, addr));
    forall k: nat | k < n + 1 ensures HasAddr(s', addr, Name(k)) {
      assert k < n ==> HasAddr(s, addr, Name(k));
    }
  }

  lemma {:induction false} RunRounds(n: nat, addr: SocketAddr)
    ensures Legal(INIT, Rounds(n, addr)) && HasRounds(Run(INIT, Rounds(n, addr)), n, addr)
  {
    if n > 0 {
      RunRounds(n - 1, addr);
      OneMoreRound(Run(INIT, Rounds(n - 1, addr)), n - 1, addr);
      RunConcat(INIT, Rounds(n - 1, addr), Round(n - 1, addr));
    }
  }

  /** Address uniqueness does fail in reachable states: after 257 handshakes two live sessions share
      an address and the routing of its packets depends on the map's order. */
  lemma CollisionIsReachable(addr: SocketAddr)
    ensures Legal(INIT, Rounds(257, addr))
    ensures !RoutingIsDeterministic(Run(INIT, Rounds(257, addr)))
  {
    RunRounds(257, addr);
    var s := Run(INIT, Rounds(257, addr));
    assert HasAddr(s, addr, Name(0)) && HasAddr(s, addr, Name(256));
    assert s.issued[0] == Name(0) && s.issued[256] == Name(256);
    RoutingDeterminism(Rounds(257, addr));
    assert !NoCongruentPair(s);
  }

  // ---------------------------------------------------------------------------
  // Reconnects, disconnects and expiry
  // ---------------------------------------------------------------------------

  /** A client that presents an issued id keeps it exactly when the id is still in the table; it keeps
      its address also in the one other case that the next allocation is congruent to the old one. */
  lemma ReconnectKeepsSessionIffPresent(es: seq<Event>, h: nat, addr: SocketAddr, id: SessionId, k: nat, newId: SessionId)
    requires Legal(INIT, es) && Enabled(Run(INIT, es), Begin(h, addr, Some(id), newId))
    requires k < |Run(INIT, es).issued| && Run(INIT, es).issued[k] == id
    ensures var s := Run(INIT, es);
            var p := Apply(s, Begin(h, addr, Some(id), newId)).pending[h];
            && (p.id == id <==> id in s.sessions)
            && (p.virtualIp == IpAt(k) <==> id in s.sessions || k % 256 == |s.issued| % 256)
  {
    RunInv(INIT, es);
    var s := Run(INIT, es);
    CounterWidthIsInvisible(FIRST_CLIENT_ID + |s.issued|);
    IpAtCongruence(k, |s.issued|);
    if id in s.sessions { BoundIsUnique(s.issued, id, s.sessions[id].virtualIp, k); }
  }

  /** A disconnect takes out exactly one entry of its address if there is one, never another
      address's, and leaves none of its address exactly when there was at most one. */
  lemma DisconnectRemovesOne(s: State, addr: SocketAddr, victim: Option<SessionId>)
    requires Enabled(s, Disconnect(addr, victim))
    ensures var s' := Apply(s, Disconnect(addr, victim));
            && (forall id :: id in s.sessions && s.sessions[id].addr != addr ==>
                  id in s'.sessions && s'.sessions[id] == s.sessions[id])
            && s'.sessions.Keys == s.sessions.Keys - (if victim.Some? then {victim.value} else {})
            && ((exists id :: HasAddr(s, addr, id)) <==> victim.Some?)
            && ((forall id :: !HasAddr(s', addr, id)) <==>
                (forall id1, id2 :: HasAddr(s, addr, id1) && HasAddr(s, addr, id2) ==> id1 == id2))
  {
    var s' := Apply(s, Disconnect(addr, victim));
    if victim.Some? {
      assert HasAddr(s, addr, victim.value);
      if id :| HasAddr(s', addr, id) {
        assert HasAddr(s, addr, id) && id != victim.value;
      }
      if forall id :: !HasAddr(s', addr, id) {
        forall id1, id2 | HasAddr(s, addr, id1) && HasAddr(s, addr, id2) ensures id1 == id2 {
          assert !HasAddr(s', addr, id1) && !HasAddr(s', addr, id2);
        }
      }
    } else {
      forall id ensures !HasAddr(s, addr, id) { }
      forall id ensures !HasAddr(s', addr, id) { }
    }
  }

  /** The ids whose entry has the address. */
  function AtAddr(s: State, addr: SocketAddr): set<SessionId> {
    set id | id in s.sessions && s.sessions[id].addr == addr
  }

  /** How many inserts of a run come from the address. */
  function CommitsFrom(s: State, es: seq<Event>, addr: SocketAddr): nat
    requires Legal(s, es)
    decreases |es|
  {
    if es == [] then 0
    else (if es[0].Commit? && s.pending[es[0].h].addr == addr then 1 else 0) + CommitsFrom(Apply(s, es[0]), es[1..], addr)
  }

  lemma SubsetIsSmaller(a: set<SessionId>, b: set<SessionId>)
    requires a <= b
    ensures |a| <= |b|
  {
    assert b == a + (b - a);
  }

  /** A disconnect of the address takes exactly one of its entries away while there is one. */
  lemma AtAddrDisconnect(s: State, addr: SocketAddr, victim: Option<SessionId>)
    requires Enabled(s, Disconnect(addr, victim))
    ensures |AtAddr(Apply(s, Disconnect(addr, victim)), addr)|
         == if |AtAddr(s, addr)| > 0 then |AtAddr(s, addr)| - 1 else 0
  {
    var a, a' := AtAddr(s, addr), AtAddr(Apply(s, Disconnect(addr, victim)), addr);
    match victim
    case Some(id) => assert HasAddr(s, addr, id) && a' == a - {id};
    case None =>
      assert forall id :: id in a ==> HasAddr(s, addr, id);
      assert a == {} && a' == {};
  }

  /** An event adds at most its own insert to the entries of an address. */
  lemma AtAddrStep(s: State, e: Event, addr: SocketAddr)
    requires Enabled(s, e)
    ensures |AtAddr(Apply(s, e), addr)|
         <= |AtAddr(s, addr)| + if e.Commit? && s.pending[e.h].addr == addr then 1 else 0
  {
    var a, a' := AtAddr(s, addr), AtAddr(Apply(s, e), addr);
    if e.Commit? && s.pending[e.h].addr == addr {
      SubsetIsSmaller(a', a + {s.pending[e.h].id});
    } else {
      SubsetIsSmaller(a', a);
    }
  }

  lemma {:induction false} AtAddrRun(s: State, es: seq<Event>, addr: SocketAddr)
    requires Legal(s, es)
    ensures |AtAddr(Run(s, es), addr)| <= |AtAddr(s, addr)| + CommitsFrom(s, es, addr)
    decreases |es|
  {
    if es != [] {
      AtAddrStep(s, es[0], addr);
      AtAddrRun(Apply(s, es[0]), es[1..], addr);
    }
  }

  /** Whatever interleaves, a connection that inserted `n` times leaves at most `n - 1` entries after its
      final disconnect, beyond those its address had before: a single handshake is cleaned up. */
  lemma LeftoverBound(s: State, es: seq<Event>, addr: SocketAddr, victim: Option<SessionId>)
    requires Legal(s, es) && Enabled(Run(s, es), Disconnect(addr, victim))
    ensures var left := |AtAddr(Apply(Run(s, es), Disconnect(addr, victim)), addr)|;
            left == 0 || left < |AtAddr(s, addr)| + CommitsFrom(s, es, addr)
  {
    AtAddrRun(s, es, addr);
    AtAddrDisconnect(Run(s, es), addr, victim);
  }

  /** The bound is met: a connection that handshakes twice without presenting a session id leaves an
      entry behind. */
  lemma LeftoverIsReachable(addr: SocketAddr)
    ensures Legal(INIT, Rounds(2, addr))
    ensures Enabled(Run(INIT, Rounds(2, addr)), Disconnect(addr, Some(Name(1))))
    ensures HasAddr(Apply(Run(INIT, Rounds(2, addr)), Disconnect(addr, Some(Name(1)))), addr, Name(0))
  {
    RunRounds(2, addr);
    assert HasAddr(Run(INIT, Rounds(2, addr)), addr, Name(0));
    assert HasAddr(Run(INIT, Rounds(2, addr)), addr, Name(1));
    assert |Name(0)| != |Name(1)|;
  }

  /** No event of the run disconnects the entry's address or inserts its id again. */
  ghost predicate LeavesAlone(s: State, es: seq<Event>, id: SessionId, addr: SocketAddr)
    requires Legal(s, es)
    decreases |es|
  {
    es == [] ||
    (&& (es[0].Disconnect? ==> es[0].addr != addr)
     && (es[0].Commit? ==> s.pending[es[0].h].id != id)
     && LeavesAlone(Apply(s, es[0]), es[1..], id, addr))
  }

  lemma {:induction false} AbsentStays(s: State, es: seq<Event>, id: SessionId, addr: SocketAddr)
    requires Legal(s, es) && LeavesAlone(s, es, id, addr) && id !in s.sessions
    ensures id !in Run(s, es).sessions
    decreases |es|
  {
    if es != [] { AbsentStays(Apply(s, es[0]), es[1..], id, addr); }
  }

  /** Every sweep of the run keeps the entry. */
  predicate SweepsKeep(es: seq<Event>, c: Client) {
    forall e :: e in es && e.Sweep? ==> Keeps(c, e.now)
  }

  /** An entry that is not disconnected and not inserted again is there after the run, unchanged, exactly
      if every sweep kept it.  So a session inserted again from a new address survives every late disconnect
      of its old one. */
  lemma {:induction false} EntrySurvives(s: State, es: seq<Event>, id: SessionId, c: Client)
    requires Legal(s, es) && id in s.sessions && s.sessions[id] == c && LeavesAlone(s, es, id, c.addr)
    ensures id in Run(s, es).sessions <==> SweepsKeep(es, c)
    ensures id in Run(s, es).sessions ==> Run(s, es).sessions[id] == c
    decreases |es|
  {
    if es != [] {
      var s' := Apply(s, es[0]);
      assert es == [es[0]] + es[1..];
      if es[0].Sweep? && !Keeps(c, es[0].now) {
        AbsentStays(s', es[1..], id, c.addr);
      } else {
        EntrySurvives(s', es[1..], id, c);
      }
    }
  }

  /** The clock readings of a run never go back, starting from `clock`. */
  predicate Timely(clock: nat, es: seq<Event>)
    decreases |es|
  {
    es == [] ||
    (match es[0]
     case Commit(_, now) => clock <= now && Timely(now, es[1..])
     case Sweep(now) => clock <= now && Timely(now, es[1..])
     case _ => Timely(clock, es[1..]))
  }

  lemma {:induction false} SweepsAreInBetween(clock: nat, es: seq<Event>, now: nat)
    requires Timely(clock, es + [Sweep(now)])
    ensures clock <= now && forall e :: e in es && e.Sweep? ==> clock <= e.now <= now
    decreases |es|
  {
    if es == [] {
      assert (es + [Sweep(now)])[0] == Sweep(now);
    } else {
      assert (es + [Sweep(now)])[0] == es[0] && (es + [Sweep(now)])[1..] == es[1..] + [Sweep(now)];
      SweepsAreInBetween(if es[0].Commit? || es[0].Sweep? then es[0].now else clock, es[1..], now);
    }
  }

  /** With a clock that never goes back, a session inserted at time `t` that is neither disconnected nor
      inserted again is there after a later sweep exactly if less than 3600 seconds have passed since its
      insert, however many sweeps came before. */
  lemma LifetimeIsOneHour(s: State, h: nat, t: nat, es: seq<Event>, now: nat)
    requires Enabled(s, Commit(h, t)) && Legal(Apply(s, Commit(h, t)), es) && Timely(t, es + [Sweep(now)])
    requires LeavesAlone(Apply(s, Commit(h, t)), es, s.pending[h].id, s.pending[h].addr)
    ensures s.pending[h].id in Apply(Run(Apply(s, Commit(h, t)), es), Sweep(now)).sessions <==> now < t + 3_600_000_000_000
  {
    var p := s.pending[h];
    SweepsAreInBetween(t, es, now);
    EntrySurvives(Apply(s, Commit(h, t)), es, p.id, Client(p.addr, p.virtualIp, t));
  }

  /** Nothing in the table or in flight carries the address. */
  ghost predicate Clear(s: State, addr: SocketAddr) {
    && (forall id :: !HasAddr(s, addr, id))
    && (forall h :: h in s.pending ==> s.pending[h].addr != addr)
  }

  /** A connection runs its handshakes to completion before its final disconnect.  If at most one entry
      has its address by then, the address is gone and stays gone until it connects again. */
  lemma {:induction false} ClosedAddressStaysClear(
    s: State, addr: SocketAddr, victim: Option<SessionId>, es: seq<Event>)
    requires Enabled(s, Disconnect(addr, victim))
    requires forall h :: h in s.pending ==> s.pending[h].addr != addr
    requires forall id1, id2 :: HasAddr(s, addr, id1) && HasAddr(s, addr, id2) ==> id1 == id2
    requires Legal(s, [Disconnect(addr, victim)] + es)
    requires forall e :: e in es && e.Begin? ==> e.addr != addr
    ensures Clear(Run(s, [Disconnect(addr, victim)] + es), addr)
  {
    DisconnectRemovesOne(s, addr, victim);
    assert ([Disconnect(addr, victim)] + es)[1..] == es;
    ClearStays(Apply(s, Disconnect(addr, victim)), addr, es);
  }

  lemma {:induction false} ClearStays(s: State, addr: SocketAddr, es: seq<Event>)
    requires Clear(s, addr) && Legal(s, es) && (forall e :: e in es && e.Begin? ==> e.addr != addr)
    ensures Clear(Run(s, es), addr)
    decreases |es|
  {
    if es != [] {
      var s' := Apply(s, es[0]);
      forall id ensures !HasAddr(s', addr, id) { assert !HasAddr(s, addr, id); }
      assert es[0] in es;
      ClearStays(s', addr, es[1..]);
    }
  }

  lemma {:induction false} NobodyFromTheFuture(s: State, clock: nat, es: seq<Event>, now: nat)
    requires forall id :: id in s.sessions ==> s.sessions[id].lastSeen <= clock
    requires Legal(s, es) && Timely(clock, es + [Sweep(now)])
    ensures forall id :: id in Run(s, es).sessions ==> Run(s, es).sessions[id].lastSeen <= now
    decreases |es|
  {
    if es == [] {
      assert (es + [Sweep(now)])[0] == Sweep(now);
    } else {
      assert (es + [Sweep(now)])[0] == es[0] && (es + [Sweep(now)])[1..] == es[1..] + [Sweep(now)];
      var clock' := if es[0].Commit? || es[0].Sweep? then es[0].now else clock;
      NobodyFromTheFuture(Apply(s, es[0]), clock', es[1..], now);
    }
  }

  /** With a clock that never goes back, a sweep keeps exactly the entries inserted less than
      3600 seconds before it, unchanged. */
  lemma SweepKeepsExactlyTheRecent(es: seq<Event>, now: nat, id: SessionId)
    requires Legal(INIT, es) && Timely(0, es + [Sweep(now)])
    ensures var s := Run(INIT, es);
            var s' := Apply(s, Sweep(now));
            && (id in s'.sessions <==> id in s.sessions && now - s.sessions[id].lastSeen < 3_600_000_000_000)
            && (id in s'.sessions ==> s'.sessions[id] == s.sessions[id])
  {
    NobodyFromTheFuture(INIT, 0, es, now);
  }
}
