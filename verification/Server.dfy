/**
 The server object: the locked session map, the client-id counter and the handshakes in flight.
 Each method is one critical section and performs one event of `SessionTable`.
 */
module Server {
  import opened Wrappers
  import opened Net
  import opened SessionTable

  /** The destination of an IPv4 packet; anything shorter than a header or of another version has none. */
  function GetDestinationIp(data: seq<Byte>): Option<Ipv4Addr> {
    if |data| < 20 || data[0] / 16 != 4 then None
    else Some(Ipv4Addr(data[16], data[17], data[18], data[19]))
  }

  /** The destination read is the one written at offset 16 of an IPv4 header, whatever follows; shorter
      packets and other versions have none. */
  lemma DestinationIsRead(front: seq<Byte>, ip: Ipv4Addr, rest: seq<Byte>, data: seq<Byte>)
    requires |front| == 16
    ensures GetDestinationIp(front + [ip.a, ip.b, ip.c, ip.d] + rest) == if front[0] / 16 == 4 then Some(ip) else None
    ensures |data| < 20 ==> GetDestinationIp(data) == None
  {
    var p := front + [ip.a, ip.b, ip.c, ip.d] + rest;
    assert p[0] == front[0] && p[16] == ip.a && p[17] == ip.b && p[18] == ip.c && p[19] == ip.d;
  }

  /** A step that the runtime lets another task make: another connection's handshake or disconnect, or
      the expiry loop. */
  datatype Turn =
    | TheirBegin(h: nat, addr: SocketAddr, provided: Option<SessionId>)
    | TheirReply(h: nat, sent: bool)
    | TheirCommit(h: nat, now: nat)
    | TheirDisconnect(addr: SocketAddr)
    | TheirSweep(now: nat)

  /** What a connection can receive: a handshake with the inputs its handling depends on, a disconnect, or
      a message that leaves the table alone.  Other tasks run before each message arrives, and between the
      steps of a handshake. */
  datatype Message =
    | Hello(before: seq<Turn>, provided: Option<SessionId>, beforeReply: seq<Turn>, sent: bool,
            beforeCommit: seq<Turn>, now: nat)
    | Bye(before: seq<Turn>)
    | Other(before: seq<Turn>)

  /** A handshake inserts only once its reply has been sent. */
  predicate Inserts(msg: Message) {
    msg.Hello? && msg.sent
  }

  /** How many messages are handshakes that insert. */
  function Hellos(inbox: seq<Message>): nat {
    if inbox == [] then 0 else Hellos(inbox[..|inbox| - 1]) + One(Inserts(inbox[|inbox| - 1]))
  }

  lemma HellosNext(inbox: seq<Message>, i: nat)
    requires i < |inbox|
    ensures Hellos(inbox[..i + 1]) == Hellos(inbox[..i]) + One(Inserts(inbox[i]))
  {
    assert inbox[..i + 1][..i] == inbox[..i];
  }

  /** How many inserts of a run come from the peer's address, but from another handshake than `h`. */
  function OtherCommits(s: State, es: seq<Event>, h: nat, peer: SocketAddr): nat
    requires Legal(s, es)
    decreases |es|
  {
    if es == [] then 0
    else One(es[0].Commit? && es[0].h != h && s.pending[es[0].h].addr == peer) + OtherCommits(Apply(s, es[0]), es[1..], h, peer)
  }

  lemma {:induction false} OtherCommitsConcat(s: State, es: seq<Event>, fs: seq<Event>, h: nat, peer: SocketAddr)
    requires Legal(s, es) && Legal(Run(s, es), fs)
    ensures Legal(s, es + fs)
    ensures OtherCommits(s, es + fs, h, peer) == OtherCommits(s, es, h, peer) + OtherCommits(Run(s, es), fs, h, peer)
    decreases |es|
  {
    RunConcat(s, es, fs);
    if es == [] {
      assert es + fs == fs;
    } else {
      assert (es + fs)[1..] == es[1..] + fs;
      OtherCommitsConcat(Apply(s, es[0]), es[1..], fs, h, peer);
    }
  }

  /** When the peer has this one connection at a time, nobody else inserts from its address. */
  lemma {:induction false} OneConnectionHasNoOthers(s: State, es: seq<Event>, h: nat, peer: SocketAddr)
    requires Legal(s, es)
    requires forall g :: g in s.pending && g != h ==> s.pending[g].addr != peer
    requires forall e :: e in es && e.Begin? && e.h != h ==> e.addr != peer
    ensures OtherCommits(s, es, h, peer) == 0
    decreases |es|
  {
    if es != [] {
      assert es[0] in es;
      OneConnectionHasNoOthers(Apply(s, es[0]), es[1..], h, peer);
    }
  }

  /** `es` is a schedule from `s` to `s'` that takes no reply back and adds at most `own` entries of the peer
      besides those that others insert from its address. */
  ghost predicate Leads(s: State, es: seq<Event>, s': State, h: nat, peer: SocketAddr, own: nat) {
    && Legal(s, es) && Run(s, es) == s' && s.granted <= s'.granted
    && |AtAddr(s', peer)| <= |AtAddr(s, peer)| + own + OtherCommits(s, es, h, peer)
  }

  /** One schedule follows the other. */
  lemma Continue(s: State, es: seq<Event>, s1: State, fs: seq<Event>, s2: State, h: nat, peer: SocketAddr, n: nat, m: nat)
    requires Leads(s, es, s1, h, peer, n) && Leads(s1, fs, s2, h, peer, m)
    ensures Leads(s, es + fs, s2, h, peer, n + m)
    ensures OtherCommits(s, es + fs, h, peer) == OtherCommits(s, es, h, peer) + OtherCommits(s1, fs, h, peer)
  {
    RunConcat(s, es, fs);
    OtherCommitsConcat(s, es, fs, h, peer);
  }

  /** A schedule of one event. */
  lemma Once(s: State, e: Event, h: nat, peer: SocketAddr)
    requires Enabled(s, e)
    ensures Leads(s, [e], Apply(s, e), h, peer, One(e.Commit? && e.h == h))
    ensures !e.Commit? ==> OtherCommits(s, [e], h, peer) == 0
  {
    RunFirst(s, e, []);
    assert [e] + [] == [e] && [e][1..] == [];
    AtAddrStep(s, e, peer);
  }

  /** The step is another task's: it does not touch the handshake. */
  predicate Foreign(e: Event, h: nat) {
    match e
    case Begin(g, _, _, _) => g != h
    case Reply(g, _) => g != h
    case Commit(g, _) => g != h
    case _ => true
  }

  /** What a connection finds after other tasks ran: its own handshake is where it was. */
  predicate SameHandshake(s: State, s': State, h: nat) {
    (h in s.pending <==> h in s'.pending) && (h in s.pending ==> s'.pending[h] == s.pending[h])
  }

  /** The other task can make its step now. */
  predicate CanTurn(s: State, h: nat, turn: Turn) {
    match turn
    case TheirBegin(g, _, _) => g != h && g !in s.pending
    case TheirReply(g, _) => g != h && g in s.pending && !s.pending[g].replied
    case TheirCommit(g, _) => g != h && g in s.pending && s.pending[g].replied
    case _ => true
  }

  /** `e` is the step, with a new id and a found entry filled in. */
  predicate Makes(turn: Turn, e: Event) {
    match turn
    case TheirBegin(g, addr, provided) => e.Begin? && e == Begin(g, addr, provided, e.newId)
    case TheirReply(g, sent) => e == Reply(g, sent)
    case TheirCommit(g, now) => e == Commit(g, now)
    case TheirDisconnect(addr) => e.Disconnect? && e == Disconnect(addr, e.victim)
    case TheirSweep(now) => e == Sweep(now)
  }

  lemma ForeignStep(s: State, e: Event, h: nat, peer: SocketAddr)
    requires Enabled(s, e) && Foreign(e, h)
    ensures Leads(s, [e], Apply(s, e), h, peer, 0) && SameHandshake(s, Apply(s, e), h)
  {
    Once(s, e, h, peer);
  }

  class Server {
    var sessions: map<SessionId, Client>
    var nextClientId: nat
    var pending: map<nat, Pending>
    var issued: seq<SessionId>
    ghost var granted: seq<(SessionId, Ipv4Addr)>

    ghost function View(): State
      reads this
    {
      State(sessions, nextClientId, pending, issued, granted)
    }

    ghost predicate Valid()
      reads this
    {
      Inv(View())
    }

    constructor ()
      ensures Valid() && View() == INIT && nextClientId == 2 && sessions == map[]
    {
      sessions, nextClientId, pending, issued, granted := map[], FIRST_CLIENT_ID, map[], [], [];
    }

    /** `fetch_add(1)` on the 32-bit counter; the old value's low byte is the host byte. */
    method AllocateVirtualIp() returns (ip: Ipv4Addr)
      modifies this`nextClientId
      ensures ip == VirtualIp(old(nextClientId)) == Ipv4Addr(10, 0, 0, old(nextClientId) % 256)
      ensures nextClientId == (old(nextClientId) + 1) % 0x1_0000_0000
    {
      ip := Ipv4Addr(10, 0, 0, nextClientId % 256);
      nextClientId := (nextClientId + 1) % U32_SIZE;
    }

    /** A session id that was never issued; the ids are kept in this model to tell. */
    method BuildSessionId() returns (id: SessionId)
      ensures id !in issued
    {
      var n: nat := 0;
      for i := 0 to |issued|
        invariant forall j :: 0 <= j < i ==> |issued[j]| < n
      {
        if n <= |issued[i]| { n := |issued[i]| + 1; }
      }
      id := Name(n);
    }

    /** First critical section of handshake `h`: reuse the presented session or allocate a new one. */
    method BeginHandshake(h: nat, addr: SocketAddr, provided: Option<SessionId>, newId: SessionId)
      returns (id: SessionId, ip: Ipv4Addr)
      requires Valid() && Enabled(View(), Begin(h, addr, provided, newId))
      modifies this
      ensures Valid() && View() == Apply(old(View()), Begin(h, addr, provided, newId))
      ensures h in pending && pending[h] == Pending(id, ip, addr, false)
    {
      InvStep(View(), Begin(h, addr, provided, newId));
      if provided.Some? && provided.value in sessions {
        id, ip := provided.value, sessions[provided.value].virtualIp;
      } else {
        id := newId;
        ip := AllocateVirtualIp();
        issued := issued + [newId];
      }
      pending := pending[h := Pending(id, ip, addr, false)];
    }

    /** The reply outside the lock; a handshake whose reply cannot be sent ends here. */
    method SendReply(h: nat, sent: bool)
      requires Valid() && Enabled(View(), Reply(h, sent))
      modifies this
      ensures Valid() && View() == Apply(old(View()), Reply(h, sent))
    {
      InvStep(View(), Reply(h, sent));
      if sent {
        granted := granted + [(pending[h].id, pending[h].virtualIp)];
        pending := pending[h := pending[h].(replied := true)];
      } else {
        pending := pending - {h};
      }
    }

    /** Second critical section of handshake `h`. */
    method CommitHandshake(h: nat, now: nat)
      requires Valid() && Enabled(View(), Commit(h, now))
      modifies this
      ensures Valid() && View() == Apply(old(View()), Commit(h, now))
    {
      InvStep(View(), Commit(h, now));
      var p := pending[h];
      sessions := sessions[p.id := Client(p.addr, p.virtualIp, now)];
      pending := pending - {h};
    }

    /** One step of another task, unless that task has none to make. */
    method TheirTurn(h: nat, peer: SocketAddr, turn: Turn) returns (ghost es: seq<Event>)
      requires Valid()
      modifies this
      ensures Valid() && Leads(old(View()), es, View(), h, peer, 0) && SameHandshake(old(View()), View(), h)
      ensures if CanTurn(old(View()), h, turn) then |es| == 1 && Makes(turn, es[0]) else es == []
    {
      ghost var s := View();
      es := [];
      match turn
      case TheirBegin(g, addr, provided) =>
        if g != h && g !in pending {
          var newId := BuildSessionId();
          ForeignStep(s, Begin(g, addr, provided, newId), h, peer);
          var _, _ := BeginHandshake(g, addr, provided, newId);
          es := [Begin(g, addr, provided, newId)];
        }
      case TheirReply(g, sent) =>
        if g != h && g in pending && !pending[g].replied {
          ForeignStep(s, Reply(g, sent), h, peer);
          SendReply(g, sent);
          es := [Reply(g, sent)];
        }
      case TheirCommit(g, now) =>
        if g != h && g in pending && pending[g].replied {
          ForeignStep(s, Commit(g, now), h, peer);
          CommitHandshake(g, now);
          es := [Commit(g, now)];
        }
      case TheirDisconnect(addr) =>
        var victim := HandleDisconnect(addr);
        ForeignStep(s, Disconnect(addr, victim), h, peer);
        es := [Disconnect(addr, victim)];
      case TheirSweep(now) =>
        ForeignStep(s, Sweep(now), h, peer);
        CleanupExpired(now);
        es := [Sweep(now)];
    }

    /** Whatever turns the other tasks take. */
    method RunOthers(h: nat, peer: SocketAddr, turns: seq<Turn>) returns (ghost es: seq<Event>)
      requires Valid()
      modifies this
      ensures Valid() && Leads(old(View()), es, View(), h, peer, 0) && SameHandshake(old(View()), View(), h)
      ensures |es| <= |turns|
    {
      es := [];
      for i := 0 to |turns|
        invariant |es| <= i
        invariant Valid() && Leads(old(View()), es, View(), h, peer, 0) && SameHandshake(old(View()), View(), h)
      {
        ghost var s := View();
        var more := TheirTurn(h, peer, turns[i]);
        Continue(old(View()), es, s, more, View(), h, peer, 0, 0);
        es := es + more;
      }
    }

    /** The first half of a handshake, up to its reply.  A session id that is in the table is kept with its
        address, and otherwise the id is new. */
    method GreetClient(h: nat, peer: SocketAddr, hello: Message) returns (id: SessionId, ip: Ipv4Addr, ghost es: seq<Event>)
      requires Valid() && hello.Hello? && h !in pending
      modifies this
      ensures Valid() && Leads(old(View()), es, View(), h, peer, 0)
      ensures h in pending && pending[h] == Pending(id, ip, peer, false)
      ensures if hello.provided.Some? && hello.provided.value in old(sessions)
              then id == hello.provided.value && ip == old(sessions)[id].virtualIp
              else id !in old(issued) && ip == Ipv4Addr(10, 0, 0, old(nextClientId) % 256)
    {
      ghost var s := View();
      var newId := BuildSessionId();
      ghost var begin := Begin(h, peer, hello.provided, newId);
      Once(s, begin, h, peer);
      id, ip := BeginHandshake(h, peer, hello.provided, newId);
      ghost var s1 := View();
      es := RunOthers(h, peer, hello.beforeReply);
      Continue(s, [begin], s1, es, View(), h, peer, 0, 0);
      es := [begin] + es;
    }

    /** A whole handshake, with any steps of other tasks between its own.  The client's entry is in the end
        the id and the address that it was told. */
    method HandleHandshake(h: nat, peer: SocketAddr, hello: Message) returns (id: SessionId, ip: Ipv4Addr, ghost es: seq<Event>)
      requires Valid() && hello.Hello? && h !in pending
      modifies this
      ensures Valid() && h !in pending && Leads(old(View()), es, View(), h, peer, One(hello.sent))
      ensures hello.sent ==> (id, ip) in granted && id in sessions && sessions[id] == Client(peer, ip, hello.now)
      ensures if hello.provided.Some? && hello.provided.value in old(sessions)
              then id == hello.provided.value && ip == old(sessions)[id].virtualIp
              else id !in old(issued) && ip == Ipv4Addr(10, 0, 0, old(nextClientId) % 256)
    {
      ghost var s := View();
      id, ip, es := GreetClient(h, peer, hello);
      ghost var s1 := View();
      Once(s1, Reply(h, hello.sent), h, peer);
      SendReply(h, hello.sent);
      ghost var s2 := View();
      Continue(s, es, s1, [Reply(h, hello.sent)], s2, h, peer, 0, 0);
      es := es + [Reply(h, hello.sent)];
      if hello.sent {
        assert granted[|granted| - 1] == (id, ip);
        ghost var more := FinishHandshake(h, peer, hello);
        Continue(s, es, s2, more, View(), h, peer, 0, 1);
        es := es + more;
      }
    }

    /** The second half, after the reply has gone out. */
    method FinishHandshake(h: nat, peer: SocketAddr, hello: Message) returns (ghost es: seq<Event>)
      requires Valid() && hello.Hello? && h in pending && pending[h].replied && pending[h].addr == peer
      modifies this
      ensures Valid() && h !in pending && Leads(old(View()), es, View(), h, peer, 1)
      ensures var id := old(pending)[h].id;
              id in sessions && sessions[id] == Client(peer, old(pending)[h].virtualIp, hello.now)
    {
      ghost var s := View();
      es := RunOthers(h, peer, hello.beforeCommit);
      ghost var s1 := View();
      Once(s1, Commit(h, hello.now), h, peer);
      CommitHandshake(h, hello.now);
      Continue(s, es, s1, [Commit(h, hello.now)], View(), h, peer, 0, 1);
      es := es + [Commit(h, hello.now)];
    }

    /** One message of a connection, with any steps of other tasks before and during its handling. */
    method HandleMessage(h: nat, peer: SocketAddr, msg: Message) returns (ghost es: seq<Event>)
      requires Valid() && h !in pending
      modifies this
      ensures Valid() && h !in pending && Leads(old(View()), es, View(), h, peer, One(Inserts(msg)))
      ensures msg.Other? ==> |es| <= |msg.before|
      ensures msg.Hello? && msg.sent ==> exists id :: HasAddr(View(), peer, id) && sessions[id].lastSeen == msg.now
      ensures msg.Bye? ==>
                || |AtAddr(View(), peer)| == 0
                || |AtAddr(View(), peer)| < |AtAddr(old(View()), peer)| + OtherCommits(old(View()), es, h, peer)
    {
      ghost var s := View();
      es := RunOthers(h, peer, msg.before);
      ghost var s1 := View();
      match msg
      case Hello(_, _, _, _, _, _) =>
        var id, _, steps := HandleHandshake(h, peer, msg);
        assert msg.sent ==> HasAddr(View(), peer, id);
        Continue(s, es, s1, steps, View(), h, peer, 0, One(msg.sent));
        es := es + steps;
      case Bye(_) =>
        var victim := HandleDisconnect(peer);
        Once(s1, Disconnect(peer, victim), h, peer);
        Continue(s, es, s1, [Disconnect(peer, victim)], View(), h, peer, 0, 0);
        es := es + [Disconnect(peer, victim)];
      case Other(_) =>
    }

    /** The connection loop, with any steps of other tasks in between: messages are handled in order, and the
        loop always ends in a disconnect of the peer.  What it leaves behind of the peer is less than what
        was there plus its handshakes and what others inserted from the same address meanwhile. */
    method HandleTcpConnection(h: nat, peer: SocketAddr, inbox: seq<Message>, atEnd: seq<Turn>) returns (ghost trace: seq<Event>)
      requires Valid() && h !in pending
      modifies this
      ensures Valid() && h !in pending
      ensures Legal(old(View()), trace) && View() == Run(old(View()), trace)
      ensures trace != [] && trace[|trace| - 1].Disconnect? && trace[|trace| - 1].addr == peer
      ensures || |AtAddr(View(), peer)| == 0
              || |AtAddr(View(), peer)| < |AtAddr(old(View()), peer)| + Hellos(inbox) + OtherCommits(old(View()), trace, h, peer)
    {
      trace := [];
      for i := 0 to |inbox|
        invariant Valid() && h !in pending && Leads(old(View()), trace, View(), h, peer, Hellos(inbox[..i]))
      {
        ghost var s := View();
        var es := HandleMessage(h, peer, inbox[i]);
        Continue(old(View()), trace, s, es, View(), h, peer, Hellos(inbox[..i]), One(Inserts(inbox[i])));
        HellosNext(inbox, i);
        trace := trace + es;
      }
      assert inbox[..|inbox|] == inbox;
      ghost var s := View();
      var es := RunOthers(h, peer, atEnd);
      Continue(old(View()), trace, s, es, View(), h, peer, Hellos(inbox), 0);
      trace := trace + es;
      s := View();
      var victim := HandleDisconnect(peer);
      Once(s, Disconnect(peer, victim), h, peer);
      Continue(old(View()), trace, s, [Disconnect(peer, victim)], View(), h, peer, Hellos(inbox), 0);
      trace := trace + [Disconnect(peer, victim)];
    }

    /** Removes the first entry of the address that the map's iteration happens to reach. */
    method HandleDisconnect(addr: SocketAddr) returns (victim: Option<SessionId>)
      requires Valid()
      modifies this
      ensures Enabled(old(View()), Disconnect(addr, victim))
      ensures Valid() && View() == Apply(old(View()), Disconnect(addr, victim))
      ensures |AtAddr(View(), addr)| == if |AtAddr(old(View()), addr)| > 0 then |AtAddr(old(View()), addr)| - 1 else 0
    {
      victim := None;
      if id :| id in sessions && sessions[id].addr == addr {
        victim := Some(id);
      }
      InvStep(View(), Disconnect(addr, victim));
      AtAddrDisconnect(View(), addr, victim);
      if victim.Some? {
        sessions := sessions - {victim.value};
      }
    }

    /** One pass of the expiry loop. */
    method CleanupExpired(now: nat)
      requires Valid()
      modifies this
      ensures Valid() && View() == Apply(old(View()), Sweep(now))
      ensures forall id :: id in sessions <==>
                id in old(sessions) && 0 <= now - old(sessions)[id].lastSeen < 3_600_000_000_000
      ensures forall id :: id in sessions ==> sessions[id] == old(sessions)[id]
    {
      InvStep(View(), Sweep(now));
      sessions := map id | id in sessions && Keeps(sessions[id], now) :: sessions[id];
    }

    /** The client a packet from the TUN device is sent to, if any; unique when no two live sessions
        are congruent. */
    method PickClient(data: seq<Byte>) returns (r: Option<SessionId>)
      ensures r.Some? ==> GetDestinationIp(data).Some? && MayPick(View(), GetDestinationIp(data).value, r.value)
      ensures r.None? && GetDestinationIp(data).Some? ==>
                forall id :: !MayPick(View(), GetDestinationIp(data).value, id)
      ensures RoutingIsDeterministic(View()) && r.Some? ==>
                forall id :: MayPick(View(), GetDestinationIp(data).value, id) ==> id == r.value
    {
      r := None;
      match GetDestinationIp(data)
      case None =>
      case Some(ip) =>
        if id :| id in sessions && sessions[id].virtualIp == ip {
          r := Some(id);
          assert MayPick(View(), ip, id);
        }
    }
  }
}
