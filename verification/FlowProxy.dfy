/**
 The proxy's shared state as an object: the map behind the lock, the session tasks with their
 channels, the dispatcher's position and the activity counter.  Each method is one atomic region of the
 dispatcher loop or of a session task and is proved to perform one event of `FlowTable`.
 */
module FlowProxy {
  import opened Wrappers
  import opened FlowTable

  /** A turn that the runtime gives to one session task.  In the relay loop `relay` says whether the
      next packet's send works, or with `None` that the loop ends. */
  datatype Turn = Turn(id: nat, relay: Option<bool>)

  /** The task has no step to make: there is no such task, it is over, or it waits for a packet. */
  predicate Waits<K, P>(s: State<K, P>, turn: Turn) {
    || turn.id >= |s.tasks| || s.tasks[turn.id].phase.Dropped?
    || (s.tasks[turn.id].phase.Active? && turn.relay.Some? && s.tasks[turn.id].queue == [])
  }

  /** What the dispatcher receives, whether the filters allow it, and the session turns that happen
      before it arrives, before its send and after its send. */
  datatype Datagram<K, P> = Datagram(
    key: K, payload: P, allowed: bool, before: seq<Turn>, beforeSend: seq<Turn>, afterSend: seq<Turn>)

  /** The datagrams that the filters let through. */
  function Allowed<K, P>(inbox: seq<Datagram<K, P>>): seq<(K, P)> {
    if inbox == [] then []
    else
      var last := inbox[|inbox| - 1];
      Allowed(inbox[..|inbox| - 1]) + if last.allowed then [(last.key, last.payload)] else []
  }

  lemma AllowedNext<K, P>(inbox: seq<Datagram<K, P>>, i: nat)
    requires i < |inbox|
    ensures Allowed(inbox[..i + 1]) == Allowed(inbox[..i]) + if inbox[i].allowed then [(inbox[i].key, inbox[i].payload)] else []
  {
    assert inbox[..i + 1][..i] == inbox[..i];
  }

  /** The dispatcher's own events in a schedule. */
  function DispatcherPart<K, P>(es: seq<Event<K, P>>): seq<Event<K, P>> {
    if es == [] then []
    else (if es[0].IsSessionEvent() then [] else [es[0]]) + DispatcherPart(es[1..])
  }

  lemma {:induction false} DispatcherPartConcat<K, P>(es: seq<Event<K, P>>, fs: seq<Event<K, P>>)
    ensures DispatcherPart(es + fs) == DispatcherPart(es) + DispatcherPart(fs)
  {
    if es == [] {
      assert es + fs == fs;
    } else {
      assert (es + fs)[1..] == es[1..] + fs;
      DispatcherPartConcat(es[1..], fs);
    }
  }

  /** `es` is a schedule from `s` to `s'`. */
  ghost predicate Reaches<K, P>(s: State<K, P>, es: seq<Event<K, P>>, s': State<K, P>) {
    Legal(s, es) && Run(s, es) == s'
  }

  lemma ReachesFurther<K, P>(s: State<K, P>, es: seq<Event<K, P>>, s1: State<K, P>, fs: seq<Event<K, P>>, s2: State<K, P>)
    requires Reaches(s, es, s1) && Reaches(s1, fs, s2)
    ensures Reaches(s, es + fs, s2)
  {
    RunConcat(s, es, fs);
  }

  /** And the dispatcher's events in it are `part`. */
  ghost predicate Leads<K, P>(s: State<K, P>, es: seq<Event<K, P>>, s': State<K, P>, part: seq<Event<K, P>>) {
    Reaches(s, es, s') && DispatcherPart(es) == part
  }

  /** One schedule follows the other. */
  lemma Continue<K, P>(
    s: State<K, P>, es: seq<Event<K, P>>, s1: State<K, P>, part: seq<Event<K, P>>,
    fs: seq<Event<K, P>>, s2: State<K, P>, more: seq<Event<K, P>>)
    requires Leads(s, es, s1, part) && Leads(s1, fs, s2, more)
    ensures Leads(s, es + fs, s2, part + more)
  {
    ReachesFurther(s, es, s1, fs, s2);
    DispatcherPartConcat(es, fs);
  }

  /** Sessions alone keep a stale entry stale. */
  lemma {:induction false} SessionsKeepStale<K, P>(s: State<K, P>, es: seq<Event<K, P>>, k: K, tx: nat)
    requires TableInv(s) && Stale(s, k, tx) && Legal(s, es) && DispatcherPart(es) == []
    ensures Stale(Run(s, es), k, tx)
    decreases |es|
  {
    if es != [] {
      TableInvStep(s, es[0]);
      SessionEventKeepsStale(s, es[0], k, tx);
      SessionsKeepStale(Apply(s, es[0]), es[1..], k, tx);
    }
  }

  /** A schedule of one event. */
  lemma Once<K, P>(s: State<K, P>, e: Event<K, P>)
    requires Enabled(s, e)
    ensures Leads(s, [e], Apply(s, e), if e.IsSessionEvent() then [] else [e])
  {
    assert [e][1..] == [];
  }

  class ProxyTable<K(==), P> {
    const refuses: bool
    var sessions: map<K, nat>
    var tasks: seq<Task<K, P>>
    var dispatcher: Dispatcher<K, P>
    var active: int
    ghost var accepted: seq<(K, P)>
    ghost var handed: seq<(K, P)>

    ghost function View(): State<K, P>
      reads this
    {
      State(refuses, sessions, tasks, dispatcher, active, accepted, handed)
    }

    ghost predicate Valid()
      reads this
    {
      TableInv(View()) && active == CountCounted(tasks)
    }

    constructor (refuses: bool)
      ensures Valid() && View() == Init(refuses)
    {
      this.refuses := refuses;
      sessions, tasks, dispatcher, active := map[], [], Idle, 0;
      accepted, handed := [], [];
    }

    /** Under the lock: clone the sender of `key`, or insert a channel and spawn its session. */
    method LookUpOrSpawn(key: K, payload: P)
      requires Valid() && dispatcher.Idle?
      modifies this
      ensures Valid() && View() == Apply(old(View()), Accept(key, payload))
    {
      ghost var before := View();
      if key !in sessions {
        sessions := sessions[key := |tasks|];
        tasks := tasks + [Task(key, Spawned, [])];
      }
      dispatcher := HaveTx(key, sessions[key], payload);
      accepted := accepted + [(key, payload)];
      assert View() == Apply(before, Accept(key, payload));
      TableInvStep(before, Accept(key, payload));
      CounterStep(before, Accept(key, payload));
    }

    /** Outside the lock: the send fails exactly when the session has dropped its receiver. */
    method SendPayload() returns (sent: bool)
      requires Valid() && dispatcher.HaveTx?
      modifies this
      ensures Valid() && View() == Apply(old(View()), Send)
      ensures sent <==> dispatcher.Idle?
    {
      ghost var before := View();
      TableInvStep(before, Send);
      CounterStep(before, Send);
      var HaveTx(key, tx, payload) := dispatcher;
      sent := tasks[tx].phase != Dropped;
      if sent {
        tasks := tasks[tx := tasks[tx].(queue := tasks[tx].queue + [payload])];
        dispatcher := Idle;
      } else {
        dispatcher := SendFailed(key, tx);
      }
    }

    /** Under the lock again, after a failed send. */
    method PurgeKey()
      requires Valid() && dispatcher.SendFailed?
      modifies this
      ensures Valid() && View() == Apply(old(View()), Purge)
      ensures !refuses ==> sessions == old(sessions)
    {
      ghost var before := View();
      TableInvStep(before, Purge);
      if !refuses { FailedKeyIsGone(before); }
      sessions := sessions - {dispatcher.key};
      dispatcher := Idle;
    }

    /** A spawned session counts itself; the ICMP session of a refusing proxy just returns. */
    method BeginSession(id: nat)
      requires Valid() && InPhase(View(), id, Spawned)
      modifies this
      ensures Valid() && View() == Apply(old(View()), Start(id))
    {
      ghost var before := View();
      TableInvStep(before, Start(id));
      CounterStep(before, Start(id));
      if refuses {
        tasks := tasks[id := tasks[id].(phase := Dropped)];
      } else {
        active := active + 1;
        tasks := tasks[id := tasks[id].(phase := Active)];
      }
    }

    /** One turn of the relay loop that takes a packet from the channel. */
    method RelayPacket(id: nat, delivered: bool)
      requires Valid() && InPhase(View(), id, Active) && tasks[id].queue != []
      modifies this
      ensures Valid() && View() == Apply(old(View()), Relay(id, delivered))
    {
      ghost var before := View();
      TableInvStep(before, Relay(id, delivered));
      CounterStep(before, Relay(id, delivered));
      var data, rest := tasks[id].queue[0], tasks[id].queue[1..];
      if delivered {
        tasks := tasks[id := tasks[id].(queue := rest)];
        handed := handed + [(tasks[id].key, data)];
      } else {
        tasks := tasks[id := tasks[id].(queue := rest, phase := Stopped)];
      }
    }

    /** The relay loop ends: idle time-out, socket error or closed channel. */
    method StopSession(id: nat)
      requires Valid() && InPhase(View(), id, Active)
      modifies this
      ensures Valid() && View() == Apply(old(View()), Stop(id))
    {
      ghost var before := View();
      TableInvStep(before, Stop(id));
      CounterStep(before, Stop(id));
      tasks := tasks[id := tasks[id].(phase := Stopped)];
    }

    /** Under the lock: the session removes its key, which is its own entry and no other's. */
    method RemoveOwnKey(id: nat)
      requires Valid() && InPhase(View(), id, Stopped)
      modifies this
      ensures Valid() && View() == Apply(old(View()), Remove(id))
      ensures old(tasks[id].key in sessions && sessions[tasks[id].key] == id)
    {
      ghost var before := View();
      assert TaskOk(before, id);
      TableInvStep(before, Remove(id));
      CounterStep(before, Remove(id));
      sessions := sessions - {tasks[id].key};
      tasks := tasks[id := tasks[id].(phase := Removed)];
    }

    /** The counter goes down before the task ends, and never below zero. */
    method Uncount(id: nat)
      requires Valid() && InPhase(View(), id, Removed)
      modifies this
      ensures Valid() && View() == Apply(old(View()), Settle(id))
      ensures active >= 0
    {
      ghost var before := View();
      TableInvStep(before, Settle(id));
      CounterStep(before, Settle(id));
      active := active - 1;
      tasks := tasks[id := tasks[id].(phase := Settled)];
    }

    /** The task returns and its receiver is dropped. */
    method EndTask(id: nat)
      requires Valid() && InPhase(View(), id, Settled)
      modifies this
      ensures Valid() && View() == Apply(old(View()), DropReceiver(id))
    {
      ghost var before := View();
      TableInvStep(before, DropReceiver(id));
      CounterStep(before, DropReceiver(id));
      tasks := tasks[id := tasks[id].(phase := Dropped)];
    }

    /** One turn of a session task: exactly one step, unless it has none to make. */
    method SessionTurn(turn: Turn) returns (ghost es: seq<Event<K, P>>)
      requires Valid()
      modifies this
      ensures Valid() && dispatcher == old(dispatcher) && accepted == old(accepted)
      ensures Leads(old(View()), es, View(), [])
      ensures if Waits(old(View()), turn) then es == [] else |es| == 1 && es[0].id == turn.id
    {
      ghost var before := View();
      var id := turn.id;
      es := [];
      if id >= |tasks| { return; }
      match tasks[id].phase
      case Spawned =>
        BeginSession(id);
        es := [Start(id)];
        Once(before, Start(id));
      case Active =>
        if turn.relay.None? {
          StopSession(id);
          es := [Stop(id)];
          Once(before, Stop(id));
        } else if tasks[id].queue != [] {
          RelayPacket(id, turn.relay.value);
          es := [Relay(id, turn.relay.value)];
          Once(before, Relay(id, turn.relay.value));
        }
      case Stopped =>
        RemoveOwnKey(id);
        es := [Remove(id)];
        Once(before, Remove(id));
      case Removed =>
        Uncount(id);
        es := [Settle(id)];
        Once(before, Settle(id));
      case Settled =>
        EndTask(id);
        es := [DropReceiver(id)];
        Once(before, DropReceiver(id));
      case Dropped =>
    }

    /** Whatever turns the sessions take. */
    method RunSessions(turns: seq<Turn>) returns (ghost es: seq<Event<K, P>>)
      requires Valid()
      modifies this
      ensures Valid() && dispatcher == old(dispatcher) && accepted == old(accepted)
      ensures Leads(old(View()), es, View(), [])
    {
      es := [];
      for i := 0 to |turns|
        invariant Valid() && dispatcher == old(dispatcher) && accepted == old(accepted)
        invariant Leads(old(View()), es, View(), [])
      {
        ghost var s := View();
        var more := SessionTurn(turns[i]);
        Continue(old(View()), es, s, [], more, View(), []);
        es := es + more;
      }
    }

    /** Look up or spawn under the lock, then send outside it, with any session steps before and after
        the send. */
    method AcceptAndSend(d: Datagram<K, P>) returns (sent: bool, ghost trace: seq<Event<K, P>>)
      requires Valid() && dispatcher.Idle?
      modifies this
      ensures Valid() && accepted == old(accepted) + [(d.key, d.payload)]
      ensures if sent then dispatcher.Idle? else dispatcher.SendFailed? && dispatcher.key == d.key
      ensures d.key in old(sessions) && InPhase(old(View()), old(sessions)[d.key], Dropped) ==> !sent
      ensures Leads(old(View()), trace, View(), [Accept(d.key, d.payload)] + [Send])
    {
      ghost var s0, accept := View(), Accept(d.key, d.payload);
      Once(s0, accept);
      LookUpOrSpawn(d.key, d.payload);
      ghost var s1 := View();
      var es := RunSessions(d.beforeSend);
      ghost var s2 := View();
      if Stale(s1, d.key, s1.sessions[d.key]) { SessionsKeepStale(s1, es, d.key, s1.sessions[d.key]); }
      Continue(s0, [accept], s1, [accept], es, s2, []);
      Once(s2, Send);
      sent := SendPayload();
      Continue(s0, [accept] + es, s2, [accept], [Send], View(), [Send]);
      trace := [accept] + es + [Send];
    }

    /** The body of the dispatcher loop for one allowed datagram, with any session steps in between:
        look up or spawn, send, and purge exactly if the send failed.  The send to a stale entry does fail,
        and the entry is gone afterwards. */
    method HandleDatagram(d: Datagram<K, P>) returns (sent: bool, ghost trace: seq<Event<K, P>>)
      requires Valid() && dispatcher.Idle?
      modifies this
      ensures Valid() && dispatcher.Idle? && accepted == old(accepted) + [(d.key, d.payload)]
      ensures Leads(old(View()), trace, View(), [Accept(d.key, d.payload)] + [Send] + if sent then [] else [Purge])
      ensures d.key in old(sessions) && InPhase(old(View()), old(sessions)[d.key], Dropped) ==> !sent
      ensures !sent ==> d.key !in sessions
    {
      ghost var s0, part := View(), [Accept(d.key, d.payload)] + [Send];
      sent, trace := AcceptAndSend(d);
      ghost var s1 := View();
      var es := RunSessions(d.afterSend);
      ghost var s2 := View();
      Continue(s0, trace, s1, part, es, s2, []);
      trace := trace + es;
      if !sent {
        Once(s2, Purge);
        PurgeKey();
        Continue(s0, trace, s2, part, [Purge], View(), [Purge]);
        trace := trace + [Purge];
      }
    }

    /** One turn of the dispatcher loop: the filters come first. */
    method FilterAndHandle(d: Datagram<K, P>) returns (ghost trace: seq<Event<K, P>>)
      requires Valid() && dispatcher.Idle?
      modifies this
      ensures Valid() && dispatcher.Idle?
      ensures accepted == old(accepted) + if d.allowed then [(d.key, d.payload)] else []
      ensures Reaches(old(View()), trace, View())
    {
      ghost var s0 := View();
      trace := RunSessions(d.before);
      if d.allowed {
        ghost var s1 := View();
        var sent, es := HandleDatagram(d);
        ReachesFurther(s0, trace, s1, es, View());
        trace := trace + es;
      }
    }

    /** The dispatcher loop: datagrams the filters refuse are dropped, and the others are accepted in
        order, each in one look-up, send and purge, while sessions run in between. */
    method HandleInbound(inbox: seq<Datagram<K, P>>) returns (ghost trace: seq<Event<K, P>>)
      requires Valid() && dispatcher.Idle?
      modifies this
      ensures Valid() && dispatcher.Idle? && accepted == old(accepted) + Allowed(inbox)
      ensures Reaches(old(View()), trace, View())
    {
      trace := [];
      for i := 0 to |inbox|
        invariant Valid() && dispatcher.Idle? && accepted == old(accepted) + Allowed(inbox[..i])
        invariant Reaches(old(View()), trace, View())
      {
        ghost var s := View();
        var es := FilterAndHandle(inbox[i]);
        ReachesFurther(old(View()), trace, s, es, View());
        trace := trace + es;
        AllowedNext(inbox, i);
      }
      assert inbox[..|inbox|] == inbox;
    }
  }
}
