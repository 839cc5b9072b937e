/**
 The per-flow session table of the transparent proxy.  One dispatcher loop and any number of
 spawned session tasks share a locked map from flow key to channel sender; the UDP proxy and the
 ICMP proxy use the same protocol.  A sender is modelled by the index of the session task that
 owns the matching receiver, and every region executed under the lock, every channel operation
 and every counter update is one atomic event.  `refuses` is the one difference between the
 two proxies: an ICMP proxy whose upstream server is not IPv4 returns from every session task
 before its removal step, and a UDP proxy never does.
 */
module FlowTable {
  import opened Wrappers
  import opened Subsequence

  /** Where a session task stands; its receiver is alive in every phase but the last. */
  datatype Phase = Spawned | Active | Stopped | Removed | Settled | Dropped {

    /** The task has not executed its removal from the map. */
    predicate Unremoved() {
      Spawned? || Active? || Stopped?
    }

    /** The task may still hand queued packets to its outbound socket. */
    predicate Relaying() {
      Spawned? || Active?
    }

    /** The task is between its counter increment and its counter decrement. */
    predicate Counted() {
      Active? || Stopped? || Removed?
    }
  }

  datatype Task<K, P> = Task(key: K, phase: Phase, queue: seq<P>)

  datatype Dispatcher<K, P> =
    | Idle
    | HaveTx(key: K, tx: nat, payload: P)
    | SendFailed(key: K, tx: nat)

  /** `accepted` and `handed` are histories: packets accepted by the dispatcher, and packets
      that a session handed to its outbound socket, each with its flow key. */
  datatype State<K, P> = State(
    refuses: bool,
    sessions: map<K, nat>,
    tasks: seq<Task<K, P>>,
    dispatcher: Dispatcher<K, P>,
    active: int,
    accepted: seq<(K, P)>,
    handed: seq<(K, P)>)

  datatype Event<K, P> =
    | Accept(key: K, payload: P)          // dispatcher: look up or insert under the lock
    | Send                                // dispatcher: send outside the lock
    | Purge                               // dispatcher: remove the key after a failed send
    | Start(id: nat)                      // session: count itself, or return early
    | Relay(id: nat, delivered: bool)     // session: one packet to the outbound socket
    | Stop(id: nat)                       // session: time-out, error or closed channel
    | Remove(id: nat)                     // session: remove its key under the lock
    | Settle(id: nat)                     // session: decrement the counter
    | DropReceiver(id: nat)               // session: the task ends
  {
    predicate IsSessionEvent() {
      !Accept? && !Send? && !Purge?
    }
  }

  function Init<K, P>(refuses: bool): State<K, P> {
    State(refuses, map[], [], Idle, 0, [], [])
  }

  predicate InPhase<K, P>(s: State<K, P>, id: nat, phase: Phase) {
    id < |s.tasks| && s.tasks[id].phase == phase
  }

  predicate Enabled<K, P>(s: State<K, P>, e: Event<K, P>) {
    match e
    case Accept(_, _) => s.dispatcher.Idle?
    case Send => s.dispatcher.HaveTx? && s.dispatcher.tx < |s.tasks|
    case Purge => s.dispatcher.SendFailed?
    case Start(id) => InPhase(s, id, Spawned)
    case Relay(id, _) => InPhase(s, id, Active) && s.tasks[id].queue != []
    case Stop(id) => InPhase(s, id, Active)
    case Remove(id) => InPhase(s, id, Stopped)
    case Settle(id) => InPhase(s, id, Removed)
    case DropReceiver(id) => InPhase(s, id, Settled)
  }

  function SetPhase<K, P>(s: State<K, P>, id: nat, phase: Phase): State<K, P>
    requires id < |s.tasks|
  {
    s.(tasks := s.tasks[id := s.tasks[id].(phase := phase)])
  }

  function Apply<K(==), P>(s: State<K, P>, e: Event<K, P>): State<K, P>
    requires Enabled(s, e)
  {
    match e
    case Accept(key, payload) =>
      var s' := if key in s.sessions then s
                else s.(sessions := s.sessions[key := |s.tasks|],
                        tasks := s.tasks + [Task(key, Spawned, [])]);
      s'.(dispatcher := HaveTx(key, s'.sessions[key], payload),
          accepted := s.accepted + [(key, payload)])
    case Send =>
      var HaveTx(key, tx, payload) := s.dispatcher;
      var task := s.tasks[tx];
      if task.phase.Dropped? then s.(dispatcher := SendFailed(key, tx))
      else s.(dispatcher := Idle, tasks := s.tasks[tx := task.(queue := task.queue + [payload])])
    case Purge =>
      s.(dispatcher := Idle, sessions := s.sessions - {s.dispatcher.key})
    case Start(id) =>
      if s.refuses then SetPhase(s, id, Dropped)
      else SetPhase(s, id, Active).(active := s.active + 1)
    case Relay(id, delivered) =>
      var task := s.tasks[id];
      var rest := task.(queue := task.queue[1..], phase := if delivered then Active else Stopped);
      s.(tasks := s.tasks[id := rest],
         handed := if delivered then s.handed + [(task.key, task.queue[0])] else s.handed)
    case Stop(id) => SetPhase(s, id, Stopped)
    case Remove(id) =>
      SetPhase(s, id, Removed).(sessions := s.sessions - {s.tasks[id].key})
    case Settle(id) => SetPhase(s, id, Settled).(active := s.active - 1)
    case DropReceiver(id) => SetPhase(s, id, Dropped)
  }

  /** `es` is a schedule the system can follow from `s`. */
  predicate Legal<K(==), P>(s: State<K, P>, es: seq<Event<K, P>>)
    decreases |es|
  {
    es == [] || (Enabled(s, es[0]) && Legal(Apply(s, es[0]), es[1..]))
  }

  function Run<K(==), P>(s: State<K, P>, es: seq<Event<K, P>>): State<K, P>
    requires Legal(s, es)
    decreases |es|
  {
    if es == [] then s else Run(Apply(s, es[0]), es[1..])
  }

  // ---------------------------------------------------------------------------
  // The table invariant
  // ---------------------------------------------------------------------------

  /** A map entry points at a task of its key that has not removed itself or, in a refusing
      proxy, that returned early. */
  predicate EntryOk<K(==), P>(s: State<K, P>, k: K)
    requires k in s.sessions
  {
    && s.sessions[k] < |s.tasks|
    && s.tasks[s.sessions[k]].key == k
    && (s.tasks[s.sessions[k]].phase.Unremoved() || (s.refuses && s.tasks[s.sessions[k]].phase.Dropped?))
  }

  /** A task that has not removed itself is the map's entry for its key. */
  predicate TaskOk<K(==), P>(s: State<K, P>, i: nat)
    requires i < |s.tasks|
  {
    && (s.tasks[i].phase.Unremoved() ==> s.tasks[i].key in s.sessions && s.sessions[s.tasks[i].key] == i)
    && (s.refuses ==> s.tasks[i].phase.Spawned? || s.tasks[i].phase.Dropped?)
  }

  /** What a dispatcher outside the lock still knows about the key it is serving. */
  predicate DispatcherOk<K(==), P>(s: State<K, P>) {
    !s.dispatcher.Idle? ==>
      && s.dispatcher.tx < |s.tasks|
      && s.tasks[s.dispatcher.tx].key == s.dispatcher.key
      && (s.dispatcher.key in s.sessions ==> s.sessions[s.dispatcher.key] == s.dispatcher.tx)
      && (s.dispatcher.SendFailed? ==> s.tasks[s.dispatcher.tx].phase.Dropped?)
  }

  ghost predicate TableInv<K, P>(s: State<K, P>) {
    && (forall k :: k in s.sessions ==> EntryOk(s, k))
    && (forall i :: 0 <= i < |s.tasks| ==> TaskOk(s, i))
    && DispatcherOk(s)
  }

  lemma EntryStep<K, P>(s: State<K, P>, e: Event<K, P>, k: K)
    requires TableInv(s) && Enabled(s, e) && k in Apply(s, e).sessions
    ensures EntryOk(Apply(s, e), k)
  {
    if k in s.sessions { assert EntryOk(s, k); }
    if e.Remove? { assert TaskOk(s, e.id); }
  }

  lemma TaskStep<K, P>(s: State<K, P>, e: Event<K, P>, i: nat)
    requires TableInv(s) && Enabled(s, e) && i < |Apply(s, e).tasks|
    ensures TaskOk(Apply(s, e), i)
  {
    if i < |s.tasks| { assert TaskOk(s, i); }
    if e.Purge? { assert DispatcherOk(s); }
    if e.Remove? { assert TaskOk(s, e.id); }
    if e.Accept? && e.key in s.sessions { assert EntryOk(s, e.key); }
  }

  lemma TableInvStep<K, P>(s: State<K, P>, e: Event<K, P>)
    requires TableInv(s) && Enabled(s, e)
    ensures TableInv(Apply(s, e))
  {
    var s' := Apply(s, e);
    forall k | k in s'.sessions ensures EntryOk(s', k) { EntryStep(s, e, k); }
    forall i | 0 <= i < |s'.tasks| ensures TaskOk(s', i) { TaskStep(s, e, i); }
    assert DispatcherOk(s') by {
      if e.Accept? && e.key in s.sessions { assert EntryOk(s, e.key); }
    }
  }

  // ---------------------------------------------------------------------------
  // The activity counter
  // ---------------------------------------------------------------------------

  function CountCounted<K, P>(tasks: seq<Task<K, P>>): nat {
    if tasks == [] then 0
    else CountCounted(tasks[..|tasks| - 1]) + if tasks[|tasks| - 1].phase.Counted() then 1 else 0
  }

  lemma {:induction false} CountZero<K, P>(tasks: seq<Task<K, P>>)
    requires forall t :: t in tasks ==> !t.phase.Counted()
    ensures CountCounted(tasks) == 0
  {
    if tasks != [] { CountZero(tasks[..|tasks| - 1]); }
  }

  lemma {:induction false} CountUpdate<K, P>(tasks: seq<Task<K, P>>, i: nat, t: Task<K, P>)
    requires i < |tasks|
    ensures CountCounted(tasks[i := t])
         == CountCounted(tasks) - One(tasks[i].phase.Counted()) + One(t.phase.Counted())
  {
    var n := |tasks| - 1;
    if i == n {
      assert tasks[i := t][..n] == tasks[..n];
    } else {
      assert tasks[i := t][..n] == tasks[..n][i := t];
      CountUpdate(tasks[..n], i, t);
    }
  }

  lemma CounterStep<K, P>(s: State<K, P>, e: Event<K, P>)
    requires Enabled(s, e) && s.active == CountCounted(s.tasks)
    ensures Apply(s, e).active == CountCounted(Apply(s, e).tasks)
  {
    var s' := Apply(s, e);
    match e
    case Accept(key, _) =>
      assert key !in s.sessions ==> s'.tasks[..|s'.tasks| - 1] == s.tasks;
    case Send => CountUpdate(s.tasks, s.dispatcher.tx, s'.tasks[s.dispatcher.tx]);
      assert s.tasks[s.dispatcher.tx := s.tasks[s.dispatcher.tx]] == s.tasks;
    case Purge =>
    case Start(id) => CountUpdate(s.tasks, id, s'.tasks[id]);
    case Relay(id, _) => CountUpdate(s.tasks, id, s'.tasks[id]);
    case Stop(id) => CountUpdate(s.tasks, id, s'.tasks[id]);
    case Remove(id) => CountUpdate(s.tasks, id, s'.tasks[id]);
    case Settle(id) => CountUpdate(s.tasks, id, s'.tasks[id]);
    case DropReceiver(id) => CountUpdate(s.tasks, id, s'.tasks[id]);
  }

  // ---------------------------------------------------------------------------
  // What happens to the packets of one flow
  // ---------------------------------------------------------------------------

  /** The payloads logged for key `k` among the first `n` log entries, in order. */
  function OfFirst<K(==), P>(k: K, log: seq<(K, P)>, n: nat): seq<P>
    requires n <= |log|
  {
    if n == 0 then []
    else if log[n - 1].0 == k then OfFirst(k, log, n - 1) + [log[n - 1].1]
    else OfFirst(k, log, n - 1)
  }

  function Of<K(==), P>(k: K, log: seq<(K, P)>): seq<P> {
    OfFirst(k, log, |log|)
  }

  lemma {:induction false} OfFirstLonger<K, P>(k: K, log: seq<(K, P)>, x: (K, P), n: nat)
    requires n <= |log|
    ensures OfFirst(k, log + [x], n) == OfFirst(k, log, n)
  {
    if n > 0 { OfFirstLonger(k, log, x, n - 1); }
  }

  lemma OfAppend<K, P>(k: K, log: seq<(K, P)>, x: (K, P))
    ensures Of(k, log + [x]) == if x.0 == k then Of(k, log) + [x.1] else Of(k, log)
  {
    OfFirstLonger(k, log, x, |log|);
  }

  /** Packets queued in a session of `k` that can still relay them. */
  function Queued<K(==), P>(s: State<K, P>, k: K): seq<P> {
    if k in s.sessions && s.sessions[k] < |s.tasks| && s.tasks[s.sessions[k]].phase.Relaying()
    then s.tasks[s.sessions[k]].queue else []
  }

  /** The packet for `k` that the dispatcher holds outside the lock. */
  function InHand<K(==), P>(s: State<K, P>, k: K): seq<P> {
    if s.dispatcher.HaveTx? && s.dispatcher.key == k then [s.dispatcher.payload] else []
  }

  /** No session of `k` has ever stopped. */
  ghost predicate Undisturbed<K, P>(s: State<K, P>, k: K) {
    forall i :: 0 <= i < |s.tasks| && s.tasks[i].key == k ==> s.tasks[i].phase.Relaying()
  }

  /** Handed, queued and in-hand packets form, in this order, a subsequence of the accepted ones;
      nothing is missing from it while the flow is intact. */
  ghost predicate Accounted<P>(handed: seq<P>, queued: seq<P>, inHand: seq<P>, accepted: seq<P>, intact: bool) {
    && IsSubsequence(handed + queued + inHand, accepted)
    && (intact ==> handed + queued + inHand == accepted)
  }

  ghost predicate FlowInv<K, P>(s: State<K, P>, k: K) {
    Accounted(Of(k, s.handed), Queued(s, k), InHand(s, k), Of(k, s.accepted), Undisturbed(s, k))
  }

  lemma AccountWeaken<P>(h: seq<P>, q: seq<P>, i: seq<P>, a: seq<P>, intact: bool, intact': bool)
    requires Accounted(h, q, i, a, intact) && (intact' ==> intact)
    ensures Accounted(h, q, i, a, intact')
  {
  }

  lemma AccountAccept<P>(h: seq<P>, q: seq<P>, a: seq<P>, intact: bool, p: P)
    requires Accounted(h, q, [], a, intact)
    ensures Accounted(h, q, [p], a + [p], intact)
  {
    Append(h + q, a, p);
    assert h + q + [] == h + q;
  }

  lemma AccountEnqueue<P>(h: seq<P>, q: seq<P>, a: seq<P>, intact: bool, p: P)
    requires Accounted(h, q, [p], a, intact)
    ensures Accounted(h, q + [p], [], a, intact)
  {
    assert h + q + [p] == h + (q + [p]) + [];
  }

  lemma AccountDeliver<P>(h: seq<P>, q: seq<P>, i: seq<P>, a: seq<P>, intact: bool)
    requires q != [] && Accounted(h, q, i, a, intact)
    ensures Accounted(h + [q[0]], q[1..], i, a, intact)
  {
    assert h + q + i == h + [q[0]] + q[1..] + i;
  }

  lemma AccountLoseQueue<P>(h: seq<P>, q: seq<P>, i: seq<P>, a: seq<P>, intact: bool)
    requires Accounted(h, q, i, a, intact)
    ensures Accounted(h, [], i, a, false)
  {
    DropMiddle(h, q, i, a);
    assert h + [] + i == h + i;
  }

  lemma AccountLoseInHand<P>(h: seq<P>, q: seq<P>, i: seq<P>, a: seq<P>, intact: bool)
    requires Accounted(h, q, i, a, intact)
    ensures Accounted(h, q, [], a, false)
  {
    assert h + q + i + [] == h + q + i;
    DropMiddle(h + q, i, [], a);
  }

  /** A stopped session stays stopped, so a disturbed flow stays disturbed. */
  lemma UndisturbedBefore<K, P>(s: State<K, P>, e: Event<K, P>, k: K)
    requires Enabled(s, e) && Undisturbed(Apply(s, e), k)
    ensures Undisturbed(s, k)
  {
    var s' := Apply(s, e);
    forall i | 0 <= i < |s.tasks| && s.tasks[i].key == k
      ensures s.tasks[i].phase.Relaying()
    {
      assert s'.tasks[i].key == k && s'.tasks[i].phase.Relaying();
    }
  }

  lemma QueuedAfterSession<K, P>(s: State<K, P>, e: Event<K, P>, k: K)
    requires TableInv(s) && Enabled(s, e) && e.IsSessionEvent()
    ensures Queued(Apply(s, e), k) ==
      if e.Relay? && s.tasks[e.id].key == k then
        if e.delivered then s.tasks[e.id].queue[1..] else []
      else if (e.Stop? || (e.Start? && s.refuses)) && s.tasks[e.id].key == k then []
      else Queued(s, k)
    ensures e.Relay? && s.tasks[e.id].key == k ==> Queued(s, k) == s.tasks[e.id].queue
  {
    if k in s.sessions { assert EntryOk(s, k); }
    assert TaskOk(s, e.id);
  }

  lemma QueuedAfterDispatcher<K, P>(s: State<K, P>, e: Event<K, P>, k: K)
    requires TableInv(s) && Enabled(s, e) && !e.IsSessionEvent()
    ensures Queued(Apply(s, e), k) ==
      if e.Send? && s.dispatcher.key == k && s.tasks[s.dispatcher.tx].phase.Relaying() then
        Queued(s, k) + [s.dispatcher.payload]
      else Queued(s, k)
  {
    if k in s.sessions { assert EntryOk(s, k); }
    if e.Send? { assert TaskOk(s, s.dispatcher.tx); }
  }

  /** Sending moves the packet in hand to the end of the queue, or loses it. */
  lemma SendParts<K, P>(s: State<K, P>, k: K)
    requires TableInv(s) && Enabled(s, Send) && s.dispatcher.key == k
    ensures var s' := Apply(s, Send);
            var relaying := s.tasks[s.dispatcher.tx].phase.Relaying();
            && Of(k, s'.handed) == Of(k, s.handed) && Of(k, s'.accepted) == Of(k, s.accepted)
            && InHand(s, k) == [s.dispatcher.payload] && InHand(s', k) == []
            && Queued(s', k) == (if relaying then Queued(s, k) + [s.dispatcher.payload] else Queued(s, k))
            && (Undisturbed(s', k) ==> relaying && Undisturbed(s, k))
  {
    var s' := Apply(s, Send);
    QueuedAfterDispatcher(s, Send, k);
    assert s'.tasks[s.dispatcher.tx].key == k && s'.tasks[s.dispatcher.tx].phase == s.tasks[s.dispatcher.tx].phase;
    if Undisturbed(s', k) { UndisturbedBefore(s, Send, k); }
  }

  lemma SendKeepsFlow<K, P>(s: State<K, P>, k: K)
    requires TableInv(s) && FlowInv(s, k) && Enabled(s, Send) && s.dispatcher.key == k
    ensures FlowInv(Apply(s, Send), k)
  {
    SendParts(s, k);
    var h, q, p, a := Of(k, s.handed), Queued(s, k), s.dispatcher.payload, Of(k, s.accepted);
    var before, after := Undisturbed(s, k), Undisturbed(Apply(s, Send), k);
    if s.tasks[s.dispatcher.tx].phase.Relaying() {
      AccountEnqueue(h, q, a, before, p);
      AccountWeaken(h, q + [p], [], a, before, after);
    } else {
      AccountLoseInHand(h, q, [p], a, before);
      AccountWeaken(h, q, [], a, false, after);
    }
  }

  lemma RelayKeepsFlow<K, P>(s: State<K, P>, id: nat, delivered: bool, k: K)
    requires TableInv(s) && FlowInv(s, k) && Enabled(s, Relay(id, delivered)) && s.tasks[id].key == k
    ensures FlowInv(Apply(s, Relay(id, delivered)), k)
  {
    var s' := Apply(s, Relay(id, delivered));
    var h, q, i, a := Of(k, s.handed), Queued(s, k), InHand(s, k), Of(k, s.accepted);
    QueuedAfterSession(s, Relay(id, delivered), k);
    if Undisturbed(s', k) { UndisturbedBefore(s, Relay(id, delivered), k); }
    if delivered {
      OfAppend(k, s.handed, (k, q[0]));
      AccountDeliver(h, q, i, a, Undisturbed(s, k));
    } else {
      assert s'.tasks[id].key == k && !s'.tasks[id].phase.Relaying();
      AccountLoseQueue(h, q, i, a, Undisturbed(s, k));
    }
  }

  /** Accepting a packet puts it in the dispatcher's hand and at the end of its flow's log. */
  lemma AcceptParts<K, P>(s: State<K, P>, key: K, payload: P, k: K)
    requires TableInv(s) && s.dispatcher.Idle?
    ensures var s' := Apply(s, Accept(key, payload));
            && Of(k, s'.handed) == Of(k, s.handed) && Queued(s', k) == Queued(s, k)
            && InHand(s, k) == [] && InHand(s', k) == (if key == k then [payload] else [])
            && Of(k, s'.accepted) == (if key == k then Of(k, s.accepted) + [payload] else Of(k, s.accepted))
            && (Undisturbed(s', k) ==> Undisturbed(s, k))
  {
    QueuedAfterDispatcher(s, Accept(key, payload), k);
    OfAppend(k, s.accepted, (key, payload));
    if Undisturbed(Apply(s, Accept(key, payload)), k) { UndisturbedBefore(s, Accept(key, payload), k); }
  }

  lemma AcceptKeepsFlow<K, P>(s: State<K, P>, key: K, payload: P, k: K)
    requires TableInv(s) && FlowInv(s, k) && s.dispatcher.Idle?
    ensures FlowInv(Apply(s, Accept(key, payload)), k)
  {
    AcceptParts(s, key, payload, k);
    var h, q, a := Of(k, s.handed), Queued(s, k), Of(k, s.accepted);
    var before, after := Undisturbed(s, k), Undisturbed(Apply(s, Accept(key, payload)), k);
    if key == k {
      AccountAccept(h, q, a, before, payload);
      AccountWeaken(h, q, [payload], a + [payload], before, after);
    } else {
      AccountWeaken(h, q, [], a, before, after);
    }
  }

  /** A session that ends, or returns early, loses what is still in its queue. */
  lemma EndKeepsFlow<K, P>(s: State<K, P>, e: Event<K, P>, k: K)
    requires TableInv(s) && FlowInv(s, k) && Enabled(s, e)
    requires (e.Stop? || (e.Start? && s.refuses)) && s.tasks[e.id].key == k
    ensures FlowInv(Apply(s, e), k)
  {
    var s' := Apply(s, e);
    QueuedAfterSession(s, e, k);
    assert s'.tasks[e.id].key == k && !s'.tasks[e.id].phase.Relaying();
    AccountLoseQueue(Of(k, s.handed), Queued(s, k), InHand(s, k), Of(k, s.accepted), Undisturbed(s, k));
  }

  /** The event ends no session of `k` and moves no packet of `k`. */
  predicate Bystander<K(==), P>(s: State<K, P>, e: Event<K, P>, k: K)
    requires Enabled(s, e)
  {
    match e
    case Accept(_, _) => false
    case Send => s.dispatcher.key != k
    case Purge => true
    case Start(id) => !s.refuses || s.tasks[id].key != k
    case Relay(id, _) => s.tasks[id].key != k
    case Stop(id) => s.tasks[id].key != k
    case _ => true
  }

  lemma BystanderParts<K, P>(s: State<K, P>, e: Event<K, P>, k: K)
    requires TableInv(s) && Enabled(s, e) && Bystander(s, e, k)
    ensures var s' := Apply(s, e);
            && Of(k, s'.handed) == Of(k, s.handed) && Queued(s', k) == Queued(s, k)
            && InHand(s', k) == InHand(s, k) && Of(k, s'.accepted) == Of(k, s.accepted)
            && (Undisturbed(s', k) ==> Undisturbed(s, k))
  {
    if e.IsSessionEvent() {
      QueuedAfterSession(s, e, k);
    } else {
      QueuedAfterDispatcher(s, e, k);
    }
    if e.Relay? { OfAppend(k, s.handed, (s.tasks[e.id].key, s.tasks[e.id].queue[0])); }
    if Undisturbed(Apply(s, e), k) { UndisturbedBefore(s, e, k); }
  }

  lemma BystanderKeepsFlow<K, P>(s: State<K, P>, e: Event<K, P>, k: K)
    requires TableInv(s) && FlowInv(s, k) && Enabled(s, e) && Bystander(s, e, k)
    ensures FlowInv(Apply(s, e), k)
  {
    BystanderParts(s, e, k);
    AccountWeaken(Of(k, s.handed), Queued(s, k), InHand(s, k), Of(k, s.accepted),
                  Undisturbed(s, k), Undisturbed(Apply(s, e), k));
  }

  lemma FlowInvStep<K, P>(s: State<K, P>, e: Event<K, P>, k: K)
    requires TableInv(s) && FlowInv(s, k) && Enabled(s, e)
    ensures FlowInv(Apply(s, e), k)
  {
    if Bystander(s, e, k) {
      BystanderKeepsFlow(s, e, k);
    } else {
      match e
      case Accept(key, payload) => AcceptKeepsFlow(s, key, payload, k);
      case Send => SendKeepsFlow(s, k);
      case Relay(id, delivered) => RelayKeepsFlow(s, id, delivered, k);
      case Start(_) => EndKeepsFlow(s, e, k);
      case Stop(_) => EndKeepsFlow(s, e, k);
    }
  }

  // ---------------------------------------------------------------------------
  // Whole runs
  // ---------------------------------------------------------------------------

  lemma {:induction false} RunInv<K, P>(s: State<K, P>, es: seq<Event<K, P>>)
    requires TableInv(s) && s.active == CountCounted(s.tasks) && Legal(s, es)
    ensures TableInv(Run(s, es)) && Run(s, es).active == CountCounted(Run(s, es).tasks)
    ensures Run(s, es).refuses == s.refuses
    decreases |es|
  {
    if es != [] {
      TableInvStep(s, es[0]);
      CounterStep(s, es[0]);
      RunInv(Apply(s, es[0]), es[1..]);
    }
  }

  lemma {:induction false} RunFlow<K, P>(s: State<K, P>, es: seq<Event<K, P>>, k: K)
    requires TableInv(s) && FlowInv(s, k) && Legal(s, es)
    ensures FlowInv(Run(s, es), k)
    decreases |es|
  {
    if es != [] {
      TableInvStep(s, es[0]);
      FlowInvStep(s, es[0], k);
      RunFlow(Apply(s, es[0]), es[1..], k);
    }
  }

  /** `i` is the session of key `k` that has not removed itself. */
  predicate Serves<K(==), P>(s: State<K, P>, i: nat, k: K) {
    i < |s.tasks| && s.tasks[i].key == k && s.tasks[i].phase.Unremoved()
  }

  /** In every interleaving of either proxy there is at most one unremoved session per key, it is
      the map's entry for that key, and so its removal by key deletes its own entry. */
  lemma UnremovedSessionsOwnTheirEntry<K, P>(refuses: bool, es: seq<Event<K, P>>, i: nat, k: K)
    requires Legal(Init(refuses), es) && Serves(Run(Init(refuses), es), i, k)
    ensures var s := Run(Init(refuses), es);
            && k in s.sessions && s.sessions[k] == i
            && (forall j: nat :: Serves(s, j, k) ==> j == i)
  {
    RunInv(Init(refuses), es);
    var s := Run(Init(refuses), es);
    assert TaskOk(s, i);
    forall j: nat | Serves(s, j, k) ensures j == i { assert TaskOk(s, j); }
  }

  /** Map entries correspond one-to-one with unremoved sessions, apart from the entries that sessions
      of a refusing proxy leave behind by returning early. */
  lemma EntriesAreUnremovedSessions<K, P>(refuses: bool, es: seq<Event<K, P>>, k: K, i: nat)
    requires Legal(Init(refuses), es)
    ensures var s := Run(Init(refuses), es);
            Serves(s, i, k) <==> k in s.sessions && s.sessions[k] == i && !InPhase(s, i, Dropped)
    ensures var s := Run(Init(refuses), es);
            !refuses && k in s.sessions ==> !InPhase(s, s.sessions[k], Dropped)
  {
    RunInv(Init(refuses), es);
    var s := Run(Init(refuses), es);
    if k in s.sessions { assert EntryOk(s, k); }
    if Serves(s, i, k) { assert TaskOk(s, i); }
  }

  /** Without early returns, the dispatcher's removal after a failed send never deletes anything. */
  lemma PurgeIsNoOp<K, P>(es: seq<Event<K, P>>)
    requires Legal(Init(false), es) && Enabled(Run(Init(false), es), Purge)
    ensures var s := Run(Init(false), es);
            s.dispatcher.key !in s.sessions && Apply(s, Purge).sessions == s.sessions
  {
    RunInv(Init(false), es);
    FailedKeyIsGone(Run(Init(false), es));
  }

  lemma FailedKeyIsGone<K, P>(s: State<K, P>)
    requires TableInv(s) && !s.refuses && s.dispatcher.SendFailed?
    ensures s.dispatcher.key !in s.sessions
  {
  }

  /** With early returns, the dispatcher's removal deletes at most the entry whose send failed, and
      the receiver of that entry is gone. */
  lemma PurgeRemovesOnlyDeadEntry<K, P>(refuses: bool, es: seq<Event<K, P>>, k: K)
    requires Legal(Init(refuses), es) && Enabled(Run(Init(refuses), es), Purge)
    requires k in Run(Init(refuses), es).sessions
    ensures var s := Run(Init(refuses), es);
            k !in Apply(s, Purge).sessions ==>
              k == s.dispatcher.key && InPhase(s, s.sessions[k], Dropped)
  {
    RunInv(Init(refuses), es);
  }

  /** The counter is the number of tasks between increment and decrement, so it never underflows
      and is zero once every task has settled or returned early. */
  lemma CounterIsExact<K, P>(refuses: bool, es: seq<Event<K, P>>)
    requires Legal(Init(refuses), es)
    ensures var s := Run(Init(refuses), es);
            && s.active == CountCounted(s.tasks) >= 0
            && ((forall t :: t in s.tasks ==> !t.phase.Counted()) ==> s.active == 0)
            && (refuses ==> s.active == 0)
  {
    RunInv(Init(refuses), es);
    var s := Run(Init(refuses), es);
    if refuses {
      forall t | t in s.tasks ensures !t.phase.Counted() {
        var i :| 0 <= i < |s.tasks| && s.tasks[i] == t;
        assert TaskOk(s, i);
      }
    }
    if forall t :: t in s.tasks ==> !t.phase.Counted() { CountZero(s.tasks); }
  }

  /** Over all successive sessions of a flow, the packets handed to the outbound socket are an
      order-preserving, duplicate-free subsequence of the accepted ones; while no session of the flow
      has stopped, the only accepted packets not yet handed over are in its queue or in the
      dispatcher's hand, in order. */
  lemma HandedIsSubsequenceOfAccepted<K, P>(refuses: bool, es: seq<Event<K, P>>, k: K)
    requires Legal(Init(refuses), es)
    ensures var s := Run(Init(refuses), es);
            && IsSubsequence(Of(k, s.handed), Of(k, s.accepted))
            && (Undisturbed(s, k) ==> Of(k, s.accepted) == Of(k, s.handed) + Queued(s, k) + InHand(s, k))
  {
    InitFlow<K, P>(refuses, k);
    RunFlow(Init(refuses), es, k);
    var s := Run(Init<K, P>(refuses), es);
    AccountHanded(Of(k, s.handed), Queued(s, k), InHand(s, k), Of(k, s.accepted), Undisturbed(s, k));
  }

  lemma InitFlow<K, P>(refuses: bool, k: K)
    ensures FlowInv(Init<K, P>(refuses), k)
  {
    Reflexive<P>([]);
    assert [] + [] + [] == Of(k, Init<K, P>(refuses).handed);
  }

  lemma AccountHanded<P>(h: seq<P>, q: seq<P>, i: seq<P>, a: seq<P>, intact: bool)
    requires Accounted(h, q, i, a, intact)
    ensures IsSubsequence(h, a) && (intact ==> a == h + q + i)
  {
    AccountLoseQueue(h, q, i, a, intact);
    AccountLoseInHand(h, [], i, a, false);
    assert h + [] + [] == h;
  }

  lemma {:induction false} OfFirstHas<K, P>(k: K, log: seq<(K, P)>, n: nat, p: P)
    requires n <= |log|
    ensures p in OfFirst(k, log, n) <==> exists i :: 0 <= i < n && log[i] == (k, p)
  {
    if n > 0 { OfFirstHas(k, log, n - 1, p); }
  }

  lemma {:induction false} AcceptedAreEvents<K, P>(s: State<K, P>, es: seq<Event<K, P>>, x: (K, P))
    requires Legal(s, es) && x in Run(s, es).accepted
    ensures x in s.accepted || Accept(x.0, x.1) in es
    decreases |es|
  {
    if es != [] { AcceptedAreEvents(Apply(s, es[0]), es[1..], x); }
  }

  /** Whatever a session hands over, the dispatcher accepted for that session's key. */
  lemma HandedWasAccepted<K, P>(refuses: bool, es: seq<Event<K, P>>, k: K, p: P)
    requires Legal(Init(refuses), es) && (k, p) in Run(Init(refuses), es).handed
    ensures Accept(k, p) in es
  {
    var s := Run(Init<K, P>(refuses), es);
    HandedIsSubsequenceOfAccepted(refuses, es, k);
    OfFirstHas(k, s.handed, |s.handed|, p);
    assert p in Of(k, s.handed) && p in Of(k, s.accepted);
    OfFirstHas(k, s.accepted, |s.accepted|, p);
    AcceptedAreEvents(Init(refuses), es, (k, p));
  }

  /** The schedule that accepts, queues and relays one packet of `k`; the first one also spawns and
      starts the session. */
  function DeliverOne<K, P>(k: K, p: P, first: bool): seq<Event<K, P>> {
    [Accept(k, p), Send] + (if first then [Start(0)] else []) + [Relay(0, true)]
  }

  function DeliverAll<K, P>(k: K, ps: seq<P>): seq<Event<K, P>> {
    if ps == [] then []
    else DeliverAll(k, ps[..|ps| - 1]) + DeliverOne(k, ps[|ps| - 1], |ps| == 1)
  }

  /** The state of a quiet table that has handed over `ps` in its only session. */
  ghost predicate Quiet<K, P>(s: State<K, P>, k: K, ps: seq<P>) {
    && s.dispatcher.Idle? && !s.refuses && Of(k, s.handed) == ps
    && (if ps == [] then s.sessions == map[] && s.tasks == []
        else s.sessions == map[k := 0] && s.tasks == [Task(k, Active, [])])
  }

  /** The state in which the session is about to relay the one packet `p`. */
  function ReadyToRelay<K(==), P>(s: State<K, P>, k: K, p: P, first: bool): State<K, P>
    requires s.dispatcher.Idle? && !s.refuses
    requires if first then s.sessions == map[] && s.tasks == []
             else s.sessions == map[k := 0] && s.tasks == [Task(k, Active, [])]
  {
    var s2 := Apply(Apply(s, Accept(k, p)), Send);
    if first then Apply(s2, Start(0)) else s2
  }

  lemma RelayedIsQuiet<K, P>(s: State<K, P>, k: K, ps: seq<P>, p: P)
    requires Quiet(s, k, ps)
    ensures var r := ReadyToRelay(s, k, p, ps == []);
            Enabled(r, Relay(0, true)) && Quiet(Apply(r, Relay(0, true)), k, ps + [p])
  {
    var phase := if ps == [] then Spawned else Active;
    var s1 := Apply(s, Accept(k, p));
    assert s1.tasks == [Task(k, phase, [])] && [] + [p] == [p];
    assert Apply(s1, Send).tasks == [Task(k, phase, [p])];
    var r := ReadyToRelay(s, k, p, ps == []);
    assert r.tasks == [Task(k, Active, [p])] && [p][1..] == [];
    assert Apply(r, Relay(0, true)).tasks == [Task(k, Active, [])];
    OfAppend(k, s.handed, (k, p));
  }

  lemma RunDeliverOne<K, P>(s: State<K, P>, k: K, ps: seq<P>, p: P)
    requires Quiet(s, k, ps)
    ensures Legal(s, DeliverOne(k, p, ps == []))
    ensures Quiet(Run(s, DeliverOne(k, p, ps == [])), k, ps + [p])
  {
    RelayedIsQuiet(s, k, ps, p);
    var s1 := Apply(s, Accept(k, p));
    var s2 := Apply(s1, Send);
    var r := ReadyToRelay(s, k, p, ps == []);
    var none: seq<Event<K, P>> := [];
    RunFirst(r, Relay(0, true), none);
    var relay := [Relay(0, true)] + none;
    var tail := if ps == [] then [Start(0)] + relay else relay;
    if ps == [] { RunFirst(s2, Start(0), relay); }
    RunFirst(s1, Send, tail);
    RunFirst(s, Accept(k, p), [Send] + tail);
    assert DeliverOne(k, p, ps == []) == [Accept(k, p)] + ([Send] + tail);
  }

  lemma {:induction false} RunDeliverAll<K, P>(k: K, ps: seq<P>)
    ensures Legal(Init(false), DeliverAll(k, ps))
    ensures Quiet(Run(Init(false), DeliverAll(k, ps)), k, ps)
  {
    if ps != [] {
      var front, p := ps[..|ps| - 1], ps[|ps| - 1];
      RunDeliverAll(k, front);
      var s := Run(Init(false), DeliverAll(k, front));
      RunDeliverOne(s, k, front, p);
      RunConcat(Init(false), DeliverAll(k, front), DeliverOne(k, p, front == []));
      assert front + [p] == ps;
    }
  }

  /** Nothing in the protocol forces a loss: every list of packets of a flow can be handed over
      completely, by one session. */
  lemma CompleteDeliveryIsPossible<K, P>(k: K, ps: seq<P>)
    ensures Legal(Init(false), DeliverAll(k, ps))
    ensures Of(k, Run(Init(false), DeliverAll(k, ps)).handed) == ps
    ensures |Run(Init(false), DeliverAll(k, ps)).tasks| <= 1
  {
    RunDeliverAll(k, ps);
  }

  /** The entry of `k` is the session `tx`, whose receiver is gone. */
  predicate Stale<K(==), P>(s: State<K, P>, k: K, tx: nat) {
    InPhase(s, tx, Dropped) && k in s.sessions && s.sessions[k] == tx
  }

  /** No session removes an entry that is not its own, so session events keep a stale entry stale. */
  lemma SessionEventKeepsStale<K, P>(s: State<K, P>, e: Event<K, P>, k: K, tx: nat)
    requires TableInv(s) && Stale(s, k, tx) && Enabled(s, e) && e.IsSessionEvent()
    ensures Stale(Apply(s, e), k, tx) && Apply(s, e).dispatcher == s.dispatcher
  {
    assert EntryOk(s, k);
    assert TaskOk(s, e.id);
  }

  /** The dispatcher is serving a packet of the stale entry, before or after its failed send. */
  predicate ServesStale<K(==), P>(s: State<K, P>, k: K, tx: nat, failed: bool) {
    && Stale(s, k, tx)
    && !s.dispatcher.Idle? && s.dispatcher.key == k && s.dispatcher.tx == tx
    && (s.dispatcher.SendFailed? <==> failed)
  }

  /** Running one schedule after another. */
  lemma {:induction false} RunConcat<K, P>(s: State<K, P>, es: seq<Event<K, P>>, fs: seq<Event<K, P>>)
    ensures Legal(s, es + fs) <==> Legal(s, es) && Legal(Run(s, es), fs)
    ensures Legal(s, es + fs) ==> Run(s, es + fs) == Run(Run(s, es), fs)
    decreases |es|
  {
    if es == [] {
      assert es + fs == fs;
    } else {
      assert (es + fs)[1..] == es[1..] + fs;
      if Enabled(s, es[0]) { RunConcat(Apply(s, es[0]), es[1..], fs); }
    }
  }

  /** Until the purge, the packet's send is still to come or has failed, whatever else happens. */
  lemma {:induction false} StaleRound<K, P>(s: State<K, P>, es: seq<Event<K, P>>, k: K, tx: nat, failed: bool)
    requires TableInv(s) && ServesStale(s, k, tx, failed) && Legal(s, es) && Purge !in es
    ensures ServesStale(Run(s, es), k, tx, failed || Send in es)
    decreases |es|
  {
    if es != [] {
      TableInvStep(s, es[0]);
      if es[0].IsSessionEvent() { SessionEventKeepsStale(s, es[0], k, tx); }
      StaleRound(Apply(s, es[0]), es[1..], k, tx, failed || es[0].Send?);
    }
  }

  /** A stale entry does not outlive the next packet of its key.  However the run goes on after that packet
      is accepted, until a purge the packet waits for its send or its send has failed; so the send fails
      and the purge comes next, it removes the entry, and the packet after opens a fresh session. */
  lemma StaleEntryIsPurged<K, P>(
    refuses: bool, before: seq<Event<K, P>>, k: K, p: P, es: seq<Event<K, P>>, q: P)
    requires Legal(Init(refuses), before)
    requires var s := Run(Init(refuses), before);
             && s.dispatcher.Idle? && k in s.sessions && InPhase(s, s.sessions[k], Dropped)
             && Legal(s, [Accept(k, p)] + es)
    requires Purge !in es
    ensures var s' := Run(Run(Init(refuses), before), [Accept(k, p)] + es);
            && (Send !in es ==> Enabled(s', Send) && Enabled(Apply(s', Send), Purge))
            && (Send in es ==> Enabled(s', Purge))
            && (Send in es ==>
                  var s'' := Apply(s', Purge);
                  && k !in s''.sessions && s''.dispatcher.Idle?
                  && Apply(s'', Accept(k, q)).sessions == s''.sessions[k := |s''.tasks|]
                  && InPhase(Apply(s'', Accept(k, q)), |s''.tasks|, Spawned))
  {
    RunInv(Init(refuses), before);
    var s := Run(Init<K, P>(refuses), before);
    assert ([Accept(k, p)] + es)[1..] == es;
    TableInvStep(s, Accept(k, p));
    StaleRound(Apply(s, Accept(k, p)), es, k, s.sessions[k], false);
  }

  /** The only session, of `k`, has gone through its steps up to `phase` with the dispatcher holding `p` for it. */
  ghost predicate Leaving<K, P>(s: State<K, P>, k: K, p: P, phase: Phase) {
    && !s.refuses && s.tasks == [Task(k, phase, [])] && s.dispatcher == HaveTx(k, 0, p)
    && s.sessions == (if phase.Unremoved() then map[k := 0] else map[])
    && s.active == One(phase.Counted()) && s.accepted == [(k, p)] && s.handed == []
  }

  lemma LeavingStep<K, P>(s: State<K, P>, k: K, p: P, phase: Phase, e: Event<K, P>)
    requires Leaving(s, k, p, phase)
    requires match phase
             case Spawned => e == Start(0)
             case Active => e == Stop(0)
             case Stopped => e == Remove(0)
             case Removed => e == Settle(0)
             case _ => false
    ensures Enabled(s, e)
    ensures Leaving(Apply(s, e), k, p, match phase case Spawned => Active case Active => Stopped case Stopped => Removed case _ => Settled)
  {
    assert s.tasks[0] == Task(k, phase, []);
  }

  lemma LeavingLoses<K, P>(s: State<K, P>, k: K, p: P)
    requires Leaving(s, k, p, Settled)
    ensures Enabled(s, Send) && Enabled(Apply(s, Send), DropReceiver(0))
    ensures var s' := Apply(Apply(s, Send), DropReceiver(0));
            && s'.dispatcher.Idle? && s'.sessions == map[] && s'.active == 0 && s'.accepted == [(k, p)] && s'.handed == []
            && s'.tasks == [Task(k, Dropped, [p])]
  {
    assert s.tasks[0] == Task(k, Settled, []) && [] + [p] == [p];
    assert Apply(s, Send).tasks == [Task(k, Settled, [p])];
  }

  /** A successful send is no delivery: a session that has removed itself and counted itself out still has its
      receiver, so a packet that the dispatcher looked it up for before goes into its queue and is lost with it. */
  lemma SentPacketCanBeLost<K, P>(k: K, p: P)
    ensures var es := [Accept(k, p)] + ([Start(0)] + ([Stop(0)] + ([Remove(0)] + ([Settle(0)] + ([Send] + ([DropReceiver(0)] + []))))));
            && Legal(Init(false), es)
            && var s := Run(Init(false), es);
               && s.dispatcher.Idle? && s.sessions == map[] && s.active == 0
               && s.accepted == [(k, p)] && s.handed == []
               && s.tasks == [Task(k, Dropped, [p])]
  {
    var s0 := Init<K, P>(false);
    var s1 := Apply(s0, Accept(k, p));
    assert s1.tasks == [Task(k, Spawned, [])] && s1.accepted == [(k, p)];
    LeavingStep(s1, k, p, Spawned, Start(0));
    var s2 := Apply(s1, Start(0));
    LeavingStep(s2, k, p, Active, Stop(0));
    var s3 := Apply(s2, Stop(0));
    LeavingStep(s3, k, p, Stopped, Remove(0));
    var s4 := Apply(s3, Remove(0));
    LeavingStep(s4, k, p, Removed, Settle(0));
    var s5 := Apply(s4, Settle(0));
    LeavingLoses(s5, k, p);
    var drop: seq<Event<K, P>> := [DropReceiver(0)] + [];
    RunFirst(Apply(s5, Send), DropReceiver(0), []);
    RunFirst(s5, Send, drop);
    RunFirst(s4, Settle(0), [Send] + drop);
    RunFirst(s3, Remove(0), [Settle(0)] + ([Send] + drop));
    RunFirst(s2, Stop(0), [Remove(0)] + ([Settle(0)] + ([Send] + drop)));
    RunFirst(s1, Start(0), [Stop(0)] + ([Remove(0)] + ([Settle(0)] + ([Send] + drop))));
    RunFirst(s0, Accept(k, p), [Start(0)] + ([Stop(0)] + ([Remove(0)] + ([Settle(0)] + ([Send] + drop)))));
  }

  /** With early returns the one-to-one correspondence does fail: after two packets of any key a
      refusing proxy has an entry without a session, and its purge does delete that entry. */
  lemma StaleEntryIsReachable<K, P>(k: K, p: P, q: P)
    ensures var es := [Accept(k, p), Send, Start(0), Accept(k, q), Send];
            && Legal(Init(true), es) && Enabled(Run(Init(true), es), Purge)
            && (forall i: nat :: !Serves(Run(Init(true), es), i, k))
            && k in Run(Init(true), es).sessions
            && k !in Apply(Run(Init(true), es), Purge).sessions
  {
    var s0 := Init<K, P>(true);
    var s1 := Apply(s0, Accept(k, p));
    var s2 := Apply(s1, Send);
    var s3 := Apply(s2, Start(0));
    var s4 := Apply(s3, Accept(k, q));
    var s5 := Apply(s4, Send);
    RunFirst(s4, Send, []);
    RunFirst(s3, Accept(k, q), [Send]);
    RunFirst(s2, Start(0), [Accept(k, q), Send]);
    RunFirst(s1, Send, [Start(0), Accept(k, q), Send]);
    RunFirst(s0, Accept(k, p), [Send, Start(0), Accept(k, q), Send]);
    var none: seq<Event<K, P>> := [];
    assert [Send] + none == [Send];
    assert [Accept(k, q)] + [Send] == [Accept(k, q), Send];
    assert [Start(0)] + [Accept(k, q), Send] == [Start(0), Accept(k, q), Send];
    assert [Send] + [Start(0), Accept(k, q), Send] == [Send, Start(0), Accept(k, q), Send];
    assert [Accept(k, p)] + [Send, Start(0), Accept(k, q), Send] == [Accept(k, p), Send, Start(0), Accept(k, q), Send];
  }

  lemma RunFirst<K, P>(s: State<K, P>, e: Event<K, P>, es: seq<Event<K, P>>)
    requires Enabled(s, e) && Legal(Apply(s, e), es)
    ensures Legal(s, [e] + es) && Run(s, [e] + es) == Run(Apply(s, e), es)
  {
  }
}
