/** The notification wake-up protocol, as interleaved steps of the event publishers, the
    notification worker, the broker and any number of browser connections
    (notifications/worker.go, nats/subscriber.go, http/global_sse.go).

    The worker stores a row and only then publishes a wake-up. Every connection buffers at most
    16 wake-ups and drops the rest, subscribes before its first render, and on a wake-up queries
    the tables again instead of trusting the message. */
module NotificationWakeup {
  import opened ChanSubscription
  import opened NotificationEvents
  import opened NotificationStore
  import opened NotificationWorker

  const LIST_LIMIT := 30

  datatype WorkerPhase = Idle | Storing(event: Event) | Publishing(id: string)

  /** `inflight` is what the broker still has to hand to the callback, `buffer` the channel. */
  datatype Worker = Worker(phase: WorkerPhase, inflight: seq<Event>, buffer: seq<Event>)

  /** Where a connection's handler stands: waiting in its select, about to run the count query,
      about to run the list query, or disconnected. */
  datatype Phase = Waiting | Counting | Listing | Gone

  /** `counted` and `listed` are the table sizes its last two queries saw, `countMarks` and
      `listMarks` the read marks; `reached` and `lost` remember which wake-ups got to the
      callback and which the broker or a failed publish lost. */
  datatype Client = Client(user: string, phase: Phase, inflight: seq<string>, buffer: seq<string>,
                           badge: nat, list: seq<Notification>,
                           counted: nat, countMarks: Reads, listed: nat, listMarks: Reads,
                           reached: set<string>, lost: set<string>)

  /** `emitted` counts the domain events worth a notification that other components published,
      `handled` those the worker took from its channel. */
  datatype State = State(rows: seq<Row>, marks: Reads, worker: Worker, clients: seq<Client>,
                         emitted: nat, handled: nat)

  datatype Action =
    | Emit(event: Event)
    | WorkerDeliver
    | WorkerTake
    | WorkerStore(newId: string, now: int, dbOk: bool)
    | WorkerPublish(brokerOk: bool)
    | Connect(user: string)
    | ClientDeliver(i: nat)
    | ClientLose(i: nat)
    | ClientTake(i: nat)
    | ClientCount(i: nat)
    | ClientList(i: nat)
    | MarkRead(user: string)
    | Disconnect(i: nat)

  const Init := State([], {}, Worker(Idle, [], []), [], 0, 0)

  predicate Connected(s: State, i: nat) {
    i < |s.clients| && !s.clients[i].phase.Gone?
  }

  predicate Enabled(s: State, a: Action) {
    match a
    case Emit(_) => true
    case WorkerDeliver => s.worker.inflight != []
    case WorkerTake => s.worker.phase.Idle? && s.worker.buffer != []
    case WorkerStore(_, _, _) => s.worker.phase.Storing?
    case WorkerPublish(_) => s.worker.phase.Publishing?
    case Connect(_) => true
    case ClientDeliver(i) => Connected(s, i) && s.clients[i].inflight != []
    case ClientLose(i) => Connected(s, i) && s.clients[i].inflight != []
    case ClientTake(i) => i < |s.clients| && s.clients[i].phase.Waiting? && s.clients[i].buffer != []
    case ClientCount(i) => i < |s.clients| && s.clients[i].phase.Counting?
    case ClientList(i) => i < |s.clients| && s.clients[i].phase.Listing?
    case MarkRead(_) => true
    case Disconnect(i) => Connected(s, i)
  }

  function SetClient(s: State, i: nat, c: Client): State
    requires i < |s.clients|
  {
    s.(clients := s.clients[i := c])
  }

  function Notified(c: Client, id: string, brokerOk: bool): Client {
    if c.phase.Gone? then c
    else if brokerOk then c.(inflight := c.inflight + [id])
    else c.(lost := c.lost + {id})
  }

  function Broadcast(clients: seq<Client>, id: string, brokerOk: bool): (r: seq<Client>)
    ensures |r| == |clients|
    ensures forall i :: 0 <= i < |clients| ==> r[i] == Notified(clients[i], id, brokerOk)
  {
    seq(|clients|, i requires 0 <= i < |clients| => Notified(clients[i], id, brokerOk))
  }

  /** One step; a step that is not enabled changes nothing. */
  function Step(s: State, a: Action): State {
    if !Enabled(s, a) then s else
    match a
    case Emit(e) =>
      s.(worker := s.worker.(inflight := s.worker.inflight + [e]),
         emitted := s.emitted + if Titled(e) then 1 else 0)
    case WorkerDeliver =>
      var w := s.worker;
      s.(worker := w.(inflight := w.inflight[1..], buffer := Offer(w.buffer, w.inflight[0])))
    case WorkerTake =>
      var w := s.worker;
      s.(worker := w.(buffer := w.buffer[1..],
                      phase := if Titled(w.buffer[0]) then Storing(w.buffer[0]) else Idle),
         handled := s.handled + if Titled(w.buffer[0]) then 1 else 0)
    case WorkerStore(id, now, dbOk) =>
      if dbOk && !HasId(s.rows, id) then
        var (title, url) := TitleFor(s.worker.phase.event);
        s.(rows := s.rows + [Row(id, title, url, now)], worker := s.worker.(phase := Publishing(id)))
      else s.(worker := s.worker.(phase := Idle))
    case WorkerPublish(brokerOk) =>
      var w := s.worker;
      var echo := if brokerOk then [WakeEvent(w.phase.id)] else [];
      s.(worker := w.(phase := Idle, inflight := w.inflight + echo),
         clients := Broadcast(s.clients, w.phase.id, brokerOk))
    case Connect(user) =>
      s.(clients := s.clients + [Client(user, Counting, [], [], 0, [], 0, {}, 0, {}, {}, {})])
    case ClientDeliver(i) =>
      var c := s.clients[i];
      SetClient(s, i, c.(inflight := c.inflight[1..], buffer := Offer(c.buffer, c.inflight[0]),
                         reached := c.reached + {c.inflight[0]}))
    case ClientLose(i) =>
      var c := s.clients[i];
      SetClient(s, i, c.(inflight := c.inflight[1..], lost := c.lost + {c.inflight[0]}))
    case ClientTake(i) =>
      var c := s.clients[i];
      SetClient(s, i, c.(buffer := c.buffer[1..], phase := Counting))
    case ClientCount(i) =>
      var c := s.clients[i];
      SetClient(s, i, c.(phase := Listing, badge := UnreadOf(s.rows, s.marks, c.user),
                         counted := |s.rows|, countMarks := s.marks))
    case ClientList(i) =>
      var c := s.clients[i];
      SetClient(s, i, c.(phase := Waiting, list := ListOf(s.rows, s.marks, c.user, LIST_LIMIT),
                         listed := |s.rows|, listMarks := s.marks))
    case MarkRead(user) => s.(marks := MarkedAll(s.rows, s.marks, user))
    case Disconnect(i) => SetClient(s, i, s.clients[i].(phase := Gone, inflight := [], buffer := []))
  }

  function Run(actions: seq<Action>): State {
    if actions == [] then Init else Step(Run(actions[..|actions| - 1]), actions[|actions| - 1])
  }

  /** The worker's steps for one event add up to its handler: the same rows, and a wake-up on its way
      to (or lost for) every open connection exactly when the handler publishes one. */
  lemma WorkerStepsAreTheHandler(s: State, newId: string, now: int, dbOk: bool, brokerOk: bool)
    requires s.worker.phase.Idle? && s.worker.buffer != []
    ensures var event := s.worker.buffer[0];
            var t := Step(Step(Step(s, WorkerTake), WorkerStore(newId, now, dbOk)), WorkerPublish(brokerOk));
            && t.rows == HandledRows(s.rows, event, newId, now, dbOk)
            && t.worker.phase.Idle? && t.worker.buffer == s.worker.buffer[1..]
            && (!Surfaced(s.rows, event, newId, dbOk) ==> t.clients == s.clients)
            && |t.clients| == |s.clients|
            && (Surfaced(s.rows, event, newId, dbOk) ==>
                  forall i :: 0 <= i < |s.clients| && !s.clients[i].phase.Gone? ==>
                    t.clients[i] == if brokerOk then s.clients[i].(inflight := s.clients[i].inflight + [newId])
                                    else s.clients[i].(lost := s.clients[i].lost + {newId}))
  {
  }

  // ---------------------------------------------------------------- safety

  /** A query is certain to follow: a wake-up is buffered, or the handler is on its way to one. */
  predicate QueryPending(c: Client) {
    c.buffer != [] || c.phase.Counting?
  }

  /** The k-th row is in the snapshots on screen, or in the count and the list query is next. */
  predicate Displays(c: Client, k: nat) {
    k < c.counted && (c.phase.Listing? || (c.phase.Waiting? && k < c.listed))
  }

  /** Every row not displayed still has a way to the screen, unless its wake-up was lost. */
  ghost predicate Covered(s: State, c: Client, k: nat)
    requires k < |s.rows|
  {
    || QueryPending(c)
    || Displays(c, k)
    || s.rows[k].id in c.inflight
    || s.rows[k].id in c.lost
    || s.worker.phase == Publishing(s.rows[k].id)
  }

  ghost predicate ClientInv(s: State, c: Client) {
    && c.counted <= |s.rows| && c.listed <= |s.rows|
    && c.countMarks <= s.marks && c.listMarks <= s.marks
    && |c.buffer| <= CAPACITY
    && (c.phase in {Waiting, Listing} ==> c.badge == UnreadOf(s.rows[..c.counted], c.countMarks, c.user))
    && (c.phase.Waiting? ==> c.list == ListOf(s.rows[..c.listed], c.listMarks, c.user, LIST_LIMIT))
    && (forall id :: id in c.inflight ==> HasId(s.rows, id))
    && (forall id :: id in c.reached ==> HasId(s.rows, id))
    && (!c.phase.Gone? ==> forall k :: 0 <= k < |s.rows| ==> Covered(s, c, k))
    && (!c.phase.Gone? ==> forall k :: 0 <= k < |s.rows| && s.rows[k].id in c.reached ==>
          QueryPending(c) || Displays(c, k))
  }

  function TitledIn(events: seq<Event>): nat {
    if events == [] then 0
    else TitledIn(events[..|events| - 1]) + if Titled(events[|events| - 1]) then 1 else 0
  }

  ghost predicate WorkerInv(s: State) {
    && DistinctIds(s.rows)
    && |s.worker.buffer| <= CAPACITY
    && (s.worker.phase.Storing? ==> Titled(s.worker.phase.event))
    && (s.worker.phase.Publishing? ==> HasId(s.rows, s.worker.phase.id))
    && |s.rows| + (if s.worker.phase.Storing? then 1 else 0) <= s.handled
    && s.handled + TitledIn(s.worker.buffer) + TitledIn(s.worker.inflight) <= s.emitted
  }

  ghost predicate Inv(s: State) {
    WorkerInv(s) && forall i :: 0 <= i < |s.clients| ==> ClientInv(s, s.clients[i])
  }

  lemma TitledInAppend(events: seq<Event>, e: Event)
    ensures TitledIn(events + [e]) == TitledIn(events) + if Titled(e) then 1 else 0
  {
    assert (events + [e])[..|events|] == events;
  }

  lemma {:induction false} TitledInTail(events: seq<Event>)
    requires events != []
    ensures TitledIn(events) == (if Titled(events[0]) then 1 else 0) + TitledIn(events[1..])
  {
    var n := |events| - 1;
    if n > 0 {
      TitledInTail(events[..n]);
      assert events[1..][..n - 1] == events[..n][1..];
    }
  }

  lemma StoreKeepsWorkerInv(s: State, a: Action)
    requires WorkerInv(s) && a.WorkerStore? && Enabled(s, a)
    ensures WorkerInv(Step(s, a))
  {
    var t := Step(s, a);
    if t.rows != s.rows {
      assert t.rows[|s.rows|].id == a.newId;
    }
  }

  lemma EmitKeepsWorkerInv(s: State, e: Event)
    requires WorkerInv(s)
    ensures WorkerInv(Step(s, Emit(e)))
  {
    TitledInAppend(s.worker.inflight, e);
  }

  lemma DeliverKeepsWorkerInv(s: State)
    requires WorkerInv(s) && s.worker.inflight != []
    ensures WorkerInv(Step(s, WorkerDeliver))
  {
    TitledInTail(s.worker.inflight);
    TitledInAppend(s.worker.buffer, s.worker.inflight[0]);
  }

  lemma TakeKeepsWorkerInv(s: State)
    requires WorkerInv(s) && Enabled(s, WorkerTake)
    ensures WorkerInv(Step(s, WorkerTake))
  {
    TitledInTail(s.worker.buffer);
  }

  lemma PublishKeepsWorkerInv(s: State, brokerOk: bool)
    requires WorkerInv(s) && s.worker.phase.Publishing?
    ensures WorkerInv(Step(s, WorkerPublish(brokerOk)))
  {
    var w := s.worker;
    TitledInAppend(w.inflight, WakeEvent(w.phase.id));
    TitledKinds(WakeEvent(w.phase.id));
    assert w.inflight + [] == w.inflight;
  }

  lemma StepKeepsWorkerInv(s: State, a: Action)
    requires WorkerInv(s)
    ensures WorkerInv(Step(s, a))
  {
    if Enabled(s, a) {
      match a
      case WorkerStore(_, _, _) => StoreKeepsWorkerInv(s, a);
      case Emit(e) => EmitKeepsWorkerInv(s, e);
      case WorkerDeliver => DeliverKeepsWorkerInv(s);
      case WorkerTake => TakeKeepsWorkerInv(s);
      case WorkerPublish(brokerOk) => PublishKeepsWorkerInv(s, brokerOk);
      case _ =>
    }
  }

  lemma MoreRowsKeepId(rows: seq<Row>, row: Row)
    ensures forall id :: HasId(rows, id) ==> HasId(rows + [row], id)
    ensures HasId(rows + [row], row.id)
  {
    var more := rows + [row];
    assert more[|rows|] == row;
    forall id | HasId(rows, id) ensures HasId(more, id) {
      var k :| 0 <= k < |rows| && rows[k].id == id;
      assert more[k].id == id;
    }
  }

  lemma StoreKeepsClient(s: State, row: Row, t: State, c: Client)
    requires ClientInv(s, c) && s.worker.phase.Storing? && !HasId(s.rows, row.id)
    requires t.rows == s.rows + [row] && t.marks == s.marks && t.worker.phase == Publishing(row.id)
    ensures ClientInv(t, c)
  {
    MoreRowsKeepId(s.rows, row);
    assert t.rows[..c.counted] == s.rows[..c.counted] && t.rows[..c.listed] == s.rows[..c.listed];
    assert row.id !in c.reached;
    forall k | 0 <= k < |t.rows| && !c.phase.Gone?
      ensures Covered(t, c, k)
    {
      if k < |s.rows| { assert Covered(s, c, k); }
    }
  }

  lemma PublishKeepsClient(s: State, id: string, brokerOk: bool, t: State, c: Client)
    requires ClientInv(s, c) && s.worker.phase == Publishing(id) && HasId(s.rows, id)
    requires t.rows == s.rows && t.marks == s.marks && t.worker.phase.Idle?
    ensures ClientInv(t, Notified(c, id, brokerOk))
  {
    var d := Notified(c, id, brokerOk);
    forall k | 0 <= k < |t.rows| && !d.phase.Gone?
      ensures Covered(t, d, k)
    {
      assert Covered(s, c, k);
    }
  }

  /** The worker's other steps and other connections' steps leave a connection's invariant alone. */
  lemma SameTablesKeepClient(s: State, t: State, c: Client)
    requires ClientInv(s, c)
    requires t.rows == s.rows && s.marks <= t.marks
    requires s.worker.phase.Publishing? ==> t.worker.phase == s.worker.phase
    ensures ClientInv(t, c)
  {
    forall k | 0 <= k < |t.rows| && !c.phase.Gone?
      ensures Covered(t, c, k)
    {
      assert Covered(s, c, k);
    }
  }

  /** Delivery: a wake-up that finds the channel full is dropped, but then 16 are already waiting. */
  lemma DeliverKeepsClient(s: State, c: Client)
    requires ClientInv(s, c) && c.inflight != [] && !c.phase.Gone?
    ensures ClientInv(s, c.(inflight := c.inflight[1..], buffer := Offer(c.buffer, c.inflight[0]),
                            reached := c.reached + {c.inflight[0]}))
  {
  }

  lemma LoseKeepsClient(s: State, c: Client)
    requires ClientInv(s, c) && c.inflight != [] && !c.phase.Gone?
    ensures ClientInv(s, c.(inflight := c.inflight[1..], lost := c.lost + {c.inflight[0]}))
  {
    var d := c.(inflight := c.inflight[1..], lost := c.lost + {c.inflight[0]});
    forall k | 0 <= k < |s.rows|
      ensures Covered(s, d, k)
    {
      assert Covered(s, c, k);
    }
  }

  lemma TakeAndQueryKeepClient(s: State, c: Client)
    requires ClientInv(s, c)
    ensures c.phase.Waiting? && c.buffer != [] ==> ClientInv(s, c.(buffer := c.buffer[1..], phase := Counting))
    ensures c.phase.Counting? ==>
              ClientInv(s, c.(phase := Listing, badge := UnreadOf(s.rows, s.marks, c.user),
                              counted := |s.rows|, countMarks := s.marks))
    ensures c.phase.Listing? ==>
              ClientInv(s, c.(phase := Waiting, list := ListOf(s.rows, s.marks, c.user, LIST_LIMIT),
                              listed := |s.rows|, listMarks := s.marks))
  {
    assert s.rows[..|s.rows|] == s.rows;
    if c.phase.Listing? {
      var d := c.(phase := Waiting, list := ListOf(s.rows, s.marks, c.user, LIST_LIMIT),
                  listed := |s.rows|, listMarks := s.marks);
      forall k | 0 <= k < |s.rows|
        ensures Covered(s, d, k)
      {
        assert Covered(s, c, k);
      }
    }
  }

  lemma OwnStepKeepsClient(s: State, a: Action, i: nat)
    requires Inv(s) && Enabled(s, a) && i < |s.clients|
    requires a in {ClientDeliver(i), ClientLose(i), ClientTake(i), ClientCount(i), ClientList(i), Disconnect(i)}
    ensures ClientInv(Step(s, a), Step(s, a).clients[i])
  {
    var t, c := Step(s, a), s.clients[i];
    assert ClientInv(s, c);
    if a.ClientDeliver? {
      DeliverKeepsClient(s, c);
    } else if a.ClientLose? {
      LoseKeepsClient(s, c);
    } else if !a.Disconnect? {
      TakeAndQueryKeepClient(s, c);
    }
    SameTablesKeepClient(s, t, t.clients[i]);
  }

  lemma StepKeepsClientInv(s: State, a: Action, i: nat)
    requires Inv(s) && i < |s.clients|
    ensures i < |Step(s, a).clients| && ClientInv(Step(s, a), Step(s, a).clients[i])
  {
    var t, c := Step(s, a), s.clients[i];
    if Enabled(s, a) {
      if a.WorkerStore? && t.rows != s.rows {
        StoreKeepsClient(s, t.rows[|s.rows|], t, c);
      } else if a.WorkerPublish? {
        PublishKeepsClient(s, s.worker.phase.id, a.brokerOk, t, c);
      } else if t.clients[i] == c {
        SameTablesKeepClient(s, t, c);
      } else {
        OwnStepKeepsClient(s, a, i);
      }
    }
  }

  lemma StepKeepsInv(s: State, a: Action)
    requires Inv(s)
    ensures Inv(Step(s, a))
  {
    StepKeepsWorkerInv(s, a);
    var t := Step(s, a);
    forall i | 0 <= i < |t.clients|
      ensures ClientInv(t, t.clients[i])
    {
      if i < |s.clients| { StepKeepsClientInv(s, a, i); }
    }
  }

  lemma {:induction false} EveryRunKeepsInv(actions: seq<Action>)
    ensures Inv(Run(actions))
  {
    if actions != [] {
      EveryRunKeepsInv(actions[..|actions| - 1]);
      StepKeepsInv(Run(actions[..|actions| - 1]), actions[|actions| - 1]);
    }
  }

  /** No lost wake-up: in every reachable state of every interleaving, a notification whose wake-up
      reached a connection's callback is stored, and is on screen or has a query still to come,
      even though wake-ups are dropped while 16 are queued. */
  lemma NoLostWakeup(actions: seq<Action>, i: nat, id: string)
    requires Connected(Run(actions), i) && id in Run(actions).clients[i].reached
    ensures var s, c := Run(actions), Run(actions).clients[i];
            exists k :: 0 <= k < |s.rows| && s.rows[k].id == id && (QueryPending(c) || Displays(c, k))
  {
    EveryRunKeepsInv(actions);
    var s := Run(actions);
    var c := s.clients[i];
    assert ClientInv(s, c);
    var k :| 0 <= k < |s.rows| && s.rows[k].id == id;
    assert QueryPending(c) || Displays(c, k);
  }

  /** Nothing is on its way to this connection any more, and nothing was lost. */
  predicate Settled(s: State, i: nat) {
    && Connected(s, i)
    && var c := s.clients[i];
    && c.phase.Waiting? && c.buffer == [] && c.inflight == [] && c.lost == {}
    && !s.worker.phase.Publishing?
  }

  /** A settled screen shows the whole current table: its list is the 30 newest of all stored rows,
      and its badge is the current unread count exactly when the user has marked nothing read
      since that connection last counted (mark-read publishes no wake-up). */
  lemma SettledScreenIsFresh(actions: seq<Action>, i: nat)
    requires Settled(Run(actions), i)
    ensures var s, c := Run(actions), Run(actions).clients[i];
            && c.list == ListOf(s.rows, c.listMarks, c.user, LIST_LIMIT)
            && (c.badge == UnreadOf(s.rows, s.marks, c.user) <==>
                forall k :: 0 <= k < |s.rows| && (c.user, s.rows[k].id) in s.marks ==>
                  (c.user, s.rows[k].id) in c.countMarks)
  {
    EveryRunKeepsInv(actions);
    var s := Run(actions);
    var c := s.clients[i];
    assert ClientInv(s, c);
    if |s.rows| > 0 {
      var last := |s.rows| - 1;
      assert Covered(s, c, last);
    }
    assert c.counted == c.listed == |s.rows|;
    assert s.rows[..|s.rows|] == s.rows;
    UnreadFallsByNewReads(s.rows, c.countMarks, s.marks, c.user);
  }

  // ---------------------------------------------------------------- what a screen shows, told by the steps taken

  /** Step m runs the list query of the i-th connection, or its count query. */
  ghost predicate ListsAt(actions: seq<Action>, i: nat, m: nat) {
    m < |actions| && actions[m] == ClientList(i) && Enabled(Run(actions[..m]), actions[m])
  }

  ghost predicate CountsAt(actions: seq<Action>, i: nat, m: nat) {
    m < |actions| && actions[m] == ClientCount(i) && Enabled(Run(actions[..m]), actions[m])
  }

  /** Step m hands the wake-up of `id` to the callback of the i-th connection. */
  ghost predicate DeliversAt(actions: seq<Action>, i: nat, id: string, m: nat) {
    && m < |actions| && actions[m] == ClientDeliver(i) && Enabled(Run(actions[..m]), actions[m])
    && Run(actions[..m]).clients[i].inflight[0] == id
  }

  lemma RunLast(actions: seq<Action>)
    requires actions != []
    ensures var n := |actions| - 1; Run(actions) == Step(Run(actions[..n]), actions[n])
    ensures forall m: nat :: m < |actions| ==> actions[..|actions| - 1][..m] == actions[..m]
  {
    forall m: nat | m < |actions| ensures actions[..|actions| - 1][..m] == actions[..m] {}
  }

  /** The i-th connection belongs to the user of the i-th connect. */
  lemma {:induction false} ClientIsItsConnect(actions: seq<Action>, i: nat) returns (m: nat)
    requires i < |Run(actions).clients|
    ensures m < |actions| && actions[m] == Connect(Run(actions).clients[i].user) && |Run(actions[..m]).clients| == i
  {
    var n := |actions| - 1;
    RunLast(actions);
    if i < |Run(actions[..n]).clients| {
      m := ClientIsItsConnect(actions[..n], i);
    } else {
      m := n;
    }
  }

  /** The result of a list query on these tables. */
  ghost predicate ShowsList(c: Client, seen: State) {
    c.list == ListOf(seen.rows, seen.marks, c.user, 30) && c.listed == |seen.rows| && c.listMarks == seen.marks
  }

  ghost predicate ShowsCount(c: Client, seen: State) {
    c.badge == UnreadOf(seen.rows, seen.marks, c.user) && c.counted == |seen.rows| && c.countMarks == seen.marks
  }

  lemma ListStep(s: State, a: Action, i: nat)
    requires i < |Step(s, a).clients| && Step(s, a).clients[i].phase.Waiting?
    ensures var lists := a == ClientList(i) && Enabled(s, a);
            && (lists ==> ShowsList(Step(s, a).clients[i], s))
            && (!lists ==> i < |s.clients| && s.clients[i].phase.Waiting?
                           && forall seen :: ShowsList(s.clients[i], seen) ==> ShowsList(Step(s, a).clients[i], seen))
  {
  }

  lemma CountStep(s: State, a: Action, i: nat)
    requires i < |Step(s, a).clients| && Step(s, a).clients[i].phase in {Waiting, Listing}
    ensures var counts := a == ClientCount(i) && Enabled(s, a);
            && (counts ==> ShowsCount(Step(s, a).clients[i], s))
            && (!counts ==> i < |s.clients| && s.clients[i].phase in {Waiting, Listing}
                            && forall seen :: ShowsCount(s.clients[i], seen) ==> ShowsCount(Step(s, a).clients[i], seen))
  {
  }

  /** What is on screen came from the connection's last list query: its result on the tables at that step. */
  lemma {:induction false} LastListShown(actions: seq<Action>, i: nat) returns (m: nat)
    requires i < |Run(actions).clients| && Run(actions).clients[i].phase.Waiting?
    ensures ListsAt(actions, i, m) && forall later: nat :: later > m ==> !ListsAt(actions, i, later)
    ensures ShowsList(Run(actions).clients[i], Run(actions[..m]))
  {
    var n := |actions| - 1;
    RunLast(actions);
    ListStep(Run(actions[..n]), actions[n], i);
    m := n;
    if !ListsAt(actions, i, n) {
      m := LastListShown(actions[..n], i);
      forall later: nat | later > m ensures !ListsAt(actions, i, later) {
        assert !ListsAt(actions[..n], i, later);
      }
    }
  }

  /** And the badge from its last count query. */
  lemma {:induction false} LastCountShown(actions: seq<Action>, i: nat) returns (m: nat)
    requires i < |Run(actions).clients| && Run(actions).clients[i].phase in {Waiting, Listing}
    ensures CountsAt(actions, i, m) && forall later: nat :: later > m ==> !CountsAt(actions, i, later)
    ensures ShowsCount(Run(actions).clients[i], Run(actions[..m]))
  {
    var n := |actions| - 1;
    RunLast(actions);
    CountStep(Run(actions[..n]), actions[n], i);
    m := n;
    if !CountsAt(actions, i, n) {
      m := LastCountShown(actions[..n], i);
      forall later: nat | later > m ensures !CountsAt(actions, i, later) {
        assert !CountsAt(actions[..n], i, later);
      }
    }
  }

  /** Nothing is lost unless the broker loses it or a publish fails. */
  predicate NothingFails(actions: seq<Action>, i: nat) {
    forall k :: 0 <= k < |actions| ==> actions[k] != ClientLose(i) && actions[k] != WorkerPublish(false)
  }

  lemma {:induction false} LostOnlyByFailure(actions: seq<Action>, i: nat)
    requires NothingFails(actions, i) && i < |Run(actions).clients|
    ensures Run(actions).clients[i].lost == {}
  {
    var n := |actions| - 1;
    RunLast(actions);
    if i < |Run(actions[..n]).clients| {
      assert forall k :: 0 <= k < n ==> actions[..n][k] == actions[k];
      LostOnlyByFailure(actions[..n], i);
    }
  }

  /** On a run in which nothing fails, a connection with nothing under way shows the 30 newest of all rows,
      flagged as they were at its last list query, and counts all rows unmarked at its last count query. */
  lemma ScreenShowsLastQueries(actions: seq<Action>, i: nat) returns (counted: nat, listed: nat)
    requires NothingFails(actions, i) && i < |Run(actions).clients| && Run(actions).clients[i].phase.Waiting?
    requires Run(actions).clients[i].buffer == [] && Run(actions).clients[i].inflight == []
    requires !Run(actions).worker.phase.Publishing?
    ensures CountsAt(actions, i, counted) && forall later: nat :: later > counted ==> !CountsAt(actions, i, later)
    ensures ListsAt(actions, i, listed) && forall later: nat :: later > listed ==> !ListsAt(actions, i, later)
    ensures var s, c := Run(actions), Run(actions).clients[i];
            && c.list == ListOf(s.rows, Run(actions[..listed]).marks, c.user, 30)
            && c.badge == UnreadOf(s.rows, Run(actions[..counted]).marks, c.user)
  {
    LostOnlyByFailure(actions, i);
    counted := LastCountShown(actions, i);
    listed := LastListShown(actions, i);
    SettledScreenIsFresh(actions, i);
    EveryRunKeepsInv(actions);
    SettledCounts(Run(actions), i);
  }

  lemma SettledCounts(s: State, i: nat)
    requires Inv(s) && Settled(s, i)
    ensures s.clients[i].badge == UnreadOf(s.rows, s.clients[i].countMarks, s.clients[i].user)
  {
    var c := s.clients[i];
    assert ClientInv(s, c);
    if |s.rows| > 0 { assert Covered(s, c, |s.rows| - 1); }
    assert s.rows[..|s.rows|] == s.rows;
  }

  lemma ReachedStays(s: State, a: Action, i: nat)
    requires i < |s.clients|
    ensures i < |Step(s, a).clients| && s.clients[i].reached <= Step(s, a).clients[i].reached
    ensures a == ClientDeliver(i) && Enabled(s, a) ==> s.clients[i].inflight[0] in Step(s, a).clients[i].reached
  {
  }

  lemma {:induction false} DeliveredReaches(actions: seq<Action>, i: nat, id: string, m: nat)
    requires DeliversAt(actions, i, id, m)
    ensures i < |Run(actions).clients| && id in Run(actions).clients[i].reached
  {
    var n := |actions| - 1;
    RunLast(actions);
    if m < n {
      assert DeliversAt(actions[..n], i, id, m);
      DeliveredReaches(actions[..n], i, id, m);
    }
    ReachedStays(Run(actions[..n]), actions[n], i);
  }

  /** No delivered wake-up is in vain: however the run goes on, while the connection is open the row is stored
      and on screen, or a query is still to come. */
  lemma DeliveredIsShown(actions: seq<Action>, i: nat, id: string, m: nat)
    requires DeliversAt(actions, i, id, m) && Connected(Run(actions), i)
    ensures var s, c := Run(actions), Run(actions).clients[i];
            exists k :: 0 <= k < |s.rows| && s.rows[k].id == id && (QueryPending(c) || Displays(c, k))
  {
    DeliveredReaches(actions, i, id, m);
    NoLostWakeup(actions, i, id);
  }

  lemma Then(actions: seq<Action>, a: Action) returns (more: seq<Action>)
    ensures more == actions + [a] && Run(more) == Step(Run(actions), a)
  {
    more := actions + [a];
    assert more[..|actions|] == actions;
  }

  lemma OneStoredRow() returns (actions: seq<Action>, row: Row)
    ensures Run(actions).rows == [row] && Run(actions).marks == {} && Run(actions).clients == []
    ensures Run(actions).worker.phase.Idle?
  {
    var e := Event("customer.deleted", "c1", Undecodable);
    row := Row("n1", "Customer deleted", "", 7);
    actions := Then([], Emit(e));
    assert Run(actions).worker.inflight == [e];
    actions := Then(actions, WorkerDeliver);
    actions := Then(actions, WorkerTake);
    actions := Then(actions, WorkerStore(row.id, 7, true));
    actions := Then(actions, WorkerPublish(true));
  }

  /** The stale badge is real: one stored notification is shown, then marked read in another tab. */
  lemma MarkReadLeavesBadgeStale() returns (actions: seq<Action>)
    ensures Settled(Run(actions), 0)
    ensures Run(actions).clients[0].badge == 1
    ensures UnreadOf(Run(actions).rows, Run(actions).marks, "ann") == 0
  {
    var row, s;
    actions, row := OneStoredRow();
    s := ShownThenRead(Run(actions), row);
    actions := Then(actions, Connect("ann"));
    actions := Then(actions, ClientCount(0));
    actions := Then(actions, ClientList(0));
    actions := Then(actions, MarkRead("ann"));
  }

  lemma ShownThenRead(s: State, row: Row) returns (t: State)
    requires s.rows == [row] && s.marks == {} && s.clients == [] && s.worker.phase.Idle?
    ensures t == Step(Step(Step(Step(s, Connect("ann")), ClientCount(0)), ClientList(0)), MarkRead("ann"))
    ensures Settled(t, 0) && t.clients[0].badge == 1 && UnreadOf(t.rows, t.marks, "ann") == 0
  {
    var s1 := Step(s, Connect("ann"));
    var s2 := Step(s1, ClientCount(0));
    assert UnreadOf([row], {}, "ann") == 1 by { assert [row][..0] == []; }
    var s3 := Step(s2, ClientList(0));
    t := Step(s3, MarkRead("ann"));
    MarkAllZeroesOneUser([row], {}, "ann");
  }

  /** The worker never feeds itself: it subscribes to its own wake-ups, yet rows never outnumber
      the events it handled, and those never outnumber what the other components published. */
  lemma RowsNeverExceedDomainEvents(actions: seq<Action>)
    ensures |Run(actions).rows| <= Run(actions).handled <= TitledEmits(actions)
    ensures DistinctIds(Run(actions).rows)
  {
    EveryRunKeepsInv(actions);
    EmittedAreEmits(actions);
  }

  /** The surfaced events among those other components published. */
  function TitledEmits(actions: seq<Action>): nat {
    if actions == [] then 0
    else
      var a := actions[|actions| - 1];
      TitledEmits(actions[..|actions| - 1]) + if a.Emit? && Titled(a.event) then 1 else 0
  }

  lemma {:induction false} EmittedAreEmits(actions: seq<Action>)
    ensures Run(actions).emitted == TitledEmits(actions)
  {
    if actions != [] {
      EmittedAreEmits(actions[..|actions| - 1]);
      OnlyEmitCounts(Run(actions[..|actions| - 1]), actions[|actions| - 1]);
    }
  }

  lemma OnlyEmitCounts(s: State, a: Action)
    ensures Step(s, a).emitted == s.emitted + if a.Emit? && Titled(a.event) then 1 else 0
  {
  }

  // ---------------------------------------------------------------- progress

  /** Steps the system takes by itself: no new domain event, connection, mark-read or disconnect. */
  predicate Internal(a: Action) {
    !a.Emit? && !a.Connect? && !a.MarkRead? && !a.Disconnect?
  }

  /** Steps a connection's wake-ups still cost: deliver, take, count, list. */
  function ClientCost(c: Client): nat {
    if c.phase.Gone? then 0
    else 4 * |c.inflight| + 3 * |c.buffer| + if c.phase.Counting? then 2 else if c.phase.Listing? then 1 else 0
  }

  function ClientsCost(clients: seq<Client>): nat {
    if clients == [] then 0
    else ClientsCost(clients[..|clients| - 1]) + ClientCost(clients[|clients| - 1])
  }

  /** A surfaced event pays for a wake-up to each of n connections and one back to the worker. */
  function EventCost(e: Event, n: nat): nat {
    if Titled(e) then 4 * n + 5 else 1
  }

  function EventsCost(events: seq<Event>, n: nat): nat {
    if events == [] then 0
    else EventsCost(events[..|events| - 1], n) + EventCost(events[|events| - 1], n)
  }

  function Cost(s: State): nat {
    var n := |s.clients|;
    ClientsCost(s.clients)
    + EventsCost(s.worker.buffer, n) + EventsCost(s.worker.inflight, n) + |s.worker.inflight|
    + (match s.worker.phase case Idle => 0 case Storing(_) => 4 * n + 4 case Publishing(_) => 4 * n + 3)
  }

  lemma EventsCostAppend(events: seq<Event>, e: Event, n: nat)
    ensures EventsCost(events + [e], n) == EventsCost(events, n) + EventCost(e, n)
  {
    assert (events + [e])[..|events|] == events;
  }

  lemma {:induction false} EventsCostTail(events: seq<Event>, n: nat)
    requires events != []
    ensures EventsCost(events, n) == EventCost(events[0], n) + EventsCost(events[1..], n)
  {
    var m := |events| - 1;
    if m > 0 {
      EventsCostTail(events[..m], n);
      assert events[1..][..m - 1] == events[..m][1..];
    }
  }

  lemma {:induction false} ClientsCostUpdate(clients: seq<Client>, i: nat, c: Client)
    requires i < |clients|
    ensures ClientsCost(clients[i := c]) == ClientsCost(clients) - ClientCost(clients[i]) + ClientCost(c)
  {
    var n := |clients| - 1;
    if i < n {
      ClientsCostUpdate(clients[..n], i, c);
      assert clients[i := c][..n] == clients[..n][i := c];
    } else {
      assert clients[i := c][..n] == clients[..n];
    }
  }

  lemma {:induction false} BroadcastCost(clients: seq<Client>, id: string, brokerOk: bool)
    ensures ClientsCost(Broadcast(clients, id, brokerOk)) <= ClientsCost(clients) + 4 * |clients|
  {
    if clients != [] {
      var n := |clients| - 1;
      BroadcastCost(clients[..n], id, brokerOk);
      assert Broadcast(clients, id, brokerOk)[..n] == Broadcast(clients[..n], id, brokerOk);
    }
  }

  lemma WorkerStepsCost(s: State, a: Action)
    requires Enabled(s, a) && (a.WorkerDeliver? || a.WorkerTake? || a.WorkerStore?)
    ensures Cost(Step(s, a)) < Cost(s)
  {
    var w, n := s.worker, |s.clients|;
    if a.WorkerDeliver? {
      EventsCostTail(w.inflight, n);
      EventsCostAppend(w.buffer, w.inflight[0], n);
    } else if a.WorkerTake? {
      EventsCostTail(w.buffer, n);
    }
  }

  lemma PublishCosts(s: State, brokerOk: bool)
    requires s.worker.phase.Publishing?
    ensures Cost(Step(s, WorkerPublish(brokerOk))) < Cost(s)
  {
    var w := s.worker;
    BroadcastCost(s.clients, w.phase.id, brokerOk);
    if brokerOk {
      EventsCostAppend(w.inflight, WakeEvent(w.phase.id), |s.clients|);
    } else {
      assert w.inflight + [] == w.inflight;
    }
  }

  lemma ClientStepCosts(s: State, i: nat, c: Client)
    requires i < |s.clients| && ClientCost(c) < ClientCost(s.clients[i])
    ensures Cost(SetClient(s, i, c)) < Cost(s)
  {
    ClientsCostUpdate(s.clients, i, c);
  }

  /** Every internal step lowers the cost, the worker's echo of its own wake-ups included. */
  lemma InternalStepsCost(s: State, a: Action)
    requires Internal(a) && Enabled(s, a)
    ensures Cost(Step(s, a)) < Cost(s)
  {
    if a.WorkerDeliver? || a.WorkerTake? || a.WorkerStore? {
      WorkerStepsCost(s, a);
    } else if a.WorkerPublish? {
      PublishCosts(s, a.brokerOk);
    } else {
      ClientStepCosts(s, a.i, Step(s, a).clients[a.i]);
    }
  }

  ghost predicate Quiet(s: State) {
    forall a :: Internal(a) ==> !Enabled(s, a)
  }

  ghost predicate InternalRun(start: seq<Action>, more: seq<Action>) {
    forall n :: 0 <= n < |more| ==> Internal(more[n]) && Enabled(Run(start + more[..n]), more[n])
  }

  lemma ShorterInternalRun(start: seq<Action>, more: seq<Action>)
    requires more != [] && InternalRun(start, more)
    ensures InternalRun(start, more[..|more| - 1])
  {
    var fewer := more[..|more| - 1];
    forall k | 0 <= k < |fewer| ensures fewer[..k] == more[..k] {}
  }

  lemma RunOneMore(start: seq<Action>, more: seq<Action>)
    requires more != []
    ensures var n := |more| - 1; Run(start + more) == Step(Run(start + more[..n]), more[n])
  {
    LastOfConcat(start, more);
  }

  lemma LastOfConcat<T>(a: seq<T>, b: seq<T>)
    requires b != []
    ensures var n := |a + b| - 1; (a + b)[..n] == a + b[..|b| - 1] && (a + b)[n] == b[|b| - 1]
  {
  }

  /** The system drains: left alone after any history, it takes at most Cost further steps. */
  lemma {:induction false} LeftAloneItDrains(start: seq<Action>, more: seq<Action>)
    requires InternalRun(start, more)
    ensures |more| + Cost(Run(start + more)) <= Cost(Run(start))
  {
    if more == [] {
      assert start + more == start;
    } else {
      var n := |more| - 1;
      ShorterInternalRun(start, more);
      LeftAloneItDrains(start, more[..n]);
      RunOneMore(start, more);
      InternalStepsCost(Run(start + more[..n]), more[n]);
    }
  }

  /** And when no internal step is left, every connection that lost no wake-up shows the whole table. */
  lemma QuietScreensAreFresh(actions: seq<Action>, i: nat)
    requires Quiet(Run(actions)) && Connected(Run(actions), i) && Run(actions).clients[i].lost == {}
    ensures var s, c := Run(actions), Run(actions).clients[i];
            c.list == ListOf(s.rows, c.listMarks, c.user, LIST_LIMIT)
  {
    var s := Run(actions);
    assert !Enabled(s, ClientDeliver(i)) && !Enabled(s, ClientTake(i));
    assert !Enabled(s, ClientCount(i)) && !Enabled(s, ClientList(i)) && !Enabled(s, WorkerPublish(true));
    SettledScreenIsFresh(actions, i);
  }
}
