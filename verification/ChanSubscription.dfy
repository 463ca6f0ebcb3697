/** The bounded event channel handed out by the NATS subscriber
    (internal/infrastructure/nats/subscriber.go).

    A callback decodes each message and offers it to a channel of 16 slots; when the
    channel is full the event is dropped. The consumer receives in order, and `cancel`
    closes the channel. */
module ChanSubscription {

  const CAPACITY: nat := 16

  /** A message as the callback sees it: undecodable ones are ignored. */
  datatype Message<+E> = Malformed | Decoded(event: E)

  datatype Step<+E> = Deliver(msg: Message<E>) | Receive | Cancel

  /** `panicked` records a send on, or a second close of, a closed channel. */
  datatype Channel<+E> = Channel(consumed: seq<E>, buffer: seq<E>, closed: bool, panicked: bool)

  /** The non-blocking send: a full buffer drops the event. */
  function Offer<E>(buffer: seq<E>, event: E): seq<E> {
    if |buffer| < CAPACITY then buffer + [event] else buffer
  }

  function Next<E>(c: Channel<E>, step: Step<E>): Channel<E> {
    if c.panicked then c else
    match step
    case Deliver(Malformed) => c
    case Deliver(Decoded(e)) =>
      if c.closed then c.(panicked := true) else c.(buffer := Offer(c.buffer, e))
    case Receive =>
      if c.buffer == [] then c
      else c.(consumed := c.consumed + [c.buffer[0]], buffer := c.buffer[1..])
    case Cancel =>
      if c.closed then c.(panicked := true) else c.(closed := true)
  }

  function Run<E>(steps: seq<Step<E>>): Channel<E> {
    if steps == [] then Channel([], [], false, false)
    else Next(Run(steps[..|steps| - 1]), steps[|steps| - 1])
  }

  predicate IsSend<E>(step: Step<E>) {
    step.Deliver? && step.msg.Decoded?
  }

  /** The positions of the deliveries that found a free slot, in order. */
  function Kept<E>(steps: seq<Step<E>>): seq<nat> {
    if steps == [] then []
    else
      var n := |steps| - 1;
      var before := Kept(steps[..n]);
      if IsSend(steps[n]) && |Run(steps[..n]).buffer| < CAPACITY then before + [n] else before
  }

  ghost predicate StrictlyIncreasing(s: seq<nat>) {
    forall i, j :: 0 <= i < j < |s| ==> s[i] < s[j]
  }

  /** Step i sends an event while fewer than 16 are pending. */
  predicate FindsRoom<E>(steps: seq<Step<E>>, i: nat)
    requires i < |steps|
  {
    IsSend(steps[i]) && |Run(steps[..i]).buffer| < CAPACITY
  }

  lemma FindsRoomInPrefix<E>(steps: seq<Step<E>>, n: nat, i: nat)
    requires i < n <= |steps|
    ensures FindsRoom(steps[..n], i) == FindsRoom(steps, i)
  {
    assert steps[..n][..i] == steps[..i];
  }

  lemma {:induction false} KeptExactlyWhenRoom<E>(steps: seq<Step<E>>)
    ensures StrictlyIncreasing(Kept(steps))
    ensures forall k :: 0 <= k < |Kept(steps)| ==> Kept(steps)[k] < |steps|
    ensures forall i: nat :: i < |steps| ==> (i in Kept(steps) <==> FindsRoom(steps, i))
  {
    if steps != [] {
      var n := |steps| - 1;
      KeptExactlyWhenRoom(steps[..n]);
      assert Kept(steps) == Kept(steps[..n]) + if FindsRoom(steps, n) then [n] else [];
      forall i: nat | i < n ensures FindsRoom(steps[..n], i) == FindsRoom(steps, i) {
        FindsRoomInPrefix(steps, n, i);
      }
    }
  }

  lemma {:induction false} HeldAreKept<E>(steps: seq<Step<E>>)
    requires !Run(steps).panicked
    ensures |Run(steps).buffer| <= CAPACITY
    ensures var held := Run(steps).consumed + Run(steps).buffer;
            && |held| == |Kept(steps)|
            && forall k :: 0 <= k < |held| ==>
                 Kept(steps)[k] < |steps| && steps[Kept(steps)[k]] == Deliver(Decoded(held[k]))
  {
    if steps != [] {
      var n := |steps| - 1;
      var prefix, last := steps[..n], steps[n];
      HeldAreKept(prefix);
      var c, d := Run(prefix), Run(steps);
      NextHolds(c, last);
      assert forall k :: 0 <= k < |Kept(prefix)| ==> steps[Kept(prefix)[k]] == prefix[Kept(prefix)[k]];
    }
  }

  /** What was consumed, followed by what is buffered, is exactly, and in delivery order, the events
      that arrived while fewer than 16 were pending: nothing is duplicated, reordered, or lost for
      another reason. */
  lemma ConsumedThenBuffered<E>(steps: seq<Step<E>>) returns (kept: seq<nat>)
    requires !Run(steps).panicked
    ensures |Run(steps).buffer| <= 16
    ensures StrictlyIncreasing(kept)
    ensures forall i: nat :: i in kept <==> i < |steps| && IsSend(steps[i]) && |Run(steps[..i]).buffer| < 16
    ensures var held := Run(steps).consumed + Run(steps).buffer;
            && |held| == |kept|
            && forall k :: 0 <= k < |held| ==> kept[k] < |steps| && steps[kept[k]] == Deliver(Decoded(held[k]))
  {
    kept := Kept(steps);
    KeptExactlyWhenRoom(steps);
    HeldAreKept(steps);
  }

  /** One step appends at most its own event to what is held, and only into a free slot. */
  lemma NextHolds<E>(c: Channel<E>, step: Step<E>)
    requires !Next(c, step).panicked && |c.buffer| <= CAPACITY
    ensures var d := Next(c, step);
            && |d.buffer| <= CAPACITY
            && d.consumed + d.buffer ==
               c.consumed + c.buffer + (if IsSend(step) && |c.buffer| < CAPACITY then [step.msg.event] else [])
  {
    var d := Next(c, step);
    if step.Receive? && c.buffer != [] {
      assert c.buffer == [c.buffer[0]] + c.buffer[1..];
    } else if IsSend(step) && |c.buffer| < CAPACITY {
      assert d.consumed + d.buffer == c.consumed + c.buffer + [step.msg.event];
    }
  }

  /** A receive moves the oldest pending event, if there is one, from the buffer to the consumer, whether the
      channel is closed or not. */
  lemma ReceiveMovesHead<E>(c: Channel<E>)
    requires !c.panicked
    ensures var d := Next(c, Receive);
            && c.consumed + c.buffer == d.consumed + d.buffer
            && |d.consumed| == |c.consumed| + (if c.buffer == [] then 0 else 1)
            && c.consumed <= d.consumed && d.closed == c.closed && !d.panicked
  {
    if c.buffer != [] { assert c.buffer == [c.buffer[0]] + c.buffer[1..]; }
  }

  /** After as many receives as events were pending, the consumer has them all, in order. */
  lemma {:induction false} ReceivesDrain<E>(steps: seq<Step<E>>, n: nat)
    requires !Run(steps).panicked && n <= |Run(steps).buffer|
    ensures var d := Run(steps + seq(n, _ => Receive));
            && d.consumed == Run(steps).consumed + Run(steps).buffer[..n] && d.buffer == Run(steps).buffer[n..]
            && d.closed == Run(steps).closed && !d.panicked
  {
    if n == 0 {
      assert steps + seq(n, _ => Receive) == steps;
    } else {
      ReceivesDrain(steps, n - 1);
      OneMoreReceive(steps, n);
      NextTakes(Run(steps + seq(n - 1, _ => Receive)), Run(steps).consumed, Run(steps).buffer, n - 1);
    }
  }

  lemma OneMoreReceive<E>(steps: seq<Step<E>>, n: nat)
    requires n > 0
    ensures Run(steps + seq(n, _ => Receive)) == Next(Run(steps + seq(n - 1, _ => Receive)), Receive)
  {
    var all: seq<Step<E>> := steps + seq(n, _ => Receive);
    assert all[..|all| - 1] == steps + seq(n - 1, _ => Receive);
  }

  lemma NextTakes<E>(c: Channel<E>, consumed: seq<E>, buffer: seq<E>, n: nat)
    requires n < |buffer| && !c.panicked && c.consumed == consumed + buffer[..n] && c.buffer == buffer[n..]
    ensures Next(c, Receive) == c.(consumed := consumed + buffer[..n + 1], buffer := buffer[n + 1..])
  {
    assert buffer[..n + 1] == buffer[..n] + [buffer[n]];
  }

  /** Step j sends on, or closes, the channel that step i closed. */
  predicate Misuse<E>(steps: seq<Step<E>>, i: nat, j: nat) {
    i < j < |steps| && steps[i].Cancel? && (IsSend(steps[j]) || steps[j].Cancel?)
  }

  /** The cancel function is safe exactly when it is called once and no callback sends after it. */
  lemma {:induction false} PanicsIffUsedAfterCancel<E>(steps: seq<Step<E>>)
    ensures Run(steps).panicked <==> exists i, j :: Misuse(steps, i, j)
    ensures !Run(steps).panicked ==> (Run(steps).closed <==> exists i :: 0 <= i < |steps| && steps[i].Cancel?)
  {
    if steps != [] {
      var n := |steps| - 1;
      var prefix, last := steps[..n], steps[n];
      PanicsIffUsedAfterCancel(prefix);
      if Run(steps).panicked {
        if Run(prefix).panicked {
          var i, j :| Misuse(prefix, i, j);
          assert Misuse(steps, i, j);
        } else {
          var i :| 0 <= i < n && prefix[i].Cancel?;
          assert Misuse(steps, i, n);
        }
      } else {
        forall i: nat, j: nat ensures !Misuse(steps, i, j) {
          assert !Misuse(prefix, i, j);
          if i < n && j == n {
            assert prefix[i] == steps[i];
          }
        }
        assert forall i :: 0 <= i < n ==> prefix[i] == steps[i];
      }
    }
  }

  datatype Received<+E> = Item(event: E) | WouldBlock | Closed

  /** One subscription: the channel and its closed flag, updated in place. */
  class Subscription<E> {
    var buffer: seq<E>
    var closed: bool
    var panicked: bool
    ghost var consumed: seq<E>

    ghost function State(): Channel<E>
      reads this
    {
      Channel(consumed, buffer, closed, panicked)
    }

    constructor ()
      ensures State() == Run<E>([])
    {
      buffer, closed, panicked, consumed := [], false, false, [];
    }

    /** The NATS callback. */
    method OnMessage(msg: Message<E>)
      modifies this
      ensures State() == Next(old(State()), Deliver(msg))
      ensures panicked <==> old(panicked) || (old(closed) && msg.Decoded?)
      ensures closed == old(closed) && consumed == old(consumed)
      ensures old(panicked) || old(closed) || msg.Malformed? ==> buffer == old(buffer)
      ensures !old(panicked) && !old(closed) && msg.Decoded? ==>
                if |old(buffer)| < CAPACITY then buffer == old(buffer) + [msg.event] else buffer == old(buffer)
    {
      if panicked || msg.Malformed? { return; }
      if closed {
        panicked := true;
      } else if |buffer| < CAPACITY {
        buffer := buffer + [msg.event];
      }
    }

    /** A receive by the consumer; a closed channel still hands out what it holds. */
    method Receive() returns (r: Received<E>)
      requires !panicked
      modifies this
      ensures State() == Next(old(State()), Step.Receive)
      ensures old(buffer) != [] ==>
                old(buffer) == [old(buffer)[0]] + buffer && consumed == old(consumed) + [old(buffer)[0]]
      ensures r == if old(buffer) != [] then Item(old(buffer)[0]) else if closed then Closed else WouldBlock
    {
      if buffer != [] {
        r := Item(buffer[0]);
        consumed, buffer := consumed + [buffer[0]], buffer[1..];
      } else if closed {
        r := Closed;
      } else {
        r := WouldBlock;
      }
    }

    method CancelSubscription()
      modifies this
      ensures State() == Next(old(State()), Cancel)
      ensures !old(panicked) ==> closed && (panicked <==> old(closed))
      ensures old(panicked) ==> panicked && closed == old(closed)
      ensures buffer == old(buffer) && consumed == old(consumed)
    {
      if panicked { return; }
      if closed { panicked := true; } else { closed := true; }
    }
  }
}
