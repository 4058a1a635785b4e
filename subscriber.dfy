/**
 * The message path of one `lwrcl` subscriber.
 *
 * The transport notifies the subscriber's listener, which takes one sample,
 * appends it to the subscriber's message buffer and produces a token (its
 * subscription callback) into the owning node's channel. Later, on the node's
 * own thread, the token is consumed and the callback invoked: it hands the
 * oldest buffered message to the user function and then erases it.
 *
 * The user function is not modelled: each invocation is told whether it
 * returned or threw, and reports the message it handed over. The reader's
 * `take_next_sample` is a parameter too.
 */
module Lwrcl {
  import opened Wrappers

  /** How the user callback ended: it returned, or it threw an exception. */
  datatype Outcome = Returns | Throws

  /**
   * What `take_next_sample` gave: whether its return code was OK, the
   * `valid_data` flag of the sample info, and the sample itself.
   */
  datatype Take<T> = Take(ok: bool, validData: bool, sample: T)

  /** The messages a notification adds to the buffer: the sample, if it was taken and holds data. */
  function Accepted<T>(take: Take<T>): (r: seq<T>)
    ensures |r| <= 1
    ensures r != [] <==> take.ok && take.validData
    ensures r != [] ==> r[0] == take.sample
  {
    if take.ok && take.validData then [take.sample] else []
  }

  /** The message an invocation hands to the user callback: the oldest one, if any. */
  function Front<T>(buffer: seq<T>): (r: Option<T>)
    ensures r == None <==> buffer == []
    ensures r.Some? ==> r.value == buffer[0]
  {
    if buffer == [] then None else Some(buffer[0])
  }

  /**
   * The buffer after an invocation: the oldest message is erased only when
   * the callback returned; an empty buffer, or a callback that threw before
   * the erase, leaves it as it was.
   */
  function AfterInvoke<T>(buffer: seq<T>, outcome: Outcome): (r: seq<T>)
    ensures buffer == [] || outcome == Throws ==> r == buffer
    ensures buffer != [] && outcome == Returns ==> [buffer[0]] + r == buffer
  {
    if buffer != [] && outcome == Returns then buffer[1..] else buffer
  }

  /** The node's channel, seen only as the tokens produced into it, oldest first. */
  class Channel {
    var items: seq<object>

    constructor ()
      ensures items == []
    {
      items := [];
    }

    /** `produce`: appends one token at the tail. */
    method Produce(item: object)
      modifies this
      ensures items == old(items) + [item]
    {
      items := items + [item];
    }
  }

  /** The subscriber's buffer of received messages, oldest first. */
  class MessageBuffer<T> {
    var items: seq<T>

    constructor ()
      ensures items == []
    {
      items := [];
    }
  }

  /** The token put into the channel: a callback bound to the subscriber's buffer. */
  class SubscriptionCallback<T> {
    const buffer: MessageBuffer<T>

    constructor (buffer: MessageBuffer<T>)
      ensures this.buffer == buffer
    {
      this.buffer := buffer;
    }

    /**
     * `invoke`: on a non-empty buffer, hands the oldest message to the user
     * callback and, once it returns, erases exactly that message; on an empty
     * buffer, logs and does nothing. An exception from the callback is caught
     * here, after the hand-over and before the erase. Returns the message
     * handed over, if any.
     */
    method Invoke(outcome: Outcome) returns (handed: Option<T>)
      modifies buffer
      ensures handed == Front(old(buffer.items))
      ensures buffer.items == AfterInvoke(old(buffer.items), outcome)
    {
      if buffer.items != [] {
        handed := Some(buffer.items[0]);
        if outcome == Returns {
          buffer.items := buffer.items[1..];
        }
      } else {
        handed := None;
      }
    }
  }

  /** The listener the transport notifies, on its own thread. */
  class SubscriberListener<T> {
    var count: int
    const buffer: MessageBuffer<T>
    const channel: Channel
    const callback: SubscriptionCallback<T>

    /** The listener's token is bound to the listener's own buffer. */
    ghost predicate Valid()
    {
      callback.buffer == buffer
    }

    constructor (channel: Channel)
      ensures Valid()
      ensures this.channel == channel && fresh(buffer) && fresh(callback)
      ensures buffer.items == [] && count == 0
    {
      var b := new MessageBuffer<T>();
      buffer := b;
      this.channel := channel;
      callback := new SubscriptionCallback<T>(b);
      count := 0;
    }

    /** `on_subscription_matched`: records the current number of matched publishers. */
    method OnSubscriptionMatched(currentCount: int)
      modifies this
      ensures count == currentCount
    {
      count := currentCount;
    }

    /**
     * `on_data_available`: a sample that was taken and holds data is appended
     * to the buffer and the listener's own callback is produced into the
     * channel, once; otherwise neither changes.
     */
    method OnDataAvailable(take: Take<T>)
      modifies buffer, channel
      ensures buffer.items == old(buffer.items) + Accepted(take)
      ensures channel.items == old(channel.items) + if Accepted(take) == [] then [] else [callback as object]
    {
      if take.ok && take.validData {
        buffer.items := buffer.items + [take.sample];
        channel.Produce(callback);
      }
    }
  }

  /**
   * A subscriber, reduced to its listener. Creating the transport topic,
   * subscriber and reader is not part of this model.
   */
  class Subscriber<T> {
    const listener: SubscriberListener<T>

    constructor (channel: Channel)
      ensures fresh(listener) && fresh(listener.buffer) && fresh(listener.callback)
      ensures listener.Valid() && listener.channel == channel
      ensures listener.buffer.items == [] && listener.count == 0
    {
      listener := new SubscriberListener<T>(channel);
    }

    /** `get_publisher_count`: the count the last matched notification wrote. */
    method GetPublisherCount() returns (n: int)
      ensures n == listener.count
    {
      n := listener.count;
    }
  }

  /** After a match notification, the subscriber reports the count it carried. */
  method MatchedThenCount<T>(s: Subscriber<T>, currentCount: int) returns (n: int)
    modifies s.listener
    ensures n == currentCount
  {
    s.listener.OnSubscriptionMatched(currentCount);
    n := s.GetPublisherCount();
  }

  /**
   * The token a notification produces drains the buffer that notification
   * filled: on a fresh listener, one arrival followed by one invocation of
   * the listener's callback hands over exactly the accepted sample, and
   * erases it unless the user callback threw.
   */
  method ArriveThenDispatch<T>(l: SubscriberListener<T>, take: Take<T>, outcome: Outcome) returns (handed: Option<T>)
    requires l.Valid() && l.buffer.items == []
    modifies l.buffer, l.channel
    ensures handed == Front(Accepted(take))
    ensures l.buffer.items == AfterInvoke(Accepted(take), outcome)
  {
    l.OnDataAvailable(take);
    handed := l.callback.Invoke(outcome);
  }

  // The path of one subscriber over time, as a sequence of events.

  /** Either the transport notified the listener, or the node consumed one token and invoked it. */
  datatype Event<T> = Notified(take: Take<T>) | Dispatched(outcome: Outcome)

  /**
   * One subscriber's state along the path: its buffer, the number of its
   * tokens waiting in the channel, every message handed to the user callback,
   * and those among them whose callback returned.
   */
  datatype Path<T> = Path(buffer: seq<T>, pending: nat, handed: seq<T>, delivered: seq<T>)

  /** The state of a subscriber that has received nothing yet. */
  function Start<T>(): Path<T>
  {
    Path([], 0, [], [])
  }

  /** The optional message as a sequence of at most one. */
  function AsSeq<T>(o: Option<T>): seq<T>
  {
    match o
    case None => []
    case Some(m) => [m]
  }

  /**
   * One event: a notification adds what `OnDataAvailable` adds; a dispatch
   * consumes one token, if there is one, and does what `Invoke` does.
   */
  function Step<T>(p: Path<T>, e: Event<T>): Path<T>
  {
    match e
    case Notified(take) =>
      p.(buffer := p.buffer + Accepted(take), pending := p.pending + |Accepted(take)|)
    case Dispatched(outcome) =>
      if p.pending == 0 then p
      else Path(AfterInvoke(p.buffer, outcome), p.pending - 1,
                p.handed + AsSeq(Front(p.buffer)),
                p.delivered + if outcome == Returns then AsSeq(Front(p.buffer)) else [])
  }

  /** The state after a sequence of events, oldest first. */
  function Run<T>(p: Path<T>, events: seq<Event<T>>): Path<T>
    decreases |events|
  {
    if events == [] then p else Run(Step(p, events[0]), events[1..])
  }

  /** Every message the listener accepted along the events, in arrival order. */
  function Arrivals<T>(events: seq<Event<T>>): seq<T>
    decreases |events|
  {
    if events == [] then []
    else (match events[0] case Notified(take) => Accepted(take) case Dispatched(_) => []) + Arrivals(events[1..])
  }

  /**
   * FIFO delivery: the messages whose callback returned, followed by those
   * still buffered, are exactly the messages that arrived, in arrival order.
   */
  lemma {:induction false} DeliveredThenBufferedIsArrived<T>(p: Path<T>, events: seq<Event<T>>)
    ensures Run(p, events).delivered + Run(p, events).buffer == p.delivered + p.buffer + Arrivals(events)
    decreases |events|
  {
    if events != [] {
      var q := Step(p, events[0]);
      DeliveredThenBufferedIsArrived(q, events[1..]);
      StepKeepsDeliveredThenBuffered(p, events[0]);
    }
  }

  /** One event appends to the delivered messages followed by the buffered ones exactly what it accepts. */
  lemma StepKeepsDeliveredThenBuffered<T>(p: Path<T>, e: Event<T>)
    ensures Step(p, e).delivered + Step(p, e).buffer
         == p.delivered + p.buffer + match e case Notified(take) => Accepted(take) case Dispatched(_) => []
  {
    var q := Step(p, e);
    match e
    case Notified(take) =>
      assert q.delivered + q.buffer == p.delivered + p.buffer + Accepted(take);
    case Dispatched(outcome) =>
      if p.pending > 0 && p.buffer != [] && outcome == Returns {
        assert [p.buffer[0]] + q.buffer == p.buffer;
        assert q.delivered + q.buffer == p.delivered + p.buffer;
      }
  }

  /** From the start, the delivered messages are a prefix of the arrived ones. */
  lemma DeliveredIsPrefixOfArrivals<T>(events: seq<Event<T>>)
    ensures Run(Start<T>(), events).delivered <= Arrivals(events)
  {
    var r := Run(Start<T>(), events);
    DeliveredThenBufferedIsArrived(Start<T>(), events);
    assert Arrivals(events) == r.delivered + r.buffer;
    assert Arrivals(events)[..|r.delivered|] == r.delivered;
  }

  /**
   * When no callback throws, each token matches one buffered message (so no
   * invocation finds the buffer empty) and every message handed over counts
   * as delivered.
   */
  lemma {:induction false} NoThrowKeepsTokensWithMessages<T>(p: Path<T>, events: seq<Event<T>>)
    requires Dispatched(Throws) !in events
    requires p.pending == |p.buffer| && p.handed == p.delivered
    ensures Run(p, events).pending == |Run(p, events).buffer|
    ensures Run(p, events).handed == Run(p, events).delivered
    decreases |events|
  {
    if events != [] {
      assert events[0] != Dispatched(Throws);
      assert Dispatched(Throws) !in events[1..] by {
        assert forall e :: e in events[1..] ==> e in events;
      }
      NoThrowKeepsTokensWithMessages(Step(p, events[0]), events[1..]);
    }
  }

  /**
   * Whatever the callbacks do, a token never outnumbers the buffered
   * messages, so a dispatched token never meets an empty buffer.
   */
  lemma {:induction false} TokensNeverOutnumberMessages<T>(p: Path<T>, events: seq<Event<T>>)
    requires p.pending <= |p.buffer|
    ensures Run(p, events).pending <= |Run(p, events).buffer|
    decreases |events|
  {
    if events != [] {
      TokensNeverOutnumberMessages(Step(p, events[0]), events[1..]);
    }
  }

  /**
   * A callback that throws leaves its message first in the buffer, so the
   * next dispatch hands the same message over again.
   */
  lemma ThrowRedelivers<T>(p: Path<T>, outcome: Outcome)
    requires p.pending >= 2 && p.buffer != []
    ensures Run(p, [Dispatched(Throws), Dispatched(outcome)]).handed == p.handed + [p.buffer[0], p.buffer[0]]
    ensures Run(p, [Dispatched(Throws), Dispatched(outcome)]).buffer == AfterInvoke(p.buffer, outcome)
  {
    var events := [Dispatched(Throws), Dispatched(outcome)];
    var q := Step(p, Dispatched(Throws));
    assert q.buffer == p.buffer && q.handed == p.handed + [p.buffer[0]];
    assert events[1..] == [Dispatched(outcome)];
    assert Run(p, events) == Run(q, [Dispatched(outcome)]);
    var last: seq<Event<T>> := [Dispatched(outcome)];
    assert last[1..] == [];
    assert Run(q, [Dispatched(outcome)]) == Step(q, Dispatched(outcome));
  }

  /** Running two event sequences one after the other is running their concatenation. */
  lemma {:induction false} RunConcat<T>(p: Path<T>, a: seq<Event<T>>, b: seq<Event<T>>)
    ensures Run(p, a + b) == Run(Run(p, a), b)
    decreases |a|
  {
    if a == [] {
      assert a + b == b;
    } else {
      assert (a + b)[1..] == a[1..] + b;
      RunConcat(Step(p, a[0]), a[1..], b);
    }
  }

  /** Running one more event is one more step. */
  lemma RunSnoc<T>(p: Path<T>, events: seq<Event<T>>, e: Event<T>)
    ensures Run(p, events + [e]) == Step(Run(p, events), e)
  {
    RunConcat(p, events, [e]);
    var last: seq<Event<T>> := [e];
    assert last[1..] == [];
  }

  /**
   * When no callback throws, the number of buffered messages that have no
   * token stays what it was.
   */
  lemma {:induction false} NoThrowKeepsGap<T>(p: Path<T>, events: seq<Event<T>>)
    requires Dispatched(Throws) !in events
    requires p.pending <= |p.buffer|
    ensures |Run(p, events).buffer| - Run(p, events).pending == |p.buffer| - p.pending
    decreases |events|
  {
    if events != [] {
      assert events[0] != Dispatched(Throws);
      assert Dispatched(Throws) !in events[1..] by {
        assert forall e :: e in events[1..] ==> e in events;
      }
      NoThrowKeepsGap(Step(p, events[0]), events[1..]);
    }
  }

  /**
   * Erasing only after the callback returns means a throw uses up a token but
   * keeps its message: from then on, as long as no other callback throws, one
   * buffered message more than there are tokens stays behind, so the buffer
   * never drains.
   */
  lemma ThrowStrandsMessage<T>(p: Path<T>, events: seq<Event<T>>)
    requires p.pending == |p.buffer| > 0
    requires Dispatched(Throws) !in events
    ensures |Run(p, [Dispatched(Throws)] + events).buffer| == Run(p, [Dispatched(Throws)] + events).pending + 1
  {
    var q := Step(p, Dispatched(Throws));
    RunSnoc(p, [], Dispatched(Throws));
    RunConcat(p, [Dispatched(Throws)], events);
    NoThrowKeepsGap(q, events);
  }

  /** Three events in a row are three steps in a row. */
  lemma RunThree<T>(p: Path<T>, a: Event<T>, b: Event<T>, c: Event<T>)
    ensures Run(p, [a, b, c]) == Step(Step(Step(p, a), b), c)
  {
    var q1, q2 := Step(p, a), Step(Step(p, a), b);
    assert [a, b, c][1..] == [b, c] && [b, c][1..] == [c] && [c][1..] == [];
    assert Run(p, [a, b, c]) == Run(q1, [b, c]);
    assert Run(q1, [b, c]) == Run(q2, [c]);
    assert Run(q2, [c]) == Run(Step(q2, c), []);
  }

  /**
   * Three messages arrive and each gets one dispatch; the first callback
   * throws. The handler sees m1, m1, m2; m1 and m2 are delivered; m3 stays
   * buffered with no token left to deliver it.
   */
  lemma ThreeArrivalsOneThrow<T>(m1: T, m2: T, m3: T)
    ensures var r := Run(Start<T>(), [Notified(Take(true, true, m1)), Notified(Take(true, true, m2)),
                                      Notified(Take(true, true, m3)), Dispatched(Throws),
                                      Dispatched(Returns), Dispatched(Returns)]);
            r.handed == [m1, m1, m2] && r.delivered == [m1, m2] && r.buffer == [m3] && r.pending == 0
  {
    var arrivals := [Notified(Take(true, true, m1)), Notified(Take(true, true, m2)), Notified(Take(true, true, m3))];
    var dispatches := [Dispatched(Throws), Dispatched(Returns), Dispatched(Returns)];
    RunConcat(Start<T>(), arrivals, dispatches);
    assert arrivals + dispatches == [arrivals[0], arrivals[1], arrivals[2], dispatches[0], dispatches[1], dispatches[2]];
    RunThree(Start<T>(), arrivals[0], arrivals[1], arrivals[2]);
    var s3 := Run(Start<T>(), arrivals);
    assert s3 == Path([m1, m2, m3], 3, [], []);
    RunThree(s3, dispatches[0], dispatches[1], dispatches[2]);
    var s4 := Step(s3, dispatches[0]);
    assert s4 == Path([m1, m2, m3], 2, [m1], []);
    var s5 := Step(s4, dispatches[1]);
    assert s5 == Path([m2, m3], 1, [m1, m1], [m1]);
    assert Step(s5, dispatches[2]) == Path([m3], 0, [m1, m1, m2], [m1, m2]);
  }
}
