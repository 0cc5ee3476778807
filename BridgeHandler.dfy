/**
 * RfLinkBridgeHandler: the transmit queue that hands outbound messages to the connector, the
 * list of device listeners, and the fan-out of every classified inbound line to them.
 */
module BridgeHandler {
  import opened Common
  import opened JavaText
  import opened RfLinkBase
  import WindMessage
  import MessageFactory

  /** `LinkedBlockingQueue`'s default capacity, `Integer.MAX_VALUE`. */
  const QueueCapacity: nat := IntMax

  /** The first position in `q` whose send fails, or `|q|` when none does. */
  function FirstFailure<M>(q: seq<M>, sendOk: M -> bool): (i: nat)
    ensures i <= |q|
    ensures forall j :: 0 <= j < i ==> sendOk(q[j])
    ensures i < |q| ==> !sendOk(q[i])
  {
    if q == [] then 0 else if !sendOk(q[0]) then 0 else 1 + FirstFailure(q[1..], sendOk)
  }

  /**
   * `TransmitQueue`: messages wait in FIFO order; `sent` is what the connector has been handed,
   * in order. Whether the connector's send throws is given as `sendOk`.
   */
  class TransmitQueue<M> {
    var queue: seq<M>
    var sent: seq<M>

    constructor ()
      ensures queue == [] && sent == []
    {
      queue := [];
      sent := [];
    }

    /**
     * `send()`: messages are polled and handed over in FIFO order until the queue is empty or a
     * send throws; the polled message of a failed send is lost and the rest stay queued.
     */
    method Send(sendOk: M -> bool) returns (outcome: Outcome)
      modifies this
      ensures var k := FirstFailure(old(queue), sendOk);
        && sent == old(sent) + old(queue)[..k]
        && (k == |old(queue)| ==> outcome == Pass && queue == [])
        && (k < |old(queue)| ==> outcome == Fail(IOError) && queue == old(queue)[k + 1..])
    {
      ghost var q0 := queue;
      ghost var i := 0;
      while queue != []
        invariant i <= FirstFailure(q0, sendOk) && i <= |q0|
        invariant queue == q0[i..] && sent == old(sent) + q0[..i]
        decreases |queue|
      {
        var msg := queue[0];
        queue := queue[1..];
        if !sendOk(msg) {
          return Fail(IOError);
        }
        sent := sent + [msg];
        assert q0[..i + 1] == q0[..i] + [msg];
        i := i + 1;
      }
      return Pass;
    }

    /**
     * `enqueue(msg)`: the message joins the queue (or is dropped when the queue is full); only
     * a queue that was empty before is drained.
     */
    method Enqueue(msg: M, sendOk: M -> bool) returns (outcome: Outcome)
      modifies this
      ensures |old(queue)| >= QueueCapacity ==> queue == old(queue) && sent == old(sent) && outcome == Pass
      ensures 0 < |old(queue)| < QueueCapacity ==> queue == old(queue) + [msg] && sent == old(sent) && outcome == Pass
      ensures old(queue) == [] && sendOk(msg) ==> queue == [] && sent == old(sent) + [msg] && outcome == Pass
      ensures old(queue) == [] && !sendOk(msg) ==> queue == [] && sent == old(sent) && outcome == Fail(IOError)
    {
      var wasEmpty := queue == [];
      if |queue| < QueueCapacity {
        queue := queue + [msg];
        if wasEmpty {
          outcome := Send(sendOk);
          return;
        }
      }
      return Pass;
    }
  }

  /**
   * A drain empties the queue exactly when every queued message can be sent; otherwise the
   * message it loses is one that was never handed over before.
   */
  lemma {:induction false} DrainCompletes<M>(q: seq<M>, sendOk: M -> bool)
    ensures FirstFailure(q, sendOk) == |q| <==> forall m :: m in q ==> sendOk(m)
    ensures FirstFailure(q, sendOk) < |q| ==> q[FirstFailure(q, sendOk)] !in q[..FirstFailure(q, sendOk)]
  {
    var k := FirstFailure(q, sendOk);
    if k < |q| {
      assert q[k] in q && !sendOk(q[k]);
      forall m | m in q[..k] ensures sendOk(m) {
        var j :| 0 <= j < k && q[..k][j] == m;
        assert q[j] == m;
      }
    } else {
      forall m | m in q ensures sendOk(m) {
        var j :| 0 <= j < |q| && q[j] == m;
      }
    }
  }

  /**
   * The bridge: the device listeners (`L`, with None for Java's null), the transmit queue, and
   * the deliveries made so far, each a listener with the message handed to it.
   */
  class Bridge<L(==)> {
    const factory: MessageFactory.MessageFactory
    const transmitQueue: TransmitQueue<MessageFactory.Message>
    var listeners: seq<L>
    var delivered: seq<(L, MessageFactory.Message)>

    /** The listener list never holds a listener twice. */
    predicate Valid()
      reads this, factory
    {
      && factory.Valid()
      && forall i, j :: 0 <= i < j < |listeners| ==> listeners[i] != listeners[j]
    }

    constructor (factory: MessageFactory.MessageFactory)
      requires factory.Valid()
      ensures Valid() && this.factory == factory && fresh(transmitQueue)
      ensures listeners == [] && delivered == [] && transmitQueue.queue == [] && transmitQueue.sent == []
    {
      this.factory := factory;
      transmitQueue := new TransmitQueue();
      listeners := [];
      delivered := [];
    }

    /**
     * `registerDeviceStatusListener`: null is IllegalArgument; a listener already present is
     * refused with false; any other is appended, with true.
     */
    method RegisterDeviceStatusListener(listener: Option<L>) returns (r: Result<bool>)
      requires Valid()
      modifies this
      ensures Valid() && delivered == old(delivered)
      ensures listener.None? ==> r == Err(IllegalArgument) && listeners == old(listeners)
      ensures listener.Some? && listener.value in old(listeners) ==> r == Ok(false) && listeners == old(listeners)
      ensures listener.Some? && listener.value !in old(listeners) ==>
        r == Ok(true) && listeners == old(listeners) + [listener.value]
    {
      if listener.None? {
        return Err(IllegalArgument);
      }
      if listener.value in listeners {
        return Ok(false);
      }
      listeners := listeners + [listener.value];
      return Ok(true);
    }

    /**
     * `unregisterDeviceStatusListener`: null is IllegalArgument; otherwise the listener is
     * removed and the answer says whether it was there.
     */
    method UnregisterDeviceStatusListener(listener: Option<L>) returns (r: Result<bool>)
      requires Valid()
      modifies this
      ensures Valid() && delivered == old(delivered)
      ensures listener.None? ==> r == Err(IllegalArgument) && listeners == old(listeners)
      ensures listener.Some? ==>
        && r == Ok(listener.value in old(listeners))
        && (forall x :: x in listeners <==> x in old(listeners) && x != listener.value)
        && |listeners| == |old(listeners)| - (if listener.value in old(listeners) then 1 else 0)
        && listeners == Remove(old(listeners), listener.value)
    {
      if listener.None? {
        return Err(IllegalArgument);
      }
      var present := listener.value in listeners;
      listeners := Remove(listeners, listener.value);
      RemoveDistinct(old(listeners), listener.value);
      return Ok(present);
    }

    /**
     * `sendMessage`: the message goes through the transmit queue; an I/O failure is reported in
     * the outcome instead of the bridge status.
     */
    method SendMessage(msg: MessageFactory.Message, sendOk: MessageFactory.Message -> bool) returns (outcome: Outcome)
      modifies transmitQueue
      ensures var q := old(transmitQueue.queue);
        && (|q| >= QueueCapacity ==>
              transmitQueue.queue == q && transmitQueue.sent == old(transmitQueue.sent) && outcome == Pass)
        && (0 < |q| < QueueCapacity ==>
              transmitQueue.queue == q + [msg] && transmitQueue.sent == old(transmitQueue.sent) && outcome == Pass)
        && (q == [] ==>
              && transmitQueue.queue == []
              && transmitQueue.sent == old(transmitQueue.sent) + (if sendOk(msg) then [msg] else [])
              && (outcome == Pass <==> sendOk(msg)))
    {
      outcome := transmitQueue.Enqueue(msg, sendOk);
    }

    /**
     * `packetReceived`: a line the factory classifies is handed to every listener in list order
     * (one listener's exception does not stop the next); a line it does not classify reaches
     * nobody.
     */
    method PacketReceived(packet: string, parsers: WindMessage.Parsers) returns (r: Result<MessageFactory.Message>)
      requires Valid()
      modifies this
      ensures Valid() && listeners == old(listeners)
      ensures r.Err? ==> delivered == old(delivered)
      ensures r.Ok? ==> delivered == old(delivered) + Deliveries(listeners, r.value)
      ensures !IsGatewayFrame(Split(packet, FieldsDelimiter)) ==> r == Err(NotImp)
      ensures MessageFactory.Classified(factory.mapping, packet, parsers, r)
    {
      r := factory.CreateMessage(packet, parsers);
      if r.Ok? {
        DeliverClassified(factory.mapping, packet, parsers, r);
      }
    }

    /** The delivery of a classified message, which leaves its classification as it was. */
    method DeliverClassified(ghost mapping: map<string, MessageFactory.Family>, ghost packet: string,
                             ghost parsers: WindMessage.Parsers, r: Result<MessageFactory.Message>)
      requires r.Ok? && MessageFactory.Classified(mapping, packet, parsers, r)
      modifies this
      ensures MessageFactory.Classified(mapping, packet, parsers, r)
      ensures listeners == old(listeners)
      ensures delivered == old(delivered) + Deliveries(listeners, r.value)
    {
      var m := r.value;
      ghost var b := MessageFactory.BaseOf(m);
      ghost var header := (b.rawMessage, b.values, b.seqNbr, b.deviceName, b.deviceId);
      Deliver(m);
      assert header == (b.rawMessage, b.values, b.seqNbr, b.deviceName, b.deviceId);
      match m {
        case EnergyMsg(x) => assert x.Current() == old(x.Current());
        case WindMsg(x) => assert x.Current() == old(x.Current());
        case RainMsg(x) => assert x.Current() == old(x.Current());
        case SwitchMsg(x) => assert x.Current() == old(x.Current());
        case TemperatureMsg(x) => assert x.Current() == old(x.Current());
        case RtsMsg(x) => assert x.switchCode == old(x.switchCode);
      }
    }

    /** The loop of `packetReceived`: the message goes to every listener, in list order. */
    method Deliver(m: MessageFactory.Message)
      modifies this
      ensures listeners == old(listeners)
      ensures delivered == old(delivered) + Deliveries(listeners, m)
    {
      var i := 0;
      while i < |listeners|
        invariant 0 <= i <= |listeners| && listeners == old(listeners)
        invariant delivered == old(delivered) + Deliveries(listeners[..i], m)
      {
        assert listeners[..i + 1] == listeners[..i] + [listeners[i]];
        DeliveriesAppend(listeners[..i], listeners[i], m);
        delivered := delivered + [(listeners[i], m)];
        i := i + 1;
      }
      assert listeners[..i] == listeners;
    }
  }

  /** The deliveries of one message to a list of listeners, in list order. */
  function Deliveries<L, T>(ls: seq<L>, m: T): (d: seq<(L, T)>)
    ensures |d| == |ls|
    ensures forall i :: 0 <= i < |ls| ==> d[i] == (ls[i], m)
  {
    if ls == [] then [] else [(ls[0], m)] + Deliveries(ls[1..], m)
  }

  lemma {:induction false} DeliveriesAppend<L, T>(ls: seq<L>, l: L, m: T)
    ensures Deliveries(ls + [l], m) == Deliveries(ls, m) + [(l, m)]
  {
    var a := Deliveries(ls + [l], m);
    var b := Deliveries(ls, m) + [(l, m)];
    assert |a| == |b|;
    forall i | 0 <= i < |a| ensures a[i] == b[i] {
      if i < |ls| {
        assert (ls + [l])[i] == ls[i];
      }
    }
  }

  /** `List.remove(o)`: the first occurrence of `x` removed. */
  function Remove<L(==)>(ls: seq<L>, x: L): seq<L>
  {
    if ls == [] then [] else if ls[0] == x then ls[1..] else [ls[0]] + Remove(ls[1..], x)
  }

  /** On a list without duplicates, removing `x` removes it entirely and keeps everything else. */
  lemma {:induction false} RemoveDistinct<L>(ls: seq<L>, x: L)
    requires forall i, j :: 0 <= i < j < |ls| ==> ls[i] != ls[j]
    ensures forall y :: y in Remove(ls, x) <==> y in ls && y != x
    ensures |Remove(ls, x)| == |ls| - (if x in ls then 1 else 0)
    ensures forall i, j :: 0 <= i < j < |Remove(ls, x)| ==> Remove(ls, x)[i] != Remove(ls, x)[j]
  {
    if ls != [] {
      assert forall i, j :: 0 <= i < j < |ls[1..]| ==> ls[1..][i] != ls[1..][j] by {
        forall i, j | 0 <= i < j < |ls[1..]| ensures ls[1..][i] != ls[1..][j] {
          assert ls[1..][i] == ls[i + 1] && ls[1..][j] == ls[j + 1];
        }
      }
      RemoveDistinct(ls[1..], x);
      if ls[0] != x {
        var r := Remove(ls[1..], x);
        assert ls[0] !in ls[1..] by {
          forall k | 0 <= k < |ls[1..]| ensures ls[1..][k] != ls[0] {
            assert ls[1..][k] == ls[k + 1];
          }
        }
        assert forall i :: 0 <= i < |r| ==> ([ls[0]] + r)[i + 1] == r[i];
      } else {
        assert x !in ls[1..] by {
          forall k | 0 <= k < |ls[1..]| ensures ls[1..][k] != ls[0] {
            assert ls[1..][k] == ls[k + 1];
          }
        }
      }
    }
  }

  /** `List.remove(o)` of an element that is not there leaves the list as it was. */
  lemma {:induction false} RemoveAbsent<L>(ls: seq<L>, x: L)
    requires x !in ls
    ensures Remove(ls, x) == ls
  {
    if ls != [] {
      assert x !in ls[1..];
      RemoveAbsent(ls[1..], x);
      assert ls == [ls[0]] + ls[1..];
    }
  }

  /**
   * `List.remove(o)` keeps the other elements in their order: the list closes up around the
   * first occurrence of `x`.
   */
  lemma {:induction false} RemoveAt<L>(ls: seq<L>, x: L, i: nat)
    requires i < |ls| && ls[i] == x && x !in ls[..i]
    ensures Remove(ls, x) == ls[..i] + ls[i + 1..]
  {
    if i > 0 {
      assert ls[..i][0] == ls[0];
      var t := ls[1..];
      assert t[..i - 1] == ls[..i][1..];
      RemoveAt(t, x, i - 1);
      assert ls[..i] == [ls[0]] + t[..i - 1];
      assert ls[i + 1..] == t[i..];
    }
  }
}
