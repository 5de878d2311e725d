/**
 The kernel's message bus: a map from a topic (message type) to the ordered
 list of callbacks subscribed to it. A callback is represented by an opaque
 identity, and invoking it is recorded as a delivery of the payload to that
 identity. Delivery is synchronous, so a publication is fully described by
 the deliveries it makes, in order.
 */
module MessageBus {

  type Topic = string

  /** Opaque identity of a subscribed callback. */
  type SubId = nat

  /** One callback invocation: `subscriber` was called with `payload`. */
  datatype Delivery = Delivery(subscriber: SubId, payload: string)

  datatype Bus = Bus(subscribers: map<Topic, seq<SubId>>)

  /** The bus of a freshly constructed kernel: no topic known. */
  const Empty: Bus := Bus(map[])

  /** The callbacks subscribed to `t`, in subscription order; none for a
      topic never subscribed to. */
  function SubscribersOf(b: Bus, t: Topic): seq<SubId>
  {
    if t in b.subscribers then b.subscribers[t] else []
  }

  /** `Subscribe`: appends `cb` to the end of `t`'s list, creating the entry if
      needed; every other topic keeps its list. */
  function Subscribe(b: Bus, t: Topic, cb: SubId): (r: Bus)
    ensures SubscribersOf(r, t) == SubscribersOf(b, t) + [cb]
    ensures t in r.subscribers
    ensures forall u :: u != t ==> SubscribersOf(r, u) == SubscribersOf(b, u)
  {
    Bus(b.subscribers[t := SubscribersOf(b, t) + [cb]])
  }

  /** Calls every callback of `cbs`, first to last, with the same payload. */
  function Invoke(cbs: seq<SubId>, payload: string): (r: seq<Delivery>)
    ensures |r| == |cbs|
    ensures forall i :: 0 <= i < |r| ==> r[i] == Delivery(cbs[i], payload)
  {
    if cbs == [] then [] else [Delivery(cbs[0], payload)] + Invoke(cbs[1..], payload)
  }

  /** `SendMessage`: invokes each subscriber of `t` exactly once, in
      subscription order, with payload `p`; a topic nobody subscribed to
      gets no invocation at all. Nothing else is called, and the bus itself
      is not changed (the result is the delivery trace only). */
  function SendMessage(b: Bus, t: Topic, p: string): (r: seq<Delivery>)
    ensures t !in b.subscribers ==> r == []
    ensures |r| == |SubscribersOf(b, t)|
    ensures forall i :: 0 <= i < |r| ==> r[i] == Delivery(SubscribersOf(b, t)[i], p)
  {
    if t in b.subscribers then Invoke(b.subscribers[t], p) else []
  }

  /** A callback receives a publication on `t` exactly when it is among
      `t`'s subscribers at the time of the call. */
  lemma ReceivesIffSubscribed(b: Bus, t: Topic, p: string, x: SubId)
    ensures Delivery(x, p) in SendMessage(b, t, p) <==> x in SubscribersOf(b, t)
  {
  }

  /** One call on the bus, as a module's attach hook may make it. */
  datatype BusOp = Sub(topic: Topic, cb: SubId) | Send(topic: Topic, payload: string)

  /** Performs one call and returns the new bus with the deliveries the call
      made. A `Send` never changes the bus; a `Sub` never delivers. */
  function Apply(b: Bus, op: BusOp): (r: (Bus, seq<Delivery>))
    ensures op.Send? ==> r.0 == b
    ensures op.Sub? ==> r.1 == []
  {
    match op
    case Sub(t, cb) => (Subscribe(b, t, cb), [])
    case Send(t, p) => (b, SendMessage(b, t, p))
  }

  /** A run of calls: the final bus and, for each call, its deliveries. */
  datatype Replayed = Replayed(bus: Bus, deliveries: seq<seq<Delivery>>)

  /** Performs `ops` one after the other, starting from `b`. */
  function Replay(b: Bus, ops: seq<BusOp>): (r: Replayed)
    ensures |r.deliveries| == |ops|
    decreases |ops|
  {
    if ops == [] then Replayed(b, [])
    else
      var prev := Replay(b, ops[..|ops| - 1]);
      var step := Apply(prev.bus, ops[|ops| - 1]);
      Replayed(step.0, prev.deliveries + [step.1])
  }

  /** One more call performs that call on the bus the run left. */
  lemma ReplaySnoc(b: Bus, ops: seq<BusOp>, op: BusOp)
    ensures Replay(b, ops + [op]).bus == Apply(Replay(b, ops).bus, op).0
    ensures Replay(b, ops + [op]).deliveries
            == Replay(b, ops).deliveries + [Apply(Replay(b, ops).bus, op).1]
  {
  }

  /** Running two runs back to back is running their concatenation. */
  lemma {:induction false} ReplayAppend(b: Bus, first: seq<BusOp>, second: seq<BusOp>)
    ensures Replay(b, first + second).bus == Replay(Replay(b, first).bus, second).bus
    ensures Replay(b, first + second).deliveries
            == Replay(b, first).deliveries + Replay(Replay(b, first).bus, second).deliveries
    decreases |second|
  {
    if second == [] {
      assert first + second == first;
    } else {
      var init, x := second[..|second| - 1], second[|second| - 1];
      assert second == init + [x];
      assert first + second == (first + init) + [x];
      ReplayAppend(b, first, init);
      ReplaySnoc(b, first + init, x);
      ReplaySnoc(Replay(b, first).bus, init, x);
    }
  }

  /** The callbacks `ops` subscribes to `t`, in call order. */
  function SubscribedIn(ops: seq<BusOp>, t: Topic): (r: seq<SubId>)
    ensures forall x :: x in r <==> exists j :: 0 <= j < |ops| && ops[j] == Sub(t, x)
    decreases |ops|
  {
    if ops == [] then []
    else
      var last := ops[|ops| - 1];
      var prefix := SubscribedIn(ops[..|ops| - 1], t);
      assert forall j :: 0 <= j < |ops| - 1 ==> ops[..|ops| - 1][j] == ops[j];
      if last.Sub? && last.topic == t then prefix + [last.cb] else prefix
  }

  /** After a run, a topic's list is its old list followed by the callbacks
      the run subscribed to it, in call order. */
  lemma {:induction false} ReplaySubscribers(b: Bus, ops: seq<BusOp>, t: Topic)
    ensures SubscribersOf(Replay(b, ops).bus, t) == SubscribersOf(b, t) + SubscribedIn(ops, t)
    decreases |ops|
  {
    if ops != [] {
      ReplaySubscribers(b, ops[..|ops| - 1], t);
    }
  }

  /** The deliveries of the `k`th call depend only on the calls before it. */
  lemma {:induction false} ReplayPrefix(b: Bus, ops: seq<BusOp>, k: nat)
    requires k < |ops|
    ensures Replay(b, ops).deliveries[k] == Apply(Replay(b, ops[..k]).bus, ops[k]).1
    decreases |ops|
  {
    if k < |ops| - 1 {
      var init := ops[..|ops| - 1];
      ReplayPrefix(b, init, k);
      assert init[..k] == ops[..k];
    } else {
      assert ops[..|ops| - 1] == ops[..k];
    }
  }

  /** Messages are not retained: the `k`th call, a publication of `p` on
      `t`, reaches callback `x` exactly when `x` was subscribed to `t`
      before the run or by one of the calls before the `k`th. A callback
      subscribed later never sees it. */
  lemma MessagesNotRetained(b: Bus, ops: seq<BusOp>, k: nat, x: SubId)
    requires k < |ops| && ops[k].Send?
    ensures Delivery(x, ops[k].payload) in Replay(b, ops).deliveries[k]
            <==> x in SubscribersOf(b, ops[k].topic)
                 || exists j :: 0 <= j < k && ops[j] == Sub(ops[k].topic, x)
  {
    var t, p := ops[k].topic, ops[k].payload;
    var pre := Replay(b, ops[..k]);
    ReplayPrefix(b, ops, k);
    ReplaySubscribers(b, ops[..k], t);
    ReceivesIffSubscribed(pre.bus, t, p, x);
    assert forall j :: 0 <= j < k ==> ops[..k][j] == ops[j];
  }
}
