/**
 Batching of produced messages: what `NSQProducer` hands to the network, when, and that no
 message is lost, repeated or reordered.  Clock readings are parameters, and `net(n)` says whether
 the n-th hand-over succeeds.
 */
module BatchModel {
  import opened Common
  import opened NsqEncoding

  /** A batch that is being collected; all times in milliseconds. */
  datatype Pending = Pending(messages: seq<Bytes>, expire: Option<int>, maxMessages: int, maxBytes: int,
                             maxSeconds: int)

  /** One list handed to `sendBatch`.  If `ok`, the callback is told the number of messages, otherwise
      it is given the messages. */
  datatype Delivery = Delivery(topic: string, messages: seq<Bytes>, ok: bool)

  datatype Producer = Producer(batches: map<string, Pending>, log: seq<Delivery>)

  type Network = nat -> bool

  function NewBatch(maxMessages: Option<int>, maxBytes: Option<int>, maxSeconds: Option<int>): Pending {
    Pending([], None,
            if maxMessages.Some? then maxMessages.value else 500,
            if maxBytes.Some? then maxBytes.value else 974768,
            if maxSeconds.Some? then maxSeconds.value else 30)
  }

  function DefaultBatch(): Pending {
    NewBatch(None, None, None)
  }

  function Cleared(p: Pending): Pending {
    p.(messages := [], expire := None)
  }

  function Added(p: Pending, message: Bytes, now: int): Pending {
    p.(messages := p.messages + [message],
       expire := if p.expire.None? then Some(now + 1000 * p.maxSeconds) else p.expire)
  }

  predicate Full(p: Pending) {
    WireSize(p.messages) >= p.maxBytes || |p.messages| >= p.maxMessages
  }

  predicate Ready(p: Pending, now: int) {
    Full(p) || (p.expire.Some? && p.expire.value < now)
  }

  function Sent(net: Network, log: seq<Delivery>, topic: string, messages: seq<Bytes>): seq<Delivery> {
    if messages == [] then log else log + [Delivery(topic, messages, net(|log|))]
  }

  function BatchOf(s: Producer, topic: string): Pending {
    if topic in s.batches then s.batches[topic] else DefaultBatch()
  }

  /** `now1` is the clock when the message is added, `now2` when the batch is checked. */
  function Produce(net: Network, s: Producer, topic: string, message: Bytes, now1: int, now2: int): Producer {
    var p := Added(BatchOf(s, topic), message, now1);
    if Ready(p, now2) then Producer(s.batches[topic := Cleared(p)], Sent(net, s.log, topic, p.messages))
    else Producer(s.batches[topic := p], s.log)
  }

  /** A batch that was `p` has been offered a message: it is now `q`, and `taken` is what was taken from it. */
  ghost predicate Offered(p: Pending, message: Bytes, now1: int, now2: int, q: Pending, taken: Option<seq<Bytes>>) {
    var full := Added(p, message, now1);
    if Ready(full, now2) then taken == Some(full.messages) && q == Cleared(full) else taken == None && q == full
  }

  lemma ProduceIs(net: Network, s: Producer, topic: string, message: Bytes, now1: int, now2: int,
                  q: Pending, taken: Option<seq<Bytes>>, log: seq<Delivery>)
    requires topic in s.batches && Offered(s.batches[topic], message, now1, now2, q, taken)
    requires log == if taken.Some? then Sent(net, s.log, topic, taken.value) else s.log
    ensures Produce(net, s, topic, message, now1, now2) == Producer(s.batches[topic := q], log)
  {
  }

  function WithBatch(s: Producer, topic: string): Producer {
    if topic in s.batches then s else s.(batches := s.batches[topic := DefaultBatch()])
  }

  lemma ProduceWithBatch(net: Network, s: Producer, topic: string, message: Bytes, now1: int, now2: int)
    ensures Produce(net, WithBatch(s, topic), topic, message, now1, now2) == Produce(net, s, topic, message, now1, now2)
  {
  }

  function Configure(net: Network, s: Producer, topic: string, fresh': Pending): Producer {
    Producer(s.batches[topic := fresh'],
             if topic in s.batches then Sent(net, s.log, topic, s.batches[topic].messages) else s.log)
  }

  function FlushOne(net: Network, s: Producer, topic: string): Producer {
    if topic in s.batches then Producer(s.batches - {topic}, Sent(net, s.log, topic, s.batches[topic].messages)) else s
  }

  /** `order` is the order in which the map happens to enumerate its topics. */
  function Flush(net: Network, s: Producer, order: seq<string>): Producer {
    if order == [] then s else FlushOne(net, Flush(net, s, order[..|order| - 1]), order[|order| - 1])
  }

  // ----- runs -----

  datatype Op =
    | ProduceOp(topic: string, message: Bytes, now1: int, now2: int)
    | ConfigureOp(topic: string, maxMessages: Option<int>, maxBytes: Option<int>, maxSeconds: Option<int>)
    | FlushOp(order: seq<string>)

  function Step(net: Network, s: Producer, op: Op): Producer {
    match op
    case ProduceOp(topic, message, now1, now2) => Produce(net, s, topic, message, now1, now2)
    case ConfigureOp(topic, m, b, t) => Configure(net, s, topic, NewBatch(m, b, t))
    case FlushOp(order) => Flush(net, s, order)
  }

  function Run(net: Network, ops: seq<Op>): Producer {
    if ops == [] then Producer(map[], []) else Step(net, Run(net, ops[..|ops| - 1]), ops[|ops| - 1])
  }

  // ----- conservation -----

  /** All messages produced for a topic, in order. */
  function Produced(ops: seq<Op>, topic: string): seq<Bytes> {
    if ops == [] then []
    else
      var op := ops[|ops| - 1];
      Produced(ops[..|ops| - 1], topic) + (if op.ProduceOp? && op.topic == topic then [op.message] else [])
  }

  /** All messages handed over for a topic, in order. */
  function Handed(log: seq<Delivery>, topic: string): seq<Bytes> {
    if log == [] then []
    else Handed(log[..|log| - 1], topic) + (if log[|log| - 1].topic == topic then log[|log| - 1].messages else [])
  }

  /** What was handed over for a topic and what still waits. */
  function Account(s: Producer, topic: string): seq<Bytes> {
    Handed(s.log, topic) + BatchOf(s, topic).messages
  }

  lemma SentHands(net: Network, log: seq<Delivery>, topic: string, messages: seq<Bytes>, t: string)
    ensures Handed(Sent(net, log, topic, messages), t) == Handed(log, t) + if t == topic then messages else []
  {
    var sent := Sent(net, log, topic, messages);
    if messages != [] {
      assert sent[..|sent| - 1] == log;
    }
  }

  lemma FlushOneKeeps(net: Network, s: Producer, topic: string, t: string)
    ensures Account(FlushOne(net, s, topic), t) == Account(s, t)
  {
    if topic in s.batches {
      SentHands(net, s.log, topic, s.batches[topic].messages, t);
    }
  }

  lemma {:induction false} FlushKeeps(net: Network, s: Producer, order: seq<string>, t: string)
    ensures Account(Flush(net, s, order), t) == Account(s, t)
  {
    if order != [] {
      FlushKeeps(net, s, order[..|order| - 1], t);
      FlushOneKeeps(net, Flush(net, s, order[..|order| - 1]), order[|order| - 1], t);
    }
  }

  lemma ProduceAccounts(net: Network, s: Producer, topic: string, message: Bytes, now1: int, now2: int, t: string)
    ensures Account(Produce(net, s, topic, message, now1, now2), t) ==
            Account(s, t) + if t == topic then [message] else []
  {
    var was := BatchOf(s, topic).messages;
    var p := Added(BatchOf(s, topic), message, now1);
    var after := Produce(net, s, topic, message, now1, now2);
    if t != topic {
      assert BatchOf(after, t) == BatchOf(s, t);
      if Ready(p, now2) {
        SentHands(net, s.log, topic, p.messages, t);
      }
    } else if Ready(p, now2) {
      SentHands(net, s.log, topic, p.messages, t);
      assert Handed(after.log, t) == Handed(s.log, t) + (was + [message]);
      assert BatchOf(after, t).messages == [];
    } else {
      assert BatchOf(after, t).messages == was + [message];
    }
  }

  lemma ConfigureKeeps(net: Network, s: Producer, topic: string, p: Pending, t: string)
    requires p.messages == []
    ensures Account(Configure(net, s, topic, p), t) == Account(s, t)
  {
    if topic in s.batches {
      SentHands(net, s.log, topic, s.batches[topic].messages, t);
    }
  }

  /** For each topic, the lists handed over, in order, followed by the messages still waiting, are
      exactly the messages produced, in order: none lost, repeated or reordered, whatever is configured
      or flushed in between and whether or not the network works. */
  lemma {:induction false} Conservation(net: Network, ops: seq<Op>, topic: string)
    ensures Account(Run(net, ops), topic) == Produced(ops, topic)
  {
    if ops != [] {
      var before := ops[..|ops| - 1];
      var s := Run(net, before);
      Conservation(net, before, topic);
      match ops[|ops| - 1]
      case ProduceOp(t, message, now1, now2) => ProduceAccounts(net, s, t, message, now1, now2, topic);
      case ConfigureOp(t, m, b, x) => ConfigureKeeps(net, s, t, NewBatch(m, b, x), topic);
      case FlushOp(order) => FlushKeeps(net, s, order, topic);
    }
  }

  /** After a flush that enumerates every topic, everything produced has been handed over. */
  lemma FlushHandsAll(net: Network, ops: seq<Op>, order: seq<string>, topic: string)
    requires forall t :: t in Run(net, ops).batches ==> t in order
    ensures Handed(Run(net, ops + [FlushOp(order)]).log, topic) == Produced(ops, topic)
  {
    var all := ops + [FlushOp(order)];
    assert all[..|all| - 1] == ops;
    Conservation(net, all, topic);
    FlushEmpties(net, Run(net, ops), order);
    var s := Run(net, all);
    assert topic !in s.batches;
    assert Account(s, topic) == Handed(s.log, topic) + [] == Handed(s.log, topic);
    assert Produced(all, topic) == Produced(ops, topic) + [] == Produced(ops, topic);
  }

  lemma {:induction false} FlushEmpties(net: Network, s: Producer, order: seq<string>)
    ensures Flush(net, s, order).batches == s.batches - (set t | t in order)
  {
    if order == [] {
      assert s.batches - {} == s.batches;
    } else {
      var n := |order| - 1;
      FlushEmpties(net, s, order[..n]);
      assert (set t | t in order) == (set t | t in order[..n]) + {order[n]} by {
        assert order == order[..n] + [order[n]];
      }
    }
  }

  // ----- limits -----

  /** Between calls no batch is full: it is empty, or below both limits. */
  ghost predicate Waiting(p: Pending) {
    (p.messages == [] && p.expire.None?) || (p.messages != [] && p.expire.Some? && !Full(p))
  }

  ghost predicate AllWaiting(s: Producer) {
    forall t :: t in s.batches ==> Waiting(s.batches[t])
  }

  lemma {:induction false} FlushWaiting(net: Network, s: Producer, order: seq<string>)
    requires AllWaiting(s)
    ensures AllWaiting(Flush(net, s, order))
  {
    if order != [] {
      FlushWaiting(net, s, order[..|order| - 1]);
    }
  }

  lemma {:induction false} RunWaiting(net: Network, ops: seq<Op>)
    ensures AllWaiting(Run(net, ops))
  {
    if ops != [] {
      RunWaiting(net, ops[..|ops| - 1]);
      var s := Run(net, ops[..|ops| - 1]);
      match ops[|ops| - 1]
      case ProduceOp(t, message, now1, now2) =>
      case ConfigureOp(t, m, b, x) =>
      case FlushOp(order) => FlushWaiting(net, s, order);
    }
  }

  /** The limits a batch works with. */
  ghost predicate HasLimits(p: Pending, maxMessages: int, maxBytes: int, maxSeconds: int) {
    p.maxMessages == maxMessages && p.maxBytes == maxBytes && p.maxSeconds == maxSeconds
  }

  predicate Configures(op: Op, topic: string) {
    op.ConfigureOp? && op.topic == topic
  }

  predicate Flushes(op: Op, topic: string) {
    op.FlushOp? && topic in op.order
  }

  lemma {:induction false} StepKeepsLimits(net: Network, s: Producer, op: Op, topic: string)
    requires !Configures(op, topic) && !Flushes(op, topic)
    ensures var p := BatchOf(s, topic);
      HasLimits(BatchOf(Step(net, s, op), topic), p.maxMessages, p.maxBytes, p.maxSeconds)
  {
    if op.FlushOp? {
      FlushEmpties(net, s, op.order);
      FlushLeaves(net, s, op.order, topic);
    }
  }

  lemma {:induction false} FlushLeaves(net: Network, s: Producer, order: seq<string>, topic: string)
    requires topic !in order
    ensures topic in s.batches <==> topic in Flush(net, s, order).batches
    ensures BatchOf(Flush(net, s, order), topic) == BatchOf(s, topic)
  {
    if order != [] {
      FlushLeaves(net, s, order[..|order| - 1], topic);
    }
  }

  /** Each limit given to the last configuration of a topic, the `i`-th operation, holds for its batch, and a
      default for each limit not given, however often the batch has been sent since, until a flush drops it. */
  lemma {:induction false} ConfiguredLimits(net: Network, ops: seq<Op>, i: nat, topic: string)
    requires i < |ops| && Configures(ops[i], topic)
    requires forall j :: i < j < |ops| ==> !Configures(ops[j], topic) && !Flushes(ops[j], topic)
    ensures var p := BatchOf(Run(net, ops), topic);
      && (ops[i].maxMessages.Some? ==> p.maxMessages == ops[i].maxMessages.value)
      && (ops[i].maxMessages.None? ==> p.maxMessages == 500)
      && (ops[i].maxBytes.Some? ==> p.maxBytes == ops[i].maxBytes.value)
      && (ops[i].maxBytes.None? ==> p.maxBytes == 1024768 - 50000)
      && (ops[i].maxSeconds.Some? ==> p.maxSeconds == ops[i].maxSeconds.value)
      && (ops[i].maxSeconds.None? ==> p.maxSeconds == 30)
  {
    var n := |ops| - 1;
    if i < n {
      ConfiguredLimits(net, ops[..n], i, topic);
      StepKeepsLimits(net, Run(net, ops[..n]), ops[n], topic);
    }
  }

  /** A topic that was never configured, or not since it was flushed, has the default limits. */
  lemma {:induction false} DefaultLimits(net: Network, ops: seq<Op>, topic: string)
    requires forall i :: 0 <= i < |ops| && Configures(ops[i], topic) ==>
      exists j :: i < j < |ops| && Flushes(ops[j], topic)
    ensures HasLimits(BatchOf(Run(net, ops), topic), 500, 1024768 - 50000, 30)
  {
    if ops != [] {
      var n := |ops| - 1;
      var s := Run(net, ops[..n]);
      if Flushes(ops[n], topic) {
        FlushEmpties(net, s, ops[n].order);
      } else {
        forall i | 0 <= i < n && Configures(ops[..n][i], topic)
          ensures exists j :: i < j < n && Flushes(ops[..n][j], topic)
        {
          assert Configures(ops[i], topic);
          var j :| i < j < |ops| && Flushes(ops[j], topic);
          assert Flushes(ops[..n][j], topic);
        }
        DefaultLimits(net, ops[..n], topic);
        StepKeepsLimits(net, s, ops[n], topic);
      }
    }
  }

  /** When the batch expires once the message is added at `now`. */
  function Deadline(p: Pending, now: int): int {
    if p.expire.Some? then p.expire.value else now + 1000 * p.maxSeconds
  }

  /** When a `produceBatch` sends, after any run: the list is the waiting messages and the new one; it
      has at most `maxMessages` messages, and its size before the last message was below `maxBytes`,
      unless the message is alone.  It sends exactly when a limit is reached or the batch has expired. */
  lemma AutomaticSend(net: Network, ops: seq<Op>, topic: string, message: Bytes, now1: int, now2: int)
    ensures
      var s := Run(net, ops);
      var t := Produce(net, s, topic, message, now1, now2);
      var p := BatchOf(s, topic);
      var sent := p.messages + [message];
      && (p.messages == [] <==> p.expire.None?)
      && (if |sent| < p.maxMessages && WireSize(sent) < p.maxBytes && now2 <= Deadline(p, now1) then
            t.log == s.log && BatchOf(t, topic).messages == sent && BatchOf(t, topic).expire == Some(Deadline(p, now1))
          else
            && t.log == s.log + [Delivery(topic, sent, net(|s.log|))]
            && BatchOf(t, topic).messages == []
            && (sent == [message] || (|sent| <= p.maxMessages && WireSize(p.messages) < p.maxBytes)))
  {
    RunWaiting(net, ops);
    var s := Run(net, ops);
    assert Waiting(BatchOf(s, topic));
    SendsOverLimit(net, s, topic, message, now1, now2);
  }

  lemma SendsOverLimit(net: Network, s: Producer, topic: string, message: Bytes, now1: int, now2: int)
    ensures
      var t := Produce(net, s, topic, message, now1, now2);
      var p := BatchOf(s, topic);
      var sent := p.messages + [message];
      if |sent| < p.maxMessages && WireSize(sent) < p.maxBytes && now2 <= Deadline(p, now1) then
        t.log == s.log && BatchOf(t, topic).messages == sent && BatchOf(t, topic).expire == Some(Deadline(p, now1))
      else t.log == s.log + [Delivery(topic, sent, net(|s.log|))] && BatchOf(t, topic).messages == []
  {
  }
}
