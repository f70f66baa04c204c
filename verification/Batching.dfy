/**
 The classes `Batch` and `NSQProducer`: every operation is shown to compute the function of
 `BatchModel` that carries its laws.
 */
module Batching {
  import opened Common
  import opened NsqEncoding
  import opened BatchModel

  class Batch {
    var maxBytes: int
    var maxMessages: int
    var maxSeconds: int
    const topic: string
    var totalMessages: int
    var totalBytes: int
    var expire: Option<int>
    var messages: seq<Bytes>

    /** `totalBytes` is what the messages take on the wire. */
    ghost predicate Valid()
      reads this
    {
      totalMessages == |messages| && totalBytes == WireSize(messages)
    }

    ghost function Shown(): Pending
      reads this
    {
      Pending(messages, expire, maxMessages, maxBytes, maxSeconds)
    }

    constructor (topic: string)
      ensures Valid() && Shown() == DefaultBatch() && this.topic == topic
    {
      this.topic := topic;
      maxBytes, maxMessages, maxSeconds := 1024768 - 50000, 500, 30;
      messages := [];
      new;
      var _ := GetAndClear();
    }

    method AddMessage(bytes: Bytes, now: int)
      requires Valid()
      modifies this
      ensures Valid() && Shown() == Added(old(Shown()), bytes, now)
    {
      if expire == None {
        expire := Some(now + 1000 * maxSeconds);
      }
      totalMessages := totalMessages + 1;
      totalBytes := totalBytes + |bytes|;
      totalBytes := totalBytes + 4;
      messages := messages + [bytes];
    }

    method GetAndClearIfReady(now: int) returns (r: Option<seq<Bytes>>)
      requires Valid()
      modifies this
      ensures Valid()
      ensures if Ready(old(Shown()), now) then r == Some(old(messages)) && Shown() == Cleared(old(Shown()))
              else r == None && Shown() == old(Shown())
    {
      if totalBytes >= maxBytes {
        var m := GetAndClear();
        return Some(m);
      }
      if totalMessages >= maxMessages {
        var m := GetAndClear();
        return Some(m);
      }
      if expire.Some? && expire.value < now {
        var m := GetAndClear();
        return Some(m);
      }
      return None;
    }

    method GetAndClear() returns (r: seq<Bytes>)
      modifies this
      ensures Valid() && r == old(messages) && Shown() == Cleared(old(Shown()))
    {
      totalBytes := 4;
      totalMessages := 0;
      expire := None;
      r := messages;
      messages := [];
    }
  }

  class NSQProducer {
    var batches: map<string, Batch>

    // what was handed to the network and the callbacks, and which hand-overs succeed
    var log: seq<Delivery>
    const net: Network

    constructor (net: Network)
      ensures Valid() && Now() == Producer(map[], []) && this.net == net
    {
      batches, log := map[], [];
      this.net := net;
    }

    ghost predicate Valid()
      reads this, batches.Values
    {
      && (forall t :: t in batches ==> batches[t].Valid() && batches[t].topic == t)
      && (forall t, u :: t in batches && u in batches && t != u ==> batches[t] != batches[u])
    }

    ghost function Now(): Producer
      reads this, batches.Values
    {
      Producer(map t | t in batches :: batches[t].Shown(), log)
    }

    method SendBatch(batch: Batch, messages: seq<Bytes>)
      modifies `log
      ensures log == Sent(net, old(log), batch.topic, messages)
    {
      if |messages| == 0 {
        return;
      }
      log := log + [Delivery(batch.topic, messages, net(|log|))];
    }

    static method Configured(topic: string, maxMessages: Option<int>, maxBytes: Option<int>, maxSeconds: Option<int>)
      returns (batch: Batch)
      ensures fresh(batch) && batch.Valid() && batch.topic == topic
      ensures batch.Shown() == NewBatch(maxMessages, maxBytes, maxSeconds)
    {
      batch := new Batch(topic);
      if maxBytes.Some? {
        batch.maxBytes := maxBytes.value;
      }
      if maxMessages.Some? {
        batch.maxMessages := maxMessages.value;
      }
      if maxSeconds.Some? {
        batch.maxSeconds := maxSeconds.value;
      }
    }

    method ConfigureBatch(topic: string, maxMessages: Option<int>, maxBytes: Option<int>, maxSeconds: Option<int>)
      requires Valid()
      modifies this, batches.Values
      ensures Valid() && fresh(batches.Values - old(batches.Values))
      ensures Now() == Configure(net, old(Now()), topic, NewBatch(maxMessages, maxBytes, maxSeconds))
    {
      ghost var start := Now();
      var batch := Configured(topic, maxMessages, maxBytes, maxSeconds);
      assert Now() == start;
      if topic in batches {
        var previous := batches[topic];
        Install(topic, batch);
        HandOver(previous);
      } else {
        Install(topic, batch);
      }
    }

    /** `sendBatch(old, old.getAndClear())` for a batch that is no longer in the map. */
    method HandOver(batch: Batch)
      requires Valid() && batch !in batches.Values
      modifies `log, batch
      ensures Valid()
      ensures Now() == Producer(old(Now()).batches, Sent(net, old(log), batch.topic, old(batch.messages)))
    {
      var messages := batch.GetAndClear();
      SendBatch(batch, messages);
    }

    /** `batches.put(topic, batch)` for a batch nobody else holds. */
    method Install(topic: string, batch: Batch)
      requires Valid() && batch.Valid() && batch.topic == topic && batch !in batches.Values
      modifies `batches
      ensures Valid() && batches == old(batches)[topic := batch]
      ensures Now() == Producer(old(Now()).batches[topic := batch.Shown()], log)
      ensures topic in old(batches) ==> old(batches)[topic] !in batches.Values
    {
      batches := batches[topic := batch];
    }

    method ProduceBatch(topic: string, message: Bytes, now1: int, now2: int)
      requires Valid()
      modifies this, batches.Values
      ensures Valid() && fresh(batches.Values - old(batches.Values))
      ensures Now() == Produce(net, old(Now()), topic, message, now1, now2)
    {
      ghost var start := Now();
      Find(topic);
      ProduceWithBatch(net, start, topic, message, now1, now2);
      Collect(topic, message, now1, now2);
    }

    /** The part of `produceBatch` that finds the batch, or puts a default one. */
    method Find(topic: string)
      requires Valid()
      modifies `batches
      ensures Valid() && topic in batches && Now() == WithBatch(old(Now()), topic)
      ensures fresh(batches.Values - old(batches.Values))
      ensures topic in old(batches) ==> batches == old(batches)
    {
      if topic !in batches {
        var def := new Batch(topic);
        Install(topic, def);
      }
    }

    static method Offer(batch: Batch, message: Bytes, now1: int, now2: int) returns (messages: Option<seq<Bytes>>)
      requires batch.Valid()
      modifies batch
      ensures batch.Valid() && Offered(old(batch.Shown()), message, now1, now2, batch.Shown(), messages)
    {
      batch.AddMessage(message, now1);
      messages := batch.GetAndClearIfReady(now2);
    }

    /** The message is added to the batch of the topic, and the batch emptied if it is ready. */
    method OfferTo(topic: string, message: Bytes, now1: int, now2: int) returns (messages: Option<seq<Bytes>>)
      requires Valid() && topic in batches
      modifies batches[topic]
      ensures Valid() && Now() == Producer(old(Now()).batches[topic := batches[topic].Shown()], log)
      ensures Offered(old(batches[topic].Shown()), message, now1, now2, batches[topic].Shown(), messages)
    {
      ghost var start := Now();
      var batch := batches[topic];
      messages := Offer(batch, message, now1, now2);
      assert Now().batches == start.batches[topic := batch.Shown()];
    }

    /** The part of `produceBatch` after the batch has been found. */
    method Collect(topic: string, message: Bytes, now1: int, now2: int)
      requires Valid() && topic in batches
      modifies `log, batches[topic]
      ensures Valid() && Now() == Produce(net, old(Now()), topic, message, now1, now2)
    {
      ghost var start := Now();
      var messages := OfferTo(topic, message, now1, now2);
      if messages.Some? {
        SendBatch(batches[topic], messages.value);
      }
      ProduceIs(net, start, topic, message, now1, now2, batches[topic].Shown(), messages, log);
    }

    /** One round of the loop of `flushBatches`. */
    method FlushTopic(k: string)
      requires Valid()
      modifies this, batches.Values
      ensures Valid() && batches == old(batches) - {k}
      ensures Now() == FlushOne(net, old(Now()), k)
    {
      if k in batches {
        var b := batches[k];
        batches := batches - {k};
        assert Now() == Producer(old(Now()).batches - {k}, log);
        HandOver(b);
      }
    }

    /** `order` tells in which order the topics were visited. */
    method FlushBatches() returns (ghost order: seq<string>)
      requires Valid()
      modifies this, batches.Values
      ensures Valid() && batches == map[]
      ensures Now() == Flush(net, old(Now()), order)
    {
      order := [];
      var keys := batches.Keys;
      while keys != {}
        invariant Valid() && batches.Keys == keys && batches.Values <= old(batches.Values)
        invariant Now() == Flush(net, old(Now()), order)
      {
        var k :| k in keys;
        FlushTopic(k);
        keys := keys - {k};
        assert (order + [k])[..|order|] == order;
        order := order + [k];
      }
    }
  }
}
