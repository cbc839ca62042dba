/** What a collection sends, spelled out metric by metric from ZooKeeper's answers and the two
    filters. Nothing below is stated through the functions that the collector follows. */
module CollectedMetrics {
  import opened Wrappers
  import opened Sequences
  import opened GoStrings
  import opened KafkaMetrics
  import opened FanOut
  import opened CollectorRuns

  // ---- The metrics of each answer ---------------------------------------------------------------------

  /** Of a replica: whether it is in sync. */
  predicate OfReplica(topic: string, id: int, replica: int, isr: seq<int>, m: Metric) {
    m == Metric(PartitionISR, [topic, Sprint(id), Sprint(replica)], if replica in isr then 1 else 0)
  }

  /** Of a partition: the number of its replicas, its leader, whether that is the preferred one, and
      its replicas. */
  ghost predicate OfPartition(topic: string, p: Partition, m: Metric) {
    || m == Metric(PartitionReplicaCount, [topic, Sprint(p.id)], |p.replicas|)
    || (p.leader.Ok? && m == Metric(PartitionLeader, [topic, Sprint(p.id), Sprint(p.leader.value)], 1))
    || (p.leader.Ok? &&
        m == Metric(PartitionUsesPreferredReplica, [topic, Sprint(p.id)], if p.leader.value == p.preferred then 1 else 0))
    || (p.isr.Ok? && exists i :: 0 <= i < |p.replicas| && OfReplica(topic, p.id, p.replicas[i], p.isr.value, m))
  }

  /** Of a topic: the number of its partitions, and their metrics. */
  ghost predicate OfTopic(t: Topic, m: Metric) {
    && t.partitions.Ok?
    && (|| m == Metric(TopicPartitions, [t.name], |t.partitions.value|)
        || exists i :: 0 <= i < |t.partitions.value| && OfPartition(t.name, t.partitions.value[i], m))
  }

  /** Of the offsets of one topic: each partition's. */
  ghost predicate OfOffsets(consumer: string, o: TopicOffsets, m: Metric) {
    exists i :: 0 <= i < |o.parts| && m == Metric(ConsumersOffsets, [consumer, o.topic, Sprint(o.parts[i].0)], o.parts[i].1)
  }

  /** Of a consumer group: its offsets for the topics asked for. No filter asks for all. */
  ghost predicate OfConsumer(topics: seq<string>, c: Consumer, m: Metric) {
    && c.offsets.Ok?
    && exists i :: 0 <= i < |c.offsets.value|
                   && (topics == [] || c.offsets.value[i].topic in topics)
                   && OfOffsets(c.name, c.offsets.value[i], m)
  }

  /** Of the whole cluster: the controller, the topics asked for and the consumer groups asked for. */
  ghost predicate Collected(z: ZooKeeper, topics: seq<string>, consumers: seq<string>, m: Metric) {
    || (z.controller.Ok? && m == Metric(Controller, [Sprint(z.controller.value)], 1))
    || (z.topics.Ok? && exists i :: 0 <= i < |z.topics.value|
                                    && (topics == [] || z.topics.value[i].name in topics) && OfTopic(z.topics.value[i], m))
    || (z.consumers.Ok? && exists i :: 0 <= i < |z.consumers.value|
                                       && (consumers == [] || z.consumers.value[i].name in consumers)
                                       && OfConsumer(topics, z.consumers.value[i], m))
  }

  // ---- They are what is sent ------------------------------------------------------------------------------

  lemma {:induction false} ReplicasSentIff(topic: string, p: Partition, isr: seq<int>, replicas: seq<int>, m: Metric)
    ensures m in ReplicaSends(topic, p, isr, replicas)
            <==> exists i :: 0 <= i < |replicas| && OfReplica(topic, p.id, replicas[i], isr, m)
  {
    if replicas == [] {
    } else {
      var rest := replicas[1..];
      ReplicasSentIff(topic, p, isr, rest, m);
      assert m == InSync(topic, p, isr, replicas[0]) <==> OfReplica(topic, p.id, replicas[0], isr, m);
      if i :| 0 <= i < |rest| && OfReplica(topic, p.id, rest[i], isr, m) {
        assert OfReplica(topic, p.id, replicas[i + 1], isr, m);
      }
      if i :| 0 < i < |replicas| && OfReplica(topic, p.id, replicas[i], isr, m) {
        assert OfReplica(topic, p.id, rest[i - 1], isr, m);
      }
    }
  }

  lemma PartitionSentIff(topic: string, p: Partition, m: Metric)
    ensures m in PartitionSends(topic, p) <==> OfPartition(topic, p, m)
  {
    if p.isr.Ok? {
      ReplicasSentIff(topic, p, p.isr.value, p.replicas, m);
    }
  }

  lemma {:induction false} PartitionsSentIff(topic: string, ps: seq<Partition>, m: Metric)
    ensures m in AllPartitionSends(topic, ps) <==> exists i :: 0 <= i < |ps| && OfPartition(topic, ps[i], m)
  {
    if ps == [] {
    } else {
      var rest := ps[1..];
      PartitionsSentIff(topic, rest, m);
      PartitionSentIff(topic, ps[0], m);
      if i :| 0 <= i < |rest| && OfPartition(topic, rest[i], m) {
        assert OfPartition(topic, ps[i + 1], m);
      }
      if i :| 0 < i < |ps| && OfPartition(topic, ps[i], m) {
        assert OfPartition(topic, rest[i - 1], m);
      }
    }
  }

  lemma TopicSentIff(t: Topic, m: Metric)
    ensures m in TopicSends(t) <==> OfTopic(t, m)
  {
    if t.partitions.Ok? {
      PartitionsSentIff(t.name, t.partitions.value, m);
    }
  }

  lemma {:induction false} TopicsSentIff(topics: seq<string>, ts: seq<Topic>, m: Metric)
    ensures m in AllTopicSends(topics, ts)
            <==> exists i :: 0 <= i < |ts| && (topics == [] || ts[i].name in topics) && OfTopic(ts[i], m)
  {
    if ts == [] {
    } else {
      var rest := ts[1..];
      TopicsSentIff(topics, rest, m);
      TopicSentIff(ts[0], m);
      if i :| 0 <= i < |rest| && (topics == [] || rest[i].name in topics) && OfTopic(rest[i], m) {
        assert OfTopic(ts[i + 1], m);
      }
      if i :| 0 < i < |ts| && (topics == [] || ts[i].name in topics) && OfTopic(ts[i], m) {
        assert OfTopic(rest[i - 1], m);
      }
    }
  }

  lemma {:induction false} PartOffsetsSentIff(consumer: string, topic: string, parts: seq<(int, int)>, m: Metric)
    ensures m in PartOffsetSends(consumer, topic, parts) <==> OfOffsets(consumer, TopicOffsets(topic, parts), m)
  {
    if parts == [] {
    } else {
      var o, rest := TopicOffsets(topic, parts), parts[1..];
      PartOffsetsSentIff(consumer, topic, rest, m);
      assert m == Offset(consumer, topic, parts[0]) <==> m == Metric(ConsumersOffsets, [consumer, o.topic, Sprint(o.parts[0].0)], o.parts[0].1);
      if OfOffsets(consumer, TopicOffsets(topic, rest), m) {
        var i :| 0 <= i < |rest| && m == Metric(ConsumersOffsets, [consumer, topic, Sprint(rest[i].0)], rest[i].1);
        assert m == Metric(ConsumersOffsets, [consumer, o.topic, Sprint(o.parts[i + 1].0)], o.parts[i + 1].1);
      }
      if i :| 0 < i < |parts| && m == Metric(ConsumersOffsets, [consumer, o.topic, Sprint(o.parts[i].0)], o.parts[i].1) {
        var later := TopicOffsets(topic, rest);
        assert m == Metric(ConsumersOffsets, [consumer, later.topic, Sprint(later.parts[i - 1].0)], later.parts[i - 1].1);
      }
    }
  }

  lemma {:induction false} OffsetsSentIff(topics: seq<string>, consumer: string, os: seq<TopicOffsets>, m: Metric)
    ensures m in OffsetSends(topics, consumer, os)
            <==> exists i :: 0 <= i < |os| && (topics == [] || os[i].topic in topics) && OfOffsets(consumer, os[i], m)
  {
    if os == [] {
    } else {
      var rest := os[1..];
      OffsetsSentIff(topics, consumer, rest, m);
      PartOffsetsSentIff(consumer, os[0].topic, os[0].parts, m);
      assert os[0] == TopicOffsets(os[0].topic, os[0].parts);
      if i :| 0 <= i < |rest| && (topics == [] || rest[i].topic in topics) && OfOffsets(consumer, rest[i], m) {
        assert OfOffsets(consumer, os[i + 1], m);
      }
      if i :| 0 < i < |os| && (topics == [] || os[i].topic in topics) && OfOffsets(consumer, os[i], m) {
        assert OfOffsets(consumer, rest[i - 1], m);
      }
    }
  }

  lemma ConsumerSentIff(topics: seq<string>, c: Consumer, m: Metric)
    ensures m in ConsumerSends(topics, c) <==> OfConsumer(topics, c, m)
  {
    if c.offsets.Ok? {
      OffsetsSentIff(topics, c.name, c.offsets.value, m);
    }
  }

  lemma {:induction false} ConsumersSentIff(topics: seq<string>, consumers: seq<string>, cs: seq<Consumer>, m: Metric)
    ensures m in AllConsumerSends(topics, consumers, cs)
            <==> exists i :: 0 <= i < |cs| && (consumers == [] || cs[i].name in consumers) && OfConsumer(topics, cs[i], m)
  {
    if cs == [] {
    } else {
      var rest := cs[1..];
      ConsumersSentIff(topics, consumers, rest, m);
      ConsumerSentIff(topics, cs[0], m);
      if i :| 0 <= i < |rest| && (consumers == [] || rest[i].name in consumers) && OfConsumer(topics, rest[i], m) {
        assert OfConsumer(topics, cs[i + 1], m);
      }
      if i :| 0 < i < |cs| && (consumers == [] || cs[i].name in consumers) && OfConsumer(topics, cs[i], m) {
        assert OfConsumer(topics, rest[i - 1], m);
      }
    }
  }

  /** Run sequentially, a collection sends exactly the metrics of the answers. */
  lemma SentIffCollected(z: ZooKeeper, topics: seq<string>, consumers: seq<string>, m: Metric)
    ensures m in SequentialSends(z, topics, consumers) <==> Collected(z, topics, consumers, m)
  {
    if z.topics.Ok? {
      TopicsSentIff(topics, z.topics.value, m);
    }
    if z.consumers.Ok? {
      ConsumersSentIff(topics, consumers, z.consumers.value, m);
    }
  }

  // ---- Under every schedule -----------------------------------------------------------------------------

  /** Some fetch failed: of the controller, of a list, of the partitions of a topic asked for, of the
      leader or the replicas in sync of one of its partitions, or of the offsets of a consumer group
      asked for. */
  ghost predicate SomeFetchFails(z: ZooKeeper, topics: seq<string>, consumers: seq<string>) {
    || z.controller == Err || z.topics == Err || z.consumers == Err
    || (exists i :: 0 <= i < |z.topics.value| && (topics == [] || z.topics.value[i].name in topics)
                    && (z.topics.value[i].partitions == Err
                        || exists j :: 0 <= j < |z.topics.value[i].partitions.value|
                                       && (z.topics.value[i].partitions.value[j].leader == Err
                                           || z.topics.value[i].partitions.value[j].isr == Err)))
    || (exists k :: 0 <= k < |z.consumers.value| && (consumers == [] || z.consumers.value[k].name in consumers)
                    && z.consumers.value[k].offsets == Err)
  }

  /** Every complete interleaving of a fresh collector sends exactly the metrics of the answers, and
      then the gauge: 1 if some fetch failed and 0 if none did. */
  lemma EveryScheduleSends(z: ZooKeeper, topics: seq<string>, consumers: seq<string>, schedule: seq<Choice>) returns (body: seq<Metric>)
    requires Possible(Start(z, topics, consumers, 0), schedule)
    requires Finished(Exec(Start(z, topics, consumers, 0), schedule))
    ensures forall m :: m in body <==> Collected(z, topics, consumers, m)
    ensures Exec(Start(z, topics, consumers, 0), schedule).out
            == body + [Metric(ZookeeperScrapeError, [], if SomeFetchFails(z, topics, consumers) then 1 else 0)]
  {
    body := EveryScheduleAgrees(z, topics, consumers, 0, schedule);
    SomeFetchFailsIff(z, topics, consumers);
    SameMembers(body, SequentialSends(z, topics, consumers));
    AllCollected(z, topics, consumers);
  }

  lemma AllCollected(z: ZooKeeper, topics: seq<string>, consumers: seq<string>)
    ensures forall m :: m in SequentialSends(z, topics, consumers) <==> Collected(z, topics, consumers, m)
  {
    forall m
      ensures m in SequentialSends(z, topics, consumers) <==> Collected(z, topics, consumers, m)
    {
      SentIffCollected(z, topics, consumers, m);
    }
  }

  lemma SomeFetchFailsIff(z: ZooKeeper, topics: seq<string>, consumers: seq<string>)
    ensures SomeFetchFails(z, topics, consumers) <==> FetchFailed(z, topics, consumers)
  {
    FetchFailedIff(z, topics, consumers);
  }
}
