/** What the Kafka exporter reads from ZooKeeper and what it sends, metric by metric, when the
    goroutines of one collection run one after the other. */
module KafkaMetrics {
  import opened Wrappers
  import opened GoStrings

  /** The metric families, in the order of the descriptors. */
  datatype Family =
    | TopicPartitions
    | PartitionUsesPreferredReplica
    | PartitionLeader
    | PartitionReplicaCount
    | PartitionISR
    | Controller
    | ConsumersOffsets
    | ZookeeperScrapeError

  datatype Metric = Metric(family: Family, labels: seq<string>, value: int)

  function Gauge(value: int): Metric {
    Metric(ZookeeperScrapeError, [], value)
  }

  // ---- ZooKeeper's answers ------------------------------------------------------------------------

  datatype Partition = Partition(id: int, replicas: seq<int>, preferred: int, leader: Result<int>, isr: Result<seq<int>>)

  datatype Topic = Topic(name: string, partitions: Result<seq<Partition>>)

  /** The offsets of one topic, in the order in which the map is traversed. */
  datatype TopicOffsets = TopicOffsets(topic: string, parts: seq<(int, int)>)

  datatype Consumer = Consumer(name: string, offsets: Result<seq<TopicOffsets>>)

  datatype ZooKeeper = ZooKeeper(
    controller: Result<int>,
    topics: Result<seq<Topic>>,
    consumers: Result<seq<Consumer>>)

  predicate Selected(filter: seq<string>, name: string) {
    |filter| > 0 ==> name in filter
  }

  // ---- What is sent ----------------------------------------------------------------------------------

  function ControllerSends(controller: Result<int>): seq<Metric> {
    match controller
    case Err => []
    case Ok(broker) => [Metric(Controller, [Sprint(broker)], 1)]
  }

  function LeaderSends(topic: string, p: Partition): seq<Metric> {
    match p.leader
    case Err => []
    case Ok(leader) =>
      [Metric(PartitionLeader, [topic, Sprint(p.id), Sprint(leader)], 1),
       Metric(PartitionUsesPreferredReplica, [topic, Sprint(p.id)], if leader == p.preferred then 1 else 0)]
  }

  function InSync(topic: string, p: Partition, isr: seq<int>, replica: int): Metric {
    Metric(PartitionISR, [topic, Sprint(p.id), Sprint(replica)], if replica in isr then 1 else 0)
  }

  function ReplicaSends(topic: string, p: Partition, isr: seq<int>, replicas: seq<int>): seq<Metric> {
    if replicas == [] then []
    else [InSync(topic, p, isr, replicas[0])] + ReplicaSends(topic, p, isr, replicas[1..])
  }

  function IsrSends(topic: string, p: Partition): seq<Metric> {
    match p.isr
    case Err => []
    case Ok(isr) => ReplicaSends(topic, p, isr, p.replicas)
  }

  function ReplicaCount(topic: string, p: Partition): Metric {
    Metric(PartitionReplicaCount, [topic, Sprint(p.id)], |p.replicas|)
  }

  function PartitionSends(topic: string, p: Partition): seq<Metric> {
    [ReplicaCount(topic, p)] + (LeaderSends(topic, p) + IsrSends(topic, p))
  }

  function AllPartitionSends(topic: string, ps: seq<Partition>): seq<Metric> {
    if ps == [] then [] else PartitionSends(topic, ps[0]) + AllPartitionSends(topic, ps[1..])
  }

  function TopicSends(t: Topic): seq<Metric> {
    match t.partitions
    case Err => []
    case Ok(ps) => [Metric(TopicPartitions, [t.name], |ps|)] + AllPartitionSends(t.name, ps)
  }

  function AllTopicSends(filter: seq<string>, ts: seq<Topic>): seq<Metric> {
    if ts == [] then []
    else (if Selected(filter, ts[0].name) then TopicSends(ts[0]) else []) + AllTopicSends(filter, ts[1..])
  }

  function Offset(consumer: string, topic: string, part: (int, int)): Metric {
    Metric(ConsumersOffsets, [consumer, topic, Sprint(part.0)], part.1)
  }

  function PartOffsetSends(consumer: string, topic: string, parts: seq<(int, int)>): seq<Metric> {
    if parts == [] then [] else [Offset(consumer, topic, parts[0])] + PartOffsetSends(consumer, topic, parts[1..])
  }

  function OffsetSends(filter: seq<string>, consumer: string, offsets: seq<TopicOffsets>): seq<Metric> {
    if offsets == [] then []
    else
      (if Selected(filter, offsets[0].topic) then PartOffsetSends(consumer, offsets[0].topic, offsets[0].parts) else [])
      + OffsetSends(filter, consumer, offsets[1..])
  }

  function ConsumerSends(filter: seq<string>, c: Consumer): seq<Metric> {
    match c.offsets
    case Err => []
    case Ok(offsets) => OffsetSends(filter, c.name, offsets)
  }

  function AllConsumerSends(topics: seq<string>, consumers: seq<string>, cs: seq<Consumer>): seq<Metric> {
    if cs == [] then []
    else
      (if Selected(consumers, cs[0].name) then ConsumerSends(topics, cs[0]) else [])
      + AllConsumerSends(topics, consumers, cs[1..])
  }

  function TopicAnswerSends(topics: seq<string>, answer: Result<seq<Topic>>): seq<Metric> {
    match answer
    case Err => []
    case Ok(ts) => AllTopicSends(topics, ts)
  }

  function ConsumerAnswerSends(topics: seq<string>, consumers: seq<string>, answer: Result<seq<Consumer>>): seq<Metric> {
    match answer
    case Err => []
    case Ok(cs) => AllConsumerSends(topics, consumers, cs)
  }

  /** Everything one collection sends before the scrape-error gauge, in sequential order. */
  function SequentialSends(z: ZooKeeper, topics: seq<string>, consumers: seq<string>): seq<Metric> {
    ControllerSends(z.controller)
    + (TopicAnswerSends(topics, z.topics)
    + ConsumerAnswerSends(topics, consumers, z.consumers))
  }

  // ---- The gauge is none of them ---------------------------------------------------------------------

  predicate NoGauge(ms: seq<Metric>) {
    forall m :: m in ms ==> m.family != ZookeeperScrapeError
  }

  lemma {:induction false} ReplicasNoGauge(topic: string, p: Partition, isr: seq<int>, replicas: seq<int>)
    ensures NoGauge(ReplicaSends(topic, p, isr, replicas))
  {
    if replicas == [] {
    } else {
      ReplicasNoGauge(topic, p, isr, replicas[1..]);
    }
  }

  lemma {:induction false} PartitionsNoGauge(topic: string, ps: seq<Partition>)
    ensures NoGauge(AllPartitionSends(topic, ps))
  {
    if ps == [] {
    } else {
      if ps[0].isr.Ok? {
        ReplicasNoGauge(topic, ps[0], ps[0].isr.value, ps[0].replicas);
      }
      PartitionsNoGauge(topic, ps[1..]);
    }
  }

  lemma {:induction false} TopicsNoGauge(filter: seq<string>, ts: seq<Topic>)
    ensures NoGauge(AllTopicSends(filter, ts))
  {
    if ts == [] {
    } else {
      if ts[0].partitions.Ok? {
        PartitionsNoGauge(ts[0].name, ts[0].partitions.value);
      }
      TopicsNoGauge(filter, ts[1..]);
    }
  }

  lemma {:induction false} PartsNoGauge(consumer: string, topic: string, parts: seq<(int, int)>)
    ensures NoGauge(PartOffsetSends(consumer, topic, parts))
  {
    if parts == [] {
    } else {
      PartsNoGauge(consumer, topic, parts[1..]);
    }
  }

  lemma {:induction false} OffsetsNoGauge(filter: seq<string>, consumer: string, offsets: seq<TopicOffsets>)
    ensures NoGauge(OffsetSends(filter, consumer, offsets))
  {
    if offsets == [] {
    } else {
      PartsNoGauge(consumer, offsets[0].topic, offsets[0].parts);
      OffsetsNoGauge(filter, consumer, offsets[1..]);
    }
  }

  lemma {:induction false} ConsumersNoGauge(topics: seq<string>, consumers: seq<string>, cs: seq<Consumer>)
    ensures NoGauge(AllConsumerSends(topics, consumers, cs))
  {
    if cs == [] {
    } else {
      if cs[0].offsets.Ok? {
        OffsetsNoGauge(topics, cs[0].name, cs[0].offsets.value);
      }
      ConsumersNoGauge(topics, consumers, cs[1..]);
    }
  }

  /** Whatever ZooKeeper answers, the scrape-error gauge is not among the collected metrics. */
  lemma SequentialNoGauge(z: ZooKeeper, topics: seq<string>, consumers: seq<string>)
    ensures NoGauge(SequentialSends(z, topics, consumers))
  {
    if z.topics.Ok? {
      TopicsNoGauge(topics, z.topics.value);
    }
    if z.consumers.Ok? {
      ConsumersNoGauge(topics, consumers, z.consumers.value);
    }
  }

  // ---- What counts as an error -------------------------------------------------------------------------

  predicate PartitionFailed(p: Partition) {
    p.leader.Err? || p.isr.Err?
  }

  predicate SomePartitionFailed(ps: seq<Partition>) {
    ps != [] && (PartitionFailed(ps[0]) || SomePartitionFailed(ps[1..]))
  }

  predicate TopicFailed(t: Topic) {
    match t.partitions
    case Err => true
    case Ok(ps) => SomePartitionFailed(ps)
  }

  predicate SomeTopicFailed(topics: seq<string>, ts: seq<Topic>) {
    ts != [] && ((Selected(topics, ts[0].name) && TopicFailed(ts[0])) || SomeTopicFailed(topics, ts[1..]))
  }

  predicate TopicAnswerFailed(topics: seq<string>, answer: Result<seq<Topic>>) {
    match answer
    case Err => true
    case Ok(ts) => SomeTopicFailed(topics, ts)
  }

  predicate SomeConsumerFailed(consumers: seq<string>, cs: seq<Consumer>) {
    cs != [] && ((Selected(consumers, cs[0].name) && cs[0].offsets.Err?) || SomeConsumerFailed(consumers, cs[1..]))
  }

  predicate ConsumerAnswerFailed(consumers: seq<string>, answer: Result<seq<Consumer>>) {
    match answer
    case Err => true
    case Ok(cs) => SomeConsumerFailed(consumers, cs)
  }

  /** Some fetch of the collection failed. */
  predicate FetchFailed(z: ZooKeeper, topics: seq<string>, consumers: seq<string>) {
    || z.controller.Err?
    || TopicAnswerFailed(topics, z.topics)
    || ConsumerAnswerFailed(consumers, z.consumers)
  }

  lemma {:induction false} SomePartitionFailedIff(ps: seq<Partition>)
    ensures SomePartitionFailed(ps) <==> exists i :: 0 <= i < |ps| && PartitionFailed(ps[i])
  {
    if ps == [] {
    } else {
      SomePartitionFailedIff(ps[1..]);
      if i :| 0 <= i < |ps| && PartitionFailed(ps[i]) {
        assert i > 0 ==> ps[1..][i - 1] == ps[i];
      }
    }
  }

  lemma {:induction false} SomeTopicFailedIff(topics: seq<string>, ts: seq<Topic>)
    ensures SomeTopicFailed(topics, ts) <==> exists i :: 0 <= i < |ts| && Selected(topics, ts[i].name) && TopicFailed(ts[i])
  {
    if ts == [] {
    } else {
      SomeTopicFailedIff(topics, ts[1..]);
      if i :| 0 <= i < |ts| && Selected(topics, ts[i].name) && TopicFailed(ts[i]) {
        assert i > 0 ==> ts[1..][i - 1] == ts[i];
      }
    }
  }

  lemma {:induction false} SomeConsumerFailedIff(consumers: seq<string>, cs: seq<Consumer>)
    ensures SomeConsumerFailed(consumers, cs) <==> exists i :: 0 <= i < |cs| && Selected(consumers, cs[i].name) && cs[i].offsets.Err?
  {
    if cs == [] {
    } else {
      SomeConsumerFailedIff(consumers, cs[1..]);
      if i :| 0 <= i < |cs| && Selected(consumers, cs[i].name) && cs[i].offsets.Err? {
        assert i > 0 ==> cs[1..][i - 1] == cs[i];
      }
    }
  }

  /** A fetch fails when the controller, a list, or a fetch for some selected topic, one of its
      partitions, or some selected consumer group does. */
  lemma FetchFailedIff(z: ZooKeeper, topics: seq<string>, consumers: seq<string>)
    ensures FetchFailed(z, topics, consumers) <==>
      || z.controller.Err? || z.topics.Err? || z.consumers.Err?
      || (exists i :: 0 <= i < |z.topics.value| && (topics == [] || z.topics.value[i].name in topics)
                      && (z.topics.value[i].partitions.Err?
                          || exists j :: 0 <= j < |z.topics.value[i].partitions.value|
                                         && (z.topics.value[i].partitions.value[j].leader.Err?
                                                 || z.topics.value[i].partitions.value[j].isr.Err?)))
      || (exists k :: 0 <= k < |z.consumers.value| && (consumers == [] || z.consumers.value[k].name in consumers)
                      && z.consumers.value[k].offsets.Err?)
  {
    if z.topics.Ok? && z.consumers.Ok? {
      var ts := z.topics.value;
      SomeTopicFailedIff(topics, ts);
      SomeConsumerFailedIff(consumers, z.consumers.value);
      forall i | 0 <= i < |ts|
        ensures TopicFailed(ts[i]) <==> (ts[i].partitions.Err?
                  || exists j :: 0 <= j < |ts[i].partitions.value| && PartitionFailed(ts[i].partitions.value[j]))
      {
        if ts[i].partitions.Ok? {
          SomePartitionFailedIff(ts[i].partitions.value);
        }
      }
    }
  }

  // ---- The collector, its goroutines run one after the other ----------------------------------------------

  class Channel {
    var sent: seq<Metric>

    constructor ()
      ensures sent == []
    {
      sent := [];
    }

    method Send(m: Metric)
      modifies this
      ensures sent == old(sent) + [m]
    {
      sent := sent + [m];
    }
  }

  class Collector {
    const topics: seq<string>
    const consumers: seq<string>
    var zkErr: int

    constructor (topics: seq<string>, consumers: seq<string>)
      ensures this.topics == topics && this.consumers == consumers && zkErr == 0
    {
      this.topics, this.consumers, zkErr := topics, consumers, 0;
    }

    method ClusterMetrics(ch: Channel, controller: Result<int>)
      modifies this, ch
      ensures ch.sent == old(ch.sent) + ControllerSends(controller)
      ensures zkErr == if controller.Err? then 1 else old(zkErr)
    {
      match controller
      case Err =>
        zkErr := 1;
      case Ok(broker) =>
        ch.Send(Metric(Controller, [Sprint(broker)], 1));
    }

    method PartitionMetrics(ch: Channel, topic: string, p: Partition)
      modifies this, ch
      ensures ch.sent == old(ch.sent) + PartitionSends(topic, p)
      ensures zkErr == if PartitionFailed(p) then 1 else old(zkErr)
    {
      ghost var whole := ch.sent + PartitionSends(topic, p);
      Shift(whole, ch.sent, [ReplicaCount(topic, p)], LeaderSends(topic, p) + IsrSends(topic, p));
      ch.Send(ReplicaCount(topic, p));
      Shift(whole, ch.sent, LeaderSends(topic, p), IsrSends(topic, p));
      LeaderMetrics(ch, topic, p);
      IsrMetrics(ch, topic, p);
    }

    /** The leader part of `partitionMetrics`. */
    method LeaderMetrics(ch: Channel, topic: string, p: Partition)
      modifies this, ch
      ensures ch.sent == old(ch.sent) + LeaderSends(topic, p)
      ensures zkErr == if p.leader.Err? then 1 else old(zkErr)
    {
      match p.leader
      case Err =>
        zkErr := 1;
      case Ok(leader) =>
        ch.Send(Metric(PartitionLeader, [topic, Sprint(p.id), Sprint(leader)], 1));
        var isPreferred := 0;
        if leader == p.preferred {
          isPreferred := 1;
        }
        ch.Send(Metric(PartitionUsesPreferredReplica, [topic, Sprint(p.id)], isPreferred));
    }

    /** The in-sync part of `partitionMetrics`, with its loop over the replicas. */
    method IsrMetrics(ch: Channel, topic: string, p: Partition)
      modifies this, ch
      ensures ch.sent == old(ch.sent) + IsrSends(topic, p)
      ensures zkErr == if p.isr.Err? then 1 else old(zkErr)
    {
      match p.isr
      case Err =>
        zkErr := 1;
      case Ok(isr) =>
        ghost var whole, rest := ch.sent + IsrSends(topic, p), p.replicas;
        for i := 0 to |p.replicas|
          invariant rest == p.replicas[i..] && whole == ch.sent + ReplicaSends(topic, p, isr, rest)
          invariant zkErr == old(zkErr)
        {
          var replica := p.replicas[i];
          var inSync := 0;
          if replica in isr {
            inSync := 1;
          }
          Shift(whole, ch.sent, [InSync(topic, p, isr, rest[0])], ReplicaSends(topic, p, isr, rest[1..]));
          ch.Send(Metric(PartitionISR, [topic, Sprint(p.id), Sprint(replica)], inSync));
          rest := rest[1..];
        }
    }

    method TopicMetrics(ch: Channel, t: Topic)
      modifies this, ch
      ensures ch.sent == old(ch.sent) + TopicSends(t)
      ensures zkErr == if TopicFailed(t) then 1 else old(zkErr)
    {
      match t.partitions
      case Err =>
        zkErr := 1;
      case Ok(ps) =>
        ghost var whole, rest := ch.sent + TopicSends(t), ps;
        Shift(whole, ch.sent, [Metric(TopicPartitions, [t.name], |ps|)], AllPartitionSends(t.name, ps));
        ch.Send(Metric(TopicPartitions, [t.name], |ps|));
        ghost var failed := false;
        for i := 0 to |ps|
          invariant rest == ps[i..] && whole == ch.sent + AllPartitionSends(t.name, rest)
          invariant TopicFailed(t) <==> failed || SomePartitionFailed(rest)
          invariant zkErr == if failed then 1 else old(zkErr)
        {
          failed := failed || PartitionFailed(rest[0]);
          Shift(whole, ch.sent, PartitionSends(t.name, rest[0]), AllPartitionSends(t.name, rest[1..]));
          PartitionMetrics(ch, t.name, ps[i]);
          rest := rest[1..];
        }
    }

    method ConsumerMetrics(ch: Channel, c: Consumer)
      modifies this, ch
      ensures ch.sent == old(ch.sent) + ConsumerSends(topics, c)
      ensures zkErr == if c.offsets.Err? then 1 else old(zkErr)
    {
      match c.offsets
      case Err =>
        zkErr := 1;
      case Ok(offsets) =>
        ghost var whole, rest := ch.sent + ConsumerSends(topics, c), offsets;
        for i := 0 to |offsets|
          invariant rest == offsets[i..] && whole == ch.sent + OffsetSends(topics, c.name, rest)
          invariant zkErr == old(zkErr)
        {
          ghost var own := if Selected(topics, rest[0].topic) then PartOffsetSends(c.name, rest[0].topic, rest[0].parts) else [];
          Shift(whole, ch.sent, own, OffsetSends(topics, c.name, rest[1..]));
          if Selected(topics, offsets[i].topic) {
            PartOffsets(ch, c.name, offsets[i].topic, offsets[i].parts);
          }
          rest := rest[1..];
        }
    }

    /** The inner loop of `consumerMetrics`. */
    method PartOffsets(ch: Channel, consumer: string, topic: string, parts: seq<(int, int)>)
      modifies ch
      ensures ch.sent == old(ch.sent) + PartOffsetSends(consumer, topic, parts)
    {
      ghost var whole, rest := ch.sent + PartOffsetSends(consumer, topic, parts), parts;
      for i := 0 to |parts|
        invariant rest == parts[i..] && whole == ch.sent + PartOffsetSends(consumer, topic, rest)
      {
        Shift(whole, ch.sent, [Offset(consumer, topic, rest[0])], PartOffsetSends(consumer, topic, rest[1..]));
        ch.Send(Offset(consumer, topic, parts[i]));
        rest := rest[1..];
      }
    }

    /** `Collect`, each goroutine run to its end where it is started. `None` stands for a failed
        connection. */
    method Collect(ch: Channel, client: Option<ZooKeeper>)
      modifies this, ch
      ensures client.None? ==> ch.sent == old(ch.sent) + [Gauge(1)] && zkErr == old(zkErr)
      ensures client.Some? ==>
                && zkErr == (if FetchFailed(client.value, topics, consumers) then 1 else old(zkErr))
                && ch.sent == old(ch.sent) + SequentialSends(client.value, topics, consumers) + [Gauge(zkErr)]
    {
      if client.None? {
        ch.Send(Gauge(1));
        return;
      }
      var z := client.value;
      ghost var whole := ch.sent + SequentialSends(z, topics, consumers);
      ghost var second, third := TopicAnswerSends(topics, z.topics), ConsumerAnswerSends(topics, consumers, z.consumers);
      Shift(whole, ch.sent, ControllerSends(z.controller), second + third);
      ClusterMetrics(ch, z.controller);
      Shift(whole, ch.sent, second, third);
      CollectTopics(ch, z.topics);
      CollectConsumers(ch, z.consumers);
      assert ch.sent == whole;
      ch.Send(Gauge(zkErr));
    }

    method CollectTopics(ch: Channel, answer: Result<seq<Topic>>)
      modifies this, ch
      ensures ch.sent == old(ch.sent) + TopicAnswerSends(topics, answer)
      ensures zkErr == if TopicAnswerFailed(topics, answer) then 1 else old(zkErr)
    {
      match answer
      case Err =>
        zkErr := 1;
      case Ok(ts) =>
        ghost var whole, rest := ch.sent + AllTopicSends(topics, ts), ts;
        ghost var failed := false;
        for i := 0 to |ts|
          invariant rest == ts[i..] && whole == ch.sent + AllTopicSends(topics, rest)
          invariant SomeTopicFailed(topics, ts) <==> failed || SomeTopicFailed(topics, rest)
          invariant zkErr == if failed then 1 else old(zkErr)
        {
          failed := failed || (Selected(topics, rest[0].name) && TopicFailed(rest[0]));
          ghost var own := if Selected(topics, rest[0].name) then TopicSends(rest[0]) else [];
          Shift(whole, ch.sent, own, AllTopicSends(topics, rest[1..]));
          if Selected(topics, ts[i].name) {
            TopicMetrics(ch, ts[i]);
          }
          rest := rest[1..];
        }
    }

    method CollectConsumers(ch: Channel, answer: Result<seq<Consumer>>)
      modifies this, ch
      ensures ch.sent == old(ch.sent) + ConsumerAnswerSends(topics, consumers, answer)
      ensures zkErr == if ConsumerAnswerFailed(consumers, answer) then 1 else old(zkErr)
    {
      match answer
      case Err =>
        zkErr := 1;
      case Ok(cs) =>
        ghost var whole, rest := ch.sent + AllConsumerSends(topics, consumers, cs), cs;
        ghost var failed := false;
        for i := 0 to |cs|
          invariant rest == cs[i..] && whole == ch.sent + AllConsumerSends(topics, consumers, rest)
          invariant SomeConsumerFailed(consumers, cs) <==> failed || SomeConsumerFailed(consumers, rest)
          invariant zkErr == if failed then 1 else old(zkErr)
        {
          failed := failed || (Selected(consumers, rest[0].name) && rest[0].offsets.Err?);
          ghost var own := if Selected(consumers, rest[0].name) then ConsumerSends(topics, rest[0]) else [];
          Shift(whole, ch.sent, own, AllConsumerSends(topics, consumers, rest[1..]));
          if Selected(consumers, cs[i].name) {
            ConsumerMetrics(ch, cs[i]);
          }
          rest := rest[1..];
        }
    }
  }

  /** The next piece of what is still to be sent moves to what has been sent. */
  lemma Shift(whole: seq<Metric>, sent: seq<Metric>, head: seq<Metric>, tail: seq<Metric>)
    requires whole == sent + (head + tail)
    ensures whole == (sent + head) + tail
  {
  }
}
