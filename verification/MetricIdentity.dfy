/** No two metrics of one collection share a name and label values, and the order in which
    offset maps are traversed does not matter. */
module MetricIdentity {
  import opened GoStrings
  import opened Sequences
  import opened KafkaMetrics
  import opened FanOut
  import opened CollectorRuns

  /** A metric's identity for Prometheus: its name and its label values. */
  function Identity(m: Metric): (Family, seq<string>) {
    (m.family, m.labels)
  }

  ghost predicate DistinctIdentities(ms: seq<Metric>) {
    forall i, j :: 0 <= i < j < |ms| ==> Identity(ms[i]) != Identity(ms[j])
  }

  // ---- The assumptions about ZooKeeper's answers -------------------------------------------------------

  ghost predicate DistinctPartitions(ps: seq<Partition>) {
    && (forall i, j :: 0 <= i < j < |ps| ==> ps[i].id != ps[j].id)
    && (forall i :: 0 <= i < |ps| ==> Distinct(ps[i].replicas))
  }

  ghost predicate DistinctTopics(ts: seq<Topic>) {
    && (forall i, j :: 0 <= i < j < |ts| ==> ts[i].name != ts[j].name)
    && (forall i :: 0 <= i < |ts| && ts[i].partitions.Ok? ==> DistinctPartitions(ts[i].partitions.value))
  }

  ghost predicate DistinctParts(parts: seq<(int, int)>) {
    forall i, j :: 0 <= i < j < |parts| ==> parts[i].0 != parts[j].0
  }

  ghost predicate DistinctOffsets(offsets: seq<TopicOffsets>) {
    && (forall i, j :: 0 <= i < j < |offsets| ==> offsets[i].topic != offsets[j].topic)
    && (forall i :: 0 <= i < |offsets| ==> DistinctParts(offsets[i].parts))
  }

  ghost predicate DistinctConsumers(cs: seq<Consumer>) {
    && (forall i, j :: 0 <= i < j < |cs| ==> cs[i].name != cs[j].name)
    && (forall i :: 0 <= i < |cs| && cs[i].offsets.Ok? ==> DistinctOffsets(cs[i].offsets.value))
  }

  ghost predicate DistinctAnswers(z: ZooKeeper) {
    && (z.topics.Ok? ==> DistinctTopics(z.topics.value))
    && (z.consumers.Ok? ==> DistinctConsumers(z.consumers.value))
  }

  // ---- Gluing distinct pieces together ------------------------------------------------------------------

  lemma DistinctConcat(a: seq<Metric>, b: seq<Metric>)
    requires DistinctIdentities(a) && DistinctIdentities(b)
    requires forall x, y :: x in a && y in b ==> Identity(x) != Identity(y)
    ensures DistinctIdentities(a + b)
  {
    var s := a + b;
    forall i, j | 0 <= i < j < |s|
      ensures Identity(s[i]) != Identity(s[j])
    {
      assert i < |a| ==> s[i] in a;
      assert j >= |a| ==> s[j] in b;
    }
  }

  /** The metric belongs to one partition of one topic. */
  predicate OfPartition(m: Metric, topic: string, id: int) {
    && m.family in {PartitionUsesPreferredReplica, PartitionLeader, PartitionReplicaCount, PartitionISR}
    && |m.labels| >= 2 && m.labels[0] == topic && m.labels[1] == Sprint(id)
  }

  /** The metric belongs to one topic. */
  predicate OfTopic(m: Metric, topic: string) {
    && m.family in {TopicPartitions, PartitionUsesPreferredReplica, PartitionLeader, PartitionReplicaCount, PartitionISR}
    && |m.labels| >= 1 && m.labels[0] == topic
  }

  predicate OfConsumer(m: Metric, consumer: string) {
    m.family == ConsumersOffsets && |m.labels| == 3 && m.labels[0] == consumer
  }

  lemma {:induction false} ReplicasDistinct(topic: string, p: Partition, isr: seq<int>, replicas: seq<int>)
    requires Distinct(replicas)
    ensures DistinctIdentities(ReplicaSends(topic, p, isr, replicas))
    ensures forall m :: m in ReplicaSends(topic, p, isr, replicas) ==>
              m.family == PartitionISR && OfPartition(m, topic, p.id)
              && exists r :: r in replicas && m.labels == [topic, Sprint(p.id), Sprint(r)]
  {
    if replicas == [] {
    } else {
      var rest := replicas[1..];
      ReplicasDistinct(topic, p, isr, rest);
      var m := InSync(topic, p, isr, replicas[0]);
      forall y | y in ReplicaSends(topic, p, isr, rest)
        ensures Identity(m) != Identity(y)
      {
        var r :| r in rest && y.labels == [topic, Sprint(p.id), Sprint(r)];
        SprintInjective(replicas[0], r);
        assert m.labels[2] != y.labels[2];
      }
      DistinctConcat([m], ReplicaSends(topic, p, isr, rest));
      assert replicas[0] in replicas;
    }
  }

  lemma PartitionDistinct(topic: string, p: Partition)
    requires Distinct(p.replicas)
    ensures DistinctIdentities(PartitionSends(topic, p))
    ensures forall m :: m in PartitionSends(topic, p) ==> OfPartition(m, topic, p.id)
  {
    if p.isr.Ok? {
      ReplicasDistinct(topic, p, p.isr.value, p.replicas);
    }
    DistinctConcat(LeaderSends(topic, p), IsrSends(topic, p));
    DistinctConcat([ReplicaCount(topic, p)], LeaderSends(topic, p) + IsrSends(topic, p));
  }

  lemma {:induction false} PartitionsDistinct(topic: string, ps: seq<Partition>)
    requires DistinctPartitions(ps)
    ensures DistinctIdentities(AllPartitionSends(topic, ps))
    ensures forall m :: m in AllPartitionSends(topic, ps) ==> exists p :: p in ps && OfPartition(m, topic, p.id)
  {
    if ps == [] {
    } else {
      var first, rest := PartitionSends(topic, ps[0]), AllPartitionSends(topic, ps[1..]);
      PartitionDistinct(topic, ps[0]);
      PartitionsDistinct(topic, ps[1..]);
      forall x, y | x in first && y in rest
        ensures Identity(x) != Identity(y)
      {
        var p :| p in ps[1..] && OfPartition(y, topic, p.id);
        SprintInjective(ps[0].id, p.id);
        assert x.labels[1] != y.labels[1];
      }
      DistinctConcat(first, rest);
      assert ps[0] in ps;
    }
  }

  lemma TopicDistinct(t: Topic)
    requires t.partitions.Ok? ==> DistinctPartitions(t.partitions.value)
    ensures DistinctIdentities(TopicSends(t))
    ensures forall m :: m in TopicSends(t) ==> OfTopic(m, t.name)
  {
    if t.partitions.Ok? {
      var ps := t.partitions.value;
      PartitionsDistinct(t.name, ps);
      DistinctConcat([Metric(TopicPartitions, [t.name], |ps|)], AllPartitionSends(t.name, ps));
    }
  }

  lemma {:induction false} TopicsDistinct(filter: seq<string>, ts: seq<Topic>)
    requires DistinctTopics(ts)
    ensures DistinctIdentities(AllTopicSends(filter, ts))
    ensures forall m :: m in AllTopicSends(filter, ts) ==> exists t :: t in ts && OfTopic(m, t.name)
  {
    if ts == [] {
    } else {
      var first := if Selected(filter, ts[0].name) then TopicSends(ts[0]) else [];
      var rest := AllTopicSends(filter, ts[1..]);
      TopicDistinct(ts[0]);
      TopicsDistinct(filter, ts[1..]);
      forall x, y | x in first && y in rest
        ensures Identity(x) != Identity(y)
      {
        var t :| t in ts[1..] && OfTopic(y, t.name);
        assert x.labels[0] != y.labels[0];
      }
      DistinctConcat(first, rest);
      assert ts[0] in ts;
    }
  }

  lemma {:induction false} PartsDistinct(consumer: string, topic: string, parts: seq<(int, int)>)
    requires DistinctParts(parts)
    ensures DistinctIdentities(PartOffsetSends(consumer, topic, parts))
    ensures forall m :: m in PartOffsetSends(consumer, topic, parts) ==>
              OfConsumer(m, consumer) && m.labels[1] == topic && exists p :: p in parts && m.labels[2] == Sprint(p.0)
  {
    if parts == [] {
    } else {
      var m, rest := Offset(consumer, topic, parts[0]), PartOffsetSends(consumer, topic, parts[1..]);
      PartsDistinct(consumer, topic, parts[1..]);
      forall y | y in rest
        ensures Identity(m) != Identity(y)
      {
        var p :| p in parts[1..] && y.labels[2] == Sprint(p.0);
        SprintInjective(parts[0].0, p.0);
        assert m.labels[2] != y.labels[2];
      }
      DistinctConcat([m], rest);
      assert parts[0] in parts;
    }
  }

  lemma {:induction false} OffsetsDistinct(filter: seq<string>, consumer: string, offsets: seq<TopicOffsets>)
    requires DistinctOffsets(offsets)
    ensures DistinctIdentities(OffsetSends(filter, consumer, offsets))
    ensures forall m :: m in OffsetSends(filter, consumer, offsets) ==>
              OfConsumer(m, consumer) && exists o :: o in offsets && m.labels[1] == o.topic
  {
    if offsets == [] {
    } else {
      var o := offsets[0];
      var first := if Selected(filter, o.topic) then PartOffsetSends(consumer, o.topic, o.parts) else [];
      var rest := OffsetSends(filter, consumer, offsets[1..]);
      PartsDistinct(consumer, o.topic, o.parts);
      OffsetsDistinct(filter, consumer, offsets[1..]);
      forall x, y | x in first && y in rest
        ensures Identity(x) != Identity(y)
      {
        var o' :| o' in offsets[1..] && y.labels[1] == o'.topic;
        assert x.labels[1] != y.labels[1];
      }
      DistinctConcat(first, rest);
      assert o in offsets;
    }
  }

  lemma {:induction false} ConsumersDistinct(topics: seq<string>, consumers: seq<string>, cs: seq<Consumer>)
    requires DistinctConsumers(cs)
    ensures DistinctIdentities(AllConsumerSends(topics, consumers, cs))
    ensures forall m :: m in AllConsumerSends(topics, consumers, cs) ==> exists c :: c in cs && OfConsumer(m, c.name)
  {
    if cs == [] {
    } else {
      var first := if Selected(consumers, cs[0].name) then ConsumerSends(topics, cs[0]) else [];
      var rest := AllConsumerSends(topics, consumers, cs[1..]);
      if cs[0].offsets.Ok? {
        OffsetsDistinct(topics, cs[0].name, cs[0].offsets.value);
      }
      ConsumersDistinct(topics, consumers, cs[1..]);
      forall x, y | x in first && y in rest
        ensures Identity(x) != Identity(y)
      {
        var c :| c in cs[1..] && OfConsumer(y, c.name);
        assert x.labels[0] != y.labels[0];
      }
      DistinctConcat(first, rest);
      assert cs[0] in cs;
    }
  }

  /** The sequential loops send no two metrics with one identity. */
  lemma SequentialDistinct(z: ZooKeeper, topics: seq<string>, consumers: seq<string>)
    requires DistinctAnswers(z)
    ensures DistinctIdentities(SequentialSends(z, topics, consumers))
  {
    var a, b, c := ControllerSends(z.controller), TopicAnswerSends(topics, z.topics), ConsumerAnswerSends(topics, consumers, z.consumers);
    if z.topics.Ok? {
      TopicsDistinct(topics, z.topics.value);
    }
    if z.consumers.Ok? {
      ConsumersDistinct(topics, consumers, z.consumers.value);
    }
    assert forall m :: m in b ==> m.family !in {Controller, ConsumersOffsets};
    assert forall m :: m in c ==> m.family == ConsumersOffsets;
    assert forall m :: m in a ==> m.family == Controller;
    DistinctConcat(b, c);
    DistinctConcat(a, b + c);
  }

  /** Rearranging metrics keeps their identities distinct. */
  lemma PermutationDistinct(a: seq<Metric>, b: seq<Metric>)
    requires DistinctIdentities(a) && multiset(a) == multiset(b)
    ensures DistinctIdentities(b)
  {
    forall i, j | 0 <= i < j < |b|
      ensures Identity(b[i]) != Identity(b[j])
    {
      var rest := b[..j] + b[j + 1..];
      CutOne(b, j);
      assert rest[i] == b[i];
      assert b[i] in multiset(rest);
      assert multiset{b[i], b[j]} <= multiset(b);
      TwoPlaces(a, b[i], b[j]);
    }
  }

  /** Two members of a sequence, or one member twice, have two different positions. */
  lemma TwoPlaces(a: seq<Metric>, x: Metric, y: Metric)
    requires DistinctIdentities(a) && multiset{x, y} <= multiset(a)
    ensures Identity(x) != Identity(y)
  {
    assert x in multiset(a) && y in multiset(a);
    var i :| 0 <= i < |a| && a[i] == x;
    var rest := a[..i] + a[i + 1..];
    CutOne(a, i);
    assert y in multiset(rest);
    var k :| 0 <= k < |rest| && rest[k] == y;
    var j := if k < i then k else k + 1;
    assert a[j] == y;
  }

  /** In every complete interleaving no two sends share a metric name and label values. */
  lemma IdentitiesAreUnique(z: ZooKeeper, topics: seq<string>, consumers: seq<string>, zkErr: int, schedule: seq<Choice>)
    requires DistinctAnswers(z)
    requires Possible(Start(z, topics, consumers, zkErr), schedule)
    requires Finished(Exec(Start(z, topics, consumers, zkErr), schedule))
    ensures DistinctIdentities(Exec(Start(z, topics, consumers, zkErr), schedule).out)
  {
    var sends := SequentialSends(z, topics, consumers);
    var body := EveryScheduleAgrees(z, topics, consumers, zkErr, schedule);
    var flag := if FetchFailed(z, topics, consumers) then 1 else zkErr;
    SequentialDistinct(z, topics, consumers);
    PermutationDistinct(sends, body);
    DistinctConcat(body, [Gauge(flag)]);
  }

  // ---- The order of map traversal -----------------------------------------------------------------------

  /** The entries of the two-level offset map in the order of traversal. */
  function Flat(offsets: seq<TopicOffsets>): seq<(string, (int, int))> {
    if offsets == [] then [] else FlatParts(offsets[0].topic, offsets[0].parts) + Flat(offsets[1..])
  }

  function FlatParts(topic: string, parts: seq<(int, int)>): seq<(string, (int, int))> {
    if parts == [] then [] else [(topic, parts[0])] + FlatParts(topic, parts[1..])
  }

  function EntrySends(filter: seq<string>, consumer: string, entries: seq<(string, (int, int))>): seq<Metric> {
    if entries == [] then []
    else
      (if Selected(filter, entries[0].0) then [Offset(consumer, entries[0].0, entries[0].1)] else [])
      + EntrySends(filter, consumer, entries[1..])
  }

  lemma {:induction false} EntryConcat(filter: seq<string>, consumer: string, a: seq<(string, (int, int))>, b: seq<(string, (int, int))>)
    ensures EntrySends(filter, consumer, a + b) == EntrySends(filter, consumer, a) + EntrySends(filter, consumer, b)
  {
    if a == [] {
      assert a + b == b;
    } else {
      assert (a + b)[1..] == a[1..] + b;
      EntryConcat(filter, consumer, a[1..], b);
    }
  }

  lemma {:induction false} PartsAreEntries(filter: seq<string>, consumer: string, topic: string, parts: seq<(int, int)>)
    ensures EntrySends(filter, consumer, FlatParts(topic, parts))
            == if Selected(filter, topic) then PartOffsetSends(consumer, topic, parts) else []
  {
    if parts == [] {
    } else {
      PartsAreEntries(filter, consumer, topic, parts[1..]);
      EntryConcat(filter, consumer, [(topic, parts[0])], FlatParts(topic, parts[1..]));
      assert [(topic, parts[0])][1..] == [];
    }
  }

  lemma {:induction false} OffsetsAreEntries(filter: seq<string>, consumer: string, offsets: seq<TopicOffsets>)
    ensures OffsetSends(filter, consumer, offsets) == EntrySends(filter, consumer, Flat(offsets))
  {
    if offsets == [] {
    } else {
      OffsetsAreEntries(filter, consumer, offsets[1..]);
      PartsAreEntries(filter, consumer, offsets[0].topic, offsets[0].parts);
      EntryConcat(filter, consumer, FlatParts(offsets[0].topic, offsets[0].parts), Flat(offsets[1..]));
    }
  }

  lemma {:induction false} EntryOrder(filter: seq<string>, consumer: string, a: seq<(string, (int, int))>, b: seq<(string, (int, int))>)
    requires multiset(a) == multiset(b)
    ensures multiset(EntrySends(filter, consumer, a)) == multiset(EntrySends(filter, consumer, b))
  {
    if a == [] {
      assert |b| == |multiset(b)| == 0;
    } else {
      var i := FindFirst(a, b);
      EntryOrder(filter, consumer, a[1..], b[..i] + b[i + 1..]);
      EntryAt(filter, consumer, b, i);
      EntryConcat(filter, consumer, [a[0]], a[1..]);
      assert a == [a[0]] + a[1..];
    }
  }

  /** What one entry contributes, wherever it stands. */
  lemma EntryAt(filter: seq<string>, consumer: string, b: seq<(string, (int, int))>, i: nat)
    requires i < |b|
    ensures multiset(EntrySends(filter, consumer, b))
            == multiset(EntrySends(filter, consumer, [b[i]])) + multiset(EntrySends(filter, consumer, b[..i] + b[i + 1..]))
  {
    var front, back := b[..i], b[i + 1..];
    assert b == front + ([b[i]] + back);
    EntryConcat(filter, consumer, front, [b[i]] + back);
    EntryConcat(filter, consumer, [b[i]], back);
    EntryConcat(filter, consumer, front, back);
  }

  /** The same consumer groups with the same offsets, whatever the order of traversal. */
  ghost predicate SameUpToOrder(cs: seq<Consumer>, ds: seq<Consumer>) {
    && |cs| == |ds|
    && forall i :: 0 <= i < |cs| ==>
         && cs[i].name == ds[i].name
         && (cs[i].offsets.Err? <==> ds[i].offsets.Err?)
         && (cs[i].offsets.Ok? ==> multiset(Flat(cs[i].offsets.value)) == multiset(Flat(ds[i].offsets.value)))
  }

  lemma {:induction false} ConsumerOrder(topics: seq<string>, consumers: seq<string>, cs: seq<Consumer>, ds: seq<Consumer>)
    requires SameUpToOrder(cs, ds)
    ensures multiset(AllConsumerSends(topics, consumers, cs)) == multiset(AllConsumerSends(topics, consumers, ds))
    ensures SomeConsumerFailed(consumers, cs) == SomeConsumerFailed(consumers, ds)
  {
    if cs == [] {
    } else {
      var c, d := cs[0], ds[0];
      if c.offsets.Ok? {
        OffsetsAreEntries(topics, c.name, c.offsets.value);
        OffsetsAreEntries(topics, d.name, d.offsets.value);
        EntryOrder(topics, c.name, Flat(c.offsets.value), Flat(d.offsets.value));
      }
      assert multiset(ConsumerSends(topics, c)) == multiset(ConsumerSends(topics, d));
      ConsumerOrder(topics, consumers, cs[1..], ds[1..]);
    }
  }

  /** Two collections that read the same answers send the same metrics, whatever the schedules
      and whatever the order in which either run traverses the offset maps. */
  lemma TraversalOrderDoesNotMatter(
      z: ZooKeeper, z': ZooKeeper, topics: seq<string>, consumers: seq<string>, zkErr: int,
      schedule: seq<Choice>, schedule': seq<Choice>)
    requires z.controller == z'.controller && z.topics == z'.topics && (z.consumers.Ok? <==> z'.consumers.Ok?)
    requires z.consumers.Ok? ==> SameUpToOrder(z.consumers.value, z'.consumers.value)
    requires Possible(Start(z, topics, consumers, zkErr), schedule)
    requires Possible(Start(z', topics, consumers, zkErr), schedule')
    requires Finished(Exec(Start(z, topics, consumers, zkErr), schedule))
    requires Finished(Exec(Start(z', topics, consumers, zkErr), schedule'))
    ensures multiset(Exec(Start(z, topics, consumers, zkErr), schedule).out)
            == multiset(Exec(Start(z', topics, consumers, zkErr), schedule').out)
  {
    if z.consumers.Ok? {
      ConsumerOrder(topics, consumers, z.consumers.value, z'.consumers.value);
    }
    var body := EveryScheduleAgrees(z, topics, consumers, zkErr, schedule);
    var body' := EveryScheduleAgrees(z', topics, consumers, zkErr, schedule');
    assert multiset(SequentialSends(z, topics, consumers)) == multiset(SequentialSends(z', topics, consumers));
    assert FetchFailed(z, topics, consumers) == FetchFailed(z', topics, consumers);
  }
}
