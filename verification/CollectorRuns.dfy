/** Complete interleavings of one collection: for fixed ZooKeeper answers every schedule ends,
    sends the same metrics, and sends the scrape-error gauge once and last. */
module CollectorRuns {
  import opened Wrappers
  import opened KafkaMetrics
  import opened FanOut

  // ---- The code of the goroutines --------------------------------------------------------------------

  function SendAll(ms: seq<Metric>): seq<Instr> {
    if ms == [] then [] else [Send(ms[0])] + SendAll(ms[1..])
  }

  /** A fetch that failed sets the flag; one that succeeded sends its metrics. */
  function Fetched(failed: bool, ms: seq<Metric>): seq<Instr> {
    if failed then [SetErr] else SendAll(ms)
  }

  function PartitionCode(topic: string, p: Partition): seq<Instr> {
    [Send(ReplicaCount(topic, p))]
    + (Fetched(p.leader.Err?, LeaderSends(topic, p))
    + (Fetched(p.isr.Err?, IsrSends(topic, p))
    + [Done]))
  }

  function StartPartitions(topic: string, ps: seq<Partition>): seq<Instr> {
    if ps == [] then [] else [Go(PartitionCode(topic, ps[0]))] + StartPartitions(topic, ps[1..])
  }

  function TopicCode(t: Topic): seq<Instr> {
    match t.partitions
    case Err => [SetErr, Done]
    case Ok(ps) =>
      [Send(Metric(TopicPartitions, [t.name], |ps|))] + ([Add(|ps|)] + (StartPartitions(t.name, ps) + [Wait, Done]))
  }

  function ConsumerCode(topics: seq<string>, c: Consumer): seq<Instr> {
    Fetched(c.offsets.Err?, ConsumerSends(topics, c)) + [Done]
  }

  function StartTopics(topics: seq<string>, ts: seq<Topic>): seq<Instr> {
    if ts == [] then []
    else (if Selected(topics, ts[0].name) then [Add(1), Go(TopicCode(ts[0]))] else []) + StartTopics(topics, ts[1..])
  }

  function StartConsumers(topics: seq<string>, consumers: seq<string>, cs: seq<Consumer>): seq<Instr> {
    if cs == [] then []
    else (if Selected(consumers, cs[0].name) then [Add(1), Go(ConsumerCode(topics, cs[0]))] else [])
         + StartConsumers(topics, consumers, cs[1..])
  }

  function TopicsPart(topics: seq<string>, answer: Result<seq<Topic>>): seq<Instr> {
    match answer
    case Err => [SetErr]
    case Ok(ts) => StartTopics(topics, ts)
  }

  function ConsumersPart(topics: seq<string>, consumers: seq<string>, answer: Result<seq<Consumer>>): seq<Instr> {
    match answer
    case Err => [SetErr]
    case Ok(cs) => StartConsumers(topics, consumers, cs)
  }

  function CollectCode(z: ZooKeeper, topics: seq<string>, consumers: seq<string>): seq<Instr> {
    Fetched(z.controller.Err?, ControllerSends(z.controller))
    + (TopicsPart(topics, z.topics)
    + (ConsumersPart(topics, consumers, z.consumers)
    + [Wait, SendError]))
  }

  /** `Collect` just after the connection: nothing sent, no goroutine started. */
  function Start(z: ZooKeeper, topics: seq<string>, consumers: seq<string>, zkErr: int): State {
    State(CollectCode(z, topics, consumers), 0, [], [], zkErr, [])
  }

  // ---- What the code amounts to ------------------------------------------------------------------------

  lemma {:induction false} TotalConcat(q: Measure, a: seq<Instr>, b: seq<Instr>)
    ensures Total(q, a + b) == Total(q, a) + Total(q, b)
  {
    if a == [] {
      assert a + b == b;
    } else {
      assert (a + b)[1..] == a[1..] + b;
      TotalConcat(q, a[1..], b);
    }
  }

  lemma {:induction false} DebtConcat(a: seq<Instr>, b: seq<Instr>)
    ensures Debt(a + b) == Debt(a) + Debt(b)
  {
    if a == [] {
      assert a + b == b;
    } else {
      assert (a + b)[1..] == a[1..] + b;
      DebtConcat(a[1..], b);
    }
  }

  /** How often `m` occurs in `ms`. */
  function Occurrences(m: Metric, ms: seq<Metric>): nat {
    multiset(ms)[m]
  }

  lemma OccurrencesConcat(m: Metric, a: seq<Metric>, b: seq<Metric>)
    ensures Occurrences(m, a + b) == Occurrences(m, a) + Occurrences(m, b)
  {
  }

  /** The count a piece of code is expected to have: its sends, or whether it flags an error. */
  function Expected(q: Measure, ms: seq<Metric>, errors: nat): nat
    requires !q.Steps?
  {
    if q.Errors? then errors else Occurrences(q.m, ms)
  }

  lemma ExpectedConcat(q: Measure, a: seq<Metric>, b: seq<Metric>, i: nat, j: nat)
    requires !q.Steps?
    ensures Expected(q, a + b, i + j) == Expected(q, a, i) + Expected(q, b, j)
  {
    if q.SendsOf? {
      OccurrencesConcat(q.m, a, b);
    }
  }

  /** Code in sequence is expected to do both. */
  lemma ThenTotal(q: Measure, a: seq<Instr>, b: seq<Instr>, ms: seq<Metric>, ns: seq<Metric>, i: nat, j: nat)
    requires !q.Steps? && Total(q, a) == Expected(q, ms, i) && Total(q, b) == Expected(q, ns, j)
    ensures Total(q, a + b) == Expected(q, ms + ns, i + j)
  {
    TotalConcat(q, a, b);
    ExpectedConcat(q, ms, ns, i, j);
  }

  /** Code that neither sends nor flags changes nothing before or after other code. */
  lemma WithQuiet(q: Measure, code: seq<Instr>, quiet: seq<Instr>)
    requires Total(q, quiet) == 0
    ensures Total(q, code + quiet) == Total(q, quiet + code) == Total(q, code)
  {
    TotalConcat(q, code, quiet);
    TotalConcat(q, quiet, code);
  }

  /** The instructions that only synchronise. */
  lemma QuietTotal(q: Measure, n: nat)
    requires !q.Steps?
    ensures Total(q, [Done]) == Total(q, [Wait, Done]) == Total(q, [Wait, SendError]) == Total(q, [Add(n)]) == 0
    ensures Expected(q, [], 0) == 0
  {
    assert [Wait, Done] == [Wait] + [Done] && [Wait, SendError] == [Wait] + [SendError];
    TotalConcat(q, [Wait], [Done]);
    TotalConcat(q, [Wait], [SendError]);
    SingleTotal(q, Wait);
    SingleTotal(q, Done);
    SingleTotal(q, SendError);
    SingleTotal(q, Add(n));
  }

  lemma SendTotal(q: Measure, m: Metric)
    requires !q.Steps?
    ensures Total(q, [Send(m)]) == Expected(q, [m], 0)
  {
    SingleTotal(q, Send(m));
  }

  lemma {:induction false} SendAllTotal(q: Measure, ms: seq<Metric>)
    requires !q.Steps?
    ensures Total(q, SendAll(ms)) == Expected(q, ms, 0)
  {
    if ms == [] {
    } else {
      assert ms == [ms[0]] + ms[1..];
      ExpectedConcat(q, [ms[0]], ms[1..], 0, 0);
      SendAllTotal(q, ms[1..]);
      TotalConcat(q, [Send(ms[0])], SendAll(ms[1..]));
      SingleTotal(q, Send(ms[0]));
    }
  }

  lemma SingleTotal(q: Measure, instr: Instr)
    ensures Total(q, [instr]) == Weight(q, instr) + if instr.Go? then Total(q, instr.code) else 0
    ensures Debt([instr]) == DebtOf(instr)
  {
    assert [instr][1..] == [];
  }

  lemma FetchedTotal(q: Measure, failed: bool, ms: seq<Metric>)
    requires !q.Steps? && (failed ==> ms == [])
    ensures Total(q, Fetched(failed, ms)) == Expected(q, ms, if failed then 1 else 0)
  {
    SingleTotal(q, SetErr);
    SendAllTotal(q, ms);
  }

  function ErrorCount(failed: bool): nat {
    if failed then 1 else 0
  }

  function PartitionErrors(p: Partition): nat {
    ErrorCount(p.leader.Err?) + ErrorCount(p.isr.Err?)
  }

  lemma PartitionTotal(q: Measure, topic: string, p: Partition)
    requires !q.Steps?
    ensures Total(q, PartitionCode(topic, p)) == Expected(q, PartitionSends(topic, p), PartitionErrors(p))
  {
    var leader, isr := Fetched(p.leader.Err?, LeaderSends(topic, p)), Fetched(p.isr.Err?, IsrSends(topic, p));
    var l, r := ErrorCount(p.leader.Err?), ErrorCount(p.isr.Err?);
    var m, ls, rs := ReplicaCount(topic, p), LeaderSends(topic, p), IsrSends(topic, p);
    QuietTotal(q, 0);
    SendTotal(q, m);
    FetchedTotal(q, p.leader.Err?, ls);
    FetchedTotal(q, p.isr.Err?, rs);
    WithQuiet(q, isr, [Done]);
    ThenTotal(q, leader, isr + [Done], ls, rs, l, r);
    ThenTotal(q, [Send(m)], leader + (isr + [Done]), [m], ls + rs, 0, l + r);
  }

  function PartitionsErrors(ps: seq<Partition>): nat {
    if ps == [] then 0 else PartitionErrors(ps[0]) + PartitionsErrors(ps[1..])
  }

  lemma {:induction false} PartitionsTotal(q: Measure, topic: string, ps: seq<Partition>)
    requires !q.Steps?
    ensures Total(q, StartPartitions(topic, ps)) == Expected(q, AllPartitionSends(topic, ps), PartitionsErrors(ps))
  {
    if ps == [] {
    } else {
      var code := PartitionCode(topic, ps[0]);
      TotalConcat(q, [Go(code)], StartPartitions(topic, ps[1..]));
      SingleTotal(q, Go(code));
      PartitionTotal(q, topic, ps[0]);
      PartitionsTotal(q, topic, ps[1..]);
      ExpectedConcat(q, PartitionSends(topic, ps[0]), AllPartitionSends(topic, ps[1..]),
                     PartitionErrors(ps[0]), PartitionsErrors(ps[1..]));
    }
  }

  function TopicErrors(t: Topic): nat {
    match t.partitions
    case Err => 1
    case Ok(ps) => PartitionsErrors(ps)
  }

  lemma TopicTotal(q: Measure, t: Topic)
    requires !q.Steps?
    ensures Total(q, TopicCode(t)) == Expected(q, TopicSends(t), TopicErrors(t))
  {
    QuietTotal(q, 0);
    SingleTotal(q, SetErr);
    if t.partitions.Err? {
      assert TopicCode(t) == [SetErr] + [Done];
      WithQuiet(q, [SetErr], [Done]);
    } else {
      FetchedTopicTotal(q, t, t.partitions.value);
    }
  }

  lemma FetchedTopicTotal(q: Measure, t: Topic, ps: seq<Partition>)
    requires !q.Steps? && t.partitions == Ok(ps)
    ensures Total(q, TopicCode(t)) == Expected(q, TopicSends(t), TopicErrors(t))
  {
    var m, start := Metric(TopicPartitions, [t.name], |ps|), StartPartitions(t.name, ps);
    QuietTotal(q, |ps|);
    SendTotal(q, m);
    PartitionsTotal(q, t.name, ps);
    WithQuiet(q, start, [Wait, Done]);
    WithQuiet(q, start + [Wait, Done], [Add(|ps|)]);
    ThenTotal(q, [Send(m)], [Add(|ps|)] + (start + [Wait, Done]), [m], AllPartitionSends(t.name, ps), 0, PartitionsErrors(ps));
  }

  lemma ConsumerTotal(q: Measure, topics: seq<string>, c: Consumer)
    requires !q.Steps?
    ensures Total(q, ConsumerCode(topics, c)) == Expected(q, ConsumerSends(topics, c), ErrorCount(c.offsets.Err?))
  {
    TotalConcat(q, Fetched(c.offsets.Err?, ConsumerSends(topics, c)), [Done]);
    SingleTotal(q, Done);
    FetchedTotal(q, c.offsets.Err?, ConsumerSends(topics, c));
  }

  lemma StartTotal(q: Measure, code: seq<Instr>)
    requires !q.Steps?
    ensures Total(q, [Add(1), Go(code)]) == Total(q, code)
  {
    assert [Add(1), Go(code)] == [Add(1)] + [Go(code)];
    TotalConcat(q, [Add(1)], [Go(code)]);
    SingleTotal(q, Add(1));
    SingleTotal(q, Go(code));
  }

  function TopicsErrors(topics: seq<string>, ts: seq<Topic>): nat {
    if ts == [] then 0
    else (if Selected(topics, ts[0].name) then TopicErrors(ts[0]) else 0) + TopicsErrors(topics, ts[1..])
  }

  lemma {:induction false} TopicsTotal(q: Measure, topics: seq<string>, ts: seq<Topic>)
    requires !q.Steps?
    ensures Total(q, StartTopics(topics, ts)) == Expected(q, AllTopicSends(topics, ts), TopicsErrors(topics, ts))
  {
    if ts == [] {
    } else {
      TopicsTotal(q, topics, ts[1..]);
      if Selected(topics, ts[0].name) {
        TotalConcat(q, [Add(1), Go(TopicCode(ts[0]))], StartTopics(topics, ts[1..]));
        StartTotal(q, TopicCode(ts[0]));
        TopicTotal(q, ts[0]);
        ExpectedConcat(q, TopicSends(ts[0]), AllTopicSends(topics, ts[1..]), TopicErrors(ts[0]), TopicsErrors(topics, ts[1..]));
      } else {
        assert StartTopics(topics, ts) == StartTopics(topics, ts[1..]);
        assert AllTopicSends(topics, ts) == AllTopicSends(topics, ts[1..]);
      }
    }
  }

  function ConsumersErrors(consumers: seq<string>, cs: seq<Consumer>): nat {
    if cs == [] then 0
    else (if Selected(consumers, cs[0].name) then ErrorCount(cs[0].offsets.Err?) else 0) + ConsumersErrors(consumers, cs[1..])
  }

  lemma {:induction false} ConsumersTotal(q: Measure, topics: seq<string>, consumers: seq<string>, cs: seq<Consumer>)
    requires !q.Steps?
    ensures Total(q, StartConsumers(topics, consumers, cs))
            == Expected(q, AllConsumerSends(topics, consumers, cs), ConsumersErrors(consumers, cs))
  {
    if cs == [] {
    } else {
      ConsumersTotal(q, topics, consumers, cs[1..]);
      if Selected(consumers, cs[0].name) {
        TotalConcat(q, [Add(1), Go(ConsumerCode(topics, cs[0]))], StartConsumers(topics, consumers, cs[1..]));
        StartTotal(q, ConsumerCode(topics, cs[0]));
        ConsumerTotal(q, topics, cs[0]);
        ExpectedConcat(q, ConsumerSends(topics, cs[0]), AllConsumerSends(topics, consumers, cs[1..]),
                       ErrorCount(cs[0].offsets.Err?), ConsumersErrors(consumers, cs[1..]));
      } else {
        assert StartConsumers(topics, consumers, cs) == StartConsumers(topics, consumers, cs[1..]);
        assert AllConsumerSends(topics, consumers, cs) == AllConsumerSends(topics, consumers, cs[1..]);
      }
    }
  }

  function TopicAnswerErrors(topics: seq<string>, answer: Result<seq<Topic>>): nat {
    match answer case Err => 1 case Ok(ts) => TopicsErrors(topics, ts)
  }

  function ConsumerAnswerErrors(consumers: seq<string>, answer: Result<seq<Consumer>>): nat {
    match answer case Err => 1 case Ok(cs) => ConsumersErrors(consumers, cs)
  }

  function FailedFetches(z: ZooKeeper, topics: seq<string>, consumers: seq<string>): nat {
    ErrorCount(z.controller.Err?) + TopicAnswerErrors(topics, z.topics) + ConsumerAnswerErrors(consumers, z.consumers)
  }

  /** The whole code sends what the sequential loops send and flags every failed fetch. */
  lemma CollectTotal(q: Measure, z: ZooKeeper, topics: seq<string>, consumers: seq<string>)
    requires !q.Steps?
    ensures Total(q, CollectCode(z, topics, consumers))
            == Expected(q, SequentialSends(z, topics, consumers), FailedFetches(z, topics, consumers))
  {
    var a, b, c := ControllerSends(z.controller), TopicAnswerSends(topics, z.topics), ConsumerAnswerSends(topics, consumers, z.consumers);
    var ca, cb, cc := Fetched(z.controller.Err?, a), TopicsPart(topics, z.topics), ConsumersPart(topics, consumers, z.consumers);
    var i, j, k := ErrorCount(z.controller.Err?), TopicAnswerErrors(topics, z.topics), ConsumerAnswerErrors(consumers, z.consumers);
    QuietTotal(q, 0);
    SingleTotal(q, SetErr);
    FetchedTotal(q, z.controller.Err?, a);
    if z.topics.Ok? {
      TopicsTotal(q, topics, z.topics.value);
    }
    if z.consumers.Ok? {
      ConsumersTotal(q, topics, consumers, z.consumers.value);
    }
    WithQuiet(q, cc, [Wait, SendError]);
    ThenTotal(q, cb, cc + [Wait, SendError], b, c, j, k);
    ThenTotal(q, ca, cb + (cc + [Wait, SendError]), a, b + c, i, j + k);
  }

  // ---- The start satisfies the invariant -------------------------------------------------------------------

  lemma {:induction false} SendsThenLeaf(failed: bool, ms: seq<Metric>, rest: seq<Instr>)
    requires LeafCode(rest) && rest != []
    ensures LeafCode(Fetched(failed, ms) + rest) && Fetched(failed, ms) + rest != []
  {
    if failed {
      assert ([SetErr] + rest)[1..] == rest;
    } else if ms == [] {
      assert SendAll(ms) + rest == rest;
    } else {
      assert (SendAll(ms) + rest)[1..] == SendAll(ms[1..]) + rest;
      SendsThenLeaf(false, ms[1..], rest);
    }
  }

  lemma PartitionShape(topic: string, p: Partition)
    ensures LeafCode(PartitionCode(topic, p)) && PartitionCode(topic, p) != []
  {
    SendsThenLeaf(p.isr.Err?, IsrSends(topic, p), [Done]);
    var isr := Fetched(p.isr.Err?, IsrSends(topic, p)) + [Done];
    SendsThenLeaf(p.leader.Err?, LeaderSends(topic, p), isr);
    var leader := Fetched(p.leader.Err?, LeaderSends(topic, p)) + isr;
    assert PartitionCode(topic, p)[1..] == leader;
  }

  lemma {:induction false} PartitionsShape(topic: string, ps: seq<Partition>)
    ensures
      var code := StartPartitions(topic, ps) + [Wait, Done];
      WorkerCode(code) && AddsFirst(code) && HasWait(code) && Debt(code) == |ps|
  {
    var code := StartPartitions(topic, ps) + [Wait, Done];
    if ps == [] {
      assert code == [Wait, Done];
      DebtAtWait(code, Done);
    } else {
      assert code[1..] == StartPartitions(topic, ps[1..]) + [Wait, Done];
      PartitionsShape(topic, ps[1..]);
      PartitionShape(topic, ps[0]);
    }
  }

  /** Well-shaped code for a worker that adds exactly what it starts. */
  predicate StartsAsWorker(code: seq<Instr>) {
    code != [] && WorkerCode(code) && AddsFirst(code) && Debt(code) == 0
  }

  lemma TopicShape(t: Topic)
    ensures StartsAsWorker(TopicCode(t))
  {
    if t.partitions.Err? {
      assert [SetErr, Done][1..] == [Done];
      assert [Done][1..] == [];
    } else {
      var ps := t.partitions.value;
      PartitionsShape(t.name, ps);
      var rest := StartPartitions(t.name, ps) + [Wait, Done];
      var added := [Add(|ps|)] + rest;
      assert added[1..] == rest;
      assert AddsFirst(added);
      assert TopicCode(t)[1..] == added;
    }
  }

  lemma {:induction false} SendsThenWorker(failed: bool, ms: seq<Metric>)
    ensures StartsAsWorker(Fetched(failed, ms) + [Done])
  {
    assert [Done][1..] == [];
    assert AddsFirst([Done]);
    if failed {
      assert ([SetErr] + [Done])[1..] == [Done];
    } else if ms == [] {
      assert SendAll(ms) + [Done] == [Done];
    } else {
      assert (SendAll(ms) + [Done])[1..] == SendAll(ms[1..]) + [Done];
      SendsThenWorker(false, ms[1..]);
    }
  }

  /** Well-shaped code for the rest of main, which adds exactly what it starts. */
  predicate ContinuesMain(code: seq<Instr>) {
    MainCode(code) && AddsFirst(code) && HasWait(code) && Debt(code) == 0
  }

  lemma StartWorker(worker: seq<Instr>, rest: seq<Instr>)
    requires StartsAsWorker(worker) && ContinuesMain(rest)
    ensures ContinuesMain([Add(1), Go(worker)] + rest)
  {
    var code := [Add(1), Go(worker)] + rest;
    var started := [Go(worker)] + rest;
    assert code[1..] == started && started[1..] == rest;
    assert MainCode(started) && AddsFirst(started);
  }

  lemma Assoc(a: seq<Instr>, b: seq<Instr>, c: seq<Instr>)
    ensures (a + b) + c == a + (b + c)
    ensures [] + b == b
  {
  }

  lemma {:induction false} TopicsShape(topics: seq<string>, ts: seq<Topic>, rest: seq<Instr>)
    requires ContinuesMain(rest)
    ensures ContinuesMain(StartTopics(topics, ts) + rest)
  {
    if ts == [] {
      assert StartTopics(topics, ts) + rest == rest;
    } else {
      TopicsShape(topics, ts[1..], rest);
      var later := StartTopics(topics, ts[1..]) + rest;
      if Selected(topics, ts[0].name) {
        TopicShape(ts[0]);
        StartWorker(TopicCode(ts[0]), later);
        Assoc([Add(1), Go(TopicCode(ts[0]))], StartTopics(topics, ts[1..]), rest);
      } else {
        Assoc([], StartTopics(topics, ts[1..]), rest);
      }
    }
  }

  lemma {:induction false} ConsumersShape(topics: seq<string>, consumers: seq<string>, cs: seq<Consumer>, rest: seq<Instr>)
    requires ContinuesMain(rest)
    ensures ContinuesMain(StartConsumers(topics, consumers, cs) + rest)
  {
    if cs == [] {
      assert StartConsumers(topics, consumers, cs) + rest == rest;
    } else {
      ConsumersShape(topics, consumers, cs[1..], rest);
      var later := StartConsumers(topics, consumers, cs[1..]) + rest;
      if Selected(consumers, cs[0].name) {
        SendsThenWorker(cs[0].offsets.Err?, ConsumerSends(topics, cs[0]));
        StartWorker(ConsumerCode(topics, cs[0]), later);
        Assoc([Add(1), Go(ConsumerCode(topics, cs[0]))], StartConsumers(topics, consumers, cs[1..]), rest);
      } else {
        Assoc([], StartConsumers(topics, consumers, cs[1..]), rest);
      }
    }
  }

  lemma ErrShape(rest: seq<Instr>)
    requires ContinuesMain(rest)
    ensures ContinuesMain([SetErr] + rest)
  {
    assert ([SetErr] + rest)[1..] == rest;
  }

  /** The WaitGroup invariant holds before the first step. */
  lemma StartInv(z: ZooKeeper, topics: seq<string>, consumers: seq<string>, zkErr: int)
    ensures Inv(Start(z, topics, consumers, zkErr))
  {
    var tail := [Wait, SendError];
    DebtAtWait(tail, SendError);
    var third := ConsumersPart(topics, consumers, z.consumers) + tail;
    if z.consumers.Err? {
      ErrShape(tail);
    } else {
      ConsumersShape(topics, consumers, z.consumers.value, tail);
    }
    var second := TopicsPart(topics, z.topics) + third;
    if z.topics.Err? {
      ErrShape(third);
    } else {
      TopicsShape(topics, z.topics.value, third);
    }
    if z.controller.Err? {
      ErrShape(second);
    } else {
      var m := Metric(Controller, ControllerSends(z.controller)[0].labels, 1);
      assert SendAll([m]) == [Send(m)] + SendAll([m][1..]) == [Send(m)];
      assert ([Send(m)] + second)[1..] == second;
    }
  }

  // ---- Runs -------------------------------------------------------------------------------------------------

  /** The schedule only ever runs goroutines that can take a step. */
  predicate Possible(s: State, schedule: seq<Choice>)
    decreases |schedule|
  {
    schedule == [] || (Enabled(s, schedule[0]) && Possible(Step(s, schedule[0]), schedule[1..]))
  }

  function Exec(s: State, schedule: seq<Choice>): State
    requires Possible(s, schedule)
    decreases |schedule|
  {
    if schedule == [] then s else Exec(Step(s, schedule[0]), schedule[1..])
  }

  /** What has been sent, without the gauge once main has finished. */
  function Body(s: State): seq<Metric> {
    if s.main == [] && s.out != [] then s.out[..|s.out| - 1] else s.out
  }

  function Flagged(zkErr: int, errors: nat): int {
    if errors > 0 then 1 else zkErr
  }

  /** The account of a run that has `sends` to send in all: sent and unsent metrics
      add up, the flag plus the errors still to come decide the final flag, and the gauge, once
      sent, is last and carries the flag. */
  ghost predicate Accounts(s: State, sends: seq<Metric>, flag: int) {
    && Inv(s)
    && (forall m: Metric :: Occurrences(m, Body(s)) + Outstanding(SendsOf(m), s) == Occurrences(m, sends))
    && Flagged(s.zkErr, Outstanding(Errors, s)) == flag
    && (s.main == [] ==> s.out != [] && s.out[|s.out| - 1] == Gauge(s.zkErr))
  }

  lemma OccurrencesPush(m: Metric, ms: seq<Metric>, x: Metric)
    ensures Occurrences(m, ms + [x]) == Occurrences(m, ms) + if m == x then 1 else 0
  {
  }

  /** A finished main has nobody left to interfere. */
  lemma MainIsAlive(s: State, c: Choice)
    requires Inv(s) && Enabled(s, c)
    ensures s.main != []
  {
    if s.main == [] {
      AfterWaitOnlyMain(Steps, s);
    }
  }

  lemma StepKeepsCount(s: State, c: Choice, m: Metric)
    requires Inv(s) && Enabled(s, c)
    ensures
      var s' := Step(s, c);
      Occurrences(m, Body(s')) + Outstanding(SendsOf(m), s') == Occurrences(m, Body(s)) + Outstanding(SendsOf(m), s)
  {
    var s', instr := Step(s, c), CodeOf(s, c)[0];
    MainIsAlive(s, c);
    StepConserves(SendsOf(m), s, c);
    assert Body(s) == s.out;
    match instr
    case Send(x) =>
      SendIsNotLast(s, c);
      OccurrencesPush(m, s.out, x);
    case SendError =>
      GaugeIsLast(s, c);
      assert s'.out[..|s'.out| - 1] == s.out;
    case _ =>
      OtherIsNotLast(s, c);
  }

  /** Only main's last instruction sends the gauge, and nothing else finishes main. */
  lemma GaugeIsLast(s: State, c: Choice)
    requires Inv(s) && Enabled(s, c)
    ensures CodeOf(s, c)[0].SendError? ==> c == Main && Step(s, c).main == []
  {
    match c
    case Main =>
    case OfWorker(i) => assert WorkerInv(s, i);
    case OfLeaf(j) => assert LeafInv(s, j);
  }

  lemma SendIsNotLast(s: State, c: Choice)
    requires Inv(s) && Enabled(s, c) && CodeOf(s, c)[0].Send? && s.main != []
    ensures Step(s, c).main != []
  {
  }

  lemma OtherIsNotLast(s: State, c: Choice)
    requires Inv(s) && Enabled(s, c) && !CodeOf(s, c)[0].SendError? && !CodeOf(s, c)[0].Send? && s.main != []
    ensures Step(s, c).main != [] && Step(s, c).out == s.out
  {
  }

  lemma StepKeepsFlag(s: State, c: Choice)
    requires Inv(s) && Enabled(s, c)
    ensures
      var s' := Step(s, c);
      Flagged(s'.zkErr, Outstanding(Errors, s')) == Flagged(s.zkErr, Outstanding(Errors, s))
  {
    StepConserves(Errors, s, c);
  }

  lemma StepKeepsAccounts(s: State, c: Choice, sends: seq<Metric>, flag: int)
    requires Accounts(s, sends, flag) && Enabled(s, c)
    ensures Accounts(Step(s, c), sends, flag)
  {
    var s' := Step(s, c);
    StepKeepsInv(s, c);
    StepKeepsFlag(s, c);
    MainIsAlive(s, c);
    forall m: Metric
      ensures Occurrences(m, Body(s')) + Outstanding(SendsOf(m), s') == Occurrences(m, Body(s)) + Outstanding(SendsOf(m), s)
    {
      StepKeepsCount(s, c, m);
    }
    if s'.main == [] {
      var instr := CodeOf(s, c)[0];
      if instr.Send? {
        SendIsNotLast(s, c);
      } else if !instr.SendError? {
        OtherIsNotLast(s, c);
      }
    }
  }

  lemma {:induction false} RunKeepsAccounts(s: State, schedule: seq<Choice>, sends: seq<Metric>, flag: int)
    requires Accounts(s, sends, flag) && Possible(s, schedule)
    ensures Accounts(Exec(s, schedule), sends, flag)
    ensures |schedule| + Outstanding(Steps, Exec(s, schedule)) == Outstanding(Steps, s)
    decreases |schedule|
  {
    if schedule == [] {
    } else {
      StepKeepsAccounts(s, schedule[0], sends, flag);
      StepConserves(Steps, s, schedule[0]);
      RunKeepsAccounts(Step(s, schedule[0]), schedule[1..], sends, flag);
    }
  }

  // ---- The theorems -------------------------------------------------------------------------------------------

  lemma StartAccounts(z: ZooKeeper, topics: seq<string>, consumers: seq<string>, zkErr: int)
    ensures
      var s := Start(z, topics, consumers, zkErr);
      Accounts(s, SequentialSends(z, topics, consumers), Flagged(zkErr, FailedFetches(z, topics, consumers)))
  {
    var s := Start(z, topics, consumers, zkErr);
    StartInv(z, topics, consumers, zkErr);
    CollectTotal(Errors, z, topics, consumers);
    forall m: Metric
      ensures Outstanding(SendsOf(m), s) == Occurrences(m, SequentialSends(z, topics, consumers))
    {
      CollectTotal(SendsOf(m), z, topics, consumers);
    }
    ContinuesNonempty(z, topics, consumers);
  }

  lemma ContinuesNonempty(z: ZooKeeper, topics: seq<string>, consumers: seq<string>)
    ensures CollectCode(z, topics, consumers) != []
  {
  }

  lemma {:induction false} PartitionsErrorsIff(ps: seq<Partition>)
    ensures PartitionsErrors(ps) > 0 <==> SomePartitionFailed(ps)
  {
    if ps == [] {
    } else {
      PartitionsErrorsIff(ps[1..]);
    }
  }

  lemma {:induction false} TopicsErrorsIff(topics: seq<string>, ts: seq<Topic>)
    ensures TopicsErrors(topics, ts) > 0 <==> SomeTopicFailed(topics, ts)
  {
    if ts == [] {
    } else {
      TopicsErrorsIff(topics, ts[1..]);
      if ts[0].partitions.Ok? {
        PartitionsErrorsIff(ts[0].partitions.value);
      }
    }
  }

  lemma {:induction false} ConsumersErrorsIff(consumers: seq<string>, cs: seq<Consumer>)
    ensures ConsumersErrors(consumers, cs) > 0 <==> SomeConsumerFailed(consumers, cs)
  {
    if cs == [] {
    } else {
      ConsumersErrorsIff(consumers, cs[1..]);
    }
  }

  lemma FailedFetchesIff(z: ZooKeeper, topics: seq<string>, consumers: seq<string>)
    ensures FailedFetches(z, topics, consumers) > 0 <==> FetchFailed(z, topics, consumers)
  {
    if z.topics.Ok? {
      TopicsErrorsIff(topics, z.topics.value);
    }
    if z.consumers.Ok? {
      ConsumersErrorsIff(consumers, z.consumers.value);
    }
  }

  lemma RunAccounts(z: ZooKeeper, topics: seq<string>, consumers: seq<string>, zkErr: int, schedule: seq<Choice>)
    requires Possible(Start(z, topics, consumers, zkErr), schedule)
    ensures Accounts(Exec(Start(z, topics, consumers, zkErr), schedule), SequentialSends(z, topics, consumers),
                     if FetchFailed(z, topics, consumers) then 1 else zkErr)
    ensures |schedule| + Outstanding(Steps, Exec(Start(z, topics, consumers, zkErr), schedule))
            == Outstanding(Steps, Start(z, topics, consumers, zkErr))
  {
    StartAccounts(z, topics, consumers, zkErr);
    FailedFetchesIff(z, topics, consumers);
    RunKeepsAccounts(Start(z, topics, consumers, zkErr), schedule, SequentialSends(z, topics, consumers),
                     if FetchFailed(z, topics, consumers) then 1 else zkErr);
  }

  /** When everybody has finished, everything has been sent. */
  lemma AllSent(s: State, sends: seq<Metric>, flag: int)
    requires Accounts(s, sends, flag) && Finished(s)
    ensures multiset(Body(s)) == multiset(sends) && s.zkErr == flag
    ensures s.out == Body(s) + [Gauge(flag)]
  {
    AfterWaitOnlyMain(Errors, s);
    forall m: Metric
      ensures multiset(Body(s))[m] == multiset(sends)[m]
    {
      AfterWaitOnlyMain(SendsOf(m), s);
      assert Occurrences(m, Body(s)) + Outstanding(SendsOf(m), s) == Occurrences(m, sends);
    }
  }

  /** Schedule independence and the error gauge: when every goroutine has finished, whatever the
      interleaving, what was sent is a permutation of what the sequential loops send, followed by
      exactly one scrape-error gauge; its value is 1 if and only if some fetch failed (or the
      collector's flag was already set). */
  lemma EveryScheduleAgrees(z: ZooKeeper, topics: seq<string>, consumers: seq<string>, zkErr: int, schedule: seq<Choice>)
    returns (body: seq<Metric>)
    requires Possible(Start(z, topics, consumers, zkErr), schedule)
    requires Finished(Exec(Start(z, topics, consumers, zkErr), schedule))
    ensures
      var s := Exec(Start(z, topics, consumers, zkErr), schedule);
      var flag := if FetchFailed(z, topics, consumers) then 1 else zkErr;
      && s.zkErr == flag
      && s.out == body + [Gauge(flag)]
      && multiset(body) == multiset(SequentialSends(z, topics, consumers))
      && NoGauge(body)
  {
    RunAccounts(z, topics, consumers, zkErr, schedule);
    var s := Exec(Start(z, topics, consumers, zkErr), schedule);
    body := Body(s);
    AllSent(s, SequentialSends(z, topics, consumers), if FetchFailed(z, topics, consumers) then 1 else zkErr);
    SequentialNoGauge(z, topics, consumers);
    forall m | m in body
      ensures m.family != ZookeeperScrapeError
    {
      assert m in multiset(body);
      assert m in multiset(SequentialSends(z, topics, consumers));
    }
  }

  /** Termination without deadlock: every schedule can be continued until all goroutines have
      finished, and all complete schedules have the same length. */
  lemma EveryScheduleEnds(z: ZooKeeper, topics: seq<string>, consumers: seq<string>, zkErr: int, schedule: seq<Choice>)
    returns (rest: seq<Choice>)
    requires Possible(Start(z, topics, consumers, zkErr), schedule)
    ensures
      var start := Start(z, topics, consumers, zkErr);
      && |schedule| + |rest| == Outstanding(Steps, start)
      && Possible(start, schedule + rest) && Finished(Exec(start, schedule + rest))
  {
    var start := Start(z, topics, consumers, zkErr);
    RunAccounts(z, topics, consumers, zkErr, schedule);
    rest := Finish(Exec(start, schedule), SequentialSends(z, topics, consumers),
                   if FetchFailed(z, topics, consumers) then 1 else zkErr);
    ExecConcat(start, schedule, rest);
  }

  lemma {:induction false} Finish(s: State, sends: seq<Metric>, flag: int) returns (rest: seq<Choice>)
    requires Accounts(s, sends, flag)
    ensures Possible(s, rest) && Finished(Exec(s, rest)) && |rest| == Outstanding(Steps, s)
    decreases Outstanding(Steps, s)
  {
    if Finished(s) {
      rest := [];
      AfterWaitOnlyMain(Steps, s);
    } else {
      var c := SomebodyCanStep(s);
      StepKeepsAccounts(s, c, sends, flag);
      StepConserves(Steps, s, c);
      var later := Finish(Step(s, c), sends, flag);
      rest := [c] + later;
      assert rest[1..] == later;
    }
  }

  lemma {:induction false} ExecConcat(s: State, a: seq<Choice>, b: seq<Choice>)
    requires Possible(s, a) && Possible(Exec(s, a), b)
    ensures Possible(s, a + b) && Exec(s, a + b) == Exec(Exec(s, a), b)
    decreases |a|
  {
    if a == [] {
      assert a + b == b;
    } else {
      assert (a + b)[1..] == a[1..] + b;
      ExecConcat(Step(s, a[0]), a[1..], b);
    }
  }

  lemma StuckIffFinished(s: State)
    requires Inv(s)
    ensures (forall c :: !Enabled(s, c)) <==> Finished(s)
  {
    if !Finished(s) {
      var c := SomebodyCanStep(s);
    }
  }

  /** A schedule that cannot be continued has finished everybody. */
  lemma StuckMeansFinished(z: ZooKeeper, topics: seq<string>, consumers: seq<string>, zkErr: int, schedule: seq<Choice>)
    requires Possible(Start(z, topics, consumers, zkErr), schedule)
    ensures
      var s := Exec(Start(z, topics, consumers, zkErr), schedule);
      (forall c :: !Enabled(s, c)) <==> Finished(s)
  {
    RunAccounts(z, topics, consumers, zkErr, schedule);
    StuckIffFinished(Exec(Start(z, topics, consumers, zkErr), schedule));
  }

  /** The WaitGroup invariant over every run: the counters are exact and never negative, and once main
      is past its `Wait`, all it can do is send the gauge, and everybody else has finished. */
  lemma GaugeComesLast(z: ZooKeeper, topics: seq<string>, consumers: seq<string>, zkErr: int, schedule: seq<Choice>)
    requires Possible(Start(z, topics, consumers, zkErr), schedule)
    ensures
      var s := Exec(Start(z, topics, consumers, zkErr), schedule);
      && s.mainWg == LiveWorkers(s.workers) + Debt(s.main)
      && (forall i :: 0 <= i < |s.workers| ==>
            s.workers[i].wg == LiveLeaves(s.leaves, i) + Debt(s.workers[i].code))
      && s.mainWg >= 0 && (forall i :: 0 <= i < |s.workers| ==> s.workers[i].wg >= 0)
      && (!HasWait(s.main) ==>
            && (s.main == [SendError] || s.main == [])
            && (forall i :: 0 <= i < |s.workers| ==> s.workers[i].code == [])
            && (forall j :: 0 <= j < |s.leaves| ==> s.leaves[j].code == []))
  {
    var s := Exec(Start(z, topics, consumers, zkErr), schedule);
    RunAccounts(z, topics, consumers, zkErr, schedule);
    forall i | 0 <= i < |s.workers|
      ensures s.workers[i].wg == LiveLeaves(s.leaves, i) + Debt(s.workers[i].code)
    {
      assert WorkerInv(s, i);
    }
    CountersAreNotNegative(s);
    if !HasWait(s.main) {
      AfterWaitOnlyMain(Steps, s);
    }
  }
}
