/** The collector's goroutines as interleaved steps: one main goroutine, the workers it starts
    (one per topic or consumer group) and the leaves that workers start (one per partition),
    with the WaitGroup of each parent as an explicit counter. */
module FanOut {
  import opened KafkaMetrics

  /** One step of a goroutine whose ZooKeeper answers are fixed. `SendError` sends the
      scrape-error gauge with the flag's value at that moment. */
  datatype Instr =
    | Send(metric: Metric)
    | SetErr
    | Add(n: nat)
    | Go(code: seq<Instr>)
    | Done
    | Wait
    | SendError

  datatype Worker = Worker(code: seq<Instr>, wg: int)
  datatype Leaf = Leaf(parent: nat, code: seq<Instr>)

  datatype State = State(
    main: seq<Instr>,
    mainWg: int,
    workers: seq<Worker>,
    leaves: seq<Leaf>,
    zkErr: int,
    out: seq<Metric>)

  /** Which goroutine the scheduler runs next. */
  datatype Choice = Main | OfWorker(i: nat) | OfLeaf(j: nat)

  function CodeOf(s: State, c: Choice): seq<Instr> {
    match c
    case Main => s.main
    case OfWorker(i) => if i < |s.workers| then s.workers[i].code else []
    case OfLeaf(j) => if j < |s.leaves| then s.leaves[j].code else []
  }

  /** The goroutine has a step to take, and is not blocked in `Wait`. */
  predicate Enabled(s: State, c: Choice) {
    var code := CodeOf(s, c);
    code != [] &&
    match c
    case Main => code[0].Wait? ==> s.mainWg == 0
    case OfWorker(i) => code[0].Wait? ==> s.workers[i].wg == 0
    case OfLeaf(j) => s.leaves[j].parent < |s.workers|
  }

  /** The goroutine with its first instruction gone. */
  function Advance(s: State, c: Choice): State
    requires CodeOf(s, c) != []
  {
    match c
    case Main => s.(main := s.main[1..])
    case OfWorker(i) => s.(workers := s.workers[i := s.workers[i].(code := s.workers[i].code[1..])])
    case OfLeaf(j) => s.(leaves := s.leaves[j := s.leaves[j].(code := s.leaves[j].code[1..])])
  }

  /** What an instruction does, after the goroutine has advanced past it. */
  function Effect(s: State, c: Choice, instr: Instr): State
    requires c.OfWorker? ==> c.i < |s.workers|
    requires c.OfLeaf? ==> c.j < |s.leaves| && s.leaves[c.j].parent < |s.workers|
  {
    match instr
    case Send(m) => s.(out := s.out + [m])
    case SendError => s.(out := s.out + [Gauge(s.zkErr)])
    case SetErr => s.(zkErr := 1)
    case Wait => s
    case Add(n) =>
      (match c
       case Main => s.(mainWg := s.mainWg + n)
       case OfWorker(i) => s.(workers := AddTo(s.workers, i, n))
       case OfLeaf(j) => s)
    case Go(code) =>
      (match c
       case Main => s.(workers := s.workers + [Worker(code, 0)])
       case OfWorker(i) => s.(leaves := s.leaves + [Leaf(i, code)])
       case OfLeaf(j) => s)
    case Done =>
      (match c
       case Main => s
       case OfWorker(i) => s.(mainWg := s.mainWg - 1)
       case OfLeaf(j) => s.(workers := AddTo(s.workers, s.leaves[j].parent, -1)))
  }

  function AddTo(workers: seq<Worker>, i: nat, n: int): seq<Worker>
    requires i < |workers|
  {
    workers[i := workers[i].(wg := workers[i].wg + n)]
  }

  function Step(s: State, c: Choice): State
    requires Enabled(s, c)
  {
    Effect(Advance(s, c), c, CodeOf(s, c)[0])
  }

  // ---- Measures of code -----------------------------------------------------------------------------

  /** What is counted: sends of one given metric (the gauge excepted), settings of the error
      flag, or steps. */
  datatype Measure = SendsOf(m: Metric) | Errors | Steps

  /** One instruction on its own. */
  function Weight(q: Measure, instr: Instr): nat {
    match q
    case SendsOf(m) => if instr == Send(m) then 1 else 0
    case Errors => if instr.SetErr? then 1 else 0
    case Steps => 1
  }

  /** A piece of code with everything it starts. */
  function Total(q: Measure, code: seq<Instr>): nat {
    if code == [] then 0
    else Weight(q, code[0]) + (if code[0].Go? then Total(q, code[0].code) else 0) + Total(q, code[1..])
  }

  /** How many goroutines it will start itself, less what it will add to its WaitGroup. */
  function Debt(code: seq<Instr>): int {
    if code == [] then 0
    else DebtOf(code[0]) + Debt(code[1..])
  }

  function DebtOf(instr: Instr): int {
    match instr
    case Go(_) => 1
    case Add(n) => 0 - n
    case _ => 0
  }

  predicate HasWait(code: seq<Instr>) {
    code != [] && (code[0].Wait? || HasWait(code[1..]))
  }

  // ---- The shape of the code -------------------------------------------------------------------------

  /** A leaf sends and flags errors, and ends with its `Done`. */
  predicate LeafCode(code: seq<Instr>) {
    code == [] || code == [Done]
    || ((code[0].Send? || code[0].SetErr?) && code[1..] != [] && LeafCode(code[1..]))
  }

  /** At no point has the code more to add than to start: what it adds to its WaitGroup comes before
      what it starts. */
  predicate AddsFirst(code: seq<Instr>) {
    Debt(code) >= 0 && (code != [] ==> AddsFirst(code[1..]))
  }

  /** A worker starts leaves only before it waits for them, and ends with its `Done`. */
  predicate WorkerCode(code: seq<Instr>) {
    code == [] || code == [Done] || code == [Wait, Done]
    || ((code[0].Send? || code[0].SetErr? || code[0].Add?) && code[1..] != [] && WorkerCode(code[1..]))
    || (code[0].Go? && code[0].code != [] && LeafCode(code[0].code) && HasWait(code[1..]) && WorkerCode(code[1..]))
  }

  /** Main starts workers, waits for them, and sends the gauge last. */
  predicate MainCode(code: seq<Instr>) {
    code == [] || code == [SendError] || code == [Wait, SendError]
    || ((code[0].Send? || code[0].SetErr? || code[0].Add?) && HasWait(code[1..]) && MainCode(code[1..]))
    || (code[0].Go? && code[0].code != [] && WorkerCode(code[0].code) && Debt(code[0].code) == 0
        && AddsFirst(code[0].code) && HasWait(code[1..]) && MainCode(code[1..]))
  }

  // ---- The invariant ----------------------------------------------------------------------------------

  function LiveWorkers(workers: seq<Worker>): nat {
    if workers == [] then 0
    else LiveWorkers(workers[..|workers| - 1]) + if workers[|workers| - 1].code != [] then 1 else 0
  }

  function LiveLeaves(leaves: seq<Leaf>, parent: nat): nat {
    if leaves == [] then 0
    else
      var last := leaves[|leaves| - 1];
      LiveLeaves(leaves[..|leaves| - 1], parent) + if last.parent == parent && last.code != [] then 1 else 0
  }

  /** Every WaitGroup counter is the number of its unfinished goroutines, the ones still to be
      started and added included, and never negative; nobody gets past a `Wait` while one of them
      is alive. */
  ghost predicate Inv(s: State) {
    && MainCode(s.main) && AddsFirst(s.main)
    && s.mainWg == LiveWorkers(s.workers) + Debt(s.main)
    && (forall i :: 0 <= i < |s.workers| ==> WorkerInv(s, i))
    && (forall j :: 0 <= j < |s.leaves| ==> LeafInv(s, j))
    && (!HasWait(s.main) ==> LiveWorkers(s.workers) == 0)
  }

  ghost predicate WorkerInv(s: State, i: nat)
    requires i < |s.workers|
  {
    && WorkerCode(s.workers[i].code) && AddsFirst(s.workers[i].code)
    && s.workers[i].wg == LiveLeaves(s.leaves, i) + Debt(s.workers[i].code)
  }

  ghost predicate LeafInv(s: State, j: nat)
    requires j < |s.leaves|
  {
    && LeafCode(s.leaves[j].code)
    && s.leaves[j].parent < |s.workers|
    && (s.leaves[j].code != [] ==> HasWait(s.workers[s.leaves[j].parent].code))
  }

  lemma {:induction false} LiveWorkersUpdate(workers: seq<Worker>, i: nat, w: Worker)
    requires i < |workers|
    ensures LiveWorkers(workers[i := w]) == LiveWorkers(workers)
              - (if workers[i].code != [] then 1 else 0) + (if w.code != [] then 1 else 0)
  {
    var n := |workers| - 1;
    if i == n {
      assert workers[i := w][..n] == workers[..n];
    } else {
      assert workers[i := w][..n] == workers[..n][i := w];
      LiveWorkersUpdate(workers[..n], i, w);
    }
  }

  lemma {:induction false} LiveLeavesUpdate(leaves: seq<Leaf>, j: nat, code: seq<Instr>, parent: nat)
    requires j < |leaves|
    ensures LiveLeaves(leaves[j := Leaf(leaves[j].parent, code)], parent) == LiveLeaves(leaves, parent)
              + if leaves[j].parent != parent then 0
                else (if code != [] then 1 else 0) - (if leaves[j].code != [] then 1 else 0)
  {
    var n := |leaves| - 1;
    var l := Leaf(leaves[j].parent, code);
    if j == n {
      assert leaves[j := l][..n] == leaves[..n];
    } else {
      assert leaves[j := l][..n] == leaves[..n][j := l];
      LiveLeavesUpdate(leaves[..n], j, code, parent);
    }
  }

  /** No live worker means that every worker has finished. */
  lemma {:induction false} NoLiveWorker(workers: seq<Worker>, i: nat)
    requires i < |workers| && LiveWorkers(workers) == 0
    ensures workers[i].code == []
  {
    if i == |workers| - 1 {
    } else {
      NoLiveWorker(workers[..|workers| - 1], i);
    }
  }

  lemma {:induction false} LiveLeafCounts(leaves: seq<Leaf>, j: nat)
    requires j < |leaves| && leaves[j].code != []
    ensures LiveLeaves(leaves, leaves[j].parent) > 0
  {
    if j == |leaves| - 1 {
    } else {
      LiveLeafCounts(leaves[..|leaves| - 1], j);
    }
  }

  lemma {:induction false} LiveWorkerCounts(workers: seq<Worker>, i: nat)
    requires i < |workers| && workers[i].code != []
    ensures LiveWorkers(workers) > 0
  {
    if i == |workers| - 1 {
    } else {
      LiveWorkerCounts(workers[..|workers| - 1], i);
    }
  }

  lemma {:induction false} NoSuchParent(leaves: seq<Leaf>, parent: nat)
    requires forall j :: 0 <= j < |leaves| ==> leaves[j].parent != parent
    ensures LiveLeaves(leaves, parent) == 0
  {
    if leaves == [] {
    } else {
      NoSuchParent(leaves[..|leaves| - 1], parent);
    }
  }

  // ---- The invariant is kept ----------------------------------------------------------------------------

  /** A step of main keeps main's own part of the invariant. */
  lemma MainKeepsMain(s: State)
    requires Inv(s) && Enabled(s, Main)
    ensures
      var s' := Step(s, Main);
      && MainCode(s'.main) && AddsFirst(s'.main)
      && s'.mainWg == LiveWorkers(s'.workers) + Debt(s'.main)
      && (!HasWait(s'.main) ==> LiveWorkers(s'.workers) == 0)
  {
    var s' := Step(s, Main);
    assert s'.main == s.main[1..];
    if s.main[0].Go? {
      assert s'.workers[..|s.workers|] == s.workers;
    }
  }

  lemma MainKeepsWorker(s: State, i: nat)
    requires Inv(s) && Enabled(s, Main) && i < |Step(s, Main).workers|
    ensures WorkerInv(Step(s, Main), i)
  {
    if i < |s.workers| {
      assert WorkerInv(s, i);
    } else {
      forall j | 0 <= j < |s.leaves|
        ensures s.leaves[j].parent != |s.workers|
      {
        assert LeafInv(s, j);
      }
      NoSuchParent(s.leaves, |s.workers|);
    }
  }

  lemma WorkerKeepsWorkers(s: State, i: nat, k: nat)
    requires Inv(s) && Enabled(s, OfWorker(i)) && k < |s.workers|
    ensures WorkerInv(Step(s, OfWorker(i)), k)
  {
    var s' := Step(s, OfWorker(i));
    assert WorkerInv(s, k);
    if s.workers[i].code[0].Go? {
      assert s'.leaves[..|s.leaves|] == s.leaves;
    }
  }

  /** At a worker's `Wait` the counter is the number of its live leaves. */
  lemma NoLeafAtWait(s: State, i: nat, j: nat)
    requires Inv(s) && Enabled(s, OfWorker(i)) && j < |s.leaves| && s.leaves[j].parent == i
    requires s.leaves[j].code != []
    ensures HasWait(s.workers[i].code[1..])
  {
    assert WorkerInv(s, i);
    assert LeafInv(s, j);
    LiveLeafCounts(s.leaves, j);
    DebtAtWait(s.workers[i].code, Done);
  }

  /** Code that is about to wait owes nothing. */
  lemma DebtAtWait(code: seq<Instr>, last: Instr)
    requires DebtOf(last) == 0
    ensures code == [Wait, last] ==> Debt(code) == 0
  {
    assert Debt([last]) == 0;
  }

  lemma WorkerKeepsLeaves(s: State, i: nat, j: nat)
    requires Inv(s) && Enabled(s, OfWorker(i)) && j < |Step(s, OfWorker(i)).leaves|
    ensures LeafInv(Step(s, OfWorker(i)), j)
  {
    assert WorkerInv(s, i);
    if j < |s.leaves| {
      assert LeafInv(s, j);
      if s.leaves[j].code != [] && s.leaves[j].parent == i {
        NoLeafAtWait(s, i, j);
      }
    }
  }

  lemma WorkerKeepsInv(s: State, i: nat)
    requires Inv(s) && Enabled(s, OfWorker(i))
    ensures Inv(Step(s, OfWorker(i)))
  {
    var s' := Step(s, OfWorker(i));
    assert WorkerInv(s, i);
    assert s'.workers == s.workers[i := s'.workers[i]];
    LiveWorkersUpdate(s.workers, i, s'.workers[i]);
    LiveWorkerCounts(s.workers, i);
    forall k | 0 <= k < |s'.workers|
      ensures WorkerInv(s', k)
    {
      WorkerKeepsWorkers(s, i, k);
    }
    forall j | 0 <= j < |s'.leaves|
      ensures LeafInv(s', j)
    {
      WorkerKeepsLeaves(s, i, j);
    }
  }

  lemma LeafKeepsInv(s: State, j: nat)
    requires Inv(s) && Enabled(s, OfLeaf(j))
    ensures Inv(Step(s, OfLeaf(j)))
  {
    var s' := Step(s, OfLeaf(j));
    var l := s.leaves[j];
    var instr := l.code[0];
    assert LeafInv(s, j);
    assert s'.leaves == s.leaves[j := Leaf(l.parent, l.code[1..])];
    LiveWorkersUpdate(s.workers, l.parent, s'.workers[l.parent]);
    assert s'.workers == s.workers[l.parent := s'.workers[l.parent]];
    forall k | 0 <= k < |s'.workers|
      ensures WorkerInv(s', k)
    {
      assert WorkerInv(s, k);
      LiveLeavesUpdate(s.leaves, j, l.code[1..], k);
    }
    forall k | 0 <= k < |s'.leaves|
      ensures LeafInv(s', k)
    {
      assert LeafInv(s, k);
    }
  }

  /** Every step of every goroutine keeps the invariant. */
  lemma StepKeepsInv(s: State, c: Choice)
    requires Inv(s) && Enabled(s, c)
    ensures Inv(Step(s, c))
  {
    match c
    case Main =>
      var s' := Step(s, Main);
      MainKeepsMain(s);
      forall i | 0 <= i < |s'.workers|
        ensures WorkerInv(s', i)
      {
        MainKeepsWorker(s, i);
      }
      forall j | 0 <= j < |s'.leaves|
        ensures LeafInv(s', j)
      {
        assert LeafInv(s, j);
      }
    case OfWorker(i) => WorkerKeepsInv(s, i);
    case OfLeaf(j) => LeafKeepsInv(s, j);
  }

  /** Go's WaitGroup panics on a negative counter; none of these ever is. */
  lemma CountersAreNotNegative(s: State)
    requires Inv(s)
    ensures s.mainWg >= 0 && forall i :: 0 <= i < |s.workers| ==> s.workers[i].wg >= 0
  {
    forall i | 0 <= i < |s.workers|
      ensures s.workers[i].wg >= 0
    {
      assert WorkerInv(s, i);
    }
  }

  // ---- Conservation and progress -------------------------------------------------------------------------

  function WorkersTotal(q: Measure, workers: seq<Worker>): nat {
    if workers == [] then 0
    else WorkersTotal(q, workers[..|workers| - 1]) + Total(q, workers[|workers| - 1].code)
  }

  function LeavesTotal(q: Measure, leaves: seq<Leaf>): nat {
    if leaves == [] then 0
    else LeavesTotal(q, leaves[..|leaves| - 1]) + Total(q, leaves[|leaves| - 1].code)
  }

  /** What all goroutines together, started or not, still have to do. */
  function Outstanding(q: Measure, s: State): nat {
    Total(q, s.main) + WorkersTotal(q, s.workers) + LeavesTotal(q, s.leaves)
  }

  lemma {:induction false} WorkersUpdate(q: Measure, workers: seq<Worker>, i: nat, w: Worker)
    requires i < |workers|
    ensures WorkersTotal(q, workers[i := w]) == WorkersTotal(q, workers) - Total(q, workers[i].code) + Total(q, w.code)
  {
    var n := |workers| - 1;
    if i == n {
      assert workers[i := w][..n] == workers[..n];
    } else {
      assert workers[i := w][..n] == workers[..n][i := w];
      WorkersUpdate(q, workers[..n], i, w);
    }
  }

  lemma {:induction false} LeavesUpdate(q: Measure, leaves: seq<Leaf>, j: nat, l: Leaf)
    requires j < |leaves|
    ensures LeavesTotal(q, leaves[j := l]) == LeavesTotal(q, leaves) - Total(q, leaves[j].code) + Total(q, l.code)
  {
    var n := |leaves| - 1;
    if j == n {
      assert leaves[j := l][..n] == leaves[..n];
    } else {
      assert leaves[j := l][..n] == leaves[..n][j := l];
      LeavesUpdate(q, leaves[..n], j, l);
    }
  }

  lemma MainConserves(q: Measure, s: State)
    requires Enabled(s, Main)
    ensures Outstanding(q, s) == Weight(q, s.main[0]) + Outstanding(q, Step(s, Main))
  {
    var s', instr := Step(s, Main), s.main[0];
    assert s'.main == s.main[1..] && s'.leaves == s.leaves;
    if instr.Go? {
      assert s'.workers[..|s.workers|] == s.workers;
      assert WorkersTotal(q, s'.workers) == WorkersTotal(q, s.workers) + Total(q, instr.code);
    } else {
      assert s'.workers == s.workers;
    }
  }

  lemma WorkerConserves(q: Measure, s: State, i: nat)
    requires Enabled(s, OfWorker(i))
    ensures Outstanding(q, s) == Weight(q, s.workers[i].code[0]) + Outstanding(q, Step(s, OfWorker(i)))
  {
    var s', code := Step(s, OfWorker(i)), s.workers[i].code;
    WorkersUpdate(q, s.workers, i, s'.workers[i]);
    assert s'.workers == s.workers[i := s'.workers[i]];
    if code[0].Go? {
      assert s'.leaves[..|s.leaves|] == s.leaves;
      assert LeavesTotal(q, s'.leaves) == LeavesTotal(q, s.leaves) + Total(q, code[0].code);
    } else {
      assert s'.leaves == s.leaves;
    }
  }

  lemma LeafConserves(q: Measure, s: State, j: nat)
    requires Enabled(s, OfLeaf(j)) && !s.leaves[j].code[0].Go?
    ensures Outstanding(q, s) == Weight(q, s.leaves[j].code[0]) + Outstanding(q, Step(s, OfLeaf(j)))
  {
    var s', p := Step(s, OfLeaf(j)), s.leaves[j].parent;
    LeavesUpdate(q, s.leaves, j, s'.leaves[j]);
    assert s'.leaves == s.leaves[j := s'.leaves[j]];
    WorkersUpdate(q, s.workers, p, s'.workers[p]);
    assert s'.workers == s.workers[p := s'.workers[p]];
  }

  /** Conservation: a step takes its own instruction, and nothing else, off what is outstanding;
      started code changes hands but is not lost. */
  lemma StepConserves(q: Measure, s: State, c: Choice)
    requires Inv(s) && Enabled(s, c)
    ensures Outstanding(q, s) == Weight(q, CodeOf(s, c)[0]) + Outstanding(q, Step(s, c))
  {
    match c
    case Main => MainConserves(q, s);
    case OfWorker(i) => WorkerConserves(q, s, i);
    case OfLeaf(j) =>
      assert LeafInv(s, j);
      LeafConserves(q, s, j);
  }

  /** Nobody has a step left to take. */
  predicate Finished(s: State) {
    && s.main == []
    && (forall i :: 0 <= i < |s.workers| ==> s.workers[i].code == [])
    && (forall j :: 0 <= j < |s.leaves| ==> s.leaves[j].code == [])
  }

  /** Progress: unless everybody has finished, some goroutine can take a step. */
  lemma SomebodyCanStep(s: State) returns (c: Choice)
    requires Inv(s) && !Finished(s)
    ensures Enabled(s, c)
  {
    if j :| 0 <= j < |s.leaves| && s.leaves[j].code != [] {
      assert LeafInv(s, j);
      c := OfLeaf(j);
    } else if i :| 0 <= i < |s.workers| && s.workers[i].code != [] {
      assert WorkerInv(s, i);
      NoLeafLives(s.leaves, i);
      DebtAtWait(s.workers[i].code, Done);
      c := OfWorker(i);
    } else {
      NoWorkerLives(s.workers);
      DebtAtWait(s.main, SendError);
      c := Main;
    }
  }

  lemma {:induction false} NoLeafLives(leaves: seq<Leaf>, parent: nat)
    requires forall j :: 0 <= j < |leaves| ==> leaves[j].code == []
    ensures LiveLeaves(leaves, parent) == 0
  {
    if leaves == [] {
    } else {
      NoLeafLives(leaves[..|leaves| - 1], parent);
    }
  }

  lemma {:induction false} NoWorkerLives(workers: seq<Worker>)
    requires forall i :: 0 <= i < |workers| ==> workers[i].code == []
    ensures LiveWorkers(workers) == 0
  {
    if workers == [] {
    } else {
      NoWorkerLives(workers[..|workers| - 1]);
    }
  }

  /** Once main is past its `Wait`, no worker and no leaf is alive: what main does then is last. */
  lemma AfterWaitOnlyMain(q: Measure, s: State)
    requires Inv(s) && !HasWait(s.main)
    ensures forall i :: 0 <= i < |s.workers| ==> s.workers[i].code == []
    ensures forall j :: 0 <= j < |s.leaves| ==> s.leaves[j].code == []
    ensures Outstanding(q, s) == Total(q, s.main)
  {
    forall i | 0 <= i < |s.workers|
      ensures s.workers[i].code == []
    {
      NoLiveWorker(s.workers, i);
    }
    forall j | 0 <= j < |s.leaves|
      ensures s.leaves[j].code == []
    {
      assert LeafInv(s, j);
    }
    NothingLeft(q, s.workers, s.leaves);
  }

  lemma {:induction false} NothingLeft(q: Measure, workers: seq<Worker>, leaves: seq<Leaf>)
    requires forall i :: 0 <= i < |workers| ==> workers[i].code == []
    requires forall j :: 0 <= j < |leaves| ==> leaves[j].code == []
    ensures WorkersTotal(q, workers) == 0 && LeavesTotal(q, leaves) == 0
  {
    if workers != [] {
      NothingLeft(q, workers[..|workers| - 1], leaves);
    } else if leaves != [] {
      NothingLeft(q, workers, leaves[..|leaves| - 1]);
    }
  }
}
