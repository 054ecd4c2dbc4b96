/**
 The bounded blocking queue of condition_variable/sync_queue_by_lock_guard.h.
 Each step is one critical section: what a thread does between taking the mutex
 and either returning or going to sleep. A producer has a list of items still to
 put, a consumer a number of items still to take; any finite workload of any
 number of threads is such a state.
 */
module SyncQueue {
  import opened Sums

  type int32 = x: int | -0x8000_0000 <= x < 0x8000_0000

  /** Ready: about to lock. Asleep: in `wait`, not notified. Woken: must lock and test again. */
  datatype Pc = Ready | Asleep | Woken

  /** An item, with the producer it came from. */
  datatype Item<T> = Item(from: nat, value: T)

  datatype Producer<T> = Producer(pc: Pc, todo: seq<T>)
  datatype Consumer = Consumer(pc: Pc, wanted: nat)

  datatype State<T> = State(
    maxSize: int32,
    queue: seq<Item<T>>,
    producers: seq<Producer<T>>,
    consumers: seq<Consumer>,
    puts: seq<Item<T>>,   // everything pushed so far, in order
    takes: seq<Item<T>>)  // everything popped so far, in order

  /** `wake` is the sleeper that `notify_one` picks, or -1 when nobody sleeps. */
  datatype Action =
    | PutStep(i: nat, wake: int)
    | TakeStep(j: nat, wake: int)
    | WakeProducer(i: nat)  // spurious wakeup
    | WakeConsumer(j: nat)

  /** `_queue.size() == _maxSize` converts the int to an unsigned 64-bit size. */
  function Capacity(maxSize: int32): nat { maxSize % 0x1_0000_0000_0000_0000 }

  predicate IsFull<T>(s: State<T>) { |s.queue| == Capacity(s.maxSize) }

  predicate IsEmpty<T>(s: State<T>) { s.queue == [] }

  predicate ProducersAsleep<T>(s: State<T>) { exists i :: 0 <= i < |s.producers| && s.producers[i].pc.Asleep? }

  predicate ConsumersAsleep<T>(s: State<T>) { exists j :: 0 <= j < |s.consumers| && s.consumers[j].pc.Asleep? }

  predicate PicksConsumer<T>(s: State<T>, wake: int) {
    if ConsumersAsleep(s) then 0 <= wake < |s.consumers| && s.consumers[wake].pc.Asleep? else wake == -1
  }

  predicate PicksProducer<T>(s: State<T>, wake: int) {
    if ProducersAsleep(s) then 0 <= wake < |s.producers| && s.producers[wake].pc.Asleep? else wake == -1
  }

  predicate CanPut<T>(s: State<T>, i: nat) {
    i < |s.producers| && !s.producers[i].pc.Asleep? && s.producers[i].todo != []
  }

  predicate CanTake<T>(s: State<T>, j: nat) {
    j < |s.consumers| && !s.consumers[j].pc.Asleep? && s.consumers[j].wanted > 0
  }

  predicate Enabled<T>(s: State<T>, a: Action) {
    match a
    case PutStep(i, wake) => CanPut(s, i) && (!IsFull(s) ==> PicksConsumer(s, wake))
    case TakeStep(j, wake) => CanTake(s, j) && (!IsEmpty(s) ==> PicksProducer(s, wake))
    case WakeProducer(i) => i < |s.producers| && s.producers[i].pc.Asleep?
    case WakeConsumer(j) => j < |s.consumers| && s.consumers[j].pc.Asleep?
  }

  function SetProducer<T>(s: State<T>, i: int, pc: Pc): State<T> {
    if 0 <= i < |s.producers| then s.(producers := s.producers[i := s.producers[i].(pc := pc)]) else s
  }

  function SetConsumer<T>(s: State<T>, j: int, pc: Pc): State<T> {
    if 0 <= j < |s.consumers| then s.(consumers := s.consumers[j := s.consumers[j].(pc := pc)]) else s
  }

  function Apply<T>(s: State<T>, a: Action): State<T>
    requires Enabled(s, a)
  {
    match a
    case PutStep(i, wake) =>
      if IsFull(s) then SetProducer(s, i, Asleep)
      else
        var x := Item(i, s.producers[i].todo[0]);
        var served := s.producers[i := Producer(Ready, s.producers[i].todo[1..])];
        SetConsumer(s.(queue := s.queue + [x], puts := s.puts + [x], producers := served), wake, Woken)
    case TakeStep(j, wake) =>
      if IsEmpty(s) then SetConsumer(s, j, Asleep)
      else
        var served := s.consumers[j := Consumer(Ready, s.consumers[j].wanted - 1)];
        SetProducer(s.(queue := s.queue[1..], takes := s.takes + [s.queue[0]], consumers := served), wake, Woken)
    case WakeProducer(i) => SetProducer(s, i, Woken)
    case WakeConsumer(j) => SetConsumer(s, j, Woken)
  }

  predicate Init<T>(s: State<T>) {
    && s.queue == [] && s.puts == [] && s.takes == []
    && (forall i :: 0 <= i < |s.producers| ==> s.producers[i].pc == Ready)
    && (forall j :: 0 <= j < |s.consumers| ==> s.consumers[j].pc == Ready)
  }

  predicate Legal<T>(s: State<T>, acts: seq<Action>)
    decreases |acts|
  {
    acts == [] || (Enabled(s, acts[0]) && Legal(Apply(s, acts[0]), acts[1..]))
  }

  function Run<T>(s: State<T>, acts: seq<Action>): State<T>
    requires Legal(s, acts)
    decreases |acts|
  {
    if acts == [] then s else Run(Apply(s, acts[0]), acts[1..])
  }

  /** The queue object itself: its critical sections, as the program writes them. */
  class Queue<T(==)> {
    var queue: seq<Item<T>>
    const maxSize: int32
    var producers: seq<Producer<T>>
    var consumers: seq<Consumer>
    var puts: seq<Item<T>>
    var takes: seq<Item<T>>

    constructor (maxSize: int32, producers: seq<Producer<T>>, consumers: seq<Consumer>)
      ensures View() == State(maxSize, [], producers, consumers, [], [])
    {
      this.maxSize, this.producers, this.consumers := maxSize, producers, consumers;
      queue, puts, takes := [], [], [];
    }

    function View(): State<T>
      reads this
    {
      State(maxSize, queue, producers, consumers, puts, takes)
    }

    /** One pass of `Put`: sleeps on a full queue, otherwise pushes and notifies one consumer. */
    method Put(i: nat, wake: int) returns (done: bool)
      requires Enabled(View(), PutStep(i, wake))
      modifies this
      ensures View() == Apply(old(View()), PutStep(i, wake))
      ensures done <==> |old(queue)| != if maxSize >= 0 then maxSize else maxSize + 0x1_0000_0000_0000_0000
      ensures done ==> old(producers)[i].todo == [queue[|old(queue)|].value] + producers[i].todo
      ensures done ==> queue == old(queue) + [Item(i, old(producers)[i].todo[0])] && producers[i].pc == Ready
      ensures !done ==> queue == old(queue) && producers == old(producers)[i := Producer(Asleep, old(producers)[i].todo)]
      ensures done && wake >= 0 ==> consumers[wake].pc == Woken
    {
      if |queue| == Capacity(maxSize) {
        producers := producers[i := producers[i].(pc := Asleep)];
        return false;
      }
      var x := Item(i, producers[i].todo[0]);
      queue := queue + [x];
      puts := puts + [x];
      producers := producers[i := Producer(Ready, producers[i].todo[1..])];
      if wake >= 0 {
        consumers := consumers[wake := consumers[wake].(pc := Woken)];
      }
      return true;
    }

    /** One pass of `Take`: sleeps on an empty queue, otherwise pops and notifies one producer. */
    method Take(j: nat, wake: int) returns (got: seq<Item<T>>)
      requires Enabled(View(), TakeStep(j, wake))
      modifies this
      ensures View() == Apply(old(View()), TakeStep(j, wake))
      ensures got == if old(queue) == [] then [] else [old(queue)[0]]
      ensures got + queue == old(queue) && takes == old(takes) + got
      ensures got == [] ==> consumers == old(consumers)[j := Consumer(Asleep, old(consumers)[j].wanted)]
      ensures got != [] ==> consumers == old(consumers)[j := Consumer(Ready, old(consumers)[j].wanted - 1)]
      ensures got != [] && wake >= 0 ==> producers[wake].pc == Woken
    {
      if queue == [] {
        consumers := consumers[j := consumers[j].(pc := Asleep)];
        return [];
      }
      got := [queue[0]];
      queue := queue[1..];
      takes := takes + got;
      consumers := consumers[j := Consumer(Ready, consumers[j].wanted - 1)];
      if wake >= 0 {
        producers := producers[wake := producers[wake].(pc := Woken)];
      }
    }
  }

  // ---------------------------------------------------------------- invariants

  function WokenProducer<T>(p: Producer<T>): nat { if p.pc.Woken? then 1 else 0 }
  function WokenConsumer(c: Consumer): nat { if c.pc.Woken? then 1 else 0 }

  /** The items of one producer, in order. */
  function From<T>(items: seq<Item<T>>, i: nat): seq<T> {
    if items == [] then []
    else
      var front, last := items[..|items| - 1], items[|items| - 1];
      From(front, i) + if last.from == i then [last.value] else []
  }

  /** Pushed minus popped is the queue, and every producer's items go out in its own order. */
  ghost predicate Fifo<T>(s: State<T>, work: seq<seq<T>>) {
    && s.puts == s.takes + s.queue
    && |s.queue| <= Capacity(s.maxSize)
    && |work| == |s.producers|
    && (forall i :: 0 <= i < |work| ==> From(s.puts, i) + s.producers[i].todo == work[i])
  }

  /** Sleeping consumers are outnumbered: the woken ones can take everything that is queued. */
  ghost predicate NoLostItem<T>(s: State<T>) {
    ConsumersAsleep(s) ==> |s.queue| <= Sum(s.consumers, WokenConsumer)
  }

  /** Sleeping producers are outnumbered: the woken ones can fill everything that is free. */
  ghost predicate NoLostSlot<T>(s: State<T>) {
    ProducersAsleep(s) ==> Capacity(s.maxSize) - |s.queue| <= Sum(s.producers, WokenProducer)
  }

  /** Only a thread inside a call sleeps or wakes. */
  ghost predicate SleepersHaveWork<T>(s: State<T>) {
    && (forall i :: 0 <= i < |s.producers| && s.producers[i].todo == [] ==> s.producers[i].pc.Ready?)
    && (forall j :: 0 <= j < |s.consumers| && s.consumers[j].wanted == 0 ==> s.consumers[j].pc.Ready?)
  }

  ghost predicate Inv<T>(s: State<T>, work: seq<seq<T>>) {
    Fifo(s, work) && NoLostItem(s) && NoLostSlot(s) && SleepersHaveWork(s)
  }

  lemma WakeKeepsConsumerCount<T>(s: State<T>, j: int)
    requires 0 <= j < |s.consumers| && !s.consumers[j].pc.Woken?
    ensures Sum(SetConsumer(s, j, Woken).consumers, WokenConsumer) == Sum(s.consumers, WokenConsumer) + 1
  {
    SumUpdate(s.consumers, j, s.consumers[j].(pc := Woken), WokenConsumer);
  }

  lemma WakeKeepsProducerCount<T>(s: State<T>, i: int)
    requires 0 <= i < |s.producers| && !s.producers[i].pc.Woken?
    ensures Sum(SetProducer(s, i, Woken).producers, WokenProducer<T>) == Sum(s.producers, WokenProducer) + 1
  {
    SumUpdate(s.producers, i, s.producers[i].(pc := Woken), WokenProducer);
  }

  lemma PutKeepsFifo<T>(s: State<T>, i: nat, wake: int, work: seq<seq<T>>)
    requires Enabled(s, PutStep(i, wake)) && !IsFull(s) && Fifo(s, work)
    ensures Fifo(Apply(s, PutStep(i, wake)), work)
  {
    var t := Apply(s, PutStep(i, wake));
    var x := Item(i, s.producers[i].todo[0]);
    assert t.puts[..|t.puts| - 1] == s.puts;
    forall k | 0 <= k < |work| ensures From(t.puts, k) + t.producers[k].todo == work[k] {
      assert From(t.puts, k) == From(s.puts, k) + if k == i then [x.value] else [];
      if k == i {
        assert [x.value] + s.producers[i].todo[1..] == s.producers[i].todo;
      }
    }
  }

  lemma PutKeepsCounts<T>(s: State<T>, i: nat, wake: int)
    requires Enabled(s, PutStep(i, wake)) && NoLostItem(s) && NoLostSlot(s) && |s.queue| <= Capacity(s.maxSize)
    ensures NoLostItem(Apply(s, PutStep(i, wake))) && NoLostSlot(Apply(s, PutStep(i, wake)))
  {
    var t := Apply(s, PutStep(i, wake));
    if !IsFull(s) {
      SumUpdate(s.producers, i, Producer(Ready, s.producers[i].todo[1..]), WokenProducer);
      if wake >= 0 {
        WakeKeepsConsumerCount(s, wake);
        assert t.consumers == SetConsumer(s, wake, Woken).consumers;
      }
    }
  }

  lemma PutKeeps<T>(s: State<T>, i: nat, wake: int, work: seq<seq<T>>)
    requires Inv(s, work) && Enabled(s, PutStep(i, wake))
    ensures Inv(Apply(s, PutStep(i, wake)), work)
  {
    PutKeepsCounts(s, i, wake);
    if !IsFull(s) {
      PutKeepsFifo(s, i, wake, work);
    }
  }

  lemma TakeKeepsCounts<T>(s: State<T>, j: nat, wake: int)
    requires Enabled(s, TakeStep(j, wake)) && NoLostItem(s) && NoLostSlot(s)
    ensures NoLostItem(Apply(s, TakeStep(j, wake))) && NoLostSlot(Apply(s, TakeStep(j, wake)))
  {
    var t := Apply(s, TakeStep(j, wake));
    if !IsEmpty(s) {
      SumUpdate(s.consumers, j, Consumer(Ready, s.consumers[j].wanted - 1), WokenConsumer);
      if wake >= 0 {
        WakeKeepsProducerCount(s, wake);
        assert t.producers == SetProducer(s, wake, Woken).producers;
      }
    }
  }

  lemma TakeKeeps<T>(s: State<T>, j: nat, wake: int, work: seq<seq<T>>)
    requires Inv(s, work) && Enabled(s, TakeStep(j, wake))
    ensures Inv(Apply(s, TakeStep(j, wake)), work)
  {
    TakeKeepsCounts(s, j, wake);
    if !IsEmpty(s) {
      var t := Apply(s, TakeStep(j, wake));
      assert [s.queue[0]] + s.queue[1..] == s.queue;
      assert s.takes + s.queue == t.takes + t.queue;
    }
  }

  lemma SpuriousKeeps<T>(s: State<T>, a: Action, work: seq<seq<T>>)
    requires Inv(s, work) && Enabled(s, a) && (a.WakeProducer? || a.WakeConsumer?)
    ensures Inv(Apply(s, a), work)
  {
    match a
    case WakeProducer(i) => WakeKeepsProducerCount(s, i);
    case WakeConsumer(j) => WakeKeepsConsumerCount(s, j);
    case _ => assert false;
  }

  lemma StepKeeps<T>(s: State<T>, a: Action, work: seq<seq<T>>)
    requires Inv(s, work) && Enabled(s, a)
    ensures Inv(Apply(s, a), work)
  {
    match a
    case PutStep(i, wake) => PutKeeps(s, i, wake, work);
    case TakeStep(j, wake) => TakeKeeps(s, j, wake, work);
    case _ => SpuriousKeeps(s, a, work);
  }

  function Workload<T>(s: State<T>): seq<seq<T>> {
    seq(|s.producers|, i requires 0 <= i < |s.producers| => s.producers[i].todo)
  }

  lemma {:induction false} RunKeeps<T>(s: State<T>, acts: seq<Action>, work: seq<seq<T>>)
    requires Inv(s, work) && Legal(s, acts)
    ensures Inv(Run(s, acts), work)
    decreases |acts|
  {
    if acts != [] {
      StepKeeps(s, acts[0], work);
      RunKeeps(Apply(s, acts[0]), acts[1..], work);
    }
  }

  lemma InitHolds<T>(s: State<T>)
    requires Init(s)
    ensures Inv(s, Workload(s))
  {
  }

  /** The invariants hold in every state of every run, spurious wakeups included. */
  lemma EveryRunIsSafe<T>(s: State<T>, acts: seq<Action>)
    requires Init(s) && Legal(s, acts)
    ensures Inv(Run(s, acts), Workload(s))
  {
    InitHolds(s);
    RunKeeps(s, acts, Workload(s));
  }

  /** The size never exceeds the limit given to the constructor; a negative limit is no limit in practice. */
  lemma NeverAboveLimit<T>(s: State<T>, acts: seq<Action>)
    requires Init(s) && Legal(s, acts)
    ensures s.maxSize >= 0 ==> |Run(s, acts).queue| <= s.maxSize
    ensures s.maxSize < 0 ==> |Run(s, acts).queue| <= s.maxSize + 0x1_0000_0000_0000_0000
  {
    EveryRunIsSafe(s, acts);
    RunKeepsSize(s, acts);
  }

  /** A producer's step puts its next item if and only if the size is not the limit. */
  lemma PutsExactlyBelowLimit<T>(s: State<T>, i: nat, wake: int)
    requires Enabled(s, PutStep(i, wake)) && s.maxSize >= 0
    ensures Apply(s, PutStep(i, wake)).queue ==
      if |s.queue| == s.maxSize then s.queue else s.queue + [Item(i, s.producers[i].todo[0])]
  {}

  // ---------------------------------------------------------------- progress

  function Items<T>(p: Producer<T>): nat { |p.todo| }
  function Wanted(c: Consumer): nat { c.wanted }
  function ProducerRank<T>(p: Producer<T>): nat { 3 * |p.todo| + if p.pc.Asleep? then 0 else 1 }
  function ConsumerRank(c: Consumer): nat { 3 * c.wanted + if c.pc.Asleep? then 0 else 1 }

  /** As much is wanted as is offered. */
  ghost predicate Balanced<T>(s: State<T>) {
    Sum(s.producers, Items) + |s.queue| == Sum(s.consumers, Wanted)
  }

  ghost function Measure<T>(s: State<T>): nat {
    Sum(s.producers, ProducerRank) + Sum(s.consumers, ConsumerRank)
  }

  predicate Working(a: Action) { a.PutStep? || a.TakeStep? }

  lemma PutProgress<T>(s: State<T>, i: nat, wake: int)
    requires Enabled(s, PutStep(i, wake))
    ensures Measure(Apply(s, PutStep(i, wake))) < Measure(s)
    ensures Balanced(s) ==> Balanced(Apply(s, PutStep(i, wake)))
  {
    var p := s.producers[i];
    var q := if IsFull(s) then p.(pc := Asleep) else Producer(Ready, p.todo[1..]);
    SumUpdate(s.producers, i, q, ProducerRank);
    SumUpdate(s.producers, i, q, Items);
    if !IsFull(s) && wake >= 0 {
      SumUpdate(s.consumers, wake, s.consumers[wake].(pc := Woken), ConsumerRank);
      SumUpdate(s.consumers, wake, s.consumers[wake].(pc := Woken), Wanted);
    }
  }

  lemma TakeProgress<T>(s: State<T>, j: nat, wake: int)
    requires Enabled(s, TakeStep(j, wake))
    ensures Measure(Apply(s, TakeStep(j, wake))) < Measure(s)
    ensures Balanced(s) ==> Balanced(Apply(s, TakeStep(j, wake)))
  {
    var c := s.consumers[j];
    var d := if IsEmpty(s) then c.(pc := Asleep) else Consumer(Ready, c.wanted - 1);
    SumUpdate(s.consumers, j, d, ConsumerRank);
    SumUpdate(s.consumers, j, d, Wanted);
    if !IsEmpty(s) && wake >= 0 {
      SumUpdate(s.producers, wake, s.producers[wake].(pc := Woken), ProducerRank);
      SumUpdate(s.producers, wake, s.producers[wake].(pc := Woken), Items);
    }
  }

  ghost predicate Stuck<T>(s: State<T>) {
    (forall i: nat :: !CanPut(s, i)) && (forall j: nat :: !CanTake(s, j))
  }

  ghost predicate Finished<T>(s: State<T>) {
    && (forall i :: 0 <= i < |s.producers| ==> s.producers[i].todo == [])
    && (forall j :: 0 <= j < |s.consumers| ==> s.consumers[j].wanted == 0)
    && s.queue == []
  }

  /** Nobody can move only if consumers sleep on an empty queue or producers on a full one, never both. */
  lemma StuckShape<T>(s: State<T>, work: seq<seq<T>>)
    requires Inv(s, work) && Stuck(s)
    ensures ConsumersAsleep(s) ==> s.queue == []
    ensures ProducersAsleep(s) ==> IsFull(s)
    ensures Capacity(s.maxSize) > 0 ==> !(ConsumersAsleep(s) && ProducersAsleep(s))
  {
    forall i | 0 <= i < |s.producers| ensures WokenProducer(s.producers[i]) == 0 {
      assert !CanPut(s, i);
    }
    forall j | 0 <= j < |s.consumers| ensures WokenConsumer(s.consumers[j]) == 0 {
      assert !CanTake(s, j);
    }
    SumZero(s.producers, WokenProducer);
    SumZero(s.consumers, WokenConsumer);
  }

  /** Unless nobody can move, somebody has a step to take. */
  lemma NotStuckMeansWork<T>(s: State<T>) returns (a: Action)
    requires !Stuck(s)
    ensures Working(a) && Enabled(s, a)
  {
    if i: nat :| CanPut(s, i) {
      var wake := -1;
      if ConsumersAsleep(s) {
        wake :| 0 <= wake < |s.consumers| && s.consumers[wake].pc.Asleep?;
      }
      a := PutStep(i, wake);
    } else {
      var j: nat :| CanTake(s, j);
      var wake := -1;
      if ProducersAsleep(s) {
        wake :| 0 <= wake < |s.producers| && s.producers[wake].pc.Asleep?;
      }
      a := TakeStep(j, wake);
    }
  }

  /** And whichever sleeper `notify_one` picks, the step is one of those. */
  lemma AnySleeperMayBePicked<T>(s: State<T>, i: nat, j: nat, k: nat)
    requires !IsFull(s) && !IsEmpty(s)
    ensures CanPut(s, i) && k < |s.consumers| && s.consumers[k].pc.Asleep? ==>
      Enabled(s, PutStep(i, k)) && Apply(s, PutStep(i, k)).consumers[k].pc == Woken
    ensures CanTake(s, j) && k < |s.producers| && s.producers[k].pc.Asleep? ==>
      Enabled(s, TakeStep(j, k)) && Apply(s, TakeStep(j, k)).producers[k].pc == Woken
  {}

  lemma WorkMeansSleep<T>(s: State<T>)
    requires Stuck(s)
    ensures Sum(s.producers, Items) > 0 ==> ProducersAsleep(s)
    ensures Sum(s.consumers, Wanted) > 0 ==> ConsumersAsleep(s)
  {
    if Sum(s.producers, Items) > 0 {
      var i := SumWitness(s.producers, Items);
      assert !CanPut(s, i);
    }
    if Sum(s.consumers, Wanted) > 0 {
      var j := SumWitness(s.consumers, Wanted);
      assert !CanTake(s, j);
    }
  }

  lemma StuckIsFinished<T>(s: State<T>, work: seq<seq<T>>)
    requires Inv(s, work) && Stuck(s) && Balanced(s) && Capacity(s.maxSize) > 0
    ensures Finished(s)
  {
    StuckShape(s, work);
    WorkMeansSleep(s);
    assert Sum(s.producers, Items) == 0 && Sum(s.consumers, Wanted) == 0;
    forall i | 0 <= i < |s.producers| ensures s.producers[i].todo == [] {
      SumAtLeast(s.producers, i, Items);
    }
    forall j | 0 <= j < |s.consumers| ensures s.consumers[j].wanted == 0 {
      SumAtLeast(s.consumers, j, Wanted);
    }
  }

  lemma {:induction false} WorkingRun<T>(s: State<T>, acts: seq<Action>)
    requires Legal(s, acts) && (forall k :: 0 <= k < |acts| ==> Working(acts[k]))
    ensures |acts| + Measure(Run(s, acts)) <= Measure(s)
    ensures Balanced(s) ==> Balanced(Run(s, acts))
    decreases |acts|
  {
    if acts != [] {
      match acts[0] {
        case PutStep(i, wake) => PutProgress(s, i, wake);
        case TakeStep(j, wake) => TakeProgress(s, j, wake);
        case _ => assert false;
      }
      WorkingRun(Apply(s, acts[0]), acts[1..]);
    }
  }

  /**
   Any number of producers and consumers with a balanced workload and a non-zero
   capacity: a run without spurious wakeups is never longer than the initial
   measure, and when it can go no further everything has been put and taken, each
   producer's items in its own order.
   */
  lemma EveryWorkloadCompletes<T>(s: State<T>, acts: seq<Action>)
    requires Init(s) && Balanced(s) && s.maxSize != 0
    requires Legal(s, acts) && (forall k :: 0 <= k < |acts| ==> Working(acts[k]))
    ensures |acts| <= Measure(s)
    ensures var t := Run(s, acts); Stuck(t) ==>
      && Finished(t) && t.takes == t.puts
      && forall i :: 0 <= i < |s.producers| ==> From(t.takes, i) == s.producers[i].todo
  {
    EveryRunIsSafe(s, acts);
    WorkingRun(s, acts);
    RunKeepsSize(s, acts);
    var t, work := Run(s, acts), Workload(s);
    if Stuck(t) {
      StuckIsFinished(t, work);
      FinishedDelivers(t, work);
      assert forall i :: 0 <= i < |work| ==> work[i] == s.producers[i].todo;
    }
  }

  lemma FinishedDelivers<T>(t: State<T>, work: seq<seq<T>>)
    requires Fifo(t, work) && Finished(t)
    ensures t.takes == t.puts
    ensures forall i :: 0 <= i < |work| ==> From(t.takes, i) == work[i]
  {
    assert t.takes + [] == t.takes;
    forall i | 0 <= i < |work| ensures From(t.takes, i) == work[i] {
      assert From(t.puts, i) + [] == From(t.puts, i);
    }
  }

  lemma {:induction false} RunKeepsSize<T>(s: State<T>, acts: seq<Action>)
    requires Legal(s, acts)
    ensures var t := Run(s, acts);
      t.maxSize == s.maxSize && |t.producers| == |s.producers| && |t.consumers| == |s.consumers|
    decreases |acts|
  {
    if acts != [] {
      RunKeepsSize(Apply(s, acts[0]), acts[1..]);
    }
  }

  /** With capacity zero nothing is ever put, so the condition on the capacity is exact. */
  lemma {:induction false} ZeroCapacityPutsNothing<T>(s: State<T>, acts: seq<Action>)
    requires s.maxSize == 0 && s.queue == [] && Legal(s, acts)
    ensures var t := Run(s, acts); t.puts == s.puts && t.takes == s.takes && t.queue == []
    decreases |acts|
  {
    if acts != [] {
      ZeroCapacityPutsNothing(Apply(s, acts[0]), acts[1..]);
    }
  }
}
