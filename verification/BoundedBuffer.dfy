/** A producer and a consumer thread with a bounded buffer, one mutex and two condition
    variables (threads/example03.c). */
module BoundedBuffer {
  import opened Basics

  const NLOOP := 50
  const BUFFSIZE := 10

  /** A thread wants the lock, tests the buffer, sleeps on its condition, has been woken and
      wants the lock back, stores or fetches, signals the other, unlocks, or has returned. */
  datatype Pc = Enter | Test | Asleep | Woken | Act | Signal | Leave | Done

  datatype Owner = Free | ByProducer | ByConsumer

  /** `i` and `j` are the loop counters; `produced` and `consumed` record the values. */
  datatype State = State(prod: Pc, cons: Pc, mutex: Owner, i: nat, j: nat,
                         buf: seq<int>, nitems: int, nextget: nat, nextput: nat,
                         produced: seq<int>, consumed: seq<int>)

  /** A thread takes its next step, or wakes up although nobody signalled. */
  datatype Action = Produce | Consume | WakeProducer | WakeConsumer

  ghost predicate Starts(s: State) {
    && s.prod.Enter? && s.cons.Enter? && s.mutex.Free? && s.i == 0 && s.j == 0 && |s.buf| == BUFFSIZE
    && s.nitems == 0 && s.nextget == 0 && s.nextput == 0 && |s.produced| == 0 && |s.consumed| == 0
  }

  predicate CanStep(pc: Pc, mutex: Owner) {
    match pc
    case Enter => mutex.Free?
    case Woken => mutex.Free?
    case Asleep => false
    case Done => false
    case _ => true
  }

  predicate Enabled(s: State, a: Action) {
    match a
    case Produce => CanStep(s.prod, s.mutex)
    case Consume => CanStep(s.cons, s.mutex)
    case WakeProducer => s.prod.Asleep?
    case WakeConsumer => s.cons.Asleep?
  }

  predicate Sized(s: State) {
    |s.buf| == BUFFSIZE && s.nextget < BUFFSIZE && s.nextput < BUFFSIZE
  }

  function Next(i: nat): nat {
    if i + 1 >= BUFFSIZE then 0 else i + 1
  }

  function Signalled(pc: Pc): Pc {
    if pc.Asleep? then Woken else pc
  }

  function ProduceStep(s: State): State
    requires Sized(s)
  {
    match s.prod
    case Test => if s.nitems >= BUFFSIZE then s.(prod := Asleep, mutex := Free) else s.(prod := Act)
    case Act =>
      s.(prod := Signal, buf := s.buf[s.nextput := s.i], nextput := Next(s.nextput), nitems := s.nitems + 1,
         produced := s.produced + [s.i])
    case Signal => s.(prod := Leave, cons := Signalled(s.cons))
    case Leave => s.(prod := if s.i + 1 < NLOOP then Enter else Done, i := s.i + 1, mutex := Free)
    case _ => s.(prod := Test, mutex := ByProducer)
  }

  function ConsumeStep(s: State): State
    requires Sized(s)
  {
    match s.cons
    case Test => if s.nitems <= 0 then s.(cons := Asleep, mutex := Free) else s.(cons := Act)
    case Act =>
      s.(cons := Signal, nextget := Next(s.nextget), nitems := s.nitems - 1,
         consumed := s.consumed + [s.buf[s.nextget]])
    case Signal => s.(cons := Leave, prod := Signalled(s.prod))
    case Leave => s.(cons := if s.j + 1 < NLOOP then Enter else Done, j := s.j + 1, mutex := Free)
    case _ => s.(cons := Test, mutex := ByConsumer)
  }

  function Step(s: State, a: Action): State
    requires Enabled(s, a) && Sized(s)
  {
    match a
    case Produce => ProduceStep(s)
    case Consume => ConsumeStep(s)
    case WakeProducer => s.(prod := Woken)
    case WakeConsumer => s.(cons := Woken)
  }

  /** The state a run ends in; none if some action was not possible. */
  function Run(start: State, acts: seq<Action>): Option<State> {
    if acts == [] then Some(start)
    else
      var r, a := Run(start, acts[..|acts| - 1]), acts[|acts| - 1];
      if r.Some? && Enabled(r.value, a) && Sized(r.value) then Some(Step(r.value, a)) else None
  }

  // ---- invariants ----

  predicate Kept(buf: seq<int>, nextget: nat, from: nat, k: nat)
    requires |buf| == BUFFSIZE && nextget < BUFFSIZE && k < BUFFSIZE
  {
    buf[if nextget + k >= BUFFSIZE then nextget + k - BUFFSIZE else nextget + k] == from + k
  }

  /** The buffer holds the values from `from` on. */
  ghost predicate Ring(buf: seq<int>, nextget: nat, nextput: nat, nitems: int, from: nat) {
    && |buf| == BUFFSIZE && nextget < BUFFSIZE && nextput < BUFFSIZE && 0 <= nitems <= BUFFSIZE
    && (nextput == nextget + nitems || nextput == nextget + nitems - BUFFSIZE)
    && forall k | 0 <= k < nitems :: Kept(buf, nextget, from, k)
  }

  /** The values 0, 1, 2 and so on. */
  ghost predicate Counting(vals: seq<int>) {
    forall k | 0 <= k < |vals| :: vals[k] == k
  }

  function Moved(pc: Pc): nat {
    if pc.Signal? || pc.Leave? then 1 else 0
  }

  /** How far a thread is: `n` values moved, loop counter `i`. */
  predicate Progress(pc: Pc, i: nat, n: nat) {
    n == i + Moved(pc) && n <= NLOOP && (pc.Done? <==> i == NLOOP)
  }

  predicate Holding(pc: Pc) {
    pc.Test? || pc.Act? || pc.Signal? || pc.Leave?
  }

  predicate Exclusive(prod: Pc, cons: Pc, mutex: Owner) {
    (Holding(prod) <==> mutex.ByProducer?) && (Holding(cons) <==> mutex.ByConsumer?)
  }

  /** A sleeping thread has nothing to do, or the other is about to signal it. */
  predicate Sleeping(prod: Pc, cons: Pc, nitems: int) {
    && (prod.Asleep? ==> nitems == BUFFSIZE || cons.Signal?)
    && (cons.Asleep? ==> nitems == 0 || prod.Signal?)
    && (prod.Act? ==> nitems < BUFFSIZE) && (cons.Act? ==> nitems > 0)
  }

  ghost predicate Inv(s: State) {
    && Ring(s.buf, s.nextget, s.nextput, s.nitems, |s.consumed|)
    && Counting(s.produced) && Counting(s.consumed) && s.nitems == |s.produced| - |s.consumed|
    && Progress(s.prod, s.i, |s.produced|) && Progress(s.cons, s.j, |s.consumed|)
    && Exclusive(s.prod, s.cons, s.mutex) && Sleeping(s.prod, s.cons, s.nitems)
  }

  // ---- every step keeps them ----

  lemma {:induction false} RingPut(buf: seq<int>, nextget: nat, nextput: nat, nitems: int, from: nat)
    requires Ring(buf, nextget, nextput, nitems, from) && nitems < BUFFSIZE
    ensures Ring(buf[nextput := from + nitems], nextget, Next(nextput), nitems + 1, from)
  {
    var buf' := buf[nextput := from + nitems];
    forall k | 0 <= k < nitems + 1 ensures Kept(buf', nextget, from, k) {
      if k < nitems {
        assert Kept(buf, nextget, from, k);
      }
    }
  }

  lemma {:induction false} RingGet(buf: seq<int>, nextget: nat, nextput: nat, nitems: int, from: nat)
    requires Ring(buf, nextget, nextput, nitems, from) && nitems > 0
    ensures buf[nextget] == from && Ring(buf, Next(nextget), nextput, nitems - 1, from + 1)
  {
    assert Kept(buf, nextget, from, 0);
    var nextget', from' := Next(nextget), from + 1;
    forall k | 0 <= k < nitems - 1 ensures Kept(buf, nextget', from', k) {
      assert Kept(buf, nextget, from, k + 1);
    }
  }

  lemma {:induction false} ProduceKeeps(s: State)
    requires Inv(s) && Enabled(s, Produce) && Sized(s)
    ensures Inv(ProduceStep(s))
  {
    if s.prod.Act? {
      RingPut(s.buf, s.nextget, s.nextput, s.nitems, |s.consumed|);
      assert Counting(s.produced + [s.i]);
    }
    assert 0 <= s.nitems <= BUFFSIZE;
    hide Ring, Counting, Next;
  }

  lemma {:induction false} ConsumeKeeps(s: State)
    requires Inv(s) && Enabled(s, Consume) && Sized(s)
    ensures Inv(ConsumeStep(s))
  {
    if s.cons.Act? {
      RingGet(s.buf, s.nextget, s.nextput, s.nitems, |s.consumed|);
      assert Counting(s.consumed + [s.buf[s.nextget]]);
    }
    assert 0 <= s.nitems <= BUFFSIZE;
    hide Ring, Counting, Next;
  }

  lemma {:induction false} InvStep(s: State, a: Action)
    requires Inv(s) && Enabled(s, a) && Sized(s)
    ensures Inv(Step(s, a))
  {
    hide ProduceStep, ConsumeStep, Ring, Counting;
    match a {
      case Produce => ProduceKeeps(s);
      case Consume => ConsumeKeeps(s);
      case _ =>
    }
  }

  lemma {:induction false} InvInitial(s: State)
    requires Starts(s)
    ensures Inv(s)
  {
    assert Ring(s.buf, 0, 0, 0, 0);
    hide Ring;
  }

  lemma InvSized(s: State)
    requires Inv(s)
    ensures Sized(s)
  {
  }

  lemma {:induction false} RunKeeps(start: State, acts: seq<Action>)
    requires Starts(start)
    ensures var r := Run(start, acts); r.Some? ==> Inv(r.value) && Sized(r.value)
  {
    hide Inv, Step, Enabled, Starts, Sized;
    if acts == [] {
      InvInitial(start);
      InvSized(start);
    } else {
      RunKeeps(start, acts[..|acts| - 1]);
      var r, a := Run(start, acts[..|acts| - 1]), acts[|acts| - 1];
      if r.Some? && Enabled(r.value, a) && Sized(r.value) {
        InvStep(r.value, a);
        InvSized(Step(r.value, a));
      }
    }
  }

  // ---- what they mean for every run ----

  /** The values come out as they went in: 0, 1, 2 and so on, each once, and never more than
      the buffer holds are on their way. */
  lemma {:induction false} InOrder(start: State, acts: seq<Action>, s: State)
    requires Starts(start) && Run(start, acts) == Some(s)
    ensures |s.consumed| <= |s.produced| <= NLOOP
    ensures (forall k | 0 <= k < |s.consumed| :: s.consumed[k] == k)
            && (forall k | 0 <= k < |s.produced| :: s.produced[k] == k)
    ensures s.nitems == |s.produced| - |s.consumed| && s.nitems <= BUFFSIZE
  {
    RunKeeps(start, acts);
    assert 0 <= s.nitems <= BUFFSIZE;
    hide Run, Starts, Exclusive, Sleeping, Ring;
  }

  /** The two threads never sleep at the same time. */
  lemma {:induction false} NeverBothAsleep(start: State, acts: seq<Action>, s: State)
    requires Starts(start) && Run(start, acts) == Some(s)
    ensures !(s.prod.Asleep? && s.cons.Asleep?)
  {
    RunKeeps(start, acts);
    hide Run, Starts, Exclusive, Ring, Counting;
  }

  /** Without any spurious wakeup, one of them can go on until both have returned, and then
      all the values have been moved. */
  lemma {:induction false} NeverStuck(start: State, acts: seq<Action>, s: State)
    requires Starts(start) && Run(start, acts) == Some(s)
    ensures Sized(s)
    ensures Enabled(s, Produce) || Enabled(s, Consume) || (s.prod.Done? && s.cons.Done?)
    ensures s.prod.Done? && s.cons.Done? ==> |s.consumed| == NLOOP && s.nitems == 0
  {
    RunKeeps(start, acts);
    assert Sized(s) && 0 <= s.nitems <= BUFFSIZE;
    hide Run, Starts, Ring, Counting, Sized;
  }

  /** A thread that looks goes to sleep if and only if the buffer is full, or empty for the
      consumer, and goes on otherwise. */
  lemma {:induction false} SleepsIff(start: State, acts: seq<Action>, s: State)
    requires Starts(start) && Run(start, acts) == Some(s)
    ensures Sized(s)
    ensures s.prod.Test? ==> if |s.produced| - |s.consumed| == 10 then Step(s, Produce).prod.Asleep?
                             else Step(s, Produce).prod.Act?
    ensures s.cons.Test? ==> if |s.produced| == |s.consumed| then Step(s, Consume).cons.Asleep?
                             else Step(s, Consume).cons.Act?
  {
    RunKeeps(start, acts);
    assert 0 <= s.nitems <= BUFFSIZE;
    hide Run, Starts, Ring, Counting, Exclusive, Sleeping;
  }

  /** The two are never between lock and unlock at the same time. */
  lemma {:induction false} OneHolder(start: State, acts: seq<Action>, s: State)
    requires Starts(start) && Run(start, acts) == Some(s)
    ensures !(Holding(s.prod) && Holding(s.cons))
  {
    RunKeeps(start, acts);
    hide Run, Starts, Ring, Counting, Sleeping, Holding;
  }
}
