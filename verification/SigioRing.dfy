/** The signal-driven echo server: a main loop and a SIGIO handler that share a ring of
    datagrams (sigio/dgecho01.c). */
module SigioRing {
  import opened Basics

  const QSIZE := 8
  const MAXDG := 4096

  /** A datagram and the client it came from. */
  datatype Datagram = Datagram(data: seq<byte>, peer: nat)

  datatype Slot = Slot(data: seq<byte>, len: nat, peer: nat)

  /** Where the main program is.  Setting up: before FIOASYNC, before FIONBIO, and before SIGIO
      is blocked.  Then in its loop: testing nqueue, in sigsuspend, before sendto, inside it,
      after it, after ++iget, after the wrap, after SIGIO is blocked again, and in the middle of
      nqueue--, which reads the variable and then writes it. */
  datatype Pc =
    | Starting | Async | Nonblock
    | Check | Suspended | Ready | Sending | Sent | Advanced | Wrapped | Blocked | Loaded(n: int)

  /** Where the handler is: not running, before its overflow test, before recvfrom, and
      after recvfrom has filled a slot. */
  datatype Handler = Off | Test | Recv | Filled

  /** `arrived` and `echoed` record the datagrams, `early` how many came before FIOASYNC. */
  datatype State = State(
    pc: Pc, handler: Handler, pending: bool, quit: bool,
    slots: seq<Slot>, iget: nat, iput: nat, nqueue: int, nread: nat, cntread: seq<nat>,
    kernel: seq<Datagram>,
    arrived: seq<Datagram>, echoed: seq<Datagram>, early: nat)

  /** The main loop or the handler takes its next step, a datagram arrives, a pending signal
      is delivered, or recvfrom fails. */
  datatype Action = Arrive(d: Datagram) | Deliver | Loop | Handle | Fail

  /** The buffers may hold anything at first, and the socket, which is bound, any datagrams. */
  ghost predicate Starts(s: State) {
    && s.pc.Starting? && s.handler.Off? && !s.pending && !s.quit
    && s.iget == 0 && s.iput == 0 && s.nqueue == 0
    && |s.kernel| == |s.arrived| == s.early && s.kernel == s.arrived && |s.echoed| == 0
    && |s.slots| == QSIZE && |s.cntread| == QSIZE + 1 && forall i | 0 <= i < |s.cntread| :: s.cntread[i] == 0
  }

  /** SIGIO is blocked except while setting up, from sigprocmask before sendto until the one
      after it, and in sigsuspend. */
  predicate Unblocked(pc: Pc) {
    !pc.Check? && !pc.Blocked? && !pc.Loaded?
  }

  /** recvfrom waits for a datagram until FIONBIO. */
  predicate Blocking(pc: Pc) {
    pc.Starting? || pc.Async?
  }

  predicate Enabled(s: State, a: Action) {
    !s.quit &&
    match a
    case Arrive(_) => true
    case Deliver => s.pending && s.handler.Off? && Unblocked(s.pc)
    case Loop => s.handler.Off? && !s.pc.Suspended?
    case Handle => !s.handler.Off? && (s.handler.Recv? && Blocking(s.pc) ==> s.kernel != [])
    case Fail => s.handler.Recv?
  }

  function Wrap(i: int): int {
    if i >= QSIZE then i - QSIZE else i
  }

  predicate Sized(s: State) {
    |s.slots| == QSIZE && |s.cntread| == QSIZE + 1 && s.iput < QSIZE && (!s.pc.Advanced? ==> s.iget < QSIZE)
  }

  /** recvfrom keeps at most MAXDG bytes. */
  function Cut(d: Datagram): Datagram {
    if |d.data| <= MAXDG then d else d.(data := d.data[..MAXDG])
  }

  /** What sendto sends from a slot. */
  function Packet(slot: Slot): Datagram {
    Datagram(if slot.len <= |slot.data| then slot.data[..slot.len] else slot.data, slot.peer)
  }

  function LoopStep(s: State): State
    requires Sized(s)
  {
    match s.pc
    case Starting => s.(pc := Async)
    case Async => s.(pc := Nonblock)
    case Nonblock => s.(pc := Check)
    case Check => s.(pc := if s.nqueue == 0 then Suspended else Ready)
    case Suspended => s
    case Ready => s.(pc := Sending)
    case Sending => s.(pc := Sent, echoed := s.echoed + [Packet(s.slots[s.iget])])
    case Sent => s.(pc := Advanced, iget := s.iget + 1)
    case Advanced => s.(pc := Wrapped, iget := if s.iget >= QSIZE then 0 else s.iget)
    case Wrapped => s.(pc := Blocked)
    case Blocked => s.(pc := Loaded(s.nqueue))
    case Loaded(n) => s.(pc := Check, nqueue := n - 1)
  }

  /** When there is nothing to read the handler counts what it read and returns; sigsuspend
      returns with it. */
  function Return(s: State): State
    requires Sized(s)
  {
    var s' := s.(handler := Off, pc := if s.pc.Suspended? then Check else s.pc);
    if s.nread <= QSIZE then s'.(cntread := s.cntread[s.nread := s.cntread[s.nread] + 1]) else s'
  }

  function HandleStep(s: State): State
    requires Sized(s)
  {
    match s.handler
    case Off => s
    case Test => if s.nqueue >= QSIZE then s.(quit := true) else s.(handler := Recv)
    case Recv =>
      if s.kernel == [] then Return(s)
      else
        var d := Cut(s.kernel[0]);
        s.(handler := Filled, kernel := s.kernel[1..],
           slots := s.slots[s.iput := s.slots[s.iput].(data := d.data, peer := d.peer)])
    case Filled =>
      s.(handler := Test, slots := s.slots[s.iput := s.slots[s.iput].(len := |s.slots[s.iput].data|)],
         nread := s.nread + 1, nqueue := s.nqueue + 1, iput := if s.iput + 1 >= QSIZE then 0 else s.iput + 1)
  }

  function Step(s: State, a: Action): State
    requires Enabled(s, a) && Sized(s)
  {
    match a
    case Arrive(d) =>
      s.(kernel := s.kernel + [d], arrived := s.arrived + [d], pending := s.pending || !s.pc.Starting?,
         early := if s.pc.Starting? then s.early + 1 else s.early)
    case Deliver => s.(pending := false, handler := Test, nread := 0)
    case Loop => LoopStep(s)
    case Handle => HandleStep(s)
    case Fail => s.(quit := true)
  }

  /** The state a run ends in; none if some action was not possible. */
  function Run(start: State, acts: seq<Action>): Option<State> {
    if acts == [] then Some(start)
    else
      var r, a := Run(start, acts[..|acts| - 1]), acts[|acts| - 1];
      if r.Some? && Enabled(r.value, a) && Sized(r.value) then Some(Step(r.value, a)) else None
  }

  // ---- invariants ----

  predicate SettingUp(pc: Pc) {
    pc.Starting? || pc.Async? || pc.Nonblock?
  }

  /** The datagram at iget has been echoed, but nqueue still counts it. */
  predicate Done(pc: Pc) {
    pc.Sent? || pc.Advanced? || pc.Wrapped? || pc.Blocked? || pc.Loaded?
  }

  /** iget has moved on, but nqueue still counts the datagram. */
  predicate Window(pc: Pc) {
    pc.Advanced? || pc.Wrapped? || pc.Blocked? || pc.Loaded?
  }

  /** The next slot to echo, and how many there are from it on. */
  function Base(pc: Pc, iget: nat): int {
    if pc.Sent? then Wrap(iget + 1) else Wrap(iget)
  }

  function Waiting(pc: Pc, nqueue: int): int {
    if Done(pc) then nqueue - 1 else nqueue
  }

  function Reading(h: Handler): nat {
    if h.Filled? then 1 else 0
  }

  ghost predicate Indexes(pc: Pc, h: Handler, iget: nat, iput: nat, nqueue: int) {
    && (if pc.Advanced? then 1 <= iget <= QSIZE else iget < QSIZE)
    && 0 <= nqueue <= QSIZE && iput < QSIZE
    && (var to := iget + nqueue - (if Window(pc) then 1 else 0);
        iput == to || iput == to - QSIZE || iput == to - 2 * QSIZE)
    && (pc.Ready? || pc.Sending? || Done(pc) ==> nqueue > 0)
    && (pc.Suspended? && h.Off? ==> nqueue == 0)
    && (!h.Test? ==> nqueue < QSIZE) && (pc.Loaded? ==> pc.n == nqueue && h.Off?)
  }

  /** The slots from `base` on hold the next datagrams in order of arrival. */
  ghost predicate Holds(slots: seq<Slot>, base: int, count: int, arrived: seq<Datagram>, from: nat) {
    && |slots| == QSIZE && 0 <= base < QSIZE && 0 <= count <= QSIZE && from + count <= |arrived|
    && forall k | 0 <= k < count :: Kept(slots, base, arrived, from, k)
  }

  predicate Kept(slots: seq<Slot>, base: int, arrived: seq<Datagram>, from: nat, k: nat)
    requires |slots| == QSIZE && 0 <= base < QSIZE && k < QSIZE && from + k < |arrived|
  {
    HoldsAt(slots[Wrap(base + k)], arrived[from + k])
  }

  predicate Same(slot: Slot, d: Datagram) {
    Datagram(slot.data, slot.peer) == Cut(d)
  }

  predicate HoldsAt(slot: Slot, d: Datagram) {
    slot.len == |slot.data| && Same(slot, d)
  }

  ghost predicate EchoOk(echoed: seq<Datagram>, arrived: seq<Datagram>) {
    |echoed| <= |arrived| && forall i | 0 <= i < |echoed| :: echoed[i] == Cut(arrived[i])
  }

  /** The unread datagrams are the latest, and the one being stored came just before them. */
  ghost predicate Unread(h: Handler, slots: seq<Slot>, iput: nat, kernel: seq<Datagram>, arrived: seq<Datagram>) {
    && |kernel| + Reading(h) <= |arrived| && kernel == arrived[|arrived| - |kernel|..]
    && (h.Filled? ==> iput < |slots| && Same(slots[iput], arrived[|arrived| - |kernel| - 1]))
  }

  /** What has arrived is echoed, waiting in the ring, being stored, or unread, in this order. */
  ghost predicate Flow(s: State) {
    && |s.arrived| == |s.echoed| + Waiting(s.pc, s.nqueue) + Reading(s.handler) + |s.kernel|
    && EchoOk(s.echoed, s.arrived)
    && Holds(s.slots, Base(s.pc, s.iget), Waiting(s.pc, s.nqueue), s.arrived, |s.echoed|)
    && Unread(s.handler, s.slots, s.iput, s.kernel, s.arrived)
  }

  /** The datagrams counted by the histogram. */
  function Weighted(cnt: seq<nat>): nat {
    if cnt == [] then 0
    else
      var n := |cnt| - 1;
      Weighted(cnt[..n]) + n * cnt[n]
  }

  ghost predicate Histogram(s: State) {
    && |s.cntread| == QSIZE + 1 && s.cntread[QSIZE] == 0
    && (!s.handler.Off? ==> s.nread <= s.nqueue)
    && Weighted(s.cntread) + (if s.handler.Off? then 0 else s.nread) + Reading(s.handler) ==
       |s.arrived| - |s.kernel|
  }

  /** Until a datagram has come after FIOASYNC no handler runs and nothing is read.  From then
      on unread datagrams have their signal pending or their handler running. */
  ghost predicate Awake(s: State) {
    && s.early <= |s.arrived| && (s.pc.Starting? ==> |s.arrived| == s.early)
    && (|s.arrived| == s.early ==> !s.pending && s.handler.Off? && |s.kernel| == |s.arrived|)
    && (|s.arrived| > s.early && |s.kernel| > 0 ==> s.pending || !s.handler.Off?)
    && (SettingUp(s.pc) ==> |s.echoed| == 0)
  }

  ghost predicate Inv(s: State) {
    s.quit || (Indexes(s.pc, s.handler, s.iget, s.iput, s.nqueue) && Flow(s) && Histogram(s) && Awake(s))
  }

  // ---- every step keeps them ----

  /** In terms of the next slot to echo. */
  lemma IndexesBase(pc: Pc, h: Handler, iget: nat, iput: nat, nqueue: int)
    requires Indexes(pc, h, iget, iput, nqueue)
    ensures 0 <= Waiting(pc, nqueue) <= nqueue && 0 <= Base(pc, iget) < QSIZE
    ensures iput == Wrap(Base(pc, iget) + Waiting(pc, nqueue))
  {
  }

  lemma {:induction false} IndexesLoop(s: State)
    requires Enabled(s, Loop) && Sized(s) && Indexes(s.pc, s.handler, s.iget, s.iput, s.nqueue)
    ensures var s' := LoopStep(s); Indexes(s'.pc, s'.handler, s'.iget, s'.iput, s'.nqueue)
  {
    hide Packet;
  }

  lemma {:induction false} IndexesHandle(s: State)
    requires Enabled(s, Handle) && Sized(s) && Indexes(s.pc, s.handler, s.iget, s.iput, s.nqueue)
    requires |s.kernel| <= |s.arrived|
    ensures var s' := HandleStep(s); s'.quit || Indexes(s'.pc, s'.handler, s'.iget, s'.iput, s'.nqueue)
  {
    hide Cut;
  }

  lemma {:induction false} IndexesStep(s: State, a: Action)
    requires Enabled(s, a) && Sized(s) && Inv(s)
    ensures var s' := Step(s, a); s'.quit || Indexes(s'.pc, s'.handler, s'.iget, s'.iput, s'.nqueue)
  {
    hide Flow, Histogram, Awake, LoopStep, HandleStep, Sized, Base, Waiting, Wrap;
    match a {
      case Loop => IndexesLoop(s);
      case Handle =>
        assert |s.kernel| <= |s.arrived| by { FlowCounts(s); }
        IndexesHandle(s);
      case _ =>
    }
  }

  lemma FlowCounts(s: State)
    requires Flow(s)
    ensures |s.kernel| <= |s.arrived|
  {
  }

  lemma {:induction false} AwakeStep(s: State, a: Action)
    requires Enabled(s, a) && Sized(s) && Inv(s)
    ensures Step(s, a).quit || Awake(Step(s, a))
  {
    hide Flow, Histogram, Indexes, Cut, Packet;
  }

  lemma {:induction false} WeightedBump(cnt: seq<nat>, k: nat)
    requires k < |cnt|
    ensures Weighted(cnt[k := cnt[k] + 1]) == Weighted(cnt) + k
  {
    var n, cnt' := |cnt| - 1, cnt[k := cnt[k] + 1];
    if k == n {
      assert cnt'[..n] == cnt[..n] && k * (cnt[k] + 1) == k * cnt[k] + k;
    } else {
      WeightedBump(cnt[..n], k);
      assert cnt'[..n] == cnt[..n][k := cnt[k] + 1];
    }
  }

  lemma {:induction false} HistogramStep(s: State, a: Action)
    requires Enabled(s, a) && Sized(s) && Inv(s)
    ensures Step(s, a).quit || Histogram(Step(s, a))
  {
    hide Flow, Awake, Cut, Packet, Weighted;
    if a.Handle? && s.handler.Recv? && s.kernel == [] {
      assert s.nread < QSIZE;
      WeightedBump(s.cntread, s.nread);
    }
  }

  /** The echo of a datagram: its first 4096 bytes, to the client it came from. */
  predicate EchoOf(e: Datagram, d: Datagram) {
    e.peer == d.peer && e.data == if |d.data| <= 4096 then d.data else d.data[..4096]
  }

  lemma CutIs(d: Datagram)
    ensures EchoOf(Cut(d), d)
  {
  }

  /** sendto reads the slot at iget: it holds the oldest datagram not yet echoed. */
  lemma {:induction false} SentIsOldest(s: State)
    requires Inv(s) && !s.quit && s.pc.Sending?
    ensures s.iget < QSIZE && |s.slots| == QSIZE && |s.echoed| < |s.arrived|
    ensures Packet(s.slots[s.iget]) == Cut(s.arrived[|s.echoed|])
    ensures EchoOf(Packet(s.slots[s.iget]), s.arrived[|s.echoed|])
  {
    if |s.echoed| < |s.arrived| {
      CutIs(s.arrived[|s.echoed|]);
    }
    hide Histogram, Awake, Cut, Unread, EchoOf;
    assert Kept(s.slots, Base(s.pc, s.iget), s.arrived, |s.echoed|, 0);
  }

  lemma {:induction false} HoldsNext(slots: seq<Slot>, base: int, count: int, arrived: seq<Datagram>, from: nat)
    requires Holds(slots, base, count, arrived, from) && count > 0
    ensures Holds(slots, Wrap(base + 1), count - 1, arrived, from + 1)
  {
    hide HoldsAt;
    var base', from' := Wrap(base + 1), from + 1;
    forall k | 0 <= k < count - 1 ensures Kept(slots, base', arrived, from', k) {
      assert Kept(slots, base, arrived, from, k + 1);
    }
  }

  /** Writing the slot at iput leaves the waiting ones alone, as long as there is room. */
  lemma {:induction false} HoldsWrite(slots: seq<Slot>, base: int, count: int, arrived: seq<Datagram>, from: nat,
                                      slot: Slot)
    requires Holds(slots, base, count, arrived, from) && count < QSIZE
    ensures Holds(slots[Wrap(base + count) := slot], base, count, arrived, from)
  {
    hide HoldsAt;
    var slots' := slots[Wrap(base + count) := slot];
    forall k | 0 <= k < count ensures Kept(slots', base, arrived, from, k) {
      assert Kept(slots, base, arrived, from, k);
    }
  }

  lemma {:induction false} HoldsMore(slots: seq<Slot>, base: int, count: int, arrived: seq<Datagram>, from: nat)
    requires Holds(slots, base, count, arrived, from) && count < QSIZE && from + count < |arrived|
    requires HoldsAt(slots[Wrap(base + count)], arrived[from + count])
    ensures Holds(slots, base, count + 1, arrived, from)
  {
    hide HoldsAt;
  }

  lemma {:induction false} HoldsArrive(slots: seq<Slot>, base: int, count: int, arrived: seq<Datagram>, from: nat,
                                       d: Datagram)
    requires Holds(slots, base, count, arrived, from)
    ensures Holds(slots, base, count, arrived + [d], from)
  {
    hide HoldsAt;
    var arrived' := arrived + [d];
    forall k | 0 <= k < count ensures Kept(slots, base, arrived', from, k) {
      assert Kept(slots, base, arrived, from, k);
    }
  }

  lemma {:induction false} FlowArrive(s: State, d: Datagram)
    requires Flow(s) && !s.quit && Sized(s)
    ensures Flow(Step(s, Arrive(d)))
  {
    HoldsArrive(s.slots, Base(s.pc, s.iget), Waiting(s.pc, s.nqueue), s.arrived, |s.echoed|, d);
    hide Holds, Cut, Base, Waiting;
  }

  /** Every step of the main program but sendto leaves the ring as it is. */
  lemma {:induction false} LoopSame(s: State)
    requires Sized(s) && Indexes(s.pc, s.handler, s.iget, s.iput, s.nqueue) && !s.pc.Sending?
    ensures var s' := LoopStep(s);
            && Base(s'.pc, s'.iget) == Base(s.pc, s.iget) && Waiting(s'.pc, s'.nqueue) == Waiting(s.pc, s.nqueue)
            && s'.slots == s.slots && s'.arrived == s.arrived && s'.echoed == s.echoed && s'.kernel == s.kernel
            && s'.handler == s.handler && s'.iput == s.iput
  {
    hide Packet;
    assert s.pc.Advanced? || s.pc.Sent? ==> 0 <= s.iget <= QSIZE;
    assert s.pc.Loaded? ==> s.pc.n == s.nqueue;
    hide Indexes;
    match s.pc {
      case Sent =>
      case Advanced =>
      case Blocked =>
      case Loaded(n) =>
      case _ => hide Wrap;
    }
  }

  lemma {:induction false} FlowLoop(s: State)
    requires Enabled(s, Loop) && Sized(s) && Inv(s)
    ensures Flow(LoopStep(s))
  {
    hide Histogram, Awake, Cut, Packet, Holds, Unread, Same;
    if s.pc.Sending? {
      SentIsOldest(s);
      HoldsNext(s.slots, Base(s.pc, s.iget), Waiting(s.pc, s.nqueue), s.arrived, |s.echoed|);
    } else {
      LoopSame(s);
      hide LoopStep, Base, Waiting, EchoOk, Indexes;
    }
  }

  lemma {:induction false} FlowRecv(s: State)
    requires !s.quit && Sized(s) && Inv(s) && s.handler.Recv? && s.kernel != []
    ensures Flow(HandleStep(s))
  {
    var s' := HandleStep(s);
    var base, waiting := Base(s.pc, s.iget), Waiting(s.pc, s.nqueue);
    IndexesBase(s.pc, s.handler, s.iget, s.iput, s.nqueue);
    assert waiting < QSIZE && s.iput == Wrap(base + waiting);
    assert Same(s'.slots[s.iput], s.kernel[0]);
    assert s.slots[s.iput := s'.slots[s.iput]] == s'.slots;
    hide Histogram, Awake, Holds, Indexes, Cut, Same, EchoOk, Wrap;
    HoldsWrite(s.slots, base, waiting, s.arrived, |s.echoed|, s'.slots[s.iput]);
  }

  lemma {:induction false} FlowFilled(s: State)
    requires !s.quit && Sized(s) && Inv(s) && s.handler.Filled?
    ensures Flow(HandleStep(s))
  {
    var s' := HandleStep(s);
    var base, waiting := Base(s.pc, s.iget), Waiting(s.pc, s.nqueue);
    IndexesBase(s.pc, s.handler, s.iget, s.iput, s.nqueue);
    assert waiting < QSIZE && s.iput == Wrap(base + waiting);
    assert s.slots[s.iput := s'.slots[s.iput]] == s'.slots;
    assert HoldsAt(s'.slots[s.iput], s.arrived[|s.echoed| + waiting]);
    assert Waiting(s'.pc, s'.nqueue) == waiting + 1 && Base(s'.pc, s'.iget) == base;
    hide Histogram, Awake, Holds, Indexes, Cut, Same, HoldsAt, EchoOk, Wrap, Base, Waiting;
    HoldsWrite(s.slots, base, waiting, s.arrived, |s.echoed|, s'.slots[s.iput]);
    HoldsMore(s'.slots, base, waiting, s.arrived, |s.echoed|);
  }

  /** The test, and the end of a handler, leave the ring as it is. */
  lemma {:induction false} FlowIdle(s: State)
    requires Sized(s) && Flow(s) && (s.handler.Test? || (s.handler.Recv? && s.kernel == []))
    ensures HandleStep(s).quit || Flow(HandleStep(s))
  {
    var s' := HandleStep(s);
    assert Base(s'.pc, s'.iget) == Base(s.pc, s.iget) && Waiting(s'.pc, s'.nqueue) == Waiting(s.pc, s.nqueue);
    assert s'.slots == s.slots && s'.kernel == s.kernel && s'.arrived == s.arrived && s'.echoed == s.echoed;
    assert Reading(s'.handler) == Reading(s.handler) == 0 && s'.iput == s.iput && !s'.handler.Filled?;
    hide HandleStep, Base, Waiting, Holds, EchoOk, Cut, Same, Reading;
  }

  lemma {:induction false} FlowHandle(s: State)
    requires Enabled(s, Handle) && Sized(s) && Inv(s)
    ensures HandleStep(s).quit || Flow(HandleStep(s))
  {
    assert !s.quit && !s.handler.Off? && Flow(s);
    hide Flow, HandleStep, Inv;
    if s.handler.Filled? {
      FlowFilled(s);
    } else if s.handler.Recv? && s.kernel != [] {
      FlowRecv(s);
    } else {
      FlowIdle(s);
    }
  }

  lemma {:induction false} InvStep(s: State, a: Action)
    requires Enabled(s, a) && Sized(s) && Inv(s)
    ensures Inv(Step(s, a))
  {
    IndexesStep(s, a);
    HistogramStep(s, a);
    AwakeStep(s, a);
    match a {
      case Arrive(d) => FlowArrive(s, d);
      case Loop => FlowLoop(s);
      case Handle => FlowHandle(s);
      case _ =>
    }
    hide Indexes, Histogram, Awake, Holds, EchoOk, Cut, LoopStep, HandleStep, Base, Waiting;
  }

  lemma {:induction false} WeightedZero(cnt: seq<nat>)
    requires forall i | 0 <= i < |cnt| :: cnt[i] == 0
    ensures Weighted(cnt) == 0
  {
    if cnt != [] {
      WeightedZero(cnt[..|cnt| - 1]);
    }
  }

  lemma HoldsNone(slots: seq<Slot>, base: int, arrived: seq<Datagram>, from: nat)
    requires |slots| == QSIZE && 0 <= base < QSIZE && from <= |arrived|
    ensures Holds(slots, base, 0, arrived, from)
  {
  }

  lemma IndexesStart(s: State)
    requires Starts(s)
    ensures Indexes(s.pc, s.handler, s.iget, s.iput, s.nqueue) && Awake(s)
    ensures Waiting(s.pc, s.nqueue) == 0 && Base(s.pc, s.iget) == 0 && Reading(s.handler) == 0
  {
  }

  lemma {:induction false} HistogramStart(s: State)
    requires Starts(s)
    ensures Histogram(s)
  {
    WeightedZero(s.cntread);
    hide Weighted;
  }

  lemma {:induction false} FlowStart(s: State)
    requires |s.slots| == QSIZE && |s.kernel| == |s.arrived| && s.kernel == s.arrived && |s.echoed| == 0
    requires s.handler.Off?
    requires Waiting(s.pc, s.nqueue) == 0 && Base(s.pc, s.iget) == 0 && Reading(s.handler) == 0
    ensures Flow(s)
  {
    HoldsNone(s.slots, 0, s.arrived, 0);
    hide Holds, Waiting, Base;
  }

  lemma {:induction false} InvInitial(s: State)
    requires Starts(s)
    ensures Inv(s) && !s.quit
  {
    assert !s.quit && |s.slots| == QSIZE && s.handler.Off?;
    assert |s.kernel| == |s.arrived| && s.kernel == s.arrived && |s.echoed| == 0;
    hide Starts, Indexes, Awake, Histogram, Flow, Waiting, Base, Reading;
    IndexesStart(s);
    HistogramStart(s);
    FlowStart(s);
  }

  lemma {:induction false} InvSized(s: State)
    requires Inv(s) && !s.quit
    ensures Sized(s)
  {
    hide Kept, EchoOk, Unread;
  }

  lemma {:induction false} RunKeeps(start: State, acts: seq<Action>)
    requires Starts(start)
    ensures var r := Run(start, acts); r.Some? ==> Inv(r.value) && (r.value.quit || Sized(r.value))
  {
    hide Inv, Step, Enabled, Sized, Starts;
    if acts == [] {
      InvInitial(start);
      InvSized(start);
    } else {
      RunKeeps(start, acts[..|acts| - 1]);
      var r, a := Run(start, acts[..|acts| - 1]), acts[|acts| - 1];
      if r.Some? && Enabled(r.value, a) && Sized(r.value) {
        InvStep(r.value, a);
        if !Step(r.value, a).quit {
          InvSized(Step(r.value, a));
        }
      }
    }
  }

  // ---- what they mean for every run ----

  /** Every datagram is echoed at most once, in order of arrival, to the client it came from. */
  lemma {:induction false} EchoedInOrder(start: State, acts: seq<Action>, s: State)
    requires Starts(start) && Run(start, acts) == Some(s) && !s.quit
    ensures |s.echoed| <= |s.arrived| && forall i | 0 <= i < |s.echoed| :: EchoOf(s.echoed[i], s.arrived[i])
  {
    RunKeeps(start, acts);
    hide Run, Starts, Histogram, Indexes, Holds, Unread, Cut, EchoOf;
    forall i | 0 <= i < |s.echoed| ensures EchoOf(s.echoed[i], s.arrived[i]) {
      CutIs(s.arrived[i]);
    }
  }

  lemma IndexMod(pc: Pc, h: Handler, iget: nat, iput: nat, nqueue: int)
    requires Indexes(pc, h, iget, iput, nqueue)
    ensures iput == (iget + nqueue - if Window(pc) then 1 else 0) % QSIZE
  {
  }

  lemma {:induction false} InvIndexes(start: State, acts: seq<Action>, s: State)
    requires Starts(start) && Run(start, acts) == Some(s) && !s.quit
    ensures Sized(s) && Indexes(s.pc, s.handler, s.iget, s.iput, s.nqueue)
  {
    RunKeeps(start, acts);
    hide Run, Starts, Histogram, Flow, Awake, Indexes, Sized;
  }

  /** iput is nqueue slots after iget, less one between the advance of iget and nqueue--. */
  lemma {:induction false} RingIndex(start: State, acts: seq<Action>, s: State)
    requires Starts(start) && Run(start, acts) == Some(s) && !s.quit
    ensures s.iput == (s.iget + s.nqueue - if Window(s.pc) then 1 else 0) % QSIZE
  {
    hide *;
    InvIndexes(start, acts, s);
    IndexMod(s.pc, s.handler, s.iget, s.iput, s.nqueue);
  }

  /** The histogram accounts for everything read by handlers that have returned, and nread for
      what the one running has read, but for a datagram just read.  Its last entry is never
      used: a handler that fills the ring quits instead of counting. */
  lemma {:induction false} HistogramAddsUp(start: State, acts: seq<Action>, s: State)
    requires Starts(start) && Run(start, acts) == Some(s) && !s.quit
    ensures |s.cntread| == QSIZE + 1 && s.cntread[QSIZE] == 0
    ensures s.handler.Off? ==> Weighted(s.cntread) == |s.arrived| - |s.kernel|
    ensures !s.handler.Off? ==> Weighted(s.cntread) + s.nread + Reading(s.handler) == |s.arrived| - |s.kernel|
  {
    RunKeeps(start, acts);
    hide Run, Starts, Flow, Indexes, Awake, Weighted;
  }

  /** While a datagram is being sent, no step changes the slot it is in. */
  lemma {:induction false} NeverOverwritten(start: State, acts: seq<Action>, s: State, a: Action)
    requires Starts(start) && Run(start, acts) == Some(s) && Enabled(s, a) && (s.pc.Ready? || s.pc.Sending?)
    ensures Sized(s) && s.iget < QSIZE && (!Step(s, a).quit ==> Step(s, a).slots[s.iget] == s.slots[s.iget])
  {
    InvIndexes(start, acts, s);
    hide Run, Starts, Cut, Packet;
  }

  /** A full ring ends the program: between runs of the handler there is always room. */
  lemma {:induction false} NeverFull(start: State, acts: seq<Action>, s: State)
    requires Starts(start) && Run(start, acts) == Some(s) && !s.quit
    ensures s.nqueue <= QSIZE && (s.handler.Off? ==> s.nqueue < QSIZE)
  {
    InvIndexes(start, acts, s);
    hide Run, Starts;
  }

  /** The program gives up exactly when QSIZE datagrams have been read whose slots the main
      loop has not given back. */
  lemma {:induction false} OverflowIff(start: State, acts: seq<Action>, s: State, a: Action)
    requires Starts(start) && Run(start, acts) == Some(s) && Enabled(s, a) && !a.Fail?
    ensures var read, back := |s.arrived| - |s.kernel|, |s.echoed| - if Done(s.pc) then 1 else 0;
            && Sized(s) && read - back <= QSIZE + Reading(s.handler)
            && (Step(s, a).quit <==> a.Handle? && s.handler.Test? && read - back == QSIZE)
  {
    InvIndexes(start, acts, s);
    RunKeeps(start, acts);
    hide Run, Starts, Cut, Return, Histogram, Awake, Holds, EchoOk, Unread;
  }

  /** The main loop sleeps with everything echoed if and only if some datagram came after
      FIOASYNC, or none before. */
  lemma {:induction false} SleepsWhenDoneIff(start: State, acts: seq<Action>, s: State)
    requires Starts(start) && Run(start, acts) == Some(s) && !s.quit
    requires s.pc.Suspended? && s.handler.Off? && !s.pending
    ensures |s.echoed| == |s.arrived| <==> |s.arrived| > s.early || s.early == 0
  {
    RunKeeps(start, acts);
    hide Run, Starts, Histogram, Holds, Unread, EchoOk;
  }

  /** While a datagram waits to be echoed, something can go on, except in two cases: all the
      datagrams came before FIOASYNC and the loop sleeps, or a handler that was started before
      FIONBIO waits in recvfrom. */
  lemma {:induction false} StrandedIff(start: State, acts: seq<Action>, s: State)
    requires Starts(start) && Run(start, acts) == Some(s) && !s.quit && |s.echoed| != |s.arrived|
    ensures Enabled(s, Loop) || Enabled(s, Handle) || Enabled(s, Deliver) <==>
            && !(s.pc.Suspended? && |s.arrived| == s.early)
            && !(s.pc.Async? && s.handler.Recv? && s.kernel == [])
  {
    RunKeeps(start, acts);
    if s.pc.Suspended? && s.handler.Off? && !s.pending {
      SleepsWhenDoneIff(start, acts, s);
    }
    hide Run, Starts, Histogram, Flow, Indexes;
  }

  /** A handler started before FIONBIO never returns: from then on nothing is ever echoed. */
  lemma {:induction false} CapturedForever(s: State, more: seq<Action>)
    requires Inv(s) && !s.quit && s.pc.Async? && !s.handler.Off?
    ensures var r := Run(s, more);
            r.Some? ==>
              Inv(r.value) && (r.value.quit || (r.value.pc.Async? && !r.value.handler.Off? && |r.value.echoed| == 0))
  {
    if more != [] {
      CapturedForever(s, more[..|more| - 1]);
      var r, a := Run(s, more[..|more| - 1]), more[|more| - 1];
      if r.Some? && Enabled(r.value, a) && Sized(r.value) {
        InvStep(r.value, a);
        CapturedStep(r.value, a);
      }
    }
    assert Awake(s);
    hide Inv, Step, Enabled;
  }

  lemma {:induction false} CapturedStep(s: State, a: Action)
    requires Inv(s) && Enabled(s, a) && Sized(s) && s.pc.Async? && !s.handler.Off?
    ensures var s' := Step(s, a); s'.quit || (s'.pc.Async? && !s'.handler.Off? && s'.echoed == s.echoed)
  {
    hide Flow, Histogram, Indexes, Cut;
  }

  /** A datagram that comes before FIOASYNC: the loop goes to sleep and nothing can wake it. */
  lemma {:induction false} StrandedRun(start: State, d: Datagram)
    requires Starts(start) && |start.arrived| == 0
    ensures var r := Run(start, [Arrive(d), Loop, Loop, Loop, Loop]);
            && r.Some? && r.value.pc.Suspended? && r.value.kernel == [d] && |r.value.echoed| == 0
            && !Enabled(r.value, Loop) && !Enabled(r.value, Handle) && !Enabled(r.value, Deliver)
  {
    var s := start.(kernel := [d], arrived := [d], early := 1);
    assert start.kernel + [d] == [d] && start.arrived + [d] == [d];
    assert Step(start, Arrive(d)) == s && Step(s, Loop) == s.(pc := Async);
    assert Step(s.(pc := Async), Loop) == s.(pc := Nonblock) && Step(s.(pc := Nonblock), Loop) == s.(pc := Check);
    assert Step(s.(pc := Check), Loop) == s.(pc := Suspended);
    hide Run, Starts, LoopStep, Step;
    var none := RunNone(start);
    var acts := RunOne(start, none, start, Arrive(d));
    acts := RunOne(start, acts, s, Loop);
    acts := RunOne(start, acts, s.(pc := Async), Loop);
    acts := RunOne(start, acts, s.(pc := Nonblock), Loop);
    acts := RunOne(start, acts, s.(pc := Check), Loop);
    assert acts == [Arrive(d), Loop, Loop, Loop, Loop];
  }

  /** A signal between FIOASYNC and FIONBIO: the handler reads the datagram and waits for the
      next one, and the loop never begins. */
  lemma {:induction false} CapturedRun(start: State, d: Datagram)
    requires Starts(start) && |start.arrived| == 0
    ensures var r := Run(start, [Loop, Arrive(d), Deliver, Handle, Handle, Handle, Handle]);
            && r.Some? && !r.value.quit && r.value.pc.Async? && r.value.nqueue == 1 && |r.value.echoed| == 0
            && !Enabled(r.value, Loop) && !Enabled(r.value, Handle) && !Enabled(r.value, Deliver)
  {
    var s1 := start.(pc := Async);
    var s2 := s1.(kernel := [d], arrived := [d], pending := true);
    assert start.kernel + [d] == [d] && start.arrived + [d] == [d];
    assert Step(start, Loop) == s1 && Step(s1, Arrive(d)) == s2;
    var s3 := s2.(pending := false, handler := Test, nread := 0);
    assert Step(s2, Deliver) == s3 && Step(s3, Handle) == s3.(handler := Recv);
    var s5 := Step(s3.(handler := Recv), Handle);
    assert s5.handler.Filled? && s5.kernel == [] && s5.(slots := s3.slots, handler := Test, kernel := [d]) == s3;
    var s6 := Step(s5, Handle);
    assert s6.handler.Test? && s6.nqueue == 1 && s6.pc.Async? && s6.kernel == [] && !s6.quit && Sized(s6);
    assert s6.echoed == start.echoed && Step(s6, Handle) == s6.(handler := Recv);
    hide Run, Starts, LoopStep, HandleStep, Step;
    var none := RunNone(start);
    var acts := RunOne(start, none, start, Loop);
    acts := RunOne(start, acts, s1, Arrive(d));
    acts := RunOne(start, acts, s2, Deliver);
    acts := RunOne(start, acts, s3, Handle);
    acts := RunOne(start, acts, s3.(handler := Recv), Handle);
    acts := RunOne(start, acts, s5, Handle);
    acts := RunOne(start, acts, s6, Handle);
    assert acts == [Loop, Arrive(d), Deliver, Handle, Handle, Handle, Handle];
  }

  lemma RunNone(start: State) returns (acts: seq<Action>)
    ensures acts == [] && Run(start, acts) == Some(start)
  {
    acts := [];
  }

  lemma {:induction false} RunOne(start: State, acts: seq<Action>, s: State, a: Action) returns (acts': seq<Action>)
    requires Run(start, acts) == Some(s) && Enabled(s, a) && Sized(s)
    ensures acts' == acts + [a] && Run(start, acts') == Some(Step(s, a))
  {
    acts' := acts + [a];
    assert acts'[..|acts|] == acts;
  }
}
