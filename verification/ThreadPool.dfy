/** The prethreaded server: the main thread accepts connections into a ring and any number
    of workers take them out, under one mutex and one condition variable
    (server/serv08.c, server/pthread08.c). */
module ThreadPool {
  import opened Basics

  const MAXNCLI := 32

  /** The main thread is in accept, wants the lock, is about to put, to signal, or to unlock. */
  datatype Main = Accepting | Wanting(fd: int) | Putting(fd: int) | Signalling | Leaving

  /** A worker wants the lock, tests the ring, sleeps on the condition, has been woken and
      wants the lock back, is about to get, is about to unlock, or serves. */
  datatype Pc = Start | Test | Asleep | Woken | Get | Unlock(fd: int, k: nat) | Serve(fd: int, k: nat)

  /** `k` and `served` record which of the accepted connections a worker has and had. */
  datatype Worker = Worker(pc: Pc, count: nat, served: seq<nat>)

  datatype Owner = Free | ByMain | By(i: nat)

  /** `accepted`, `put` and `taken` record the descriptors that accept returned, that went into
      the ring and that came out, and `owners` who took them. */
  datatype State = State(main: Main, workers: seq<Worker>, mutex: Owner, quit: bool,
                         clifd: seq<int>, iget: nat, iput: nat,
                         accepted: seq<int>, put: seq<int>, taken: seq<int>, owners: seq<nat>)

  /** `Signal` wakes some sleeping worker, or none if none sleeps; `Spurious` is a wakeup
      nobody asked for. */
  datatype Action =
    | Accept(fd: int) | MainLock | Put | SignalNone | Signal(i: nat) | MainUnlock
    | Lock(i: nat) | Look(i: nat) | Take(i: nat) | Release(i: nat) | Finish(i: nat) | Spurious(i: nat)

  ghost predicate Starts(s: State) {
    && s.main.Accepting? && s.mutex.Free? && !s.quit && |s.clifd| == MAXNCLI && s.iget == 0 && s.iput == 0
    && |s.accepted| == 0 && |s.put| == 0 && |s.taken| == 0 && |s.owners| == 0
    && forall i | 0 <= i < |s.workers| :: s.workers[i] == Worker(Start, 0, [])
  }

  predicate Sleeper(workers: seq<Worker>) {
    exists i | 0 <= i < |workers| :: workers[i].pc.Asleep?
  }

  predicate Enabled(s: State, a: Action) {
    !s.quit &&
    match a
    case Accept(_) => s.main.Accepting?
    case MainLock => s.main.Wanting? && s.mutex.Free?
    case Put => s.main.Putting?
    case SignalNone => s.main.Signalling? && !Sleeper(s.workers)
    case Signal(i) => s.main.Signalling? && i < |s.workers| && s.workers[i].pc.Asleep?
    case MainUnlock => s.main.Leaving?
    case Lock(i) => i < |s.workers| && (s.workers[i].pc.Start? || s.workers[i].pc.Woken?) && s.mutex.Free?
    case Look(i) => i < |s.workers| && s.workers[i].pc.Test?
    case Take(i) => i < |s.workers| && s.workers[i].pc.Get?
    case Release(i) => i < |s.workers| && s.workers[i].pc.Unlock?
    case Finish(i) => i < |s.workers| && s.workers[i].pc.Serve?
    case Spurious(i) => i < |s.workers| && s.workers[i].pc.Asleep?
  }

  function At(s: State, i: nat, pc: Pc): State
    requires i < |s.workers|
  {
    s.(workers := s.workers[i := s.workers[i].(pc := pc)])
  }

  function Next(i: nat): nat {
    if i + 1 == MAXNCLI then 0 else i + 1
  }

  predicate Sized(s: State) {
    |s.clifd| == MAXNCLI && s.iget < MAXNCLI && s.iput < MAXNCLI
  }

  function PutStep(s: State): State
    requires s.main.Putting? && Sized(s)
  {
    var s' := s.(clifd := s.clifd[s.iput := s.main.fd], iput := Next(s.iput), put := s.put + [s.main.fd]);
    if s'.iput == s'.iget then s'.(quit := true) else s'.(main := Signalling)
  }

  function TakeStep(s: State, i: nat): State
    requires i < |s.workers| && Sized(s)
  {
    var fd := s.clifd[s.iget];
    At(s, i, Unlock(fd, |s.taken|)).(iget := Next(s.iget), taken := s.taken + [fd], owners := s.owners + [i])
  }

  function ReleaseStep(s: State, i: nat): State
    requires i < |s.workers| && s.workers[i].pc.Unlock?
  {
    var w := s.workers[i];
    s.(mutex := Free, workers := s.workers[i := w.(pc := Serve(w.pc.fd, w.pc.k), count := w.count + 1)])
  }

  function FinishStep(s: State, i: nat): State
    requires i < |s.workers| && s.workers[i].pc.Serve?
  {
    var w := s.workers[i];
    s.(workers := s.workers[i := w.(pc := Start, served := w.served + [w.pc.k])])
  }

  function Step(s: State, a: Action): State
    requires Enabled(s, a) && Sized(s)
  {
    match a
    case Accept(fd) => s.(main := Wanting(fd), accepted := s.accepted + [fd])
    case MainLock => s.(main := Putting(s.main.fd), mutex := ByMain)
    case Put => PutStep(s)
    case SignalNone => s.(main := Leaving)
    case Signal(i) => At(s, i, Woken).(main := Leaving)
    case MainUnlock => s.(main := Accepting, mutex := Free)
    case Lock(i) => At(s, i, Test).(mutex := By(i))
    case Look(i) => if s.iget == s.iput then At(s, i, Asleep).(mutex := Free) else At(s, i, Get)
    case Take(i) => TakeStep(s, i)
    case Release(i) => ReleaseStep(s, i)
    case Finish(i) => FinishStep(s, i)
    case Spurious(i) => At(s, i, Woken)
  }

  /** The state a run ends in; none if some action was not possible. */
  function Run(start: State, acts: seq<Action>): Option<State> {
    if acts == [] then Some(start)
    else
      var r, a := Run(start, acts[..|acts| - 1]), acts[|acts| - 1];
      if r.Some? && Enabled(r.value, a) && Sized(r.value) then Some(Step(r.value, a)) else None
  }

  // ---- invariants ----

  predicate Kept(clifd: seq<int>, iget: nat, put: seq<int>, from: nat, k: nat)
    requires |clifd| == MAXNCLI && iget < MAXNCLI && k < MAXNCLI && from + k < |put|
  {
    clifd[if iget + k >= MAXNCLI then iget + k - MAXNCLI else iget + k] == put[from + k]
  }

  /** The ring holds what was put and not yet taken, and never all of its slots are used. */
  ghost predicate Ring(clifd: seq<int>, iget: nat, iput: nat, put: seq<int>, taken: seq<int>) {
    && |clifd| == MAXNCLI && iget < MAXNCLI && iput < MAXNCLI
    && |taken| <= |put| < |taken| + MAXNCLI
    && (iput == iget + |put| - |taken| || iput == iget + |put| - |taken| - MAXNCLI)
    && forall k | 0 <= k < |put| - |taken| :: Kept(clifd, iget, put, |taken|, k)
  }

  /** What the main thread has accepted it has put, but for the one it is about to put. */
  ghost predicate PutOk(main: Main, accepted: seq<int>, put: seq<int>) {
    accepted == if main.Wanting? || main.Putting? then put + [main.fd] else put
  }

  ghost predicate InOrder(put: seq<int>, taken: seq<int>) {
    |taken| <= |put| && forall k | 0 <= k < |taken| :: taken[k] == put[k]
  }

  predicate Holding(pc: Pc) {
    pc.Test? || pc.Get? || pc.Unlock?
  }

  predicate MainHolds(m: Main) {
    m.Putting? || m.Signalling? || m.Leaving?
  }

  /** The owner of the mutex is the only thread between lock and unlock. */
  ghost predicate Exclusive(main: Main, workers: seq<Worker>, mutex: Owner) {
    && (mutex.By? ==> mutex.i < |workers|)
    && (MainHolds(main) <==> mutex.ByMain?)
    && forall i | 0 <= i < |workers| :: Holding(workers[i].pc) <==> mutex == By(i)
  }

  ghost predicate Getting(workers: seq<Worker>, waiting: int) {
    forall i | 0 <= i < |workers| :: workers[i].pc.Get? ==> waiting > 0
  }

  predicate WillLook(pc: Pc) {
    pc.Start? || pc.Woken? || pc.Test? || pc.Get?
  }

  /** The workers that look at the ring again before they serve or sleep. */
  function Lookers(workers: seq<Worker>): nat {
    if workers == [] then 0
    else Lookers(workers[..|workers| - 1]) + (if WillLook(workers[|workers| - 1].pc) then 1 else 0)
  }

  /** While a worker sleeps, there is a worker about to look for every waiting connection,
      not counting the one that is about to be signalled. */
  ghost predicate NoLostWakeup(main: Main, workers: seq<Worker>, waiting: int) {
    Sleeper(workers) ==> waiting <= Lookers(workers) + if main.Signalling? then 1 else 0
  }

  predicate Has(pc: Pc) {
    pc.Unlock? || pc.Serve?
  }

  function Current(pc: Pc): seq<nat> {
    if Has(pc) then [pc.k] else []
  }

  function Late(pc: Pc): nat {
    if pc.Unlock? then 1 else 0
  }

  /** Worker `i` has served, or is serving, exactly the connections it took, in order; the
      descriptor it has is that of its connection; and it counts them once it has unlocked. */
  predicate WorkerOk(w: Worker, i: nat, owners: seq<nat>, taken: seq<int>) {
    && w.served + Current(w.pc) == Given(owners, i)
    && w.count + Late(w.pc) == |Given(owners, i)|
    && (Has(w.pc) ==> w.pc.k < |taken| && w.pc.fd == taken[w.pc.k])
  }

  ghost predicate Counts(workers: seq<Worker>, owners: seq<nat>, taken: seq<int>) {
    && |owners| == |taken| && (forall k | 0 <= k < |owners| :: owners[k] < |workers|)
    && forall i | 0 <= i < |workers| :: WorkerOk(workers[i], i, owners, taken)
  }

  ghost predicate Inv(s: State) {
    s.quit ||
    (&& Ring(s.clifd, s.iget, s.iput, s.put, s.taken) && InOrder(s.put, s.taken) && PutOk(s.main, s.accepted, s.put)
     && Exclusive(s.main, s.workers, s.mutex) && Getting(s.workers, |s.put| - |s.taken|)
     && NoLostWakeup(s.main, s.workers, |s.put| - |s.taken|)
     && Counts(s.workers, s.owners, s.taken))
  }

  // ---- every step keeps them ----

  lemma {:induction false} RingPut(clifd: seq<int>, iget: nat, iput: nat, put: seq<int>, taken: seq<int>, fd: int)
    requires Ring(clifd, iget, iput, put, taken)
    ensures Next(iput) == iget <==> |put| - |taken| == MAXNCLI - 1
    ensures Next(iput) != iget ==> Ring(clifd[iput := fd], iget, Next(iput), put + [fd], taken)
  {
    if Next(iput) != iget {
      var clifd', put', n := clifd[iput := fd], put + [fd], |put| - |taken|;
      var from := |taken|;
      forall k | 0 <= k < n + 1 ensures Kept(clifd', iget, put', from, k) {
        if k < n {
          assert Kept(clifd, iget, put, from, k);
        }
      }
    }
  }

  lemma {:induction false} RingTake(clifd: seq<int>, iget: nat, iput: nat, put: seq<int>, taken: seq<int>)
    requires Ring(clifd, iget, iput, put, taken) && |taken| < |put|
    ensures clifd[iget] == put[|taken|]
    ensures Ring(clifd, Next(iget), iput, put, taken + [clifd[iget]])
  {
    assert Kept(clifd, iget, put, |taken|, 0);
    var iget', from, n := Next(iget), |taken| + 1, |put| - |taken| - 1;
    forall k | 0 <= k < n ensures Kept(clifd, iget', put, from, k) {
      assert Kept(clifd, iget, put, |taken|, k + 1);
    }
  }

  lemma {:induction false} LookersUpdate(workers: seq<Worker>, i: nat, w: Worker)
    requires i < |workers|
    ensures Lookers(workers[i := w]) ==
            Lookers(workers) - (if WillLook(workers[i].pc) then 1 else 0) + (if WillLook(w.pc) then 1 else 0)
  {
    var n, workers' := |workers| - 1, workers[i := w];
    if i == n {
      assert workers'[..n] == workers[..n];
    } else {
      LookersUpdate(workers[..n], i, w);
      assert workers'[..n] == workers[..n][i := w];
    }
  }

  lemma {:induction false} SleeperBefore(workers: seq<Worker>, i: nat, w: Worker)
    requires i < |workers| && !w.pc.Asleep? && Sleeper(workers[i := w])
    ensures Sleeper(workers)
  {
    var workers' := workers[i := w];
    var j :| 0 <= j < |workers'| && workers'[j].pc.Asleep?;
    assert workers[j].pc.Asleep?;
  }

  function Window(main: Main): nat {
    if main.Signalling? then 1 else 0
  }

  function Looks(pc: Pc): nat {
    if WillLook(pc) then 1 else 0
  }

  /** A worker's step that does not put it to sleep. */
  lemma {:induction false} WakeupWorker(main: Main, main': Main, workers: seq<Worker>, i: nat, w: Worker,
                                        waiting: int, waiting': int)
    requires NoLostWakeup(main, workers, waiting) && i < |workers| && !w.pc.Asleep?
    requires (workers[i].pc.Asleep? ==> Sleeper(workers))
    requires waiting' - Looks(w.pc) - Window(main') <= waiting - Looks(workers[i].pc) - Window(main)
    ensures NoLostWakeup(main', workers[i := w], waiting')
  {
    LookersUpdate(workers, i, w);
    hide Lookers;
    if Sleeper(workers[i := w]) {
      SleeperBefore(workers, i, w);
    }
    hide Sleeper;
  }

  lemma {:induction false} CountsUpdate(workers: seq<Worker>, owners: seq<nat>, taken: seq<int>, i: nat, w: Worker)
    requires Counts(workers, owners, taken) && i < |workers| && WorkerOk(w, i, owners, taken)
    ensures Counts(workers[i := w], owners, taken)
  {
    hide WorkerOk;
  }

  /** A step that neither takes nor finishes a connection. */
  lemma {:induction false} CountsSame(workers: seq<Worker>, owners: seq<nat>, taken: seq<int>, i: nat, pc: Pc)
    requires Counts(workers, owners, taken) && i < |workers| && !Has(pc) && !Has(workers[i].pc)
    ensures Counts(workers[i := workers[i].(pc := pc)], owners, taken)
  {
    assert WorkerOk(workers[i], i, owners, taken);
    hide Given;
    CountsUpdate(workers, owners, taken, i, workers[i].(pc := pc));
  }

  lemma {:induction false} CountsTake(workers: seq<Worker>, owners: seq<nat>, taken: seq<int>, i: nat, fd: int)
    requires Counts(workers, owners, taken) && i < |workers| && !Has(workers[i].pc)
    ensures Counts(workers[i := workers[i].(pc := Unlock(fd, |taken|))], owners + [i], taken + [fd])
  {
    var owners', taken' := owners + [i], taken + [fd];
    var workers' := workers[i := workers[i].(pc := Unlock(fd, |taken|))];
    assert owners'[..|owners|] == owners;
    forall j | 0 <= j < |workers| ensures WorkerOk(workers'[j], j, owners', taken') {
      assert WorkerOk(workers[j], j, owners, taken);
    }
  }

  lemma GettingUpdate(workers: seq<Worker>, i: nat, w: Worker, waiting: int)
    requires Getting(workers, waiting) && i < |workers| && (w.pc.Get? ==> waiting > 0)
    ensures Getting(workers[i := w], waiting)
  {
  }

  /** Only the thread that holds the mutex can be about to get. */
  lemma GettingTake(main: Main, workers: seq<Worker>, mutex: Owner, i: nat, w: Worker, waiting: int)
    requires Exclusive(main, workers, mutex) && i < |workers| && workers[i].pc.Get? && !w.pc.Get?
    ensures Getting(workers[i := w], waiting)
  {
  }

  lemma ExclusiveLock(main: Main, workers: seq<Worker>, i: nat, w: Worker)
    requires Exclusive(main, workers, Free) && i < |workers| && Holding(w.pc)
    ensures Exclusive(main, workers[i := w], By(i))
  {
  }

  lemma ExclusiveUnlock(main: Main, workers: seq<Worker>, mutex: Owner, i: nat, w: Worker)
    requires Exclusive(main, workers, mutex) && i < |workers| && Holding(workers[i].pc) && !Holding(w.pc)
    ensures Exclusive(main, workers[i := w], Free)
  {
  }

  lemma ExclusiveSame(main: Main, main': Main, workers: seq<Worker>, mutex: Owner, i: nat, w: Worker)
    requires Exclusive(main, workers, mutex) && i < |workers| && Holding(w.pc) == Holding(workers[i].pc)
    requires MainHolds(main') == MainHolds(main)
    ensures Exclusive(main', workers[i := w], mutex)
  {
  }

  lemma {:induction false} MainStep(s: State, a: Action)
    requires Inv(s) && Enabled(s, a) && Sized(s) && (a.Accept? || a.MainLock? || a.MainUnlock? || a.SignalNone?)
    ensures Inv(Step(s, a))
  {
    hide Ring, InOrder, Counts, Getting, Lookers;
  }

  lemma {:induction false} PutKeeps(s: State)
    requires Inv(s) && Enabled(s, Put) && Sized(s)
    ensures Inv(PutStep(s))
  {
    RingPut(s.clifd, s.iget, s.iput, s.put, s.taken, s.main.fd);
    assert InOrder(s.put + [s.main.fd], s.taken);
    hide Ring, InOrder, Counts, Lookers, Sleeper, Next;
  }

  lemma {:induction false} SignalKeeps(s: State, i: nat)
    requires Inv(s) && Enabled(s, Signal(i)) && Sized(s)
    ensures Inv(Step(s, Signal(i)))
  {
    var w := s.workers[i].(pc := Woken);
    ExclusiveSame(s.main, Leaving, s.workers, s.mutex, i, w);
    GettingUpdate(s.workers, i, w, |s.put| - |s.taken|);
    WakeupWorker(s.main, Leaving, s.workers, i, w, |s.put| - |s.taken|, |s.put| - |s.taken|);
    CountsSame(s.workers, s.owners, s.taken, i, Woken);
    hide Ring, InOrder, Counts, Getting, NoLostWakeup, Exclusive;
  }

  lemma {:induction false} LockKeeps(s: State, i: nat)
    requires Inv(s) && Enabled(s, Lock(i)) && Sized(s)
    ensures Inv(Step(s, Lock(i)))
  {
    var w := s.workers[i].(pc := Test);
    ExclusiveLock(s.main, s.workers, i, w);
    GettingUpdate(s.workers, i, w, |s.put| - |s.taken|);
    WakeupWorker(s.main, s.main, s.workers, i, w, |s.put| - |s.taken|, |s.put| - |s.taken|);
    CountsSame(s.workers, s.owners, s.taken, i, Test);
    hide Ring, InOrder, Counts, Getting, NoLostWakeup, Exclusive;
  }

  /** `iget == iput` means empty. */
  lemma RingEmpty(clifd: seq<int>, iget: nat, iput: nat, put: seq<int>, taken: seq<int>)
    requires Ring(clifd, iget, iput, put, taken)
    ensures iget == iput <==> |put| == |taken|
  {
  }

  lemma {:induction false} LookKeeps(s: State, i: nat)
    requires Inv(s) && Enabled(s, Look(i)) && Sized(s)
    ensures Inv(Step(s, Look(i)))
  {
    RingEmpty(s.clifd, s.iget, s.iput, s.put, s.taken);
    var w := s.workers[i].(pc := if s.iget == s.iput then Asleep else Get);
    if s.iget == s.iput {
      ExclusiveUnlock(s.main, s.workers, s.mutex, i, w);
    } else {
      ExclusiveSame(s.main, s.main, s.workers, s.mutex, i, w);
      WakeupWorker(s.main, s.main, s.workers, i, w, |s.put| - |s.taken|, |s.put| - |s.taken|);
    }
    GettingUpdate(s.workers, i, w, |s.put| - |s.taken|);
    CountsSame(s.workers, s.owners, s.taken, i, w.pc);
    hide Ring, InOrder, Counts, Getting, Sleeper, Exclusive, Lookers;
  }

  lemma {:induction false} TakeKeeps(s: State, i: nat)
    requires Inv(s) && Enabled(s, Take(i)) && Sized(s)
    ensures Inv(TakeStep(s, i))
  {
    assert |s.taken| < |s.put|;
    RingTake(s.clifd, s.iget, s.iput, s.put, s.taken);
    var fd := s.clifd[s.iget];
    var w := s.workers[i].(pc := Unlock(fd, |s.taken|));
    assert InOrder(s.put, s.taken + [fd]);
    ExclusiveSame(s.main, s.main, s.workers, s.mutex, i, w);
    GettingTake(s.main, s.workers, s.mutex, i, w, |s.put| - |s.taken| - 1);
    WakeupWorker(s.main, s.main, s.workers, i, w, |s.put| - |s.taken|, |s.put| - |s.taken| - 1);
    CountsTake(s.workers, s.owners, s.taken, i, fd);
    hide Ring, InOrder, Counts, Getting, NoLostWakeup, Exclusive;
  }

  lemma {:induction false} ReleaseKeeps(s: State, i: nat)
    requires Inv(s) && Enabled(s, Release(i)) && Sized(s)
    ensures Inv(ReleaseStep(s, i))
  {
    var w := s.workers[i].(pc := Serve(s.workers[i].pc.fd, s.workers[i].pc.k), count := s.workers[i].count + 1);
    assert WorkerOk(s.workers[i], i, s.owners, s.taken) && WorkerOk(w, i, s.owners, s.taken);
    ExclusiveUnlock(s.main, s.workers, s.mutex, i, w);
    GettingUpdate(s.workers, i, w, |s.put| - |s.taken|);
    WakeupWorker(s.main, s.main, s.workers, i, w, |s.put| - |s.taken|, |s.put| - |s.taken|);
    CountsUpdate(s.workers, s.owners, s.taken, i, w);
    hide Ring, InOrder, Counts, Getting, NoLostWakeup, Exclusive;
  }

  lemma {:induction false} OutsideKeeps(s: State, i: nat, w: Worker)
    requires Inv(s) && !s.quit && i < |s.workers| && WorkerOk(w, i, s.owners, s.taken)
    requires (s.workers[i].pc.Serve? && w.pc.Start?) || (s.workers[i].pc.Asleep? && w.pc.Woken?)
    ensures Inv(s.(workers := s.workers[i := w]))
  {
    ExclusiveSame(s.main, s.main, s.workers, s.mutex, i, w);
    GettingUpdate(s.workers, i, w, |s.put| - |s.taken|);
    WakeupWorker(s.main, s.main, s.workers, i, w, |s.put| - |s.taken|, |s.put| - |s.taken|);
    CountsUpdate(s.workers, s.owners, s.taken, i, w);
    hide Ring, InOrder, Counts, Getting, NoLostWakeup, Exclusive;
  }

  lemma {:induction false} FinishKeeps(s: State, i: nat)
    requires Inv(s) && Enabled(s, Finish(i))
    ensures Inv(FinishStep(s, i))
  {
    var w := s.workers[i];
    var w' := w.(pc := Start, served := w.served + [w.pc.k]);
    assert WorkerOk(w, i, s.owners, s.taken);
    assert w.served + Current(w.pc) == w'.served + Current(w'.pc);
    hide Inv, Given;
    OutsideKeeps(s, i, w');
  }

  lemma {:induction false} SpuriousKeeps(s: State, i: nat)
    requires Inv(s) && Enabled(s, Spurious(i))
    ensures Inv(At(s, i, Woken))
  {
    var w := s.workers[i];
    assert WorkerOk(w, i, s.owners, s.taken);
    hide Inv, Given;
    OutsideKeeps(s, i, w.(pc := Woken));
  }

  lemma {:induction false} InvStep(s: State, a: Action)
    requires Inv(s) && Enabled(s, a) && Sized(s)
    ensures Inv(Step(s, a))
  {
    hide Inv, PutStep, TakeStep, ReleaseStep, FinishStep;
    match a {
      case Put => PutKeeps(s);
      case Signal(i) => SignalKeeps(s, i);
      case Lock(i) => LockKeeps(s, i);
      case Look(i) => LookKeeps(s, i);
      case Take(i) => TakeKeeps(s, i);
      case Release(i) => ReleaseKeeps(s, i);
      case Finish(i) => FinishKeeps(s, i);
      case Spurious(i) => SpuriousKeeps(s, i);
      case _ => MainStep(s, a);
    }
  }

  lemma {:induction false} InvInitial(s: State)
    requires Starts(s)
    ensures Inv(s)
  {
    assert Ring(s.clifd, 0, 0, s.put, s.taken);
    hide Ring, Lookers;
  }

  lemma InvSized(s: State)
    requires Inv(s)
    ensures s.quit || Sized(s)
  {
  }

  lemma {:induction false} RunKeeps(start: State, acts: seq<Action>)
    requires Starts(start)
    ensures var r := Run(start, acts); r.Some? ==> Inv(r.value) && (r.value.quit || Sized(r.value))
  {
    hide Inv, Step, Enabled, Starts, Sized;
    if acts == [] {
      InvInitial(start);
      InvSized(start);
    } else {
      RunKeeps(start, acts[..|acts| - 1]);
      var r, a := Run(start, acts[..|acts| - 1]), acts[|acts| - 1];
      if r.Some? && Enabled(r.value, a) && Sized(r.value) {
        InvStep(r.value, a);
        InvSized(Step(r.value, a));
      }
    }
  }

  // ---- what they mean for every run ----

  /** Descriptors leave the ring in the order they were accepted. */
  lemma {:induction false} InAcceptOrder(start: State, acts: seq<Action>, s: State)
    requires Starts(start) && Run(start, acts) == Some(s) && !s.quit
    ensures |s.taken| <= |s.accepted| && s.taken == s.accepted[..|s.taken|]
  {
    RunKeeps(start, acts);
    assert s.accepted[..|s.taken|] == s.put[..|s.taken|];
    hide Run, Starts, Ring, Exclusive, Getting, NoLostWakeup, Counts;
  }

  /** Every connection taken from the ring goes to exactly one worker: what a worker has served
      and is serving are the connections that are its own, once each and in order, and the
      descriptor it has is the one that was accepted. */
  lemma {:induction false} ExactlyOneWorker(start: State, acts: seq<Action>, s: State, i: nat, k: nat)
    requires Starts(start) && Run(start, acts) == Some(s) && !s.quit && i < |s.workers|
    ensures var w := s.workers[i];
            var own := w.served + Current(w.pc);
            && |s.owners| == |s.taken| <= |s.accepted| && (k < |s.owners| ==> s.owners[k] < |s.workers|)
            && (k in own <==> k < |s.owners| && s.owners[k] == i)
            && (forall j, l | 0 <= j < l < |own| :: own[j] < own[l])
            && (Has(w.pc) ==> w.pc.k < |s.taken| && w.pc.fd == s.accepted[w.pc.k])
            && w.count + Late(w.pc) == |own|
  {
    RunKeeps(start, acts);
    GivenMembers(s.owners, i, k);
    assert WorkerOk(s.workers[i], i, s.owners, s.taken);
    hide Run, Starts, Ring, Exclusive, Getting, NoLostWakeup, Given;
  }

  /** Two workers never have the same connection. */
  lemma {:induction false} DifferentConnections(start: State, acts: seq<Action>, s: State, i: nat, j: nat)
    requires Starts(start) && Run(start, acts) == Some(s) && !s.quit && i < |s.workers| && j < |s.workers| && i != j
    requires Has(s.workers[i].pc) && Has(s.workers[j].pc)
    ensures s.workers[i].pc.k != s.workers[j].pc.k
  {
    var k := s.workers[i].pc.k;
    ExactlyOneWorker(start, acts, s, i, k);
    ExactlyOneWorker(start, acts, s, j, k);
    hide Run, Starts;
    var own, own' := s.workers[i].served + Current(s.workers[i].pc), s.workers[j].served + Current(s.workers[j].pc);
    assert own[|own| - 1] == k && own'[|own'| - 1] == s.workers[j].pc.k;
  }

  lemma {:induction false} EmptyIff(start: State, acts: seq<Action>, s: State)
    requires Starts(start) && Run(start, acts) == Some(s) && !s.quit
    ensures Sized(s) && (s.iget == s.iput <==> |s.put| == |s.taken|)
  {
    RunKeeps(start, acts);
    hide Run, Starts, Exclusive, Getting, NoLostWakeup, Counts, InOrder;
  }

  /** The program gives up exactly when one more connection is put while MAXNCLI - 1 wait. */
  lemma {:induction false} OverflowIff(start: State, acts: seq<Action>, s: State, a: Action)
    requires Starts(start) && Run(start, acts) == Some(s) && Enabled(s, a)
    ensures Sized(s) && (Step(s, a).quit <==> a.Put? && |s.put| - |s.taken| == MAXNCLI - 1)
  {
    RunKeeps(start, acts);
    EmptyIff(start, acts, s);
    if a.Put? {
      RingPut(s.clifd, s.iget, s.iput, s.put, s.taken, s.main.fd);
    }
    hide Run, Starts, Inv, Sleeper, Next, Sized;
  }

  /** The mutex does its work: at most one thread is between lock and unlock. */
  lemma {:induction false} OneHolder(start: State, acts: seq<Action>, s: State, i: nat, j: nat)
    requires Starts(start) && Run(start, acts) == Some(s) && !s.quit && i < |s.workers| && j < |s.workers| && i != j
    ensures !(Holding(s.workers[i].pc) && Holding(s.workers[j].pc))
    ensures !(MainHolds(s.main) && Holding(s.workers[i].pc))
  {
    RunKeeps(start, acts);
    hide Run, Starts, Ring, Getting, NoLostWakeup, Counts, InOrder, Holding, MainHolds;
  }

  lemma {:induction false} AllAsleep(workers: seq<Worker>)
    requires forall i | 0 <= i < |workers| :: workers[i].pc.Asleep?
    ensures Lookers(workers) == 0
  {
    if workers != [] {
      AllAsleep(workers[..|workers| - 1]);
    }
  }

  /** A connection never waits while every worker sleeps, except before the signal for it. */
  lemma {:induction false} NeverAllAsleep(start: State, acts: seq<Action>, s: State)
    requires Starts(start) && Run(start, acts) == Some(s) && !s.quit && |s.workers| > 0
    requires forall i | 0 <= i < |s.workers| :: s.workers[i].pc.Asleep?
    ensures |s.put| == |s.taken| || (s.main.Signalling? && |s.put| == |s.taken| + 1)
  {
    RunKeeps(start, acts);
    AllAsleep(s.workers);
    assert s.workers[0].pc.Asleep?;
    hide Run, Starts, Ring, Getting, Exclusive, Counts, Lookers;
  }

  /** More generally, while any worker sleeps there is, for each waiting connection, a worker
      that will look before it sleeps or serves. */
  lemma {:induction false} EnoughLookers(start: State, acts: seq<Action>, s: State)
    requires Starts(start) && Run(start, acts) == Some(s) && !s.quit && Sleeper(s.workers)
    ensures |s.put| - |s.taken| <= Lookers(s.workers) + if s.main.Signalling? then 1 else 0
  {
    RunKeeps(start, acts);
    hide Run, Starts, Ring, Getting, Exclusive, Counts, Lookers, Sleeper;
  }

  /** While a connection waits, some thread can go on without a new one. */
  lemma {:induction false} NeverStuck(start: State, acts: seq<Action>, s: State) returns (a: Action)
    requires Starts(start) && Run(start, acts) == Some(s) && !s.quit && |s.workers| > 0 && |s.put| > |s.taken|
    ensures Enabled(s, a) && !a.Accept? && !a.Spurious?
  {
    RunKeeps(start, acts);
    hide Run, Starts, Ring, Getting, Counts, InOrder, NoLostWakeup;
    match s.mutex {
      case ByMain =>
        if s.main.Putting? {
          a := Put;
        } else if s.main.Leaving? {
          a := MainUnlock;
        } else if i: nat :| i < |s.workers| && s.workers[i].pc.Asleep? {
          a := Signal(i);
        } else {
          a := SignalNone;
        }
      case By(i) =>
        a := if s.workers[i].pc.Test? then Look(i) else if s.workers[i].pc.Get? then Take(i) else Release(i);
      case Free =>
        if s.main.Wanting? {
          a := MainLock;
        } else if i: nat :| i < |s.workers| && !s.workers[i].pc.Asleep? {
          a := if s.workers[i].pc.Serve? then Finish(i) else Lock(i);
        } else {
          NeverAllAsleep(start, acts, s);
          assert false;
        }
    }
  }

  /** A worker that looks goes to sleep if and only if no connection waits, and otherwise takes
      the one that has waited longest. */
  lemma {:induction false} SleepsIff(start: State, acts: seq<Action>, s: State, i: nat)
    requires Starts(start) && Run(start, acts) == Some(s) && Enabled(s, Look(i))
    ensures Sized(s)
    ensures if |s.put| == |s.taken| then Step(s, Look(i)).workers[i].pc.Asleep? else Step(s, Look(i)).workers[i].pc.Get?
  {
    EmptyIff(start, acts, s);
    hide Run, Starts, Sized;
  }

  /** The connection is served outside the lock, so workers serve at the same time. */
  lemma {:induction false} ServesUnlocked(start: State, acts: seq<Action>, s: State, i: nat)
    requires Starts(start) && Run(start, acts) == Some(s) && !s.quit && i < |s.workers|
    ensures s.workers[i].pc.Serve? || s.workers[i].pc.Asleep? ==> s.mutex != By(i)
  {
    RunKeeps(start, acts);
    hide Run, Starts, Ring, Getting, NoLostWakeup, Counts, InOrder, MainHolds;
  }
}
