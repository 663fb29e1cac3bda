/** Runs of dg_send_recv over a network that loses, duplicates and reorders datagrams,
    against a server that echoes them. */
module DgProtocol {
  import opened Basics
  import opened Rtt
  import opened DgSendRecv

  /** `tx` names the transmission a datagram comes from.  No step reads it: it only lets
      the theorems say which transmission was answered. */
  datatype Datagram = Datagram(hdr: Header, data: seq<byte>, tx: nat)

  /** A transmission: the `k`-th retransmission of request `req`, at time `at`. */
  datatype Tx = Tx(req: nat, k: int, hdr: Header, data: seq<byte>, at: nat, info: Info)

  datatype Request = Request(out: seq<byte>, inbytes: nat)

  /** A call as the client saw it: the state before it, its times, room and events, and so far
      the state, outcome and headers sent; `answer` is the place of its reply in `answers`. */
  datatype Log = Log(before: Client, now: nat, at: nat, inbytes: nat, evs: seq<Event>,
                     client: Client, outcome: Outcome, sent: seq<Header>, answer: nat)

  /** A call that returned a reply. */
  datatype Answer = Answer(req: nat, tx: nat, data: seq<byte>, ms: nat, at: nat)

  datatype Phase = Idle | Sending | Waiting

  datatype State = State(
    now: nat,
    client: Client,
    phase: Phase,
    calls: seq<Request>,
    sent: seq<Tx>,
    toServer: set<Datagram>,
    toClient: set<Datagram>,
    answers: seq<Answer>,
    samples: seq<nat>,    // since the estimators were last reset
    logs: seq<Log>)       // one for each call

  /** Datagrams stay in the sets they were put in, so they may be delivered again, late,
      in any order, or never. */
  datatype Action = Tick(us: nat) | Call(req: Request) | Send | Timeout | Echo(m: Datagram) | Receive(m: Datagram)

  const INITIAL := State(0, Client(Info(0.0, 0.0, 0.0, 0.0, 0, 0), false, 0), Idle, [], [], {}, {}, [], [], [])

  predicate Enabled(s: State, a: Action) {
    match a
    case Tick(_) => true
    case Call(_) => s.phase.Idle?
    case Send => s.phase.Sending?
    case Timeout => s.phase.Waiting?
    case Echo(m) => m in s.toServer
    case Receive(m) => s.phase.Waiting? && m in s.toClient
  }

  function Echoed(m: Datagram): Datagram {
    m.(data := Prefix(m.data, MAXLINE - HDR))
  }

  function Step(s: State, a: Action): State
    requires Enabled(s, a)
  {
    var c := s.client;
    match a
    case Tick(us) => s.(now := s.now + us)
    case Call(req) =>
      s.(client := Begin(c, s.now), phase := Sending, calls := s.calls + [req],
         samples := if c.rttinit then s.samples else [],
         logs := s.logs + [Log(c, s.now, s.now, req.inbytes, [], Begin(c, s.now), Blocked, [], 0)])
    case Send => SendStep(s)
    case Timeout =>
      var c' := Alarmed(c);
      s.(client := c', phase := if GivesUp(c'.info) then Idle else Sending,
         logs := if GivesUp(c'.info) then Noted(s.logs, LogGivenUp(s, c')) else s.logs)
    case Echo(m) => s.(toClient := s.toClient + {Echoed(m)})
    case Receive(m) =>
      if m.hdr.seqno != c.seqno then s.(logs := Noted(s.logs, LogSeen(s, Arrival(s.now, m.hdr, m.data))))
      else AcceptStep(s, m)
  }

  // ---- the record of the current call ----

  function Noted(logs: seq<Log>, l: Log): seq<Log> {
    if logs == [] then [] else logs[|logs| - 1 := l]
  }

  const NOLOG := Log(INITIAL.client, 0, 0, 0, [], INITIAL.client, Blocked, [], 0)

  function Current(logs: seq<Log>): Log {
    if logs == [] then NOLOG else logs[|logs| - 1]
  }

  function LogSeen(s: State, ev: Event): Log {
    var l := Current(s.logs);
    l.(evs := l.evs + [ev])
  }

  function LogSent(s: State, h: Header): Log {
    var l := Current(s.logs);
    if l.sent == [] then l.(at := s.now, client := s.client, sent := [h])
    else LogSeen(s, Alarm(s.now)).(client := s.client, sent := l.sent + [h])
  }

  function LogGivenUp(s: State, c: Client): Log {
    LogSeen(s, Alarm(s.now)).(client := c, outcome := TimedOut)
  }

  function LogAnswered(s: State, m: Datagram): Log {
    LogSeen(s, Arrival(s.now, m.hdr, m.data)).(
      client := Answered(s.client, m.hdr, s.now), outcome := Reply(Prefix(m.data, Current(s.logs).inbytes)),
      answer := |s.answers|)
  }

  function SendStep(s: State): State {
    var out := if s.calls == [] then [] else s.calls[|s.calls| - 1].out;
    var tx := Tx(|s.calls|, s.client.info.nrexmt, Stamp(s.client, s.now), out, s.now, s.client.info);
    s.(phase := Waiting, sent := s.sent + [tx], toServer := s.toServer + {Datagram(tx.hdr, out, |s.sent|)},
       logs := Noted(s.logs, LogSent(s, tx.hdr)))
  }

  function AcceptStep(s: State, m: Datagram): State {
    var inbytes := if s.calls == [] then 0 else s.calls[|s.calls| - 1].inbytes;
    var ms := Sample(s.client, m.hdr, s.now);
    s.(client := Answered(s.client, m.hdr, s.now), phase := Idle,
       answers := s.answers + [Answer(|s.calls|, m.tx, Prefix(m.data, inbytes), ms, s.now)],
       samples := s.samples + [ms], logs := Noted(s.logs, LogAnswered(s, m)))
  }

  /** The state a run ends in; none if some action was not possible. */
  function Run(acts: seq<Action>): Option<State> {
    if acts == [] then Some(INITIAL)
    else
      var r := Run(acts[..|acts| - 1]);
      var a := acts[|acts| - 1];
      if r.Some? && Enabled(r.value, a) then Some(Step(r.value, a)) else None
  }

  // ---- invariants ----

  function Peak(samples: seq<nat>): (p: real)
    ensures p >= 0.0
  {
    if samples == [] then 0.0
    else
      var p, x := Peak(samples[..|samples| - 1]), samples[|samples| - 1] as real / 1000.0;
      if x > p then x else p
  }

  function Pow2(k: int): real {
    if k <= 0 then 1.0 else if k == 1 then 2.0 else if k == 2 then 4.0 else 8.0
  }

  /** Every transmission carries the sequence number, data and time of its request. */
  ghost predicate TxOk(t: Tx, calls: seq<Request>, now: nat) {
    && 1 <= t.req <= |calls| && t.data == calls[t.req - 1].out && t.at <= now
    && t.hdr == Header(t.req % WRAP32, Timestamp(t.info, t.at))
    && 0 <= t.k <= MAXNREXMT && RXTMIN <= t.info.rto <= RXTMAX * Pow2(t.k)
  }

  ghost predicate SentOk(sent: seq<Tx>, calls: seq<Request>, now: nat) {
    forall i | 0 <= i < |sent| :: TxOk(sent[i], calls, now)
  }

  /** The schedule: each request is sent at most four times in a row, doubling the timeout. */
  ghost predicate ScheduleOk(sent: seq<Tx>) {
    && (forall i | 0 <= i < |sent| :: sent[i].k > 0 ==> i > 0 && Follows(sent[i - 1], sent[i]))
    && (forall i, j | 0 <= i < j < |sent| && sent[i].req == sent[j].req :: sent[i].k < sent[j].k)
  }

  predicate Follows(t: Tx, t': Tx) {
    t'.req == t.req && t'.k == t.k + 1 && t'.info.rto == 2.0 * t.info.rto
  }

  /** A datagram in the network is a copy of the transmission it names. */
  ghost predicate CopyOf(m: Datagram, sent: seq<Tx>) {
    m.tx < |sent| && m.hdr == sent[m.tx].hdr && m.data == sent[m.tx].data
  }

  ghost predicate EchoOf(m: Datagram, sent: seq<Tx>) {
    m.tx < |sent| && m.hdr == sent[m.tx].hdr && m.data == Prefix(sent[m.tx].data, MAXLINE - HDR)
  }

  ghost predicate NetOk(toServer: set<Datagram>, toClient: set<Datagram>, sent: seq<Tx>) {
    && (forall m | m in toServer :: CopyOf(m, sent))
    && (forall m | m in toClient :: EchoOf(m, sent))
  }

  /** The client between its steps, during or after its `n`-th call. */
  ghost predicate ClientOk(c: Client, phase: Phase, n: nat, sent: seq<Tx>) {
    && c.seqno == n % WRAP32
    && match phase
       case Idle => c.rttinit ==> RXTMIN <= c.info.rto <= RXTMAX
       case Sending =>
         && Busy(c, n, sent) && TriesBelow(sent, n, c.info.nrexmt)
         && (c.info.nrexmt > 0 ==>
               |sent| > 0 && var t := sent[|sent| - 1];
                             t.req == n && t.k == c.info.nrexmt - 1 && c.info.rto == 2.0 * t.info.rto)
       case Waiting =>
         && Busy(c, n, sent) && TriesBelow(sent, n, c.info.nrexmt + 1)
         && |sent| > 0 && var t := sent[|sent| - 1];
                          t.req == n && t.k == c.info.nrexmt && t.info.rto == c.info.rto
  }

  ghost predicate Busy(c: Client, n: nat, sent: seq<Tx>) {
    && n > 0 && c.rttinit && 0 <= c.info.nrexmt <= MAXNREXMT
    && RXTMIN <= c.info.rto <= RXTMAX * Pow2(c.info.nrexmt)
    && forall i | 0 <= i < |sent| && sent[i].req == n :: sent[i].info.base == c.info.base
  }

  ghost predicate TriesBelow(sent: seq<Tx>, n: nat, k: int) {
    forall i | 0 <= i < |sent| && sent[i].req == n :: sent[i].k < k
  }

  /** What a reply returned to the caller is worth.  It answers a transmission of this
      request, or of one a multiple of 2^32 requests earlier; in the first case it is the
      request's own data, and the sample is the time since that transmission. */
  ghost predicate AnswerOk(r: Answer, calls: seq<Request>, sent: seq<Tx>) {
    && 1 <= r.req <= |calls| && r.tx < |sent|
    && sent[r.tx].req <= r.req && (r.req - sent[r.tx].req) % WRAP32 == 0
    && (sent[r.tx].req == r.req ==> Faithful(r, calls[r.req - 1], sent[r.tx]))
  }

  predicate Faithful(r: Answer, q: Request, t: Tx) {
    && r.data == Prefix(Prefix(q.out, MAXLINE - HDR), q.inbytes)
    && t.at <= r.at && r.ms == (r.at / 1000 - t.at / 1000) % WRAP32
  }

  ghost predicate AnswersOk(answers: seq<Answer>, calls: seq<Request>, sent: seq<Tx>) {
    forall i | 0 <= i < |answers| :: AnswerOk(answers[i], calls, sent)
  }

  ghost predicate EstimatorOk(c: Client, samples: seq<nat>) {
    c.rttinit ==> Bounded(c.info, Peak(samples))
  }

  ghost predicate Inv(s: State) {
    && SentOk(s.sent, s.calls, s.now) && ScheduleOk(s.sent) && NetOk(s.toServer, s.toClient, s.sent)
    && ClientOk(s.client, s.phase, |s.calls|, s.sent)
    && AnswersOk(s.answers, s.calls, s.sent) && EstimatorOk(s.client, s.samples)
  }

  // ---- every step keeps them ----

  lemma TimePasses(sent: seq<Tx>, calls: seq<Request>, now: nat, later: nat)
    requires SentOk(sent, calls, now) && now <= later
    ensures SentOk(sent, calls, later)
  {
  }

  lemma {:induction false} NewCall(s: State, req: Request)
    requires SentOk(s.sent, s.calls, s.now) && AnswersOk(s.answers, s.calls, s.sent)
    ensures SentOk(s.sent, s.calls + [req], s.now) && AnswersOk(s.answers, s.calls + [req], s.sent)
    ensures forall i | 0 <= i < |s.sent| :: s.sent[i].req <= |s.calls|
  {
    hide Timestamp, Pow2, Prefix;
    forall i | 0 <= i < |s.sent| ensures TxOk(s.sent[i], s.calls + [req], s.now) {
      assert TxOk(s.sent[i], s.calls, s.now);
    }
    forall i | 0 <= i < |s.answers| ensures AnswerOk(s.answers[i], s.calls + [req], s.sent) {
      assert AnswerOk(s.answers[i], s.calls, s.sent);
    }
  }

  lemma {:induction false} CallKeeps(s: State, req: Request)
    requires Inv(s) && Enabled(s, Call(req))
    ensures Inv(Step(s, Call(req)))
  {
    NewCall(s, req);
    hide SentOk, ScheduleOk, NetOk, AnswersOk, Peak, SendStep, AcceptStep;
    InitBounded(s.client.info, s.now);
    WrapNext(|s.calls|);
    PeakOfNone();
  }

  lemma {:induction false} WrapNext(n: nat)
    ensures (n % WRAP32 + 1) % WRAP32 == (n + 1) % WRAP32
  {
    WrapSub(n + 1, 0);
    var k := n / WRAP32;
    WrapShift(n % WRAP32 + 1, k);
    assert n + 1 == n % WRAP32 + 1 + k * WRAP32;
  }

  lemma PeakOfNone()
    ensures Peak([]) == 0.0
  {
  }

  lemma {:induction false} Appended(s: State, t: Tx)
    requires SentOk(s.sent, s.calls, s.now) && NetOk(s.toServer, s.toClient, s.sent)
    requires AnswersOk(s.answers, s.calls, s.sent) && TxOk(t, s.calls, s.now)
    ensures SentOk(s.sent + [t], s.calls, s.now) && AnswersOk(s.answers, s.calls, s.sent + [t])
    ensures NetOk(s.toServer + {Datagram(t.hdr, t.data, |s.sent|)}, s.toClient, s.sent + [t])
  {
    hide TxOk, Faithful;
    var sent' := s.sent + [t];
    forall i | 0 <= i < |s.answers| ensures AnswerOk(s.answers[i], s.calls, sent') {
      assert AnswerOk(s.answers[i], s.calls, s.sent);
    }
    forall m | m in s.toServer ensures CopyOf(m, sent') {
      assert CopyOf(m, s.sent);
    }
    forall m | m in s.toClient ensures EchoOf(m, sent') {
      assert EchoOf(m, s.sent);
    }
  }

  lemma Scheduled(sent: seq<Tx>, t: Tx)
    requires ScheduleOk(sent) && TriesBelow(sent, t.req, t.k) && t.k >= 0
    requires t.k > 0 ==> |sent| > 0 && Follows(sent[|sent| - 1], t)
    ensures ScheduleOk(sent + [t]) && TriesBelow(sent + [t], t.req, t.k + 1)
  {
  }

  lemma {:induction false} SendKeeps(s: State)
    requires Inv(s) && Enabled(s, Send)
    ensures Inv(Step(s, Send))
  {
    var s' := SendStep(s);
    var t := s'.sent[|s.sent|];
    assert TxOk(t, s.calls, s.now);
    Appended(s, t);
    Scheduled(s.sent, t);
    hide SentOk, ScheduleOk, NetOk, AnswersOk, EstimatorOk, TxOk, TriesBelow, AcceptStep, Timestamp;
    assert Busy(s.client, |s.calls|, s'.sent);
    assert s' == Step(s, Send);
  }

  lemma {:induction false} TimeoutKeeps(s: State)
    requires Inv(s) && Enabled(s, Timeout)
    ensures Inv(Step(s, Timeout))
  {
    hide SentOk, ScheduleOk, NetOk, AnswersOk, Peak, SendStep, AcceptStep;
  }

  lemma {:induction false} EchoKeeps(s: State, m: Datagram)
    requires Inv(s) && Enabled(s, Echo(m))
    ensures Inv(Step(s, Echo(m)))
  {
    hide SentOk, ScheduleOk, ClientOk, AnswersOk, EstimatorOk, SendStep, AcceptStep, Prefix;
    assert CopyOf(m, s.sent) && EchoOf(Echoed(m), s.sent);
  }

  lemma {:induction false} AnswerIs(s: State, m: Datagram)
    requires Inv(s) && s.phase.Waiting? && m in s.toClient && m.hdr.seqno == s.client.seqno
    ensures var s' := AcceptStep(s, m); AnswerOk(s'.answers[|s.answers|], s.calls, s.sent)
  {
    hide ScheduleOk, AnswersOk, EstimatorOk, Pow2, Timestamp, Answered;
    var t := s.sent[m.tx];
    assert EchoOf(m, s.sent) && TxOk(t, s.calls, s.now);
    SameResidue(|s.calls|, t.req);
    if t.req == |s.calls| {
      Elapsed(t.info, s.client.info, t.at, s.now);
    }
  }

  lemma {:induction false} SameResidue(x: nat, y: nat)
    requires x % WRAP32 == y % WRAP32
    ensures (x - y) % WRAP32 == 0
  {
    WrapSub(x, y);
  }

  lemma {:induction false} NewSample(c: Client, samples: seq<nat>, ms: nat)
    requires EstimatorOk(c, samples) && c.rttinit
    ensures EstimatorOk(c.(info := Stop(c.info, ms)), samples + [ms])
    ensures RXTMIN <= Stop(c.info, ms).rto <= RXTMAX
  {
    assert (samples + [ms])[..|samples|] == samples;
    PeakGrows(c.info, Peak(samples), Peak(samples + [ms]));
    StopBounded(c.info, ms, Peak(samples + [ms]));
  }

  lemma {:induction false} ReceiveKeeps(s: State, m: Datagram)
    requires Inv(s) && Enabled(s, Receive(m))
    ensures Inv(Step(s, Receive(m)))
  {
    if m.hdr.seqno == s.client.seqno {
      AnswerIs(s, m);
      NewSample(s.client, s.samples, Sample(s.client, m.hdr, s.now));
      hide SentOk, ScheduleOk, NetOk, AnswerOk, EstimatorOk, SendStep, Sample, Prefix;
      var s' := AcceptStep(s, m);
      assert AnswersOk(s'.answers, s.calls, s.sent);
      assert s' == Step(s, Receive(m));
    }
  }

  lemma {:induction false} StepKeeps(s: State, a: Action)
    requires Inv(s) && Enabled(s, a)
    ensures Inv(Step(s, a))
  {
    hide SentOk, ScheduleOk, NetOk, ClientOk, AnswersOk, EstimatorOk, SendStep, AcceptStep;
    match a
    case Tick(us) => TimePasses(s.sent, s.calls, s.now, s.now + us);
    case Call(req) => CallKeeps(s, req);
    case Send => SendKeeps(s);
    case Timeout => TimeoutKeeps(s);
    case Echo(m) => EchoKeeps(s, m);
    case Receive(m) => ReceiveKeeps(s, m);
  }

  lemma {:induction false} RunKeeps(acts: seq<Action>)
    ensures Run(acts).Some? ==> Inv(Run(acts).value)
  {
    if acts == [] {
      assert Inv(INITIAL);
    } else if Run(acts).Some? {
      hide Inv, Step, Enabled;
      RunKeeps(acts[..|acts| - 1]);
      StepKeeps(Run(acts[..|acts| - 1]).value, acts[|acts| - 1]);
    }
  }

  // ---- what the caller gets ----

  /** As much of a request's own data as the server's buffer and the caller's have room for. */
  predicate OwnData(data: seq<byte>, q: Request) {
    && data <= q.out && |data| <= 4096 - 8 && |data| <= q.inbytes
    && (|data| == |q.out| || |data| == 4096 - 8 || |data| == q.inbytes)
  }

  lemma {:induction false} OneOwnData(q: Request, d: seq<byte>, d': seq<byte>)
    requires OwnData(d, q) && OwnData(d', q)
    ensures d == d'
  {
    assert d == q.out[..|d|] && d' == q.out[..|d'|];
  }

  lemma {:induction false} PrefixTwice(q: Request)
    ensures OwnData(Prefix(Prefix(q.out, MAXLINE - HDR), q.inbytes), q)
  {
    var d := Prefix(q.out, MAXLINE - HDR);
    assert d <= q.out && Prefix(d, q.inbytes) <= d;
  }

  /** Over every run of at most 2^32 requests, a call that succeeds returns the data of its
      own request, cut only by the two buffers, and never a reply to an earlier one. */
  lemma {:induction false} NeverStale(acts: seq<Action>, i: nat)
    requires Run(acts).Some? && |Run(acts).value.calls| <= WRAP32 && i < |Run(acts).value.answers|
    ensures var s := Run(acts).value;
            var r := s.answers[i];
            && 1 <= r.req <= |s.calls| && r.tx < |s.sent| && s.sent[r.tx].req == r.req
            && var q := s.calls[r.req - 1];
               OwnData(r.data, q) && r.data == Prefix(Prefix(q.out, MAXLINE - HDR), q.inbytes)
               && (r.data == q.out <==> |q.out| <= MAXLINE - HDR && |q.out| <= q.inbytes)
  {
    hide Run, SentOk, ScheduleOk, NetOk, ClientOk, EstimatorOk;
    RunKeeps(acts);
    var s := Run(acts).value;
    assert AnswerOk(s.answers[i], s.calls, s.sent);
    FirstRound(acts, s.answers[i].tx);
    PrefixTwice(s.calls[s.answers[i].req - 1]);
    SmallMultiple(s.answers[i].req - s.sent[s.answers[i].tx].req);
  }

  lemma {:induction false} FirstRound(acts: seq<Action>, k: nat)
    requires Run(acts).Some? && k < |Run(acts).value.sent|
    ensures TxOk(Run(acts).value.sent[k], Run(acts).value.calls, Run(acts).value.now)
  {
    hide Run, ScheduleOk, NetOk, ClientOk, AnswersOk, EstimatorOk;
    RunKeeps(acts);
  }

  lemma SmallMultiple(d: nat)
    requires d % WRAP32 == 0 && d < WRAP32
    ensures d == 0
  {
  }

  /** The sample given to the estimators is the time since the transmission that was
      answered, whichever retransmission that was, when it took less than 2^32 ms. */
  lemma {:induction false} SampleIsElapsed(acts: seq<Action>, i: nat)
    requires Run(acts).Some? && |Run(acts).value.calls| <= WRAP32 && i < |Run(acts).value.answers|
    ensures var s := Run(acts).value;
            var r := s.answers[i];
            && r.tx < |s.sent| && s.sent[r.tx].at <= r.at
            && (r.at / 1000 - s.sent[r.tx].at / 1000 < WRAP32 ==> r.ms == r.at / 1000 - s.sent[r.tx].at / 1000)
  {
    hide Run, SentOk, ScheduleOk, NetOk, ClientOk, EstimatorOk;
    NeverStale(acts, i);
    RunKeeps(acts);
    var s := Run(acts).value;
    assert AnswerOk(s.answers[i], s.calls, s.sent);
  }

  /** A datagram ends the call exactly when its request and the current one agree modulo
      2^32: beyond 2^32 requests an old reply is taken for the new one. */
  lemma {:induction false} AcceptedIff(s: State, m: Datagram)
    requires Inv(s) && Enabled(s, Receive(m))
    ensures m.tx < |s.sent|
    ensures Step(s, Receive(m)).phase.Idle? <==> (|s.calls| - s.sent[m.tx].req) % WRAP32 == 0
  {
    hide ScheduleOk, AnswersOk, EstimatorOk, SendStep, Pow2, Timestamp, Answered;
    assert EchoOf(m, s.sent) && TxOk(s.sent[m.tx], s.calls, s.now);
    WrapSub(|s.calls|, s.sent[m.tx].req);
    Residues(|s.calls| % WRAP32, s.sent[m.tx].req % WRAP32);
  }

  lemma Residues(x: int, y: int)
    requires 0 <= x < WRAP32 && 0 <= y < WRAP32
    ensures (x - y) % WRAP32 == 0 <==> x == y
  {
  }

  /** The `k`-th retransmission waits 2^k times as long as the first transmission, which
      waits between 2 and 60 seconds, and the alarm is 2 to 480 whole seconds ... */
  lemma {:induction false} Schedule(acts: seq<Action>, i: nat)
    requires Run(acts).Some? && i < |Run(acts).value.sent|
    ensures var sent := Run(acts).value.sent;
            var k := sent[i].k;
            && 0 <= k <= MAXNREXMT && k <= i
            && sent[i - k].req == sent[i].req && sent[i - k].k == 0
            && RXTMIN <= sent[i - k].info.rto <= RXTMAX
            && sent[i].info.rto == Pow2(k) * sent[i - k].info.rto
            && 2 <= Start(sent[i].info) <= 480
  {
    hide Run, NetOk, ClientOk, AnswersOk, EstimatorOk;
    RunKeeps(acts);
    var s := Run(acts).value;
    assert TxOk(s.sent[i], s.calls, s.now);
    AlarmRange(s.sent[i].info);
    BackToFirst(s.sent, i);
    assert TxOk(s.sent[i - s.sent[i].k], s.calls, s.now);
  }

  lemma {:induction false} BackToFirst(sent: seq<Tx>, i: nat)
    requires i < |sent| && ScheduleOk(sent) && 0 <= sent[i].k <= MAXNREXMT
    ensures var k := sent[i].k;
            k <= i && sent[i - k].req == sent[i].req && sent[i - k].k == 0
            && sent[i].info.rto == Pow2(k) * sent[i - k].info.rto
  {
    var k := sent[i].k;
    if k > 0 {
      assert Follows(sent[i - 1], sent[i]);
      if k > 1 {
        assert Follows(sent[i - 2], sent[i - 1]);
        if k > 2 {
          assert Follows(sent[i - 3], sent[i - 2]);
        }
      }
    }
  }

  /** ... and a request is transmitted at most four times. */
  lemma {:induction false} AtMostFour(acts: seq<Action>, i: nat, j: nat)
    requires Run(acts).Some? && i <= j < |Run(acts).value.sent|
    requires Run(acts).value.sent[i].req == Run(acts).value.sent[j].req
    ensures j - i <= 3
  {
    hide Run, NetOk, ClientOk, AnswersOk, EstimatorOk;
    RunKeeps(acts);
    var s := Run(acts).value;
    Schedule(acts, j);
    assert TxOk(s.sent[i], s.calls, s.now);
    var first := j - s.sent[j].k;
    assert s.sent[first].req == s.sent[i].req && s.sent[first].k <= s.sent[i].k;
  }

  /** After any run the smoothed time is at most the largest sample since the estimators
      were reset, the deviation at most that or 0.75, and an idle client is ready to start
      with a timeout of 2 to 60 seconds and no retransmissions. */
  lemma {:induction false} Estimates(acts: seq<Action>)
    requires Run(acts).Some?
    ensures var s := Run(acts).value;
            && (s.client.rttinit ==> Bounded(s.client.info, Peak(s.samples)))
            && (s.phase.Idle? ==> var p := Begin(s.client, s.now).info; RXTMIN <= p.rto <= RXTMAX && p.nrexmt == 0)
  {
    hide Run, SentOk, ScheduleOk, NetOk, AnswersOk, Peak;
    RunKeeps(acts);
  }
}
