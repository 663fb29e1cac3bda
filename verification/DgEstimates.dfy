/** What the estimators have learned: the timeouts of every run of dg_send_recv follow from the
    samples since the last call that was given up. */
module DgEstimates {
  import opened Basics
  import opened Rtt
  import opened DgSendRecv
  import opened DgProtocol

  // ---- the law ----

  function Seconds(ms: nat): real {
    ms as real / 1000.0
  }

  /** Each sample counts one eighth, what was there seven eighths. */
  function Smooth(ms: seq<nat>): real {
    if ms == [] then 0.0
    else
      var n := |ms| - 1;
      0.875 * Smooth(ms[..n]) + 0.125 * Seconds(ms[n])
  }

  /** How far each sample is from the smoothed time before it counts one quarter. */
  function Deviation(ms: seq<nat>): real {
    if ms == [] then 0.75
    else
      var n := |ms| - 1;
      0.75 * Deviation(ms[..n]) + 0.25 * Abs(Seconds(ms[n]) - Smooth(ms[..n]))
  }

  /** Four deviations more than the smoothed time, but at least 2 and at most 60 seconds. */
  function Timeout(ms: seq<nat>): real {
    var x := Smooth(ms) + 4.0 * Deviation(ms);
    if x < 2.0 then 2.0 else if x > 60.0 then 60.0 else x
  }

  /** The samples of the calls answered since the last one given up. */
  function Recent(logs: seq<Log>, answers: seq<Answer>): seq<nat> {
    if logs == [] then []
    else
      var n := |logs| - 1;
      match logs[n].outcome
      case TimedOut => []
      case Blocked => Recent(logs[..n], answers)
      case Reply(_) =>
        Recent(logs[..n], answers) + [if logs[n].answer < |answers| then answers[logs[n].answer].ms else 0]
  }

  // ---- one sample ----

  lemma {:induction false} OneMore(c: Info, ms: seq<nat>, x: nat)
    requires c.srtt == Smooth(ms) && c.rttvar == Deviation(ms)
    ensures var c' := Stop(c, x);
            c'.srtt == Smooth(ms + [x]) && c'.rttvar == Deviation(ms + [x]) && c'.rto == Timeout(ms + [x])
  {
    assert (ms + [x])[..|ms|] == ms;
  }

  lemma NoneYet(p: Info, now: nat)
    ensures var c := Init(p, now); c.srtt == Smooth([]) && c.rttvar == Deviation([]) && c.rto == Timeout([])
  {
  }

  // ---- the record ----

  /** Every answered call has its answer. */
  ghost predicate Placed(logs: seq<Log>, answers: seq<Answer>) {
    forall i | 0 <= i < |logs| :: logs[i].outcome.Reply? ==> logs[i].answer < |answers|
  }

  lemma {:induction false} RecentMore(logs: seq<Log>, answers: seq<Answer>, a: Answer)
    requires Placed(logs, answers)
    ensures Recent(logs, answers + [a]) == Recent(logs, answers)
  {
    if logs != [] {
      var n := |logs| - 1;
      assert Placed(logs[..n], answers);
      RecentMore(logs[..n], answers, a);
    }
  }

  lemma {:induction false} RecentLast(logs: seq<Log>, l: Log, answers: seq<Answer>)
    ensures l.outcome.TimedOut? ==> Recent(logs + [l], answers) == []
    ensures l.outcome.Blocked? ==> Recent(logs + [l], answers) == Recent(logs, answers)
    ensures l.outcome.Reply? && l.answer < |answers| ==>
              Recent(logs + [l], answers) == Recent(logs, answers) + [answers[l.answer].ms]
  {
    assert (logs + [l])[..|logs|] == logs;
  }

  /** The client between its steps. */
  ghost predicate Learned(c: Client, phase: Phase, recent: seq<nat>) {
    && (c.rttinit ==> c.info.srtt == Smooth(recent) && c.info.rttvar == Deviation(recent))
    && (c.rttinit && (phase.Idle? || c.info.nrexmt == 0) ==> c.info.rto == Timeout(recent))
  }

  /** The records: one for each call, the last one open while the client is busy. */
  ghost predicate Open(c: Client, phase: Phase, logs: seq<Log>) {
    && (phase.Idle? ==> (c.rttinit <==> logs != [] && !logs[|logs| - 1].outcome.TimedOut?))
    && (!phase.Idle? ==> c.rttinit && logs != [] && logs[|logs| - 1].outcome.Blocked?)
  }

  /** The first transmission of a request waits as long as the samples before it say. */
  ghost predicate FirstWaits(sent: seq<Tx>, logs: seq<Log>, answers: seq<Answer>) {
    forall i | 0 <= i < |sent| ::
      1 <= sent[i].req <= |logs|
      && (sent[i].k == 0 ==> sent[i].info.rto == Timeout(Recent(logs[..sent[i].req - 1], answers)))
  }

  ghost predicate Known(s: State) {
    && |s.logs| == |s.calls| && Placed(s.logs, s.answers) && Open(s.client, s.phase, s.logs)
    && Learned(s.client, s.phase, Recent(s.logs, s.answers)) && FirstWaits(s.sent, s.logs, s.answers)
  }

  // ---- every step keeps it ----

  lemma {:induction false} CallKnown(s: State, req: Request)
    requires Known(s) && Enabled(s, Call(req))
    ensures Known(Step(s, Call(req)))
  {
    var s' := Step(s, Call(req));
    var l := s'.logs[|s.logs|];
    RecentLast(s.logs, l, s.answers);
    NoneYet(s.client.info, s.now);
    if s.logs != [] {
      var n := |s.logs| - 1;
      assert s.logs == s.logs[..n] + [s.logs[n]];
      RecentLast(s.logs[..n], s.logs[n], s.answers);
    }
    hide Recent, Smooth, Deviation, Timeout, Init;
    LogAdded(s.sent, s.logs, s.answers, l);
  }

  lemma {:induction false} LogAdded(sent: seq<Tx>, logs: seq<Log>, answers: seq<Answer>, l: Log)
    requires FirstWaits(sent, logs, answers)
    ensures FirstWaits(sent, logs + [l], answers)
  {
    hide Recent, Timeout;
    forall i | 0 <= i < |sent| ensures (logs + [l])[..sent[i].req - 1] == logs[..sent[i].req - 1] {
      assert 1 <= sent[i].req <= |logs|;
    }
  }

  /** The last record changes, without ending the call. */
  lemma {:induction false} StillOpen(logs: seq<Log>, answers: seq<Answer>, l: Log)
    requires logs != [] && logs[|logs| - 1].outcome.Blocked? && l.outcome.Blocked? && Placed(logs, answers)
    ensures Placed(Noted(logs, l), answers) && Recent(Noted(logs, l), answers) == Recent(logs, answers)
  {
    var n := |logs| - 1;
    assert Noted(logs, l) == logs[..n] + [l] && logs == logs[..n] + [logs[n]];
    RecentLast(logs[..n], l, answers);
    RecentLast(logs[..n], logs[n], answers);
    hide Recent;
  }

  lemma {:induction false} LastNoted(sent: seq<Tx>, logs: seq<Log>, answers: seq<Answer>, l: Log)
    requires FirstWaits(sent, logs, answers)
    ensures FirstWaits(sent, Noted(logs, l), answers)
  {
    hide Recent, Timeout;
    forall i | 0 <= i < |sent| ensures Noted(logs, l)[..sent[i].req - 1] == logs[..sent[i].req - 1] {
      assert 1 <= sent[i].req <= |logs|;
    }
  }

  lemma {:induction false} SentMore(sent: seq<Tx>, logs: seq<Log>, answers: seq<Answer>, t: Tx)
    requires FirstWaits(sent, logs, answers) && 1 <= t.req <= |logs|
    requires t.k == 0 ==> t.info.rto == Timeout(Recent(logs[..t.req - 1], answers))
    ensures FirstWaits(sent + [t], logs, answers)
  {
    hide Recent, Timeout;
  }

  lemma {:induction false} OpenRecent(logs: seq<Log>, answers: seq<Answer>)
    requires logs != [] && logs[|logs| - 1].outcome.Blocked?
    ensures Recent(logs, answers) == Recent(logs[..|logs| - 1], answers)
  {
    var n := |logs| - 1;
    assert logs == logs[..n] + [logs[n]];
    RecentLast(logs[..n], logs[n], answers);
  }

  lemma {:induction false} SendKnown(s: State)
    requires Known(s) && Enabled(s, Send)
    ensures Known(Step(s, Send))
  {
    var s' := Step(s, Send);
    var t := s'.sent[|s.sent|];
    var l := LogSent(s, t.hdr);
    assert l.outcome.Blocked? && s'.logs == Noted(s.logs, l) && s'.sent == s.sent + [t];
    assert |s'.logs| == |s.logs| && s'.logs[|s.logs| - 1] == l;
    hide Recent, Smooth, Deviation, Timeout, Stamp, LogSent, FirstWaits, Noted, Placed;
    StillOpen(s.logs, s.answers, l);
    LastNoted(s.sent, s.logs, s.answers, l);
    OpenRecent(s'.logs, s.answers);
    SentMore(s.sent, s'.logs, s.answers, t);
  }

  lemma {:induction false} TimeoutKnown(s: State)
    requires Known(s) && Enabled(s, Action.Timeout) && s.client.info.nrexmt >= 0
    ensures Known(Step(s, Action.Timeout))
  {
    var c' := Alarmed(s.client);
    var l := LogGivenUp(s, c');
    LastNoted(s.sent, s.logs, s.answers, l);
    hide Recent, Smooth, Deviation, Timeout;
  }

  lemma {:induction false} SeenKnown(s: State, m: Datagram)
    requires Known(s) && Enabled(s, Receive(m)) && m.hdr.seqno != s.client.seqno
    ensures Known(Step(s, Receive(m)))
  {
    var l := LogSeen(s, Arrival(s.now, m.hdr, m.data));
    StillOpen(s.logs, s.answers, l);
    LastNoted(s.sent, s.logs, s.answers, l);
    hide Recent, Smooth, Deviation, Timeout;
  }

  lemma {:induction false} AnswerAdded(sent: seq<Tx>, logs: seq<Log>, answers: seq<Answer>, a: Answer)
    requires FirstWaits(sent, logs, answers) && Placed(logs, answers)
    ensures FirstWaits(sent, logs, answers + [a])
  {
    forall i | 0 <= i < |sent|
      ensures 1 <= sent[i].req <= |logs|
      ensures Recent(logs[..sent[i].req - 1], answers + [a]) == Recent(logs[..sent[i].req - 1], answers)
    {
      assert 1 <= sent[i].req <= |logs|;
      assert Placed(logs[..sent[i].req - 1], answers);
      RecentMore(logs[..sent[i].req - 1], answers, a);
    }
    hide Recent, Timeout;
  }

  lemma {:induction false} AnswerKnown(s: State, m: Datagram)
    requires Known(s) && Enabled(s, Receive(m)) && m.hdr.seqno == s.client.seqno
    ensures Known(Step(s, Receive(m)))
  {
    var s' := AcceptStep(s, m);
    var n := |s.logs| - 1;
    var l, a := LogAnswered(s, m), s'.answers[|s.answers|];
    assert s.logs == s.logs[..n] + [s.logs[n]] && s'.logs == s.logs[..n] + [l];
    assert Placed(s.logs[..n], s.answers);
    RecentLast(s.logs[..n], s.logs[n], s.answers);
    RecentMore(s.logs[..n], s.answers, a);
    RecentLast(s.logs[..n], l, s.answers + [a]);
    OneMore(s.client.info, Recent(s.logs, s.answers), a.ms);
    AnswerAdded(s.sent, s.logs, s.answers, a);
    LastNoted(s.sent, s.logs, s.answers + [a], l);
    hide Recent, Smooth, Deviation, Timeout, Sample, Stop, FirstWaits;
    assert Placed(s'.logs, s'.answers);
    assert s' == Step(s, Receive(m));
  }

  lemma {:induction false} StepKnown(s: State, a: Action)
    requires Known(s) && Enabled(s, a) && Inv(s)
    ensures Known(Step(s, a))
  {
    NotNegative(s);
    hide Recent, Placed, Open, Learned, FirstWaits, Inv, SendStep, AcceptStep;
    match a
    case Tick(us) =>
    case Call(req) => CallKnown(s, req);
    case Send => SendKnown(s);
    case Timeout => TimeoutKnown(s);
    case Echo(m) =>
    case Receive(m) =>
      if m.hdr.seqno != s.client.seqno {
        SeenKnown(s, m);
      } else {
        AnswerKnown(s, m);
      }
  }

  lemma {:induction false} NotNegative(s: State)
    requires Inv(s)
    ensures !s.phase.Idle? ==> s.client.info.nrexmt >= 0
  {
    hide SentOk, ScheduleOk, NetOk, AnswersOk, EstimatorOk, TriesBelow;
  }

  lemma {:induction false} RunKnown(acts: seq<Action>)
    ensures Run(acts).Some? ==> Known(Run(acts).value)
  {
    if acts == [] {
      assert Known(INITIAL);
    } else if Run(acts).Some? {
      hide Inv, Known, Step, Enabled;
      RunKnown(acts[..|acts| - 1]);
      RunKeeps(acts[..|acts| - 1]);
      StepKnown(Run(acts[..|acts| - 1]).value, acts[|acts| - 1]);
    }
  }

  // ---- the theorems ----

  /** In every run the estimators are what the samples since the last give-up make them: during
      a call, and after one that was answered.  After one that was given up they are forgotten. */
  lemma {:induction false} Learns(acts: seq<Action>)
    requires Run(acts).Some?
    ensures var s := Run(acts).value;
            var recent, p := Recent(s.logs, s.answers), s.client.info;
            && |s.logs| == |s.calls|
            && (s.client.rttinit <==> s.calls != [] && !s.logs[|s.calls| - 1].outcome.TimedOut?)
            && (s.client.rttinit ==> p.srtt == Smooth(recent) && p.rttvar == Deviation(recent))
            && (s.client.rttinit && s.phase.Idle? ==> p.rto == Timeout(recent))
  {
    RunKnown(acts);
    hide Run, Recent, Smooth, Deviation, Timeout, FirstWaits, Placed;
  }

  /** And the first transmission of every request waits as long as the samples that came before
      it say, since the last give-up: the k-th retransmission then waits 2^k times as long. */
  lemma {:induction false} WaitsLearned(acts: seq<Action>, i: nat)
    requires Run(acts).Some? && i < |Run(acts).value.sent|
    ensures var s := Run(acts).value;
            var t := s.sent[i];
            && |s.logs| == |s.calls| && 1 <= t.req <= |s.calls|
            && t.info.rto == Pow2(t.k) * Timeout(Recent(s.logs[..t.req - 1], s.answers))
  {
    RunKnown(acts);
    Schedule(acts, i);
    hide Run, Recent, Smooth, Deviation, Timeout, Learned, Open, Placed;
    var s := Run(acts).value;
    var first := s.sent[i - s.sent[i].k];
    assert first.info.rto == Timeout(Recent(s.logs[..first.req - 1], s.answers));
  }

  /** A first sample of eight seconds. */
  lemma {:induction false} AfterEight()
    ensures Smooth([8000]) == 1.0 && Deviation([8000]) == 2.5625 && Timeout([8000]) == 11.25
  {
    assert [8000][..0] == [];
    assert Smooth([]) == 0.0 && Deviation([]) == 0.75;
  }
}
