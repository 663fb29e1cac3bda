/** The non-blocking copy loop of nonblock/strclinonb.c: standard input to the socket and
    the socket to standard output, through two buffers. */
module StrCli {
  import opened Basics

  // ---- system calls ----

  datatype ReadResult = Data(bytes: seq<byte>) | Eof | WouldBlock | Failed

  datatype WriteResult = Wrote(n: nat) | NoRoom | Broken

  /** What the system does in one round of the loop: which of the descriptors asked about
      are ready, and what each call would return. */
  datatype Round = Round(
    stdinReady: bool, sockReadable: bool, sockWritable: bool, stdoutReady: bool,
    stdin: ReadResult, sock: ReadResult, toSock: WriteResult, toStdout: WriteResult)

  /** read returns at most `room` bytes, and nothing at all, as at end of file, for no room. */
  function Limit(r: ReadResult, room: nat): ReadResult {
    if !r.Data? then r
    else if room == 0 || r.bytes == [] then Eof
    else if |r.bytes| <= room then r else Data(r.bytes[..room])
  }

  /** How many of `n` bytes were taken. */
  function Accepted(r: WriteResult, n: nat): nat {
    if !r.Wrote? then 0 else if r.n <= n then r.n else n
  }

  /** The calls the loop makes: select with its interests, read with the room it passes and
      what came back, write with the bytes it offers, what came back and the bytes taken,
      shutdown. */
  datatype Event =
    | Select(stdin: bool, sockIn: bool, sockOut: bool, stdout: bool)
    | ReadStdin(room: nat, r: ReadResult)
    | ReadSock(room: nat, r: ReadResult)
    | WriteSock(want: nat, w: WriteResult, sent: seq<byte>)
    | WriteStdout(want: nat, w: WriteResult, shown: seq<byte>)
    | Shutdown

  datatype Outcome = Running | Returned | ServerGone | ErrSys

  // ---- what a trace of calls carried ----

  function BytesOf(r: ReadResult): seq<byte> {
    if r.Data? then r.bytes else []
  }

  function Typed(t: seq<Event>): seq<byte> {
    if t == [] then []
    else Typed(Init(t)) + if Tip(t).ReadStdin? then BytesOf(Tip(t).r) else []
  }

  function Sent(t: seq<Event>): seq<byte> {
    if t == [] then []
    else Sent(Init(t)) + if Tip(t).WriteSock? then Tip(t).sent else []
  }

  function Received(t: seq<Event>): seq<byte> {
    if t == [] then []
    else Received(Init(t)) + if Tip(t).ReadSock? then BytesOf(Tip(t).r) else []
  }

  function Shown(t: seq<Event>): seq<byte> {
    if t == [] then []
    else Shown(Init(t)) + if Tip(t).WriteStdout? then Tip(t).shown else []
  }

  function Init(t: seq<Event>): seq<Event>
    requires t != []
  {
    t[..|t| - 1]
  }

  function Tip(t: seq<Event>): Event
    requires t != []
  {
    t[|t| - 1]
  }

  predicate AtEof(t: seq<Event>) {
    exists i | 0 <= i < |t| :: t[i].ReadStdin? && t[i].r.Eof?
  }

  predicate FinSent(t: seq<Event>) {
    Shutdown in t
  }

  /** How far the buffers have been filled since they were last empty. */
  function ToFill(t: seq<Event>): nat {
    if t == [] then 0
    else
      match Tip(t)
      case ReadStdin(_, r) => ToFill(Init(t)) + |BytesOf(r)|
      case WriteSock(_, _, _) => if Sent(t) == Typed(t) then 0 else ToFill(Init(t))
      case _ => ToFill(Init(t))
  }

  function FrFill(t: seq<Event>): nat {
    if t == [] then 0
    else
      match Tip(t)
      case ReadSock(_, r) => FrFill(Init(t)) + |BytesOf(r)|
      case WriteStdout(_, _, _) => if Shown(t) == Received(t) then 0 else FrFill(Init(t))
      case _ => FrFill(Init(t))
  }

  // ---- what every call must satisfy, given the calls before it ----

  /** select asks about standard input until its end and the socket while there is room for
      more, and about writing when something waits; a read offers all the room and a write all
      that waits; and the FIN is sent once, after the end of input, when all of it is written. */
  predicate EventOk(before: seq<Event>, ev: Event) {
    match ev
    case Select(a, b, c, d) =>
      && (a <==> !AtEof(before) && ToFill(before) < MAXLINE) && (b <==> FrFill(before) < MAXLINE)
      && (c <==> Sent(before) != Typed(before)) && (d <==> Shown(before) != Received(before))
      && (a || b || c || d)
    case ReadStdin(room, _) => room > 0 && room == MAXLINE - ToFill(before) && !AtEof(before)
    case ReadSock(room, _) => room > 0 && room == MAXLINE - FrFill(before)
    case WriteSock(want, w, bs) =>
      && !FinSent(before) && want > 0 && want == |Typed(before)| - |Sent(before)|
      && |bs| == Accepted(w, want) && Sent(before) + bs <= Typed(before)
    case WriteStdout(want, w, bs) =>
      && want > 0 && want == |Received(before)| - |Shown(before)|
      && |bs| == Accepted(w, want) && Shown(before) + bs <= Received(before)
    case Shutdown => !FinSent(before) && AtEof(before) && Sent(before) == Typed(before)
  }

  /** Every call of the trace was in order, at the time it was made. */
  predicate TraceOk(t: seq<Event>) {
    t == [] || (TraceOk(Init(t)) && EventOk(Init(t), Tip(t)))
  }

  lemma {:induction false} OkAt(t: seq<Event>, i: nat)
    requires TraceOk(t) && i < |t|
    ensures EventOk(t[..i], t[i])
  {
    if i < |t| - 1 {
      OkAt(Init(t), i);
      assert Init(t)[..i] == t[..i];
    }
  }

  /** In a trace in order the FIN is sent at most once, after everything typed, and nothing
      is written to the socket after it. */
  lemma {:induction false} FinIsLast(t: seq<Event>, i: nat, j: nat)
    requires TraceOk(t) && i < j < |t| && t[i].Shutdown?
    ensures !t[j].Shutdown? && !t[j].WriteSock? && !t[j].ReadStdin?
    ensures Sent(t[..i]) == Typed(t[..i]) && AtEof(t[..i])
  {
    OkAt(t, i);
    OkAt(t, j);
    assert t[..j][i] == Shutdown;
    var k :| 0 <= k < i && t[..i][k].ReadStdin? && t[..i][k].r.Eof?;
    assert t[..j][k] == t[..i][k];
  }

  /** The loop's invariant: `p` and `q` are the bytes waiting in the two buffers, which are
      filled up to `toi` and `fri`. */
  ghost predicate Copying(t: seq<Event>, p: seq<byte>, q: seq<byte>, toi: nat, fri: nat, eof: bool) {
    && TraceOk(t) && Typed(t) == Sent(t) + p && Received(t) == Shown(t) + q
    && ToFill(t) == toi && FrFill(t) == fri && eof == AtEof(t) && FinSent(t) == (eof && p == [])
  }

  lemma {:induction false} Extend(t: seq<Event>, ev: Event)
    ensures Typed(t + [ev]) == Typed(t) + if ev.ReadStdin? then BytesOf(ev.r) else []
    ensures Sent(t + [ev]) == Sent(t) + if ev.WriteSock? then ev.sent else []
    ensures Received(t + [ev]) == Received(t) + if ev.ReadSock? then BytesOf(ev.r) else []
    ensures Shown(t + [ev]) == Shown(t) + if ev.WriteStdout? then ev.shown else []
    ensures FinSent(t + [ev]) == (FinSent(t) || ev.Shutdown?)
    ensures TraceOk(t + [ev]) == (TraceOk(t) && EventOk(t, ev))
  {
    assert Init(t + [ev]) == t;
    hide EventOk;
  }

  lemma {:induction false} ExtendEof(t: seq<Event>, ev: Event)
    ensures AtEof(t + [ev]) == (AtEof(t) || (ev.ReadStdin? && ev.r.Eof?))
  {
    if AtEof(t) {
      var i :| 0 <= i < |t| && t[i].ReadStdin? && t[i].r.Eof?;
      assert (t + [ev])[i] == t[i];
    }
    if ev.ReadStdin? && ev.r.Eof? {
      assert (t + [ev])[|t|] == ev;
    }
  }

  lemma {:induction false} ExtendFill(t: seq<Event>, ev: Event)
    ensures ev.ReadStdin? ==> ToFill(t + [ev]) == ToFill(t) + |BytesOf(ev.r)|
    ensures ev.WriteSock? ==> ToFill(t + [ev]) == if Sent(t + [ev]) == Typed(t + [ev]) then 0 else ToFill(t)
    ensures !ev.ReadStdin? && !ev.WriteSock? ==> ToFill(t + [ev]) == ToFill(t)
    ensures ev.ReadSock? ==> FrFill(t + [ev]) == FrFill(t) + |BytesOf(ev.r)|
    ensures ev.WriteStdout? ==> FrFill(t + [ev]) == if Shown(t + [ev]) == Received(t + [ev]) then 0 else FrFill(t)
    ensures !ev.ReadSock? && !ev.WriteStdout? ==> FrFill(t + [ev]) == FrFill(t)
  {
    assert Init(t + [ev]) == t;
    hide Sent, Typed, Shown, Received, BytesOf;
  }

  lemma {:induction false} Extended(t: seq<Event>, ev: Event)
    ensures Typed(t + [ev]) == Typed(t) + if ev.ReadStdin? then BytesOf(ev.r) else []
    ensures Sent(t + [ev]) == Sent(t) + if ev.WriteSock? then ev.sent else []
    ensures Received(t + [ev]) == Received(t) + if ev.ReadSock? then BytesOf(ev.r) else []
    ensures Shown(t + [ev]) == Shown(t) + if ev.WriteStdout? then ev.shown else []
    ensures FinSent(t + [ev]) == (FinSent(t) || ev.Shutdown?)
    ensures TraceOk(t + [ev]) == (TraceOk(t) && EventOk(t, ev))
    ensures AtEof(t + [ev]) == (AtEof(t) || (ev.ReadStdin? && ev.r.Eof?))
    ensures ToFill(t + [ev]) ==
            if ev.ReadStdin? then ToFill(t) + |BytesOf(ev.r)|
            else if ev.WriteSock? && Sent(t + [ev]) == Typed(t + [ev]) then 0 else ToFill(t)
    ensures FrFill(t + [ev]) ==
            if ev.ReadSock? then FrFill(t) + |BytesOf(ev.r)|
            else if ev.WriteStdout? && Shown(t + [ev]) == Received(t + [ev]) then 0 else FrFill(t)
  {
    hide *;
    Extend(t, ev);
    ExtendEof(t, ev);
    ExtendFill(t, ev);
  }

  lemma Waiting(x: seq<byte>, p: seq<byte>)
    ensures x == x + p <==> p == []
    ensures |x + p| - |x| == |p| && x + [] == x
  {
  }

  lemma {:induction false} DoSelect(t: seq<Event>, p: seq<byte>, q: seq<byte>, toi: nat, fri: nat, eof: bool, ev: Event)
    requires Copying(t, p, q, toi, fri, eof) && (p == [] ==> toi == 0)
    requires ev == Select(!eof && toi < MAXLINE, fri < MAXLINE, p != [], q != []) && fri <= MAXLINE
    requires q == [] ==> fri == 0
    ensures Copying(t + [ev], p, q, toi, fri, eof)
  {
    Waiting(Sent(t), p);
    Waiting(Shown(t), q);
    Extended(t, ev);
    hide TraceOk, Typed, Sent, Received, Shown, AtEof, FinSent, ToFill, FrFill;
    assert EventOk(t, ev);
  }

  lemma {:induction false} DoReadStdin(t: seq<Event>, p: seq<byte>, q: seq<byte>, toi: nat, fri: nat, ev: Event)
    requires Copying(t, p, q, toi, fri, false) && ev.ReadStdin? && ev.room > 0 && ev.room == MAXLINE - toi
    ensures !ev.r.Eof? ==> Copying(t + [ev], p + BytesOf(ev.r), q, toi + |BytesOf(ev.r)|, fri, false)
    ensures ev.r.Eof? && p != [] ==> Copying(t + [ev], p, q, toi, fri, true)
    ensures ev.r.Eof? && p == [] ==> Copying(t + [ev] + [Shutdown], p, q, toi, fri, true)
  {
    Extended(t, ev);
    Extended(t + [ev], Shutdown);
    assert ev.r.Eof? ==> BytesOf(ev.r) == [];
    hide TraceOk, Typed, Sent, Received, Shown, AtEof, FinSent, ToFill, FrFill, BytesOf;
    assert EventOk(t, ev);
    assert Typed(t + [ev]) == Sent(t) + (p + BytesOf(ev.r));
    Waiting(Sent(t), p);
    Waiting(Sent(t + [ev]), []);
    Waiting(Typed(t), []);
    Waiting(Received(t), []);
    Waiting(Shown(t), []);
    Waiting(p, []);
    assert ev.r.Eof? && p == [] ==> EventOk(t + [ev], Shutdown);
  }

  lemma {:induction false} DoReadSock(t: seq<Event>, p: seq<byte>, q: seq<byte>, toi: nat, fri: nat, eof: bool,
                                      ev: Event)
    requires Copying(t, p, q, toi, fri, eof) && ev.ReadSock? && ev.room > 0 && ev.room == MAXLINE - fri
    ensures Copying(t + [ev], p, q + BytesOf(ev.r), toi, fri + |BytesOf(ev.r)|, eof)
  {
    Extended(t, ev);
    hide TraceOk, Typed, Sent, Received, Shown, AtEof, FinSent, ToFill, FrFill, BytesOf;
    assert EventOk(t, ev);
    assert Received(t + [ev]) == Shown(t) + (q + BytesOf(ev.r));
    Waiting(Sent(t), []);
    Waiting(Typed(t), []);
    Waiting(Shown(t), []);
  }

  /** Taking `n` of the bytes that wait behind `x`. */
  lemma {:induction false} Taking(x: seq<byte>, q: seq<byte>, n: nat)
    requires n <= |q|
    ensures x + q == x + q[..n] + q[n..] && x + q[..n] <= x + q && |x + q| - |x| == |q|
    ensures x + q[..n] == x + q <==> n == |q|
    ensures n == |q| ==> q[n..] == []
  {
    assert q == q[..n] + q[n..];
    assert |x + q[..n]| == |x| + n;
  }

  lemma {:induction false} DoWriteStdout(t: seq<Event>, p: seq<byte>, q: seq<byte>, toi: nat, fri: nat, eof: bool,
                                         w: WriteResult)
    requires Copying(t, p, q, toi, fri, eof) && q != []
    ensures var n := Accepted(w, |q|);
            Copying(t + [WriteStdout(|q|, w, q[..n])], p, q[n..], toi, if n == |q| then 0 else fri, eof)
  {
    var n := Accepted(w, |q|);
    var ev := WriteStdout(|q|, w, q[..n]);
    Taking(Shown(t), q, n);
    hide TraceOk, Typed, Sent, Received, Shown, AtEof, FinSent, ToFill, FrFill, Accepted;
    assert EventOk(t, ev);
    hide EventOk;
    Extended(t, ev);
    Waiting(Sent(t), []);
    Waiting(Typed(t), []);
    Waiting(Received(t), []);
  }

  lemma {:induction false} DoWriteSock(t: seq<Event>, p: seq<byte>, q: seq<byte>, toi: nat, fri: nat, eof: bool,
                                       w: WriteResult)
    requires Copying(t, p, q, toi, fri, eof) && p != []
    ensures var n := Accepted(w, |p|);
            var t' := t + [WriteSock(|p|, w, p[..n])];
            if eof && n == |p| then Copying(t' + [Shutdown], [], q, 0, fri, eof)
            else Copying(t', p[n..], q, if n == |p| then 0 else toi, fri, eof)
  {
    var n := Accepted(w, |p|);
    var ev := WriteSock(|p|, w, p[..n]);
    var t' := t + [ev];
    Taking(Sent(t), p, n);
    hide TraceOk, Typed, Sent, Received, Shown, AtEof, FinSent, ToFill, FrFill, Accepted;
    assert EventOk(t, ev);
    Extended(t, ev);
    Waiting(Typed(t), []);
    Waiting(Received(t), []);
    Waiting(Shown(t), []);
    if eof && n == |p| {
      assert EventOk(t', Shutdown);
      hide EventOk;
      ThenFin(t', q, fri);
    }
  }

  lemma {:induction false} ThenFin(t: seq<Event>, q: seq<byte>, fri: nat)
    requires TraceOk(t) && Typed(t) == Sent(t) && Received(t) == Shown(t) + q && ToFill(t) == 0 && FrFill(t) == fri
    requires AtEof(t) && EventOk(t, Shutdown)
    ensures Copying(t + [Shutdown], [], q, 0, fri, true)
  {
    hide TraceOk, Typed, Sent, Received, Shown, AtEof, FinSent, ToFill, FrFill, EventOk;
    Extended(t, Shutdown);
    Waiting(Sent(t), []);
    Waiting(Typed(t), []);
    Waiting(Received(t), []);
    Waiting(Shown(t), []);
  }

  // ---- the loop, on values ----

  /** How far the two buffers are filled, the bytes waiting in them, whether standard input has
      ended, and the calls made. */
  datatype State = State(toi: nat, fri: nat, unsent: seq<byte>, unshown: seq<byte>, eof: bool, t: seq<Event>)

  const START := State(0, 0, [], [], false, [])

  predicate Fits(s: State) {
    s.toi <= MAXLINE && s.fri <= MAXLINE
  }

  function Asks(s: State): Event {
    Select(!s.eof && s.toi < MAXLINE, s.fri < MAXLINE, s.unsent != [], s.unshown != [])
  }

  function Asked(s: State): State {
    s.(t := s.t + [Asks(s)])
  }

  function TakeStdin(s: State, res: ReadResult): (s': State)
    requires Fits(s)
    ensures Fits(s') && s'.fri == s.fri && s'.unshown == s.unshown
  {
    var r := Limit(res, MAXLINE - s.toi);
    var t := s.t + [ReadStdin(MAXLINE - s.toi, r)];
    if r.Eof? then s.(eof := true, t := t + if s.unsent == [] then [Shutdown] else [])
    else s.(toi := s.toi + |BytesOf(r)|, unsent := s.unsent + BytesOf(r), t := t)
  }

  function TakeSock(s: State, res: ReadResult): (s': State)
    requires Fits(s)
    ensures Fits(s')
  {
    var r := Limit(res, MAXLINE - s.fri);
    s.(fri := s.fri + |BytesOf(r)|, unshown := s.unshown + BytesOf(r), t := s.t + [ReadSock(MAXLINE - s.fri, r)])
  }

  lemma Took(s: State, res: ReadResult, r: ReadResult)
    requires Fits(s) && r == Limit(res, MAXLINE - s.fri)
    ensures TakeSock(s, res) ==
            State(s.toi, s.fri + |BytesOf(r)|, s.unsent, s.unshown + BytesOf(r), s.eof,
                  s.t + [ReadSock(MAXLINE - s.fri, r)])
  {
    hide Limit, BytesOf;
  }

  function GiveStdout(s: State, res: WriteResult): (s': State)
    requires Fits(s)
    ensures Fits(s') && s'.unsent == s.unsent
  {
    var n := Accepted(res, |s.unshown|);
    s.(fri := if n == |s.unshown| then 0 else s.fri, unshown := s.unshown[n..],
       t := s.t + [WriteStdout(|s.unshown|, res, s.unshown[..n])])
  }

  function GiveSock(s: State, res: WriteResult): (s': State)
    requires Fits(s)
    ensures Fits(s')
  {
    var n := Accepted(res, |s.unsent|);
    s.(toi := if n == |s.unsent| then 0 else s.toi, unsent := s.unsent[n..],
       t := s.t + [WriteSock(|s.unsent|, res, s.unsent[..n])] + if n == |s.unsent| && s.eof then [Shutdown] else [])
  }

  /** After the reads: how they ended, and what to try and write. */
  datatype Half = Half(outcome: Outcome, s: State, wsock: bool, wstdout: bool)

  function ReadTyped(s: State, ask: Event, round: Round): (h: Half)
    requires Fits(s) && ask.Select?
    ensures Fits(h.s) && h.s.fri == s.fri
  {
    var w, w' := ask.sockOut && round.sockWritable, ask.stdout && round.stdoutReady;
    if ask.stdin && round.stdinReady then
      var r := Limit(round.stdin, MAXLINE - s.toi);
      Half(if r.Failed? then ErrSys else Running, TakeStdin(s, round.stdin), w || r.Data?, w')
    else Half(Running, s, w, w')
  }

  function ReadReplies(h: Half, ask: Event, round: Round): (h': Half)
    requires Fits(h.s) && ask.Select?
    ensures Fits(h'.s)
  {
    if h.outcome.Running? && ask.sockIn && round.sockReadable then
      var r := Limit(round.sock, MAXLINE - h.s.fri);
      var outcome := if r.Failed? then ErrSys else if !r.Eof? then Running
                     else if h.s.eof then Returned else ServerGone;
      Half(outcome, TakeSock(h.s, round.sock), h.wsock, h.wstdout || r.Data?)
    else h
  }

  lemma RepliesAre(s: State, ask: Event, round: Round, w: bool, w': bool, r: ReadResult)
    requires Fits(s) && ask.Select? && r == Limit(round.sock, MAXLINE - s.fri)
    ensures var h := ReadReplies(Half(Running, s, w, w'), ask, round);
            if ask.sockIn && round.sockReadable then
              && h.s == TakeSock(s, round.sock) && h.wsock == w && h.wstdout == (w' || r.Data?)
              && h.outcome == if r.Failed? then ErrSys else if !r.Eof? then Running
                              else if s.eof then Returned else ServerGone
            else h == Half(Running, s, w, w')
  {
    hide Limit, TakeSock;
  }

  datatype Progress = Progress(outcome: Outcome, s: State)

  function WriteBoth(h: Half, round: Round): (p: Progress)
    requires Fits(h.s)
    ensures Fits(p.s)
  {
    var s := if h.wstdout && h.s.unshown != [] then GiveStdout(h.s, round.toStdout) else h.s;
    if h.wstdout && h.s.unshown != [] && round.toStdout.Broken? then Progress(ErrSys, s)
    else if h.wsock && s.unsent != [] then
      Progress(if round.toSock.Broken? then ErrSys else Running, GiveSock(s, round.toSock))
    else Progress(Running, s)
  }

  function OneRound(s: State, round: Round): (p: Progress)
    requires Fits(s)
    ensures Fits(p.s)
  {
    var ask := Asks(s);
    var h := ReadReplies(ReadTyped(Asked(s), ask, round), ask, round);
    if h.outcome.Running? then WriteBoth(h, round) else Progress(h.outcome, h.s)
  }

  /** The loop over the rounds, until one ends it. */
  function Play(rounds: seq<Round>): (p: Progress)
    ensures Fits(p.s)
  {
    if rounds == [] then Progress(Running, START)
    else
      var p := Play(rounds[..|rounds| - 1]);
      if p.outcome.Running? then OneRound(p.s, rounds[|rounds| - 1]) else p
  }

  /** Standard output is worth a try: select said so, or bytes for it have just been read. */
  predicate TryStdout(ask: Event, round: Round, room': nat)
    requires ask.Select?
  {
    (ask.stdout && round.stdoutReady) || (ask.sockIn && round.sockReadable && Limit(round.sock, room').Data?)
  }

  predicate TrySock(ask: Event, round: Round, room: nat)
    requires ask.Select?
  {
    (ask.sockOut && round.sockWritable) || (ask.stdin && round.stdinReady && Limit(round.stdin, room).Data?)
  }

  /** The call was called for, and came back as the round has it. */
  predicate Due(ev: Event, ask: Event, round: Round, room: nat, room': nat)
    requires ask.Select?
  {
    match ev
    case Select(_, _, _, _) => false
    case ReadStdin(n, r) => ask.stdin && round.stdinReady && n == room && r == Limit(round.stdin, room)
    case ReadSock(n, r) => ask.sockIn && round.sockReadable && n == room' && r == Limit(round.sock, room')
    case WriteStdout(_, w, _) => w == round.toStdout && TryStdout(ask, round, room')
    case WriteSock(_, w, _) => w == round.toSock && TrySock(ask, round, room)
    case Shutdown => true
  }

  predicate AllDue(t: seq<Event>, from: nat, ask: Event, round: Round, room: nat, room': nat)
    requires ask.Select?
  {
    forall i | from <= i < |t| :: Due(t[i], ask, round, room, room')
  }

  /** After select, everything that is due is done, and nothing else. */
  ghost predicate Heeds(t: seq<Event>, from: nat, ask: Event, round: Round, outcome: Outcome, room: nat, room': nat) {
    && ask.Select? && AllDue(t, from, ask, round, room, room')
    && (ask.stdin && round.stdinReady ==> exists i | from <= i < |t| :: t[i].ReadStdin?)
    && (ask.sockIn && round.sockReadable && !outcome.ErrSys? ==> exists i | from <= i < |t| :: t[i].ReadSock?)
    && (TryStdout(ask, round, room') && outcome.Running? ==> exists i | from <= i < |t| :: t[i].WriteStdout?)
    && (TrySock(ask, round, room) && outcome.Running? ==> exists i | from <= i < |t| :: t[i].WriteSock?)
  }

  lemma {:induction false} DueMore(t: seq<Event>, from: nat, evs: seq<Event>, ask: Event, round: Round,
                                   room: nat, room': nat)
    requires ask.Select? && AllDue(t, from, ask, round, room, room') && AllDue(evs, 0, ask, round, room, room')
    ensures AllDue(t + evs, from, ask, round, room, room')
  {
    hide Due;
  }

  lemma {:induction false} TypedTells(s: State, ask: Event, round: Round, room: nat, room': nat)
    requires Fits(s) && ask == Asks(s) && room == MAXLINE - s.toi
    ensures var h := ReadTyped(s, ask, round);
            && s.t <= h.s.t && AllDue(h.s.t, |s.t|, ask, round, room, room')
            && h.s.unshown == s.unshown && (h.outcome.Running? || h.outcome.ErrSys?)
            && (ask.stdin && round.stdinReady ==> |h.s.t| > |s.t| && h.s.t[|s.t|].ReadStdin?)
            && h.wsock == TrySock(ask, round, room) && (h.wsock ==> h.s.unsent != [])
            && h.wstdout == (ask.stdout && round.stdoutReady) && (ask.stdout ==> h.s.unshown != [])
  {
    var r := Limit(round.stdin, room);
    assert r.Data? ==> r.bytes != [];
    hide Limit;
    if ask.stdin && round.stdinReady {
      var evs := [ReadStdin(room, r)] + if r.Eof? && s.unsent == [] then [Shutdown] else [];
      assert ReadTyped(s, ask, round).s.t == s.t + evs;
      DueMore(s.t, |s.t|, evs, ask, round, room, room');
    }
  }

  lemma {:induction false} RepliesTell(h: Half, from: nat, ask: Event, round: Round, room: nat, room': nat)
    requires Fits(h.s) && ask.Select? && room' == MAXLINE - h.s.fri && AllDue(h.s.t, from, ask, round, room, room')
    requires h.outcome.Running? && h.wstdout == (ask.stdout && round.stdoutReady) && (h.wstdout ==> h.s.unshown != [])
    ensures var h' := ReadReplies(h, ask, round);
            && h.s.t <= h'.s.t && AllDue(h'.s.t, from, ask, round, room, room')
            && (h'.outcome.Returned? ==> h'.s.eof) && (h'.outcome.ServerGone? ==> !h'.s.eof)
            && (ask.sockIn && round.sockReadable ==> |h'.s.t| > |h.s.t| && h'.s.t[|h.s.t|].ReadSock?)
            && h'.wsock == h.wsock && h'.s.unsent == h.s.unsent
            && h'.wstdout == TryStdout(ask, round, room') && (h'.wstdout ==> h'.s.unshown != [])
  {
    var r := Limit(round.sock, room');
    assert r.Data? ==> r.bytes != [];
    hide Limit;
    if ask.sockIn && round.sockReadable {
      DueMore(h.s.t, from, [ReadSock(room', r)], ask, round, room, room');
    }
  }

  lemma {:induction false} WritesTell(h: Half, from: nat, ask: Event, round: Round, room: nat, room': nat)
    returns (k: nat)
    requires Fits(h.s) && ask.Select? && AllDue(h.s.t, from, ask, round, room, room')
    requires h.wstdout == TryStdout(ask, round, room') && (h.wstdout ==> h.s.unshown != [])
    requires h.wsock == TrySock(ask, round, room) && (h.wsock ==> h.s.unsent != [])
    ensures var p := WriteBoth(h, round);
            && h.s.t <= p.s.t && AllDue(p.s.t, from, ask, round, room, room')
            && (p.outcome.Running? || p.outcome.ErrSys?)
            && (h.wstdout ==> |p.s.t| > |h.s.t| && p.s.t[|h.s.t|].WriteStdout?)
            && (h.wsock && p.outcome.Running? ==> |h.s.t| <= k < |p.s.t| && p.s.t[k].WriteSock?)
  {
    var s, p := if h.wstdout then GiveStdout(h.s, round.toStdout) else h.s, WriteBoth(h, round);
    hide Limit, Accepted;
    k := |s.t|;
    if h.wstdout {
      DueMore(h.s.t, from, [s.t[|h.s.t|]], ask, round, room, room');
      assert s.t == h.s.t + [s.t[|h.s.t|]];
    }
    if h.wsock && !(h.wstdout && round.toStdout.Broken?) {
      var n := Accepted(round.toSock, |s.unsent|);
      var fin := if n == |s.unsent| && s.eof then [Shutdown] else [];
      var evs := [WriteSock(|s.unsent|, round.toSock, s.unsent[..n])] + fin;
      assert p.s.t == s.t + evs;
      DueMore(s.t, from, evs, ask, round, room, room');
    }
  }

  lemma AskedIs(s: State)
    ensures var a := Asked(s); a.t == s.t + [Asks(s)] && a.toi == s.toi && a.fri == s.fri && (Fits(s) ==> Fits(a))
    ensures Asks(Asked(s)) == Asks(s) && Asks(s).Select?
  {
  }

  lemma RoundIs(s: State, round: Round, h1: Half, h: Half)
    requires Fits(s) && h1 == ReadTyped(Asked(s), Asks(s), round) && h == ReadReplies(h1, Asks(s), round)
    ensures OneRound(s, round) == if h.outcome.Running? then WriteBoth(h, round) else Progress(h.outcome, h.s)
    ensures !h1.outcome.Running? ==> h == h1
    ensures h1.s.fri == s.fri
  {
    hide ReadTyped, WriteBoth;
  }

  lemma Within(s: State)
    requires Fits(s)
    ensures MAXLINE - s.toi >= 0 && MAXLINE - s.fri >= 0
  {
  }

  /** A round calls select first, with what the buffers allow, and heeds it; and it ends the loop
      normally only after the end of standard input. */
  ghost predicate InOrder(s: State, round: Round, p: Progress)
    requires Fits(s)
  {
    && s.t + [Asks(s)] <= p.s.t && (p.outcome.Returned? ==> p.s.eof) && (p.outcome.ServerGone? ==> !p.s.eof)
    && Heeds(p.s.t, |s.t| + 1, Asks(s), round, p.outcome, MAXLINE - s.toi, MAXLINE - s.fri)
  }

  lemma {:induction false} RoundInOrder(s: State, round: Round)
    requires Fits(s)
    ensures InOrder(s, round, OneRound(s, round))
  {
    Within(s);
    var ask, room, room' := Asks(s), MAXLINE - s.toi, MAXLINE - s.fri;
    AskedIs(s);
    hide *;
    var h1 := ReadTyped(Asked(s), ask, round);
    var h := ReadReplies(h1, ask, round);
    RoundIs(s, round, h1, h);
    TypedTells(Asked(s), ask, round, room, room');
    var p, n := OneRound(s, round), |s.t| + 1;
    if !h1.outcome.Running? {
      Heeded(p.s.t, n, ask, round, p.outcome, room, room', n, n, n);
    } else {
      RepliesTell(h1, n, ask, round, room, room');
      if h.outcome.Running? {
        var k := WritesTell(h, n, ask, round, room, room');
        Heeded(p.s.t, n, ask, round, p.outcome, room, room', |h1.s.t|, |h.s.t|, k);
      } else {
        Heeded(p.s.t, n, ask, round, p.outcome, room, room', |h1.s.t|, n, n);
      }
    }
    InOrderIs(s, round, p);
  }

  lemma InOrderIs(s: State, round: Round, p: Progress)
    requires Fits(s) && s.t + [Asks(s)] <= p.s.t
    requires (p.outcome.Returned? ==> p.s.eof) && (p.outcome.ServerGone? ==> !p.s.eof)
    requires Heeds(p.s.t, |s.t| + 1, Asks(s), round, p.outcome, MAXLINE - s.toi, MAXLINE - s.fri)
    ensures InOrder(s, round, p)
  {
  }

  lemma Heeded(t: seq<Event>, from: nat, ask: Event, round: Round, outcome: Outcome, room: nat, room': nat,
               i: nat, j: nat, k: nat)
    requires ask.Select? && AllDue(t, from, ask, round, room, room')
    requires ask.stdin && round.stdinReady ==> from < |t| && t[from].ReadStdin?
    requires ask.sockIn && round.sockReadable && !outcome.ErrSys? ==> from <= i < |t| && t[i].ReadSock?
    requires TryStdout(ask, round, room') && outcome.Running? ==> from <= j < |t| && t[j].WriteStdout?
    requires TrySock(ask, round, room) && outcome.Running? ==> from <= k < |t| && t[k].WriteSock?
    ensures Heeds(t, from, ask, round, outcome, room, room')
  {
    hide AllDue, TrySock, TryStdout;
  }

  // ---- how the loop ends ----

  /** A call that ends the loop: one that fails with something other than EWOULDBLOCK, or the
      end of the connection. */
  predicate Final(ev: Event) {
    match ev
    case ReadStdin(_, r) => r.Failed?
    case ReadSock(_, r) => r.Failed? || r.Eof?
    case WriteSock(_, w, _) => w.Broken?
    case WriteStdout(_, w, _) => w.Broken?
    case _ => false
  }

  predicate NoneFinal(t: seq<Event>) {
    forall i | 0 <= i < |t| :: !Final(t[i])
  }

  /** What the last call says: after the end of the connection it matters whether standard
      input had ended. */
  predicate Verdict(t: seq<Event>, outcome: Outcome) {
    if t == [] || !Final(Tip(t)) then outcome.Running?
    else if Tip(t).ReadSock? && Tip(t).r.Eof? then outcome == if AtEof(t) then Returned else ServerGone
    else outcome.ErrSys?
  }

  /** The loop goes on until such a call, and ends as it says. */
  predicate EndsAsCalled(t: seq<Event>, outcome: Outcome) {
    Verdict(t, outcome) && NoneFinal(if t == [] then [] else Init(t))
  }

  predicate GoesOn(s: State) {
    s.eof == AtEof(s.t) && NoneFinal(s.t)
  }

  predicate Stopped(outcome: Outcome, s: State) {
    s.t != [] && Final(Tip(s.t)) && EndsAsCalled(s.t, outcome)
  }

  /** Calls that end nothing, the first of them perhaps reading the end of standard input. */
  lemma {:induction false} Onward(s: State, ev: Event, s': State)
    requires GoesOn(s) && !Final(ev) && s'.t == s.t + [ev]
    requires s'.eof == (s.eof || (ev.ReadStdin? && ev.r.Eof?))
    ensures GoesOn(s')
  {
    ExtendEof(s.t, ev);
    hide AtEof, Final;
  }

  lemma {:induction false} Halts(s: State, ev: Event, s': State, outcome: Outcome)
    requires GoesOn(s) && Final(ev) && s'.t == s.t + [ev] && s'.eof == s.eof
    requires if ev.ReadSock? && ev.r.Eof? then outcome == (if s.eof then Returned else ServerGone) else outcome.ErrSys?
    ensures Stopped(outcome, s')
  {
    ExtendEof(s.t, ev);
    assert Init(s'.t) == s.t && Tip(s'.t) == ev;
    hide AtEof;
  }

  lemma {:induction false} TypedEnds(s: State, ask: Event, round: Round)
    requires Fits(s) && ask.Select? && GoesOn(s)
    ensures var h := ReadTyped(s, ask, round);
            if h.outcome.Running? then GoesOn(h.s) else h.outcome.ErrSys? && Stopped(h.outcome, h.s)
  {
    var h, ev := ReadTyped(s, ask, round), ReadStdin(MAXLINE - s.toi, Limit(round.stdin, MAXLINE - s.toi));
    hide Limit, BytesOf, GoesOn, Stopped;
    if ask.stdin && round.stdinReady {
      if ev.r.Failed? {
        Halts(s, ev, h.s, ErrSys);
      } else {
        var s1 := s.(eof := s.eof || ev.r.Eof?, t := s.t + [ev]);
        Onward(s, ev, s1);
        if ev.r.Eof? && s.unsent == [] {
          Onward(s1, Shutdown, h.s);
        } else {
          SameRecord(s1, h.s);
        }
      }
    }
  }

  lemma SameRecord(s: State, s': State)
    requires GoesOn(s) && s'.t == s.t + [] && s'.eof == s.eof
    ensures GoesOn(s')
  {
    assert s.t + [] == s.t;
    hide AtEof;
  }

  lemma {:induction false} RepliesEnd(h: Half, ask: Event, round: Round)
    requires Fits(h.s) && ask.Select? && h.outcome.Running? && GoesOn(h.s)
    ensures var h' := ReadReplies(h, ask, round);
            if h'.outcome.Running? then GoesOn(h'.s) else Stopped(h'.outcome, h'.s)
  {
    var h', ev := ReadReplies(h, ask, round), ReadSock(MAXLINE - h.s.fri, Limit(round.sock, MAXLINE - h.s.fri));
    hide Limit, BytesOf, GoesOn, Stopped;
    if ask.sockIn && round.sockReadable {
      if Final(ev) {
        Halts(h.s, ev, h'.s, h'.outcome);
      } else {
        Onward(h.s, ev, h'.s);
      }
    }
  }

  lemma {:induction false} WritesEnd(h: Half, round: Round)
    requires Fits(h.s) && GoesOn(h.s)
    ensures var p := WriteBoth(h, round);
            if p.outcome.Running? then GoesOn(p.s) else p.outcome.ErrSys? && Stopped(p.outcome, p.s)
  {
    var p := WriteBoth(h, round);
    var s := if h.wstdout && h.s.unshown != [] then GiveStdout(h.s, round.toStdout) else h.s;
    hide GoesOn, Stopped, Accepted;
    if h.wstdout && h.s.unshown != [] {
      var ev := s.t[|h.s.t|];
      if round.toStdout.Broken? {
        Halts(h.s, ev, s, ErrSys);
      } else {
        Onward(h.s, ev, s);
      }
    }
    if h.wsock && s.unsent != [] && !(h.wstdout && h.s.unshown != [] && round.toStdout.Broken?) {
      SockEnds(s, round.toSock);
    }
  }

  lemma {:induction false} SockEnds(s: State, w: WriteResult)
    requires Fits(s) && GoesOn(s) && s.unsent != []
    ensures if w.Broken? then Stopped(ErrSys, GiveSock(s, w)) else GoesOn(GiveSock(s, w))
  {
    var n := Accepted(w, |s.unsent|);
    assert w.Broken? ==> n == 0;
    var ev := WriteSock(|s.unsent|, w, s.unsent[..n]);
    var s', s1 := GiveSock(s, w), s.(t := s.t + [ev]);
    hide GoesOn, Stopped, Accepted;
    if w.Broken? {
      assert s'.t == s.t + [ev];
      Halts(s, ev, s', ErrSys);
    } else {
      Onward(s, ev, s1);
      if n == |s.unsent| && s.eof {
        Onward(s1, Shutdown, s');
      } else {
        SameRecord(s1, s');
      }
    }
  }

  lemma {:induction false} RoundEnds(s: State, round: Round)
    requires Fits(s) && GoesOn(s)
    ensures var p := OneRound(s, round); if p.outcome.Running? then GoesOn(p.s) else Stopped(p.outcome, p.s)
  {
    AskedIs(s);
    assert Asked(s).eof == s.eof && !Final(Asks(s));
    hide *;
    Onward(s, Asks(s), Asked(s));
    var ask := Asks(s);
    var h1 := ReadTyped(Asked(s), ask, round);
    var h := ReadReplies(h1, ask, round);
    RoundIs(s, round, h1, h);
    TypedEnds(Asked(s), ask, round);
    if h1.outcome.Running? {
      RepliesEnd(h1, ask, round);
      if h.outcome.Running? {
        WritesEnd(h, round);
      }
    }
  }

  /** The loop ends with an error if and only if the last call made failed with something other
      than EWOULDBLOCK, and otherwise, with the end of the connection, as standard input says;
      a call that would block never ends it. */
  lemma {:induction false} EndsIff(rounds: seq<Round>)
    ensures var p := Play(rounds); EndsAsCalled(p.s.t, p.outcome) && (p.outcome.Running? ==> GoesOn(p.s))
    ensures var p := Play(rounds); (p.outcome.Returned? ==> AtEof(p.s.t)) && (p.outcome.ServerGone? ==> !AtEof(p.s.t))
  {
    if rounds != [] {
      var init := rounds[..|rounds| - 1];
      EndsIff(init);
      var p := Play(init);
      if p.outcome.Running? {
        RoundEnds(p.s, rounds[|rounds| - 1]);
        GoingOn(Play(rounds).s);
        hide OneRound, GoesOn, EndsAsCalled;
      }
    }
  }

  lemma GoingOn(s: State)
    ensures GoesOn(s) ==> EndsAsCalled(s.t, Running)
  {
    hide AtEof;
  }

  /** The last select asked whether standard output can be written. */
  predicate AskedStdout(t: seq<Event>) {
    t != [] && if Tip(t).Select? then Tip(t).stdout else AskedStdout(Init(t))
  }

  lemma {:induction false} AskedMore(t: seq<Event>, ev: Event)
    ensures AskedStdout(t + [ev]) == if ev.Select? then ev.stdout else AskedStdout(t)
  {
    assert Init(t + [ev]) == t && Tip(t + [ev]) == ev;
  }

  lemma {:induction false} ReadsAsk(s: State, round: Round, h: Half)
    requires Fits(s) && h == ReadTyped(Asked(s), Asks(s), round)
    ensures h.s.unshown == s.unshown && (AskedStdout(h.s.t) <==> s.unshown != [])
  {
    hide Limit, AskedStdout, BytesOf;
    AskedMore(s.t, Asks(s));
    var t, ev := Asked(s).t, ReadStdin(MAXLINE - s.toi, Limit(round.stdin, MAXLINE - s.toi));
    AskedMore(t, ev);
    AskedMore(t + [ev], Shutdown);
    assert t + [ev] + [] == t + [ev];
  }

  lemma {:induction false} RepliesAsk(h: Half, ask: Event, round: Round)
    requires Fits(h.s) && ask.Select? && h.outcome.Running?
    ensures var h' := ReadReplies(h, ask, round);
            h'.outcome.Returned? || h'.outcome.ServerGone? ==>
              h'.s.unshown == h.s.unshown && AskedStdout(h'.s.t) == AskedStdout(h.s.t)
  {
    AskedMore(h.s.t, ReadSock(MAXLINE - h.s.fri, Limit(round.sock, MAXLINE - h.s.fri)));
    hide AskedStdout, Limit;
    assert h.s.unshown + [] == h.s.unshown;
  }

  lemma {:induction false} RoundLoses(s: State, round: Round)
    requires Fits(s)
    ensures var p := OneRound(s, round);
            p.outcome.Returned? || p.outcome.ServerGone? ==>
              p.s.unshown == s.unshown && (AskedStdout(p.s.t) <==> s.unshown != [])
  {
    AskedIs(s);
    var h := ReadTyped(Asked(s), Asks(s), round);
    var h' := ReadReplies(h, Asks(s), round);
    assert h.outcome.Running? || h.outcome.ErrSys?;
    assert h'.outcome.Running? ==> !WriteBoth(h', round).outcome.Returned? && !WriteBoth(h', round).outcome.ServerGone?;
    hide *;
    RoundIs(s, round, h, h');
    ReadsAsk(s, round, h);
    if h.outcome.Running? {
      RepliesAsk(h, Asks(s), round);
    }
  }

  /** When the end of the connection ends the loop, everything received has been shown if and
      only if the last select did not ask about standard output. */
  lemma {:induction false} AllShownIff(rounds: seq<Round>)
    ensures var p := Play(rounds);
            p.outcome.Returned? || p.outcome.ServerGone? ==> (p.s.unshown == [] <==> !AskedStdout(p.s.t))
  {
    if rounds != [] {
      var init := rounds[..|rounds| - 1];
      AllShownIff(init);
      if Play(init).outcome.Running? {
        RoundLoses(Play(init).s, rounds[|rounds| - 1]);
      }
      hide OneRound, AskedStdout;
    }
  }

  /** A run that leaves a byte behind: standard input ends, the server sends a byte while
      standard output has no room, and then the server's FIN comes. */
  lemma {:induction false} UnshownRun()
    ensures var busy := Round(true, true, false, false, Eof, Data([65]), NoRoom, NoRoom);
            var fin := Round(false, true, false, false, WouldBlock, Eof, NoRoom, NoRoom);
            var p := Play([busy, fin]);
            p.outcome.Returned? && p.s.unshown == [65]
  {
    var busy := Round(true, true, false, false, Eof, Data([65]), NoRoom, NoRoom);
    var fin := Round(false, true, false, false, WouldBlock, Eof, NoRoom, NoRoom);
    assert [busy, fin][..1] == [busy] && [busy][..0] == [];
    var p := OneRound(START, busy);
    assert p.outcome.Running? && p.s.fri == 1 && p.s.unshown == [65] && p.s.eof;
    assert Play([busy]) == p;
  }

  // ---- the loop ----

  /** The bytes a read put at `buf[at..]`, behind those from `from` on. */
  method Fill(buf: array<byte>, at: nat, bs: seq<byte>, ghost from: nat)
    requires from <= at && at + |bs| <= buf.Length
    modifies buf
    ensures buf[from..at + |bs|] == old(buf[from..at]) + bs
  {
    for k := 0 to |bs|
      invariant buf[..at] == old(buf[..at])
      invariant forall x | 0 <= x < k :: buf[at + x] == bs[x]
    {
      buf[at + k] := bs[k];
    }
  }

  ghost function Slice(buf: array<byte>, lo: nat, hi: nat): seq<byte>
    reads buf
  {
    if lo <= hi <= buf.Length then buf[lo..hi] else []
  }

  /** The local variables of str_cli, with the trace of calls made so far. */
  class Copier {
    const to: array<byte>
    const fr: array<byte>
    var toi: nat
    var too: nat
    var fri: nat
    var fro: nat
    var stdineof: bool
    var t: seq<Event>

    ghost predicate Valid()
      reads this, to, fr
    {
      && to != fr && to.Length == fr.Length == MAXLINE
      && too <= toi <= MAXLINE && (too == toi ==> toi == 0)
      && fro <= fri <= MAXLINE && (fro == fri ==> fri == 0)
      && Copying(t, to[too..toi], fr[fro..fri], toi, fri, stdineof)
    }

    ghost function View(): (s: State)
      reads this, to, fr
      ensures s.toi == toi && s.fri == fri && s.eof == stdineof && s.t == t
    {
      State(toi, fri, Slice(to, too, toi), Slice(fr, fro, fri), stdineof, t)
    }

    lemma InBounds()
      requires Valid()
      ensures too <= toi <= MAXLINE == to.Length && fro <= fri <= MAXLINE == fr.Length && Fits(View())
      ensures View().unsent == to[too..toi] && View().unshown == fr[fro..fri]
      ensures Asks(View()) == Select(!stdineof && toi < MAXLINE, fri < MAXLINE, too < toi, fro < fri)
    {
      hide Copying;
    }

    constructor ()
      ensures Valid() && fresh(to) && fresh(fr) && View() == START
    {
      to, fr := new byte[MAXLINE](_ => 0), new byte[MAXLINE](_ => 0);
      toi, too, fri, fro, stdineof, t := 0, 0, 0, 0, false, [];
    }

    method AskSelect() returns (ask: Event)
      requires Valid()
      modifies this`t
      ensures Valid() && t == old(t) + [ask]
      ensures ask == Select(!stdineof && toi < MAXLINE, fri < MAXLINE, too != toi, fro != fri)
      ensures ask == Asks(View()) && View() == Asked(old(View()))
    {
      hide Copying;
      ask := Select(!stdineof && toi < MAXLINE, fri < MAXLINE, too != toi, fro != fri);
      DoSelect(t, to[too..toi], fr[fro..fri], toi, fri, stdineof, ask);
      t := t + [ask];
    }

    /** Reading standard input: the result, after the buffer and the end-of-file flag follow it. */
    method FromStdin(res: ReadResult) returns (r: ReadResult)
      requires Valid() && !stdineof && toi < MAXLINE
      modifies this`toi, this`stdineof, this`t, to
      ensures Valid() && r == Limit(res, MAXLINE - old(toi))
      ensures old(t) + [ReadStdin(MAXLINE - old(toi), r)] <= t
      ensures stdineof == r.Eof? && View() == TakeStdin(old(View()), res)
    {
      hide Copying;
      r := Limit(res, MAXLINE - toi);
      ghost var p := to[too..toi];
      DoReadStdin(t, p, fr[fro..fri], toi, fri, ReadStdin(MAXLINE - toi, r));
      t := t + [ReadStdin(MAXLINE - toi, r)];
      match r {
        case Eof =>
          stdineof := true;
          if too == toi {
            t := t + [Shutdown];
          }
        case Data(bs) =>
          Fill(to, toi, bs, too);
          toi := toi + |bs|;
        case _ =>
          assert p + [] == p;
      }
    }

    method FromSocket(res: ReadResult) returns (r: ReadResult)
      requires Valid() && fri < MAXLINE
      modifies this`fri, this`t, fr
      ensures Valid() && r == Limit(res, MAXLINE - old(fri))
      ensures t == old(t) + [ReadSock(MAXLINE - old(fri), r)] && View() == TakeSock(old(View()), res)
    {
      hide Copying;
      r := Limit(res, MAXLINE - fri);
      assert r.Data? ==> |r.bytes| <= MAXLINE - fri;
      assert BytesOf(r) == if r.Data? then r.bytes else [];
      ghost var p, q := to[too..toi], fr[fro..fri];
      DoReadSock(t, p, q, toi, fri, stdineof, ReadSock(MAXLINE - fri, r));
      Took(View(), res, r);
      hide Limit, BytesOf, TakeSock;
      t := t + [ReadSock(MAXLINE - fri, r)];
      if r.Data? {
        Fill(fr, fri, r.bytes, fro);
        fri := fri + |r.bytes|;
      } else {
        assert q + [] == q;
      }
      assert to[too..toi] == p && fr[fro..fri] == q + BytesOf(r);
    }

    method ToStdout(res: WriteResult)
      requires Valid() && fro < fri
      modifies this`fri, this`fro, this`t
      ensures Valid()
      ensures var n := Accepted(res, old(fri) - old(fro));
              t == old(t) + [WriteStdout(old(fri) - old(fro), res, fr[old(fro)..old(fro) + n])]
      ensures View() == GiveStdout(old(View()), res)
    {
      hide Copying;
      var n := Accepted(res, fri - fro);
      DoWriteStdout(t, to[too..toi], fr[fro..fri], toi, fri, stdineof, res);
      assert fr[fro..fri][..n] == fr[fro..fro + n] && fr[fro..fri][n..] == fr[fro + n..fri];
      t := t + [WriteStdout(fri - fro, res, fr[fro..fro + n])];
      if res.Wrote? {
        fro := fro + n;
        if fro == fri {
          assert fr[fro..fri] == fr[0..0];
          fro, fri := 0, 0;
        }
      }
    }

    method ToSocket(res: WriteResult)
      requires Valid() && too < toi
      modifies this`toi, this`too, this`t
      ensures Valid()
      ensures var n := Accepted(res, old(toi) - old(too));
              old(t) + [WriteSock(old(toi) - old(too), res, to[old(too)..old(too) + n])] <= t
      ensures View() == GiveSock(old(View()), res)
    {
      hide Copying;
      var n := Accepted(res, toi - too);
      DoWriteSock(t, to[too..toi], fr[fro..fri], toi, fri, stdineof, res);
      assert to[too..toi][..n] == to[too..too + n] && to[too..toi][n..] == to[too + n..toi];
      t := t + [WriteSock(toi - too, res, to[too..too + n])];
      if res.Wrote? {
        too := too + n;
        if too == toi {
          assert to[too..toi] == to[0..0] == [];
          too, toi := 0, 0;
          if stdineof {
            t := t + [Shutdown];
          }
        }
      }
    }

    /** A round reads standard input, if it is ready, ... */
    method Typing(ask: Event, round: Round) returns (outcome: Outcome, wsock: bool, wstdout: bool)
      requires Valid() && ask == Asks(View())
      modifies this`toi, this`stdineof, this`t, to
      ensures Valid() && Half(outcome, View(), wsock, wstdout) == ReadTyped(old(View()), ask, round)
    {
      InBounds();
      hide Copying, Valid, View, Asks, Limit, Fits, TakeStdin;
      wsock, wstdout, outcome := ask.sockOut && round.sockWritable, ask.stdout && round.stdoutReady, Running;
      if ask.stdin && round.stdinReady {
        var r := FromStdin(round.stdin);
        if r.Failed? {
          outcome := ErrSys;
        }
        wsock := wsock || r.Data?;
      }
    }

    /** ... then the socket, ... */
    method Replies(ask: Event, round: Round, wsock: bool, wstdout: bool) returns (outcome: Outcome, wstdout': bool)
      requires Valid() && ask.Select? && (ask.sockIn ==> fri < MAXLINE)
      modifies this`fri, this`t, fr
      ensures Valid()
      ensures Half(outcome, View(), wsock, wstdout') ==
              ReadReplies(Half(Running, old(View()), wsock, wstdout), ask, round)
    {
      InBounds();
      RepliesAre(View(), ask, round, wsock, wstdout, Limit(round.sock, MAXLINE - fri));
      hide Copying, Valid, View, Asks, Limit, Fits, TakeSock, ReadReplies;
      outcome, wstdout' := Running, wstdout;
      if ask.sockIn && round.sockReadable {
        var r := FromSocket(round.sock);
        if r.Failed? {
          outcome := ErrSys;
        } else if r.Eof? {
          outcome := if stdineof then Returned else ServerGone;
        }
        wstdout' := wstdout || r.Data?;
      }
    }

    /** ... and writes what waits where it can be written. */
    method Writes(round: Round, wsock: bool, wstdout: bool) returns (outcome: Outcome)
      requires Valid()
      modifies this`toi, this`too, this`fri, this`fro, this`t
      ensures Valid() && Progress(outcome, View()) == WriteBoth(Half(Running, old(View()), wsock, wstdout), round)
    {
      InBounds();
      hide Copying, Valid, View, Asks, Limit, Fits, GiveStdout, GiveSock;
      outcome := Running;
      if wstdout && fri > fro {
        ToStdout(round.toStdout);
        if round.toStdout.Broken? {
          return ErrSys;
        }
      }
      InBounds();
      if wsock && toi > too {
        ToSocket(round.toSock);
        if round.toSock.Broken? {
          return ErrSys;
        }
      }
    }

    /** One round of the loop. */
    method Turn(round: Round) returns (outcome: Outcome)
      requires Valid()
      modifies this, to, fr
      ensures Valid() && Progress(outcome, View()) == OneRound(old(View()), round)
      ensures InOrder(old(View()), round, Progress(outcome, View()))
    {
      InBounds();
      RoundInOrder(View(), round);
      hide Copying, Valid, View, Asks, Asked, Limit, Fits, ReadTyped, ReadReplies, WriteBoth, InOrder;
      var ask := AskSelect();
      var wsock, wstdout;
      outcome, wsock, wstdout := Typing(ask, round);
      if outcome.Running? {
        outcome, wstdout := Replies(ask, round, wsock, wstdout);
      }
      if outcome.Running? {
        outcome := Writes(round, wsock, wstdout);
      }
    }
  }

  /** Runs the loop over the given rounds.  At the end every call was in order; each stream's
      bytes read are those written plus those still in the buffer; and the FIN was sent just
      when standard input had ended and all of it had been written.  When the server's FIN
      ends the loop, bytes are left in the buffer for standard output just when the last
      select still asked to write them. */
  method StrCli(rounds: seq<Round>) returns (outcome: Outcome, t: seq<Event>, unsent: seq<byte>, unshown: seq<byte>)
    ensures TraceOk(t)
    ensures Typed(t) == Sent(t) + unsent && Received(t) == Shown(t) + unshown
    ensures |unsent| <= MAXLINE && |unshown| <= MAXLINE
    ensures FinSent(t) <==> AtEof(t) && unsent == []
    ensures outcome.Returned? ==> AtEof(t)
    ensures outcome.ServerGone? ==> !AtEof(t)
    ensures EndsAsCalled(t, outcome)
    ensures outcome.Returned? || outcome.ServerGone? ==> (unshown == [] <==> !AskedStdout(t))
    ensures var p := Play(rounds); outcome == p.outcome && t == p.s.t && unsent == p.s.unsent && unshown == p.s.unshown
  {
    AllShownIff(rounds);
    EndsIff(rounds);
    hide EndsAsCalled, GoesOn;
    hide TraceOk, Typed, Sent, Received, Shown, AtEof, FinSent, OneRound, Heeds, AskedStdout;
    var c := new Copier();
    outcome := Running;
    assert rounds[..0] == [];
    for i := 0 to |rounds|
      invariant c.Valid() && fresh(c) && fresh(c.to) && fresh(c.fr)
      invariant Progress(outcome, c.View()) == Play(rounds[..i])
    {
      assert rounds[..i + 1][..i] == rounds[..i];
      if outcome.Running? {
        outcome := c.Turn(rounds[i]);
      }
    }
    assert rounds[..|rounds|] == rounds;
    return outcome, c.t, c.to[c.too..c.toi], c.fr[c.fro..c.fri];
  }
}
