/** The request/reply protocol of dg_send_recv: client, network and echoing server. */
module DgSendRecv {
  import opened Basics
  import opened Rtt

  const HDR := 8           // sizeof(struct hdr)

  // ---- the client ----

  /** The statics that live across calls. */
  datatype Client = Client(info: Info, rttinit: bool, seqno: nat)

  datatype Header = Header(seqno: nat, ts: nat)

  /** The start of a call, up to the first transmission. */
  function Begin(c: Client, now: nat): Client {
    var info := if c.rttinit then c.info else Init(c.info, now);
    Client(NewPack(info), true, (c.seqno + 1) % WRAP32)
  }

  function Stamp(c: Client, now: nat): Header {
    Header(c.seqno, Timestamp(c.info, now))
  }

  /** The alarm fired: back off, and forget the estimators when giving up. */
  function Alarmed(c: Client): Client {
    var info := Backoff(c.info);
    c.(info := info, rttinit := c.rttinit && !GivesUp(info))
  }

  function Sample(c: Client, h: Header, now: nat): (ms: nat)
    ensures ms < WRAP32
  {
    (Timestamp(c.info, now) - h.ts) % WRAP32
  }

  function Answered(c: Client, h: Header, now: nat): Client {
    c.(info := Stop(c.info, Sample(c, h, now)))
  }

  /** recvmsg fills the header and at most `inbytes` of payload. */
  function Prefix(s: seq<byte>, n: nat): seq<byte> {
    if |s| <= n then s else s[..n]
  }

  // ---- one call, as the code runs it ----

  /** What the call sees while it waits: the alarm, with the time of the retransmission that
      follows; a datagram too short to hold a header; or a datagram. */
  datatype Event = Alarm(now: nat) | Short | Arrival(now: nat, hdr: Header, data: seq<byte>)

  /** How the call ended; `Blocked` if the events ran out while it was waiting. */
  datatype Outcome = Blocked | TimedOut | Reply(data: seq<byte>)

  datatype Served = Served(client: Client, outcome: Outcome, sent: seq<Header>)

  function Serve(c: Client, inbytes: nat, evs: seq<Event>, sent: seq<Header>): Served
    decreases |evs|
  {
    if evs == [] then Served(c, Blocked, sent)
    else match evs[0]
      case Short => Serve(c, inbytes, evs[1..], sent)
      case Alarm(now) =>
        var c' := Alarmed(c);
        if GivesUp(c'.info) then Served(c', TimedOut, sent)
        else Serve(c', inbytes, evs[1..], sent + [Stamp(c', now)])
      case Arrival(now, h, data) =>
        if h.seqno != c.seqno then Serve(c, inbytes, evs[1..], sent)
        else Served(Answered(c, h, now), Reply(Prefix(data, inbytes)), sent)
  }

  // ---- how a call ends ----

  predicate Matches(ev: Event, seqno: nat) {
    ev.Arrival? && ev.hdr.seqno == seqno
  }

  function Alarms(evs: seq<Event>): nat {
    if evs == [] then 0 else (if evs[0].Alarm? then 1 else 0) + Alarms(evs[1..])
  }

  /** The call ends at the first datagram with its sequence number, or at the alarm that makes
      more than MAXNREXMT, whichever comes first, and waits otherwise; it transmits once more
      for every other alarm, and always with the same sequence number. */
  predicate Ends(c: Client, inbytes: nat, evs: seq<Event>, i: nat, outcome: Outcome, sent: seq<Header>,
                 sent': seq<Header>)
  {
    && i <= |evs| && (forall j | 0 <= j < i :: !Matches(evs[j], c.seqno))
    && c.info.nrexmt + Alarms(evs[..i]) <= MAXNREXMT
    && (match outcome
        case Blocked => i == |evs|
        case TimedOut => i < |evs| && evs[i].Alarm? && c.info.nrexmt + Alarms(evs[..i]) == MAXNREXMT
        case Reply(data) => i < |evs| && Matches(evs[i], c.seqno) && data == Prefix(evs[i].data, inbytes))
    && |sent'| == |sent| + Alarms(evs[..i]) && sent'[..|sent|] == sent
    && (forall j | |sent| <= j < |sent'| :: sent'[j].seqno == c.seqno)
  }

  lemma {:induction false} HowItEnds(c: Client, inbytes: nat, evs: seq<Event>, sent: seq<Header>) returns (i: nat)
    requires 0 <= c.info.nrexmt <= MAXNREXMT
    ensures var r := Serve(c, inbytes, evs, sent);
            Ends(c, inbytes, evs, i, r.outcome, sent, r.sent)
    decreases |evs|
  {
    hide Timestamp, Stop, Prefix;
    if evs == [] || Matches(evs[0], c.seqno) || (evs[0].Alarm? && c.info.nrexmt == MAXNREXMT) {
      i := 0;
    } else {
      var c', sent' := c, sent;
      if evs[0].Alarm? {
        c', sent' := Alarmed(c), sent + [Stamp(Alarmed(c), evs[0].now)];
      }
      var k := HowItEnds(c', inbytes, evs[1..], sent');
      i := k + 1;
      assert evs[..i] == [evs[0]] + evs[1..][..k] && evs[..i][1..] == evs[1..][..k];
      assert sent'[..|sent|] == sent;
      forall j | 0 <= j < i ensures !Matches(evs[j], c.seqno) {
        assert j > 0 ==> evs[j] == evs[1..][j - 1];
      }
    }
  }

  /** A call that waits goes on from where it is. */
  lemma {:induction false} ServeMore(c: Client, inbytes: nat, evs: seq<Event>, ev: Event, sent: seq<Header>)
    requires Serve(c, inbytes, evs, sent).outcome.Blocked?
    ensures var r := Serve(c, inbytes, evs, sent);
            Serve(c, inbytes, evs + [ev], sent) == Serve(r.client, inbytes, [ev], r.sent)
    decreases |evs|
  {
    hide Alarmed, Stamp, Answered, Prefix;
    if evs == [] {
      assert evs + [ev] == [ev];
    } else {
      assert (evs + [ev])[1..] == evs[1..] + [ev];
      match evs[0] {
        case Alarm(now) =>
          ServeMore(Alarmed(c), inbytes, evs[1..], ev, sent + [Stamp(Alarmed(c), now)]);
        case _ =>
          ServeMore(c, inbytes, evs[1..], ev, sent);
      }
    }
  }

  class Endpoint {
    const rttinfo: RttInfo
    var rttinit: bool
    var seqno: nat

    function View(): Client
      reads this, rttinfo
    {
      Client(rttinfo.View(), rttinit, seqno)
    }

    constructor ()
      ensures fresh(rttinfo) && View() == Client(Info(0.0, 0.0, 0.0, 0.0, 0, 0), false, 0)
    {
      rttinfo := new RttInfo();
      rttinit, seqno := false, 0;
    }

    /** The whole call, begun at `now` with its first transmission at `at`; `sent` lists the
        headers put on the wire. */
    method SendRecv(inbytes: nat, now: nat, at: nat, evs: seq<Event>)
      returns (outcome: Outcome, sent: seq<Header>, ghost end: nat)
      modifies this, rttinfo
      ensures var c := Begin(old(View()), now);
              && Served(View(), outcome, sent) == Serve(c, inbytes, evs, [Stamp(c, at)])
              && Ends(c, inbytes, evs, end, outcome, [Stamp(c, at)], sent)
    {
      if !rttinit {
        rttinfo.RttInit(now);
        rttinit := true;
      }
      seqno := (seqno + 1) % WRAP32;
      rttinfo.RttNewPack();
      ghost var c := View();
      sent := [Header(seqno, Timestamp(rttinfo.View(), at))];
      ghost var first := sent;
      end := HowItEnds(c, inbytes, evs, first);
      hide Ends;
      var i := 0;
      assert evs[0..] == evs;
      while i < |evs|
        invariant 0 <= i <= |evs|
        invariant Serve(c, inbytes, evs, first) == Serve(View(), inbytes, evs[i..], sent)
      {
        var ev := evs[i];
        assert evs[i..][0] == ev && evs[i..][1..] == evs[i + 1..];
        i := i + 1;
        match ev {
          case Short =>
          case Alarm(t) =>
            var gaveUp := rttinfo.RttTimeout();
            if gaveUp {
              rttinit := false;
              return TimedOut, sent, end;
            }
            sent := sent + [Header(seqno, Timestamp(rttinfo.View(), t))];
          case Arrival(t, h, data) =>
            if h.seqno == seqno {
              rttinfo.RttStop((Timestamp(rttinfo.View(), t) - h.ts) % WRAP32);
              return Reply(Prefix(data, inbytes)), sent, end;
            }
        }
      }
      assert evs[i..] == [];
      return Blocked, sent, end;
    }
  }
}
