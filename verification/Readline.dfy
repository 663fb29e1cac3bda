/** Reading lines: the buffered readline (lib/readline.c) and the one that reads a byte at a
    time (20251106-SocketC/src/wraplib.c), over a connection that delivers its bytes in
    pieces of any size. */
module Readline {
  import opened Basics

  const NEWLINE: byte := 10

  /** What is still to come on a connection: bytes, and errors between them. */
  datatype Item = Byte(b: byte) | Fault

  function Items(bytes: seq<byte>): (r: seq<Item>)
    ensures |r| == |bytes| && forall i | 0 <= i < |r| :: r[i] == Byte(bytes[i])
  {
    seq(|bytes|, i requires 0 <= i < |bytes| => Byte(bytes[i]))
  }

  lemma ItemsTail(c: byte, bytes: seq<byte>)
    ensures Items([c] + bytes) == [Byte(c)] + Items(bytes)
  {
  }

  // ---- a line of a stream ----

  /** The bytes stored, the value returned, and what is left of the stream. */
  datatype Outcome = Outcome(line: seq<byte>, ret: int, rest: seq<Item>)

  /** The loop of readline over the stream itself, one item at a time. */
  function Next(u: seq<Item>, n: nat, maxlen: nat, line: seq<byte>): Outcome
    requires n > 0
    decreases |u|
  {
    if n >= maxlen then Outcome(line, n, u)
    else if u == [] then Outcome(line, n - 1, u)
    else if u[0].Fault? then Outcome(line, -1, u[1..])
    else if u[0].b == NEWLINE then Outcome(line + [NEWLINE], n, u[1..])
    else Next(u[1..], n + 1, maxlen, line + [u[0].b])
  }

  function LineOf(u: seq<Item>, maxlen: nat): Outcome {
    Next(u, 1, maxlen, [])
  }

  /** The items a call takes from the stream. */
  function Taken(o: Outcome): seq<Item> {
    Items(o.line) + if o.ret == -1 then [Fault] else []
  }

  predicate Ended(line: seq<byte>) {
    line != [] && line[|line| - 1] == NEWLINE
  }

  function LastOf(line: seq<byte>): seq<byte> {
    if line == [] then [] else line[..|line| - 1]
  }

  /** Nothing is lost or repeated: what a call stored, and the error it met, come first in
      the stream, then what it leaves. */
  lemma {:induction false} NextConserves(u: seq<Item>, n: nat, maxlen: nat, line: seq<byte>)
    requires n > 0
    ensures var o := Next(u, n, maxlen, line);
            |line| <= |o.line| && o.line[..|line|] == line && Items(line) + u == Taken(o) + o.rest
    decreases |u|
  {
    if n < maxlen && u != [] && !u[0].Fault? {
      var b := u[0].b;
      assert Items(line + [b]) == Items(line) + [Byte(b)];
      assert Items(line) + u == Items(line + [b]) + u[1..];
      if b != NEWLINE {
        NextConserves(u[1..], n + 1, maxlen, line + [b]);
      }
    }
  }

  lemma {:induction false} LineConserves(u: seq<Item>, maxlen: nat)
    ensures u == Taken(LineOf(u, maxlen)) + LineOf(u, maxlen).rest
  {
    NextConserves(u, 1, maxlen, []);
    assert Items([]) + u == u;
  }

  /** How a call ends: at a newline, which is only ever the last byte stored; when there is
      no more room; at the end of the stream; or at an error. */
  lemma {:induction false} NextEnds(u: seq<Item>, n: nat, maxlen: nat, line: seq<byte>)
    requires n == |line| + 1 && NEWLINE !in line
    ensures var o := Next(u, n, maxlen, line);
            && NEWLINE !in LastOf(o.line) && |o.line| >= |line|
            && (|o.line| < maxlen || |o.line| == |line|)
            && (o.ret >= 0 && !Ended(o.line) && |o.line| + 1 < maxlen ==> o.rest == [])
            && (o.ret == -1 ==> !Ended(o.line) && |o.line| + 1 < maxlen)
            && (o.ret >= 0 ==> o.ret == |o.line| + if !Ended(o.line) && |o.line| + 1 >= maxlen then 1 else 0)
            && o.ret >= -1
    decreases |u|
  {
    if n < maxlen && u != [] && !u[0].Fault? {
      if u[0].b != NEWLINE {
        NextEnds(u[1..], n + 1, maxlen, line + [u[0].b]);
      } else {
        assert LastOf(line + [NEWLINE]) == line;
      }
    }
  }

  /** The stream has no newline, end or error within the room. */
  predicate NoEndWithin(u: seq<Item>, room: int) {
    room <= |u| && forall i | 0 <= i < room :: u[i].Byte? && u[i].b != NEWLINE
  }

  lemma {:induction false} NoEndTail(x: Item, u: seq<Item>, room: nat)
    requires x.Byte? && x.b != NEWLINE
    ensures NoEndWithin([x] + u, room + 1) <==> NoEndWithin(u, room)
  {
    var u' := [x] + u;
    assert forall i | 0 <= i < |u| :: u[i] == u'[i + 1];
    assert forall i | 0 <= i < |u'| :: u'[i] == if i == 0 then x else u[i - 1];
  }

  /** Within the room an error comes before any newline. */
  ghost predicate FaultWithin(u: seq<Item>, room: int) {
    exists k | 0 <= k < room && k < |u| :: u[k].Fault? && NoEndWithin(u, k)
  }

  lemma {:induction false} FaultTail(x: Item, u: seq<Item>, room: nat)
    requires x.Byte? && x.b != NEWLINE
    ensures FaultWithin([x] + u, room + 1) <==> FaultWithin(u, room)
  {
    var u' := [x] + u;
    if k :| 0 <= k < room && k < |u| && u[k].Fault? && NoEndWithin(u, k) {
      NoEndTail(x, u, k);
      assert u'[k + 1].Fault? && NoEndWithin(u', k + 1);
    }
    if k :| 0 <= k < room + 1 && k < |u'| && u'[k].Fault? && NoEndWithin(u', k) {
      NoEndTail(x, u, k - 1);
      assert u[k - 1].Fault? && NoEndWithin(u, k - 1);
    }
  }

  lemma {:induction false} NextCut(u: seq<Item>, n: nat, maxlen: nat, line: seq<byte>)
    requires n == |line| + 1
    ensures var o := Next(u, n, maxlen, line);
            if NoEndWithin(u, maxlen - n) then o.ret == |o.line| + 1
            else if FaultWithin(u, maxlen - n) then o.ret == -1 else o.ret == |o.line|
    decreases |u|
  {
    if n < maxlen && u != [] {
      assert u == [u[0]] + u[1..];
      if !u[0].Fault? && u[0].b != NEWLINE {
        NextCut(u[1..], n + 1, maxlen, line + [u[0].b]);
        NoEndTail(u[0], u[1..], maxlen - n - 1);
        FaultTail(u[0], u[1..], maxlen - n - 1);
        hide NoEndWithin, FaultWithin;
      } else if u[0].Fault? {
        assert u[0].Fault? && NoEndWithin(u, 0);
      }
    }
  }

  /** The value returned is one more than the bytes stored if and only if the line does not end
      within the room it is given; it is -1 if and only if an error comes first; and otherwise
      it is the number of bytes stored. */
  lemma {:induction false} ReturnIsLengthIff(u: seq<Item>, maxlen: nat)
    ensures var o := LineOf(u, maxlen);
            && (o.ret == |o.line| + 1 <==> NoEndWithin(u, maxlen - 1))
            && (o.ret == -1 <==> FaultWithin(u, maxlen - 1))
            && (o.ret == |o.line| <==> !NoEndWithin(u, maxlen - 1) && !FaultWithin(u, maxlen - 1))
  {
    NextCut(u, 1, maxlen, []);
    NotBoth(u, maxlen - 1);
    hide Next, FaultWithin, NoEndWithin;
  }

  lemma NotBoth(u: seq<Item>, room: int)
    ensures NoEndWithin(u, room) ==> !FaultWithin(u, room)
  {
  }

  /** A four-byte line read with maxlen 4: three bytes are stored and 4 is returned. */
  lemma {:induction false} CutLine()
    ensures var u := Items([97, 98, 99, NEWLINE]);
            LineOf(u, 4) == Outcome([97, 98, 99], 4, [Byte(NEWLINE)])
  {
    var u := Items([97, 98, 99, NEWLINE]);
    var u1, u2, u3 := u[1..], u[2..], u[3..];
    assert u[1..][1..] == u2 && u2[1..] == u3 && u3 == [Byte(NEWLINE)];
    var l1: seq<byte>, l2: seq<byte>, l3: seq<byte> := [97], [97, 98], [97, 98, 99];
    assert [] + l1 == l1 && l1 + [98] == l2 && l2 + [99] == l3;
    calc {
      Next(u, 1, 4, []);
      Next(u1, 2, 4, l1);
      Next(u2, 3, 4, l2);
      Next(u3, 4, 4, l3);
    }
  }

  /** Calls one after the other, each with its own room. */
  function Calls(u: seq<Item>, lens: seq<nat>): seq<Outcome>
    decreases |lens|
  {
    if lens == [] then []
    else
      var o := LineOf(u, lens[0]);
      [o] + Calls(o.rest, lens[1..])
  }

  function AllTaken(os: seq<Outcome>): seq<Item> {
    if os == [] then [] else Taken(os[0]) + AllTaken(os[1..])
  }

  function Left(u: seq<Item>, lens: seq<nat>): seq<Item>
    decreases |lens|
  {
    if lens == [] then u else Left(LineOf(u, lens[0]).rest, lens[1..])
  }

  lemma {:induction false} CallsConserve(u: seq<Item>, lens: seq<nat>)
    ensures u == AllTaken(Calls(u, lens)) + Left(u, lens)
    decreases |lens|
  {
    hide LineOf, Taken;
    if lens != [] {
      var o := LineOf(u, lens[0]);
      LineConserves(u, lens[0]);
      CallsConserve(o.rest, lens[1..]);
      assert Calls(u, lens)[1..] == Calls(o.rest, lens[1..]);
    }
  }

  lemma {:induction false} CallsMore(u: seq<Item>, lens: seq<nat>, k: nat)
    requires k < |lens|
    ensures var left := Left(u, lens[..k]);
            && Calls(u, lens[..k + 1]) == Calls(u, lens[..k]) + [LineOf(left, lens[k])]
            && Left(u, lens[..k + 1]) == LineOf(left, lens[k]).rest
    decreases k
  {
    hide LineOf;
    if k == 0 {
      assert lens[..1] == [lens[0]] && lens[..1][1..] == [];
    } else {
      var o := LineOf(u, lens[0]);
      CallsMore(o.rest, lens[1..], k - 1);
      assert lens[..k + 1][1..] == lens[1..][..k] && lens[..k][1..] == lens[1..][..k - 1];
    }
  }

  // ---- the connection ----

  datatype Result = Got(data: seq<byte>) | Eof | Interrupted | Failed

  /** `plan` is what each call of read does: 0, it is interrupted; otherwise the most bytes it
      delivers.  After that it delivers all there is room for. */
  class Kernel {
    var rest: seq<Item>
    var plan: seq<nat>

    constructor (stream: seq<Item>, plan: seq<nat>)
      ensures rest == stream && this.plan == plan
    {
      rest, this.plan := stream, plan;
    }

    method Read(size: nat) returns (r: Result)
      requires size > 0
      modifies this
      ensures r.Got? ==> 1 <= |r.data| <= size && old(rest) == Items(r.data) + rest
      ensures r.Eof? ==> old(rest) == [] && rest == []
      ensures r.Failed? ==> |old(rest)| > 0 && old(rest)[0].Fault? && rest == old(rest)[1..]
      ensures r.Interrupted? ==> rest == old(rest)
      ensures r.Interrupted? <==> |old(plan)| > 0 && old(plan)[0] == 0
      ensures plan == if old(plan) == [] then [] else old(plan)[1..]
    {
      var most := size;
      if plan != [] {
        most := if plan[0] < size then plan[0] else size;
        plan := plan[1..];
        if most == 0 {
          return Interrupted;
        }
      }
      if rest == [] {
        return Eof;
      }
      if rest[0].Fault? {
        rest := rest[1..];
        return Failed;
      }
      var data: seq<byte>, i := [rest[0].b], 1;
      while i < most && i < |rest| && rest[i].Byte?
        invariant 1 <= i <= most && i <= |rest| && Items(data) == rest[..i] && rest == old(rest)
      {
        data, i := data + [rest[i].b], i + 1;
      }
      rest := rest[i..];
      r := Got(data);
    }
  }

  // ---- lib/readline.c ----

  /** The static variables of the buffered readline, and its connection. */
  class Reader {
    const kernel: Kernel
    const readBuf: array<byte>
    var readCnt: int
    var readPtr: nat

    ghost predicate Valid()
      reads this
    {
      readBuf.Length == MAXLINE && readCnt <= MAXLINE && readPtr + (if readCnt > 0 then readCnt else 0) <= MAXLINE
    }

    /** The bytes read from the connection and not yet returned. */
    ghost function Buffered(): seq<byte>
      requires Valid()
      reads this, readBuf
    {
      if readCnt > 0 then readBuf[readPtr..readPtr + readCnt] else []
    }

    ghost function Unread(): seq<Item>
      requires Valid()
      reads this, readBuf, kernel
    {
      Items(Buffered()) + kernel.rest
    }

    constructor (kernel: Kernel)
      ensures Valid() && this.kernel == kernel && fresh(readBuf) && Unread() == kernel.rest && readCnt == 0
    {
      this.kernel, readCnt, readPtr := kernel, 0, 0;
      readBuf := new byte[MAXLINE];
    }

    /** Fill the buffer again.  An interrupted call is repeated. */
    method Refill() returns (rc: int)
      requires Valid() && readCnt <= 0
      modifies this, readBuf, kernel
      ensures Valid()
      ensures rc == 1 || rc == 0 || rc == -1
      ensures rc == 1 ==> readCnt > 0 && Unread() == old(kernel.rest)
      ensures rc == 0 ==> readCnt == 0 && old(kernel.rest) == [] && kernel.rest == []
      ensures rc == -1 ==> readCnt == -1 && |old(kernel.rest)| > 0 && old(kernel.rest)[0].Fault?
      ensures rc == -1 ==> kernel.rest == old(kernel.rest)[1..]
    {
      var r := kernel.Read(MAXLINE);
      while r.Interrupted?
        invariant Valid() && readCnt <= 0
        invariant r.Got? ==> 1 <= |r.data| <= MAXLINE && old(kernel.rest) == Items(r.data) + kernel.rest
        invariant r.Eof? ==> old(kernel.rest) == [] && kernel.rest == []
        invariant r.Failed? ==> |old(kernel.rest)| > 0 && old(kernel.rest)[0].Fault?
        invariant r.Failed? ==> kernel.rest == old(kernel.rest)[1..]
        invariant r.Interrupted? ==> kernel.rest == old(kernel.rest)
        decreases r.Interrupted?, |kernel.plan|
      {
        r := kernel.Read(MAXLINE);
      }
      match r {
        case Got(data) =>
          forall i | 0 <= i < |data| {
            readBuf[i] := data[i];
          }
          readCnt, readPtr := |data|, 0;
          assert Buffered() == data;
          rc := 1;
        case Eof =>
          readCnt := 0;
          rc := 0;
        case Failed =>
          readCnt := -1;
          rc := -1;
      }
    }

    method TakeByte() returns (c: byte)
      requires Valid() && readCnt > 0
      modifies this
      ensures Valid() && old(Unread()) == [Byte(c)] + Unread()
    {
      ghost var before, unread := Buffered(), Unread();
      readCnt := readCnt - 1;
      c := readBuf[readPtr];
      readPtr := readPtr + 1;
      assert before == [c] + Buffered();
      ItemsTail(c, Buffered());
      assert unread == [Byte(c)] + Items(Buffered()) + kernel.rest;
    }

    /** One byte, from the buffer if there is one there. */
    method MyRead() returns (rc: int, c: byte)
      requires Valid()
      modifies this, readBuf, kernel
      ensures Valid()
      ensures old(Unread()) == [] ==> rc == 0 && Unread() == []
      ensures old(Unread()) != [] ==> Unread() == old(Unread())[1..]
      ensures old(Unread()) != [] ==> rc == if old(Unread())[0].Fault? then -1 else 1
      ensures rc == 1 ==> old(Unread())[0] == Byte(c)
    {
      c := 0;
      if readCnt <= 0 {
        assert Unread() == kernel.rest;
        rc := Refill();
        if rc <= 0 {
          assert Unread() == kernel.rest;
          return;
        }
      }
      assert Unread() == old(Unread());
      hide *;
      c := TakeByte();
      rc := 1;
    }

    /** Whatever the pieces the bytes come in and the interruptions between them, the result
        is that of the loop over the stream. */
    method ReadLine(maxlen: nat) returns (ret: int, line: seq<byte>)
      requires Valid()
      modifies this, readBuf, kernel
      ensures Valid() && Outcome(line, ret, Unread()) == LineOf(old(Unread()), maxlen)
    {
      var n: nat := 1;
      line := [];
      while n < maxlen
        invariant Valid() && n > 0
        invariant Next(Unread(), n, maxlen, line) == LineOf(old(Unread()), maxlen)
      {
        var rc, c := MyRead();
        if rc == 1 {
          line := line + [c];
          if c == NEWLINE {
            return n, line;
          }
        } else if rc == 0 {
          return n - 1, line;
        } else {
          return -1, line;
        }
        n := n + 1;
      }
      ret := n;
    }

    /** The rest of the buffer: with what the connection still holds, exactly what is unread. */
    method ReadLineBuf() returns (n: int, bytes: seq<byte>)
      requires Valid()
      ensures n == readCnt && bytes == Buffered() && Unread() == Items(bytes) + kernel.rest
      ensures n > 0 ==> |bytes| == n
    {
      bytes := [];
      if readCnt > 0 {
        bytes := readBuf[readPtr..readPtr + readCnt];
      }
      n := readCnt;
    }
  }

  // ---- wraplib.c ----

  /** The reads a call makes that is not interrupted. */
  function Reads(u: seq<Item>, n: nat, maxlen: nat): nat
    decreases |u|
  {
    if n >= maxlen then 0
    else if u == [] || u[0].Fault? || u[0].b == NEWLINE then 1
    else 1 + Reads(u[1..], n + 1, maxlen)
  }

  /** One of the first `k` reads is interrupted. */
  predicate Breaks(plan: seq<nat>, k: nat) {
    exists j | 0 <= j < k && j < |plan| :: plan[j] == 0
  }

  function Drop(plan: seq<nat>, k: nat): seq<nat> {
    if k <= |plan| then plan[k..] else []
  }

  lemma {:induction false} BreaksTail(plan: seq<nat>, k: nat)
    ensures Breaks(plan, k + 1) <==> (plan != [] && plan[0] == 0) || Breaks(Drop(plan, 1), k)
    ensures Drop(plan, k + 1) == Drop(Drop(plan, 1), k)
  {
    var rest := Drop(plan, 1);
    if j :| 0 <= j < k + 1 && j < |plan| && plan[j] == 0 {
      assert j > 0 ==> rest[j - 1] == 0;
    }
    if j :| 0 <= j < k && j < |rest| && rest[j] == 0 {
      assert plan[j + 1] == 0;
    }
  }

  /** A byte at a time.  The program ends exactly when a call meets an error or one of the reads
      it makes is interrupted; otherwise the result is that of the loop over the stream. */
  method ReadLineByBytes(kernel: Kernel, maxlen: nat) returns (exits: bool, ret: int, line: seq<byte>)
    modifies kernel
    ensures exits <==> LineOf(old(kernel.rest), maxlen).ret == -1
                       || Breaks(old(kernel.plan), Reads(old(kernel.rest), 1, maxlen))
    ensures !exits ==> ret >= 0 && Outcome(line, ret, kernel.rest) == LineOf(old(kernel.rest), maxlen)
    ensures !exits ==> kernel.plan == Drop(old(kernel.plan), Reads(old(kernel.rest), 1, maxlen))
  {
    ghost var u, plan := kernel.rest, kernel.plan;
    var n: nat := 1;
    line := [];
    while n < maxlen
      invariant n > 0
      invariant Next(kernel.rest, n, maxlen, line) == LineOf(u, maxlen)
      invariant Breaks(kernel.plan, Reads(kernel.rest, n, maxlen)) <==> Breaks(plan, Reads(u, 1, maxlen))
      invariant Drop(kernel.plan, Reads(kernel.rest, n, maxlen)) == Drop(plan, Reads(u, 1, maxlen))
    {
      ghost var more := Reads(kernel.rest, n, maxlen) - 1;
      BreaksTail(kernel.plan, more);
      hide Breaks, LineOf;
      var r := kernel.Read(1);
      match r {
        case Got(data) =>
          var c := data[0];
          line := line + [c];
          if c == NEWLINE {
            NoneBreak(kernel.plan);
            return false, n, line;
          }
        case Eof =>
          NoneBreak(kernel.plan);
          return false, n - 1, line;
        case _ =>
          return true, 0, line;
      }
      n := n + 1;
    }
    NoneBreak(kernel.plan);
    return false, n, line;
  }

  lemma NoneBreak(plan: seq<nat>)
    ensures !Breaks(plan, 0) && Drop(plan, 0) == plan
  {
  }

  // ---- call after call ----

  /** The first `k` calls have returned, with these lines and values, and left this. */
  ghost predicate Returned(u: seq<Item>, lens: seq<nat>, k: nat, rest: seq<Item>, outs: seq<(seq<byte>, int)>) {
    k == |outs| <= |lens| && rest == Left(u, lens[..k]) && Agree(outs, Calls(u, lens[..k]))
  }

  lemma ReturnedNone(u: seq<Item>, lens: seq<nat>)
    ensures Returned(u, lens, 0, u, [])
  {
  }

  lemma {:induction false} ReturnedMore(u: seq<Item>, lens: seq<nat>, k: nat, rest: seq<Item>,
                                        outs: seq<(seq<byte>, int)>, o: Outcome)
    requires Returned(u, lens, k, rest, outs) && k < |lens| && o == LineOf(rest, lens[k])
    ensures Returned(u, lens, k + 1, o.rest, outs + [(o.line, o.ret)])
  {
    hide LineOf;
    CallsMore(u, lens, k);
  }

  lemma {:induction false} ReturnedAll(u: seq<Item>, lens: seq<nat>, rest: seq<Item>, outs: seq<(seq<byte>, int)>)
    requires Returned(u, lens, |lens|, rest, outs)
    ensures rest == Left(u, lens) && Agree(outs, Calls(u, lens))
  {
    assert lens[..|lens|] == lens;
  }

  /** Both ways of reading give the same lines and values for the same bytes, call after call,
      until the one that reads by bytes ends the program. */
  method ReadLines(reader: Reader, lens: seq<nat>) returns (outs: seq<(seq<byte>, int)>)
    requires reader.Valid()
    modifies reader, reader.readBuf, reader.kernel
    ensures reader.Valid() && reader.Unread() == Left(old(reader.Unread()), lens)
    ensures Agree(outs, Calls(old(reader.Unread()), lens))
  {
    ghost var u := reader.Unread();
    outs := [];
    ReturnedNone(u, lens);
    hide LineOf, Left, Calls, Agree, Returned;
    for k := 0 to |lens|
      invariant reader.Valid() && Returned(u, lens, k, reader.Unread(), outs)
    {
      ReturnedMore(u, lens, k, reader.Unread(), outs, LineOf(reader.Unread(), lens[k]));
      var ret, line := reader.ReadLine(lens[k]);
      outs := outs + [(line, ret)];
    }
    ReturnedAll(u, lens, reader.Unread(), outs);
  }

  /** The reads all the calls make. */
  function AllReads(u: seq<Item>, lens: seq<nat>): nat
    decreases lens
  {
    if lens == [] then 0
    else Reads(u, 1, lens[0]) + AllReads(LineOf(u, lens[0]).rest, lens[1..])
  }

  lemma {:induction false} AllReadsMore(u: seq<Item>, lens: seq<nat>, k: nat)
    requires k < |lens|
    ensures AllReads(u, lens[..k + 1]) == AllReads(u, lens[..k]) + Reads(Left(u, lens[..k]), 1, lens[k])
    decreases k
  {
    hide LineOf, Reads;
    if k == 0 {
      assert lens[..1] == [lens[0]] && lens[..1][1..] == [];
    } else {
      AllReadsMore(LineOf(u, lens[0]).rest, lens[1..], k - 1);
      assert lens[..k + 1][1..] == lens[1..][..k] && lens[..k][1..] == lens[1..][..k - 1];
    }
  }

  /** The `k`-th call would end the program: it meets an error, or one of its reads is interrupted. */
  predicate EndsAt(u: seq<Item>, plan: seq<nat>, lens: seq<nat>, k: nat)
    requires k < |lens|
  {
    var left := Left(u, lens[..k]);
    LineOf(left, lens[k]).ret == -1 || Breaks(Drop(plan, AllReads(u, lens[..k])), Reads(left, 1, lens[k]))
  }

  /** None of the first `k` calls ended the program, and this is left of the plan. */
  ghost predicate Unbroken(u: seq<Item>, plan: seq<nat>, lens: seq<nat>, k: nat, now: seq<nat>) {
    k <= |lens| && now == Drop(plan, AllReads(u, lens[..k])) && forall j | 0 <= j < k :: !EndsAt(u, plan, lens, j)
  }

  lemma UnbrokenNone(u: seq<Item>, plan: seq<nat>, lens: seq<nat>)
    ensures Unbroken(u, plan, lens, 0, plan)
  {
  }

  lemma {:induction false} EndsHere(u: seq<Item>, plan: seq<nat>, lens: seq<nat>, k: nat, rest: seq<Item>,
                                    outs: seq<(seq<byte>, int)>, now: seq<nat>)
    requires Returned(u, lens, k, rest, outs) && Unbroken(u, plan, lens, k, now) && k < |lens|
    ensures EndsAt(u, plan, lens, k) <==> LineOf(rest, lens[k]).ret == -1 || Breaks(now, Reads(rest, 1, lens[k]))
    ensures !EndsAt(u, plan, lens, k) ==> Unbroken(u, plan, lens, k + 1, Drop(now, Reads(rest, 1, lens[k])))
  {
    hide LineOf, Reads, Breaks, Drop, Calls, Left;
    AllReadsMore(u, lens, k);
    DropDrop(plan, AllReads(u, lens[..k]), Reads(rest, 1, lens[k]));
  }

  /** The one-byte form gives the same lines up to the first call that ends the program. */
  method ReadLinesByBytes(kernel: Kernel, lens: seq<nat>) returns (exits: bool, outs: seq<(seq<byte>, int)>)
    modifies kernel
    ensures |outs| <= |lens| && Agree(outs, Calls(old(kernel.rest), lens[..|outs|]))
    ensures exits <==> |outs| < |lens|
    ensures forall k | 0 <= k < |outs| :: !EndsAt(old(kernel.rest), old(kernel.plan), lens, k)
    ensures exits ==> EndsAt(old(kernel.rest), old(kernel.plan), lens, |outs|)
    ensures !exits ==> kernel.rest == Left(old(kernel.rest), lens)
  {
    ghost var u, plan := kernel.rest, kernel.plan;
    exits, outs := false, [];
    ReturnedNone(u, lens);
    UnbrokenNone(u, plan, lens);
    hide LineOf, Reads, Breaks, Drop, EndsAt, AllReads, Left, Calls, Agree;
    for k := 0 to |lens|
      invariant !exits && |outs| == k
      invariant Returned(u, lens, k, kernel.rest, outs) && Unbroken(u, plan, lens, k, kernel.plan)
    {
      EndsHere(u, plan, lens, k, kernel.rest, outs, kernel.plan);
      ReturnedMore(u, lens, k, kernel.rest, outs, LineOf(kernel.rest, lens[k]));
      var ret, line;
      exits, ret, line := ReadLineByBytes(kernel, lens[k]);
      if exits {
        return;
      }
      outs := outs + [(line, ret)];
    }
    ReturnedAll(u, lens, kernel.rest, outs);
  }

  lemma DropDrop(plan: seq<nat>, i: nat, j: nat)
    ensures Drop(Drop(plan, i), j) == Drop(plan, i + j)
  {
  }

  /** An interrupted call: the form that reads by bytes ends the program, the buffered one
      returns the line. */
  method InterruptedCall() returns (exits: bool, ret: int, line: seq<byte>)
    ensures exits && ret == 1 && line == [NEWLINE]
  {
    var u, plan := [Byte(NEWLINE)], [0];
    assert Breaks(plan, Reads(u, 1, 80)) by {
      assert plan[0] == 0;
    }
    assert LineOf(u, 80) == Outcome([NEWLINE], 1, []);
    hide LineOf, Breaks;
    var kernel := new Kernel(u, plan);
    var got;
    exits, ret, got := ReadLineByBytes(kernel, 80);
    kernel := new Kernel(u, plan);
    var reader := new Reader(kernel);
    assert reader.Unread() == u;
    ret, line := reader.ReadLine(80);
  }

  predicate Agree(outs: seq<(seq<byte>, int)>, os: seq<Outcome>) {
    |outs| == |os| && forall i | 0 <= i < |outs| :: outs[i].0 == os[i].line && outs[i].1 == os[i].ret
  }
}
