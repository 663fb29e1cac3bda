/** The preforked server: a parent that accepts connections and passes each to an idle child
    over a stream pipe (server/serv05.c, server/child05.c). */
module Prefork {
  import opened Basics

  /** A child waits for a descriptor, serves a connection, or is about to report. */
  datatype Phase = Receiving | Serving(conn: nat) | Reporting

  /** `status` and `count` are the parent's; `inbox` holds descriptors on their way to the
      child and `ready` counts the bytes on their way back.  Connections are numbered in the
      order they are accepted; `given` and `served` only record them. */
  datatype Child = Child(status: int, count: nat, inbox: seq<nat>, phase: Phase, ready: nat,
                         given: seq<nat>, served: seq<nat>)

  datatype Dispatcher = Top | Accept | Scan(i: nat) | Quit

  /** `listen` and `rset` are what select reported; `done` records which pipes were read since. */
  datatype State = State(parent: Dispatcher, navail: int, nsel: int, listen: bool, rset: seq<bool>, done: seq<bool>,
                         kids: seq<Child>, backlog: nat, owners: seq<nat>)

  /** A client connects; select returns; the parent goes on; child `i` takes a descriptor,
      finishes its connection, or reports. */
  datatype Action =
    | Connect | Select(listen: bool, rset: seq<bool>) | Parent
    | Take(i: nat) | Finish(i: nat) | Report(i: nat)

  const FORKED := Child(0, 0, [], Receiving, 0, [], [])

  /** `n` children have been made. */
  ghost predicate Starts(s: State, n: nat) {
    && s.parent.Top? && s.navail == n && s.backlog == 0 && |s.owners| == 0
    && |s.kids| == n && (forall i | 0 <= i < n :: s.kids[i] == FORKED)
    && |s.rset| == n && s.done == s.rset
  }

  function CountFrom(rset: seq<bool>, i: nat): nat
    decreases |rset| - i
  {
    if i >= |rset| then 0 else (if rset[i] then 1 else 0) + CountFrom(rset, i + 1)
  }

  /** The listening descriptor is left out when no child is available. */
  predicate Reports(s: State, listen: bool, rset: seq<bool>) {
    && |rset| == |s.kids| && (listen ==> s.backlog > 0 && s.navail > 0)
    && (forall i | 0 <= i < |rset| :: rset[i] ==> s.kids[i].ready > 0)
    && (listen || CountFrom(rset, 0) > 0)
  }

  predicate Enabled(s: State, a: Action) {
    match a
    case Connect => true
    case Select(listen, rset) => s.parent.Top? && Reports(s, listen, rset)
    case Parent =>
      (match s.parent
       case Accept => s.backlog > 0
       case Scan(i) => i < |s.kids| && i < |s.rset| ==> (s.rset[i] ==> s.kids[i].ready > 0)
       case _ => false)
    case Take(i) => i < |s.kids| && s.kids[i].phase.Receiving? && s.kids[i].inbox != []
    case Finish(i) => i < |s.kids| && s.kids[i].phase.Serving?
    case Report(i) => i < |s.kids| && s.kids[i].phase.Reporting?
  }

  /** The first child with status 0; their number if there is none. */
  function FirstIdle(kids: seq<Child>, i: nat): (k: nat)
    requires i <= |kids|
    ensures i <= k <= |kids|
    ensures k < |kids| ==> kids[k].status == 0
    ensures forall j | i <= j < k :: kids[j].status != 0
    decreases |kids| - i
  {
    if i == |kids| || kids[i].status == 0 then i else FirstIdle(kids, i + 1)
  }

  function Given1(c: Child, conn: nat): Child {
    c.(status := 1, count := c.count + 1, inbox := c.inbox + [conn], given := c.given + [conn])
  }

  function AcceptStep(s: State): State {
    var i := FirstIdle(s.kids, 0);
    if i == |s.kids| then s.(parent := Quit)
    else
      s.(kids := s.kids[i := Given1(s.kids[i], |s.owners|)], owners := s.owners + [i],
         backlog := if s.backlog > 0 then s.backlog - 1 else 0, navail := s.navail - 1, nsel := s.nsel - 1,
         parent := if s.nsel - 1 == 0 then Top else Scan(0))
  }

  function ScanStep(s: State, i: nat): State {
    if i >= |s.kids| then s.(parent := Top)
    else if i < |s.rset| && i < |s.done| && s.rset[i] then
      var c := s.kids[i];
      s.(kids := s.kids[i := c.(status := 0, ready := if c.ready > 0 then c.ready - 1 else 0)],
         navail := s.navail + 1, nsel := s.nsel - 1, done := s.done[i := true],
         parent := if s.nsel - 1 == 0 then Top else Scan(i + 1))
    else s.(parent := Scan(i + 1))
  }

  /** What a child does, in its own part of the state. */
  function Taken(c: Child): Child {
    if c.inbox == [] then c else c.(phase := Serving(c.inbox[0]), inbox := c.inbox[1..])
  }

  function Finished(c: Child): Child {
    if c.phase.Serving? then c.(phase := Reporting, served := c.served + [c.phase.conn]) else c
  }

  function Reported(c: Child): Child {
    c.(phase := Receiving, ready := c.ready + 1)
  }

  function Step(s: State, a: Action): State
    requires Enabled(s, a)
  {
    match a
    case Connect => s.(backlog := s.backlog + 1)
    case Select(listen, rset) =>
      s.(listen := listen, rset := rset, done := seq(|rset|, _ => false),
         nsel := CountFrom(rset, 0) + (if listen then 1 else 0), parent := if listen then Accept else Scan(0))
    case Parent => if s.parent.Accept? then AcceptStep(s) else if s.parent.Scan? then ScanStep(s, s.parent.i) else s
    case Take(i) => s.(kids := s.kids[i := Taken(s.kids[i])])
    case Finish(i) => s.(kids := s.kids[i := Finished(s.kids[i])])
    case Report(i) => s.(kids := s.kids[i := Reported(s.kids[i])])
  }

  /** The state a run ends in; none if some action was not possible. */
  function Run(start: State, acts: seq<Action>): Option<State> {
    if acts == [] then Some(start)
    else
      var r, a := Run(start, acts[..|acts| - 1]), acts[|acts| - 1];
      if r.Some? && Enabled(r.value, a) then Some(Step(r.value, a)) else None
  }

  // ---- invariants ----

  function Busy(p: Phase): nat {
    if p.Receiving? then 0 else 1
  }

  function Current(p: Phase): seq<nat> {
    if p.Serving? then [p.conn] else []
  }

  /** A busy child has exactly one of: a descriptor in flight, a connection in progress, and
      a ready byte in flight; an idle one has none.  Everything it was given it has served,
      is serving, or will serve, in this order. */
  predicate KidOk(c: Child) {
    && (c.status == 0 || c.status == 1)
    && |c.inbox| + Busy(c.phase) + c.ready == c.status
    && c.count == |c.given| && c.given == c.served + Current(c.phase) + c.inbox
  }

  predicate KidsOk(kids: seq<Child>) {
    forall i | 0 <= i < |kids| :: KidOk(kids[i])
  }

  function Avail(kids: seq<Child>): nat {
    if kids == [] then 0
    else Avail(kids[..|kids| - 1]) + (if kids[|kids| - 1].status == 0 then 1 else 0)
  }

  predicate GivenOk(kids: seq<Child>, owners: seq<nat>) {
    && (forall k | 0 <= k < |owners| :: owners[k] < |kids|)
    && (forall i | 0 <= i < |kids| :: kids[i].given == Given(owners, i))
  }

  /** A pipe that was reported stays readable until it is read. */
  predicate RsetOk(rset: seq<bool>, kids: seq<Child>, i: nat) {
    |rset| == |kids| && forall j | i <= j < |rset| :: rset[j] ==> kids[j].ready > 0
  }

  predicate DoneOk(done: seq<bool>, rset: seq<bool>, i: nat) {
    |done| == |rset| && forall j | 0 <= j < |rset| :: done[j] == (rset[j] && j < i)
  }

  predicate ParentOk(s: State) {
    match s.parent
    case Top => s.done == s.rset && |s.rset| == |s.kids|
    case Accept =>
      && s.listen && s.navail > 0 && s.backlog > 0 && s.nsel == 1 + CountFrom(s.rset, 0)
      && RsetOk(s.rset, s.kids, 0) && DoneOk(s.done, s.rset, 0)
    case Scan(i) =>
      && i < |s.kids| && s.nsel == CountFrom(s.rset, i) && s.nsel > 0
      && RsetOk(s.rset, s.kids, i) && DoneOk(s.done, s.rset, i)
    case Quit => false
  }

  predicate Inv(s: State) {
    KidsOk(s.kids) && s.navail == Avail(s.kids) && GivenOk(s.kids, s.owners) && ParentOk(s)
  }

  // ---- every step keeps them ----

  lemma {:induction false} AvailSame(kids: seq<Child>, i: nat, c: Child)
    requires i < |kids|
    ensures Avail(kids[i := c]) ==
            Avail(kids) - (if kids[i].status == 0 then 1 else 0) + (if c.status == 0 then 1 else 0)
  {
    var n, kids' := |kids| - 1, kids[i := c];
    if i == n {
      assert kids'[..n] == kids[..n];
    } else {
      AvailSame(kids[..n], i, c);
      assert kids'[..n] == kids[..n][i := c];
    }
  }

  lemma {:induction false} AvailSome(kids: seq<Child>)
    requires forall i | 0 <= i < |kids| :: kids[i].status != 0
    ensures Avail(kids) == 0
  {
    if kids != [] {
      AvailSome(kids[..|kids| - 1]);
    }
  }

  lemma {:induction false} AvailAll(kids: seq<Child>)
    requires forall i | 0 <= i < |kids| :: kids[i].status == 0
    ensures Avail(kids) == |kids|
  {
    if kids != [] {
      AvailAll(kids[..|kids| - 1]);
    }
  }

  lemma {:induction false} CountNone(rset: seq<bool>, i: nat)
    requires CountFrom(rset, i) == 0
    ensures forall j | i <= j < |rset| :: !rset[j]
    decreases |rset| - i
  {
    if i < |rset| {
      CountNone(rset, i + 1);
    }
  }

  lemma {:induction false} KidsUpdate(kids: seq<Child>, i: nat, c: Child)
    requires KidsOk(kids) && i < |kids| && KidOk(c)
    ensures KidsOk(kids[i := c])
  {
    hide KidOk;
  }

  lemma {:induction false} GivenUpdate(kids: seq<Child>, owners: seq<nat>, i: nat, c: Child)
    requires GivenOk(kids, owners) && i < |kids| && c.given == kids[i].given
    ensures GivenOk(kids[i := c], owners)
  {
    hide Given;
  }

  lemma RsetUpdate(rset: seq<bool>, kids: seq<Child>, from: nat, i: nat, c: Child)
    requires RsetOk(rset, kids, from) && i < |kids| && (i >= from ==> c.ready >= kids[i].ready)
    ensures RsetOk(rset, kids[i := c], from)
  {
  }

  lemma RsetLess(rset: seq<bool>, kids: seq<Child>, from: nat)
    requires RsetOk(rset, kids, from)
    ensures RsetOk(rset, kids, from + 1)
  {
  }

  lemma DoneMore(done: seq<bool>, rset: seq<bool>, i: nat)
    requires DoneOk(done, rset, i) && i < |rset|
    ensures DoneOk(if rset[i] then done[i := true] else done, rset, i + 1)
  {
  }

  lemma {:induction false} DoneAll(done: seq<bool>, rset: seq<bool>, i: nat)
    requires DoneOk(done, rset, i) && CountFrom(rset, i) == 0
    ensures done == rset
  {
    CountNone(rset, i);
  }

  /** A child's own step. */
  lemma {:induction false} ChildStep(s: State, i: nat, c: Child)
    requires Inv(s) && i < |s.kids| && KidOk(c)
    requires c.status == s.kids[i].status && c.given == s.kids[i].given && c.ready >= s.kids[i].ready
    ensures Inv(s.(kids := s.kids[i := c]))
  {
    AvailSame(s.kids, i, c);
    KidsUpdate(s.kids, i, c);
    GivenUpdate(s.kids, s.owners, i, c);
    match s.parent {
      case Accept => RsetUpdate(s.rset, s.kids, 0, i, c);
      case Scan(from) => RsetUpdate(s.rset, s.kids, from, i, c);
      case _ =>
    }
    hide Avail, KidOk, KidsOk, GivenOk, CountFrom, DoneOk, RsetOk;
  }

  lemma {:induction false} TakenOk(c: Child)
    requires KidOk(c) && c.phase.Receiving? && c.inbox != []
    ensures KidOk(Taken(c))
  {
    assert [c.inbox[0]] + c.inbox[1..] == c.inbox;
  }

  lemma FinishedOk(c: Child)
    requires KidOk(c) && c.phase.Serving?
    ensures KidOk(Finished(c))
  {
  }

  lemma ReportedOk(c: Child)
    requires KidOk(c) && c.phase.Reporting?
    ensures KidOk(Reported(c))
  {
  }

  lemma {:induction false} GivenMore(kids: seq<Child>, owners: seq<nat>, i: nat, c: Child)
    requires GivenOk(kids, owners) && i < |kids| && c.given == kids[i].given + [|owners|]
    ensures GivenOk(kids[i := c], owners + [i])
  {
    var owners' := owners + [i];
    assert owners'[..|owners|] == owners;
    forall j | 0 <= j < |kids| ensures kids[i := c][j].given == Given(owners', j) {
    }
  }

  lemma Given1Ok(c: Child, conn: nat)
    requires KidOk(c) && c.status == 0
    ensures KidOk(Given1(c, conn)) && Given1(c, conn).ready == c.ready
  {
  }

  lemma {:induction false} AcceptKeeps(s: State)
    requires Inv(s) && s.parent.Accept?
    ensures Inv(AcceptStep(s))
  {
    var i := FirstIdle(s.kids, 0);
    if i == |s.kids| {
      AvailSome(s.kids);
      assert false;
    }
    var c := Given1(s.kids[i], |s.owners|);
    assert KidOk(s.kids[i]);
    AvailSame(s.kids, i, c);
    GivenMore(s.kids, s.owners, i, c);
    Given1Ok(s.kids[i], |s.owners|);
    KidsUpdate(s.kids, i, c);
    RsetUpdate(s.rset, s.kids, 0, i, c);
    if s.nsel - 1 == 0 {
      DoneAll(s.done, s.rset, 0);
    }
    CountBound(s.rset, 0);
    assert |s.rset| == |s.kids|;
    hide Avail, KidsOk, GivenOk, KidOk, CountFrom, Given1, RsetOk, DoneOk;
  }

  lemma CountBound(rset: seq<bool>, i: nat)
    ensures i >= |rset| ==> CountFrom(rset, i) == 0
  {
  }

  lemma {:induction false} ReadKeeps(s: State, i: nat)
    requires Inv(s) && s.parent.Scan? && s.parent.i == i && i < |s.rset| && s.rset[i]
    ensures Inv(ScanStep(s, i))
  {
    ScanFacts(s, i);
    var c := s.kids[i].(status := 0, ready := s.kids[i].ready - 1);
    ScanReads(s, i, c);
    hide *;
    ReadOk(s.kids[i]);
    CountHere(s.rset, i);
    AvailSame(s.kids, i, c);
    KidsUpdate(s.kids, i, c);
    GivenUpdate(s.kids, s.owners, i, c);
    RsetLess(s.rset, s.kids, i);
    RsetUpdate(s.rset, s.kids, i + 1, i, c);
    DoneMore(s.done, s.rset, i);
    if s.nsel - 1 == 0 {
      DoneAll(s.done[i := true], s.rset, i + 1);
    }
    CountBound(s.rset, i + 1);
    InvIntro(ScanStep(s, i), i + 1);
  }

  lemma ScanFacts(s: State, i: nat)
    requires Inv(s) && s.parent.Scan? && s.parent.i == i
    ensures KidsOk(s.kids) && s.navail == Avail(s.kids) && GivenOk(s.kids, s.owners)
    ensures RsetOk(s.rset, s.kids, i) && DoneOk(s.done, s.rset, i) && s.nsel == CountFrom(s.rset, i) && s.nsel > 0
    ensures i < |s.kids| == |s.rset| == |s.done| && KidOk(s.kids[i]) && (s.rset[i] ==> s.kids[i].ready > 0)
  {
    hide Avail, KidOk, CountFrom, Given;
  }

  lemma ScanReads(s: State, i: nat, c: Child)
    requires i < |s.kids| == |s.rset| == |s.done| && s.rset[i] && s.kids[i].ready > 0
    requires c == s.kids[i].(status := 0, ready := s.kids[i].ready - 1)
    ensures ScanStep(s, i) == s.(kids := s.kids[i := c], navail := s.navail + 1, nsel := s.nsel - 1,
                                 done := s.done[i := true],
                                 parent := if s.nsel - 1 == 0 then Top else Scan(i + 1))
  {
  }

  lemma InvIntro(s: State, i: nat)
    requires KidsOk(s.kids) && s.navail == Avail(s.kids) && GivenOk(s.kids, s.owners) && |s.rset| == |s.kids|
    requires s.parent.Top? || (s.parent.Scan? && s.parent.i == i)
    requires s.parent.Top? ==> s.done == s.rset
    requires s.parent.Scan? ==> i < |s.kids| && s.nsel == CountFrom(s.rset, i) && s.nsel > 0
    requires s.parent.Scan? ==> RsetOk(s.rset, s.kids, i) && DoneOk(s.done, s.rset, i)
    ensures Inv(s)
  {
    hide KidsOk, Avail, GivenOk, CountFrom, RsetOk, DoneOk;
  }

  lemma ReadOk(c: Child)
    requires KidOk(c) && c.ready > 0
    ensures KidOk(c.(status := 0, ready := c.ready - 1)) && c.status == 1
  {
  }

  lemma CountHere(rset: seq<bool>, i: nat)
    requires i < |rset|
    ensures CountFrom(rset, i) == CountFrom(rset, i + 1) + if rset[i] then 1 else 0
  {
  }

  lemma {:induction false} SkipKeeps(s: State, i: nat)
    requires Inv(s) && s.parent.Scan? && s.parent.i == i && i < |s.rset| && !s.rset[i]
    ensures Inv(ScanStep(s, i))
  {
    assert |s.done| == |s.rset| == |s.kids|;
    hide Avail, KidsOk, GivenOk, KidOk, CountFrom, RsetOk, DoneOk;
    CountHere(s.rset, i);
    CountBound(s.rset, i + 1);
    RsetLess(s.rset, s.kids, i);
    DoneMore(s.done, s.rset, i);
  }

  lemma {:induction false} SelectKeeps(s: State, listen: bool, rset: seq<bool>)
    requires Inv(s) && Enabled(s, Select(listen, rset))
    ensures Inv(Step(s, Select(listen, rset)))
  {
    CountBound(rset, 0);
    hide Avail, Given, KidOk, CountFrom;
  }

  lemma {:induction false} InvStep(s: State, a: Action)
    requires Inv(s) && Enabled(s, a)
    ensures Inv(Step(s, a))
  {
    hide AcceptStep, ScanStep, Avail, GivenOk, Taken, Finished, Reported, CountFrom;
    match a {
      case Connect =>
      case Select(listen, rset) => SelectKeeps(s, listen, rset);
      case Parent =>
        if s.parent.Accept? {
          AcceptKeeps(s);
        } else if s.rset[s.parent.i] {
          ReadKeeps(s, s.parent.i);
        } else {
          SkipKeeps(s, s.parent.i);
        }
      case Take(i) =>
        TakenOk(s.kids[i]);
        OwnFields(s.kids[i]);
        ChildStep(s, i, Taken(s.kids[i]));
      case Finish(i) =>
        FinishedOk(s.kids[i]);
        OwnFields(s.kids[i]);
        ChildStep(s, i, Finished(s.kids[i]));
      case Report(i) =>
        ReportedOk(s.kids[i]);
        OwnFields(s.kids[i]);
        ChildStep(s, i, Reported(s.kids[i]));
    }
  }

  lemma OwnFields(c: Child)
    ensures forall c' | c' in [Taken(c), Finished(c), Reported(c)] ::
              c'.status == c.status && c'.given == c.given && c'.ready >= c.ready
  {
  }

  lemma {:induction false} InvInitial(s: State, n: nat)
    requires Starts(s, n)
    ensures Inv(s)
  {
    AvailAll(s.kids);
    hide Avail;
  }

  lemma {:induction false} RunKeeps(start: State, n: nat, acts: seq<Action>)
    requires Starts(start, n)
    ensures var r := Run(start, acts); r.Some? ==> Inv(r.value)
  {
    hide Inv, Step, Enabled, Starts;
    if acts == [] {
      InvInitial(start, n);
    } else {
      RunKeeps(start, n, acts[..|acts| - 1]);
      var r, a := Run(start, acts[..|acts| - 1]), acts[|acts| - 1];
      if r.Some? && Enabled(r.value, a) {
        InvStep(r.value, a);
      }
    }
  }

  // ---- what they mean for every run ----

  /** navail counts the children with status 0, and "no available children" is never reached. */
  lemma {:induction false} NavailCounts(start: State, n: nat, acts: seq<Action>, s: State)
    requires Starts(start, n) && Run(start, acts) == Some(s)
    ensures s.navail == Avail(s.kids) && !s.parent.Quit?
  {
    RunKeeps(start, n, acts);
    hide Run, Starts, Avail, KidsOk, GivenOk, RsetOk, DoneOk, CountFrom;
  }

  /** A busy child has exactly one of a descriptor in flight, a connection in progress and a
      ready byte in flight; the parent's count is the number of connections it was given. */
  lemma {:induction false} BusyExactlyOne(start: State, n: nat, acts: seq<Action>, s: State, i: nat)
    requires Starts(start, n) && Run(start, acts) == Some(s) && i < |s.kids|
    ensures var c := s.kids[i];
            && (c.status == 0 || c.status == 1) && |c.inbox| + Busy(c.phase) + c.ready == c.status
            && c.count == |c.given|
  {
    RunKeeps(start, n, acts);
    hide Run, Starts, Avail, GivenOk, RsetOk, DoneOk, CountFrom;
    assert KidOk(s.kids[i]);
  }

  /** Every accepted connection was given to exactly one child, and each child serves those it
      was given once each, in the order they were accepted. */
  lemma {:induction false} ExactlyOneChild(start: State, n: nat, acts: seq<Action>, s: State, i: nat, conn: nat)
    requires Starts(start, n) && Run(start, acts) == Some(s) && i < |s.kids|
    ensures conn in s.kids[i].given <==> conn < |s.owners| && s.owners[conn] == i
    ensures s.kids[i].given == s.kids[i].served + Current(s.kids[i].phase) + s.kids[i].inbox
    ensures forall j, k | 0 <= j < k < |s.kids[i].given| :: s.kids[i].given[j] < s.kids[i].given[k]
    ensures conn < |s.owners| ==> s.owners[conn] < |s.kids|
  {
    RunKeeps(start, n, acts);
    GivenMembers(s.owners, i, conn);
    assert KidOk(s.kids[i]) && s.kids[i].given == Given(s.owners, i);
    hide Run, Starts, Avail, RsetOk, DoneOk, CountFrom, Given, KidsOk;
  }

  /** A connection is passed to a child that waits for one and has nothing in its pipe, the
      first such child; there is one whenever the parent accepts. */
  lemma {:induction false} GoesToIdle(start: State, n: nat, acts: seq<Action>, s: State)
    requires Starts(start, n) && Run(start, acts) == Some(s) && s.parent.Accept?
    ensures Enabled(s, Parent)
    ensures var s' := Step(s, Parent);
            && |s'.owners| == |s.owners| + 1 && s'.owners[|s.owners|] < |s.kids|
            && var i := s'.owners[|s.owners|];
            && s.kids[i].status == 0 && s.kids[i].phase.Receiving? && s.kids[i].inbox == [] && s.kids[i].ready == 0
            && s'.kids[i].inbox == [|s.owners|]
            && forall j | 0 <= j < i :: s.kids[j].status == 1
  {
    RunKeeps(start, n, acts);
    hide Run, Starts, RsetOk, DoneOk, CountFrom, GivenOk;
    var i := FirstIdle(s.kids, 0);
    if i == |s.kids| {
      AvailSome(s.kids);
      assert false;
    }
    assert KidOk(s.kids[i]) && forall j | 0 <= j < i :: KidOk(s.kids[j]);
    hide Avail;
  }

  /** The parent never blocks in a read, and ends each round only when every pipe that select
      reported has been read. */
  lemma {:induction false} RoundServesAll(start: State, n: nat, acts: seq<Action>, s: State)
    requires Starts(start, n) && Run(start, acts) == Some(s)
    ensures s.parent.Scan? ==> Enabled(s, Parent)
    ensures s.parent.Top? ==> s.done == s.rset
  {
    RunKeeps(start, n, acts);
    hide Run, Starts, DoneOk, CountFrom, GivenOk, KidsOk, Avail;
  }

  /** While a client waits or a child is busy, the parent or a child can go on. */
  lemma {:induction false} NeverStuck(start: State, n: nat, acts: seq<Action>, s: State) returns (a: Action)
    requires Starts(start, n) && Run(start, acts) == Some(s) && |s.kids| > 0
    requires s.backlog > 0 || exists i | 0 <= i < |s.kids| :: s.kids[i].status != 0
    ensures Enabled(s, a) && !a.Connect?
  {
    RunKeeps(start, n, acts);
    hide Run, Starts, DoneOk, GivenOk, CountFrom;
    if !s.parent.Top? {
      a := Parent;
    } else if i: nat :| i < |s.kids| && s.kids[i].status != 0 {
      a := BusyMoves(s, i);
    } else {
      var none := seq(|s.kids|, _ => false);
      AvailAll(s.kids);
      a := Select(true, none);
    }
  }

  lemma {:induction false} BusyMoves(s: State, i: nat) returns (a: Action)
    requires s.parent.Top? && i < |s.kids| && KidOk(s.kids[i]) && s.kids[i].status != 0
    ensures Enabled(s, a) && !a.Connect?
  {
    var c := s.kids[i];
    if c.ready > 0 {
      var rset := seq(|s.kids|, j => j == i);
      CountSome(rset, 0, i);
      a := Select(false, rset);
    } else {
      a := if c.phase.Serving? then Finish(i) else if c.phase.Reporting? then Report(i) else Take(i);
    }
  }

  lemma {:induction false} CountSome(rset: seq<bool>, from: nat, i: nat)
    requires from <= i < |rset| && rset[i]
    ensures CountFrom(rset, from) > 0
    decreases i - from
  {
    if from < i {
      CountSome(rset, from + 1, i);
    }
  }

  /** How many clients have connected. */
  function Connects(acts: seq<Action>): nat {
    if acts == [] then 0
    else Connects(acts[..|acts| - 1]) + if acts[|acts| - 1].Connect? then 1 else 0
  }

  /** No connection is lost or accepted twice: each one waits or has been passed on. */
  lemma {:induction false} Conserved(start: State, n: nat, acts: seq<Action>, s: State)
    requires Starts(start, n) && Run(start, acts) == Some(s)
    ensures |s.owners| + s.backlog == Connects(acts)
  {
    if acts != [] {
      var init, a := acts[..|acts| - 1], acts[|acts| - 1];
      var r := Run(start, init).value;
      Conserved(start, n, init, r);
      RunKeeps(start, n, init);
      if a.Parent? && r.parent.Accept? {
        GoesToIdle(start, n, init, r);
      }
      hide Run, Starts, KidsOk, Avail, GivenOk, RsetOk, DoneOk, CountFrom, FirstIdle;
    }
  }

  /** The scan of the pipes goes on only while one that was reported has not been read. */
  lemma {:induction false} ScanNeeded(start: State, n: nat, acts: seq<Action>, s: State)
    requires Starts(start, n) && Run(start, acts) == Some(s) && s.parent.Scan?
    ensures |s.done| == |s.rset| && exists j | 0 <= j < |s.rset| :: s.rset[j] && !s.done[j]
  {
    RunKeeps(start, n, acts);
    hide Run, Starts, KidsOk, Avail, GivenOk, RsetOk;
    var i := s.parent.i;
    CountedOne(s.rset, i);
  }

  lemma {:induction false} CountedOne(rset: seq<bool>, i: nat)
    requires CountFrom(rset, i) > 0
    ensures exists j | i <= j < |rset| :: rset[j]
    decreases |rset| - i
  {
    if i < |rset| && !rset[i] {
      CountedOne(rset, i + 1);
    }
  }
}
