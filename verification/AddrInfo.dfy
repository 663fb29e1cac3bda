/** Expanding the list of addresses by socket type: ga_aistruct, ga_clone, ga_port, ga_serv. */
module AddrInfo {
  import opened Basics

  // ---- the list as a value ----

  datatype Family = Inet | Inet6 | OtherFamily

  datatype Socket = Socket(addr: seq<byte>, port: int)

  /** One addrinfo; `clone` is its AI_CLONE flag. */
  datatype Entry = Entry(clone: bool, family: Family, socktype: int, protocol: int, sock: Option<Socket>)

  predicate HasPort(e: Entry) {
    e.family.Inet? || e.family.Inet6?
  }

  /** The socket type is always set, the port only in the families that have one. */
  function Assign(e: Entry, port: int, socktype: int): Entry {
    var e' := e.(socktype := socktype);
    if HasPort(e) && e.sock.Some? then e'.(sock := Some(e.sock.value.(port := port))) else e'
  }

  function CloneOf(e: Entry): Entry {
    e.(clone := false)
  }

  function PortOne(e: Entry, port: int, socktype: int): (es: seq<Entry>)
    ensures |es| > 0
  {
    if e.clone then
      if e.socktype != 0 then [e, Assign(CloneOf(e), port, socktype)] else [Assign(e, port, socktype)]
    else if e.socktype != socktype then [e]
    else [Assign(e, port, socktype)]
  }

  /** What ga_port makes of a list. */
  function PortAll(es: seq<Entry>, port: int, socktype: int): seq<Entry> {
    if es == [] then [] else PortOne(es[0], port, socktype) + PortAll(es[1..], port, socktype)
  }

  function Hits(e: Entry, socktype: int): nat {
    if (e.clone || e.socktype == socktype) && HasPort(e) then 1 else 0
  }

  function Found(es: seq<Entry>, socktype: int): nat {
    if es == [] then 0 else Hits(es[0], socktype) + Found(es[1..], socktype)
  }

  // ---- calls for several socket types ----

  datatype Service = Service(port: int, socktype: int)

  /** A host address before any service: no socket type yet, to be cloned. */
  function Unset(a: Entry): Entry {
    a.(clone := true, socktype := 0)
  }

  function Made(a: Entry, cs: seq<Service>, j: nat): Entry
    requires j < |cs|
  {
    var e := Assign(Unset(a), cs[j].port, cs[j].socktype);
    if j == 0 then e else e.(clone := false)
  }

  /** The entries for one address after the calls `cs`: the first call's entry, and after it
      one for each later call, the latest first. */
  function Group(a: Entry, cs: seq<Service>): (es: seq<Entry>)
    requires |cs| > 0
    ensures |es| == |cs|
  {
    seq(|cs|, m requires 0 <= m < |cs| => Made(a, cs, if m == 0 then 0 else |cs| - m))
  }

  function Groups(hosts: seq<Entry>, cs: seq<Service>): seq<Entry> {
    if hosts == [] then []
    else (if cs == [] then [Unset(hosts[0])] else Group(hosts[0], cs)) + Groups(hosts[1..], cs)
  }

  predicate Distinct(cs: seq<Service>) {
    && (forall i | 0 <= i < |cs| :: cs[i].socktype != 0)
    && (forall i, j | 0 <= i < j < |cs| :: cs[i].socktype != cs[j].socktype)
  }

  lemma {:induction false} PortAllAppend(xs: seq<Entry>, ys: seq<Entry>, port: int, socktype: int)
    ensures PortAll(xs + ys, port, socktype) == PortAll(xs, port, socktype) + PortAll(ys, port, socktype)
  {
    hide PortOne;
    if xs == [] {
      assert xs + ys == ys;
    } else {
      PortAllAppend(xs[1..], ys, port, socktype);
      assert (xs + ys)[1..] == xs[1..] + ys;
    }
  }

  /** Entries of other socket types that are not to be cloned stay as they are. */
  lemma {:induction false} PortAllSkips(es: seq<Entry>, port: int, socktype: int)
    requires forall i | 0 <= i < |es| :: !es[i].clone && es[i].socktype != socktype
    ensures PortAll(es, port, socktype) == es
  {
    if es != [] {
      PortAllSkips(es[1..], port, socktype);
      assert es == [es[0]] + es[1..];
    }
  }

  lemma {:induction false} GroupFacts(a: Entry, cs: seq<Service>, c: Service)
    requires |cs| > 0 && Distinct(cs + [c])
    ensures var g := Group(a, cs);
            && g[0].clone && g[0].socktype != 0 && HasPort(g[0]) == HasPort(a)
            && forall i | 0 < i < |g| :: !g[i].clone && g[i].socktype != c.socktype
  {
    forall i | 0 <= i < |cs| ensures cs[i].socktype != c.socktype && cs[i].socktype != 0 {
      assert (cs + [c])[i] == cs[i] && (cs + [c])[|cs|] == c;
    }
  }

  lemma {:induction false} GroupGrows(a: Entry, cs: seq<Service>, c: Service)
    requires |cs| > 0
    ensures var g := Group(a, cs);
            Group(a, cs + [c]) == [g[0], Assign(CloneOf(g[0]), c.port, c.socktype)] + g[1..]
  {
    var g, g', k := Group(a, cs), Group(a, cs + [c]), |cs|;
    forall m | 0 <= m < k + 1
      ensures g'[m] == ([g[0], Assign(CloneOf(g[0]), c.port, c.socktype)] + g[1..])[m]
    {
      var j := if m == 0 then 0 else k + 1 - m;
      assert g'[m] == Made(a, cs + [c], j);
    }
  }

  lemma {:induction false} PortGroup(a: Entry, cs: seq<Service>, c: Service)
    requires |cs| > 0 && Distinct(cs + [c])
    ensures PortAll(Group(a, cs), c.port, c.socktype) == Group(a, cs + [c])
  {
    hide Distinct, Group, Made, Assign;
    GroupFacts(a, cs, c);
    GroupGrows(a, cs, c);
    var g := Group(a, cs);
    PortAllSkips(g[1..], c.port, c.socktype);
    assert PortOne(g[0], c.port, c.socktype) == [g[0], Assign(CloneOf(g[0]), c.port, c.socktype)];
  }

  /** One more call for a new socket type adds one entry for every address. */
  lemma {:induction false} PortGroups(hosts: seq<Entry>, cs: seq<Service>, c: Service)
    requires Distinct(cs + [c])
    ensures PortAll(Groups(hosts, cs), c.port, c.socktype) == Groups(hosts, cs + [c])
  {
    if hosts != [] {
      PortGroups(hosts[1..], cs, c);
      var g := if cs == [] then [Unset(hosts[0])] else Group(hosts[0], cs);
      PortAllAppend(g, Groups(hosts[1..], cs), c.port, c.socktype);
      if cs == [] {
        assert PortAll(g, c.port, c.socktype) == PortOne(g[0], c.port, c.socktype) + PortAll([], c.port, c.socktype);
        assert Group(hosts[0], cs + [c]) == [Made(hosts[0], cs + [c], 0)];
      } else {
        PortGroup(hosts[0], cs, c);
      }
    }
  }

  function PortCalls(es: seq<Entry>, cs: seq<Service>): seq<Entry> {
    if cs == [] then es
    else
      var c := cs[|cs| - 1];
      PortAll(PortCalls(es, cs[..|cs| - 1]), c.port, c.socktype)
  }

  /** For n addresses and any k calls with different nonzero socket types, the list ends up
      with exactly k entries for each address in turn, one for each call with its own port. */
  lemma {:induction false} Expansion(hosts: seq<Entry>, cs: seq<Service>)
    requires Distinct(cs)
    ensures PortCalls(Groups(hosts, []), cs) == Groups(hosts, cs)
  {
    if cs != [] {
      var front, c := cs[..|cs| - 1], cs[|cs| - 1];
      assert cs == front + [c];
      Expansion(hosts, front);
      PortGroups(hosts, front, c);
    }
  }

  lemma {:induction false} GroupsLength(hosts: seq<Entry>, cs: seq<Service>)
    requires |cs| > 0
    ensures |Groups(hosts, cs)| == |hosts| * |cs|
  {
    hide Group;
    if hosts != [] {
      GroupsLength(hosts[1..], cs);
      assert |hosts| * |cs| == |cs| + (|hosts| - 1) * |cs|;
    }
  }

  lemma {:induction false} Scaled(i: nat, n: nat, m: nat, k: nat)
    requires i < n && m < k
    ensures i * k + m < n * k && (i > 0 ==> i * k + m == k + ((i - 1) * k + m))
  {
    var d := n - i - 1;
    calc {
      n * k;
      (i + (1 + d)) * k;
      i * k + (1 + d) * k;
      i * k + (k + d * k);
    }
    assert d * k >= 0;
  }

  /** Where each entry is: address i and call j are together in just one place. */
  lemma {:induction false} Placed(hosts: seq<Entry>, cs: seq<Service>, i: nat, m: nat)
    requires i < |hosts| && m < |cs|
    ensures |Groups(hosts, cs)| == |hosts| * |cs| && i * |cs| + m < |hosts| * |cs|
    ensures Groups(hosts, cs)[i * |cs| + m] == Group(hosts[i], cs)[m]
  {
    hide Group;
    GroupsLength(hosts, cs);
    Scaled(i, |hosts|, m, |cs|);
    if i > 0 {
      Placed(hosts[1..], cs, i - 1, m);
    }
  }

  // ---- the service ----

  const SOCK_STREAM := 1
  const SOCK_DGRAM := 2
  const EAI_MEMORY := 6
  const EAI_NONAME := 8
  const EAI_SERVICE := 9

  /** A service string: a port number, or a name looked up for tcp and for udp. */
  datatype Serv = Numeric(port: int) | Name(tcp: Option<int>, udp: Option<int>)

  /** The call for one protocol, made when its socket type is wanted and the name is known there. */
  function Offered(hint: int, port: Option<int>, socktype: int): seq<Service> {
    if (hint == 0 || hint == socktype) && port.Some? then [Service(port.value, socktype)] else []
  }

  /** The calls of ga_port that ga_serv makes for a service. */
  function Calls(hint: int, serv: Serv): seq<Service> {
    match serv
    case Numeric(port) =>
      if hint != 0 then [Service(port, hint)] else [Service(port, SOCK_STREAM), Service(port, SOCK_DGRAM)]
    case Name(tcp, udp) =>
      Offered(hint, tcp, SOCK_STREAM) + Offered(hint, udp, SOCK_DGRAM)
  }

  /** How many ports the calls set. */
  function FoundCalls(es: seq<Entry>, cs: seq<Service>): nat {
    if cs == [] then 0
    else
      var front := cs[..|cs| - 1];
      FoundCalls(es, front) + Found(PortCalls(es, front), cs[|cs| - 1].socktype)
  }

  function Outcome(hint: int, nfound: nat): int {
    if nfound > 0 then 0 else if hint == 0 then EAI_NONAME else EAI_SERVICE
  }

  /** The addresses that have a port. */
  function Ports(hosts: seq<Entry>): nat {
    if hosts == [] then 0 else (if HasPort(hosts[0]) then 1 else 0) + Ports(hosts[1..])
  }

  lemma {:induction false} FoundConcat(xs: seq<Entry>, ys: seq<Entry>, socktype: int)
    ensures Found(xs + ys, socktype) == Found(xs, socktype) + Found(ys, socktype)
  {
    hide Hits;
    if xs == [] {
      assert xs + ys == ys;
    } else {
      FoundConcat(xs[1..], ys, socktype);
      assert (xs + ys)[1..] == xs[1..] + ys;
    }
  }

  lemma {:induction false} FoundSkips(es: seq<Entry>, socktype: int)
    requires forall i | 0 <= i < |es| :: !es[i].clone && es[i].socktype != socktype
    ensures Found(es, socktype) == 0
  {
    if es != [] {
      FoundSkips(es[1..], socktype);
    }
  }

  lemma {:induction false} FoundGroup(a: Entry, cs: seq<Service>, c: Service)
    requires |cs| > 0 && Distinct(cs + [c])
    ensures Found(Group(a, cs), c.socktype) == if HasPort(a) then 1 else 0
  {
    hide Distinct, Group, HasPort;
    GroupFacts(a, cs, c);
    FoundSkips(Group(a, cs)[1..], c.socktype);
  }

  lemma {:induction false} FoundGroups(hosts: seq<Entry>, cs: seq<Service>, c: Service)
    requires Distinct(cs + [c])
    ensures Found(Groups(hosts, cs), c.socktype) == Ports(hosts)
  {
    if hosts != [] {
      FoundGroups(hosts[1..], cs, c);
      if cs == [] {
        FoundConcat([Unset(hosts[0])], Groups(hosts[1..], cs), c.socktype);
        assert Found([Unset(hosts[0])], c.socktype) == Hits(Unset(hosts[0]), c.socktype) + Found([], c.socktype);
      } else {
        FoundConcat(Group(hosts[0], cs), Groups(hosts[1..], cs), c.socktype);
        FoundGroup(hosts[0], cs, c);
      }
    }
  }

  /** Each call sets one port for each address that has one. */
  lemma {:induction false} ExpansionFound(hosts: seq<Entry>, cs: seq<Service>)
    requires Distinct(cs)
    ensures FoundCalls(Groups(hosts, []), cs) == |cs| * Ports(hosts)
  {
    hide Groups, Found, Ports, PortCalls;
    if cs != [] {
      var front, c := cs[..|cs| - 1], cs[|cs| - 1];
      assert cs == front + [c];
      ExpansionFound(hosts, front);
      Expansion(hosts, front);
      FoundGroups(hosts, front, c);
      assert |cs| * Ports(hosts) == |front| * Ports(hosts) + Ports(hosts);
    }
  }

  lemma CallsDistinct(serv: Serv)
    ensures Distinct(Calls(0, serv))
  {
  }

  /** No socket type asked for: every address gets one entry for each protocol the service is
      offered on, and the call fails exactly when there is no such protocol or no address with
      a port. */
  lemma {:induction false} AnyType(hosts: seq<Entry>, serv: Serv)
    ensures PortCalls(Groups(hosts, []), Calls(0, serv)) == Groups(hosts, Calls(0, serv))
    ensures Outcome(0, FoundCalls(Groups(hosts, []), Calls(0, serv))) ==
            if Calls(0, serv) != [] && Ports(hosts) > 0 then 0 else EAI_NONAME
  {
    CallsDistinct(serv);
    hide Calls, Ports, Distinct, Groups, PortCalls, FoundCalls;
    Expansion(hosts, Calls(0, serv));
    ExpansionFound(hosts, Calls(0, serv));
    var k, n := |Calls(0, serv)|, Ports(hosts);
    if k > 0 && n > 0 {
      assert k * n >= n;
    }
  }

  /** For a port number the order is first address for streams, first address for datagrams,
      second address for streams, and so on, all with that port. */
  lemma {:induction false} NumericOrder(hosts: seq<Entry>, port: int, i: nat)
    requires i < |hosts|
    ensures var es := PortCalls(Groups(hosts, []), Calls(0, Numeric(port)));
            && |es| == 2 * |hosts|
            && es[2 * i] == Assign(Unset(hosts[i]), port, SOCK_STREAM)
            && es[2 * i + 1] == Assign(Unset(hosts[i]), port, SOCK_DGRAM).(clone := false)
  {
    var cs := Calls(0, Numeric(port));
    AnyType(hosts, Numeric(port));
    Placed(hosts, cs, i, 0);
    Placed(hosts, cs, i, 1);
    assert Group(hosts[i], cs)[0] == Made(hosts[i], cs, 0) && Group(hosts[i], cs)[1] == Made(hosts[i], cs, 1);
    hide Groups, PortCalls, Group, Assign;
  }

  function Assigned(hosts: seq<Entry>, c: Service): (es: seq<Entry>)
    ensures |es| == |hosts|
  {
    seq(|hosts|, i requires 0 <= i < |hosts| => Assign(hosts[i], c.port, c.socktype))
  }

  lemma {:induction false} PortAllAssigns(hosts: seq<Entry>, c: Service)
    requires forall i | 0 <= i < |hosts| :: !hosts[i].clone && hosts[i].socktype == c.socktype
    ensures PortAll(hosts, c.port, c.socktype) == Assigned(hosts, c) && Found(hosts, c.socktype) == Ports(hosts)
  {
    hide Assign;
    if hosts != [] {
      PortAllAssigns(hosts[1..], c);
      assert Assigned(hosts, c) == [Assign(hosts[0], c.port, c.socktype)] + Assigned(hosts[1..], c);
    }
  }

  /** A socket type asked for: the entries stay one for each address, and get the port if the
      service is offered for that type. */
  lemma {:induction false} OneType(hosts: seq<Entry>, hint: int, serv: Serv)
    requires hint != 0 && forall i | 0 <= i < |hosts| :: !hosts[i].clone && hosts[i].socktype == hint
    ensures |Calls(hint, serv)| <= 1
    ensures PortCalls(hosts, Calls(hint, serv)) ==
            if Calls(hint, serv) == [] then hosts else Assigned(hosts, Calls(hint, serv)[0])
    ensures Outcome(hint, FoundCalls(hosts, Calls(hint, serv))) ==
            if Calls(hint, serv) != [] && Ports(hosts) > 0 then 0 else EAI_SERVICE
  {
    OneCall(hint, serv);
    hide Calls;
    if Calls(hint, serv) != [] {
      OneCallSets(hosts, Calls(hint, serv)[0]);
    } else {
      NoCalls(hosts);
    }
    hide Ports, Assigned, PortCalls, FoundCalls;
  }

  lemma OneCall(hint: int, serv: Serv)
    requires hint != 0
    ensures var cs := Calls(hint, serv); cs == [] || (cs == [cs[0]] && cs[0].socktype == hint)
  {
  }

  lemma NoCalls(hosts: seq<Entry>)
    ensures PortCalls(hosts, []) == hosts && FoundCalls(hosts, []) == 0
  {
  }

  lemma {:induction false} OneCallSets(hosts: seq<Entry>, c: Service)
    requires forall i | 0 <= i < |hosts| :: !hosts[i].clone && hosts[i].socktype == c.socktype
    ensures PortCalls(hosts, [c]) == Assigned(hosts, c) && FoundCalls(hosts, [c]) == Ports(hosts)
  {
    PortAllAssigns(hosts, c);
    NoCalls(hosts);
    hide PortAll, Found, Assigned, Ports;
    assert [c][..0] == [];
  }

  // ---- what the caller finds, entry by entry ----

  /** An entry for address `a` with this socket type, and this port if addresses of its family
      have one. */
  predicate IsFor(e: Entry, a: Entry, socktype: int, port: int, clone: bool) {
    && e.family == a.family && e.protocol == a.protocol && e.socktype == socktype && e.clone == clone
    && match a.sock
       case None => e.sock == None
       case Some(sa) => e.sock == Some(if a.family.OtherFamily? then sa else Socket(sa.addr, port))
  }

  /** Addresses as ga_aistruct leaves them for this hint. */
  predicate Prepared(hosts: seq<Entry>, hint: int) {
    forall i | 0 <= i < |hosts| :: hosts[i].clone == (hint == 0) && hosts[i].socktype == hint
  }

  predicate SomeInternet(hosts: seq<Entry>) {
    exists i | 0 <= i < |hosts| :: hosts[i].family.Inet? || hosts[i].family.Inet6?
  }

  /** The list and the result of ga_serv. */
  function Served(hosts: seq<Entry>, hint: int, serv: Serv): seq<Entry> {
    PortCalls(hosts, Calls(hint, serv))
  }

  function Result(hosts: seq<Entry>, hint: int, serv: Serv): int {
    Outcome(hint, FoundCalls(hosts, Calls(hint, serv)))
  }

  lemma {:induction false} PortsIff(hosts: seq<Entry>)
    ensures Ports(hosts) > 0 <==> SomeInternet(hosts)
  {
    if hosts != [] {
      PortsIff(hosts[1..]);
      if i :| 0 <= i < |hosts[1..]| && HasPort(hosts[1..][i]) {
        assert HasPort(hosts[i + 1]);
      }
      if i :| 0 <= i < |hosts| && HasPort(hosts[i]) {
        assert i > 0 ==> HasPort(hosts[1..][i - 1]);
      }
    }
  }

  /** One entry for each address ... */
  predicate EachFor(es: seq<Entry>, hosts: seq<Entry>, socktype: int, port: int, clone: bool) {
    |es| == |hosts| && forall i | 0 <= i < |hosts| :: IsFor(es[i], hosts[i], socktype, port, clone)
  }

  /** ... or two. */
  predicate EachForBoth(es: seq<Entry>, hosts: seq<Entry>, socktype: int, port: int, socktype': int, port': int) {
    && |es| == 2 * |hosts|
    && forall i | 0 <= i < |hosts| ::
         && IsFor(es[2 * i], hosts[i], socktype, port, true)
         && IsFor(es[2 * i + 1], hosts[i], socktype', port', false)
  }

  lemma {:induction false} GroupsOfOne(hosts: seq<Entry>, c: Service)
    ensures EachFor(Groups(hosts, [c]), hosts, c.socktype, c.port, true)
  {
    hide Groups, Group, IsFor;
    GroupsLength(hosts, [c]);
    forall i | 0 <= i < |hosts| ensures IsFor(Groups(hosts, [c])[i], hosts[i], c.socktype, c.port, true) {
      Placed(hosts, [c], i, 0);
      GroupAt(hosts[i], [c], 0);
      MadeFor(hosts[i], [c], 0);
    }
  }

  lemma {:induction false} GroupsOfTwo(hosts: seq<Entry>, c: Service, d: Service)
    ensures EachForBoth(Groups(hosts, [c, d]), hosts, c.socktype, c.port, d.socktype, d.port)
  {
    hide Groups, Group, IsFor;
    GroupsLength(hosts, [c, d]);
    forall i | 0 <= i < |hosts|
      ensures IsFor(Groups(hosts, [c, d])[2 * i], hosts[i], c.socktype, c.port, true)
      ensures IsFor(Groups(hosts, [c, d])[2 * i + 1], hosts[i], d.socktype, d.port, false)
    {
      Placed(hosts, [c, d], i, 0);
      Placed(hosts, [c, d], i, 1);
      GroupAt(hosts[i], [c, d], 0);
      GroupAt(hosts[i], [c, d], 1);
      MadeFor(hosts[i], [c, d], 0);
      MadeFor(hosts[i], [c, d], 1);
    }
  }

  lemma GroupAt(a: Entry, cs: seq<Service>, m: nat)
    requires m < |cs|
    ensures Group(a, cs)[m] == Made(a, cs, if m == 0 then 0 else |cs| - m)
  {
    hide Made;
  }

  lemma MadeFor(a: Entry, cs: seq<Service>, j: nat)
    requires j < |cs|
    ensures IsFor(Made(a, cs, j), a, cs[j].socktype, cs[j].port, j == 0)
  {
  }

  lemma {:induction false} Untouched(hosts: seq<Entry>)
    requires Prepared(hosts, 0)
    ensures Groups(hosts, []) == hosts
  {
    Structs(hosts);
  }

  /** A name, and any socket type will do: each address has an entry for streams if the name is
      known for tcp, and one for datagrams if it is known for udp, the one for streams first. */
  lemma {:induction false} NameForAny(hosts: seq<Entry>, tcp: Option<int>, udp: Option<int>)
    requires Prepared(hosts, 0)
    ensures var es := Served(hosts, 0, Name(tcp, udp));
            if tcp.Some? && udp.Some? then EachForBoth(es, hosts, 1, tcp.value, 2, udp.value)
            else if tcp.Some? then EachFor(es, hosts, 1, tcp.value, true)
            else if udp.Some? then EachFor(es, hosts, 2, udp.value, true)
            else es == hosts
    ensures Result(hosts, 0, Name(tcp, udp)) == if (tcp.Some? || udp.Some?) && SomeInternet(hosts) then 0 else 8
  {
    var serv := Name(tcp, udp);
    Untouched(hosts);
    AnyType(hosts, serv);
    PortsIff(hosts);
    hide Groups, PortCalls, FoundCalls, Ports, EachFor, EachForBoth, SomeInternet;
    if tcp.Some? && udp.Some? {
      GroupsOfTwo(hosts, Service(tcp.value, 1), Service(udp.value, 2));
      assert Calls(0, serv) == [Service(tcp.value, 1), Service(udp.value, 2)];
    } else if tcp.Some? {
      GroupsOfOne(hosts, Service(tcp.value, 1));
      assert Calls(0, serv) == [Service(tcp.value, 1)];
    } else if udp.Some? {
      GroupsOfOne(hosts, Service(udp.value, 2));
      assert Calls(0, serv) == [Service(udp.value, 2)];
    }
  }

  /** A number, and any socket type will do: each address has an entry for streams and one for
      datagrams, with that port. */
  lemma {:induction false} NumberForAny(hosts: seq<Entry>, port: int)
    requires Prepared(hosts, 0)
    ensures EachForBoth(Served(hosts, 0, Numeric(port)), hosts, 1, port, 2, port)
    ensures Result(hosts, 0, Numeric(port)) == if SomeInternet(hosts) then 0 else 8
  {
    Untouched(hosts);
    AnyType(hosts, Numeric(port));
    PortsIff(hosts);
    hide Groups, PortCalls, FoundCalls, Ports, EachForBoth, SomeInternet;
    GroupsOfTwo(hosts, Service(port, 1), Service(port, 2));
  }

  lemma {:induction false} AssignedFor(hosts: seq<Entry>, c: Service)
    requires Prepared(hosts, c.socktype) && c.socktype != 0
    ensures EachFor(Assigned(hosts, c), hosts, c.socktype, c.port, false)
  {
    forall i | 0 <= i < |hosts| ensures IsFor(Assigned(hosts, c)[i], hosts[i], c.socktype, c.port, false) {
      assert !hosts[i].clone;
    }
    hide IsFor, Assign;
  }

  /** A socket type was asked for: each address keeps its entry, which gets the port that a name
      has for that protocol, or the number; without one nothing changes. */
  lemma {:induction false} ForOneType(hosts: seq<Entry>, hint: int, serv: Serv)
    requires hint != 0 && Prepared(hosts, hint)
    ensures var port := match serv
                        case Numeric(port) => Some(port)
                        case Name(tcp, udp) => if hint == 1 then tcp else if hint == 2 then udp else None;
            && (port.Some? ==> EachFor(Served(hosts, hint, serv), hosts, hint, port.value, false))
            && (port.None? ==> Served(hosts, hint, serv) == hosts)
            && Result(hosts, hint, serv) == if port.Some? && SomeInternet(hosts) then 0 else 9
  {
    OneType(hosts, hint, serv);
    PortsIff(hosts);
    var cs := Calls(hint, serv);
    if cs != [] {
      OneCall(hint, serv);
      AssignedFor(hosts, cs[0]);
    }
    hide Assigned, PortCalls, FoundCalls, Ports, EachFor, SomeInternet, Prepared;
  }

  // ---- the address structures before the service ----

  /** What ga_aistruct appends for an address: to be cloned exactly when no socket type was
      asked for, with no port yet. */
  function Struct(hint: int, protocol: int, family: Family, addr: seq<byte>): Entry {
    Entry(hint == 0, family, hint, protocol, if family.OtherFamily? then None else Some(Socket(addr, 0)))
  }

  lemma {:induction false} Structs(es: seq<Entry>)
    requires forall i | 0 <= i < |es| :: es[i].clone && es[i].socktype == 0
    ensures Groups(es, []) == es
  {
    if es != [] {
      Structs(es[1..]);
      assert es == [es[0]] + es[1..];
    }
  }

  lemma {:induction false} PortAllAtMostDoubles(es: seq<Entry>, port: int, socktype: int)
    ensures |PortAll(es, port, socktype)| <= 2 * |es|
  {
    if es != [] {
      PortAllAtMostDoubles(es[1..], port, socktype);
    }
  }
}
