/** The same functions on the linked list they change in place. */
module AddrInfoList {
  import opened Basics
  import opened AddrInfo

  class SockAddr {
    const addr: seq<byte>
    var port: int

    constructor (addr: seq<byte>, port: int)
      ensures this.addr == addr && this.port == port
    {
      this.addr, this.port := addr, port;
    }
  }

  class Node {
    var clone: bool
    var family: Family
    var socktype: int
    var protocol: int
    var addr: SockAddr?
    var next: Node?

    function Value(): Entry
      reads this, addr
    {
      Entry(clone, family, socktype, protocol, if addr == null then None else Some(Socket(addr.addr, addr.port)))
    }

    constructor (clone: bool, family: Family, socktype: int, protocol: int, addr: SockAddr?, next: Node?)
      ensures this.clone == clone && this.family == family && this.socktype == socktype
      ensures this.protocol == protocol && this.addr == addr && this.next == next
    {
      this.clone, this.family, this.socktype, this.protocol := clone, family, socktype, protocol;
      this.addr, this.next := addr, next;
    }
  }

  // ---- the list and its contents ----

  /** What a node holds at some time. */
  datatype Snap = Snap(next: Node?, addr: SockAddr?, entry: Entry)

  ghost function SnapOf(n: Node): Snap
    reads n, n.addr
  {
    Snap(n.next, n.addr, n.Value())
  }

  ghost function Addrs(all: seq<Node>): set<SockAddr?>
    reads all
  {
    set i | 0 <= i < |all| :: all[i].addr
  }

  ghost function Snaps(all: seq<Node>): (s: seq<Snap>)
    reads all, Addrs(all)
    ensures |s| == |all| && forall i | 0 <= i < |all| :: s[i] == SnapOf(all[i])
  {
    seq(|all|, i requires 0 <= i < |all| reads all, Addrs(all) => SnapOf(all[i]))
  }

  ghost function At(all: seq<Node>, i: nat): Node? {
    if i < |all| then all[i] else null
  }

  /** With these contents, following the links from `head` visits the nodes of `all` in order. */
  ghost predicate Linked(head: Node?, all: seq<Node>, snaps: seq<Snap>) {
    && |snaps| == |all| && head == At(all, 0)
    && forall i | 0 <= i < |all| :: snaps[i].next == At(all, i + 1)
  }

  ghost predicate Once(all: seq<Node>) {
    forall i, j | 0 <= i < j < |all| :: all[i] != all[j]
  }

  /** No two nodes share a socket address, and every Internet address is there. */
  ghost predicate Addressed(snaps: seq<Snap>) {
    (forall i | 0 <= i < |snaps| :: HasPort(snaps[i].entry) ==> snaps[i].addr != null) && Unshared(snaps)
  }

  ghost predicate Unshared(snaps: seq<Snap>) {
    forall i, j | 0 <= i < j < |snaps| :: snaps[i].addr == null || snaps[i].addr != snaps[j].addr
  }

  ghost predicate Good(head: Node?, all: seq<Node>, snaps: seq<Snap>) {
    Linked(head, all, snaps) && Once(all) && Addressed(snaps)
  }

  ghost predicate List(head: Node?, all: seq<Node>)
    reads all, Addrs(all)
  {
    Good(head, all, Snaps(all))
  }

  /** A list that can be walked and freed, though an address may be missing. */
  ghost predicate Shape(head: Node?, all: seq<Node>)
    reads all, Addrs(all)
  {
    Linked(head, all, Snaps(all)) && Once(all) && Unshared(Snaps(all))
  }

  lemma ListShape(head: Node?, all: seq<Node>)
    requires List(head, all)
    ensures Shape(head, all)
  {
    hide Linked, Once, Unshared;
  }

  function Entries(snaps: seq<Snap>): (es: seq<Entry>)
    ensures |es| == |snaps| && forall i | 0 <= i < |es| :: es[i] == snaps[i].entry
  {
    seq(|snaps|, i requires 0 <= i < |snaps| => snaps[i].entry)
  }

  ghost function Values(all: seq<Node>): (es: seq<Entry>)
    reads all, Addrs(all)
    ensures |es| == |all|
  {
    Entries(Snaps(all))
  }

  function Insert<T>(s: seq<T>, p: nat, x: T): (r: seq<T>)
    requires p < |s|
    ensures |r| == |s| + 1
    ensures forall i {:trigger r[i]} | 0 <= i < |r| ::
              r[i] == if i <= p then s[i] else if i == p + 1 then x else s[i - 1]
  {
    s[..p + 1] + [x] + s[p + 1..]
  }

  lemma LinkedInsert(head: Node?, all: seq<Node>, snaps: seq<Snap>, p: nat, n: Node, s: Snap)
    requires Linked(head, all, snaps) && p < |all| && s.next == snaps[p].next
    ensures Linked(head, Insert(all, p, n), Insert(snaps[p := snaps[p].(next := n)], p, s))
  {
  }

  lemma OnceInsert(all: seq<Node>, p: nat, n: Node)
    requires Once(all) && p < |all| && forall i | 0 <= i < |all| :: all[i] != n
    ensures Once(Insert(all, p, n))
  {
  }

  lemma {:induction false} AddressedInsert(snaps: seq<Snap>, p: nat, n: Node, s: Snap)
    requires Addressed(snaps) && p < |snaps| && (HasPort(s.entry) ==> s.addr != null)
    requires s.addr == null || forall i | 0 <= i < |snaps| :: snaps[i].addr != s.addr
    ensures Addressed(Insert(snaps[p := snaps[p].(next := n)], p, s))
  {
    hide HasPort;
  }

  /** Nodes of the list are different objects, with different socket addresses. */
  lemma {:induction false} Alone(head: Node?, all: seq<Node>, p: nat)
    requires List(head, all) && p < |all|
    ensures all[p].next == At(all, p + 1) && (HasPort(all[p].Value()) ==> all[p].addr != null)
    ensures forall i | 0 <= i < |all| && i != p ::
              all[i] != all[p] && (all[i].addr == null || all[i].addr != all[p].addr)
  {
    hide HasPort;
    var snaps := Snaps(all);
    assert snaps[p] == SnapOf(all[p]) && snaps[p].next == At(all, p + 1);
    forall i | 0 <= i < |all| && i != p
      ensures all[i] != all[p] && (all[i].addr == null || all[i].addr != all[p].addr)
    {
      assert snaps[i] == SnapOf(all[i]);
    }
  }

  // ---- ga_clone ----

  /** Insert a copy of the node, with a copy of its socket address, after it.  Each of the two
      allocations may fail; when only the second does, the new node is already in the list. */
  method GaClone(ai: Node, budget: nat) returns (n: Node?, left: nat)
    modifies ai`next
    ensures n == null ==> budget < 2
    ensures ai.next != old(ai.next) ==> ai.next != null && fresh(ai.next) && ai.next.next == old(ai.next)
    ensures n == null && ai.next != old(ai.next) ==> ai.next.Value() == CloneOf(ai.Value()).(sock := None)
    ensures n != null ==> left == budget - 2 && fresh(n) && n == ai.next && n.Value() == CloneOf(ai.Value())
    ensures n != null && n.addr != null ==> fresh(n.addr)
    ensures n != null ==> !n.clone && n.family == ai.family && n.socktype == ai.socktype && n.protocol == ai.protocol
    ensures n != null ==> (n.addr == null <==> ai.addr == null)
    ensures n != null && ai.addr != null ==> n.addr.addr == ai.addr.addr && n.addr.port == ai.addr.port
  {
    if budget == 0 {
      return null, 0;
    }
    n := new Node(false, ai.family, ai.socktype, ai.protocol, null, ai.next);
    ai.next := n;
    if budget == 1 {
      return null, 0;
    }
    if ai.addr != null {
      n.addr := new SockAddr(ai.addr.addr, ai.addr.port);
    }
    left := budget - 2;
  }

  /** The list after `ga_clone` on its `p`-th node. */
  lemma {:induction false} Cloned(head: Node?, all: seq<Node>, snaps: seq<Snap>, p: nat, n: Node)
    requires Good(head, all, snaps) && p < |all| && (forall i | 0 <= i < |all| :: all[i] != n)
    requires forall i | 0 <= i < |all| :: SnapOf(all[i]) == if i == p then snaps[p].(next := n) else snaps[i]
    requires n.next == snaps[p].next && n.Value() == CloneOf(snaps[p].entry) && (HasPort(n.Value()) ==> n.addr != null)
    requires n.addr == null || forall i | 0 <= i < |all| :: snaps[i].addr != n.addr
    ensures List(head, Insert(all, p, n))
            && Values(Insert(all, p, n)) == Insert(Entries(snaps), p, CloneOf(snaps[p].entry))
  {
    assert |snaps| == |all|;
    hide Linked, Once, Addressed, Entries, HasPort, CloneOf;
    LinkedInsert(head, all, snaps, p, n, SnapOf(n));
    OnceInsert(all, p, n);
    AddressedInsert(snaps, p, n, SnapOf(n));
    SnapsInsert(all, snaps[p := snaps[p].(next := n)], p, n);
    EntriesInsert(snaps, p, n, SnapOf(n));
  }

  lemma EntriesInsert(snaps: seq<Snap>, p: nat, n: Node, s: Snap)
    requires p < |snaps|
    ensures Entries(Insert(snaps[p := snaps[p].(next := n)], p, s)) == Insert(Entries(snaps), p, s.entry)
  {
  }

  lemma {:induction false} SnapsInsert(all: seq<Node>, snaps: seq<Snap>, p: nat, n: Node)
    requires |snaps| == |all| && p < |all| && forall i | 0 <= i < |all| :: SnapOf(all[i]) == snaps[i]
    ensures Snaps(Insert(all, p, n)) == Insert(snaps, p, SnapOf(n))
  {
    hide SnapOf;
  }

  lemma UnsharedInsert(snaps: seq<Snap>, p: nat, n: Node, s: Snap)
    requires Unshared(snaps) && p < |snaps|
    requires s.addr == null || forall i | 0 <= i < |snaps| :: snaps[i].addr != s.addr
    ensures Unshared(Insert(snaps[p := snaps[p].(next := n)], p, s))
  {
  }

  /** The list when the copy of the node has been linked in but not the copy of its address. */
  lemma {:induction false} ClonedBare(head: Node?, all: seq<Node>, snaps: seq<Snap>, p: nat, n: Node)
    requires Good(head, all, snaps) && p < |all| && (forall i | 0 <= i < |all| :: all[i] != n)
    requires forall i | 0 <= i < |all| :: SnapOf(all[i]) == if i == p then snaps[p].(next := n) else snaps[i]
    requires n.next == snaps[p].next && n.addr == null
    ensures Shape(head, Insert(all, p, n)) && Values(Insert(all, p, n)) == Insert(Entries(snaps), p, n.Value())
  {
    assert |snaps| == |all|;
    hide Linked, Once, Unshared, Entries, HasPort;
    LinkedInsert(head, all, snaps, p, n, SnapOf(n));
    OnceInsert(all, p, n);
    UnsharedInsert(snaps, p, n, SnapOf(n));
    SnapsInsert(all, snaps[p := snaps[p].(next := n)], p, n);
    EntriesInsert(snaps, p, n, SnapOf(n));
  }

  /** What is left of the values when memory runs out at the `p`-th entry: they are as they were,
      or the entry is followed by a copy without an address. */
  predicate Halted(vs: seq<Entry>, p: nat, es: seq<Entry>)
    requires p < |vs|
  {
    es == vs || es == Insert(vs, p, CloneOf(vs[p]).(sock := None))
  }

  /** The nodes are as they were, but perhaps for one new one without an address. */
  ghost predicate Grown(all: seq<Node>, p: nat, all': seq<Node>)
    requires p < |all|
    reads all'`addr
  {
    all' == all || (|all'| == |all| + 1 && all' == Insert(all, p, all'[p + 1]) && all'[p + 1].addr == null)
  }

  lemma {:induction false} Bare(head: Node?, all: seq<Node>, snaps: seq<Snap>, p: nat, m: Node?)
    returns (all': seq<Node>)
    requires Good(head, all, snaps) && p < |all| && |snaps| == |all|
    requires forall i | 0 <= i < |all| :: SnapOf(all[i]) == if i == p then snaps[p].(next := m) else snaps[i]
    requires m != snaps[p].next ==>
               && m != null && (forall i | 0 <= i < |all| :: all[i] != m)
               && m.next == snaps[p].next && m.Value() == CloneOf(snaps[p].entry).(sock := None)
    ensures Shape(head, all') && Halted(Entries(snaps), p, Values(all')) && Grown(all, p, all')
    ensures all' != all ==> all'[p + 1] == m && m != snaps[p].next
  {
    hide Good, Shape, CloneOf;
    if m == snaps[p].next {
      all' := all;
      Unchanged(head, all, snaps);
    } else {
      var n: Node := m;
      ClonedBare(head, all, snaps, p, n);
      EntryAt(snaps, p);
      hide Entries;
      all' := Insert<Node>(all, p, n);
    }
  }

  lemma {:induction false} Unchanged(head: Node?, all: seq<Node>, snaps: seq<Snap>)
    requires Good(head, all, snaps) && |snaps| == |all| && forall i | 0 <= i < |all| :: SnapOf(all[i]) == snaps[i]
    ensures Shape(head, all) && Values(all) == Entries(snaps)
  {
    assert Snaps(all) == snaps;
  }

  lemma {:induction false} Full(head: Node?, all: seq<Node>, snaps: seq<Snap>, p: nat, n: Node)
    requires Good(head, all, snaps) && p < |all| && |snaps| == |all| && (forall i | 0 <= i < |all| :: all[i] != n)
    requires forall i | 0 <= i < |all| :: SnapOf(all[i]) == if i == p then snaps[p].(next := n) else snaps[i]
    requires n.next == snaps[p].next && n.Value() == CloneOf(snaps[p].entry)
    requires HasPort(snaps[p].entry) ==> snaps[p].addr != null
    requires snaps[p].addr != null ==> snaps[p].entry.sock.Some?
    requires n.addr == null || forall i | 0 <= i < |all| :: snaps[i].addr != n.addr
    ensures List(head, Insert(all, p, n))
            && Values(Insert(all, p, n)) == Insert(Entries(snaps), p, CloneOf(Entries(snaps)[p]))
  {
    hide Good, List, Entries, HasPort;
    CloneKeepsFamily(snaps[p].entry);
    Cloned(head, all, snaps, p, n);
    EntryAt(snaps, p);
  }

  /** `ga_clone` on the `p`-th of some nodes: only that one's link changes. */
  method CloneAt(ghost all: seq<Node>, ghost snaps: seq<Snap>, ghost p: nat, ai: Node, budget: nat)
    returns (n: Node?, left: nat, ghost m: Node?)
    requires p < |all| == |snaps| && ai == all[p] && (forall i | 0 <= i < |all| && i != p :: all[i] != ai)
    requires forall i | 0 <= i < |all| :: SnapOf(all[i]) == snaps[i]
    modifies ai`next
    ensures forall i | 0 <= i < |all| :: SnapOf(all[i]) == if i == p then snaps[p].(next := m) else snaps[i]
    ensures m != snaps[p].next ==> m != null && fresh(m) && m.next == snaps[p].next
    ensures n == null ==> budget < 2 && (m != snaps[p].next ==> m.Value() == CloneOf(snaps[p].entry).(sock := None))
    ensures n != null ==> left == budget - 2 && n == m != snaps[p].next && n.Value() == CloneOf(snaps[p].entry)
    ensures n != null && n.addr != null ==> fresh(n.addr)
  {
    assert SnapOf(ai) == snaps[p];
    hide CloneOf;
    n, left := GaClone(ai, budget);
    m := ai.next;
  }

  method CloneIn(head: Node?, ghost all: seq<Node>, ghost p: nat, ai: Node, budget: nat)
    returns (n: Node?, left: nat, ghost all': seq<Node>)
    requires List(head, all) && p < |all| && ai == all[p]
    modifies ai`next
    ensures n == null ==> budget < 2 && Shape(head, all') && Halted(old(Values(all)), p, Values(all'))
    ensures n == null ==> Grown(all, p, all') && (all' != all ==> fresh(all'[p + 1]))
    ensures n != null ==> left == budget - 2 && fresh(n) && (n.addr == null || fresh(n.addr))
    ensures n != null ==> all' == Insert<Node>(all, p, n) && List(head, all')
    ensures n != null ==> Values(all') == Insert(old(Values(all)), p, CloneOf(old(Values(all))[p]))
  {
    ghost var snaps := Snaps(all);
    Alone(head, all, p);
    assert Good(head, all, snaps) && snaps[p] == SnapOf(ai);
    hide CloneOf, HasPort, Good, List, Entries, Shape, Halted, Insert;
    ghost var m;
    n, left, m := CloneAt(all, snaps, p, ai, budget);
    if n != null {
      Full(head, all, snaps, p, n);
      all' := Insert<Node>(all, p, n);
    } else {
      all' := Bare(head, all, snaps, p, m);
    }
  }

  lemma CloneKeepsFamily(e: Entry)
    ensures HasPort(CloneOf(e)) == HasPort(e) && CloneOf(e).sock == e.sock
  {
  }

  // ---- ga_port ----

  /** The list after one entry, and nothing else, has changed. */
  lemma {:induction false} Changed(head: Node?, all: seq<Node>, snaps: seq<Snap>, q: nat, e: Entry)
    requires Good(head, all, snaps) && q < |all| && e.family == snaps[q].entry.family
    requires forall i | 0 <= i < |all| :: SnapOf(all[i]) == if i == q then snaps[q].(entry := e) else snaps[i]
    ensures List(head, all) && Values(all) == Entries(snaps)[q := e]
  {
    assert Snaps(all) == snaps[q := snaps[q].(entry := e)];
    assert Entries(Snaps(all)) == Entries(snaps)[q := e];
  }

  /** Set the socket type, and the port if there is one. */
  method AssignNode(ai: Node, port: int, socktype: int) returns (hits: nat)
    requires HasPort(ai.Value()) ==> ai.addr != null
    modifies ai`socktype, ai.addr
    ensures ai.Value() == Assign(old(ai.Value()), port, socktype)
    ensures hits == if HasPort(old(ai.Value())) then 1 else 0
  {
    ai.socktype := socktype;
    hits := 0;
    match ai.family {
      case Inet =>
        ai.addr.port := port;
        hits := 1;
      case Inet6 =>
        ai.addr.port := port;
        hits := 1;
      case OtherFamily =>
    }
  }

  /** The same for the `q`-th entry of a list: its socket address is its own, so no other
      entry changes. */
  method AssignIn(head: Node?, ghost all: seq<Node>, ghost q: nat, ai: Node, port: int, socktype: int)
    returns (hits: nat)
    requires List(head, all) && q < |all| && ai == all[q]
    modifies ai`socktype, ai.addr
    ensures List(head, all) && Values(all) == old(Values(all))[q := Assign(old(Values(all))[q], port, socktype)]
    ensures hits == if HasPort(old(Values(all))[q]) then 1 else 0
  {
    ghost var snaps := Snaps(all);
    Alone(head, all, q);
    ghost var e := Assign(ai.Value(), port, socktype);
    assert Good(head, all, snaps) && snaps[q] == SnapOf(ai) && e.family == ai.family;
    hide Good, List, Entries, HasPort, Assign;
    hits := AssignNode(ai, port, socktype);
    assert forall i | 0 <= i < |all| :: SnapOf(all[i]) == if i == q then snaps[q].(entry := e) else snaps[i];
    Changed(head, all, snaps, q, e);
    assert Values(all) == Entries(snaps)[q := e];
    EntryAt(snaps, q);
  }

  lemma EntryAt(snaps: seq<Snap>, q: nat)
    requires q < |snaps|
    ensures Entries(snaps)[q] == snaps[q].entry
  {
  }

  lemma {:induction false} PortNext(es: seq<Entry>, k: nat, port: int, socktype: int)
    requires k < |es|
    ensures PortAll(es[..k + 1], port, socktype) == PortAll(es[..k], port, socktype) + PortOne(es[k], port, socktype)
    ensures Found(es[..k + 1], socktype) == Found(es[..k], socktype) + Hits(es[k], socktype)
  {
    hide PortOne, Hits;
    assert es[..k + 1] == es[..k] + [es[k]];
    PortAllAppend(es[..k], [es[k]], port, socktype);
    assert PortAll([es[k]], port, socktype) == PortOne(es[k], port, socktype) + PortAll([], port, socktype);
    FoundAppend(es[..k], es[k], socktype);
  }

  lemma {:induction false} FoundAppend(es: seq<Entry>, e: Entry, socktype: int)
    ensures Found(es + [e], socktype) == Found(es, socktype) + Hits(e, socktype)
  {
    hide Hits;
    if es == [] {
      assert [] + [e] == [e];
    } else {
      FoundAppend(es[1..], e, socktype);
      assert (es + [e])[1..] == es[1..] + [e];
    }
  }

  function Splice(es: seq<Entry>, p: nat, mid: seq<Entry>): seq<Entry>
    requires p < |es|
  {
    es[..p] + mid + es[p + 1..]
  }

  lemma SpliceTwo(es: seq<Entry>, p: nat, e: Entry, e': Entry)
    requires p < |es|
    ensures es == Splice(es, p, [es[p]]) && es[p := e] == Splice(es, p, [e])
    ensures Insert(es, p, e)[p + 1 := e'] == Splice(es, p, [es[p], e'])
  {
  }

  /** One turn of the walk: `last` is the node whose successor comes next, or null when memory
      ran out; the list gets the entries for the one visited in its place. */
  method Visit(head: Node?, ghost all: seq<Node>, ghost p: nat, ai: Node, port: int, socktype: int, budget: nat)
    returns (last: Node?, hits: nat, left: nat, ghost all': seq<Node>)
    requires List(head, all) && p < |all| && ai == all[p]
    modifies ai`next, ai`socktype, ai.addr
    ensures last == null ==> budget < 2 && Shape(head, all') && Halted(old(Values(all)), p, Values(all'))
    ensures last == null ==> Grown(all, p, all') && (all' != all ==> fresh(all'[p + 1]))
    ensures last != null ==> 0 <= budget - left <= 2 && hits == Hits(old(Values(all))[p], socktype)
    ensures last == ai ==> all' == all
    ensures last != null && last != ai ==>
              all' == Insert<Node>(all, p, last) && fresh(last) && (last.addr == null || fresh(last.addr))
    ensures last != null ==> List(head, all')
    ensures last != null ==>
              Values(all') == Splice(old(Values(all)), p, PortOne(old(Values(all))[p], port, socktype))
  {
    ghost var vals := Values(all);
    assert vals[p] == ai.Value();
    ghost var e := vals[p];
    SpliceTwo(vals, p, Assign(e, port, socktype), e);
    SpliceTwo(vals, p, CloneOf(e), Assign(CloneOf(e), port, socktype));
    hide List, Values, Assign, Splice, Shape, Halted, Insert;
    left, hits, all' := budget, 0, all;
    last := ai;
    if ai.clone {
      if ai.socktype != 0 {
        last, left, all' := CloneIn(head, all, p, ai, budget);
        if last != null {
          hits := AssignIn(head, all', p + 1, last, port, socktype);
        }
        return;
      }
    } else if ai.socktype != socktype {
      return;
    }
    hits := AssignIn(head, all, p, ai, port, socktype);
  }

  /** The nodes and their socket addresses are among `repr`. */
  ghost predicate Owned(all: seq<Node>, repr: set<object>)
    reads all`addr
  {
    forall i | 0 <= i < |all| :: all[i] in repr && (all[i].addr == null || all[i].addr in repr)
  }

  /** The entry visited next, and the list with that entry replaced by what is made of it. */
  lemma {:induction false} Progress(vs: seq<Entry>, k: nat, port: int, socktype: int)
    requires k < |vs|
    ensures var out, now := PortAll(vs[..k], port, socktype), PortAll(vs[..k], port, socktype) + vs[k..];
            now[|out|] == vs[k]
            && Splice(now, |out|, PortOne(vs[k], port, socktype)) == PortAll(vs[..k + 1], port, socktype) + vs[k + 1..]
            && |PortAll(vs[..k + 1], port, socktype)| == |out| + |PortOne(vs[k], port, socktype)|
  {
    PortNext(vs, k, port, socktype);
    hide PortAll, PortOne, Splice;
    SplicePut(PortAll(vs[..k], port, socktype), vs, k, PortOne(vs[k], port, socktype));
  }

  lemma {:induction false} SplicePut(out: seq<Entry>, vs: seq<Entry>, k: nat, mid: seq<Entry>)
    requires k < |vs|
    ensures (out + vs[k..])[|out|] == vs[k] && Splice(out + vs[k..], |out|, mid) == out + mid + vs[k + 1..]
  {
    var now := out + vs[k..];
    assert now[..|out|] == out;
    assert now[|out| + 1..] == vs[k..][1..];
    assert vs[k..][1..] == vs[k + 1..];
  }

  /** How far the walk has come: `k` of the entries of `vs` have been visited. */
  ghost predicate Walked(head: Node?, all: seq<Node>, vs: seq<Entry>, k: nat, port: int, socktype: int)
    reads all, Addrs(all)
  {
    && k <= |vs| && List(head, all)
    && Values(all) == PortAll(vs[..k], port, socktype) + vs[k..]
  }

  /** The node to visit next. */
  ghost function Place(vs: seq<Entry>, k: nat, port: int, socktype: int): nat
    requires k <= |vs|
  {
    |PortAll(vs[..k], port, socktype)|
  }

  /** What the walk leaves when memory runs out at the `k`-th entry of `vs`. */
  ghost predicate HaltedAt(vs: seq<Entry>, k: nat, port: int, socktype: int, es: seq<Entry>)
    requires k < |vs|
  {
    Halted(PortAll(vs[..k], port, socktype) + vs[k..], Place(vs, k, port, socktype), es)
  }

  /** What ga_port leaves when memory runs out somewhere. */
  ghost predicate CutShort(vs: seq<Entry>, port: int, socktype: int, es: seq<Entry>) {
    exists k | 0 <= k < |vs| :: HaltedAt(vs, k, port, socktype, es)
  }

  lemma {:induction false} HaltsAt(vs: seq<Entry>, k: nat, port: int, socktype: int, es: seq<Entry>)
    requires k < |vs|
    requires Halted(PortAll(vs[..k], port, socktype) + vs[k..], Place(vs, k, port, socktype), es)
    ensures CutShort(vs, port, socktype, es)
  {
    hide Halted, PortAll, Place;
    assert HaltedAt(vs, k, port, socktype, es);
  }

  lemma {:induction false} Stepping(head: Node?, all: seq<Node>, vs: seq<Entry>, k: nat, port: int, socktype: int)
    requires Walked(head, all, vs, k, port, socktype) && k < |vs|
    ensures var p := Place(vs, k, port, socktype);
            && List(head, all) && p < |all| == p + |vs| - k && At(all, p) == all[p] && Values(all)[p] == vs[k]
            && Values(all) == PortAll(vs[..k], port, socktype) + vs[k..]
            && Splice(Values(all), p, PortOne(vs[k], port, socktype)) ==
                 PortAll(vs[..k + 1], port, socktype) + vs[k + 1..]
  {
    Progress(vs, k, port, socktype);
    hide List, Values, PortAll, PortOne, Splice;
  }

  lemma {:induction false} Stepped(head: Node?, all: seq<Node>, vs: seq<Entry>, k: nat, port: int, socktype: int)
    requires k < |vs| && List(head, all) && Values(all) == PortAll(vs[..k + 1], port, socktype) + vs[k + 1..]
    ensures Walked(head, all, vs, k + 1, port, socktype)
    ensures 0 < Place(vs, k + 1, port, socktype) <= |all|
    ensures all[Place(vs, k + 1, port, socktype) - 1].next == At(all, Place(vs, k + 1, port, socktype))
    ensures |all| == Place(vs, k + 1, port, socktype) + |vs| - k - 1
  {
    Progress(vs, k, port, socktype);
    hide List, Values, PortAll, PortOne, Splice;
    NextIs(head, all, Place(vs, k + 1, port, socktype) - 1);
  }

  lemma OwnedAt(all: seq<Node>, p: nat, repr: set<object>)
    requires Owned(all, repr) && p < |all|
    ensures all[p] in repr && (all[p].addr == null || all[p].addr in repr)
  {
  }

  lemma {:induction false} OwnedGrown(all: seq<Node>, p: nat, all': seq<Node>, repr: set<object>)
    requires Owned(all, repr) && p < |all| && Grown(all, p, all') && all' != all
    ensures p + 1 < |all'| && Owned(all', repr + {all'[p + 1]})
  {
    hide Owned;
    OwnedInsert(all, p, all'[p + 1], repr, repr + {all'[p + 1]});
  }

  lemma OwnedInsert(all: seq<Node>, p: nat, n: Node, repr: set<object>, repr': set<object>)
    requires Owned(all, repr) && p < |all| && repr <= repr' && n in repr' && (n.addr == null || n.addr in repr')
    ensures Owned(Insert(all, p, n), repr')
  {
  }

  /** Visit the next node; `next` is the one after it. */
  method Turn(head: Node?, ghost all: seq<Node>, ghost vs: seq<Entry>, ghost k: nat, ai: Node, port: int, socktype: int,
              budget: nat, ghost repr: set<object>)
    returns (next: Node?, hits: int, left: nat, ghost all': seq<Node>, ghost repr': set<object>)
    requires Walked(head, all, vs, k, port, socktype) && k < |vs| && ai == At(all, Place(vs, k, port, socktype))
    requires Owned(all, repr)
    modifies repr
    ensures hits < 0 ==> budget < 2 && Shape(head, all') && CutShort(vs, port, socktype, Values(all'))
    ensures hits >= 0 ==> 0 <= budget - left <= 2 && hits == Hits(vs[k], socktype)
    ensures hits >= 0 ==> Walked(head, all', vs, k + 1, port, socktype)
    ensures hits >= 0 ==> next == At(all', Place(vs, k + 1, port, socktype))
    ensures Owned(all', repr') && repr <= repr' && fresh(repr' - repr)
  {
    hide *;
    Stepping(head, all, vs, k, port, socktype);
    ghost var p := Place(vs, k, port, socktype);
    OwnedAt(all, p, repr);
    repr' := repr;
    var last;
    last, hits, left, all' := Visit(head, all, p, ai, port, socktype, budget);
    if last == null {
      HaltsAt(vs, k, port, socktype, Values(all'));
      if all' != all {
        OwnedGrown(all, p, all', repr);
        repr' := repr + {all'[p + 1]};
      }
      return null, -1, 0, all', repr';
    }
    Stepped(head, all', vs, k, port, socktype);
    next := last.next;
    if last != ai {
      ghost var added: Node := last;
      repr' := repr + {added} + if added.addr == null then {} else {added.addr};
      OwnedInsert(all, p, added, repr, repr');
    }
  }

  /** The walk is at `ai`, with `nfound` ports set in the `k` entries behind it. */
  ghost predicate AtNode(head: Node?, all: seq<Node>, vs: seq<Entry>, k: nat, port: int, socktype: int, ai: Node?,
                         nfound: int)
    reads all, Addrs(all)
  {
    && Walked(head, all, vs, k, port, socktype)
    && ai == At(all, Place(vs, k, port, socktype)) && nfound == Found(vs[..k], socktype)
  }

  method Advance(head: Node?, ghost all: seq<Node>, ghost vs: seq<Entry>, ghost k: nat, ai: Node, port: int,
                 socktype: int, nfound: nat, budget: nat, ghost repr: set<object>)
    returns (next: Node?, sum: int, left: nat, ghost all': seq<Node>, ghost repr': set<object>)
    requires AtNode(head, all, vs, k, port, socktype, ai, nfound) && Owned(all, repr)
    modifies repr
    ensures k < |vs|
    ensures sum < 0 ==> sum == -1 && budget < 2 && Shape(head, all') && CutShort(vs, port, socktype, Values(all'))
    ensures sum >= 0 ==> 0 <= budget - left <= 2 && AtNode(head, all', vs, k + 1, port, socktype, next, sum)
    ensures Owned(all', repr') && repr <= repr' && fresh(repr' - repr)
  {
    WalkGoesOn(head, all, vs, k, port, socktype);
    hide Walked, Owned, Found, At, Place, Hits, Values, CutShort, Shape;
    var hits;
    next, hits, left, all', repr' := Turn(head, all, vs, k, ai, port, socktype, budget, repr);
    sum := if hits < 0 then -1 else nfound + hits;
  }

  /** The walk visits each entry that was in the list once, although entries are inserted
      behind the ones it visits.  It fails only when memory runs out. */
  method GaPort(head: Node?, port: int, socktype: int, budget: nat,
                ghost spine: seq<Node>, ghost vs: seq<Entry>, ghost repr: set<object>)
    returns (nfound: int, left: nat, ghost all: seq<Node>, ghost repr': set<object>)
    requires List(head, spine) && Values(spine) == vs && Owned(spine, repr)
    modifies repr
    ensures nfound < 0 ==> nfound == -1 && budget < 2 * |vs|
    ensures nfound < 0 ==> Shape(head, all) && CutShort(vs, port, socktype, Values(all))
    ensures nfound >= 0 ==> nfound == Found(vs, socktype) && 0 <= budget - left <= 2 * |vs|
    ensures nfound >= 0 ==> List(head, all) && Values(all) == PortAll(vs, port, socktype)
    ensures Owned(all, repr') && repr <= repr' && fresh(repr' - repr)
  {
    WalkStarts(head, spine, port, socktype);
    hide *;
    ghost var k;
    nfound, left, k, all, repr' := Walk(head, port, socktype, budget, spine, vs, repr);
    if nfound >= 0 {
      WalkEnds(head, all, vs, k, port, socktype, nfound);
    }
  }

  /** The loop of ga_port. */
  method Walk(head: Node?, port: int, socktype: int, budget: nat,
              ghost spine: seq<Node>, ghost vs: seq<Entry>, ghost repr: set<object>)
    returns (nfound: int, left: nat, ghost k: nat, ghost all: seq<Node>, ghost repr': set<object>)
    requires AtNode(head, spine, vs, 0, port, socktype, head, 0) && Owned(spine, repr)
    modifies repr
    ensures nfound < 0 ==> nfound == -1 && budget < 2 * |vs|
    ensures nfound < 0 ==> Shape(head, all) && CutShort(vs, port, socktype, Values(all))
    ensures nfound >= 0 ==> AtNode(head, all, vs, k, port, socktype, null, nfound)
    ensures nfound >= 0 ==> k <= |vs| && 0 <= budget - left <= 2 * |vs|
    ensures Owned(all, repr') && repr <= repr' && fresh(repr' - repr)
  {
    hide *;
    k, all, repr', nfound, left := 0, spine, repr, 0, budget;
    var ai := head;
    while ai != null
      invariant nfound >= 0 && AtNode(head, all, vs, k, port, socktype, ai, nfound)
      invariant Owned(all, repr') && repr <= repr' && fresh(repr' - repr)
      invariant k <= |vs| && 0 <= budget - left <= 2 * k
      decreases |vs| - k
    {
      ai, nfound, left, all, repr' := Advance(head, all, vs, k, ai, port, socktype, nfound, left, repr');
      if nfound < 0 {
        return;
      }
      k := k + 1;
    }
  }

  lemma WalkStarts(head: Node?, spine: seq<Node>, port: int, socktype: int)
    requires List(head, spine)
    ensures AtNode(head, spine, Values(spine), 0, port, socktype, head, 0)
  {
  }

  lemma {:induction false} WalkGoesOn(head: Node?, all: seq<Node>, vs: seq<Entry>, k: nat, port: int, socktype: int)
    requires Walked(head, all, vs, k, port, socktype) && At(all, Place(vs, k, port, socktype)) != null
    ensures k < |vs| && Found(vs[..k + 1], socktype) == Found(vs[..k], socktype) + Hits(vs[k], socktype)
  {
    hide PortAll, List, Values, Hits;
    FoundAppend(vs[..k], vs[k], socktype);
    assert vs[..k + 1] == vs[..k] + [vs[k]];
  }

  lemma {:induction false} WalkEnds(head: Node?, all: seq<Node>, vs: seq<Entry>, k: nat, port: int, socktype: int,
                                    nfound: int)
    requires AtNode(head, all, vs, k, port, socktype, null, nfound)
    ensures List(head, all) && Values(all) == PortAll(vs, port, socktype) && nfound == Found(vs, socktype)
  {
    hide PortAll, List, Values;
    assert |vs| == k && vs[..k] == vs && PortAll(vs, port, socktype) + vs[k..] == PortAll(vs, port, socktype);
  }

  lemma {:induction false} NextIs(head: Node?, all: seq<Node>, q: nat)
    requires List(head, all) && q < |all|
    ensures all[q].next == At(all, q + 1)
  {
    Alone(head, all, q);
  }

  // ---- ga_aistruct ----

  /** The list after its last node has been linked to `n`. */
  lemma {:induction false} Appended(head: Node?, all: seq<Node>, snaps: seq<Snap>, n: Node)
    requires Good(head, all, snaps) && |all| > 0 && (forall i | 0 <= i < |all| :: all[i] != n)
    requires forall i | 0 <= i < |all| :: SnapOf(all[i]) == if i == |all| - 1 then snaps[i].(next := n) else snaps[i]
    requires n.next == null && (n.addr == null || forall i | 0 <= i < |all| :: snaps[i].addr != n.addr)
    ensures Shape(head, all + [n]) && Values(all + [n]) == Entries(snaps) + [n.Value()]
    ensures (HasPort(n.Value()) ==> n.addr != null) ==> List(head, all + [n])
  {
    var p := |all| - 1;
    assert |snaps| == |all| && snaps[p].next == null && Unshared(snaps);
    hide Linked, Once, Addressed, HasPort, Unshared;
    LinkedInsert(head, all, snaps, p, n, SnapOf(n));
    OnceInsert(all, p, n);
    UnsharedInsert(snaps, p, n, SnapOf(n));
    if HasPort(n.Value()) ==> n.addr != null {
      AddressedInsert(snaps, p, n, SnapOf(n));
    }
    SnapsInsert(all, snaps[p := snaps[p].(next := n)], p, n);
    EntriesInsert(snaps, p, n, SnapOf(n));
    assert Insert(all, p, n) == all + [n];
    assert Insert(Entries(snaps), p, n.Value()) == Entries(snaps) + [n.Value()];
  }

  /** Link an addrinfo behind the last one (`tail`, or as the head when there is none). */
  method LinkLast(head: Node?, tail: Node?, n: Node, ghost all: seq<Node>, ghost snaps: seq<Snap>)
    returns (head': Node)
    requires Good(head, all, snaps) && |snaps| == |all| && forall i | 0 <= i < |all| :: SnapOf(all[i]) == snaps[i]
    requires tail == (if all == [] then null else all[|all| - 1])
    requires n.next == null
    requires forall i | 0 <= i < |all| :: all[i] != n && (n.addr == null || snaps[i].addr != n.addr)
    modifies (if tail == null then {} else {tail})`next
    ensures Shape(head', all + [n]) && Values(all + [n]) == Entries(snaps) + [old(n.Value())]
    ensures (HasPort(n.Value()) ==> n.addr != null) ==> List(head', all + [n])
  {
    if tail == null {
      Single(n);
      hide *;
      assert all + [n] == [n] && Entries(snaps) == [];
      head' := n;
    } else {
      head' := head;
      LastOnce(head, all, snaps);
      hide Good, List, Shape, Entries, HasPort, Values;
      Behind(tail, n, all, snaps);
      Appended(head, all, snaps, n);
    }
  }

  method Behind(tail: Node, n: Node, ghost all: seq<Node>, ghost snaps: seq<Snap>)
    requires all != [] && |snaps| == |all| && tail == all[|all| - 1] && n != tail
    requires forall i | 0 <= i < |all| - 1 :: all[i] != tail
    requires forall i | 0 <= i < |all| :: SnapOf(all[i]) == snaps[i]
    modifies tail`next
    ensures forall i | 0 <= i < |all| :: SnapOf(all[i]) == if i == |all| - 1 then snaps[i].(next := n) else snaps[i]
    ensures SnapOf(n) == old(SnapOf(n))
  {
    tail.next := n;
  }

  lemma LastOnce(head: Node?, all: seq<Node>, snaps: seq<Snap>)
    requires Good(head, all, snaps) && all != []
    ensures forall i | 0 <= i < |all| - 1 :: all[i] != all[|all| - 1]
  {
  }

  lemma Single(n: Node)
    requires n.next == null
    ensures Shape(n, [n]) && Values([n]) == [n.Value()] && ((HasPort(n.Value()) ==> n.addr != null) ==> List(n, [n]))
  {
  }

  /** Make the addrinfo; without memory for its socket address it stays without one. */
  method MakeStruct(hint: int, protocol: int, family: Family, addr: seq<byte>, budget: nat)
    returns (ok: bool, ai: Node?, left: nat, ghost mine: set<object>)
    ensures !ok ==> budget < 2
    ensures ai == null ==> budget == 0 && !ok
    ensures !ok && ai != null ==> ai.Value() == Struct(hint, protocol, family, addr).(sock := None)
    ensures ai != null ==> ai.next == null && ai in mine && (ai.addr == null || ai.addr in mine)
    ensures fresh(mine)
    ensures ok ==> ai.Value() == Struct(hint, protocol, family, addr) && (HasPort(ai.Value()) ==> ai.addr != null)
    ensures ok ==> budget - 2 <= left
  {
    if budget == 0 {
      return false, null, 0, {};
    }
    var made := new Node(hint == 0, family, hint, protocol, null, null);
    ai, mine, left := made, {made}, budget - 1;
    if !family.OtherFamily? {
      if left == 0 {
        return false, ai, 0, mine;
      }
      left := left - 1;
      var sa := new SockAddr(addr, 0);
      made.addr := sa;
      mine := {made, sa};
    }
    ok := true;
  }

  /** Append the addrinfo for an address. */
  method GaAistruct(head: Node?, tail: Node?, hint: int, protocol: int, family: Family, addr: seq<byte>, budget: nat,
                    ghost all: seq<Node>, ghost repr: set<object>)
    returns (rc: int, head': Node?, tail': Node?, left: nat, ghost all': seq<Node>, ghost repr': set<object>)
    requires List(head, all) && Owned(all, repr) && tail == (if all == [] then null else all[|all| - 1])
    modifies (if tail == null then {} else {tail})`next
    ensures rc == 0 || (rc == EAI_MEMORY && budget < 2)
    ensures rc == 0 ==> budget - 2 <= left
    ensures rc == 0 ==> List(head', all') && |all'| == |all| + 1 && tail' == all'[|all|]
    ensures rc == 0 ==> Values(all') == old(Values(all)) + [Struct(hint, protocol, family, addr)]
    ensures rc == 0 ==> tail'.clone == (hint == 0) && tail'.socktype == hint && tail'.protocol == protocol
    ensures rc == 0 ==> tail'.family == family && (tail'.addr == null <==> family.OtherFamily?)
    ensures rc == 0 && tail'.addr != null ==> tail'.addr.addr == addr && tail'.addr.port == 0
    ensures rc != 0 ==> Shape(head', all')
    ensures rc != 0 ==> Unfinished(old(Values(all)), Struct(hint, protocol, family, addr), Values(all'))
    ensures Owned(all', repr') && repr <= repr' && fresh(repr' - repr)
  {
    assert EAI_MEMORY != 0;
    ghost var snaps := Snaps(all);
    assert Good(head, all, snaps);
    ListShape(head, all);
    hide Good, Entries, Struct, HasPort, EAI_MEMORY, List, Shape;
    repr', head', all' := repr, head, all;
    var ok;
    ghost var mine: set<object>;
    ok, tail', left, mine := MakeStruct(hint, protocol, family, addr, budget);
    rc := if ok then 0 else EAI_MEMORY;
    if tail' != null {
      var ai: Node := tail';
      assert forall i | 0 <= i < |all| :: SnapOf(all[i]) == snaps[i];
      assert Owned(all, repr);
      hide Owned, Values;
      head' := LinkLast(head, tail, ai, all, snaps);
      repr' := repr + mine;
      OwnedAppend(all, ai, repr, repr');
      all' := all + [ai];
    }
  }

  /** The values when memory runs out in ga_aistruct: the new entry is missing, or has no address. */
  predicate Unfinished(vs: seq<Entry>, e: Entry, es: seq<Entry>) {
    es == vs || es == vs + [e.(sock := None)]
  }

  lemma OwnedAppend(all: seq<Node>, n: Node, repr: set<object>, repr': set<object>)
    requires Owned(all, repr) && repr <= repr' && n in repr' && (n.addr == null || n.addr in repr')
    ensures Owned(all + [n], repr')
  {
  }

  // ---- ga_serv ----

  /** The list and the count of ports set after the calls `cs`. */
  ghost predicate Called(head: Node?, all: seq<Node>, vs: seq<Entry>, cs: seq<Service>, nfound: int)
    reads all, Addrs(all)
  {
    List(head, all) && Values(all) == PortCalls(vs, cs) && nfound == FoundCalls(vs, cs)
  }

  lemma CalledNone(head: Node?, all: seq<Node>)
    requires List(head, all)
    ensures Called(head, all, Values(all), [], 0)
  {
  }

  lemma {:induction false} CalledMore(head: Node?, all: seq<Node>, vs: seq<Entry>, cs: seq<Service>, nfound: int,
                                      c: Service)
    requires List(head, all) && Values(all) == PortAll(PortCalls(vs, cs), c.port, c.socktype)
    requires nfound == FoundCalls(vs, cs) + Found(PortCalls(vs, cs), c.socktype)
    ensures Called(head, all, vs, cs + [c], nfound) && |all| <= 2 * |PortCalls(vs, cs)|
  {
    PortAllAtMostDoubles(PortCalls(vs, cs), c.port, c.socktype);
    hide List, Values, PortAll, Found;
    assert (cs + [c])[..|cs|] == cs;
  }

  lemma CalledIs(head: Node?, all: seq<Node>, vs: seq<Entry>, cs: seq<Service>, nfound: int)
    requires Called(head, all, vs, cs, nfound)
    ensures List(head, all) && Values(all) == PortCalls(vs, cs) && nfound == FoundCalls(vs, cs)
            && |PortCalls(vs, cs)| == |all|
  {
  }

  /** What the calls `cs` leave when memory runs out in one of them. */
  ghost predicate Broken(vs: seq<Entry>, cs: seq<Service>, es: seq<Entry>) {
    exists j | 0 <= j < |cs| :: BrokenAt(vs, cs, j, es)
  }

  ghost predicate BrokenAt(vs: seq<Entry>, cs: seq<Service>, j: nat, es: seq<Entry>)
    requires j < |cs|
  {
    CutShort(PortCalls(vs, cs[..j]), cs[j].port, cs[j].socktype, es)
  }

  lemma {:induction false} BreaksLast(vs: seq<Entry>, cs: seq<Service>, c: Service, es: seq<Entry>)
    requires CutShort(PortCalls(vs, cs), c.port, c.socktype, es)
    ensures Broken(vs, cs + [c], es)
  {
    hide CutShort, PortCalls;
    assert (cs + [c])[..|cs|] == cs;
    assert BrokenAt(vs, cs + [c], |cs|, es);
  }

  lemma {:induction false} BreaksMore(vs: seq<Entry>, cs: seq<Service>, ds: seq<Service>, es: seq<Entry>)
    requires Broken(vs, cs, es)
    ensures Broken(vs, cs + ds, es)
  {
    hide CutShort, PortCalls;
    var j :| 0 <= j < |cs| && BrokenAt(vs, cs, j, es);
    assert (cs + ds)[..j] == cs[..j];
    assert BrokenAt(vs, cs + ds, j, es);
  }

  method Call(head: Node?, port: int, socktype: int, nfound: int, budget: nat,
              ghost vs: seq<Entry>, ghost cs: seq<Service>, ghost all: seq<Node>, ghost repr: set<object>)
    returns (ok: bool, sum: int, left: nat, ghost all': seq<Node>, ghost repr': set<object>)
    requires Called(head, all, vs, cs, nfound) && Owned(all, repr)
    modifies repr
    ensures !ok ==> budget < 2 * |all|
    ensures !ok ==> Shape(head, all') && Broken(vs, cs + [Service(port, socktype)], Values(all'))
    ensures ok ==> Called(head, all', vs, cs + [Service(port, socktype)], sum)
    ensures ok ==> budget - left <= 2 * |all| && |all'| <= 2 * |all|
    ensures Owned(all', repr') && repr <= repr' && fresh(repr' - repr)
  {
    hide *;
    CalledIs(head, all, vs, cs, nfound);
    var rc;
    rc, left, all', repr' := GaPort(head, port, socktype, budget, all, PortCalls(vs, cs), repr);
    if rc < 0 {
      BreaksLast(vs, cs, Service(port, socktype), Values(all'));
      return false, 0, 0, all', repr';
    }
    CalledMore(head, all', vs, cs, nfound + rc, Service(port, socktype));
    return true, nfound + rc, left, all', repr';
  }

  /** One name looked up for one protocol. */
  method Lookup(head: Node?, hint: int, port: Option<int>, socktype: int, nfound: int, budget: nat,
                ghost vs: seq<Entry>, ghost cs: seq<Service>, ghost all: seq<Node>, ghost repr: set<object>)
    returns (ok: bool, sum: int, left: nat, ghost all': seq<Node>, ghost repr': set<object>)
    requires Called(head, all, vs, cs, nfound) && Owned(all, repr)
    modifies repr
    ensures !ok ==> budget < 2 * |all|
    ensures !ok ==> Shape(head, all') && Broken(vs, cs + Offered(hint, port, socktype), Values(all'))
    ensures ok ==> Called(head, all', vs, cs + Offered(hint, port, socktype), sum)
    ensures ok ==> budget - left <= 2 * |all| && |all'| <= 2 * |all|
    ensures Owned(all', repr') && repr <= repr' && fresh(repr' - repr)
  {
    ghost var offered := Offered(hint, port, socktype);
    assert offered == [] ==> cs + offered == cs;
    hide *;
    ok, sum, left, all', repr' := true, nfound, budget, all, repr;
    if hint == 0 || hint == socktype {
      if port.Some? {
        ok, sum, left, all', repr' := Call(head, port.value, socktype, nfound, budget, vs, cs, all, repr);
      }
    }
  }

  method PortName(head: Node?, hint: int, tcp: Option<int>, udp: Option<int>, budget: nat, ghost spine: seq<Node>,
                  ghost repr: set<object>)
    returns (ok: bool, nfound: int, ghost all: seq<Node>, ghost repr': set<object>)
    requires List(head, spine) && Owned(spine, repr)
    modifies repr
    ensures !ok ==> budget < 6 * |spine|
    ensures !ok ==> Shape(head, all) && Broken(old(Values(spine)), Calls(hint, Name(tcp, udp)), Values(all))
    ensures ok ==> Called(head, all, old(Values(spine)), Calls(hint, Name(tcp, udp)), nfound)
    ensures Owned(all, repr') && repr <= repr' && fresh(repr' - repr)
  {
    ghost var vs: seq<Entry> := Values(spine);
    ghost var first := Offered(hint, tcp, SOCK_STREAM);
    assert [] + first == first && Calls(hint, Name(tcp, udp)) == first + Offered(hint, udp, SOCK_DGRAM);
    CalledNone(head, spine);
    hide *;
    var left;
    ok, nfound, left, all, repr' := Lookup(head, hint, tcp, SOCK_STREAM, 0, budget, vs, [], spine, repr);
    if ok {
      ok, nfound, left, all, repr' := Lookup(head, hint, udp, SOCK_DGRAM, nfound, left, vs, first, all, repr');
    } else {
      BreaksMore(vs, first, Offered(hint, udp, SOCK_DGRAM), Values(all));
    }
  }

  method PortNumber(head: Node?, hint: int, port: int, budget: nat, ghost spine: seq<Node>, ghost repr: set<object>)
    returns (ok: bool, nfound: int, ghost all: seq<Node>, ghost repr': set<object>)
    requires List(head, spine) && Owned(spine, repr)
    modifies repr
    ensures !ok ==> budget < 6 * |spine|
    ensures !ok ==> Shape(head, all) && Broken(old(Values(spine)), Calls(hint, Numeric(port)), Values(all))
    ensures ok ==> Called(head, all, old(Values(spine)), Calls(hint, Numeric(port)), nfound)
    ensures Owned(all, repr') && repr <= repr' && fresh(repr' - repr)
  {
    CallsNumeric(hint, port);
    if hint != 0 {
      ghost var vs: seq<Entry> := Values(spine);
      CalledNone(head, spine);
      assert [] + [Service(port, hint)] == [Service(port, hint)];
      hide *;
      var left;
      ok, nfound, left, all, repr' := Call(head, port, hint, 0, budget, vs, [], spine, repr);
    } else {
      hide *;
      ok, nfound, all, repr' := PortName(head, 0, Some(port), Some(port), budget, spine, repr);
    }
  }

  /** The calls of ga_port for a service, on the list.  It fails for want of memory only when
      memory runs out, and otherwise exactly when no port was set. */
  method GaServ(head: Node?, hint: int, serv: Serv, budget: nat, ghost spine: seq<Node>, ghost repr: set<object>)
    returns (rc: int, ghost all: seq<Node>, ghost repr': set<object>)
    requires List(head, spine) && Owned(spine, repr)
    modifies repr
    ensures rc == EAI_MEMORY ==> budget < 6 * |spine|
    ensures rc == EAI_MEMORY ==> Shape(head, all) && Broken(old(Values(spine)), Calls(hint, serv), Values(all))
    ensures rc != EAI_MEMORY ==> rc == Outcome(hint, FoundCalls(old(Values(spine)), Calls(hint, serv)))
    ensures rc != EAI_MEMORY ==> List(head, all) && Values(all) == PortCalls(old(Values(spine)), Calls(hint, serv))
    ensures Owned(all, repr') && repr <= repr' && fresh(repr' - repr)
  {
    hide *;
    ghost var vs: seq<Entry> := Values(spine);
    var ok, nfound;
    match serv {
      case Numeric(port) =>
        ok, nfound, all, repr' := PortNumber(head, hint, port, budget, spine, repr);
      case Name(tcp, udp) =>
        ok, nfound, all, repr' := PortName(head, hint, tcp, udp, budget, spine, repr);
    }
    if !ok {
      return EAI_MEMORY, all, repr';
    }
    CalledIs(head, all, vs, Calls(hint, serv), nfound);
    OutcomeIs(hint, nfound);
    if nfound == 0 {
      rc := if hint == 0 then EAI_NONAME else EAI_SERVICE;
    } else {
      rc := 0;
    }
  }

  lemma CallsNumeric(hint: int, port: int)
    ensures hint != 0 ==> Calls(hint, Numeric(port)) == [Service(port, hint)]
    ensures hint == 0 ==> Calls(hint, Numeric(port)) == Calls(0, Name(Some(port), Some(port)))
  {
  }

  lemma OutcomeIs(hint: int, nfound: nat)
    ensures Outcome(hint, nfound) == if nfound > 0 then 0 else if hint == 0 then EAI_NONAME else EAI_SERVICE
    ensures Outcome(hint, nfound) != EAI_MEMORY
  {
  }
}
