/** The echo server that handles its clients with select (tcpcliserv/tcpservselect01.c). */
module SelectServer {
  import opened Basics

  const FD_SETSIZE := 1024

  /** The table of clients: `allset` is the listening descriptor and the descriptors in the
      table, which are different and within `maxi` and `maxfd`. */
  ghost predicate Table(client: seq<int>, listenfd: int, allset: set<int>, maxi: int, maxfd: int) {
    && -1 <= maxi < |client| && listenfd in allset && 0 <= listenfd <= maxfd
    && (forall i | 0 <= i < |client| && client[i] >= 0 ::
          client[i] in allset && client[i] != listenfd && i <= maxi && client[i] <= maxfd)
    && (forall fd | fd in allset :: fd >= 0 && (fd == listenfd || exists i | 0 <= i < |client| :: client[i] == fd))
    && (forall i, j | 0 <= i < j < |client| && client[i] >= 0 :: client[i] != client[j])
  }

  lemma {:induction false} TableAdd(client: seq<int>, listenfd: int, allset: set<int>, maxi: int, maxfd: int, i: nat,
                                    fd: int)
    requires Table(client, listenfd, allset, maxi, maxfd) && i < |client| && client[i] < 0 && fd >= 0 && fd !in allset
    ensures Table(client[i := fd], listenfd, allset + {fd}, if i > maxi then i else maxi,
                  if fd > maxfd then fd else maxfd)
  {
    var client', allset' := client[i := fd], allset + {fd};
    forall x | x in allset' ensures x >= 0 && (x == listenfd || exists j | 0 <= j < |client'| :: client'[j] == x) {
      if x == fd {
        assert client'[i] == x;
      } else if x != listenfd {
        var j :| 0 <= j < |client| && client[j] == x;
        assert client'[j] == x;
      }
    }
  }

  lemma {:induction false} TableRemove(client: seq<int>, listenfd: int, allset: set<int>, maxi: int, maxfd: int, i: nat)
    requires Table(client, listenfd, allset, maxi, maxfd) && i < |client| && client[i] >= 0
    ensures Table(client[i := -1], listenfd, allset - {client[i]}, maxi, maxfd)
  {
    var client', allset' := client[i := -1], allset - {client[i]};
    forall x | x in allset' ensures x >= 0 && (x == listenfd || exists j | 0 <= j < |client'| :: client'[j] == x) {
      if x != listenfd {
        var j :| 0 <= j < |client| && client[j] == x;
        assert client'[j] == x;
      }
    }
  }

  // ---- counting ----

  /** Different things in different places need as many places. */
  lemma {:induction false} Pigeons(c: seq<int>, holes: set<int>)
    requires forall i | 0 <= i < |c| :: c[i] in holes
    requires forall i, j | 0 <= i < j < |c| :: c[i] != c[j]
    ensures |c| <= |holes|
  {
    if c != [] {
      var n := |c| - 1;
      Pigeons(c[..n], holes - {c[n]});
    }
  }

  function Below(n: nat): (r: set<int>)
    ensures |r| == n && forall x :: x in r <==> 0 <= x < n
  {
    if n == 0 then {} else Below(n - 1) + {n - 1}
  }

  /** With descriptors below the size of the table, one of which is the listening one, a slot
      is always free. */
  lemma {:induction false} SlotFree(client: seq<int>, listenfd: int, allset: set<int>, maxi: int, maxfd: int)
    requires Table(client, listenfd, allset, maxi, maxfd) && maxfd < |client|
    ensures exists i | 0 <= i < |client| :: client[i] < 0
  {
    if forall i | 0 <= i < |client| :: client[i] >= 0 {
      Pigeons(client, Below(|client|) - {listenfd});
      assert false;
    }
  }

  predicate NoRepeats(s: seq<int>) {
    forall i, j | 0 <= i < j < |s| :: s[i] != s[j]
  }

  /** The table after the clients in `gone` have closed. */
  function Without(client: seq<int>, gone: set<int>): (r: seq<int>)
    ensures |r| == |client| && forall i | 0 <= i < |r| :: r[i] == if client[i] in gone then -1 else client[i]
  {
    seq(|client|, i requires 0 <= i < |client| => if client[i] in gone then -1 else client[i])
  }

  // ---- one sweep over the table ----

  lemma NoneLeft(s: set<int>)
    requires |s| == 0
    ensures forall fd :: fd !in s
  {
  }

  /** Which clients have been reported. */
  predicate Reported(table: seq<int>, rset: set<int>, all: set<int>) {
    forall i | 0 <= i < |table| :: table[i] in all <==> table[i] >= 0 && table[i] in rset
  }

  predicate Distinct(client: seq<int>) {
    forall i, j | 0 <= i < j < |client| && client[i] >= 0 :: client[i] != client[j]
  }

  /** The first `i` clients of `table` have been dealt with; of the reported descriptors
      `all` those in `served` have been served and those in `todo` have not. */
  ghost predicate Sweep(table: seq<int>, now: seq<int>, i: nat, all: set<int>, eofs: set<int>, todo: set<int>,
                        served: seq<int>) {
    && |now| == |table| && i <= |table| && NoRepeats(served)
    && (forall fd :: fd in all <==> fd in todo || fd in served)
    && (forall fd | fd in todo :: fd !in served)
    && (forall j | 0 <= j < i :: table[j] !in todo)
    && (forall j | i <= j < |table| :: table[j] !in served)
    && (forall j | 0 <= j < |table| :: now[j] == if table[j] in served && table[j] in eofs then -1 else table[j])
  }

  lemma SweepStarts(table: seq<int>, all: set<int>, eofs: set<int>)
    ensures Sweep(table, table, 0, all, eofs, all, [])
  {
  }

  lemma SweepServe(table: seq<int>, now: seq<int>, i: nat, all: set<int>, eofs: set<int>, todo: set<int>,
                   served: seq<int>)
    requires Sweep(table, now, i, all, eofs, todo, served) && Distinct(table) && i < |table| && table[i] in all
             && table[i] >= 0
    ensures now[i] == table[i] && table[i] in todo
    ensures Sweep(table, if table[i] in eofs then now[i := -1] else now, i + 1,
                  all, eofs, todo - {table[i]}, served + [table[i]])
  {
  }

  lemma SweepSkip(table: seq<int>, now: seq<int>, i: nat, all: set<int>, eofs: set<int>, todo: set<int>,
                  served: seq<int>)
    requires Sweep(table, now, i, all, eofs, todo, served) && i < |table| && table[i] !in all
    ensures now[i] == table[i] && Sweep(table, now, i + 1, all, eofs, todo, served)
  {
  }

  /** The turn of client `i`, seen from the descriptor in its slot. */
  lemma {:induction false} SweepTurn(table: seq<int>, now: seq<int>, i: nat, rset: set<int>, all: set<int>,
                                     eofs: set<int>, todo: set<int>, served: seq<int>)
    requires Sweep(table, now, i, all, eofs, todo, served) && Distinct(table) && Reported(table, rset, all)
             && i < |table|
    ensures |now| == |table|
    ensures if now[i] >= 0 && now[i] in rset then
              && now[i] in todo
              && Sweep(table, if now[i] in eofs then now[i := -1] else now, i + 1,
                       all, eofs, todo - {now[i]}, served + [now[i]])
            else Sweep(table, now, i + 1, all, eofs, todo, served)
  {
    assert |now| == |table|;
    hide Sweep, Distinct;
    if table[i] in all {
      SweepServe(table, now, i, all, eofs, todo, served);
    } else {
      SweepSkip(table, now, i, all, eofs, todo, served);
    }
  }

  /** With nothing left to do, every reported descriptor was served once, and only the
      clients that had closed were removed. */
  lemma SweepEnds(table: seq<int>, now: seq<int>, i: nat, all: set<int>, eofs: set<int>, todo: set<int>,
                  served: seq<int>)
    requires Sweep(table, now, i, all, eofs, todo, served) && forall fd :: fd !in todo
    ensures NoRepeats(served) && (forall fd :: fd in served <==> fd in all) && now == Without(table, all * eofs)
  {
  }

  lemma {:induction false} SweepPast(table: seq<int>, now: seq<int>, i: nat, all: set<int>, eofs: set<int>,
                                     todo: set<int>, served: seq<int>, listenfd: int, allset: set<int>,
                                     maxi: int, maxfd: int)
    requires Sweep(table, now, i, all, eofs, todo, served) && Table(table, listenfd, allset, maxi, maxfd)
             && i == maxi + 1
    requires listenfd !in all && forall fd | fd in all :: fd in allset
    ensures forall fd :: fd !in todo
  {
    forall fd | fd in allset && fd != listenfd ensures fd !in todo {
      var j :| 0 <= j < |table| && table[j] == fd;
      assert j <= maxi;
    }
    assert forall fd | fd in todo :: fd in all;
  }

  /** A client that was reported and has closed leaves its slot, every other one keeps it. */
  predicate Left(client: seq<int>, client': seq<int>, rset: set<int>, eofs: set<int>) {
    && |client'| == |client|
    && forall i | 0 <= i < |client| ::
         if client[i] in rset && client[i] in eofs then client'[i] == -1 else client'[i] == client[i]
  }

  lemma LeftIs(client: seq<int>, listenfd: int, rset: set<int>, eofs: set<int>)
    requires forall i | 0 <= i < |client| :: client[i] != listenfd
    ensures Left(client, Without(client, (rset - {listenfd}) * eofs), rset, eofs)
  {
  }

  class Server {
    const listenfd: int
    const client: array<int>
    var maxi: int
    var maxfd: int
    var allset: set<int>

    ghost predicate Valid()
      reads this, client
    {
      client.Length == FD_SETSIZE && Table(client[..], listenfd, allset, maxi, maxfd)
    }

    constructor (listenfd: int)
      requires listenfd >= 0
      ensures Valid() && this.listenfd == listenfd && allset == {listenfd} && fresh(client)
      ensures forall i | 0 <= i < FD_SETSIZE :: client[i] == -1
    {
      this.listenfd, maxfd, maxi, allset := listenfd, listenfd, -1, {listenfd};
      client := new int[FD_SETSIZE];
      new;
      for i := 0 to FD_SETSIZE
        modifies client
        invariant forall j | 0 <= j < i :: client[j] == -1
      {
        client[i] := -1;
      }
    }

    /** A new connection goes into the first free slot; with none free the program ends. */
    method NewClient(connfd: int) returns (ok: bool, slot: nat)
      requires Valid() && connfd >= 0 && connfd !in allset
      modifies this, client
      ensures ok <==> exists i | 0 <= i < FD_SETSIZE :: old(client[..])[i] < 0
      ensures !ok ==> client[..] == old(client[..]) && allset == old(allset) && maxfd == old(maxfd) >= FD_SETSIZE
      ensures Valid() && (ok ==> allset == old(allset) + {connfd})
      ensures ok ==> slot < FD_SETSIZE && client[..] == old(client[..])[slot := connfd] && old(client[..])[slot] < 0
      ensures ok ==> forall j | 0 <= j < slot :: old(client[..])[j] >= 0
    {
      ghost var table, all, mi, mf := client[..], allset, maxi, maxfd;
      var i := 0;
      while i < FD_SETSIZE && client[i] >= 0
        invariant 0 <= i <= FD_SETSIZE && forall j | 0 <= j < i :: table[j] >= 0
      {
        i := i + 1;
      }
      if i == FD_SETSIZE {
        if maxfd < FD_SETSIZE {
          SlotFree(table, listenfd, all, mi, mf);
        }
        return false, 0;
      }
      assert table[i] < 0;
      client[i] := connfd;
      assert client[..] == table[i := connfd];
      allset := allset + {connfd};
      if connfd > maxfd {
        maxfd := connfd;
      }
      if i > maxi {
        maxi := i;
      }
      TableAdd(table, listenfd, all, mi, mf, i, connfd);
      return true, i;
    }

    /** One client: what it sent is echoed, or it is gone when there is nothing more to read. */
    method ServeOne(i: nat, eof: bool)
      requires Valid() && i < FD_SETSIZE && client[i] >= 0
      modifies this, client
      ensures Valid() && maxi == old(maxi)
      ensures client[..] == (if eof then old(client[..])[i := -1] else old(client[..]))
      ensures allset == (if eof then old(allset) - {old(client[i])} else old(allset))
    {
      if eof {
        TableRemove(client[..], listenfd, allset, maxi, maxfd, i);
        ghost var table := client[..];
        allset := allset - {client[i]};
        client[i] := -1;
        assert client[..] == table[i := -1];
      }
    }

    /** The turn of the client in slot `i`, if there is one and it was reported. */
    method Turn(i: nat, rset: set<int>, eofs: set<int>, ghost table: seq<int>, ghost all: set<int>,
                ghost todo: set<int>, ghost served: seq<int>)
      returns (hit: bool, sockfd: int)
      requires Valid() && Sweep(table, client[..], i, all, eofs, todo, served) && i < FD_SETSIZE == |table|
      requires Distinct(table) && Reported(table, rset, all)
      modifies this, client
      ensures Valid() && maxi == old(maxi)
      ensures hit ==> sockfd in todo && Sweep(table, client[..], i + 1, all, eofs, todo - {sockfd}, served + [sockfd])
      ensures !hit ==> Sweep(table, client[..], i + 1, all, eofs, todo, served)
    {
      SweepTurn(table, client[..], i, rset, all, eofs, todo, served);
      hide Sweep, Distinct, Reported, Table;
      sockfd, hit := client[i], false;
      if sockfd >= 0 && sockfd in rset {
        hit := true;
        ServeOne(i, sockfd in eofs);
      }
    }

    /** The loop over the table.  `all` are the reported descriptors of clients; `nready0`
        is their number, so that the loop can stop when it is used up. */
    method ServeClients(rset: set<int>, nready0: int, eofs: set<int>, ghost all: set<int>) returns (served: seq<int>)
      requires Valid() && listenfd !in all && nready0 == |all| && forall fd | fd in all :: fd in allset
      requires Reported(client[..], rset, all)
      modifies this, client
      ensures Valid() && NoRepeats(served) && forall fd :: fd in served <==> fd in all
      ensures client[..] == Without(old(client[..]), all * eofs)
    {
      ghost var table, todo, mf, set0 := client[..], all, maxfd, allset;
      assert Distinct(table) && Table(table, listenfd, set0, maxi, mf);
      assert -1 <= maxi < FD_SETSIZE == client.Length == |table|;
      SweepStarts(table, all, eofs);
      hide *;
      var i, nready := 0, nready0;
      served := [];
      while i <= maxi
        invariant Valid() && 0 <= i <= maxi + 1 && maxi == old(maxi) && maxi < FD_SETSIZE
        invariant Sweep(table, client[..], i, all, eofs, todo, served) && nready == |todo|
      {
        var hit, sockfd := Turn(i, rset, eofs, table, all, todo, served);
        i := i + 1;
        if hit {
          served := served + [sockfd];
          todo := todo - {sockfd};
          nready := nready - 1;
          if nready <= 0 {
            NoneLeft(todo);
            SweepEnds(table, client[..], i, all, eofs, todo, served);
            return;
          }
        }
      }
      SweepPast(table, client[..], i, all, eofs, todo, served, listenfd, set0, maxi, mf);
      SweepEnds(table, client[..], i, all, eofs, todo, served);
    }

    /** The new connection and the sweep over the table. */
    method Sweeps(rset: set<int>, connfd: int, eofs: set<int>) returns (ok: bool, slot: nat, served: seq<int>)
      requires Valid() && rset <= allset && connfd >= 0 && connfd !in allset
      modifies this, client
      ensures !ok <==> listenfd in rset && forall i | 0 <= i < FD_SETSIZE :: old(client[..])[i] >= 0
      ensures Valid() && (ok ==> NoRepeats(served))
      ensures !ok ==> client[..] == old(client[..]) && maxfd == old(maxfd) >= FD_SETSIZE
      ensures ok ==> forall fd :: fd in served <==> fd in rset && fd != listenfd
      ensures ok && listenfd in rset ==>
                && slot < FD_SETSIZE && old(client[..])[slot] < 0
                && (forall j | 0 <= j < slot :: old(client[..])[j] >= 0)
                && client[..] == Without(old(client[..])[slot := connfd], (rset - {listenfd}) * eofs)
      ensures ok && listenfd !in rset ==> client[..] == Without(old(client[..]), (rset - {listenfd}) * eofs)
    {
      ghost var all := rset - {listenfd};
      assert connfd !in all && forall fd | fd in all :: fd in allset;
      assert forall i | 0 <= i < FD_SETSIZE :: client[i] >= 0 ==> client[i] != listenfd;
      var nready := |rset|;
      assert listenfd in rset ==> rset == all + {listenfd};
      assert listenfd !in rset ==> rset == all;
      ok, slot, served := true, 0, [];
      hide Without, Table;
      if listenfd in rset {
        ok, slot := NewClient(connfd);
        if !ok {
          return;
        }
        nready := nready - 1;
        if nready <= 0 {
          NoneLeft(all);
          WithoutNone(client[..], all * eofs);
          return;
        }
      }
      assert nready == |all|;
      served := ServeClients(rset, nready, eofs, all);
    }

    /** One round of the server.  select reports `rset`, accept gives a descriptor that was not
        in use, and the clients in `eofs` have closed.  The program ends exactly when there is
        a new connection and no slot for it, which needs a descriptor too large for an fd_set;
        otherwise every reported client is served once, the new client is in the first slot
        that was free, and those that closed have left theirs. */
    method Round(rset: set<int>, connfd: int, eofs: set<int>) returns (ok: bool, slot: nat, served: seq<int>)
      requires Valid() && rset <= allset && connfd >= 0 && connfd !in allset
      modifies this, client
      ensures !ok <==> listenfd in rset && forall i | 0 <= i < FD_SETSIZE :: old(client[..])[i] >= 0
      ensures Valid() && (ok ==> NoRepeats(served))
      ensures !ok ==> client[..] == old(client[..]) && maxfd == old(maxfd) >= FD_SETSIZE
      ensures ok ==> forall fd :: fd in served <==> fd in rset && fd != listenfd
      ensures ok && listenfd in rset ==>
                && slot < FD_SETSIZE && old(client[..])[slot] < 0
                && (forall j | 0 <= j < slot :: old(client[..])[j] >= 0)
                && Left(old(client[..])[slot := connfd], client[..], rset, eofs)
      ensures ok && listenfd !in rset ==> Left(old(client[..]), client[..], rset, eofs)
    {
      ghost var table := client[..];
      assert connfd != listenfd && forall i | 0 <= i < |table| :: table[i] != listenfd;
      hide Table, Without, Left;
      ok, slot, served := Sweeps(rset, connfd, eofs);
      if ok {
        LeftIs(if listenfd in rset then table[slot := connfd] else table, listenfd, rset, eofs);
      }
    }

    /** The server for any number of rounds, whatever select reports, accept gives and the
        clients do: the table is in order at every turn of the loop, and the program ends
        only with the table full and a descriptor too large for an fd_set. */
    method Run(rounds: nat) returns (ok: bool)
      requires Valid()
      modifies this, client
      ensures Valid() && (!ok ==> maxfd >= FD_SETSIZE && forall i | 0 <= i < FD_SETSIZE :: client[i] >= 0)
    {
      ok := true;
      hide Table;
      for k := 0 to rounds
        invariant ok && Valid()
      {
        ghost var free := SomeFree(allset);
        var connfd :| connfd >= 0 && connfd !in allset;
        var rset :| rset <= allset;
        var eofs: set<int> := *;
        var slot, served;
        ok, slot, served := Round(rset, connfd, eofs);
        if !ok {
          assert forall i | 0 <= i < FD_SETSIZE :: client[..][i] >= 0;
          return;
        }
      }
    }
  }

  lemma WithoutNone(client: seq<int>, gone: set<int>)
    requires forall fd :: fd !in gone
    ensures Without(client, gone) == client
  {
  }
}
