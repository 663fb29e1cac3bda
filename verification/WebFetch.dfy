/** Fetching files over several non-blocking connections at a time
    (nonblock/web.c, nonblock/start_connect.c, nonblock/write_get_cmd.c). */
module WebFetch {
  import opened Basics

  const MAXFILES := 20
  const CONNECTING := 1
  const READING := 2
  const DONE := 4

  datatype File = File(flags: int, fd: int)

  predicate Has(flags: int, bit: int)
    requires bit > 0
  {
    flags / bit % 2 == 1
  }

  predicate Untouched(f: File) {
    f.flags == 0
  }

  predicate Live(f: File) {
    f.flags == CONNECTING || f.flags == READING
  }

  function CountUntouched(files: seq<File>): nat {
    if files == [] then 0
    else CountUntouched(files[..|files| - 1]) + if Untouched(files[|files| - 1]) then 1 else 0
  }

  function CountLive(files: seq<File>): nat {
    if files == [] then 0
    else CountLive(files[..|files| - 1]) + if Live(files[|files| - 1]) then 1 else 0
  }

  lemma {:induction false} CountUpdate(files: seq<File>, i: nat, f: File)
    requires i < |files|
    ensures CountUntouched(files[i := f]) ==
            CountUntouched(files) - (if Untouched(files[i]) then 1 else 0) + (if Untouched(f) then 1 else 0)
    ensures CountLive(files[i := f]) ==
            CountLive(files) - (if Live(files[i]) then 1 else 0) + (if Live(f) then 1 else 0)
  {
    var n, files' := |files| - 1, files[i := f];
    if i == n {
      assert files'[..n] == files[..n];
    } else {
      CountUpdate(files[..n], i, f);
      assert files'[..n] == files[..n][i := f];
    }
  }

  lemma {:induction false} CountNone(files: seq<File>)
    ensures CountUntouched(files) == 0 <==> forall i | 0 <= i < |files| :: !Untouched(files[i])
    ensures CountLive(files) == 0 <==> forall i | 0 <= i < |files| :: !Live(files[i])
  {
    if files != [] {
      var n := |files| - 1;
      CountNone(files[..n]);
      assert forall i | 0 <= i < n :: files[..n][i] == files[i];
    }
  }

  lemma {:induction false} CountAll(files: seq<File>)
    requires forall i | 0 <= i < |files| :: Untouched(files[i])
    ensures CountUntouched(files) == |files| && CountLive(files) == 0
  {
    if files != [] {
      CountAll(files[..|files| - 1]);
    }
  }

  // ---- what holds between steps ----

  predicate FlagsOk(files: seq<File>) {
    forall i | 0 <= i < |files| :: Untouched(files[i]) || Live(files[i]) || files[i].flags == DONE
  }

  ghost predicate Counters(files: seq<File>, nconn: int, nlefttoconn: int, nlefttoread: int) {
    nlefttoconn == CountUntouched(files) && nconn == CountLive(files) && nlefttoread == nlefttoconn + nconn
  }

  /** The descriptor sets are those of the live files, which have different descriptors. */
  ghost predicate Sets(files: seq<File>, rset: set<int>, wset: set<int>, open: set<int>, maxfd: int) {
    && (forall i | 0 <= i < |files| ::
          Live(files[i]) ==> files[i].fd in rset && files[i].fd in open && files[i].fd <= maxfd)
    && (forall i | 0 <= i < |files| :: Live(files[i]) ==> (files[i].fd in wset <==> files[i].flags == CONNECTING))
    && (forall fd | fd in rset :: exists i | 0 <= i < |files| :: Live(files[i]) && files[i].fd == fd)
    && wset <= rset
    && (forall i, j | 0 <= i < j < |files| && Live(files[i]) && Live(files[j]) :: files[i].fd != files[j].fd)
  }

  lemma {:induction false} SetsStart(files: seq<File>, rset: set<int>, wset: set<int>, open: set<int>, maxfd: int,
                                     i: nat, f: File, rset': set<int>, wset': set<int>, open': set<int>, maxfd': int)
    requires Sets(files, rset, wset, open, maxfd) && i < |files| && Untouched(files[i]) && Live(f) && f.fd !in open
    requires rset' == rset + {f.fd} && wset' == (if f.flags == CONNECTING then wset + {f.fd} else wset)
    requires open' == open + {f.fd} && maxfd' >= maxfd && maxfd' >= f.fd
    ensures Sets(files[i := f], rset', wset', open', maxfd')
  {
    var files' := files[i := f];
    forall fd | fd in rset' ensures exists j | 0 <= j < |files'| :: Live(files'[j]) && files'[j].fd == fd {
      if fd == f.fd {
        assert Live(files'[i]) && files'[i].fd == fd;
      } else {
        var j :| 0 <= j < |files| && Live(files[j]) && files[j].fd == fd;
        assert Live(files'[j]) && files'[j].fd == fd;
      }
    }
  }

  lemma {:induction false} SetsConnected(files: seq<File>, rset: set<int>, wset: set<int>, open: set<int>,
                                         maxfd: int, i: nat)
    requires Sets(files, rset, wset, open, maxfd) && i < |files| && files[i].flags == CONNECTING
    ensures Sets(files[i := files[i].(flags := READING)], rset, wset - {files[i].fd}, open, maxfd)
  {
    var files' := files[i := files[i].(flags := READING)];
    forall fd | fd in rset ensures exists j | 0 <= j < |files'| :: Live(files'[j]) && files'[j].fd == fd {
      var j :| 0 <= j < |files| && Live(files[j]) && files[j].fd == fd;
      assert Live(files'[j]) && files'[j].fd == fd;
    }
  }

  lemma {:induction false} SetsDone(files: seq<File>, rset: set<int>, wset: set<int>, open: set<int>, maxfd: int,
                                    i: nat)
    requires Sets(files, rset, wset, open, maxfd) && i < |files| && files[i].flags == READING
    ensures Sets(files[i := files[i].(flags := DONE)], rset - {files[i].fd}, wset, open - {files[i].fd}, maxfd)
  {
    var files', rset' := files[i := files[i].(flags := DONE)], rset - {files[i].fd};
    forall fd | fd in rset' ensures exists j | 0 <= j < |files'| :: Live(files'[j]) && files'[j].fd == fd {
      var j :| 0 <= j < |files| && Live(files[j]) && files[j].fd == fd;
      assert Live(files'[j]) && files'[j].fd == fd;
    }
    forall fd | fd in wset ensures fd in rset' {
      var j :| 0 <= j < |files| && Live(files[j]) && files[j].fd == fd;
      assert files[j].flags == CONNECTING;
    }
  }

  predicate Nothing(rset: set<int>, wset: set<int>) {
    forall fd | fd in rset + wset :: false
  }

  lemma {:induction false} SomeLive(files: seq<File>, rset: set<int>, wset: set<int>, open: set<int>, maxfd: int)
    requires Sets(files, rset, wset, open, maxfd)
    ensures Nothing(rset, wset) <==> CountLive(files) == 0
  {
    CountNone(files);
    assert forall i | 0 <= i < |files| :: Live(files[i]) ==> files[i].fd in rset + wset;
    if fd :| fd in rset + wset {
      assert exists i | 0 <= i < |files| :: Live(files[i]) && files[i].fd == fd;
    }
  }

  // ---- the program ----

  /** How a file moves on: a connection in progress that is reported in either set is being
      read from then on, one being read that is readable is done at its end, and nothing else
      happens. */
  predicate Moves(f: File, f': File, rs: set<int>, ws: set<int>, reply: Reply) {
    && f'.fd == f.fd
    && f'.flags == if f.flags == CONNECTING && (f.fd in rs || f.fd in ws) then READING
                   else if f.flags == READING && f.fd in rs && reply.n == 0 then DONE
                   else f.flags
  }

  /** A call for this file fails. */
  predicate Fails(f: File, rs: set<int>, ws: set<int>, reply: Reply) {
    || (f.flags == CONNECTING && (f.fd in rs || f.fd in ws) && !reply.written)
    || (f.flags == READING && f.fd in rs && reply.failed)
  }

  /** Files are taken in order: those not yet touched are the last ones. */
  predicate Taken(files: seq<File>) {
    forall i, j | 0 <= i < j < |files| && Untouched(files[i]) :: Untouched(files[j])
  }

  /** Some files that were untouched have become live, and nothing else has changed. */
  predicate Begun(files: seq<File>, files': seq<File>) {
    && |files'| == |files|
    && (forall i | 0 <= i < |files| :: !Untouched(files[i]) ==> files'[i] == files[i])
    && (forall i | 0 <= i < |files| :: Untouched(files[i]) ==> Untouched(files'[i]) || Live(files'[i]))
  }

  lemma {:induction false} BegunMore(now: seq<File>, i: nat, f: File)
    requires Taken(now) && i < |now| && Untouched(now[i]) && Live(f) && forall j | 0 <= j < i :: !Untouched(now[j])
    ensures Taken(now[i := f]) && forall files | Begun(files, now) :: Begun(files, now[i := f])
  {
  }

  /** No file goes back to an earlier stage: untouched, connecting, reading, done. */
  predicate Forward(files: seq<File>, files': seq<File>) {
    |files'| == |files| && forall i | 0 <= i < |files| :: files[i].flags <= files'[i].flags
  }

  lemma ForwardOn(files: seq<File>, files': seq<File>, files'': seq<File>)
    requires Forward(files, files') && Forward(files', files'')
    ensures Forward(files, files'')
  {
  }

  /** An error ends the program. */
  datatype Status = Running | Failed

  /** What connect returns: it is done at once, in progress, or fails. */
  datatype Connect = AtOnce | InProgress | Refused

  /** What the calls for one file would return: whether its request can be written, whether a
      read fails, and otherwise how many bytes it gives. */
  datatype Reply = Reply(written: bool, failed: bool, n: nat)

  /** The global variables; `open` is the set of open descriptors. */
  class Fetcher {
    const nfiles: nat
    const maxnconn: int
    var file: seq<File>
    var nconn: int
    var nlefttoconn: int
    var nlefttoread: int
    var maxfd: int
    var rset: set<int>
    var wset: set<int>
    var open: set<int>
    var status: Status

    ghost predicate Valid()
      reads this
    {
      && |file| == nfiles <= MAXFILES
      && (status.Running? ==>
            && FlagsOk(file) && Counters(file, nconn, nlefttoconn, nlefttoread)
            && (nconn > 0 ==> nconn <= maxnconn) && Sets(file, rset, wset, open, maxfd) && Taken(file))
    }

    constructor (args: nat, maxnconn: int, open: set<int>)
      ensures Valid() && status.Running? && this.maxnconn == maxnconn
      ensures nfiles == (if args < MAXFILES then args else MAXFILES) && nlefttoread == nlefttoconn == nfiles
    {
      var n := if args < MAXFILES then args else MAXFILES;
      var files := seq(n, _ => File(0, 0));
      CountAll(files);
      nfiles, this.maxnconn, this.open, file := n, maxnconn, open, files;
      nconn, nlefttoconn, nlefttoread, maxfd, rset, wset, status := 0, n, n, -1, {}, {}, Running;
    }

    /** The request is written on the connection of file `i`; the write may fail. */
    method WriteGetCmd(i: nat, written: bool)
      requires i < |file| && status.Running?
      modifies `file, `rset, `maxfd, `status
      ensures |file| == |old(file)| && (status.Running? <==> written)
      ensures status.Running? ==>
                && file == old(file)[i := File(READING, old(file)[i].fd)] && rset == old(rset) + {old(file)[i].fd}
                && maxfd == if old(file)[i].fd > old(maxfd) then old(file)[i].fd else old(maxfd)
    {
      if !written {
        status := Failed;
        return;
      }
      file := file[i := file[i].(flags := READING)];
      rset := rset + {file[i].fd};
      if file[i].fd > maxfd {
        maxfd := file[i].fd;
      }
    }

    /** Start a connection for a file no one has touched: its socket is any descriptor not
        open, and connect may be done at once, be in progress, or fail. */
    method StartConnect(i: nat, fd: int, how: Connect, written: bool)
      requires Valid() && status.Running? && i < |file| && Untouched(file[i]) && nconn < maxnconn
      requires fd >= 0 && fd !in open
      modifies `file, `rset, `wset, `open, `maxfd, `status
      ensures |file| == nfiles && (status.Running? <==> how.InProgress? || (how.AtOnce? && written))
      ensures status.Running? ==>
                && FlagsOk(file) && Sets(file, rset, wset, open, maxfd)
                && CountUntouched(file) == old(CountUntouched(file)) - 1 && CountLive(file) == old(CountLive(file)) + 1
                && file == old(file)[i := File(if how.InProgress? then CONNECTING else READING, fd)]
    {
      ghost var files, rs, ws, was, top := file, rset, wset, open, maxfd;
      open := open + {fd};
      file := file[i := file[i].(fd := fd)];
      if !how.AtOnce? {
        if how.Refused? {
          status := Failed;
          return;
        }
        file := file[i := file[i].(flags := CONNECTING)];
        rset, wset := rset + {fd}, wset + {fd};
        if fd > maxfd {
          maxfd := fd;
        }
      } else {
        WriteGetCmd(i, written);
        if status.Failed? {
          return;
        }
      }
      assert file == files[i := file[i]] && file[i].fd == fd;
      hide CountUntouched, CountLive, Sets;
      CountUpdate(files, i, file[i]);
      SetsStart(files, rs, ws, was, top, i, file[i], rset, wset, open, maxfd);
    }

    /** The first file no one has touched; "nothing found" is never reached. */
    method FindFile() returns (i: nat)
      requires Valid() && status.Running? && nlefttoconn > 0
      ensures i < nfiles == |file| && Untouched(file[i]) && forall j | 0 <= j < i :: !Untouched(file[j])
    {
      CountNone(file);
      hide CountUntouched, CountLive, Sets, Taken, FlagsOk;
      i := 0;
      while i < nfiles && file[i].flags != 0
        invariant 0 <= i <= nfiles && forall j | 0 <= j < i :: !Untouched(file[j])
      {
        i := i + 1;
      }
      if i == nfiles {
        assert false;
      }
    }

    method StartOne()
      requires Valid() && status.Running? && nconn < maxnconn && nlefttoconn > 0
      modifies this
      ensures Valid() && nlefttoread == old(nlefttoread)
      ensures status.Running? ==> nconn == old(nconn) + 1 && nlefttoconn == old(nlefttoconn) - 1
      ensures status.Running? ==> forall files | Begun(files, old(file)) :: Begun(files, file)
    {
      var i := FindFile();
      ghost var files := file;
      hide CountUntouched, CountLive, Sets, Begun, Taken, FlagsOk;
      ghost var free := SomeFree(open);
      var fd :| fd >= 0 && fd !in open;
      var how: Connect, written: bool := *, *;
      StartConnect(i, fd, how, written);
      if status.Running? {
        nconn := nconn + 1;
        nlefttoconn := nlefttoconn - 1;
        BegunMore(files, i, file[i]);
      }
    }

    /** Start connections while there are files left and room for more. */
    method StartConnections()
      requires Valid() && status.Running?
      modifies this
      ensures Valid() && (status.Running? ==> nconn >= maxnconn || nlefttoconn == 0)
      ensures nlefttoread == old(nlefttoread)
      ensures maxnconn <= 0 ==> status.Running? && nlefttoconn == old(nlefttoconn)
      ensures status.Running? ==> Begun(old(file), file)
    {
      assert Begun(file, file);
      assert nconn >= 0 && nlefttoconn >= 0;
      hide CountUntouched, CountLive, Sets, Begun, Taken, FlagsOk;
      while nconn < maxnconn && nlefttoconn > 0
        invariant Valid() && status.Running? && nlefttoread == old(nlefttoread) && nlefttoconn >= 0
        invariant maxnconn <= 0 ==> nlefttoconn == old(nlefttoconn)
        invariant nconn >= 0 && Begun(old(file), file)
        decreases nlefttoconn
      {
        StartOne();
        if status.Failed? {
          return;
        }
      }
    }

    /** What one file gets from what select reported: a connection that is ready is written
        to, and one that has data, or its end, is read. */
    method Serve(i: nat, rs: set<int>, ws: set<int>, reply: Reply)
      requires Valid() && status.Running? && i < nfiles
      modifies this
      ensures Valid()
      ensures status.Failed? <==> Fails(old(file)[i], rs, ws, reply)
      ensures status.Running? ==> nlefttoread <= old(nlefttoread) && nlefttoconn == old(nlefttoconn)
      ensures status.Running? ==> |file| == |old(file)| && Moves(old(file)[i], file[i], rs, ws, reply)
      ensures status.Running? ==>
                |file| == |old(file)| && forall j | 0 <= j < |file| && j != i :: file[j] == old(file)[j]
    {
      hide CountUntouched, CountLive, Sets;
      var flags := file[i].flags;
      if flags == 0 || Has(flags, DONE) {
        return;
      }
      var fd := file[i].fd;
      ghost var files, r0, w0, top := file, rset, wset, maxfd;
      if Has(flags, CONNECTING) && (fd in rs || fd in ws) {
        LiveIn(file, rset, wset, open, maxfd, i);
        wset := wset - {fd};
        SetsConnected(files, r0, w0, open, maxfd, i);
        CountUpdate(files, i, files[i].(flags := READING));
        WriteGetCmd(i, reply.written);
        if status.Running? {
          assert file == files[i := files[i].(flags := READING)] && rset == r0;
        }
      } else if Has(flags, READING) && fd in rs {
        if reply.failed {
          status := Failed;
          return;
        }
        if reply.n == 0 {
          SetsDone(files, r0, w0, open, maxfd, i);
          CountUpdate(files, i, files[i].(flags := DONE));
          open := open - {fd};
          file := file[i := file[i].(flags := DONE)];
          rset := rset - {fd};
          nconn := nconn - 1;
          nlefttoread := nlefttoread - 1;
        }
      }
    }

    /** Every file in turn.  Then no connection that was reported is still in progress, and
        just those are done that were, or were being read and came to their end. */
    method ServeAll(rs: set<int>, ws: set<int>, replies: seq<Reply>)
      requires Valid() && status.Running? && |replies| == nfiles
      modifies this
      ensures Valid() && nfiles == |old(file)|
      ensures status.Failed? <==> exists i | 0 <= i < nfiles :: Fails(old(file)[i], rs, ws, replies[i])
      ensures status.Running? ==> nlefttoconn == old(nlefttoconn)
      ensures status.Running? ==> forall i | 0 <= i < nfiles :: Moves(old(file)[i], file[i], rs, ws, replies[i])
      ensures status.Running? ==>
                forall i | 0 <= i < nfiles && file[i].flags == CONNECTING :: file[i].fd !in rs && file[i].fd !in ws
      ensures status.Running? ==>
                forall i | 0 <= i < nfiles ::
                  file[i].flags == DONE <==>
                  var f := old(file)[i];
                  f.flags == DONE || (f.flags == READING && f.fd in rs && replies[i].n == 0)
    {
      ghost var files := file;
      var i := 0;
      while i < nfiles
        invariant Valid() && status.Running? && 0 <= i <= nfiles && nlefttoconn == old(nlefttoconn)
        invariant forall j | 0 <= j < i :: Moves(files[j], file[j], rs, ws, replies[j])
        invariant forall j | 0 <= j < i :: !Fails(files[j], rs, ws, replies[j])
        invariant forall j | i <= j < nfiles :: file[j] == files[j]
      {
        hide CountUntouched, CountLive, Sets, Moves, Fails;
        Serve(i, rs, ws, replies[i]);
        if status.Failed? {
          assert Fails(files[i], rs, ws, replies[i]);
          return;
        }
        i := i + 1;
      }
    }

    /** The main loop, for any number of rounds: with a limit of at least one connection
        select always has a descriptor to wait for, and it never has one otherwise. */
    method Run(rounds: nat) returns (idle: bool)
      requires Valid() && status.Running? && nconn == 0
      modifies this
      ensures Valid()
      ensures idle <==> maxnconn <= 0 && old(nlefttoread) > 0 && rounds > 0
      ensures status.Running? ==> (nlefttoread == 0 <==> forall i | 0 <= i < nfiles :: file[i].flags == DONE)
      ensures status.Running? ==> Forward(old(file), file)
    {
      idle := false;
      hide CountUntouched, CountLive, Sets;
      var k := 0;
      while nlefttoread > 0 && k < rounds && status.Running?
        invariant Valid() && k <= rounds
        invariant idle <==> maxnconn <= 0 && old(nlefttoread) > 0 && k > 0
        invariant maxnconn <= 0 ==> status.Running? && nlefttoconn == old(nlefttoconn)
        invariant status.Running? ==> Forward(old(file), file)
        decreases rounds - k
      {
        k := k + 1;
        ghost var files := file;
        StartConnections();
        if status.Running? {
          SomeLive(file, rset, wset, open, maxfd);
          CountNone(file);
          ForwardOn(old(file), files, file);
          idle := idle || Nothing(rset, wset);
          var rs :| rs <= rset;
          var ws :| ws <= wset;
          ghost var files' := file;
          ghost var some := seq(nfiles, _ => Reply(true, false, 0));
          assert |some| == nfiles;
          var replies: seq<Reply> :| |replies| == nfiles;
          ServeAll(rs, ws, replies);
          if status.Running? {
            ForwardOn(old(file), files', file);
          }
        }
      }
      CountNone(file);
    }
  }

  lemma LiveIn(files: seq<File>, rset: set<int>, wset: set<int>, open: set<int>, maxfd: int, i: nat)
    requires Sets(files, rset, wset, open, maxfd) && i < |files| && Live(files[i])
    ensures files[i].fd in rset && files[i].fd <= maxfd && rset + {files[i].fd} == rset
  {
  }
}
