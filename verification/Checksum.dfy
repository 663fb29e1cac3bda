/** The Internet checksum (libfree/in_cksum.c, section 1 of RFC 1071) and its use by
    udp_write (udpcksum/udpwrite.c). */
module Checksum {
  import opened Basics

  /** Two bytes in memory as a 16-bit word of the host, and back. */
  function Word(x: int, y: int, big: bool): int {
    if big then 256 * x + y else x + 256 * y
  }

  function Bytes(w: int, big: bool): seq<int> {
    if big then [w / 256, w % 256] else [w % 256, w / 256]
  }

  /** The words of a buffer added up; an odd last byte is padded with a zero. */
  function Sum(b: seq<byte>, big: bool): nat {
    if b == [] then 0
    else if |b| == 1 then Word(b[0], 0, big)
    else Word(b[0], b[1], big) + Sum(b[2..], big)
  }

  // ---- one's complement arithmetic ----

  /** Addition of 16-bit words with end-around carry. */
  function Plus(x: nat, y: nat): nat {
    if x + y >= 65536 then x + y - 65535 else x + y
  }

  /** The one's complement sum of the words of a buffer. */
  function OnesSum(b: seq<byte>, big: bool): (r: nat)
    ensures r <= 65535
  {
    if b == [] then 0
    else if |b| == 1 then Word(b[0], 0, big)
    else Plus(Word(b[0], b[1], big), OnesSum(b[2..], big))
  }

  /** The representative of `s` among the 16-bit words. */
  function Rep(s: nat): (r: nat)
    ensures r <= 65535
  {
    if s == 0 then 0 else (s - 1) % 65535 + 1
  }

  lemma {:induction false} RepUnique(s: nat, x: nat, k: int)
    requires x <= 65535 && s == x + 65535 * k && (x == 0 <==> s == 0)
    ensures Rep(s) == x
  {
    if s > 0 {
      assert s - 1 == (x - 1) + 65535 * k;
      Modulo(x - 1, k);
    }
  }

  lemma {:induction false} Modulo(r: int, k: int)
    requires 0 <= r < 65535
    ensures (r + 65535 * k) % 65535 == r
  {
    var n := r + 65535 * k;
    assert n == 65535 * (n / 65535) + n % 65535;
    assert 65535 * (k - n / 65535) == n % 65535 - r;
  }

  lemma {:induction false} RepSplits(s: nat) returns (k: nat)
    ensures s == Rep(s) + 65535 * k
  {
    k := if s == 0 then 0 else (s - 1) / 65535;
  }

  lemma {:induction false} RepPlus(x: nat, s: nat)
    requires x <= 65535
    ensures Plus(x, Rep(s)) == Rep(x + s)
  {
    var k := RepSplits(s);
    var r := Plus(x, Rep(s));
    RepUnique(x + s, r, if x + Rep(s) >= 65536 then k + 1 else k);
  }

  lemma {:induction false} OnesSumIsRep(b: seq<byte>, big: bool)
    ensures OnesSum(b, big) == Rep(Sum(b, big))
  {
    if |b| >= 2 {
      OnesSumIsRep(b[2..], big);
      RepPlus(Word(b[0], b[1], big), Sum(b[2..], big));
      hide Rep, Plus;
    }
  }

  /** An odd last byte counts as if a zero byte followed it. */
  lemma {:induction false} OddIsPadded(b: seq<byte>, big: bool)
    requires |b| % 2 == 1
    ensures Sum(b + [0], big) == Sum(b, big) && OnesSum(b + [0], big) == OnesSum(b, big)
  {
    var c := b + [0];
    if |b| == 1 {
      assert c[2..] == [];
      assert Sum([], big) == 0 && OnesSum([], big) == 0;
    } else {
      OddIsPadded(b[2..], big);
      assert c[2..] == b[2..] + [0];
    }
  }

  /** The example of section 3 of RFC 1071, on a host of either order. */
  lemma {:induction false} Rfc1071Example()
    ensures var b: seq<byte> := [0x00, 0x01, 0xf2, 0x03, 0xf4, 0xf5, 0xf6, 0xf7];
            OnesSum(b, true) == 0xddf2 && OnesSum(b, false) == 0xf2dd
  {
    var b: seq<byte> := [0x00, 0x01, 0xf2, 0x03, 0xf4, 0xf5, 0xf6, 0xf7];
    var c, d, e := b[2..], b[4..], b[6..];
    assert c[2..] == d && d[2..] == e && e[2..] == [];
    assert OnesSum([], true) == 0 && OnesSum([], false) == 0;
    assert OnesSum(e, true) == 0xf6f7 && OnesSum(e, false) == 0xf7f6;
    assert OnesSum(d, true) == 0xebed && OnesSum(d, false) == 0xedeb;
    assert OnesSum(c, true) == 0xddf1 && OnesSum(c, false) == 0xf1dd;
  }

  // ---- in_cksum ----

  /** A 32-bit variable keeps the low bits. */
  function Low32(x: nat): (r: nat)
    ensures r < WRAP32 && (x < WRAP32 ==> r == x)
  {
    x % WRAP32
  }

  /** Folding the carries of a 32-bit sum twice gives its representative. */
  lemma {:induction false} TwoFolds(s: nat)
    requires s < WRAP32
    ensures var once := s / 65536 + s % 65536;
            var twice := once + once / 65536;
            once <= 131070 && twice % 65536 == Rep(s)
  {
    var hi, lo := s / 65536, s % 65536;
    var once := hi + lo;
    assert s == 65536 * hi + lo && hi <= 65535;
    var twice := once + once / 65536;
    RepUnique(s, twice % 65536, if once >= 65536 then hi + 1 else hi);
  }

  lemma {:induction false} SumStep(b: seq<byte>, k: nat, big: bool)
    requires k + 1 < |b|
    ensures Word(b[k], b[k + 1], big) >= 0
    ensures Sum(b[k..], big) == Word(b[k], b[k + 1], big) + Sum(b[k + 2..], big)
  {
    assert b[k..][2..] == b[k + 2..];
  }

  lemma SumEnd(b: seq<byte>, k: nat, big: bool)
    requires k <= |b| <= k + 1
    ensures Sum(b[k..], big) == if k == |b| then 0 else Word(b[k], 0, big)
    ensures k < |b| ==> Word(b[k], 0, big) >= 0
  {
  }

  /** The sum is kept in 32 bits: carries out of them are lost. */
  method InCksum(addr: seq<byte>, big: bool) returns (answer: nat)
    ensures answer == 65535 - Rep(Low32(Sum(addr, big)))
  {
    hide Sum, Low32, Rep, Word;
    assert addr[0..] == addr;
    var nleft, sum, w := |addr|, 0, 0;
    while nleft > 1
      invariant w + nleft == |addr| && 0 <= sum < WRAP32 && 0 <= w && 0 <= nleft
      invariant Low32(sum + Sum(addr[w..], big)) == Low32(Sum(addr, big))
    {
      SumStep(addr, w, big);
      Lost(sum + Word(addr[w], addr[w + 1], big), Sum(addr[w + 2..], big));
      sum := Low32(sum + Word(addr[w], addr[w + 1], big));
      w := w + 2;
      nleft := nleft - 2;
    }
    SumEnd(addr, w, big);
    if nleft == 1 {
      sum := Low32(sum + Word(addr[w], 0, big));
    }
    assert sum == Low32(Sum(addr, big));
    TwoFolds(sum);
    sum := sum / 65536 + sum % 65536;
    sum := sum + sum / 65536;
    answer := 65535 - sum % 65536;
  }

  lemma {:induction false} Lost(x: nat, y: nat)
    ensures Low32(Low32(x) + y) == Low32(x + y)
  {
    var q, r := x / WRAP32, x % WRAP32 + y;
    assert x + y == r + WRAP32 * q;
    var n := r / WRAP32;
    assert x + y == WRAP32 * (n + q) + r % WRAP32;
  }

  lemma {:induction false} SumBound(b: seq<byte>, big: bool)
    ensures 2 * Sum(b, big) <= 65535 * (|b| + 1)
  {
    if |b| >= 2 {
      SumBound(b[2..], big);
    }
  }

  /** in_cksum returns the complement of the one's complement sum if and only if the plain
      sum fits in 32 bits, for every buffer an `int` length can describe. */
  lemma {:induction false} CorrectIff(b: seq<byte>, big: bool)
    requires |b| < 0x8000_0000
    ensures 65535 - Rep(Low32(Sum(b, big))) == 65535 - OnesSum(b, big) <==> Sum(b, big) < WRAP32
  {
    OnesSumIsRep(b, big);
    SumBound(b, big);
    var s := Sum(b, big);
    hide Sum, OnesSum, Rep;
    var q, r := s / WRAP32, Low32(s);
    assert s == WRAP32 * q + r;
    hide Low32;
    if s >= WRAP32 {
      LosesCarry(q, r);
    }
  }

  lemma {:induction false} LosesCarry(q: nat, r: nat)
    requires 0 < q < 65535
    ensures Rep(WRAP32 * q + r) != Rep(r)
  {
    var k := RepSplits(r);
    var k' := RepSplits(WRAP32 * q + r);
    assert WRAP32 == 1 + 65535 * 65537;
    assert WRAP32 * q == q + 65535 * (65537 * q);
    NotMultiple(q, k' - k - 65537 * q);
    hide Rep;
  }

  lemma NotMultiple(q: int, m: int)
    requires 0 < q < 65535
    ensures q != 65535 * m
  {
  }

  lemma {:induction false} OnesSumOf(n: nat, big: bool)
    ensures Sum(seq(2 * n, _ => 255), big) == 65535 * n
  {
    if n > 0 {
      OnesSumOf(n - 1, big);
      assert seq(2 * n, _ => 255 as byte)[2..] == seq(2 * (n - 1), _ => 255 as byte);
    }
  }

  /** One word more than always fits: 65538 words of all ones get a wrong checksum. */
  lemma {:induction false} LostCarry(big: bool)
    ensures var b := seq(2 * 65538, _ => 255);
            Sum(b, big) >= WRAP32 && 65535 - Rep(Low32(Sum(b, big))) != 65535 - OnesSum(b, big)
  {
    OnesSumOf(65538, big);
    hide Sum, OnesSum, Rep, Low32;
    CorrectIff(seq(2 * 65538, _ => 255), big);
  }

  /** Sixteen-bit words up to 65537 of them always fit. */
  lemma {:induction false} Fits(b: seq<byte>, big: bool)
    requires |b| <= 2 * 65537
    ensures Sum(b, big) < WRAP32 && Rep(Low32(Sum(b, big))) == OnesSum(b, big)
  {
    OnesSumIsRep(b, big);
    SumBound(b, big);
    WordSum(b, big);
    hide Sum, OnesSum, Rep;
  }

  /** The words counted exactly: an odd byte makes a word of its own. */
  lemma {:induction false} WordSum(b: seq<byte>, big: bool)
    ensures Sum(b, big) <= 65535 * ((|b| + 1) / 2)
  {
    if |b| >= 2 {
      WordSum(b[2..], big);
      assert (|b| + 1) / 2 == (|b[2..]| + 1) / 2 + 1;
    }
  }

  // ---- a checksum stored in the data it covers ----

  /** The buffer with a word stored at an even place. */
  function Stored(b: seq<byte>, at: nat, w: nat, big: bool): (r: seq<byte>)
    requires at + 1 < |b| && w <= 65535
    ensures |r| == |b|
  {
    var bytes: seq<int> := Bytes(w, big);
    var x: byte, y: byte := bytes[0], bytes[1];
    b[at := x][at + 1 := y]
  }

  lemma {:induction false} SumStored(b: seq<byte>, at: nat, w: nat, big: bool)
    requires at + 1 < |b| && at % 2 == 0 && w <= 65535 && b[at] == 0 && b[at + 1] == 0
    ensures Sum(Stored(b, at, w, big), big) == Sum(b, big) + w
  {
    var b' := Stored(b, at, w, big);
    if at == 0 {
      assert b'[2..] == b[2..];
    } else {
      assert b'[2..] == Stored(b[2..], at - 2, w, big);
      SumStored(b[2..], at - 2, w, big);
    }
  }

  /** Two words of one buffer's checksum: the complement, or all ones instead of zero. */
  predicate ChecksumOf(w: nat, s: nat) {
    w == 65535 - Rep(s) || (w == 65535 && Rep(s) == 65535)
  }

  lemma {:induction false} ComplementCancels(s: nat, w: nat)
    requires w <= 65535 && ChecksumOf(w, s)
    ensures Rep(s + w) == 65535
  {
    var k := RepSplits(s);
    if w == 65535 - Rep(s) {
      RepUnique(s + w, 65535, k);
    } else {
      RepUnique(s + w, 65535, k + 1);
    }
  }

  /** Storing the checksum in a zeroed field makes the check over the whole buffer give 0. */
  lemma {:induction false} StoredChecks(b: seq<byte>, at: nat, w: nat, big: bool)
    requires |b| <= 2 * 65537 && at + 1 < |b| && at % 2 == 0 && b[at] == 0 && b[at + 1] == 0
    requires w <= 65535 && ChecksumOf(w, Low32(Sum(b, big)))
    ensures 65535 - Rep(Low32(Sum(Stored(b, at, w, big), big))) == 0
  {
    Fits(b, big);
    Fits(Stored(b, at, w, big), big);
    SumStored(b, at, w, big);
    hide Sum, Rep, OnesSum, Stored, Low32;
    ComplementCancels(Sum(b, big), w);
  }

  // ---- byte order ----

  function Swap(w: int): int {
    w % 256 * 256 + w / 256
  }

  function HighBytes(b: seq<byte>): nat {
    if b == [] then 0 else b[0] + if |b| == 1 then 0 else HighBytes(b[2..])
  }

  lemma {:induction false} SumSwapped(b: seq<byte>)
    ensures Sum(b, false) == 256 * Sum(b, true) - 65535 * HighBytes(b)
    ensures Sum(b, false) == 0 <==> Sum(b, true) == 0
  {
    if |b| >= 2 {
      SumSwapped(b[2..]);
    }
  }

  lemma {:induction false} RepSwapped(s: nat, s': nat, h: nat)
    requires s' == 256 * s - 65535 * h && (s' == 0 <==> s == 0)
    ensures Rep(s') == Swap(Rep(s))
  {
    var k := RepSplits(s);
    var r := Rep(s);
    assert s == 0 <==> r == 0;
    hide Rep;
    assert r == 256 * (r / 256) + r % 256 && 0 <= r / 256 <= 255;
    assert 256 * r == Swap(r) + 65535 * (r / 256);
    RepUnique(s', Swap(r), 256 * k - h + r / 256);
  }

  lemma {:induction false} SwapFacts(r: nat)
    requires r <= 65535
    ensures 65535 - Swap(r) == Swap(65535 - r)
    ensures Bytes(Swap(r), false) == Bytes(r, true)
  {
    var h, l := r / 256, r % 256;
    assert r == 256 * h + l && 0 <= h <= 255;
    LowHigh(255 - h, 255 - l);
    LowHigh(l, h);
  }

  lemma LowHigh(h: int, l: int)
    requires 0 <= h <= 255 && 0 <= l <= 255
    ensures (256 * h + l) % 256 == l && (256 * h + l) / 256 == h
  {
  }

  /** Hosts of either byte order compute the same two bytes, and so does in_cksum on them as
      long as no carry is lost. */
  lemma {:induction false} OrderIndependent(b: seq<byte>)
    ensures 65535 - OnesSum(b, false) == Swap(65535 - OnesSum(b, true))
    ensures Bytes(65535 - OnesSum(b, false), false) == Bytes(65535 - OnesSum(b, true), true)
    ensures Sum(b, false) < WRAP32 && Sum(b, true) < WRAP32 ==>
              Bytes(65535 - Rep(Low32(Sum(b, false))), false) == Bytes(65535 - Rep(Low32(Sum(b, true))), true)
  {
    OnesSumIsRep(b, false);
    OnesSumIsRep(b, true);
    SumSwapped(b);
    hide Sum, OnesSum, Rep, Swap, Bytes, Low32;
    RepSwapped(Sum(b, true), Sum(b, false), HighBytes(b));
    SwapFacts(OnesSum(b, true));
    SwapFacts(65535 - OnesSum(b, true));
  }

  // ---- udp_write ----

  const IPPROTO_UDP: byte := 17
  const UDPHDR := 8
  const UDPIPHDR := 28
  const UI_SUM := 26

  datatype Endpoints = Endpoints(src: seq<byte>, dst: seq<byte>, sport: seq<byte>, dport: seq<byte>)

  predicate Valid(e: Endpoints) {
    |e.src| == 4 && |e.dst| == 4 && |e.sport| == 2 && |e.dport| == 2
  }

  /** The length of the UDP datagram in network byte order, cut to 16 bits. */
  function Length(userlen: nat): (r: seq<byte>)
    ensures |r| == 2
  {
    var n := (UDPHDR + userlen) % 65536;
    var hi: byte, lo: byte := n / 256, n % 256;
    [hi, lo]
  }

  /** The IP pseudo-header and the UDP header, without a checksum. */
  function Header(userlen: nat, e: Endpoints): (r: seq<byte>)
    requires Valid(e)
    ensures |r| == UDPIPHDR && r[UI_SUM] == 0 && r[UI_SUM + 1] == 0
  {
    var zeros: seq<byte> := [0, 0, 0, 0, 0, 0, 0, 0, 0];
    var sum: seq<byte> := [0, 0];
    zeros + [IPPROTO_UDP] + Length(userlen) + e.src + e.dst + e.sport + e.dport + Length(userlen) + sum
  }

  /** Where the fields are: the protocol, twice the length, the addresses, and the ports. */
  predicate FieldsAt(b: seq<byte>, userlen: nat, e: Endpoints)
    requires |b| >= 28 && Valid(e)
  {
    var n := (8 + userlen) % 65536;
    && (forall i | 0 <= i < 9 :: b[i] == 0) && b[9] == 17
    && b[10] == n / 256 && b[11] == n % 256 && b[24] == n / 256 && b[25] == n % 256
    && b[12..16] == e.src && b[16..20] == e.dst && b[20..22] == e.sport && b[22..24] == e.dport
  }

  lemma {:induction false} HeaderFields(userlen: nat, e: Endpoints, user: seq<byte>)
    requires Valid(e)
    ensures FieldsAt(Header(userlen, e) + user, userlen, e)
  {
    var b, n := Header(userlen, e) + user, Length(userlen);
    assert b[10..12] == n && b[24..26] == n && b[10] == b[10..12][0] && b[24] == b[24..26][0];
    assert b[11] == b[10..12][1] && b[25] == b[24..26][1];
  }

  lemma {:induction false} StoredFields(b: seq<byte>, w: nat, big: bool, userlen: nat, e: Endpoints)
    requires |b| >= 28 && w <= 65535 && Valid(e) && FieldsAt(b, userlen, e)
    ensures FieldsAt(Stored(b, UI_SUM, w, big), userlen, e) && Stored(b, UI_SUM, w, big)[28..] == b[28..]
  {
    var c := Stored(b, UI_SUM, w, big);
    hide Bytes;
    assert c[12..16] == b[12..16] && c[16..20] == b[16..20] && c[20..22] == b[20..22] && c[22..24] == b[22..24];
  }

  function UdpSum(answer: nat): nat {
    if answer == 0 then 65535 else answer
  }

  function Copied(b: seq<byte>, at: nat, bytes: seq<byte>, i: nat): (r: seq<byte>)
    requires at + |bytes| <= |b| && i <= |bytes|
    ensures |r| == |b|
  {
    b[..at] + bytes[..i] + b[at + i..]
  }

  lemma CopyStep(b: seq<byte>, at: nat, bytes: seq<byte>, i: nat)
    requires at + |bytes| <= |b| && i < |bytes|
    ensures Copied(b, at, bytes, i)[at + i := bytes[i]] == Copied(b, at, bytes, i + 1)
  {
  }

  /** Copy bytes into a buffer. */
  method Copy(buf: array<byte>, at: nat, bytes: seq<byte>)
    requires at + |bytes| <= buf.Length
    modifies buf
    ensures buf[..] == old(buf[..at]) + bytes + old(buf[at + |bytes|..])
  {
    var i := 0;
    assert buf[..] == Copied(buf[..], at, bytes, 0);
    while i < |bytes|
      invariant 0 <= i <= |bytes|
      invariant buf[..] == Copied(old(buf[..]), at, bytes, i)
    {
      ghost var b := buf[..];
      buf[at + i] := bytes[i];
      assert buf[..] == b[at + i := bytes[i]];
      CopyStep(old(buf[..]), at, bytes, i);
      i := i + 1;
    }
  }

  /** Fill in the header, field by field. */
  method FillHeader(buf: array<byte>, userlen: nat, e: Endpoints)
    requires buf.Length == UDPIPHDR + userlen && Valid(e)
    modifies buf
    ensures buf[..] == Header(userlen, e) + old(buf[UDPIPHDR..])
  {
    ghost var user := buf[UDPIPHDR..];
    var zeros: seq<byte> := [0, 0, 0, 0, 0, 0, 0, 0, 0];
    var sum: seq<byte> := [0, 0];
    Copy(buf, 0, zeros + [IPPROTO_UDP]);
    ghost var head := zeros + [IPPROTO_UDP];
    assert buf[..10] == head && buf[UDPIPHDR..] == user;
    head := CopyNext(buf, 10, Length(userlen), head, user);
    head := CopyNext(buf, 12, e.src, head, user);
    head := CopyNext(buf, 16, e.dst, head, user);
    head := CopyNext(buf, 20, e.sport, head, user);
    head := CopyNext(buf, 22, e.dport, head, user);
    head := CopyNext(buf, 24, Length(userlen), head, user);
    head := CopyNext(buf, UI_SUM, sum, head, user);
    assert buf[..] == buf[..UDPIPHDR] + buf[UDPIPHDR..];
  }

  method CopyNext(buf: array<byte>, at: nat, bytes: seq<byte>, ghost head: seq<byte>, ghost user: seq<byte>)
    returns (ghost head': seq<byte>)
    requires |head| == at && at + |bytes| <= UDPIPHDR <= buf.Length && buf[..at] == head && buf[UDPIPHDR..] == user
    modifies buf
    ensures head' == head + bytes && buf[..|head'|] == head' && buf[UDPIPHDR..] == user
  {
    Copy(buf, at, bytes);
    head' := head + bytes;
  }

  /** The checksum of the datagram with its pseudo-header goes where it was zero, and a zero
      becomes all ones, unless checksums are turned off. */
  method UdpWrite(buf: array<byte>, userlen: nat, e: Endpoints, zerosum: bool, big: bool)
    requires buf.Length == UDPIPHDR + userlen && Valid(e)
    modifies buf
    ensures var base := Header(userlen, e) + old(buf[UDPIPHDR..]);
            buf[..] == if zerosum then base
                       else Stored(base, UI_SUM, UdpSum(65535 - Rep(Low32(Sum(base, big)))), big)
    ensures FieldsAt(buf[..], userlen, e) && buf[28..] == old(buf[28..])
  {
    FillHeader(buf, userlen, e);
    HeaderFields(userlen, e, old(buf[28..]));
    assert buf[..][28..] == old(buf[28..]) && buf[..][28..] == buf[28..];
    hide FieldsAt;
    if !zerosum {
      var b := buf[..];
      var sum := InCksum(b, big);
      hide Rep, Low32, Sum, Header;
      if sum == 0 {
        sum := 0xffff;
      }
      var bytes := Bytes(sum, big);
      buf[UI_SUM], buf[UI_SUM + 1] := bytes[0], bytes[1];
      assert buf[..] == Stored(b, UI_SUM, sum, big);
      StoredFields(b, sum, big, userlen, e);
      assert buf[..][28..] == buf[28..];
    }
  }

  /** What udp_write sends passes the receiver's check, and never looks like a datagram
      without a checksum. */
  lemma {:induction false} UdpChecks(base: seq<byte>, big: bool)
    requires UDPIPHDR <= |base| <= 2 * 65537 && base[UI_SUM] == 0 && base[UI_SUM + 1] == 0
    ensures var b := Stored(base, UI_SUM, UdpSum(65535 - Rep(Low32(Sum(base, big)))), big);
            && 65535 - Rep(Low32(Sum(b, big))) == 0
            && !(b[UI_SUM] == 0 && b[UI_SUM + 1] == 0)
  {
    var w := UdpSum(65535 - Rep(Low32(Sum(base, big))));
    StoredChecks(base, UI_SUM, w, big);
    hide Rep, Low32, Sum;
    assert w == 256 * (w / 256) + w % 256;
  }
}
