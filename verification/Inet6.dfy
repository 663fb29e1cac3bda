/** Parsing IPv6 addresses: inet_pton6. */
module Inet6 {
  import opened Basics
  import opened Fields
  import opened Inet4

  // ---- the language ----

  predicate IsGroup(f: string) {
    f != "" && InBase(f, 16) && Value(f, 16) <= 0xffff
  }

  function WordBytes(w: nat): (bs: seq<byte>)
    requires w <= 0xffff
    ensures |bs| == 2
  {
    [w / 256, w % 256]
  }

  /** The last field may also be empty, which stands for nothing, or a dotted quad. */
  function Last(f: string): (r: Option<seq<byte>>)
    ensures r.Some? ==> |r.value| <= 4
  {
    if f == "" then Some([])
    else if IsGroup(f) then Some(WordBytes(Value(f, 16)))
    else Quad(f)
  }

  /** The bytes the fields of a text stand for, and where the double colon was. */
  datatype Scan = Scan(bytes: seq<byte>, colon: Option<nat>)

  predicate ScanOk(sc: Scan) {
    |sc.bytes| <= 16 && (sc.colon.Some? ==> sc.colon.value <= |sc.bytes|)
  }

  function Walk(fs: seq<string>, sc: Scan): (r: Option<Scan>)
    requires |fs| > 0 && ScanOk(sc)
    ensures r.Some? ==> ScanOk(r.value)
  {
    if |fs| == 1 then
      var l := Last(fs[0]);
      if l.Some? && |sc.bytes| + |l.value| <= 16 then Some(sc.(bytes := sc.bytes + l.value)) else None
    else if fs[0] == "" then
      if sc.colon.Some? then None else Walk(fs[1..], sc.(colon := Some(|sc.bytes|)))
    else if IsGroup(fs[0]) && |sc.bytes| + 2 <= 16 then
      Walk(fs[1..], sc.(bytes := sc.bytes + WordBytes(Value(fs[0], 16))))
    else None
  }

  function Zeros(n: nat): (z: seq<byte>)
    ensures |z| == n
  {
    seq(n, _ => 0)
  }

  /** The address for the bytes read.  A double colon that stands for no group at all
      zeroes every byte after it. */
  function Expand(sc: Scan): (r: Option<seq<byte>>)
    requires ScanOk(sc)
    ensures r.Some? ==> |r.value| == 16
  {
    match sc.colon
    case None => if |sc.bytes| == 16 then Some(sc.bytes) else None
    case Some(c) =>
      if |sc.bytes| < 16 then Some(sc.bytes[..c] + Zeros(16 - |sc.bytes|) + sc.bytes[c..])
      else Some(sc.bytes[..c] + Zeros(16 - c))
  }

  const START := Scan([], None)

  function Body(s: string): (r: Option<seq<byte>>)
    ensures r.Some? ==> |r.value| == 16
  {
    var w := Walk(Split(s, ':'), START);
    if w.Some? then Expand(w.value) else None
  }

  /** The address a text denotes.  A leading colon must be doubled. */
  function Address(s: string): (r: Option<seq<byte>>)
    ensures r.Some? ==> |r.value| == 16
  {
    if s != "" && s[0] == ':' then
      if |s| > 1 && s[1] == ':' then Body(s[1..]) else None
    else Body(s)
  }

  // ---- what the walk means ----

  predicate AllGroups(gs: seq<string>) {
    forall i | 0 <= i < |gs| :: IsGroup(gs[i])
  }

  function GroupBytes(gs: seq<string>): (bs: seq<byte>)
    requires AllGroups(gs)
    ensures |bs| == 2 * |gs|
  {
    if gs == [] then [] else WordBytes(Value(gs[0], 16)) + GroupBytes(gs[1..])
  }

  /** A group is a number below 2^16 in hexadecimal digits of either case, however many ... */
  lemma {:induction false} GroupIff(f: string)
    ensures IsGroup(f) <==>
            f != "" && (forall c | c in f :: c in "0123456789abcdefABCDEF") && Places(f, 16) <= 0xffff
  {
    ValueIsPlaces(f, 16);
    hide Value, Places;
    forall c | c in f ensures Digit(c) < 16 <==> c in "0123456789abcdefABCDEF" {
      OtherDigit(c);
    }
  }

  /** ... and stands for two bytes, the high one first. */
  lemma {:induction false} GroupBytesAt(gs: seq<string>, i: nat)
    requires AllGroups(gs) && i < |gs|
    ensures GroupBytes(gs)[2 * i] == Places(gs[i], 16) / 256 && GroupBytes(gs)[2 * i + 1] == Places(gs[i], 16) % 256
  {
    if i == 0 {
      ValueIsPlaces(gs[0], 16);
      hide Value, Places;
    } else {
      hide Value, Places, IsGroup, WordBytes;
      GroupBytesAt(gs[1..], i - 1);
      assert GroupBytes(gs)[2..] == GroupBytes(gs[1..]);
    }
  }

  /** Groups before the last field contribute their bytes in order. */
  lemma {:induction false} WalkGroups(gs: seq<string>, rest: seq<string>, sc: Scan)
    requires AllGroups(gs) && |rest| > 0 && ScanOk(sc) && |sc.bytes| + 2 * |gs| <= 16
    ensures Walk(gs + rest, sc) == Walk(rest, sc.(bytes := sc.bytes + GroupBytes(gs)))
  {
    hide InBase, Value, Quad, Last;
    if gs == [] {
      assert gs + rest == rest;
      assert sc.bytes + GroupBytes(gs) == sc.bytes;
    } else {
      var g, tail := gs[0], gs[1..];
      var w := WordBytes(Value(g, 16));
      assert gs == [g] + tail && AllGroups(tail);
      hide Walk, GroupBytes, AllGroups, IsGroup, WordBytes;
      GroupBytesCons(g, tail);
      WalkGroup(g, tail + rest, sc);
      assert gs + rest == [g] + (tail + rest);
      WalkGroups(tail, rest, sc.(bytes := sc.bytes + w));
      Reassociate(sc.bytes, w, GroupBytes(tail), []);
    }
  }

  lemma WalkGroup(g: string, rest: seq<string>, sc: Scan)
    requires IsGroup(g) && |rest| > 0 && ScanOk(sc) && |sc.bytes| + 2 <= 16
    ensures Walk([g] + rest, sc) == Walk(rest, sc.(bytes := sc.bytes + WordBytes(Value(g, 16))))
  {
    hide InBase, Value, Quad, Last;
    assert ([g] + rest)[1..] == rest;
  }

  lemma {:induction false} WalkAcross(head: seq<string>, tail: seq<string>)
    requires AllGroups(head) && |head| <= 8 && |tail| > 0
    ensures Walk(head + [""] + tail, START) == Walk(tail, Scan([] + GroupBytes(head), Some(2 * |head|)))
  {
    hide Walk, GroupBytes, IsGroup;
    WalkGroups(head, [""] + tail, START);
    WalkEmpty(tail, START.(bytes := [] + GroupBytes(head)));
    assert head + ([""] + tail) == head + [""] + tail;
  }

  lemma {:induction false} WalkEmpty(tail: seq<string>, sc: Scan)
    requires |tail| > 0 && ScanOk(sc) && sc.colon.None?
    ensures Walk([""] + tail, sc) == Walk(tail, sc.(colon := Some(|sc.bytes|)))
  {
    assert ([""] + tail)[1..] == tail;
  }

  lemma {:induction false} WalkAllGroups(gs: seq<string>, sc: Scan)
    requires |gs| > 0 && AllGroups(gs) && ScanOk(sc) && |sc.bytes| + 2 * |gs| <= 16
    ensures Walk(gs, sc) == Some(sc.(bytes := sc.bytes + GroupBytes(gs)))
  {
    hide InBase, Value, Quad;
    if |gs| == 1 {
      assert gs[1..] == [] && GroupBytes(gs) == WordBytes(Value(gs[0], 16)) + GroupBytes([]);
      assert GroupBytes(gs) == WordBytes(Value(gs[0], 16));
    } else {
      var w := WordBytes(Value(gs[0], 16));
      WalkAllGroups(gs[1..], sc.(bytes := sc.bytes + w));
      Reassociate(sc.bytes, w, GroupBytes(gs[1..]), []);
    }
  }

  lemma {:induction false} ColonStays(fs: seq<string>, sc: Scan)
    requires |fs| > 0 && ScanOk(sc) && Walk(fs, sc).Some? && sc.colon.Some?
    ensures Walk(fs, sc).value.colon == sc.colon
  {
    hide InBase, Value, Quad;
    if |fs| > 1 {
      ColonStays(fs[1..], sc.(bytes := sc.bytes + WordBytes(Value(fs[0], 16))));
    }
  }

  lemma {:induction false} GroupBytesCons(f: string, gs: seq<string>)
    requires IsGroup(f) && AllGroups(gs)
    ensures AllGroups([f] + gs) && GroupBytes([f] + gs) == WordBytes(Value(f, 16)) + GroupBytes(gs)
  {
    assert ([f] + gs)[1..] == gs;
  }

  lemma Reassociate(x: seq<byte>, w: seq<byte>, g: seq<byte>, l: seq<byte>)
    ensures x + w + (g + l) == x + (w + g + l) && x + w + g == x + (w + g)
  {
  }

  /** Conversely, a walk that meets no double colon met only groups before the last field ... */
  lemma {:induction false} WalkTail(fs: seq<string>, sc: Scan) returns (tail: seq<string>, last: string)
    requires |fs| > 0 && ScanOk(sc) && Walk(fs, sc).Some? && Walk(fs, sc).value.colon == sc.colon
    ensures AllGroups(tail) && Last(last).Some? && fs == tail + [last]
    ensures Walk(fs, sc).value.bytes == sc.bytes + (GroupBytes(tail) + Last(last).value)
  {
    hide InBase, Value, Quad, Last;
    if |fs| == 1 {
      tail, last := [], fs[0];
      assert GroupBytes([]) + Last(last).value == Last(last).value;
    } else {
      if fs[0] == "" {
        ColonStays(fs[1..], sc.(colon := Some(|sc.bytes|)));
      }
      var w := WordBytes(Value(fs[0], 16));
      var t, l := WalkTail(fs[1..], sc.(bytes := sc.bytes + w));
      tail, last := [fs[0]] + t, l;
      GroupBytesCons(fs[0], t);
      Reassociate(sc.bytes, w, GroupBytes(t), Last(l).value);
      assert fs == [fs[0]] + fs[1..];
    }
  }

  /** ... and one that meets a double colon met only groups before it. */
  lemma {:induction false} WalkHead(fs: seq<string>, sc: Scan) returns (head: seq<string>, rest: seq<string>)
    requires |fs| > 0 && ScanOk(sc) && Walk(fs, sc).Some? && sc.colon.None? && Walk(fs, sc).value.colon.Some?
    ensures AllGroups(head) && fs == head + [""] + rest && |rest| > 0 && |sc.bytes| + 2 * |head| <= 16
    ensures Walk(fs, sc) == Walk(rest, Scan(sc.bytes + GroupBytes(head), Some(|sc.bytes| + 2 * |head|)))
  {
    hide InBase, Value, Quad, Last;
    if fs[0] == "" {
      head, rest := [], fs[1..];
      assert sc.bytes + GroupBytes([]) == sc.bytes;
    } else {
      var w := WordBytes(Value(fs[0], 16));
      var h, r := WalkHead(fs[1..], sc.(bytes := sc.bytes + w));
      head, rest := [fs[0]] + h, r;
      GroupBytesCons(fs[0], h);
      Reassociate(sc.bytes, w, GroupBytes(h), []);
      assert fs == [fs[0]] + fs[1..];
    }
  }

  lemma Halves(x: seq<byte>, y: seq<byte>)
    ensures (x + y)[..|x|] == x && (x + y)[|x|..] == y && [] + x == x
  {
  }

  lemma {:induction false} GroupsHaveNoColon(gs: seq<string>)
    requires AllGroups(gs)
    ensures forall i | 0 <= i < |gs| :: ':' !in gs[i] && gs[i] != ""
  {
    assert Digit(':') == 16;
  }

  // ---- facts the parser needs ----

  /** Decimal digits read in base sixteen. */
  function Bcd(v: nat): nat {
    if v < 10 then v else Bcd(v / 10) * 16 + v % 10
  }

  lemma {:induction false} DecimalAsHex(s: string)
    requires InBase(s, 10)
    ensures Value(s, 16) == Bcd(Value(s, 10))
  {
    if s != [] {
      var t := s[..|s| - 1];
      DecimalAsHex(t);
      assert Digit(s[|s| - 1]) < 10;
      assert (Value(t, 10) * 10 + Digit(s[|s| - 1])) / 10 == Value(t, 10);
    }
  }

  lemma {:induction false} OctetAsHex(g: string, cur: string, more: string)
    requires IsOctet(g) && g == cur + more
    ensures InBase(cur, 10) && Value(cur, 16) <= 0xffff
  {
    ValueGrows(cur, more, 10);
    forall c | c in cur ensures Digit(c) < 10 { assert c in g; }
    DecimalAsHex(cur);
    var v := Value(cur, 10);
    assert v / 10 / 10 < 10 && Bcd(v / 10 / 10) <= 2 && Bcd(v / 10) <= 41;
  }

  lemma {:induction false} QuadHasNoColon(s: string)
    requires Quad(s).Some?
    ensures ':' !in s
  {
    var gs := Split(s, '.');
    JoinSplit(s, '.');
    forall i | 0 <= i < |gs| ensures ':' !in gs[i] {
      assert IsOctet(gs[i]) && Digit(':') == 16;
    }
    JoinAvoids(gs, '.', ':');
  }

  /** A dotted quad starts with an octet, so its first digits are a small hexadecimal number. */
  lemma {:induction false} QuadStart(cur: string, more: string)
    requires '.' !in cur && Quad(cur + more).Some?
    ensures InBase(cur, 10) && Value(cur, 16) <= 0xffff
  {
    SplitPrefix(cur, more, '.');
    OctetAsHex(Split(cur + more, '.')[0], cur, Split(more, '.')[0]);
  }

  lemma BadField(fs: seq<string>, sc: Scan)
    requires |fs| > 0 && ScanOk(sc) && fs[0] != "" && !IsGroup(fs[0])
    requires |fs| == 1 ==> Quad(fs[0]).None? || |sc.bytes| + 4 > 16
    ensures Walk(fs, sc).None?
  {
  }

  /** A field whose first characters overflow sixteen bits, or hold a character that is
      neither a hexadecimal digit nor a dot, is neither a group nor a quad. */
  lemma {:induction false} BadStart(cur: string, more: string, c: char)
    requires '.' !in cur && c in cur && (Digit(c) >= 16 || Value(cur, 16) > 0xffff)
    ensures cur + more != "" && !IsGroup(cur + more) && Quad(cur + more).None?
  {
    ValueGrows(cur, more, 16);
    assert c in cur + more;
    if Quad(cur + more).Some? {
      QuadStart(cur, more);
    }
  }

  // ---- the parser ----

  /** The shift by hand: byte by byte from the back, zeroing behind it, with source and
      destination overlapping. */
  method ShiftTail(tmp: array<byte>, colonp: nat, tp: nat)
    requires tmp.Length == 16 && colonp <= tp <= 16
    requires forall x | tp <= x < 16 :: tmp[x] == 0
    modifies tmp
    ensures Expand(Scan(old(tmp[..tp]), Some(colonp))) == Some(tmp[..])
  {
    var n := tp - colonp;
    ghost var gap, was := 16 - tp, tmp[..];
    for i := 1 to n + 1
      invariant forall x | 0 <= x < tp - (i - 1) :: tmp[x] == was[x]
      invariant forall x | tp - (i - 1) <= x < 16 - (i - 1) :: tmp[x] == 0
      invariant forall x | 16 - (i - 1) <= x < 16 :: tmp[x] == if gap > 0 then was[x - gap] else 0
    {
      tmp[16 - i] := tmp[colonp + n - i];
      tmp[colonp + n - i] := 0;
    }
    Spread(was, colonp, tp, tmp[..]);
  }

  lemma {:induction false} Spread(was: seq<byte>, c: nat, tp: nat, now: seq<byte>)
    requires |was| == |now| == 16 && c <= tp <= 16
    requires forall x | 0 <= x < c :: now[x] == was[x]
    requires forall x | c <= x < c + 16 - tp :: now[x] == 0
    requires forall x | c + 16 - tp <= x < 16 :: now[x] == if tp < 16 then was[x - (16 - tp)] else 0
    ensures Expand(Scan(was[..tp], Some(c))) == Some(now)
  {
    assert was[..tp][..c] == was[..c] && was[..tp][c..] == was[c..tp];
    if tp < 16 {
      assert now == was[..c] + Zeros(16 - tp) + was[c..tp];
    } else {
      assert now == was[..c] + Zeros(16 - c);
    }
  }

  /** The state of the loop: the fields read so far gave the bytes in `bytes`. */
  ghost predicate Scanned(s: string, i: nat, done: seq<string>, cur: string, sc: Scan) {
    && Reading(s, ':', i, done, cur) && ScanOk(sc) && |done| < |Split(s, ':')|
    && Walk(Split(s, ':'), START) == Walk(Split(s, ':')[|done|..], sc)
  }

  lemma {:induction false} ScanStart(s: string)
    ensures Scanned(s, 0, [], "", START)
  {
    ReadStart(s, ':');
    assert Split(s, ':')[0..] == Split(s, ':');
  }

  lemma {:induction false} ScanChar(s: string, i: nat, done: seq<string>, cur: string, sc: Scan)
    requires i < |s| && Scanned(s, i, done, cur, sc) && s[i] != ':'
    ensures Scanned(s, i + 1, done, cur + [s[i]], sc)
  {
    ReadChar(s, ':', i, done, cur);
  }

  /** After a colon the field before it is complete and is not the last. */
  lemma {:induction false} ScanField(s: string, i: nat, done: seq<string>, cur: string, sc: Scan)
    requires i < |s| && Scanned(s, i, done, cur, sc) && s[i] == ':'
    ensures var fs := Split(s, ':');
            Reading(s, ':', i + 1, done + [cur], "") && |done| + 1 < |fs|
            && fs[|done|] == cur && fs[|done|..][1..] == fs[|done| + 1..]
  {
    ReadSep(s, ':', i, done, cur);
    var more := ReadField(s, ':', i + 1, done + [cur], "");
    assert Split(s, ':')[..|done| + 1][|done|] == cur;
  }

  /** What a colon does to the scan, given the field before it; none if it ends the parse. */
  function AtColon(sc: Scan, cur: string): (r: Option<Scan>)
    requires ScanOk(sc) && (cur != "" ==> IsGroup(cur))
    ensures r.Some? ==> ScanOk(r.value)
  {
    if cur == "" then if sc.colon.Some? then None else Some(sc.(colon := Some(|sc.bytes|)))
    else if |sc.bytes| + 2 > 16 then None
    else Some(sc.(bytes := sc.bytes + WordBytes(Value(cur, 16))))
  }

  lemma {:induction false} ScanColon(s: string, i: nat, done: seq<string>, cur: string, sc: Scan)
    requires i < |s| && Scanned(s, i, done, cur, sc) && s[i] == ':' && (cur != "" ==> IsGroup(cur))
    ensures AtColon(sc, cur).None? ==> Body(s).None?
    ensures AtColon(sc, cur).Some? ==> Scanned(s, i + 1, done + [cur], "", AtColon(sc, cur).value)
  {
    ScanField(s, i, done, cur, sc);
  }

  lemma {:induction false} ScanBad(s: string, i: nat, done: seq<string>, cur: string, sc: Scan, c: char)
    requires Scanned(s, i, done, cur, sc)
    requires '.' !in cur && c in cur && (Digit(c) >= 16 || Value(cur, 16) > 0xffff)
    ensures Body(s).None?
  {
    var more := ReadField(s, ':', i, done, cur);
    BadStart(cur, more, c);
    BadField(Split(s, ':')[|done|..], sc);
  }

  lemma {:induction false} DotField(cur: string, rest: string, sc: Scan)
    requires ScanOk(sc) && ':' !in cur && rest != "" && rest[0] == '.'
    ensures var q := Quad(cur + rest);
            Walk(Split(cur + rest, ':'), sc)
            == if q.Some? && |sc.bytes| + 4 <= 16 then Some(sc.(bytes := sc.bytes + q.value)) else None
  {
    var t := cur + rest;
    var fs := Split(t, ':');
    SplitPrefix(cur, rest, ':');
    assert fs[0][|cur|] == '.';
    assert '.' in fs[0] && Digit('.') == 16;
    assert fs[0] != "" && !IsGroup(fs[0]);
    if ':' !in t {
      SplitWhole(t, ':');
    } else {
      LastHasSep(t);
      if Quad(t).Some? {
        QuadHasNoColon(t);
      }
    }
  }

  /** At a dot, what is left of the text must be a dotted quad, and then it is the last field. */
  lemma {:induction false} ScanDot(s: string, i: nat, done: seq<string>, cur: string, sc: Scan)
    requires i < |s| && Scanned(s, i, done, cur, sc) && s[i] == '.'
    ensures var q := Quad(cur + s[i..]);
            if q.Some? && |sc.bytes| + 4 <= 16
            then Walk(Split(s, ':'), START) == Some(sc.(bytes := sc.bytes + q.value))
            else Body(s).None?
  {
    DotField(cur, s[i..], sc);
    assert Split(s, ':')[|done|..] == Split(cur + s[i..], ':');
  }

  lemma {:induction false} LastHasSep(t: string)
    requires ':' in t
    ensures |Split(t, ':')| > 1
  {
    JoinSplit(t, ':');
  }

  lemma {:induction false} ScanEnd(s: string, done: seq<string>, cur: string, sc: Scan)
    requires Scanned(s, |s|, done, cur, sc) && (cur != "" ==> IsGroup(cur))
    ensures cur == "" ==> Walk(Split(s, ':'), START) == Some(sc)
    ensures cur != "" && |sc.bytes| + 2 > 16 ==> Body(s).None?
    ensures cur != "" && |sc.bytes| + 2 <= 16 ==>
              Walk(Split(s, ':'), START) == Some(sc.(bytes := sc.bytes + WordBytes(Value(cur, 16))))
  {
    ReadEnd(s, ':', done, cur);
    assert Split(s, ':')[|done|..] == [cur];
    assert sc.bytes + [] == sc.bytes;
  }

  /** Append bytes at the write pointer. */
  method Put(tmp: array<byte>, tp: nat, bs: seq<byte>)
    requires tmp.Length == 16 && tp + |bs| <= 16
    requires forall x | tp <= x < 16 :: tmp[x] == 0
    modifies tmp
    ensures tmp[..tp + |bs|] == old(tmp[..tp]) + bs
    ensures forall x | tp + |bs| <= x < 16 :: tmp[x] == 0
  {
    for k := 0 to |bs|
      invariant tmp[..tp] == old(tmp[..tp])
      invariant forall x | 0 <= x < k :: tmp[tp + x] == bs[x]
      invariant forall x | tp + k <= x < 16 :: tmp[x] == 0
    {
      tmp[tp + k] := bs[k];
    }
  }

  lemma {:induction false} NoDot(cur: string)
    requires InBase(cur, 16)
    ensures '.' !in cur
  {
    assert Digit('.') == 16;
  }

  lemma NoChars(b: nat)
    ensures InBase("", b)
  {
  }

  lemma AtColonIs(sc: Scan, cur: string)
    requires ScanOk(sc) && (cur != "" ==> IsGroup(cur))
    ensures cur == "" ==> AtColon(sc, cur) == if sc.colon.Some? then None else Some(Scan(sc.bytes, Some(|sc.bytes|)))
    ensures cur != "" ==>
              AtColon(sc, cur) == if |sc.bytes| + 2 > 16 then None
                                  else Some(Scan(sc.bytes + WordBytes(Value(cur, 16)), sc.colon))
  {
  }

  method Pton6(text: string) returns (r: Option<seq<byte>>)
    ensures r == Address(text)
  {
    var src := text;
    if src != "" && src[0] == ':' {
      src := src[1..];
      if src == "" || src[0] != ':' {
        return None;
      }
    }
    r := Pton6Body(src);
  }

  /** The loop over the characters after the leading colon has been dealt with. */
  method Pton6Body(src: string) returns (r: Option<seq<byte>>)
    ensures r == Body(src)
  {
    hide Scanned, Walk, Value, Expand, InBase, Quad, AtColon;
    var tmp := new byte[16](_ => 0);
    var tp, colonp := 0, None;
    var curtok, i, sawXdigit, val := 0, 0, false, 0;
    ghost var done: seq<string>, cur, sc := [], "", START;
    ScanStart(src);
    ValueEmpty(16);
    assert InBase("", 16) by { NoChars(16); }
    while i < |src|
      invariant 0 <= curtok <= i <= |src| && 0 <= tp <= 16 && (colonp.Some? ==> colonp.value <= tp)
      invariant Scanned(src, i, done, cur, sc) && sc == Scan(tmp[..tp], colonp)
      invariant InBase(cur, 16) && val == Value(cur, 16) <= 0xffff && sawXdigit == (cur != "")
      invariant cur == src[curtok..i]
      invariant forall x | tp <= x < 16 :: tmp[x] == 0
    {
      var ch := src[i];
      NoDot(cur);
      if Digit(ch) < 16 {
        ValueStep(cur, ch, 16);
        InBaseStep(cur, ch, 16);
        ScanChar(src, i, done, cur, sc);
        SliceStep(src, curtok, i);
        cur := cur + [ch];
        val := val * 16 + Digit(ch);
        if val > 0xffff {
          ScanBad(src, i + 1, done, cur, sc, ch);
          return None;
        }
        sawXdigit := true;
      } else if ch == ':' {
        curtok := i + 1;
        ScanColon(src, i, done, cur, sc);
        AtColonIs(sc, cur);
        ghost var next := AtColon(sc, cur);
        if !sawXdigit {
          if colonp.Some? {
            return None;
          }
          colonp := Some(tp);
        } else {
          if tp + 2 > 16 {
            return None;
          }
          Put(tmp, tp, WordBytes(val));
          tp := tp + 2;
          sawXdigit, val := false, 0;
        }
        done, cur, sc := done + [cur], "", next.value;
      } else if ch == '.' {
        ScanDot(src, i, done, cur, sc);
        SliceRest(src, curtok, i);
        if tp + 4 > 16 {
          return None;
        }
        var q := Pton4(src[curtok..]);
        if q.None? {
          return None;
        }
        Put(tmp, tp, q.value);
        tp := tp + 4;
        r := Finish(tmp, tp, colonp);
        return;
      } else {
        ScanChar(src, i, done, cur, sc);
        ScanBad(src, i + 1, done, cur + [ch], sc, ch);
        return None;
      }
      i := i + 1;
    }
    ScanEnd(src, done, cur, sc);
    if sawXdigit {
      if tp + 2 > 16 {
        return None;
      }
      Put(tmp, tp, WordBytes(val));
      tp := tp + 2;
    }
    r := Finish(tmp, tp, colonp);
  }

  /** Expand the double colon and check that the address is complete. */
  method Finish(tmp: array<byte>, tp: nat, colonp: Option<nat>) returns (r: Option<seq<byte>>)
    requires tmp.Length == 16 && tp <= 16 && (colonp.Some? ==> colonp.value <= tp)
    requires forall x | tp <= x < 16 :: tmp[x] == 0
    modifies tmp
    ensures r == Expand(Scan(old(tmp[..tp]), colonp))
  {
    var endp := tp;
    if colonp.Some? {
      ShiftTail(tmp, colonp.value, tp);
      endp := 16;
    }
    if endp != 16 {
      return None;
    }
    assert colonp.None? ==> tmp[..tp] == tmp[..];
    return Some(tmp[..]);
  }
}
