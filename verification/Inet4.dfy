/** IPv4 addresses as text: inet_pton4, inet_ntop4 and inet_aton.

    A C string is modelled by the characters before its terminating NUL. */
module Inet4 {
  import opened Basics
  import opened Fields

  // ---- the language of dotted quads ----

  predicate IsOctet(g: string) {
    g != "" && InBase(g, 10) && Value(g, 10) <= 255
  }

  predicate AllOctets(gs: seq<string>) {
    forall i | 0 <= i < |gs| :: IsOctet(gs[i])
  }

  /** The address a dotted quad denotes: four decimal groups, each nonempty and at most 255. */
  function Quad(s: string): (r: Option<seq<byte>>)
    ensures r.Some? ==> |r.value| == 4
  {
    QuadOf(Split(s, '.'))
  }

  function QuadOf(gs: seq<string>): (r: Option<seq<byte>>)
    ensures r.Some? ==> |r.value| == 4
  {
    if |gs| == 4 && AllOctets(gs) then
      var v: seq<byte> := [Value(gs[0], 10), Value(gs[1], 10), Value(gs[2], 10), Value(gs[3], 10)];
      Some(v)
    else None
  }

  lemma {:induction false} NoDigits(cur: string, more: string, b: nat)
    requires !InBase(cur, b)
    ensures !InBase(cur + more, b)
  {
    var c :| c in cur && Digit(c) >= b;
    assert c in cur + more;
  }

  /** A field that starts badly makes the whole text no quad. */
  lemma {:induction false} NotQuad(s: string, i: nat, done: seq<string>, cur: string)
    requires Reading(s, '.', i, done, cur)
    requires |done| > 3 || !InBase(cur, 10) || Value(cur, 10) > 255
    ensures Quad(s).None?
  {
    var more := ReadField(s, '.', i, done, cur);
    if |done| <= 3 {
      if !InBase(cur, 10) {
        NoDigits(cur, more, 10);
      }
      ValueGrows(cur, more, 10);
      assert !IsOctet(Split(s, '.')[|done|]);
    }
  }

  lemma {:induction false} EmptyGroup(s: string, i: nat, done: seq<string>)
    requires i < |s| && Reading(s, '.', i, done, "") && s[i] == '.'
    ensures Quad(s).None?
  {
    ReadSep(s, '.', i, done, "");
    var more := ReadField(s, '.', i + 1, done + [""], "");
    assert Split(s, '.')[|done|] == Split(s, '.')[..|done| + 1][|done|] == "";
    assert !IsOctet(Split(s, '.')[|done|]);
  }

  lemma {:induction false} FourGroups(done: seq<string>, cur: string, v: seq<byte>)
    requires |done| == 3 && AllOctets(done) && IsOctet(cur) && |v| == 4
    requires (forall k | 0 <= k < 3 :: v[k] == Value(done[k], 10)) && v[3] == Value(cur, 10)
    ensures QuadOf(done + [cur]) == Some(v)
  {
    var gs := done + [cur];
    assert forall k | 0 <= k < 4 :: IsOctet(gs[k]) && v[k] == Value(gs[k], 10);
    assert v == [v[0], v[1], v[2], v[3]];
  }

  method Pton4(src: string) returns (r: Option<seq<byte>>)
    ensures r == Quad(src)
  {
    hide Reading, Value, Split;
    var sawDigit, octets, tp := false, 0, 0;
    var tmp := new byte[4];
    tmp[0] := 0;
    ghost var done: seq<string>, cur := [], "";
    ReadStart(src, '.');
    ValueEmpty(10);
    var i := 0;
    while i < |src|
      invariant 0 <= i <= |src| && |done| == tp < 4
      invariant Reading(src, '.', i, done, cur) && AllOctets(done) && InBase(cur, 10)
      invariant (forall k | 0 <= k < tp :: tmp[k] == Value(done[k], 10)) && tmp[tp] == Value(cur, 10)
      invariant sawDigit == (cur != "") && octets == tp + (if sawDigit then 1 else 0)
    {
      var ch := src[i];
      i := i + 1;
      if Digit(ch) < 10 {
        ReadChar(src, '.', i - 1, done, cur);
        ValueStep(cur, ch, 10);
        cur := cur + [ch];
        var new_ := tmp[tp] * 10 + Digit(ch);
        if new_ > 255 {
          NotQuad(src, i, done, cur);
          return None;
        }
        tmp[tp] := new_;
        if !sawDigit {
          octets := octets + 1;
          sawDigit := true;
        }
      } else if ch == '.' && sawDigit {
        ReadSep(src, '.', i - 1, done, cur);
        done, cur := done + [cur], "";
        if octets == 4 {
          NotQuad(src, i, done, cur);
          return None;
        }
        tp := tp + 1;
        tmp[tp] := 0;
        sawDigit := false;
      } else {
        if ch == '.' {
          EmptyGroup(src, i - 1, done);
        } else {
          ReadChar(src, '.', i - 1, done, cur);
          assert ch in cur + [ch];
          NotQuad(src, i, done, cur + [ch]);
        }
        return None;
      }
    }
    ReadEnd(src, '.', done, cur);
    if octets < 4 {
      assert sawDigit || Split(src, '.')[tp] == "";
      return None;
    }
    FourGroups(done, cur, tmp[..]);
    r := Some(tmp[..]);
  }

  // ---- printing ----

  function QuadFields(a: seq<byte>): (fs: seq<string>)
    requires |a| == 4
    ensures |fs| == 4
  {
    [Numeral(a[0], 10), Numeral(a[1], 10), Numeral(a[2], 10), Numeral(a[3], 10)]
  }

  function QuadText(a: seq<byte>): string
    requires |a| == 4
  {
    Join(QuadFields(a), '.')
  }

  lemma {:induction false} JoinFour(a: string, b: string, c: string, d: string)
    ensures Join([a, b, c, d], '.') == a + "." + b + "." + c + "." + d
  {
    assert [a, b, c, d][1..] == [b, c, d] && [b, c, d][1..] == [c, d] && [c, d][1..] == [d];
    assert Join([c, d], '.') == c + "." + d;
    assert Join([b, c, d], '.') == b + "." + (c + "." + d);
  }

  /** The text returned has no room for its NUL in a buffer of this size. */
  predicate Overruns(r: Option<string>, size: nat) {
    r.Some? && |r.value| + 1 > size
  }

  /** The printer gives up exactly when the text without its NUL is longer than the buffer.  So
      the NUL falls behind the buffer exactly when the text fills it. */
  method Ntop4(src: seq<byte>, size: nat) returns (r: Option<string>)
    requires |src| == 4
    ensures r == if |QuadText(src)| > size then None else Some(QuadText(src))
    ensures Overruns(r, size) <==> |QuadText(src)| == size
  {
    var tmp := Numeral(src[0], 10) + "." + Numeral(src[1], 10) + "."
               + Numeral(src[2], 10) + "." + Numeral(src[3], 10);
    var fs := QuadFields(src);
    JoinFour(fs[0], fs[1], fs[2], fs[3]);
    if |tmp| > size {
      return None;
    }
    return Some(tmp);
  }

  lemma {:induction false} OneToFour()
    ensures QuadText([1, 2, 3, 4]) == "1.2.3.4"
  {
    assert QuadFields([1, 2, 3, 4]) == ["1", "2", "3", "4"];
    JoinFour("1", "2", "3", "4");
    assert "1" + "." + "2" + "." + "3" + "." + "4" == "1.2.3.4";
  }

  /** Seven characters in a buffer of seven. */
  method OneTooMany() returns (r: Option<string>)
    ensures r == Some("1.2.3.4") && Overruns(r, 7)
  {
    OneToFour();
    r := Ntop4([1, 2, 3, 4], 7);
  }

  lemma {:induction false} NoDotInNumeral(n: nat, b: nat)
    requires b == 10 || b == 16
    ensures '.' !in Numeral(n, b) && ':' !in Numeral(n, b)
  {
    NumeralValue(n, b);
    assert Digit('.') == 16 && Digit(':') == 16;
  }

  lemma {:induction false} QuadFieldsAre(a: seq<byte>)
    requires |a| == 4
    ensures forall i | 0 <= i < 4 :: var f := QuadFields(a)[i];
              '.' !in f && ':' !in f && IsOctet(f) && Value(f, 10) == a[i] && |f| <= 3
  {
    forall i | 0 <= i < 4
      ensures var f := QuadFields(a)[i];
              '.' !in f && ':' !in f && IsOctet(f) && Value(f, 10) == a[i] && |f| <= 3
    {
      OctetNumeral(a[i]);
      FieldIs(a, i);
      hide QuadFields, Numeral, Value, IsOctet;
    }
  }

  lemma FieldIs(a: seq<byte>, i: nat)
    requires |a| == 4 && i < 4
    ensures QuadFields(a)[i] == Numeral(a[i], 10)
  {
    hide Numeral;
  }

  /** Parsing undoes printing ... */
  lemma {:induction false} QuadRoundTrip(a: seq<byte>)
    requires |a| == 4
    ensures Quad(QuadText(a)) == Some(a)
  {
    QuadFieldsAre(a);
    var fs := QuadFields(a);
    SplitJoin(fs, '.');
    FourGroups(fs[..3], fs[3], a);
    assert fs[..3] + [fs[3]] == fs;
  }

  /** ... and the printed text takes at most 15 characters. */
  lemma {:induction false} QuadTextFits(a: seq<byte>)
    requires |a| == 4
    ensures |QuadText(a)| <= 15 && ':' !in QuadText(a)
  {
    QuadFieldsAre(a);
    QuadJoined(QuadFields(a));
  }

  lemma {:induction false} QuadJoined(fs: seq<string>)
    requires |fs| == 4 && forall i | 0 <= i < 4 :: ':' !in fs[i] && |fs[i]| <= 3
    ensures |Join(fs, '.')| <= 15 && ':' !in Join(fs, '.')
  {
    JoinLength(fs, '.', 3);
    JoinAvoids(fs, '.', ':');
  }

  lemma {:induction false} OctetNumeral(b: byte)
    ensures '.' !in Numeral(b, 10) && ':' !in Numeral(b, 10)
    ensures IsOctet(Numeral(b, 10)) && Value(Numeral(b, 10), 10) == b && |Numeral(b, 10)| <= 3
  {
    NoDotInNumeral(b, 10);
    NumeralValue(b, 10);
    NumeralLength(b);
  }

  lemma {:induction false} JoinAvoids(fs: seq<string>, sep: char, c: char)
    requires |fs| > 0 && c != sep && forall f | f in fs :: c !in f
    ensures c !in Join(fs, sep)
  {
    if |fs| > 1 {
      JoinAvoids(fs[1..], sep, c);
    }
  }

  /** A number written in decimal figures. */
  predicate Figures(g: string) {
    forall c | c in g :: c in "0123456789"
  }

  lemma {:induction false} FiguresIff(g: string)
    ensures InBase(g, 10) <==> Figures(g)
  {
    forall c | c in g ensures Digit(c) < 10 <==> c in "0123456789" {
      FigureIff(c);
    }
  }

  lemma {:induction false} FigureIff(c: char)
    ensures Digit(c) < 10 <==> c in "0123456789"
  {
    var ds := "0123456789";
    if '0' <= c <= '9' {
      assert c == ds[c as int - '0' as int];
    }
  }

  /** Four nonempty groups of figures with these values, and dots between them. */
  ghost predicate FourFigures(s: string, a: seq<byte>, gs: seq<string>)
    requires |a| == 4
  {
    && |gs| == 4 && Join(gs, '.') == s
    && forall i | 0 <= i < 4 :: gs[i] != "" && Figures(gs[i]) && Places(gs[i], 10) == a[i]
  }

  /** Just such a text is a dotted quad. */
  lemma {:induction false} QuadIff(s: string, a: seq<byte>)
    requires |a| == 4
    ensures Quad(s) == Some(a) <==> exists gs :: FourFigures(s, a, gs)
  {
    if Quad(s) == Some(a) {
      var gs := Split(s, '.');
      JoinSplit(s, '.');
      assert IsOctet(gs[0]) && IsOctet(gs[1]) && IsOctet(gs[2]) && IsOctet(gs[3]);
      Octets(gs);
      assert FourFigures(s, a, gs);
    }
    if gs :| FourFigures(s, a, gs) {
      FromFigures(s, a, gs);
    }
  }

  lemma {:induction false} Octets(gs: seq<string>)
    ensures forall i | 0 <= i < |gs| :: (InBase(gs[i], 10) <==> Figures(gs[i])) && Value(gs[i], 10) == Places(gs[i], 10)
  {
    forall i | 0 <= i < |gs|
      ensures (InBase(gs[i], 10) <==> Figures(gs[i])) && Value(gs[i], 10) == Places(gs[i], 10)
    {
      FiguresIff(gs[i]);
      ValueIsPlaces(gs[i], 10);
    }
  }

  lemma {:induction false} FromFigures(s: string, a: seq<byte>, gs: seq<string>)
    requires |a| == 4 && FourFigures(s, a, gs)
    ensures Quad(s) == Some(a)
  {
    Octets(gs);
    Undotted(gs);
    SplitJoin(gs, '.');
    hide InBase, Value, Places, Figures;
    assert gs[..3] + [gs[3]] == gs;
    FourGroups(gs[..3], gs[3], a);
  }

  lemma {:induction false} Undotted(gs: seq<string>)
    requires forall i | 0 <= i < |gs| :: Figures(gs[i])
    ensures forall f | f in gs :: '.' !in f
  {
    forall f | f in gs ensures '.' !in f {
      var i :| 0 <= i < |gs| && gs[i] == f;
      assert Figures(gs[i]);
    }
  }

  /** No group has a zero in front. */
  predicate LeanQuad(s: string) {
    var gs := Split(s, '.');
    |gs| == 4 && forall i | 0 <= i < 4 :: Lean(gs[i], 10)
  }

  /** Of all the texts for an address the one without needless zeros is printed. */
  lemma {:induction false} QuadTextIff(s: string, a: seq<byte>)
    requires |a| == 4
    ensures s == QuadText(a) <==> LeanQuad(s) && Quad(s) == Some(a)
  {
    QuadRoundTrip(a);
    QuadFieldsAre(a);
    SplitJoin(QuadFields(a), '.');
    QuadFieldsLean(a);
    if LeanQuad(s) && Quad(s) == Some(a) {
      var gs := Split(s, '.');
      JoinSplit(s, '.');
      assert Value(gs[0], 10) == a[0] && Value(gs[1], 10) == a[1];
      assert Value(gs[2], 10) == a[2] && Value(gs[3], 10) == a[3];
      hide Quad, LeanQuad, Lean, Numeral, Value, Split, Join, IsOctet;
      NumeralIff(gs[0], a[0], 10);
      NumeralIff(gs[1], a[1], 10);
      NumeralIff(gs[2], a[2], 10);
      NumeralIff(gs[3], a[3], 10);
      assert gs == QuadFields(a);
    }
  }

  lemma {:induction false} QuadFieldsLean(a: seq<byte>)
    requires |a| == 4
    ensures forall i | 0 <= i < 4 :: Lean(QuadFields(a)[i], 10)
  {
    hide Lean, Numeral;
    NumeralLean(a[0], 10);
    NumeralLean(a[1], 10);
    NumeralLean(a[2], 10);
    NumeralLean(a[3], 10);
  }

  // ---- inet_aton ----

  /** One more than the largest `u_long`. */
  const ULONG: int := 0x1_0000_0000_0000_0000

  /** What inet_aton accepts: one to four groups of digits, possibly empty, whose
      values are at most 255 after wrap-around; missing groups are zeros on the right. */
  function Dotted(s: string): (r: Option<seq<byte>>)
    ensures r.Some? ==> |r.value| == 4
  {
    DottedOf(Split(s, '.'))
  }

  function DottedOf(gs: seq<string>): (r: Option<seq<byte>>)
    ensures r.Some? ==> |r.value| == 4
  {
    if |gs| <= 4 && AllWrapped(gs) then
      Some(seq(4, i requires 0 <= i < 4 => if i < |gs| then Wrapped(gs[i]) else 0))
    else None
  }

  function Wrapped(g: string): (b: byte)
    requires IsWrapped(g)
  {
    Value(g, 10) % ULONG
  }

  predicate AllWrapped(gs: seq<string>) {
    forall i | 0 <= i < |gs| :: IsWrapped(gs[i])
  }

  predicate IsWrapped(g: string) {
    InBase(g, 10) && Value(g, 10) % ULONG <= 255
  }

  /** At most four groups of figures with dots between them, whose values modulo 2^64 are the
      first bytes; the others are zero. */
  ghost predicate SomeFigures(s: string, a: seq<byte>, gs: seq<string>)
    requires |a| == 4
  {
    && 1 <= |gs| <= 4 && Join(gs, '.') == s && (forall i | |gs| <= i < 4 :: a[i] == 0)
    && forall i | 0 <= i < |gs| :: Figures(gs[i]) && Places(gs[i], 10) % 0x1_0000_0000_0000_0000 == a[i]
  }

  /** Just such a text is accepted by inet_aton. */
  lemma {:induction false} DottedIff(s: string, a: seq<byte>)
    requires |a| == 4
    ensures Dotted(s) == Some(a) <==> exists gs :: SomeFigures(s, a, gs)
  {
    if Dotted(s) == Some(a) {
      var gs := Split(s, '.');
      JoinSplit(s, '.');
      Octets(gs);
      hide InBase, Value, Places, Figures, Split, Join;
      assert forall i | 0 <= i < |gs| :: IsWrapped(gs[i]) && a[i] == Wrapped(gs[i]);
      assert SomeFigures(s, a, gs);
    }
    if gs :| SomeFigures(s, a, gs) {
      Octets(gs);
      Undotted(gs);
      SplitJoin(gs, '.');
      hide InBase, Value, Places, Figures, Split, Join;
      assert forall i | 0 <= i < |gs| :: IsWrapped(gs[i]) && a[i] == Wrapped(gs[i]);
      var b := DottedOf(gs).value;
      assert forall i | 0 <= i < 4 :: b[i] == a[i];
      assert b == a;
    }
  }

  /** The number whose bytes, most significant first, are `bs`. */
  function Number(bs: seq<byte>): nat
    requires |bs| <= 4
  {
    var v: seq<int> := bs;
    if |v| == 0 then 0
    else if |v| == 1 then v[0]
    else if |v| == 2 then v[0] * 256 + v[1]
    else if |v| == 3 then v[0] * 0x1_0000 + v[1] * 256 + v[2]
    else v[0] * 0x100_0000 + v[1] * 0x1_0000 + v[2] * 256 + v[3]
  }

  /** The bytes of `htonl(addr)` in memory order. */
  function NetworkOrder(addr: nat): (bs: seq<byte>)
    requires addr < 0x1_0000_0000
    ensures |bs| == 4
  {
    [addr / 0x100_0000, addr / 0x1_0000 % 256, addr / 256 % 256, addr % 256]
  }

  lemma {:induction false} NotDotted(s: string, i: nat, done: seq<string>, cur: string)
    requires Reading(s, '.', i, done, cur)
    requires |done| > 3 || !InBase(cur, 10) || !AllWrapped(done)
    ensures Dotted(s).None?
  {
    var more := ReadField(s, '.', i, done, cur);
    if !AllWrapped(done) {
      var k :| 0 <= k < |done| && !IsWrapped(done[k]);
      assert Split(s, '.')[k] == Split(s, '.')[..|done|][k];
    } else if !InBase(cur, 10) {
      NoDigits(cur, more, 10);
      assert !IsWrapped(Split(s, '.')[|done|]);
    }
  }

  function Padded(bs: seq<byte>): (p: seq<byte>)
    requires |bs| <= 4
    ensures |p| == 4
  {
    bs + seq(4 - |bs|, _ => 0)
  }

  function Weight(missing: nat): nat
    requires missing < 4
  {
    if missing == 0 then 1 else if missing == 1 then 256 else if missing == 2 then 0x1_0000 else 0x100_0000
  }

  lemma {:induction false} FourBytes(b0: int, b1: int, b2: int, b3: int)
    requires 0 <= b0 < 256 && 0 <= b1 < 256 && 0 <= b2 < 256 && 0 <= b3 < 256
    ensures var n := b0 * 0x100_0000 + b1 * 0x1_0000 + b2 * 256 + b3;
            n < 0x1_0000_0000 && NetworkOrder(n) == [b0, b1, b2, b3]
  {
    var n := b0 * 0x100_0000 + b1 * 0x1_0000 + b2 * 256 + b3;
    assert n / 0x100_0000 == b0;
    assert n / 0x1_0000 == b0 * 256 + b1;
    LowByte(b0, b1);
    assert n == ((b0 * 256 + b1) * 256 + b2) * 256 + b3;
    LowByte((b0 * 256 + b1) * 256 + b2, b3);
    LowByte(b0 * 256 + b1, b2);
  }

  lemma LowByte(q: int, r: int)
    requires 0 <= r < 256
    ensures (q * 256 + r) / 256 == q && (q * 256 + r) % 256 == r
  {
  }

  lemma {:induction false} Scaled(v: nat, w: nat, p: seq<byte>)
    requires |p| == 4 && 1 <= w <= 4
    requires v == Number(p[..w]) && forall k | w <= k < 4 :: p[k] == 0
    ensures v * Weight(4 - w) == Number(p)
  {
    if w == 1 {
      assert Weight(3) == 0x100_0000;
    } else if w == 2 {
      assert Weight(2) == 0x1_0000;
    } else if w == 3 {
      assert Weight(1) == 256;
    } else {
      assert p[..4] == p;
    }
  }

  /** Shifting the groups read into place is padding them with zeros. */
  lemma {:induction false} Normalize(bs: seq<byte>)
    requires 1 <= |bs| <= 4
    ensures Number(bs) * Weight(4 - |bs|) == Number(Padded(bs)) < 0x1_0000_0000
    ensures NetworkOrder(Number(Padded(bs))) == Padded(bs)
  {
    hide NetworkOrder, Number, Weight;
    var p := Padded(bs);
    assert p[..|bs|] == bs;
    Scaled(Number(bs), |bs|, p);
    NumberOfFour(p);
    FourBytes(p[0], p[1], p[2], p[3]);
    assert p == [p[0], p[1], p[2], p[3]];
  }

  lemma NumberOfFour(p: seq<byte>)
    requires |p| == 4
    ensures Number(p) == (p[0] as int) * 0x100_0000 + (p[1] as int) * 0x1_0000 + (p[2] as int) * 256 + p[3]
  {
  }

  lemma {:induction false} WrapStep(v: nat, d: nat)
    ensures (v % ULONG * 10 + d) % ULONG == (v * 10 + d) % ULONG
  {
    var q := v / ULONG;
    assert v * 10 + d == (v % ULONG * 10 + d) + (q * 10) * ULONG;
    ModShift(v % ULONG * 10 + d, q * 10);
  }

  lemma {:induction false} ModShift(x: nat, k: nat)
    ensures (x + k * ULONG) % ULONG == x % ULONG
  {
    if k > 0 {
      ModShift(x, k - 1);
      assert x + k * ULONG == (x + (k - 1) * ULONG) + ULONG;
    }
  }

  lemma {:induction false} GroupsRead(done: seq<string>, cur: string, bs: seq<byte>)
    requires |bs| == |done| + 1 <= 4 && AllWrapped(done) && IsWrapped(cur)
    requires (forall k | 0 <= k < |done| :: bs[k] == Wrapped(done[k])) && bs[|done|] == Wrapped(cur)
    ensures DottedOf(done + [cur]) == Some(Padded(bs))
  {
    var gs := done + [cur];
    assert forall k | 0 <= k < |gs| :: IsWrapped(gs[k]) && bs[k] == Wrapped(gs[k]);
    assert DottedOf(gs).value == Padded(bs);
  }

  method Aton(cp: string) returns (r: Option<seq<byte>>)
    ensures r == Dotted(cp)
  {
    hide Reading, Value, Split;
    var dots, acc, addr := 0, 0, 0;
    ghost var done: seq<string>, cur, bs: seq<byte> := [], "", [];
    ReadStart(cp, '.');
    ValueEmpty(10);
    var i := 0;
    while i < |cp|
      invariant 0 <= i <= |cp| && |done| == dots == |bs| < 4
      invariant Reading(cp, '.', i, done, cur) && AllWrapped(done) && InBase(cur, 10)
      invariant acc == Value(cur, 10) % ULONG
      invariant (forall k | 0 <= k < dots :: bs[k] == Wrapped(done[k])) && addr == Number(bs)
    {
      var cc := cp[i];
      i := i + 1;
      if '0' <= cc <= '9' {
        ReadChar(cp, '.', i - 1, done, cur);
        ValueStep(cur, cc, 10);
        WrapStep(Value(cur, 10), Digit(cc));
        acc := (acc * 10 + (cc as int - '0' as int)) % ULONG;
        cur := cur + [cc];
      } else if cc == '.' {
        ReadSep(cp, '.', i - 1, done, cur);
        done, cur := done + [cur], "";
        dots := dots + 1;
        if dots > 3 {
          NotDotted(cp, i, done, cur);
          return None;
        }
        if acc > 255 {
          assert !IsWrapped(done[dots - 1]);
          NotDotted(cp, i, done, cur);
          return None;
        }
        bs := bs + [acc];
        addr := addr * 256 + acc;  // the low eight bits are clear, so "or" adds
        acc := 0;
      } else {
        ReadChar(cp, '.', i - 1, done, cur);
        assert cc in cur + [cc];
        NotDotted(cp, i, done, cur + [cc]);
        return None;
      }
    }
    // the terminating NUL closes the last group
    ReadEnd(cp, '.', done, cur);
    if acc > 255 {
      assert !IsWrapped(Split(cp, '.')[dots]);
      return None;
    }
    bs := bs + [acc];
    addr := addr * 256 + acc;
    assert addr == Number(bs);
    Normalize(bs);
    GroupsRead(done, cur, bs);
    addr := addr * Weight(3 - dots);  // addr <<= 8 * (3 - dots), which does nothing after three dots
    r := Some(NetworkOrder(addr));
  }

  /** Every dotted quad means the same to both parsers. */
  lemma {:induction false} QuadIsDotted(s: string)
    requires Quad(s).Some?
    ensures Dotted(s) == Quad(s)
  {
    OctetsAreWrapped(Split(s, '.'));
  }

  lemma {:induction false} OctetsAreWrapped(gs: seq<string>)
    requires QuadOf(gs).Some?
    ensures DottedOf(gs) == QuadOf(gs)
  {
    hide InBase, Value;
    assert forall i | 0 <= i < |gs| :: IsOctet(gs[i]) ==> IsWrapped(gs[i]) && Wrapped(gs[i]) == Value(gs[i], 10);
    assert DottedOf(gs).value == QuadOf(gs).value;
  }
}
