/** The one text that inet_ntop6 prints for an address, said of the bytes and of the text. */
module Inet6Canon {
  import opened Basics
  import opened Fields
  import opened Inet4
  import opened Inet6
  import opened Inet6Text

  // ---- what is asked of the text ----

  predicate AllZero(a: seq<byte>, i: nat, j: nat)
    requires i <= j <= |a|
  {
    forall k | i <= k < j :: a[k] == 0
  }

  /** From the `b`-th on, `l` pairs of bytes are zero. */
  predicate ZeroPairs(a: seq<byte>, b: nat, l: nat)
    requires |a| == 16
  {
    b + l <= 8 && AllZero(a, 2 * b, 2 * (b + l))
  }

  /** The address holds an IPv4 address: twelve zero bytes and two that are not both zero, or
      ten zero bytes and two of all ones. */
  predicate HoldsIpv4(a: seq<byte>)
    requires |a| == 16
  {
    || (AllZero(a, 0, 12) && !AllZero(a, 12, 14))
    || (AllZero(a, 0, 10) && a[10] == 255 && a[11] == 255)
  }

  /** These pairs of zero bytes are the longest run, of several the first. */
  ghost predicate LongestRun(a: seq<byte>, b: nat, l: nat)
    requires |a| == 16
  {
    && ZeroPairs(a, b, l)
    && forall b': nat, l': nat | ZeroPairs(a, b', l') :: l' < l || (l' == l && b <= b')
  }

  ghost predicate NoRun(a: seq<byte>)
    requires |a| == 16
  {
    forall b: nat, l: nat | ZeroPairs(a, b, l) :: l < 2
  }

  lemma Beats(a: seq<byte>, b: nat, l: nat, b': nat, l': nat)
    requires |a| == 16
    ensures LongestRun(a, b, l) && ZeroPairs(a, b', l') ==> l' < l || (l' == l && b <= b')
    ensures NoRun(a) && ZeroPairs(a, b', l') ==> l' < 2
  {
    hide ZeroPairs;
  }

  /** The double colon stands for that run if it has at least two pairs; otherwise there is none. */
  ghost predicate Elides(a: seq<byte>, p: Parts)
    requires |a| == 16 && WellFormed(p)
  {
    if p.Double? then
      var l := 8 - |p.head| - |After(p)| / 2;
      |After(p)| % 2 == 0 && l >= 2 && LongestRun(a, |p.head|, l)
    else NoRun(a)
  }

  predicate AllLean(gs: seq<string>) {
    forall i | 0 <= i < |gs| :: Lean(gs[i], 16)
  }

  /** The last piece: a dotted quad just for an IPv4 address, and empty just after a double
      colon at the end. */
  predicate LastFits(a: seq<byte>, p: Parts)
    requires |a| == 16
  {
    if HoldsIpv4(a) then LeanQuad(p.last)
    else if p.last == "" then p.Double? && p.groups == []
    else Lean(p.last, 16)
  }

  ghost predicate CanonicalParts(a: seq<byte>, p: Parts)
    requires |a| == 16
  {
    && WellFormed(p) && Meaning(p) == Some(a) && Elides(a, p)
    && AllLean(p.groups) && (p.Double? ==> AllLean(p.head)) && LastFits(a, p)
  }

  ghost predicate Canonical(a: seq<byte>, s: string)
    requires |a| == 16
  {
    exists p :: CanonicalParts(a, p) && Text(p) == s
  }

  lemma RunHas(a: seq<byte>, b: nat, l: nat, k: nat)
    requires |a| == 16 && k < 8
    ensures ZeroPairs(a, b, l) && b <= k < b + l ==> a[2 * k] == 0 && AllZero(a, 2 * k, 2 * k + 2)
  {
  }

  // ---- there is only one ----

  lemma {:induction false} OneGroup(f: string, g: string)
    requires IsGroup(f) && IsGroup(g) && Lean(f, 16) && Lean(g, 16)
    requires WordBytes(Value(f, 16)) == WordBytes(Value(g, 16))
    ensures f == g
  {
    var x, y := Value(f, 16), Value(g, 16);
    assert WordBytes(x)[0] == WordBytes(y)[0] && WordBytes(x)[1] == WordBytes(y)[1];
    assert x == y;
    NumeralIff(f, x, 16);
    NumeralIff(g, x, 16);
  }

  lemma {:induction false} OneGroups(fs: seq<string>, gs: seq<string>)
    requires AllGroups(fs) && AllGroups(gs) && AllLean(fs) && AllLean(gs) && |fs| == |gs|
    requires GroupBytes(fs) == GroupBytes(gs)
    ensures fs == gs
  {
    if fs != [] {
      var v, w := WordBytes(Value(fs[0], 16)), WordBytes(Value(gs[0], 16));
      assert GroupBytes(fs)[..2] == v && GroupBytes(gs)[..2] == w;
      assert GroupBytes(fs)[2..] == GroupBytes(fs[1..]) && GroupBytes(gs)[2..] == GroupBytes(gs[1..]);
      hide IsGroup, Lean, WordBytes, Value, GroupBytes;
      OneGroup(fs[0], gs[0]);
      OneGroups(fs[1..], gs[1..]);
      assert fs == [fs[0]] + fs[1..] && gs == [gs[0]] + gs[1..];
    }
  }

  lemma {:induction false} LastOfQuad(q: string)
    requires Quad(q).Some?
    ensures Last(q) == Quad(q)
  {
    if q == "" {
      SplitWhole(q, '.');
    } else if IsGroup(q) {
      assert '.' !in q by { assert Digit('.') == 16; }
      SplitWhole(q, '.');
    }
  }

  lemma {:induction false} LeanQuadLast(f: string)
    requires Last(f).Some? && LeanQuad(f)
    ensures Last(f) == Quad(f) && |Last(f).value| == 4
  {
    if '.' !in f {
      SplitWhole(f, '.');
    } else {
      assert Digit('.') == 16;
    }
  }

  /** The lengths of its parts follow from the address. */
  lemma {:induction false} SameShape(a: seq<byte>, p: Parts, q: Parts)
    requires |a| == 16 && CanonicalParts(a, p) && CanonicalParts(a, q)
    ensures p.Double? == q.Double? && |After(p)| == |After(q)| && (p.Double? ==> |p.head| == |q.head|)
  {
    hide HoldsIpv4, LastFits, AllLean, After, ZeroPairs, NoRun;
    var l, l' := |After(p)| / 2, |After(q)| / 2;
    if p.Double? && q.Double? {
      var b, b' := |p.head|, |q.head|;
      Beats(a, b, 8 - b - l, b', 8 - b' - l');
      Beats(a, b', 8 - b' - l', b, 8 - b - l);
    } else if p.Double? {
      Beats(a, 0, 0, |p.head|, 8 - |p.head| - l);
      assert false;
    } else if q.Double? {
      Beats(a, 0, 0, |q.head|, 8 - |q.head| - l');
      assert false;
    }
    if p.Plain? {
      PlainSize(p);
      PlainSize(q);
    }
  }

  lemma PlainSize(p: Parts)
    requires WellFormed(p) && p.Plain? && Meaning(p).Some?
    ensures |After(p)| == 16
  {
  }

  lemma {:induction false} SameGroups(a: seq<byte>, p: Parts, q: Parts)
    requires |a| == 16 && CanonicalParts(a, p) && CanonicalParts(a, q) && |After(p)| == |After(q)|
    ensures |p.groups| == |q.groups| && (p.last == "" <==> q.last == "")
  {
    hide Elides, Meaning, HoldsIpv4, AllLean, LeanQuad, Lean, Quad;
    if HoldsIpv4(a) {
      LeanQuadLast(p.last);
      LeanQuadLast(q.last);
      LeanNotEmpty(p.last);
      LeanNotEmpty(q.last);
    } else {
      LeanLast(p.last);
      LeanLast(q.last);
    }
  }

  lemma {:induction false} LeanNotEmpty(f: string)
    requires LeanQuad(f)
    ensures f != ""
  {
    if f == "" {
      SplitWhole(f, '.');
      assert false;
    }
  }

  lemma {:induction false} LeanLast(f: string)
    requires Last(f).Some? && (f == "" || Lean(f, 16))
    ensures |Last(f).value| == if f == "" then 0 else 2
    ensures f != "" ==> IsGroup(f)
  {
    if f != "" {
      LeanNoDot(f);
      SplitWhole(f, '.');
      hide Lean, IsGroup, Split;
    }
  }

  lemma {:induction false} SameBytes(a: seq<byte>, p: Parts)
    requires |a| == 16 && CanonicalParts(a, p)
    ensures var n, m := |Before(p)|, |After(p)|; n + m <= 16 && Before(p) == a[..n] && After(p) == a[16 - m..]
  {
    BeforeSize(p);
    if p.Double? {
      LongestFits(a, |p.head|, 8 - |p.head| - |After(p)| / 2);
    }
    hide HoldsIpv4, LastFits, AllLean, After, Before, LongestRun, NoRun;
    if p.Double? {
      assert Size(p) < 16;
    }
  }

  lemma LongestFits(a: seq<byte>, b: nat, l: nat)
    requires |a| == 16 && LongestRun(a, b, l)
    ensures b + l <= 8
  {
  }

  lemma BeforeSize(p: Parts)
    requires WellFormed(p)
    ensures |Before(p)| == if p.Double? then 2 * |p.head| else 0
  {
  }

  lemma {:induction false} SameLast(a: seq<byte>, f: string, g: string)
    requires |a| == 16 && Last(f).Some? && Last(f) == Last(g) && (f == "" <==> g == "")
    requires if HoldsIpv4(a) then LeanQuad(f) && LeanQuad(g) else f == "" || (Lean(f, 16) && Lean(g, 16))
    ensures f == g
  {
    hide HoldsIpv4;
    if HoldsIpv4(a) {
      LeanQuadLast(f);
      LeanQuadLast(g);
      var b := Last(f).value;
      hide Last, LeanQuad, Quad;
      QuadTextIff(f, b);
      QuadTextIff(g, b);
    } else if f != "" {
      LeanLast(f);
      LeanLast(g);
      hide IsGroup, Lean, WordBytes, Value, Quad;
      OneGroup(f, g);
    }
  }

  /** An address has at most one canonical text. */
  lemma {:induction false} OneCanonical(a: seq<byte>, p: Parts, q: Parts)
    requires |a| == 16 && CanonicalParts(a, p) && CanonicalParts(a, q)
    ensures p == q
  {
    SameShape(a, p, q);
    SameGroups(a, p, q);
    SameBytes(a, p);
    SameBytes(a, q);
    BeforeSize(p);
    BeforeSize(q);
    assert After(p) == After(q) && Before(p) == Before(q);
    assert LastFits(a, p) && LastFits(a, q) && WellFormed(p) && WellFormed(q);
    AfterParts(p, q);
    hide Elides, Meaning, HoldsIpv4, Lean, LeanQuad, Last, IsGroup, After, GroupBytes;
    if p.Double? {
      OneGroups(p.head, q.head);
    }
    OneGroups(p.groups, q.groups);
    SameLast(a, p.last, q.last);
  }

  lemma {:induction false} AfterParts(p: Parts, q: Parts)
    requires WellFormed(p) && WellFormed(q) && After(p) == After(q) && |p.groups| == |q.groups|
    ensures GroupBytes(p.groups) == GroupBytes(q.groups) && Last(p.last) == Last(q.last)
  {
    hide Last, GroupBytes;
    var n := 2 * |p.groups|;
    assert GroupBytes(p.groups) == After(p)[..n] && GroupBytes(q.groups) == After(q)[..n];
    assert Last(p.last).value == After(p)[n..] && Last(q.last).value == After(q)[n..];
  }

  lemma {:induction false} CanonicalUnique(a: seq<byte>, s: string, s': string)
    requires |a| == 16 && Canonical(a, s) && Canonical(a, s')
    ensures s == s'
  {
    var p :| CanonicalParts(a, p) && Text(p) == s;
    var q :| CanonicalParts(a, q) && Text(q) == s';
    OneCanonical(a, p, q);
  }

  // ---- what follows for the text ----

  /** The text has a dot just for an IPv4 address, and then ends in its dotted quad. */
  predicate Dotted4(a: seq<byte>, s: string)
    requires |a| == 16
  {
    ('.' in s <==> HoldsIpv4(a)) && (HoldsIpv4(a) ==> EndsIn(s, ":" + QuadText(a[12..])))
  }

  lemma {:induction false} DotIff(a: seq<byte>, s: string)
    requires |a| == 16 && Canonical(a, s)
    ensures Dotted4(a, s)
  {
    var p :| CanonicalParts(a, p) && Text(p) == s;
    CanonicalFormed(a, p);
    hide *;
    if HoldsIpv4(a) {
      QuadLast(a, p);
      var x := QuadEnds(a, p);
      QuadHasDot(a[12..]);
      Ending(x, QuadText(a[12..]));
    } else {
      NoDot(a, p);
    }
    Dotted4Is(a, s);
  }

  lemma Dotted4Is(a: seq<byte>, s: string)
    requires |a| == 16
    ensures Dotted4(a, s) <==>
            ('.' in s <==> HoldsIpv4(a)) && (HoldsIpv4(a) ==> EndsIn(s, ":" + QuadText(a[12..])))
  {
    hide HoldsIpv4, QuadText, EndsIn;
  }

  lemma CanonicalFormed(a: seq<byte>, p: Parts)
    requires |a| == 16 && CanonicalParts(a, p)
    ensures WellFormed(p)
  {
  }

  lemma Ending(x: string, q: string)
    requires '.' in q
    ensures var s := x + ":" + q; '.' in s && EndsIn(s, ":" + q)
  {
  }

  lemma {:induction false} QuadLast(a: seq<byte>, p: Parts)
    requires |a| == 16 && CanonicalParts(a, p) && HoldsIpv4(a)
    ensures p.last == QuadText(a[12..]) && p.Double?
  {
    SameBytes(a, p);
    LeanQuadLast(p.last);
    assert ZeroPairs(a, 0, 5);
    Beats(a, 0, 0, 0, 5);
    AfterEnds(p);
    hide HoldsIpv4, Elides, Quad, LeanQuad, QuadText, After;
    assert Last(p.last).value == a[12..];
    QuadTextIff(p.last, a[12..]);
  }

  lemma {:induction false} AfterEnds(p: Parts)
    requires WellFormed(p)
    ensures var m, l := |After(p)|, Last(p.last).value; m >= |l| && After(p)[m - |l|..] == l
  {
    hide Last, GroupBytes;
  }

  lemma {:induction false} QuadEnds(a: seq<byte>, p: Parts) returns (x: string)
    requires |a| == 16 && WellFormed(p) && p.Double? && p.last == QuadText(a[12..])
    ensures Text(p) == x + ":" + QuadText(a[12..])
  {
    hide *;
    TextEnds(p);
    var q := p.last;
    if p.groups == [] {
      x := LeadEnds(p);
      JoinOne(q);
      assert [] + [q] == [q];
    } else {
      JoinAppend(p.groups, [q], ':');
      JoinOne(q);
      x := Lead(p) + Join(p.groups, ':');
      Regroup(Lead(p), Join(p.groups, ':'), q);
    }
  }

  lemma JoinOne(q: string)
    ensures Join([q], ':') == q
  {
  }

  lemma Regroup(x: string, y: string, q: string)
    ensures x + (y + [':'] + q) == x + y + ":" + q
  {
  }

  lemma {:induction false} LeadEnds(p: Parts) returns (x: string)
    requires p.Double?
    ensures Lead(p) == x + ":"
  {
    hide Join;
    x := if p.head == [] then ":" else Join(p.head, ':') + ":";
  }

  lemma {:induction false} QuadHasDot(a: seq<byte>)
    requires |a| == 4
    ensures '.' in QuadText(a)
  {
    var fs := QuadFields(a);
    JoinFour(fs[0], fs[1], fs[2], fs[3]);
    var s := QuadText(a);
    assert s[|fs[0]|] == '.';
  }

  lemma {:induction false} LeanNoDot(f: string)
    requires Lean(f, 16)
    ensures '.' !in f
  {
    assert "0123456789abcdef"[..16] == "0123456789abcdef";
    assert '.' !in "0123456789abcdef";
  }

  lemma {:induction false} NoDot(a: seq<byte>, p: Parts)
    requires |a| == 16 && CanonicalParts(a, p) && !HoldsIpv4(a)
    ensures '.' !in Text(p)
  {
    var after := p.groups + [p.last];
    LeansNoDot(p.groups);
    if p.last != "" {
      LeanNoDot(p.last);
    }
    hide Elides, Meaning, HoldsIpv4, Lean, WellFormed;
    JoinAvoids(after, ':', '.');
    if p.Double? && p.head != [] {
      LeansNoDot(p.head);
      JoinAvoids(p.head, ':', '.');
    }
  }

  lemma {:induction false} LeansNoDot(gs: seq<string>)
    requires AllLean(gs)
    ensures forall f | f in gs :: '.' !in f
  {
    hide Lean;
    forall f | f in gs ensures '.' !in f {
      var i :| 0 <= i < |gs| && gs[i] == f;
      LeanNoDot(gs[i]);
    }
  }

  // ---- an example ----

  lemma {:induction false} MappedCanonical(a: seq<byte>)
    requires a == [0, 0, 0, 0, 0, 0, 0, 0, 0, 0, 255, 255, 1, 2, 3, 4]
    ensures Canonical(a, "::ffff:1.2.3.4")
  {
    assert AllZero(a, 0, 10) && a[10] == 255 && a[11] == 255 && a[12..] == [1, 2, 3, 4];
    var p := Double([], ["ffff"], "1.2.3.4");
    MappedText(p);
    hide *;
    MappedParts(a, p);
    CanonicalText(a, p);
  }

  lemma CanonicalText(a: seq<byte>, p: Parts)
    requires |a| == 16 && CanonicalParts(a, p)
    ensures Canonical(a, Text(p))
  {
  }

  lemma {:induction false} MappedParts(a: seq<byte>, p: Parts)
    requires |a| == 16 && AllZero(a, 0, 10) && a[10] == 255 && a[11] == 255 && a[12..] == [1, 2, 3, 4]
    requires p == Double([], ["ffff"], "1.2.3.4")
    ensures CanonicalParts(a, p)
  {
    assert HoldsIpv4(a);
    assert AllLean([]);
    hide *;
    FfffIs();
    OneToFour();
    QuadTextIff(p.last, a[12..]);
    LastOfQuad(p.last);
    MappedBytes(a, p);
    MappedElides(a, p);
    OneLean("ffff");
    QuadFits(a, p);
    CanonicalIntro(a, p);
  }

  lemma CanonicalIntro(a: seq<byte>, p: Parts)
    requires |a| == 16 && WellFormed(p) && Meaning(p) == Some(a) && Elides(a, p)
    requires AllLean(p.groups) && (p.Double? ==> AllLean(p.head)) && LastFits(a, p)
    ensures CanonicalParts(a, p)
  {
  }

  lemma OneLean(g: string)
    requires Lean(g, 16)
    ensures AllLean([g])
  {
  }

  lemma QuadFits(a: seq<byte>, p: Parts)
    requires |a| == 16 && HoldsIpv4(a) && LeanQuad(p.last)
    ensures LastFits(a, p)
  {
  }

  lemma {:induction false} FfffIs()
    ensures IsGroup("ffff") && Lean("ffff", 16) && Value("ffff", 16) == 0xffff
  {
    FfffLean();
    ValueEmpty(16);
    ValueStep("", 'f', 16);
    ValueStep("f", 'f', 16);
    ValueStep("ff", 'f', 16);
    ValueStep("fff", 'f', 16);
    hide Value, Lean;
    assert "" + ['f'] == "f" && "f" + ['f'] == "ff" && "ff" + ['f'] == "fff" && "fff" + ['f'] == "ffff";
    assert Digit('f') == 15;
  }

  lemma {:induction false} FfffLean()
    ensures Lean("ffff", 16)
  {
    assert "0123456789abcdef"[..16][15] == 'f';
  }

  lemma {:induction false} MappedText(p: Parts)
    requires p == Double([], ["ffff"], "1.2.3.4")
    ensures Text(p) == "::ffff:1.2.3.4"
  {
    assert ["ffff"] + ["1.2.3.4"] == ["ffff", "1.2.3.4"];
    JoinAppend(["ffff"], ["1.2.3.4"], ':');
    assert Join(["ffff"], ':') == "ffff" && Join(["1.2.3.4"], ':') == "1.2.3.4";
    assert "ffff" + ":" + "1.2.3.4" == "ffff:1.2.3.4";
  }

  lemma {:induction false} MappedBytes(a: seq<byte>, p: Parts)
    requires |a| == 16 && AllZero(a, 0, 10) && a[10] == 255 && a[11] == 255
    requires p.Double? && p.head == [] && p.groups == ["ffff"] && Last(p.last) == Some(a[12..])
    requires IsGroup("ffff") && Value("ffff", 16) == 0xffff
    ensures WellFormed(p) && After(p) == a[10..] && Meaning(p) == Some(a)
  {
    hide Last, IsGroup, Value;
    GroupBytesCons("ffff", []);
    assert ["ffff"] + [] == p.groups;
    assert GroupBytes(p.groups) == [255, 255];
    assert [255, 255] + a[12..] == a[10..];
    assert After(p) == a[10..];
    assert Before(p) == [] && Size(p) == 6;
    assert [] + Zeros(10) + a[10..] == a;
  }

  lemma {:induction false} MappedElides(a: seq<byte>, p: Parts)
    requires |a| == 16 && AllZero(a, 0, 10) && a[10] == 255
    requires WellFormed(p) && p.Double? && p.head == [] && |After(p)| == 6
    ensures Elides(a, p)
  {
    hide WellFormed, After;
    assert ZeroPairs(a, 0, 5);
    forall b: nat, l: nat | ZeroPairs(a, b, l) ensures l <= 5 {
      RunHas(a, b, l, 5);
    }
  }
}
