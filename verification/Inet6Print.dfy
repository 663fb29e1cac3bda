/** Printing IPv6 addresses: inet_ntop6, and its agreement with the parser. */
module Inet6Print {
  import opened Basics
  import opened Fields
  import opened Inet4
  import opened Inet6
  import opened Inet6Canon
  import Inet6Text

  // ---- words and runs of zeros ----

  type word = w: int | 0 <= w <= 0xffff

  function Words(a: seq<byte>): (w: seq<word>)
    requires |a| == 16
    ensures |w| == 8
  {
    seq(8, i requires 0 <= i < 8 => Word(a[2 * i], a[2 * i + 1]))
  }

  function Word(hi: int, lo: int): (w: word)
    requires 0 <= hi < 256 && 0 <= lo < 256
    ensures WordBytes(w) == [hi, lo]
  {
    hi * 256 + lo
  }

  /** Copy the bytes into words; the bits are disjoint, so "or" adds. */
  method ToWords(src: seq<byte>) returns (words: array<word>)
    requires |src| == 16
    ensures fresh(words) && words[..] == Words(src)
  {
    hide WordBytes, Words;
    words := new word[8](_ => 0);
    for i := 0 to 16
      invariant forall k | 0 <= k < 8 :: words[k] == WordBefore(src, k, i)
    {
      var b: int := src[i];
      words[i / 2] := words[i / 2] + if i % 2 == 0 then b * 256 else b;
    }
    WordsBefore(src, words[..]);
  }

  /** Word `k` when the first `i` bytes have been copied. */
  function WordBefore(src: seq<byte>, k: nat, i: nat): word
    requires |src| == 16 && k < 8
  {
    if 2 * k + 1 < i then Word(src[2 * k], src[2 * k + 1]) else if 2 * k < i then Word(src[2 * k], 0) else 0
  }

  lemma WordsBefore(src: seq<byte>, words: seq<word>)
    requires |src| == 16 && |words| == 8 && forall k | 0 <= k < 8 :: words[k] == WordBefore(src, k, 16)
    ensures words == Words(src)
  {
  }

  datatype Run = Run(base: nat, len: nat)

  ghost predicate ZeroRun(w: seq<word>, b: nat, l: nat) {
    b + l <= |w| && forall k | b <= k < b + l :: w[k] == 0
  }

  /** No run of zeros is longer, and none as long starts further left; single zeros do not count. */
  ghost predicate LeftmostLongest(w: seq<word>, r: Option<Run>) {
    match r
    case None => forall b: nat, l: nat | ZeroRun(w, b, l) :: l < 2
    case Some(run) =>
      && run.len >= 2 && ZeroRun(w, run.base, run.len)
      && forall b: nat, l: nat | ZeroRun(w, b, l) :: l < run.len || (l == run.len && run.base <= b)
  }

  /** `best` is the leftmost longest among the runs that end by `end`. */
  ghost predicate BestBefore(w: seq<word>, end: nat, best: Option<Run>) {
    match best
    case None => forall b: nat, l: nat | ZeroRun(w, b, l) && b + l <= end :: l == 0
    case Some(run) =>
      && run.len >= 1 && ZeroRun(w, run.base, run.len) && run.base + run.len <= end
      && forall b: nat, l: nat | ZeroRun(w, b, l) && b + l <= end :: l < run.len || (l == run.len && run.base <= b)
  }

  function Better(best: Option<Run>, cur: Run): Option<Run> {
    if best.None? || cur.len > best.value.len then Some(cur) else best
  }

  lemma {:induction false} CloseRun(w: seq<word>, i: nat, best: Option<Run>, cur: Run)
    requires BestBefore(w, cur.base, best) && cur.len >= 1 && cur.base + cur.len == i <= |w|
    requires ZeroRun(w, cur.base, cur.len) && (cur.base > 0 ==> w[cur.base - 1] != 0)
    ensures BestBefore(w, i, Better(best, cur))
  {
    forall b: nat, l: nat | ZeroRun(w, b, l) && b + l <= i && l > 0
      ensures b >= cur.base || b + l <= cur.base
    {
      assert cur.base > 0 ==> w[cur.base - 1] != 0;
    }
  }

  method FindRun(words: seq<word>) returns (r: Option<Run>)
    ensures LeftmostLongest(words, r)
  {
    var best, cur: Option<Run> := None, None;
    for i := 0 to |words|
      invariant BestBefore(words, if cur.None? then i else cur.value.base, best)
      invariant cur.Some? ==>
                  && cur.value.len >= 1 && cur.value.base + cur.value.len == i
                  && ZeroRun(words, cur.value.base, cur.value.len)
                  && (cur.value.base > 0 ==> words[cur.value.base - 1] != 0)
      invariant cur.None? && i > 0 ==> words[i - 1] != 0
    {
      if words[i] == 0 {
        if cur.None? {
          cur := Some(Run(i, 1));
        } else {
          cur := Some(cur.value.(len := cur.value.len + 1));
        }
      } else {
        if cur.Some? {
          CloseRun(words, i, best, cur.value);
          best := Better(best, cur.value);
          cur := None;
        }
        NoRunEndsAt(words, i, best);
      }
    }
    if cur.Some? {
      CloseRun(words, |words|, best, cur.value);
      best := Better(best, cur.value);
    }
    if best.Some? && best.value.len < 2 {
      best := None;
    }
    return best;
  }

  lemma {:induction false} NoRunEndsAt(w: seq<word>, i: nat, best: Option<Run>)
    requires i < |w| && w[i] != 0 && BestBefore(w, i, best)
    ensures BestBefore(w, i + 1, best)
  {
    forall b: nat, l: nat | ZeroRun(w, b, l) && b + l <= i + 1 && l > 0
      ensures b + l <= i
    {
      assert w[i] != 0;
    }
  }

  // ---- the text ----

  function Hexes(w: seq<word>): (hs: seq<string>)
    ensures |hs| == |w|
  {
    seq(|w|, i requires 0 <= i < |w| => Numeral(w[i], 16))
  }

  /** An address that embeds an IPv4 address: ::a.b.c.d or ::ffff:a.b.c.d. */
  predicate Embedded(w: seq<word>, run: Run)
    requires |w| == 8
  {
    run.base == 0 && (run.len == 6 || (run.len == 5 && w[5] == 0xffff))
  }

  function AfterRun(a: seq<byte>, run: Run): (fs: seq<string>)
    requires |a| == 16 && run.base + run.len <= 8
    ensures |fs| > 0
  {
    var hs := Hexes(Words(a));
    if run.base + run.len == 8 then [""]
    else if Embedded(Words(a), run) then hs[run.len..6] + [QuadText(a[12..])]
    else hs[run.base + run.len..]
  }

  /** The colon-separated fields of the text; the empty ones make up the double colon. */
  function PrintFields(a: seq<byte>, run: Option<Run>): (fs: seq<string>)
    requires |a| == 16 && (run.Some? ==> run.value.base + run.value.len <= 8)
    ensures |fs| > 0
  {
    match run
    case None => Hexes(Words(a))
    case Some(r) =>
      (if r.base == 0 then [""] else Hexes(Words(a))[..r.base]) + [""] + AfterRun(a, r)
  }

  function Text(a: seq<byte>, run: Option<Run>): string
    requires |a| == 16 && (run.Some? ==> run.value.base + run.value.len <= 8)
  {
    Join(PrintFields(a, run), ':')
  }

  // ---- parsing gives the address back ----

  lemma {:induction false} HexGroup(w: word)
    ensures IsGroup(Numeral(w, 16)) && Value(Numeral(w, 16), 16) == w
    ensures ':' !in Numeral(w, 16) && |Numeral(w, 16)| <= 4
  {
    NumeralValue(w, 16);
    NumeralLength(w);
    NoDotInNumeral(w, 16);
  }

  lemma {:induction false} HexGroups(w: seq<word>)
    ensures AllGroups(Hexes(w))
    ensures forall i | 0 <= i < |w| :: ':' !in Hexes(w)[i] && |Hexes(w)[i]| <= 4 && Value(Hexes(w)[i], 16) == w[i]
  {
    forall i | 0 <= i < |w|
      ensures var h := Hexes(w)[i]; IsGroup(h) && ':' !in h && |h| <= 4 && Value(h, 16) == w[i]
    {
      HexGroup(w[i]);
    }
  }

  /** The printed words from `i` up to `j` stand for the bytes they came from. */
  lemma {:induction false} HexBytes(a: seq<byte>, i: nat, j: nat)
    requires |a| == 16 && i <= j <= 8
    ensures AllGroups(Hexes(Words(a))[i..j]) && GroupBytes(Hexes(Words(a))[i..j]) == a[2 * i..2 * j]
    decreases j - i
  {
    hide InBase, Value, Hexes;
    var hs := Hexes(Words(a));
    HexGroups(Words(a));
    if i < j {
      hide GroupBytes, IsGroup, WordBytes, Words;
      HexBytes(a, i + 1, j);
      assert hs[i..j] == [hs[i]] + hs[i + 1..j];
      GroupBytesCons(hs[i], hs[i + 1..j]);
      TwoBytes(a, i, j);
    }
  }

  lemma TwoBytes(a: seq<byte>, i: nat, j: nat)
    requires |a| == 16 && i < j <= 8
    ensures a[2 * i..2 * j] == WordBytes(Words(a)[i]) + a[2 * (i + 1)..2 * j]
  {
  }

  /** Words `i` up to the end, the last of them as last field. */
  lemma {:induction false} WalkWords(a: seq<byte>, i: nat, sc: Scan)
    requires |a| == 16 && i < 8 && ScanOk(sc) && |sc.bytes| + 2 * (8 - i) <= 16
    ensures Walk(Hexes(Words(a))[i..], sc) == Some(sc.(bytes := sc.bytes + a[2 * i..]))
  {
    hide InBase, Value, Quad, Hexes, Words;
    HexBytes(a, i, 8);
    WalkAllGroups(Hexes(Words(a))[i..8], sc);
    assert Hexes(Words(a))[i..8] == Hexes(Words(a))[i..] && a[2 * i..16] == a[2 * i..];
  }

  lemma {:induction false} WalkEmbedded(a: seq<byte>, i: nat, sc: Scan)
    requires |a| == 16 && i <= 6 && ScanOk(sc) && |sc.bytes| + 2 * (8 - i) <= 16
    ensures Walk(Hexes(Words(a))[i..6] + [QuadText(a[12..])], sc) == Some(sc.(bytes := sc.bytes + a[2 * i..]))
  {
    hide InBase, Value, Quad, Hexes, Words, QuadText;
    var hs, q := Hexes(Words(a)), QuadText(a[12..]);
    HexBytes(a, i, 6);
    WalkGroups(hs[i..6], [q], sc);
    QuadRoundTrip(a[12..]);
    LastOfQuad(q);
    assert sc.bytes + a[2 * i..12] + a[12..] == sc.bytes + a[2 * i..];
  }

  lemma {:induction false} WalkAfter(a: seq<byte>, run: Run, sc: Scan)
    requires |a| == 16 && run.base + run.len <= 8 && ScanOk(sc) && |sc.bytes| + 2 * (8 - run.base - run.len) <= 16
    ensures Walk(AfterRun(a, run), sc) == Some(sc.(bytes := sc.bytes + a[2 * (run.base + run.len)..]))
  {
    hide InBase, Value, Quad, Hexes, Words, QuadText;
    if run.base + run.len == 8 {
      assert sc.bytes + a[16..] == sc.bytes && sc.bytes + [] == sc.bytes;
    } else if Embedded(Words(a), run) {
      WalkEmbedded(a, run.len, sc);
    } else {
      WalkWords(a, run.base + run.len, sc);
    }
  }

  lemma {:induction false} RunIsZero(a: seq<byte>, run: Run)
    requires |a| == 16 && ZeroRun(Words(a), run.base, run.len)
    ensures a == a[..2 * run.base] + Zeros(2 * run.len) + a[2 * (run.base + run.len)..]
  {
    hide Words;
    var b, e := 2 * run.base, 2 * (run.base + run.len);
    forall x | b <= x < e ensures a[x] == 0 {
      ZeroWord(a, x / 2);
      assert x == 2 * (x / 2) || x == 2 * (x / 2) + 1;
    }
    assert a[b..e] == Zeros(e - b);
    assert a == a[..b] + a[b..e] + a[e..];
  }

  lemma {:induction false} ZeroWord(a: seq<byte>, k: nat)
    requires |a| == 16 && k < 8 && Words(a)[k] == 0
    ensures a[2 * k] == 0 && a[2 * k + 1] == 0
  {
    hide Words, WordBytes;
    WordAt(a, k);
    ZeroBytes(a[2 * k], a[2 * k + 1]);
  }

  lemma {:induction false} WordAt(a: seq<byte>, k: nat)
    requires |a| == 16 && k < 8
    ensures Words(a)[k] == Word(a[2 * k], a[2 * k + 1])
  {
    hide Word, WordBytes;
  }

  lemma {:induction false} ZeroBytes(hi: int, lo: int)
    requires 0 <= hi < 256 && 0 <= lo < 256 && Word(hi, lo) == 0
    ensures hi == 0 && lo == 0
  {
    hide WordBytes;
  }

  /** The fields after a run that starts the address ... */
  lemma {:induction false} BodyOfLeading(a: seq<byte>, run: Run)
    requires |a| == 16 && ZeroRun(Words(a), 0, run.len) && run.base == 0 && run.len > 0
    ensures var w := Walk([""] + AfterRun(a, run), START); w.Some? && Expand(w.value) == Some(a)
  {
    hide InBase, Value, Quad, Hexes, Words, AfterRun;
    var fs := [""] + AfterRun(a, run);
    assert fs[1..] == AfterRun(a, run);
    WalkAfter(a, run, Scan([], Some(0)));
    RunIsZero(a, run);
    assert [] + a[2 * run.len..] == a[2 * run.len..];
  }

  /** ... and all the fields of one that does not. */
  lemma {:induction false} BodyOfInner(a: seq<byte>, run: Run)
    requires |a| == 16 && ZeroRun(Words(a), run.base, run.len) && run.base > 0 && run.len > 0
    ensures var w := Walk(PrintFields(a, Some(run)), START); w.Some? && Expand(w.value) == Some(a)
  {
    hide Walk, GroupBytes, Hexes, Words, AfterRun;
    var head, tail := Hexes(Words(a))[..run.base], AfterRun(a, run);
    HexBytes(a, 0, run.base);
    assert head == Hexes(Words(a))[0..run.base];
    assert [] + a[0..2 * run.base] == a[..2 * run.base];
    WalkAcross(head, tail);
    assert head + [""] + tail == PrintFields(a, Some(run));
    WalkAfter(a, run, Scan(a[..2 * run.base], Some(2 * run.base)));
    RunIsZero(a, run);
    Halves(a[..2 * run.base], a[2 * (run.base + run.len)..]);
  }

  predicate Colonless(fs: seq<string>) {
    forall i | 0 <= i < |fs| :: ':' !in fs[i]
  }

  lemma ColonlessParts(xs: seq<string>, ys: seq<string>)
    ensures Colonless(xs) && Colonless(ys) ==> Colonless(xs + ys)
  {
  }

  lemma {:induction false} AfterColonless(a: seq<byte>, run: Run)
    requires |a| == 16 && run.base + run.len <= 8 && Colonless(Hexes(Words(a)))
    ensures Colonless(AfterRun(a, run))
  {
    QuadTextFits(a[12..]);
    hide Hexes, Words, QuadText;
  }

  lemma {:induction false} FieldsHaveNoColon(a: seq<byte>, run: Option<Run>)
    requires |a| == 16 && (run.Some? ==> run.value.base + run.value.len <= 8)
    ensures forall f | f in PrintFields(a, run) :: ':' !in f
    ensures run.None? || run.value.base > 0 ==> PrintFields(a, run)[0] != ""
  {
    var hs := Hexes(Words(a));
    HexGroups(Words(a));
    GroupsHaveNoColon(hs);
    assert Colonless(hs);
    hide Words, Hexes, IsGroup;
    if run.Some? {
      AfterColonless(a, run.value);
      var before := if run.value.base == 0 then [""] else hs[..run.value.base];
      assert Colonless(before) && Colonless([""]);
      hide AfterRun;
      ColonlessParts(before, [""]);
      ColonlessParts(before + [""], AfterRun(a, run.value));
      assert Colonless(PrintFields(a, run));
    }
  }

  /** Whatever run of zeros is elided, parsing the text gives the address back. */
  lemma {:induction false} TextRoundTrip(a: seq<byte>, run: Option<Run>)
    requires |a| == 16
    requires run.Some? ==> run.value.len > 0 && ZeroRun(Words(a), run.value.base, run.value.len)
    ensures Address(Text(a, run)) == Some(a)
  {
    hide InBase, Value, Quad, Hexes, Words, AfterRun, Walk, Expand, Join, Split;
    var fs := PrintFields(a, run);
    FieldsHaveNoColon(a, run);
    SplitJoin(fs, ':');
    if run.None? {
      WalkWords(a, 0, START);
      assert Hexes(Words(a))[0..] == fs && [] + a[0..] == a;
      ExpandFull(a);
      assert fs[0] in fs && fs[0][0] in fs[0];
      FirstChar(fs);
    } else if run.value.base > 0 {
      BodyOfInner(a, run.value);
      assert fs[0] in fs && fs[0][0] in fs[0];
      FirstChar(fs);
    } else {
      var rest := [""] + AfterRun(a, run.value);
      assert fs == [""] + rest;
      JoinCons("", rest, ':');
      JoinCons("", AfterRun(a, run.value), ':');
      SplitJoin(rest, ':');
      BodyOfLeading(a, run.value);
      assert Text(a, run)[1..] == Join(rest, ':');
    }
  }

  lemma ExpandFull(a: seq<byte>)
    requires |a| == 16
    ensures Expand(Scan(a, None)) == Some(a)
  {
  }

  lemma FirstChar(fs: seq<string>)
    requires |fs| > 0 && fs[0] != ""
    ensures Join(fs, ':') != "" && Join(fs, ':')[0] == fs[0][0]
  {
  }

  // ---- the printer ----

  function Joined(fs: seq<string>): string {
    if fs == [] then "" else Join(fs, ':')
  }

  /** What the loop has written after `i` words. */
  function Emitted(hs: seq<string>, run: Option<Run>, i: nat): string
    requires i <= |hs|
  {
    match run
    case None => Joined(hs[..i])
    case Some(r) =>
      if i <= r.base then Joined(hs[..i])
      else if i <= r.base + r.len then Joined(hs[..r.base]) + ":"
      else Joined(hs[..r.base]) + "::" + Joined(hs[r.base + r.len..i])
  }

  lemma {:induction false} JoinedStep(fs: seq<string>, f: string)
    ensures Joined([]) == "" && Joined(fs + [f]) == Joined(fs) + (if fs == [] then "" else ":") + f
  {
    if fs == [] {
      assert fs + [f] == [f];
    } else {
      JoinAppend(fs, [f], ':');
    }
  }

  predicate InRun(run: Option<Run>, i: nat) {
    run.Some? && run.value.base <= i < run.value.base + run.value.len
  }

  lemma {:induction false} EmitStep(hs: seq<string>, run: Option<Run>, i: nat)
    requires i < |hs| && (run.Some? ==> run.value.len > 0 && run.value.base + run.value.len <= |hs|)
    ensures InRun(run, i) && i == run.value.base ==> Emitted(hs, run, i + 1) == Emitted(hs, run, i) + ":"
    ensures InRun(run, i) && i != run.value.base ==> Emitted(hs, run, i + 1) == Emitted(hs, run, i)
    ensures !InRun(run, i) && i == 0 ==> Emitted(hs, run, i + 1) == Emitted(hs, run, i) + hs[i]
    ensures !InRun(run, i) && i != 0 ==> Emitted(hs, run, i + 1) == Emitted(hs, run, i) + ":" + hs[i]
  {
    hide Joined;
    if run.None? || i < run.value.base {
      assert hs[..i + 1] == hs[..i] + [hs[i]];
      JoinedStep(hs[..i], hs[i]);
    } else if !InRun(run, i) {
      var e := run.value.base + run.value.len;
      assert hs[e..i + 1] == hs[e..i] + [hs[i]];
      JoinedStep(hs[e..i], hs[i]);
    }
  }

  lemma {:induction false} TextOfRun(a: seq<byte>, r: Run)
    requires |a| == 16 && r.base + r.len <= 8
    ensures Text(a, Some(r)) == Joined(Hexes(Words(a))[..r.base]) + "::" + Join(AfterRun(a, r), ':')
  {
    hide Hexes, AfterRun, Words;
    var pre := if r.base == 0 then [""] else Hexes(Words(a))[..r.base];
    JoinAppend(pre + [""], AfterRun(a, r), ':');
    JoinAppend(pre, [""], ':');
  }

  /** The loop's output is the text, once a run at the end has its second colon ... */
  lemma {:induction false} EmittedAll(a: seq<byte>, run: Option<Run>)
    requires |a| == 16
    requires run.Some? ==> run.value.len > 0 && run.value.base + run.value.len <= 8 && !Embedded(Words(a), run.value)
    ensures Text(a, run) == Emitted(Hexes(Words(a)), run, 8)
                            + if run.Some? && run.value.base + run.value.len == 8 then ":" else ""
  {
    var hs := Hexes(Words(a));
    assert hs[..8] == hs;
    if run.Some? {
      var r := run.value;
      TextOfRun(a, r);
      assert hs[r.base + r.len..8] == hs[r.base + r.len..];
    }
  }

  /** ... and, for an embedded IPv4 address, once that follows the first six words. */
  lemma {:induction false} EmittedEmbedded(a: seq<byte>, r: Run)
    requires |a| == 16 && Embedded(Words(a), r)
    ensures Text(a, Some(r)) == Emitted(Hexes(Words(a)), Some(r), 6) + ":" + QuadText(a[12..])
  {
    hide Text, Hexes, QuadText, Join;
    var hs, q := Hexes(Words(a)), QuadText(a[12..]);
    TextOfRun(a, r);
    JoinedStep(hs[r.len..6], q);
    assert Joined(hs[..0]) == "";
    if r.len == 5 {
      assert hs[5..6] != [];
    }
  }

  lemma {:induction false} AfterFits(a: seq<byte>, r: Run)
    requires |a| == 16 && r.base + r.len <= 8
    ensures |Join(AfterRun(a, r), ':')| <= if Embedded(Words(a), r) then 20 else 5 * (8 - r.base - r.len)
  {
    hide Hexes, QuadText, Words, Join;
    var hs := Hexes(Words(a));
    HexGroups(Words(a));
    if r.base + r.len == 8 {
      JoinLength([""], ':', 0);
    } else if Embedded(Words(a), r) {
      QuadTextFits(a[12..]);
      EmbeddedFits(hs[r.len..6], QuadText(a[12..]));
    } else {
      JoinLength(hs[r.base + r.len..], ':', 4);
    }
  }

  lemma {:induction false} EmbeddedFits(fs: seq<string>, q: string)
    requires |fs| <= 1 && (forall i | 0 <= i < |fs| :: |fs[i]| <= 4) && |q| <= 15
    ensures |Join(fs + [q], ':')| <= 20
  {
    if fs == [] {
      assert fs + [q] == [q];
    } else {
      JoinAppend(fs, [q], ':');
    }
  }

  /** The text for a run of at least two words, or for none, has at most 39 characters. */
  lemma {:induction false} TextFits(a: seq<byte>, run: Option<Run>)
    requires |a| == 16 && (run.Some? ==> run.value.len >= 2 && run.value.base + run.value.len <= 8)
    ensures |Text(a, run)| <= 39
  {
    if run.None? {
      HexGroups(Words(a));
      JoinLength(Hexes(Words(a)), ':', 4);
    } else {
      RunTextFits(a, run.value);
    }
  }

  lemma {:induction false} RunTextFits(a: seq<byte>, r: Run)
    requires |a| == 16 && r.len >= 2 && r.base + r.len <= 8
    ensures |Text(a, Some(r))| <= 39
  {
    hide Text, AfterRun, Hexes, Words, Join;
    TextOfRun(a, r);
    AfterFits(a, r);
    HexGroups(Words(a));
    if r.base > 0 {
      JoinLength(Hexes(Words(a))[..r.base], ':', 4);
    }
  }

  // ---- the text is the canonical one ----

  lemma {:induction false} PairsIff(a: seq<byte>, b: nat, l: nat)
    requires |a| == 16
    ensures ZeroRun(Words(a), b, l) <==> ZeroPairs(a, b, l)
  {
    hide Words;
    if ZeroRun(Words(a), b, l) {
      forall k | 2 * b <= k < 2 * (b + l) ensures a[k] == 0 {
        ZeroWord(a, k / 2);
        assert k == 2 * (k / 2) || k == 2 * (k / 2) + 1;
      }
    }
    if ZeroPairs(a, b, l) {
      forall k | b <= k < b + l ensures Words(a)[k] == 0 {
        WordAt(a, k);
        assert a[2 * k] == 0 && a[2 * k + 1] == 0;
      }
    }
  }

  /** The leftmost longest run, on the bytes. */
  lemma {:induction false} LongestPairs(a: seq<byte>, run: Option<Run>)
    requires |a| == 16 && LeftmostLongest(Words(a), run)
    ensures run.None? ==> NoRun(a)
    ensures run.Some? ==> run.value.len >= 2 && LongestRun(a, run.value.base, run.value.len)
  {
    hide Words, ZeroPairs, ZeroRun;
    forall b: nat, l: nat ensures ZeroRun(Words(a), b, l) <==> ZeroPairs(a, b, l) {
      PairsIff(a, b, l);
    }
  }

  lemma {:induction false} EmbeddedIff(a: seq<byte>, run: Option<Run>)
    requires |a| == 16 && LeftmostLongest(Words(a), run)
    ensures HoldsIpv4(a) <==> run.Some? && Embedded(Words(a), run.value)
  {
    LongestPairs(a, run);
    WordAt(a, 5);
    AllOnes(a[10], a[11]);
    var b, l := if run.Some? then run.value.base else 0, if run.Some? then run.value.len else 0;
    Beats(a, b, l, 0, 5);
    Beats(a, b, l, 0, 6);
    Beats(a, b, l, 0, 7);
    PairsIs(a, 0, 5);
    PairsIs(a, 0, 6);
    PairsIs(a, 0, 7);
    PairsIs(a, b, l);
    RunHas(a, b, l, 5);
    RunHas(a, b, l, 6);
    ZeroWithin(a, 0, 12, 0, 10);
    ZeroJoined(a, 12, 14);
    assert LongestRun(a, b, l) ==> ZeroPairs(a, b, l);
    hide Words, LeftmostLongest, ZeroPairs, AllZero, Word, LongestRun, NoRun;
  }

  lemma PairsIs(a: seq<byte>, b: nat, l: nat)
    requires |a| == 16
    ensures ZeroPairs(a, b, l) <==> b + l <= 8 && AllZero(a, 2 * b, 2 * (b + l))
  {
  }

  lemma ZeroWithin(a: seq<byte>, i: nat, j: nat, i': nat, j': nat)
    requires i <= i' <= j' <= j <= |a|
    ensures AllZero(a, i, j) ==> AllZero(a, i', j')
  {
  }

  lemma ZeroJoined(a: seq<byte>, i: nat, j: nat)
    requires i <= j <= |a|
    ensures AllZero(a, 0, i) && AllZero(a, i, j) ==> AllZero(a, 0, j)
  {
  }

  lemma AllOnes(hi: int, lo: int)
    requires 0 <= hi < 256 && 0 <= lo < 256
    ensures Word(hi, lo) == 0xffff <==> hi == 255 && lo == 255
  {
    hide WordBytes;
  }

  // ---- the pieces of the text printed ----

  function PrintParts(a: seq<byte>, run: Option<Run>): Inet6Text.Parts
    requires |a| == 16 && (run.Some? ==> run.value.base + run.value.len <= 8)
  {
    var hs := Hexes(Words(a));
    if run.None? then Inet6Text.Plain(hs[..7], hs[7])
    else
      var after := AfterRun(a, run.value);
      Inet6Text.Double(hs[..run.value.base], after[..|after| - 1], after[|after| - 1])
  }

  lemma {:induction false} PrintPartsText(a: seq<byte>, run: Option<Run>)
    requires |a| == 16 && (run.Some? ==> run.value.base + run.value.len <= 8)
    ensures Inet6Text.Text(PrintParts(a, run)) == Text(a, run)
  {
    hide Hexes, Words, AfterRun, Join;
    var hs := Hexes(Words(a));
    if run.None? {
      assert hs[..7] + [hs[7]] == hs;
    } else {
      TextOfRun(a, run.value);
      var after := AfterRun(a, run.value);
      assert after[..|after| - 1] + [after[|after| - 1]] == after;
      hide Text;
      assert "" + "::" + Join(after, ':') == "::" + Join(after, ':');
    }
  }

  lemma {:induction false} HexesLean(w: seq<word>)
    ensures AllLean(Hexes(w)) && AllGroups(Hexes(w))
  {
    HexGroups(w);
    hide Lean, Numeral, IsGroup;
    forall i | 0 <= i < |w| ensures Lean(Hexes(w)[i], 16) {
      NumeralLean(w[i], 16);
    }
  }

  /** The pieces after a run, and how many bytes they stand for. */
  lemma {:induction false} AfterPieces(a: seq<byte>, r: Run)
    requires |a| == 16 && r.base + r.len <= 8 && r.len > 0
    ensures var fs := AfterRun(a, r);
            var gs, f := fs[..|fs| - 1], fs[|fs| - 1];
            && AllGroups(gs) && AllLean(gs) && Last(f).Some?
            && 2 * |gs| + |Last(f).value| == 2 * (8 - r.base - r.len)
            && (if Embedded(Words(a), r) then LeanQuad(f) else if f == "" then gs == [] else Lean(f, 16))
  {
    var hs, fs := Hexes(Words(a)), AfterRun(a, r);
    HexesLean(Words(a));
    hide Hexes, Words, Lean, LeanQuad, QuadText, Quad;
    if r.base + r.len == 8 {
      assert !Embedded(Words(a), r);
    } else if Embedded(Words(a), r) {
      var q := QuadText(a[12..]);
      QuadTextIff(q, a[12..]);
      LastOfQuad(q);
      assert fs[..|fs| - 1] == hs[r.len..6];
    } else {
      assert fs[..|fs| - 1] == hs[r.base + r.len..7];
      assert fs[|fs| - 1] == hs[7] && IsGroup(hs[7]);
    }
  }

  /** What is printed is canonical. */
  lemma {:induction false} PrintedCanonical(a: seq<byte>, run: Option<Run>)
    requires |a| == 16 && LeftmostLongest(Words(a), run)
    ensures Canonical(a, Text(a, run))
  {
    BestIsRun(Words(a), run);
    LongestPairs(a, run);
    EmbeddedIff(a, run);
    TextRoundTrip(a, run);
    PrintPartsText(a, run);
    PrintPartsFit(a, run);
    var p := PrintParts(a, run);
    hide Text, Words, LeftmostLongest, Embedded, HoldsIpv4, PrintParts, Address, LongestRun, NoRun;
    Inet6Text.Denotes(p);
    PrintElides(a, run, p);
    assert CanonicalParts(a, p);
  }

  lemma {:induction false} PrintPartsFit(a: seq<byte>, run: Option<Run>)
    requires |a| == 16 && (run.Some? ==> run.value.len > 0 && run.value.base + run.value.len <= 8)
    requires HoldsIpv4(a) <==> run.Some? && Embedded(Words(a), run.value)
    ensures var p := PrintParts(a, run);
            && Inet6Text.WellFormed(p) && AllLean(p.groups) && (p.Double? ==> AllLean(p.head)) && LastFits(a, p)
            && p.Double? == run.Some?
            && (run.Some? ==> |p.head| == run.value.base
                              && |Inet6Text.After(p)| == 2 * (8 - run.value.base - run.value.len))
  {
    HexesLean(Words(a));
    var hs := Hexes(Words(a));
    if run.Some? {
      AfterPieces(a, run.value);
    }
    hide Hexes, Words, AfterRun, Lean, LeanQuad, Embedded, HoldsIpv4, Quad;
  }

  lemma {:induction false} PrintElides(a: seq<byte>, run: Option<Run>, p: Inet6Text.Parts)
    requires |a| == 16 && Inet6Text.WellFormed(p) && p.Double? == run.Some?
    requires run.Some? ==> |p.head| == run.value.base && run.value.len >= 2 && run.value.base + run.value.len <= 8
    requires run.Some? ==> |Inet6Text.After(p)| == 2 * (8 - run.value.base - run.value.len)
    requires run.None? ==> NoRun(a)
    requires run.Some? ==> LongestRun(a, run.value.base, run.value.len)
    ensures Elides(a, p)
  {
    hide LongestRun, NoRun, Inet6Text.After, Inet6Text.WellFormed;
  }

  method Ntop6(src: seq<byte>, size: nat) returns (r: Option<string>, ghost run: Option<Run>)
    requires |src| == 16
    ensures LeftmostLongest(Words(src), run)
    ensures r == if |Text(src, run)| + 1 > size then None else Some(Text(src, run))
    ensures r.Some? ==> Address(r.value) == Some(src)
    ensures size >= 40 ==> r.Some?
    ensures !Overruns(r, size)
    ensures r.Some? ==> Canonical(src, r.value) && Dotted4(src, r.value)
  {
    hide Canonical, Dotted4;
    hide Text, Hexes, Emitted, Address, Join, LeftmostLongest, Words;
    hide QuadText, Numeral;
    var words := ToWords(src);
    var best := FindRun(words[..]);
    run := best;
    BestIsRun(words[..], best);
    TextRoundTrip(src, best);
    TextFits(src, best);
    PrintedCanonical(src, best);
    DotIff(src, Text(src, best));
    ghost var ws, hs := Words(src), Hexes(Words(src));
    EmitNothing(hs, best);
    var tmp := "";
    var i := 0;
    while i < 8
      invariant 0 <= i <= 8 && tmp == Emitted(hs, best, i)
      invariant best.Some? && Embedded(ws, best.value) ==> i <= 6
      invariant words[..] == ws
    {
      assert words[i] == words[..][i] && words[5] == words[..][5];
      EmitStep(hs, best, i);
      if best.Some? && best.value.base <= i < best.value.base + best.value.len {
        if i == best.value.base {
          tmp := tmp + ":";
        }
      } else {
        if i != 0 {
          tmp := tmp + ":";
        }
        if i == 6 && best.Some? && best.value.base == 0 &&
           (best.value.len == 6 || (best.value.len == 5 && words[5] == 0xffff)) {
          EmittedEmbedded(src, best.value);
          var q := Ntop4(src[12..], 46 - |tmp|);
          tmp := tmp + q.value;
          assert tmp == Text(src, best);
          break;
        }
        tmp := tmp + Numeral(words[i], 16);
        HexAt(ws, i);
      }
      i := i + 1;
    }
    if i == 8 {
      EmittedAll(src, best);
    }
    if best.Some? && best.value.base + best.value.len == 8 {
      tmp := tmp + ":";
    }
    assert tmp == Text(src, best);
    if |tmp| + 1 > size {
      return None, run;
    }
    return Some(tmp), run;
  }

  lemma BestIsRun(w: seq<word>, r: Option<Run>)
    requires LeftmostLongest(w, r)
    ensures r.Some? ==> r.value.len >= 2 && ZeroRun(w, r.value.base, r.value.len)
  {
  }

  lemma EmitNothing(hs: seq<string>, run: Option<Run>)
    ensures Emitted(hs, run, 0) == ""
  {
  }

  lemma HexAt(w: seq<word>, i: nat)
    requires i < |w|
    ensures Hexes(w)[i] == Numeral(w[i], 16)
  {
  }

  /** The elided run is determined by the address. */
  lemma {:induction false} OneBestRun(w: seq<word>, r: Option<Run>, r': Option<Run>)
    requires LeftmostLongest(w, r) && LeftmostLongest(w, r')
    ensures r == r'
  {
    if r.Some? {
      assert ZeroRun(w, r.value.base, r.value.len);
    }
    if r'.Some? {
      assert ZeroRun(w, r'.value.base, r'.value.len);
    }
  }

  /** The IPv4 address 1.2.3.4 in an IPv6 address. */
  method Mapped() returns (r: Option<string>)
    ensures r == Some("::ffff:1.2.3.4")
  {
    var a: seq<byte> := [0, 0, 0, 0, 0, 0, 0, 0, 0, 0, 255, 255, 1, 2, 3, 4];
    MappedCanonical(a);
    hide Canonical, HoldsIpv4, Text, LeftmostLongest, Words, Address, QuadText;
    ghost var run;
    r, run := Ntop6(a, 46);
    CanonicalUnique(a, r.value, "::ffff:1.2.3.4");
  }
}
