/** Which texts inet_pton6 accepts, and what it makes of them. */
module Inet6Text {
  import opened Basics
  import opened Fields
  import opened Inet4
  import opened Inet6

  // ---- the texts ----

  /** The pieces of a text: groups and a last piece, which may be empty or a dotted quad; with
      a double colon, the groups before it and what comes after it. */
  datatype Parts =
    | Plain(groups: seq<string>, last: string)
    | Double(head: seq<string>, groups: seq<string>, last: string)

  predicate WellFormed(p: Parts) {
    AllGroups(p.groups) && Last(p.last).Some? && (p.Double? ==> AllGroups(p.head))
    && (p.Plain? && p.groups == [] ==> p.last != "")
  }

  /** Colons between the pieces, and the double colon where it is. */
  function Text(p: Parts): string {
    var after := Join(p.groups + [p.last], ':');
    match p
    case Plain(_, _) => after
    case Double(head, _, _) => if head == [] then "::" + after else Join(head, ':') + "::" + after
  }

  function After(p: Parts): (bs: seq<byte>)
    requires WellFormed(p)
    ensures |bs| <= 2 * |p.groups| + 4
  {
    GroupBytes(p.groups) + Last(p.last).value
  }

  function Before(p: Parts): (bs: seq<byte>)
    requires WellFormed(p)
  {
    if p.Plain? then [] else GroupBytes(p.head)
  }

  /** The bytes written out. */
  function Size(p: Parts): nat
    requires WellFormed(p)
  {
    |Before(p)| + |After(p)|
  }

  /** What the parser makes of them.  Without a double colon there must be sixteen bytes.  With
      one the missing bytes are zero; but if none is missing, all that follows is zeroed. */
  function Meaning(p: Parts): Option<seq<byte>>
    requires WellFormed(p)
  {
    if Size(p) > 16 then None
    else if p.Plain? then if Size(p) == 16 then Some(After(p)) else None
    else if Size(p) < 16 then Some(Before(p) + Zeros(16 - Size(p)) + After(p))
    else Some(Before(p) + Zeros(16 - |Before(p)|))
  }

  // ---- the parser's view of them ----

  /** The walk over groups and a last piece. */
  lemma {:induction false} WalkPieces(gs: seq<string>, last: string, sc: Scan)
    requires AllGroups(gs) && Last(last).Some? && ScanOk(sc)
    ensures var all := GroupBytes(gs) + Last(last).value;
            Walk(gs + [last], sc) ==
            if |sc.bytes| + |all| <= 16 then Some(sc.(bytes := sc.bytes + all)) else None
  {
    hide InBase, Value, Quad, Last;
    if gs == [] {
      assert gs + [last] == [last] && GroupBytes(gs) + Last(last).value == Last(last).value;
    } else {
      var g, rest := gs[0], gs[1..];
      var w := WordBytes(Value(g, 16));
      assert gs == [g] + rest && gs + [last] == [g] + (rest + [last]);
      GroupBytesCons(g, rest);
      if |sc.bytes| + 2 <= 16 {
        WalkGroup(g, rest + [last], sc);
        hide Walk, GroupBytes;
        WalkPieces(rest, last, sc.(bytes := sc.bytes + w));
        Reassociate(sc.bytes, w, GroupBytes(rest), Last(last).value);
      }
    }
  }

  /** Too many groups. */
  lemma {:induction false} WalkTooMany(gs: seq<string>, rest: seq<string>, sc: Scan)
    requires AllGroups(gs) && |rest| > 0 && ScanOk(sc) && |sc.bytes| + 2 * |gs| > 16
    ensures Walk(gs + rest, sc).None?
  {
    hide InBase, Value, Quad, Last;
    if gs != [] {
      var g, gs' := gs[0], gs[1..];
      assert gs + rest == [g] + (gs' + rest);
      if |sc.bytes| + 2 <= 16 {
        WalkGroup(g, gs' + rest, sc);
        WalkTooMany(gs', rest, sc.(bytes := sc.bytes + WordBytes(Value(g, 16))));
      }
    }
  }

  /** The fields of the text without the first of two leading colons. */
  function Fields6(p: Parts): (fs: seq<string>)
    ensures |fs| > 0
  {
    var after := p.groups + [p.last];
    if p.Plain? then after else p.head + ([""] + after)
  }

  lemma {:induction false} LastHasNoColon(f: string)
    requires Last(f).Some?
    ensures ':' !in f
  {
    if f != "" && !IsGroup(f) {
      QuadHasNoColon(f);
    } else {
      assert Digit(':') == 16;
    }
  }

  lemma {:induction false} NoColons(p: Parts)
    requires WellFormed(p)
    ensures forall f | f in Fields6(p) :: ':' !in f
    ensures forall i | 0 <= i < |p.groups| :: p.groups[i] != ""
    ensures p.Double? ==> forall i | 0 <= i < |p.head| :: p.head[i] != ""
  {
    LastHasNoColon(p.last);
    GroupsHaveNoColon(p.groups);
    if p.Double? {
      GroupsHaveNoColon(p.head);
    }
    hide Last, IsGroup;
  }

  lemma Concat(x: string, y: string)
    ensures x + ":" + ("" + ":" + y) == x + "::" + y && ":" + ("" + ":" + y) == "::" + y && "" + y == y
  {
  }

  lemma {:induction false} TextIs(p: Parts)
    requires WellFormed(p)
    ensures Text(p) == (if p.Double? && p.head == [] then ":" else "") + Join(Fields6(p), ':')
  {
    var after := p.groups + [p.last];
    hide WellFormed, Join;
    if p.Plain? {
      Concat("", Join(after, ':'));
    } else {
      JoinCons("", after, ':');
      if p.head == [] {
        assert Fields6(p) == [""] + after;
        Concat("", Join(after, ':'));
      } else {
        JoinAppend(p.head, [""] + after, ':');
        Concat(Join(p.head, ':'), Join(after, ':'));
        Concat("", Join(Fields6(p), ':'));
      }
    }
  }

  lemma FirstOf(fs: seq<string>)
    requires |fs| > 0
    ensures fs[0] != "" ==> Join(fs, ':') != "" && Join(fs, ':')[0] == fs[0][0]
    ensures fs[0] == "" && |fs| > 1 ==> Join(fs, ':') != "" && Join(fs, ':')[0] == ':'
    ensures fs[0] == "" && |fs| == 1 ==> Join(fs, ':') == ""
  {
  }

  /** A text is parsed by walking over its fields. */
  lemma {:induction false} AddressIsWalk(p: Parts)
    requires WellFormed(p)
    ensures var w := Walk(Fields6(p), START);
            Address(Text(p)) == if w.Some? then Expand(w.value) else None
  {
    var fs := Fields6(p);
    NoColons(p);
    TextIs(p);
    FirstOf(fs);
    SplitJoin(fs, ':');
    hide Walk, Expand, Split, Join, WellFormed, Text;
    if p.Double? && p.head == [] {
      assert fs[0] == "" && |fs| > 1;
      assert (":" + Join(fs, ':'))[1..] == Join(fs, ':');
    } else {
      assert "" + Join(fs, ':') == Join(fs, ':');
      assert fs[0] == "" ==> |fs| == 1;
      if fs[0] != "" {
        assert fs[0][0] in fs[0] && fs[0] in fs;
      }
    }
  }

  lemma ExpandDouble(x: seq<byte>, y: seq<byte>)
    requires |x| + |y| <= 16
    ensures Expand(Scan(x + y, Some(|x|))) ==
            Some(if |x| + |y| < 16 then x + Zeros(16 - |x| - |y|) + y else x + Zeros(16 - |x|))
  {
    Halves(x, y);
  }

  lemma {:induction false} PlainWalk(p: Parts)
    requires WellFormed(p) && p.Plain?
    ensures var w := Walk(Fields6(p), START); Meaning(p) == if w.Some? then Expand(w.value) else None
  {
    hide Walk, Last, GroupBytes, IsGroup;
    WalkPieces(p.groups, p.last, START);
    assert [] + After(p) == After(p);
  }

  /** The walk over a text with a double colon. */
  lemma {:induction false} WalkDouble(head: seq<string>, gs: seq<string>, last: string)
    requires AllGroups(head) && AllGroups(gs) && Last(last).Some?
    ensures var x, y := GroupBytes(head), GroupBytes(gs) + Last(last).value;
            Walk(head + ([""] + (gs + [last])), START) ==
            if |x| + |y| <= 16 then Some(Scan(x + y, Some(|x|))) else None
  {
    hide Walk, Last, GroupBytes, AllGroups;
    var x, y, after := GroupBytes(head), GroupBytes(gs) + Last(last).value, gs + [last];
    if |head| > 8 {
      WalkTooMany(head, [""] + after, START);
    } else {
      WalkAcross(head, after);
      assert head + ([""] + after) == head + [""] + after;
      assert [] + x == x;
      WalkPieces(gs, last, Scan(x, Some(|x|)));
    }
  }

  /** The bytes of a text with a double colon, and its meaning in terms of them. */
  lemma DoubleParts(p: Parts)
    requires WellFormed(p) && p.Double?
    ensures AllGroups(p.head) && AllGroups(p.groups) && Last(p.last).Some?
    ensures Before(p) == GroupBytes(p.head) && After(p) == GroupBytes(p.groups) + Last(p.last).value
    ensures Fields6(p) == p.head + ([""] + (p.groups + [p.last])) && Size(p) == |Before(p)| + |After(p)|
    ensures var x, y := Before(p), After(p);
            Meaning(p) == if |x| + |y| > 16 then None
                          else Some(if |x| + |y| < 16 then x + Zeros(16 - |x| - |y|) + y else x + Zeros(16 - |x|))
  {
    hide AllGroups, Last, GroupBytes;
  }

  lemma {:induction false} DoubleWalk(p: Parts)
    requires WellFormed(p) && p.Double?
    ensures var w := Walk(Fields6(p), START); Meaning(p) == if w.Some? then Expand(w.value) else None
  {
    hide *;
    DoubleParts(p);
    WalkDouble(p.head, p.groups, p.last);
    if |Before(p)| + |After(p)| <= 16 {
      ExpandDouble(Before(p), After(p));
    }
  }

  /** What a text means to the parser; all the texts it accepts are of this form, see `Reads`. */
  lemma {:induction false} Denotes(p: Parts)
    requires WellFormed(p)
    ensures Address(Text(p)) == Meaning(p)
  {
    hide *;
    AddressIsWalk(p);
    if p.Plain? {
      PlainWalk(p);
    } else {
      DoubleWalk(p);
    }
  }

  lemma SplitFirst(s: string)
    ensures var fs := Split(s, ':');
            if s != "" && s[0] == ':' then fs[0] == "" && |fs| > 1 else fs[0] != "" || |fs| == 1
  {
  }

  /** Every text that is accepted has this form. */
  lemma {:induction false} Reads(s: string) returns (p: Parts)
    requires Address(s).Some?
    ensures WellFormed(p) && Text(p) == s && Meaning(p) == Address(s)
  {
    var leading := s != "" && s[0] == ':';
    var body := if leading then s[1..] else s;
    var fs := Split(body, ':');
    JoinSplit(body, ':');
    SplitFirst(body);
    var w := Walk(fs, START);
    assert w.Some? && Expand(w.value).Some?;
    hide Address, Expand, Split, Join, Walk, Text, WellFormed;
    if w.value.colon.None? {
      p := ReadsPlain(fs, leading);
    } else {
      p := ReadsDouble(fs, leading);
    }
    TextIs(p);
    assert s == (if leading then ":" else "") + body;
    Denotes(p);
  }

  lemma {:induction false} ReadsPlain(fs: seq<string>, leading: bool) returns (p: Parts)
    requires |fs| > 0 && Walk(fs, START).Some? && Walk(fs, START).value.colon.None?
    requires leading ==> fs[0] == "" && |fs| > 1
    requires Expand(Walk(fs, START).value).Some?
    ensures WellFormed(p) && Fields6(p) == fs && p.Plain? && !leading
  {
    if fs[0] == "" && |fs| > 1 {
      ColonStays(fs[1..], START.(colon := Some(0)));
    }
    var tail, last := WalkTail(fs, START);
    p := Plain(tail, last);
    hide Walk, IsGroup;
    assert GroupBytes([]) == [];
  }

  lemma {:induction false} ReadsDouble(fs: seq<string>, leading: bool) returns (p: Parts)
    requires |fs| > 0 && Walk(fs, START).Some? && Walk(fs, START).value.colon.Some?
    requires if leading then fs[0] == "" && |fs| > 1 else fs[0] != "" || |fs| == 1
    ensures WellFormed(p) && Fields6(p) == fs && p.Double? && (leading <==> p.head == [])
  {
    hide Walk, Last, GroupBytes;
    var head, rest := WalkHead(fs, START);
    var mid := Scan([] + GroupBytes(head), Some(2 * |head|));
    ColonStays(rest, mid);
    var tail, last := WalkTail(rest, mid);
    p := Double(head, tail, last);
    assert fs == head + ([""] + rest);
    GroupsHaveNoColon(head);
  }

  // ---- the double colon ----

  ghost predicate HasDouble(s: string) {
    exists i | 0 <= i < |s| - 1 :: DoubleAt(s, i)
  }

  predicate DoubleAt(s: string, i: nat)
    requires i < |s| - 1
  {
    s[i] == ':' && s[i + 1] == ':'
  }

  lemma {:induction false} JoinNoDouble(fs: seq<string>)
    requires |fs| > 0 && (forall f | f in fs :: ':' !in f) && forall i | 0 <= i < |fs| - 1 :: fs[i] != ""
    ensures forall i | 0 <= i < |Join(fs, ':')| - 1 :: !DoubleAt(Join(fs, ':'), i)
  {
    assert fs[0] in fs;
    if |fs| > 1 {
      var f, rest := fs[0], Join(fs[1..], ':');
      JoinNoDouble(fs[1..]);
      FirstOf(fs[1..]);
      if fs[1] != "" {
        assert fs[1] in fs && fs[1][0] in fs[1];
      }
      var s := f + ":" + rest;
      forall i | 0 <= i < |s| - 1 ensures !DoubleAt(s, i) {
        if i < |f| {
          assert s[i] in f;
        } else if i > |f| {
          assert !DoubleAt(rest, i - |f| - 1);
        }
      }
    }
  }

  /** A text has two colons together exactly when it has a double colon. */
  lemma {:induction false} DoubleIff(p: Parts)
    requires WellFormed(p)
    ensures HasDouble(Text(p)) <==> p.Double?
  {
    NoColons(p);
    if p.Plain? {
      hide WellFormed;
      JoinNoDouble(p.groups + [p.last]);
    } else {
      hide WellFormed;
      assert DoubleAt(Text(p), if p.head == [] then 0 else |Join(p.head, ':')|);
    }
  }

  /** An accepted text with a double colon is the bytes before it, the missing zeros, and the
      bytes after it, if any are missing; otherwise the bytes before it and zeros. */
  lemma {:induction false} Elision(s: string) returns (p: Parts)
    requires Address(s).Some? && HasDouble(s)
    ensures WellFormed(p) && p.Double? && Text(p) == s && Size(p) <= 16
    ensures Size(p) < 16 ==> Address(s).value == Before(p) + Zeros(16 - Size(p)) + After(p)
    ensures Size(p) == 16 ==> Address(s).value == Before(p) + Zeros(16 - |Before(p)|)
  {
    hide *;
    p := Reads(s);
    DoubleIff(p);
    DoubleParts(p);
  }

  lemma {:induction false} GroupBytesAppend(xs: seq<string>, ys: seq<string>)
    requires AllGroups(xs) && AllGroups(ys)
    ensures AllGroups(xs + ys) && GroupBytes(xs + ys) == GroupBytes(xs) + GroupBytes(ys)
  {
    hide IsGroup, Value;
    if xs == [] {
      assert xs + ys == ys;
    } else {
      GroupBytesAppend(xs[1..], ys);
      assert (xs + ys)[1..] == xs[1..] + ys;
    }
  }

  /** The same text without its double colon. */
  function Closed(p: Parts): Parts
    requires p.Double?
  {
    Plain(p.head + p.groups, p.last)
  }

  /** A double colon in a full address, wherever it stands, is accepted, but not ignored as the
      comment on the parser says: everything after it becomes zero.  So it is ignored if and
      only if everything after it was zero already. */
  lemma {:induction false} FullAddressColon(p: Parts)
    requires WellFormed(p) && p.Double? && Size(p) == 16
    ensures WellFormed(Closed(p)) && Address(Text(Closed(p))) == Some(Before(p) + After(p))
    ensures Address(Text(p)) == Some(Before(p) + Zeros(16 - |Before(p)|))
    ensures Address(Text(p)) == Address(Text(Closed(p))) <==> After(p) == Zeros(|After(p)|)
  {
    hide *;
    DoubleParts(p);
    ClosedIs(p);
    Denotes(p);
    Denotes(Closed(p));
    Halves(Before(p), After(p));
    Halves(Before(p), Zeros(16 - |Before(p)|));
  }

  lemma {:induction false} ClosedIs(p: Parts)
    requires WellFormed(p) && p.Double? && Size(p) == 16
    ensures WellFormed(Closed(p)) && Meaning(Closed(p)) == Some(Before(p) + After(p))
  {
    GroupBytesAppend(p.head, p.groups);
    DoubleParts(p);
    var q := Closed(p);
    hide AllGroups, Last, GroupBytes;
    assert p.head + p.groups == [] ==> p.last != "" by { NoBytes(p); }
    Reassociate(GroupBytes(p.head), GroupBytes(p.groups), Last(p.last).value, []);
    assert After(q) == GroupBytes(p.head) + GroupBytes(p.groups) + Last(p.last).value;
    assert GroupBytes(p.head) + GroupBytes(p.groups) + Last(p.last).value == Before(p) + After(p);
  }

  lemma NoBytes(p: Parts)
    requires WellFormed(p) && p.Double? && Size(p) == 16
    ensures p.head + p.groups == [] ==> p.last != ""
  {
  }

  // ---- the texts of RFC 1884 ----

  /** Section 2.2 of RFC 1884: eight groups, the last two perhaps as a dotted quad, or a double
      colon for at least one group of zeros, and no empty piece but beside the double colon.
      This is the generous reading: a double colon may stand for a single group, and a number
      may have any leading zeros.  `ToTheLetter` is the narrow one. */
  predicate Rfc1884(p: Parts) {
    && WellFormed(p) && (p.last != "" || (p.Double? && p.groups == []))
    && if p.Plain? then Size(p) == 16 else Size(p) < 16
  }

  ghost predicate InGrammar(s: string) {
    exists p :: Rfc1884(p) && Text(p) == s
  }

  /** A double colon with all sixteen bytes written out. */
  ghost predicate FullDouble(s: string) {
    exists p :: WellFormed(p) && p.Double? && Size(p) == 16 && Text(p) == s
  }

  predicate OneTrailingColon(s: string) {
    s != "" && s[|s| - 1] == ':' && (|s| == 1 || s[|s| - 2] != ':')
  }

  ghost predicate EmptyInside(fs: seq<string>) {
    exists i | 0 <= i < |fs| - 1 :: fs[i] == ""
  }

  lemma {:induction false} EmptyInsideIff(p: Parts)
    requires WellFormed(p)
    ensures EmptyInside(Fields6(p)) <==> p.Double?
  {
    NoColons(p);
    hide WellFormed;
    if p.Double? {
      assert Fields6(p)[|p.head|] == "";
    }
  }

  lemma {:induction false} FieldsUnique(p: Parts, q: Parts)
    requires WellFormed(p) && WellFormed(q) && Fields6(p) == Fields6(q)
    ensures p == q
  {
    NoColons(p);
    NoColons(q);
    EmptyInsideIff(p);
    EmptyInsideIff(q);
    hide WellFormed, EmptyInside;
    var fs := Fields6(p);
    if p.Double? {
      assert fs[|p.head|] == "" && fs[|q.head|] == "";
      assert |p.head| == |q.head|;
      assert p.head == fs[..|p.head|] && q.head == fs[..|p.head|];
      PiecesUnique(fs[|p.head| + 1..], p, q);
    } else {
      PiecesUnique(fs, p, q);
    }
  }

  lemma PiecesUnique(after: seq<string>, p: Parts, q: Parts)
    requires after == p.groups + [p.last] && after == q.groups + [q.last]
    ensures p.groups == q.groups && p.last == q.last
  {
    assert after[..|after| - 1] == p.groups && after[..|after| - 1] == q.groups;
  }

  /** A text can be read in one way only. */
  lemma {:induction false} OneReading(p: Parts, q: Parts)
    requires WellFormed(p) && WellFormed(q) && Text(p) == Text(q)
    ensures p == q
  {
    var fs, gs := Fields6(p), Fields6(q);
    NoColons(p);
    NoColons(q);
    TextIs(p);
    TextIs(q);
    FirstOf(fs);
    FirstOf(gs);
    SplitJoin(fs, ':');
    SplitJoin(gs, ':');
    LeadingColon(p);
    LeadingColon(q);
    hide Split, Join, WellFormed, Text, Fields6;
    Cut(if p.Double? && p.head == [] then ":" else "", Join(fs, ':'));
    Cut(if q.Double? && q.head == [] then ":" else "", Join(gs, ':'));
    FieldsUnique(p, q);
  }

  lemma Cut(x: string, y: string)
    ensures (x + y)[|x|..] == y
  {
  }

  lemma {:induction false} LeadingColon(p: Parts)
    requires WellFormed(p)
    ensures Text(p) != "" && Text(p)[0] == ':' <==> p.Double? && p.head == []
  {
    NoColons(p);
    TextIs(p);
    FirstOf(Fields6(p));
    var fs := Fields6(p);
    hide WellFormed, Text, Join;
    if !(p.Double? && p.head == []) {
      assert "" + Join(fs, ':') == Join(fs, ':');
      if fs[0] != "" {
        assert fs[0][0] in fs[0] && fs[0] in fs;
      }
    }
  }

  lemma {:induction false} JoinEnds(fs: seq<string>)
    requires |fs| > 0 && fs[|fs| - 1] != ""
    ensures var s, f := Join(fs, ':'), fs[|fs| - 1]; s != "" && s[|s| - 1] == f[|f| - 1]
  {
    if |fs| > 1 {
      JoinEnds(fs[1..]);
    }
  }

  function Lead(p: Parts): string {
    if p.Plain? then "" else if p.head == [] then "::" else Join(p.head, ':') + "::"
  }

  lemma Endings(x: string, a: string)
    requires a != "" && a[|a| - 1] != ':'
    ensures !OneTrailingColon(x + a) && OneTrailingColon(x + (a + ":"))
  {
  }

  lemma TwoColons(x: string)
    ensures !OneTrailingColon(x + "::" + "") && !OneTrailingColon("::" + "")
  {
  }

  /** The last piece of the text, and the one before it, do not end in a colon. */
  lemma {:induction false} PieceEnds(fs: seq<string>)
    requires |fs| > 0 && fs[|fs| - 1] != "" && forall f | f in fs :: ':' !in f
    ensures var s := Join(fs, ':'); s != "" && s[|s| - 1] != ':'
  {
    JoinEnds(fs);
    var f := fs[|fs| - 1];
    assert f in fs && f[|f| - 1] in f;
  }

  lemma {:induction false} PiecesHaveNoColon(p: Parts)
    requires WellFormed(p)
    ensures forall f | f in p.groups + [p.last] :: ':' !in f
    ensures forall f | f in p.groups :: ':' !in f
    ensures p.groups != [] ==> p.groups[|p.groups| - 1] != ""
    ensures p.Plain? && p.groups == [] ==> p.last != ""
  {
    LastHasNoColon(p.last);
    GroupsHaveNoColon(p.groups);
    hide Last, IsGroup;
  }

  lemma TextEnds(p: Parts)
    ensures Text(p) == Lead(p) + Join(p.groups + [p.last], ':')
    ensures p.groups == [] && p.last == "" && p.Double? ==>
              Text(p) == (if p.head == [] then "::" else Join(p.head, ':') + "::") + ""
    ensures p.groups != [] && p.last == "" ==> Text(p) == Lead(p) + (Join(p.groups, ':') + ":")
  {
    if p.groups != [] && p.last == "" {
      JoinAppend(p.groups, [""], ':');
    }
  }

  lemma {:induction false} TrailingIff(p: Parts)
    requires WellFormed(p)
    ensures OneTrailingColon(Text(p)) <==> p.last == "" && p.groups != []
  {
    hide *;
    PiecesHaveNoColon(p);
    TextEnds(p);
    if p.last != "" {
      PieceEnds(p.groups + [p.last]);
      Endings(Lead(p), Join(p.groups + [p.last], ':'));
    } else if p.groups != [] {
      PieceEnds(p.groups);
      Endings(Lead(p), Join(p.groups, ':'));
    } else {
      TwoColons(if p.head == [] then "" else Join(p.head, ':'));
    }
  }

  /** One colon after a last group changes nothing. */
  lemma {:induction false} TrailingColon(p: Parts)
    requires WellFormed(p) && IsGroup(p.last)
    ensures var q := p.(groups := p.groups + [p.last], last := "");
            WellFormed(q) && Text(q) == Text(p) + ":" && Address(Text(p) + ":") == Address(Text(p))
  {
    var q := p.(groups := p.groups + [p.last], last := "");
    SameAfter(p, q);
    TextEnds(p);
    TextEnds(q);
    assert Lead(q) == Lead(p);
    Denotes(p);
    Denotes(q);
    hide Text, Address, After, Join, GroupBytes, IsGroup, Last, WellFormed;
    Longer(Lead(p), Join(p.groups + [p.last], ':'));
  }

  lemma {:induction false} SameAfter(p: Parts, q: Parts)
    requires WellFormed(p) && IsGroup(p.last) && q == p.(groups := p.groups + [p.last], last := "")
    ensures WellFormed(q) && After(q) == After(p)
  {
    GroupBytesAppend(p.groups, [p.last]);
    assert [p.last][1..] == [];
    assert GroupBytes([p.last]) == Last(p.last).value + [];
    hide GroupBytes, IsGroup, WordBytes;
  }

  lemma Longer(x: string, y: string)
    ensures x + (y + ":") == x + y + ":"
  {
  }

  /** The texts accepted although they are not in the grammar: those with one colon at the end,
      and those with a double colon and all sixteen bytes. */
  lemma {:induction false} OutsideGrammarIff(s: string)
    requires Address(s).Some?
    ensures !InGrammar(s) <==> OneTrailingColon(s) || FullDouble(s)
  {
    var p := Reads(s);
    TrailingIff(p);
    forall q | WellFormed(q) && Text(q) == s ensures q == p {
      OneReading(q, p);
    }
    assert Size(p) <= 16 && (p.Plain? ==> Size(p) == 16 && p.last == "" ==> p.groups != []);
    hide Address, WellFormed, Text, Size, Meaning, OneTrailingColon;
    if FullDouble(s) {
      var q :| WellFormed(q) && q.Double? && Size(q) == 16 && Text(q) == s;
    }
  }

  /** A group written with more than four digits, or a dotted quad with more than three in one
      of its numbers. */
  predicate Long(f: string) {
    if IsGroup(f) then |f| > 4 else exists i | 0 <= i < |Split(f, '.')| :: |Split(f, '.')[i]| > 3
  }

  ghost predicate LongPiece(fs: seq<string>) {
    exists i | 0 <= i < |fs| :: Long(fs[i])
  }

  /** The narrow reading of section 2.2: a double colon stands for multiple groups, and no number
      is written with more digits than it may need. */
  ghost predicate ToTheLetter(s: string) {
    exists p :: Rfc1884(p) && Text(p) == s && (p.Double? ==> Size(p) <= 12) && !LongPiece(Fields6(p))
  }

  /** A double colon with at most one group missing. */
  ghost predicate TightDouble(s: string) {
    exists p :: WellFormed(p) && p.Double? && 12 < Size(p) <= 16 && Text(p) == s
  }

  lemma {:induction false} LongPieceIff(p: Parts)
    requires WellFormed(p)
    ensures LongPiece(Split(Text(p), ':')) <==> LongPiece(Fields6(p))
  {
    TextIs(p);
    NoColons(p);
    var fs := Fields6(p);
    SplitJoin(fs, ':');
    hide Text, WellFormed, Join, Fields6;
    if p.Double? && p.head == [] {
      assert Text(p)[1..] == Join(fs, ':') && Text(p)[0] == ':';
      assert Split(Text(p), ':') == [""] + fs;
      LongTail(fs);
    } else {
      assert "" + Join(fs, ':') == Join(fs, ':');
    }
  }

  lemma {:induction false} LongTail(fs: seq<string>)
    ensures LongPiece([""] + fs) <==> LongPiece(fs)
  {
    assert !Long("");
    hide Long;
    var gs := [""] + fs;
    if i :| 0 <= i < |fs| && Long(fs[i]) {
      assert Long(gs[i + 1]);
    }
    if i :| 0 <= i < |gs| && Long(gs[i]) {
      assert i > 0 && Long(fs[i - 1]);
    }
  }

  /** The texts accepted although they are not in the narrow grammar: those with one colon at
      the end, those whose double colon stands for less than two groups, and those with a
      number longer than need be. */
  lemma {:induction false} BeyondLetterIff(s: string)
    requires Address(s).Some?
    ensures !ToTheLetter(s) <==> OneTrailingColon(s) || TightDouble(s) || LongPiece(Split(s, ':'))
  {
    var p := Reads(s);
    TrailingIff(p);
    LongPieceIff(p);
    forall q | WellFormed(q) && Text(q) == s ensures q == p {
      OneReading(q, p);
    }
    assert Size(p) <= 16 && (p.Plain? ==> Size(p) == 16 && p.last == "" ==> p.groups != []);
    hide Address, WellFormed, Text, Size, Meaning, OneTrailingColon, LongPiece, Fields6, Split;
    if TightDouble(s) {
      var q :| WellFormed(q) && q.Double? && 12 < Size(q) <= 16 && Text(q) == s;
    }
  }

  /** Every text of the grammar is accepted and means what the standard says. */
  lemma {:induction false} GrammarAccepted(p: Parts)
    requires Rfc1884(p)
    ensures Address(Text(p)) ==
            Some(if p.Plain? then After(p) else Before(p) + Zeros(16 - Size(p)) + After(p))
  {
    hide Text, Before, After;
    Denotes(p);
  }

  /** The longest example: the address 1:2:3:4:5:6:7:8 with a double colon in front is zero. */
  lemma {:induction false} ZeroedAddress()
    ensures Address("::1:2:3:4:5:6:7:8") == Some(Zeros(16))
  {
    var gs := ["1", "2", "3", "4", "5", "6", "7"];
    var p := Double([], gs, "8");
    assert Text(p) == "::1:2:3:4:5:6:7:8" by { JoinDigits(gs); }
    hide *;
    Digits(gs);
    FullSize(p);
    Denotes(p);
    DoubleParts(p);
    assert [] + Zeros(16) == Zeros(16);
  }

  lemma {:induction false} Digits(gs: seq<string>)
    requires gs == ["1", "2", "3", "4", "5", "6", "7"]
    ensures AllGroups(gs) && IsGroup("8")
  {
    forall i | 0 <= i < 7 ensures IsGroup(gs[i]) {
      OneDigit(gs[i]);
    }
    OneDigit("8");
    hide IsGroup;
  }

  lemma FullSize(p: Parts)
    requires p.Double? && p.head == [] && AllGroups(p.groups) && IsGroup(p.last) && |p.groups| == 7
    ensures WellFormed(p) && Before(p) == [] && Size(p) == 16
  {
  }

  lemma OneDigit(f: string)
    requires |f| == 1 && '1' <= f[0] <= '8'
    ensures IsGroup(f)
  {
    assert Value(f, 16) == Value([], 16) * 16 + Digit(f[0]);
  }

  lemma {:induction false} JoinDigits(gs: seq<string>)
    requires gs == ["1", "2", "3", "4", "5", "6", "7"]
    ensures "::" + Join(gs + ["8"], ':') == "::1:2:3:4:5:6:7:8"
  {
    hide *;
    HighDigits();
    LowDigits(["4", "5", "6", "7", "8"], "4:5:6:7:8");
    EightDigits(gs);
    Spelled();
  }

  lemma EightDigits(gs: seq<string>)
    requires gs == ["1", "2", "3", "4", "5", "6", "7"]
    ensures gs + ["8"] == ["1", "2", "3"] + ["4", "5", "6", "7", "8"]
  {
  }

  lemma Spelled()
    ensures "::" + ("1:2:3:" + "4:5:6:7:8") == "::1:2:3:4:5:6:7:8"
  {
  }

  lemma {:induction false} HighDigits()
    ensures Join(["4", "5", "6", "7", "8"], ':') == "4:5:6:7:8"
  {
    assert Join(["8"], ':') == "8";
    hide Join;
    var f7, t7 := OneMore("7", ["8"], "8");
    var f6, t6 := OneMore("6", f7, t7);
    var f5, t5 := OneMore("5", f6, t6);
    var f4, t4 := OneMore("4", f5, t5);
    assert f4 == ["4", "5", "6", "7", "8"] && t4 == "4:5:6:7:8";
  }

  lemma {:induction false} LowDigits(fs: seq<string>, t: string)
    requires |fs| > 0 && Join(fs, ':') == t
    ensures Join(["1", "2", "3"] + fs, ':') == "1:2:3:" + t
  {
    hide Join;
    var f3, t3 := OneMore("3", fs, t);
    var f2, t2 := OneMore("2", f3, t3);
    var f1, t1 := OneMore("1", f2, t2);
    assert f1 == ["1", "2", "3"] + fs && t1 == "1:2:3:" + t;
  }

  lemma OneMore(f: string, fs: seq<string>, t: string) returns (fs': seq<string>, t': string)
    requires |fs| > 0 && Join(fs, ':') == t
    ensures fs' == [f] + fs && t' == f + ":" + t && Join(fs', ':') == t'
  {
    fs', t' := [f] + fs, f + ":" + t;
    JoinCons(f, fs, ':');
  }
}
