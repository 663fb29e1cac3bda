/** Text split at and joined by a separator character, and numerals in base ten and sixteen. */
module Fields {

  /** The maximal pieces of `s` between occurrences of `sep`; never empty. */
  function Split(s: string, sep: char): (r: seq<string>)
    ensures |r| > 0
  {
    if s == [] then [""]
    else
      var r := Split(s[1..], sep);
      if s[0] == sep then [""] + r else [[s[0]] + r[0]] + r[1..]
  }

  function Join(fs: seq<string>, sep: char): (r: string)
    requires |fs| > 0
  {
    if |fs| == 1 then fs[0] else fs[0] + [sep] + Join(fs[1..], sep)
  }

  /** A piece that cannot contain the separator extends the first field of what follows it. */
  lemma {:induction false} SplitPrefix(cur: string, rest: string, sep: char)
    requires sep !in cur
    ensures Split(cur + rest, sep) == [cur + Split(rest, sep)[0]] + Split(rest, sep)[1..]
  {
    if cur == [] {
      assert cur + rest == rest;
      assert cur + Split(rest, sep)[0] == Split(rest, sep)[0];
    } else {
      SplitPrefix(cur[1..], rest, sep);
      assert (cur + rest)[1..] == cur[1..] + rest;
      assert [cur[0]] + (cur[1..] + Split(rest, sep)[0]) == cur + Split(rest, sep)[0];
    }
  }

  lemma {:induction false} SplitAt(cur: string, rest: string, sep: char)
    requires sep !in cur
    ensures Split(cur + [sep] + rest, sep) == [cur] + Split(rest, sep)
  {
    SplitPrefix(cur, [sep] + rest, sep);
    assert cur + [sep] + rest == cur + ([sep] + rest);
    assert ([sep] + rest)[1..] == rest;
    assert cur + "" == cur;
  }

  lemma {:induction false} SplitWhole(cur: string, sep: char)
    requires sep !in cur
    ensures Split(cur, sep) == [cur]
  {
    SplitPrefix(cur, "", sep);
    assert cur + "" == cur;
  }

  // ---- reading fields from left to right ----

  /** The first `i` characters of `s` hold the fields `done` and the start `cur` of another. */
  ghost predicate Reading(s: string, sep: char, i: nat, done: seq<string>, cur: string) {
    i <= |s| && sep !in cur && Split(s, sep) == done + Split(cur + s[i..], sep)
  }

  lemma {:induction false} ReadStart(s: string, sep: char)
    ensures Reading(s, sep, 0, [], "")
  {
    assert "" + s[0..] == s;
    assert [] + Split(s, sep) == Split(s, sep);
  }

  lemma {:induction false} ReadChar(s: string, sep: char, i: nat, done: seq<string>, cur: string)
    requires i < |s| && Reading(s, sep, i, done, cur) && s[i] != sep
    ensures Reading(s, sep, i + 1, done, cur + [s[i]])
  {
    assert cur + s[i..] == (cur + [s[i]]) + s[i + 1..];
  }

  lemma {:induction false} ReadSep(s: string, sep: char, i: nat, done: seq<string>, cur: string)
    requires i < |s| && Reading(s, sep, i, done, cur) && s[i] == sep
    ensures Reading(s, sep, i + 1, done + [cur], "")
  {
    SplitAt(cur, s[i + 1..], sep);
    assert cur + s[i..] == cur + [sep] + s[i + 1..];
    assert "" + s[i + 1..] == s[i + 1..];
    assert done + ([cur] + Split(s[i + 1..], sep)) == done + [cur] + Split(s[i + 1..], sep);
  }

  /** The field being read is the next field of `s`, with more characters yet to come. */
  lemma {:induction false} ReadField(s: string, sep: char, i: nat, done: seq<string>, cur: string)
    returns (more: string)
    requires Reading(s, sep, i, done, cur)
    ensures |Split(s, sep)| > |done| && Split(s, sep)[..|done|] == done
    ensures Split(s, sep)[|done|] == cur + more
  {
    SplitPrefix(cur, s[i..], sep);
    more := Split(s[i..], sep)[0];
  }

  lemma {:induction false} ReadEnd(s: string, sep: char, done: seq<string>, cur: string)
    requires Reading(s, sep, |s|, done, cur)
    ensures Split(s, sep) == done + [cur]
  {
    assert cur + s[|s|..] == cur;
    SplitWhole(cur, sep);
  }

  /** Splitting undoes joining, for fields that do not contain the separator ... */
  lemma {:induction false} SplitJoin(fs: seq<string>, sep: char)
    requires |fs| > 0 && forall f | f in fs :: sep !in f
    ensures Split(Join(fs, sep), sep) == fs
  {
    if |fs| == 1 {
      SplitWhole(fs[0], sep);
    } else {
      SplitJoin(fs[1..], sep);
      SplitAt(fs[0], Join(fs[1..], sep), sep);
    }
  }

  /** ... and joining undoes splitting, for every string. */
  lemma {:induction false} JoinSplit(s: string, sep: char)
    ensures Join(Split(s, sep), sep) == s
    ensures forall f | f in Split(s, sep) :: sep !in f
  {
    if s != [] {
      JoinSplit(s[1..], sep);
      var r := Split(s[1..], sep);
      if s[0] == sep {
        assert ([""] + r)[1..] == r;
      } else if |r| > 1 {
        assert ([[s[0]] + r[0]] + r[1..])[1..] == r[1..];
      }
    }
  }

  lemma {:induction false} JoinCons(f: string, fs: seq<string>, sep: char)
    requires |fs| > 0
    ensures Join([f] + fs, sep) == f + [sep] + Join(fs, sep)
  {
    assert ([f] + fs)[1..] == fs;
  }

  lemma {:induction false} JoinAppend(fs: seq<string>, gs: seq<string>, sep: char)
    requires |fs| > 0 && |gs| > 0
    ensures Join(fs + gs, sep) == Join(fs, sep) + [sep] + Join(gs, sep)
  {
    if |fs| == 1 {
      assert (fs + gs)[1..] == gs;
    } else {
      JoinAppend(fs[1..], gs, sep);
      assert (fs + gs)[1..] == fs[1..] + gs;
    }
  }

  lemma {:induction false} JoinLength(fs: seq<string>, sep: char, most: nat)
    requires |fs| > 0 && forall i | 0 <= i < |fs| :: |fs[i]| <= most
    ensures |Join(fs, sep)| <= |fs| * (most + 1) - 1
  {
    if |fs| > 1 {
      JoinLength(fs[1..], sep, most);
      assert |fs| * (most + 1) == |fs[1..]| * (most + 1) + (most + 1);
    }
  }

  lemma SliceStep(s: string, a: nat, i: nat)
    requires a <= i < |s|
    ensures s[a..i + 1] == s[a..i] + [s[i]]
  {
  }

  lemma SliceRest(s: string, a: nat, i: nat)
    requires a <= i <= |s|
    ensures s[a..] == s[a..i] + s[i..]
  {
  }

  // ---- numerals ----

  /** The value of a digit in either letter case; sixteen for any other character. */
  function Digit(c: char): (d: nat)
    ensures d <= 16
  {
    if '0' <= c <= '9' then c as int - '0' as int
    else if 'a' <= c <= 'f' then c as int - 'a' as int + 10
    else if 'A' <= c <= 'F' then c as int - 'A' as int + 10
    else 16
  }

  predicate InBase(s: string, b: nat) {
    forall c | c in s :: Digit(c) < b
  }

  function Value(s: string, b: nat): nat {
    if s == [] then 0 else Value(s[..|s| - 1], b) * b + Digit(s[|s| - 1])
  }

  function DigitChar(d: nat): (c: char)
    requires d < 16
    ensures Digit(c) == d
  {
    "0123456789abcdef"[d]
  }

  /** What `%u` (base 10) and `%x` (base 16) print. */
  function Numeral(n: nat, b: nat): (s: string)
    requires b == 10 || b == 16
  {
    if n < b then [DigitChar(n)] else Numeral(n / b, b) + [DigitChar(n % b)]
  }

  lemma {:induction false} NumeralValue(n: nat, b: nat)
    requires b == 10 || b == 16
    ensures Numeral(n, b) != "" && InBase(Numeral(n, b), b) && Value(Numeral(n, b), b) == n
  {
    if n >= b {
      NumeralValue(n / b, b);
      var front := Numeral(n / b, b);
      assert Numeral(n, b)[..|front|] == front;
    } else {
      assert Value([], b) == 0;
      assert Numeral(n, b)[..0] == [];
    }
  }

  /** The digits are the ten figures and six letters in either case, ... */
  lemma DigitTable(d: nat)
    requires d < 16
    ensures Digit("0123456789abcdef"[d]) == d && Digit("0123456789ABCDEF"[d]) == d
  {
  }

  /** ... and no others. */
  lemma {:induction false} OtherDigit(c: char)
    ensures Digit(c) == 16 || c in "0123456789abcdefABCDEF"
  {
    var ds := "0123456789abcdefABCDEF";
    if '0' <= c <= '9' {
      assert c == ds[c as int - '0' as int];
    } else if 'a' <= c <= 'f' {
      assert c == ds[c as int - 'a' as int + 10];
    } else if 'A' <= c <= 'F' {
      assert c == ds[c as int - 'A' as int + 16];
    }
  }

  function Power(b: nat, k: nat): nat {
    if k == 0 then 1 else b * Power(b, k - 1)
  }

  /** Every digit times its place. */
  function Places(s: string, b: nat): nat {
    if s == [] then 0 else Digit(s[0]) * Power(b, |s| - 1) + Places(s[1..], b)
  }

  /** The value of a numeral: the first digit is the most significant one. */
  lemma {:induction false} ValueIsPlaces(s: string, b: nat)
    ensures Value(s, b) == Places(s, b)
  {
    if s != [] {
      var n := |s| - 1;
      ValueIsPlaces(s[..n], b);
      PlacesLast(s, b);
    }
  }

  lemma {:induction false} PlacesLast(s: string, b: nat)
    requires s != []
    ensures Places(s, b) == Places(s[..|s| - 1], b) * b + Digit(s[|s| - 1])
  {
    var n := |s| - 1;
    if n == 0 {
      assert s[1..] == [] && s[..0] == [] && Power(b, 0) == 1;
    } else {
      PlacesLast(s[1..], b);
      assert s[..n][1..] == s[1..][..n - 1] && s[1..][n - 1] == s[n];
      Distribute(Digit(s[0]), Power(b, n - 1), Places(s[1..][..n - 1], b), b);
    }
  }

  lemma Distribute(d: nat, p: nat, q: nat, b: nat)
    ensures d * (b * p) + q * b == (d * p + q) * b
  {
  }

  /** Written as `%u` and `%x` do: small letters, and no zero in front. */
  predicate Lean(s: string, b: nat)
    requires b <= 16
  {
    s != "" && (forall c | c in s :: c in "0123456789abcdef"[..b]) && (|s| > 1 ==> s[0] != '0')
  }

  lemma {:induction false} LeanDigit(c: char, b: nat)
    requires b <= 16
    ensures c in "0123456789abcdef"[..b] <==> Digit(c) < b && c == DigitChar(Digit(c))
  {
    var ds := "0123456789abcdef";
    if c in ds[..b] {
      var d :| 0 <= d < b && c == ds[..b][d];
      DigitTable(d);
    }
    if Digit(c) < b && c == DigitChar(Digit(c)) {
      assert c == ds[..b][Digit(c)];
    }
  }

  lemma {:induction false} LeanFront(s: string, c: char, b: nat)
    requires b <= 16 && s != ""
    ensures Lean(s + [c], b) <==> Lean(s, b) && s != "0" && c in "0123456789abcdef"[..b]
  {
    var t := s + [c];
    assert forall x :: x in t <==> x in s || x == c;
    assert t[0] == s[0];
    assert |s| == 1 ==> s == [s[0]];
  }

  lemma {:induction false} LeanPositive(s: string, b: nat)
    requires (b == 10 || b == 16) && Lean(s, b)
    ensures s == "0" || Value(s, b) > 0
  {
    var n := |s| - 1;
    assert s == s[..n] + [s[n]];
    if n == 0 {
      LeanDigit(s[0], b);
      assert s[0] in s && s == [s[0]] && Value(s[..0], b) == 0;
    } else {
      LeanFront(s[..n], s[n], b);
      LeanPositive(s[..n], b);
      ValueGrows(s[..n], [s[n]], b);
    }
  }

  /** A numeral is what is printed for a number if and only if it is written so and has that value. */
  lemma {:induction false} NumeralIff(s: string, n: nat, b: nat)
    requires b == 10 || b == 16
    ensures s == Numeral(n, b) <==> Lean(s, b) && Value(s, b) == n
  {
    NumeralValue(n, b);
    NumeralLean(n, b);
    if Lean(s, b) && Value(s, b) == n {
      LeanIsNumeral(s, b);
    }
  }

  lemma {:induction false} NumeralLean(n: nat, b: nat)
    requires b == 10 || b == 16
    ensures Lean(Numeral(n, b), b) && (Numeral(n, b) == "0" ==> n == 0)
  {
    hide Value, InBase;
    if n >= b {
      hide Lean, Digit;
      NumeralLean(n / b, b);
      DigitLean(n % b, b);
      LeanFront(Numeral(n / b, b), DigitChar(n % b), b);
    } else {
      DigitLean(n, b);
      hide Digit;
      assert forall c | c in Numeral(n, b) :: c == DigitChar(n);
    }
  }

  lemma {:induction false} DigitLean(d: nat, b: nat)
    requires (b == 10 || b == 16) && d < b
    ensures DigitChar(d) in "0123456789abcdef"[..b] && (DigitChar(d) == '0' ==> d == 0)
  {
    assert DigitChar(d) == "0123456789abcdef"[..b][d];
    assert Digit('0') == 0;
  }

  function Shift(v: nat, b: nat, d: nat): nat {
    v * b + d
  }

  lemma {:induction false} LeanSplit(s: string, b: nat)
    requires (b == 10 || b == 16) && Lean(s, b)
    ensures var n := |s| - 1;
            && s == s[..n] + [s[n]] && Digit(s[n]) < b && s[n] == DigitChar(Digit(s[n]))
            && Value(s, b) == Shift(Value(s[..n], b), b, Digit(s[n]))
            && (n == 0 ==> s == [s[n]] && Value(s[..n], b) == 0) && (n > 0 ==> Lean(s[..n], b) && s[..n] != "0")
  {
    var n := |s| - 1;
    assert s == s[..n] + [s[n]] && s[n] in s;
    LeanDigit(s[n], b);
    if n > 0 {
      LeanFront(s[..n], s[n], b);
    }
    hide Digit, DigitChar, Lean;
  }

  lemma {:induction false} LeanIsNumeral(s: string, b: nat)
    requires (b == 10 || b == 16) && Lean(s, b)
    ensures s == Numeral(Value(s, b), b)
  {
    LeanSplit(s, b);
    hide *;
    var n := |s| - 1;
    if n == 0 {
      ShiftNothing(b, Digit(s[n]));
      NumeralOne(Digit(s[n]), b);
    } else {
      LeanPositive(s[..n], b);
      LeanIsNumeral(s[..n], b);
      NumeralMore(Value(s[..n], b), Digit(s[n]), b);
    }
  }

  lemma ShiftNothing(b: nat, d: nat)
    ensures Shift(0, b, d) == d
  {
  }

  lemma NumeralOne(d: nat, b: nat)
    requires (b == 10 || b == 16) && d < b
    ensures Numeral(d, b) == [DigitChar(d)]
  {
  }

  lemma {:induction false} NumeralMore(v: nat, d: nat, b: nat)
    requires (b == 10 || b == 16) && v > 0 && d < b
    ensures Numeral(Shift(v, b, d), b) == Numeral(v, b) + [DigitChar(d)]
  {
    hide Digit, DigitChar;
    DivMod(v, d, b);
  }

  lemma DivMod(v: nat, d: nat, b: nat)
    requires d < b && v > 0 && (b == 10 || b == 16)
    ensures v * b + d >= b && (v * b + d) / b == v && (v * b + d) % b == d
  {
  }

  lemma {:induction false} NumeralLength(n: nat)
    ensures n < 256 ==> |Numeral(n, 10)| <= 3
    ensures n < 65536 ==> |Numeral(n, 16)| <= 4
  {
    if n < 256 {
      assert n / 10 / 10 < 10;
      assert |Numeral(n / 10 / 10, 10)| == 1;
      assert |Numeral(n / 10, 10)| <= 2;
    }
    if n < 65536 {
      assert n / 16 / 16 / 16 < 16;
      assert |Numeral(n / 16 / 16 / 16, 16)| == 1;
      assert |Numeral(n / 16 / 16, 16)| <= 2;
    }
  }

  /** Reading more digits never makes a numeral smaller. */
  lemma {:induction false} ValueGrows(s: string, t: string, b: nat)
    requires b > 0
    ensures Value(s, b) <= Value(s + t, b)
  {
    if t == [] {
      assert s + t == s;
    } else {
      ValueGrows(s, t[..|t| - 1], b);
      var u := s + t;
      assert u[..|u| - 1] == s + t[..|t| - 1];
      assert Value(u[..|u| - 1], b) <= Value(u[..|u| - 1], b) * b by {
        Scale(Value(u[..|u| - 1], b), b);
      }
    }
  }

  lemma Scale(v: nat, b: nat)
    requires b > 0
    ensures v <= v * b
  {
  }

  lemma InBaseStep(s: string, c: char, b: nat)
    requires InBase(s, b) && Digit(c) < b
    ensures InBase(s + [c], b)
  {
  }

  lemma ValueEmpty(b: nat)
    ensures Value("", b) == 0
  {
  }

  lemma {:induction false} ValueStep(s: string, c: char, b: nat)
    ensures Value(s + [c], b) == Value(s, b) * b + Digit(c)
  {
    assert (s + [c])[..|s|] == s;
  }

  predicate EndsIn(s: string, t: string) {
    |t| <= |s| && s[|s| - |t|..] == t
  }
}
