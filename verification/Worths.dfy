/** What a written number is worth, said on its characters, and that keys tell worths apart. */
module Worths {
  import opened Segments
  import opened Wire
  import opened NumberValues

  /** What the number pattern matches: digits, then dots and commas with digits behind each. */
  predicate Run(s: string) {
    var n := DigitCount(s);
    n > 0 && (n == |s| || (s[n] in ".," && Run(s[n + 1..])))
  }

  /** A comma separates thousands when three digits stand behind it and no fourth. */
  predicate Separates(s: string, i: nat)
    requires i < |s|
  {
    && s[i] == ',' && i + 3 < |s|
    && ASCII.IsDigit(s[i + 1]) && ASCII.IsDigit(s[i + 2]) && ASCII.IsDigit(s[i + 3])
    && (i + 4 < |s| ==> !ASCII.IsDigit(s[i + 4]))
  }

  /** What is written from `i` on, without separators. */
  function Unseparated(s: string, i: nat): string
    requires i <= |s|
    decreases |s| - i
  {
    if i == |s| then "" else (if Separates(s, i) then "" else [s[i]]) + Unseparated(s, i + 1)
  }

  /** The value of the first digits, and all that is written behind them: a fraction with its dot, say. */
  datatype Worth = Worth(whole: nat, rest: string)

  function WorthOf(run: string): Worth {
    var s := Unseparated(run, 0);
    var n := DigitCount(s);
    Worth(Number(ASCII, s[..n]), s[n..])
  }

  ghost predicate Proper(w: Worth) {
    w.rest != "" ==> !ASCII.IsDigit(w.rest[0])
  }

  /** The key that stands for a worth. */
  function Shown(w: Worth): string {
    if w.whole == 0 && w.rest != "" && w.rest[0] != '.' then w.rest else Decimal(w.whole) + w.rest
  }

  // ---- the key of a run ----

  lemma {:induction false} DropIs(s: string, i: nat)
    requires i <= |s|
    ensures DropCommas(s[i..]) == Unseparated(s, i)
    decreases |s| - i
  {
    if i < |s| {
      DropIs(s, i + 1);
      assert s[i..][1..] == s[i + 1..];
      ThreeFollow(s[i + 1..]);
    }
  }

  lemma ThreeFollow(s: string)
    ensures DigitCount(s) == 3 <==>
            |s| >= 3 && ASCII.IsDigit(s[0]) && ASCII.IsDigit(s[1]) && ASCII.IsDigit(s[2]) && (|s| > 3 ==> !ASCII.IsDigit(s[3]))
  {
  }

  lemma {:induction false} WholeBehind(d: string, rest: string)
    requires forall i :: 0 <= i < |d| ==> ASCII.IsDigit(d[i])
    ensures Whole(d + rest) == d + Whole(rest)
  {
    if d == "" {
      assert d + rest == rest;
    } else {
      assert (d + rest)[1..] == d[1..] + rest;
      WholeBehind(d[1..], rest);
    }
  }

  lemma {:induction false} StripBehind(d: string, rest: string)
    requires rest != "" && rest[0] != '0'
    ensures StripZeros(d + rest) == StripZeros(d) + rest
  {
    if d == "" {
      assert d + rest == rest;
    } else {
      assert (d + rest)[1..] == d[1..] + rest;
      StripBehind(d[1..], rest);
    }
  }

  /** Digits lose their leading zeros: what is left prints the same value, and nought leaves nothing. */
  lemma StripPrints(d: string)
    requires forall i :: 0 <= i < |d| ==> ASCII.IsDigit(d[i])
    ensures StripZeros(d) == if Number(ASCII, d) == 0 then "" else Decimal(Number(ASCII, d))
  {
    hide Number, Decimal;
    StripZerosIs(d);
    AsciiIsLawful();
    var e := StripZeros(d);
    Nought();
    if e != "" {
      CanonicalPositive(ASCII, e);
      CanonicalIsPrinted(ASCII, e);
    }
  }

  lemma {:induction false} WholeIsPrefix(s: string)
    ensures |Whole(s)| <= |s| && s[..|Whole(s)|] == Whole(s)
  {
    if s != "" && s[0] != '.' { WholeIsPrefix(s[1..]); }
  }

  /** The part before the dot and what the key keeps behind it are the whole. */
  lemma WholeAndRest(s: string)
    requires s == "" || s[|s| - 1] != '.'
    ensures |Whole(s)| <= |s| && Whole(s) + (if |Whole(s)| + 1 < |s| then s[|Whole(s)|..] else "") == s
  {
    WholeIsPrefix(s);
    WholeStops(s);
  }

  lemma {:induction false} WholeStops(s: string)
    ensures |Whole(s)| < |s| ==> s[|Whole(s)|] == '.'
  {
    if s != "" && s[0] != '.' { WholeStops(s[1..]); }
  }

  lemma {:induction false} DropKeepsLast(s: string)
    requires s != "" && s[|s| - 1] != ','
    ensures DropCommas(s) != "" && DropCommas(s)[|DropCommas(s)| - 1] == s[|s| - 1]
  {
    hide DigitCount;
    if |s| > 1 { DropKeepsLast(s[1..]); } else { assert s[1..] == ""; }
  }

  lemma {:induction false} RunEndsInDigit(s: string)
    requires Run(s)
    ensures s != "" && ASCII.IsDigit(s[|s| - 1])
  {
    var n := DigitCount(s);
    if n < |s| {
      RunEndsInDigit(s[n + 1..]);
      assert s[n + 1..][|s| - n - 2] == s[|s| - 1];
    }
  }

  lemma NoWhole(rest: string)
    requires rest == "" || rest[0] == '.'
    ensures Whole(rest) == ""
  {
  }

  /** Zeros in front of a comma that stays are dropped too. */
  lemma SplitAtComma(d: string, rest: string)
    requires rest != "" && rest[0] != '.' && !ASCII.IsDigit(rest[0])
    requires forall i :: 0 <= i < |d| ==> ASCII.IsDigit(d[i])
    ensures StripZeros(Whole(d + rest)) == StripZeros(d) + Whole(rest) && Whole(rest) != ""
  {
    WholeBehind(d, rest);
    assert Whole(rest)[0] == rest[0];
    AsciiDigit(rest[0]);
    StripBehind(d, Whole(rest));
  }

  /** The key of a run without separators, cut behind its first digits. */
  lemma KeyOfParts(run: string, d: string, rest: string)
    requires DropCommas(run) == d + rest && forall i :: 0 <= i < |d| ==> ASCII.IsDigit(d[i])
    requires rest != "" ==> !ASCII.IsDigit(rest[0]) && rest[|rest| - 1] != '.'
    ensures KeyOf(run) == (if StripZeros(d) == "" && !(rest != "" && rest[0] != '.') then "0" else StripZeros(d)) + rest
  {
    hide DropCommas, Whole, StripZeros;
    var s := d + rest;
    if rest != "" { assert s[|s| - 1] == rest[|rest| - 1]; } else { NoDot(d); }
    WholeBehind(d, rest);
    WholeAndRest(s);
    var whole := Whole(s);
    var tail := if |whole| + 1 < |s| then s[|whole|..] else "";
    if rest != "" && rest[0] != '.' {
      SplitAtComma(d, rest);
      WholeAndRest(rest);
      var after := if |Whole(rest)| + 1 < |rest| then rest[|Whole(rest)|..] else "";
      assert |whole| == |d| + |Whole(rest)| && s[|whole|..] == rest[|Whole(rest)|..];
      assert tail == after;
      Assoc(StripZeros(d), Whole(rest), after);
    } else {
      NoWhole(rest);
      assert whole == d && tail == rest by { assert d + rest == whole + tail; }
    }
  }

  lemma NoDot(d: string)
    requires forall i :: 0 <= i < |d| ==> ASCII.IsDigit(d[i])
    ensures d + "" == d && (d == "" || d[|d| - 1] != '.')
  {
    if d != "" { AsciiDigit(d[|d| - 1]); }
  }

  lemma FirstDigits(s: string)
    ensures var n := DigitCount(s);
            && n <= |s| && (forall i :: 0 <= i < n ==> ASCII.IsDigit(s[i])) && (n < |s| ==> !ASCII.IsDigit(s[n]))
  {
  }

  /** The key of every run shows its worth. */
  lemma KeyIsShown(run: string)
    requires Run(run)
    ensures KeyOf(run) == Shown(WorthOf(run)) && Proper(WorthOf(run))
  {
    hide DropCommas, StripZeros, Number, Decimal, Unseparated, Run, KeyOf, DigitCount;
    var s := DropCommas(run);
    FirstDigits(s);
    var n := DigitCount(s);
    var d, rest := s[..n], s[n..];
    DropIs(run, 0);
    assert run[0..] == run && s == d + rest;
    RunEndsInDigit(run);
    AsciiDigit(run[|run| - 1]);
    DropKeepsLast(run);
    if rest != "" { assert rest[|rest| - 1] == s[|s| - 1]; }
    KeyOfParts(run, d, rest);
    StripPrints(d);
    Nought();
  }

  // ---- keys tell worths apart ----

  lemma DigitsThen(d: string, rest: string)
    requires (forall i :: 0 <= i < |d| ==> ASCII.IsDigit(d[i])) && (rest != "" ==> !ASCII.IsDigit(rest[0]))
    ensures DigitCount(d + rest) == |d|
  {
    hide DigitCount;
    CountIs(d + rest, |d|);
  }

  lemma CountIs(s: string, n: nat)
    requires n <= |s| && (forall i :: 0 <= i < n ==> ASCII.IsDigit(s[i])) && (n < |s| ==> !ASCII.IsDigit(s[n]))
    ensures DigitCount(s) == n
  {
  }

  /** The digits a key begins with. */
  function Front(w: Worth): string {
    if w.whole == 0 && w.rest != "" && w.rest[0] != '.' then "" else Decimal(w.whole)
  }

  lemma ShownParts(w: Worth)
    requires Proper(w)
    ensures Shown(w) == Front(w) + w.rest && DigitCount(Shown(w)) == |Front(w)|
  {
    hide Decimal, DigitCount;
    forall i | 0 <= i < |Front(w)| ensures ASCII.IsDigit(Front(w)[i]) { AsciiDigit(Front(w)[i]); }
    assert "" + w.rest == w.rest;
    DigitsThen(Front(w), w.rest);
  }

  lemma ShownOnce(a: Worth, b: Worth)
    requires Proper(a) && Proper(b)
    ensures Shown(a) == Shown(b) <==> a == b
  {
    hide Shown, Decimal, DigitCount;
    if Shown(a) == Shown(b) {
      ShownParts(a);
      ShownParts(b);
      var s := Shown(a);
      assert Front(a) == s[..|Front(a)|] == s[..|Front(b)|] == Front(b);
      assert a.rest == s[|Front(a)|..] == s[|Front(b)|..] == b.rest;
      DecimalTwice(a.whole, b.whole);
    }
  }

  lemma DecimalTwice(m: nat, n: nat)
    ensures Decimal(m) == Decimal(n) <==> m == n
  {
    hide Decimal, Number;
    AsciiIsLawful();
    NumberOfDecimal(ASCII, m);
    NumberOfDecimal(ASCII, n);
  }

  /** Two numbers as the pattern finds them have the same key exactly when they are worth the same. */
  lemma KeysAreWorths(a: string, b: string)
    requires Run(a) && Run(b)
    ensures KeyOf(a) == KeyOf(b) <==> WorthOf(a) == WorthOf(b)
  {
    hide KeyOf, WorthOf, Shown, Run;
    KeyIsShown(a);
    KeyIsShown(b);
    ShownOnce(WorthOf(a), WorthOf(b));
  }

  // ---- numbers as people write them ----

  lemma {:induction false} GroupsRun(s: string)
    requires WholeNumber(s)
    ensures Run(s)
    decreases |s|
  {
    var n := DigitCount(s);
    if n < |s| {
      var rest := s[n..];
      ThreeDigits(rest);
      assert rest[1..] == s[n + 1..] && rest[1..][3..] == rest[4..];
      GroupsRun(rest[1..]);
    }
  }

  /** A whole number is worth its value. */
  lemma WholeWorth(w: string)
    requires WholeNumber(w)
    ensures Run(w) && AllAscii(NoCommas(w)) && NoCommas(w) != ""
    ensures WorthOf(w) == Worth(Number(ASCII, NoCommas(w)), "")
  {
    hide WholeNumber, DropCommas, NoCommas, Unseparated, Run, Groups, Number, DigitCount;
    GroupsRun(w);
    WholeParts(w);
    WholeDrops(w, DigitCount(w));
    DropIs(w, 0);
    var d := NoCommas(w);
    assert w[0..] == w && d + "" == d;
    DigitsThen(d, "");
    assert d[..|d|] == d && d[|d|..] == "";
  }

  ghost predicate AllAscii(s: string) {
    forall i :: 0 <= i < |s| ==> ASCII.IsDigit(s[i])
  }

  lemma WholeParts(w: string)
    requires WholeNumber(w)
    ensures var n := DigitCount(w);
            0 < n <= |w| && Groups(w[n..]) && forall i :: 0 <= i < n ==> ASCII.IsDigit(w[i])
  {
  }

  /** Dropping separators works on both sides of a dot by itself. */
  lemma {:induction false} DropAtDot(w: string, f: string)
    ensures DropCommas(w + "." + f) == DropCommas(w) + "." + DropCommas(f)
  {
    var s := w + "." + f;
    if w == "" {
      assert s[0] == '.' && s[1..] == f;
      assert DropCommas(s) == ['.'] + DropCommas(f);
    } else {
      assert s[1..] == w[1..] + "." + f;
      DropAtDot(w[1..], f);
      CountAtDot(w[1..], f);
      hide DigitCount;
      var head := if w[0] == ',' && DigitCount(w[1..]) == 3 then "" else [w[0]];
      assert DropCommas(s) == head + (DropCommas(w[1..]) + "." + DropCommas(f));
      Assoc(head, DropCommas(w[1..]), "." + DropCommas(f));
    }
  }

  lemma CountAtDot(w: string, f: string)
    ensures DigitCount(w + "." + f) == DigitCount(w)
  {
    var n := DigitCount(w);
    CountIs(w + "." + f, n);
  }

  lemma {:induction false} RunAtDot(w: string, f: string)
    requires Run(w) && Run(f)
    ensures Run(w + "." + f)
    decreases |w|
  {
    var n := DigitCount(w);
    var s := w + "." + f;
    CountAtDot(w, f);
    if n == |w| {
      assert s[n + 1..] == f;
    } else {
      RunAtDot(w[n + 1..], f);
      assert s[n + 1..] == w[n + 1..] + "." + f;
    }
  }

  /** A number with a fraction is worth the value before the dot and the digits behind it. */
  lemma DecimalWorth(w: string, f: string)
    requires WholeNumber(w) && WholeNumber(f)
    ensures Run(w + "." + f) && AllAscii(NoCommas(w)) && NoCommas(w) != "" && AllAscii(NoCommas(f)) && NoCommas(f) != ""
    ensures WorthOf(w + "." + f) == Worth(Number(ASCII, NoCommas(w)), "." + NoCommas(f))
  {
    hide WholeNumber, DropCommas, NoCommas, Unseparated, Run, Groups, Number, DigitCount;
    WholeWorth(w);
    WholeWorth(f);
    RunAtDot(w, f);
    WholeParts(w);
    WholeParts(f);
    WholeDrops(w, DigitCount(w));
    WholeDrops(f, DigitCount(f));
    DropAtDot(w, f);
    var s := w + "." + f;
    DropIs(s, 0);
    assert s[0..] == s;
    var d, rest := NoCommas(w), "." + NoCommas(f);
    assert d + "." + NoCommas(f) == d + rest;
    DigitsThen(d, rest);
    assert (d + rest)[..|d|] == d && (d + rest)[|d|..] == rest;
  }

  lemma PlainDecimal(ds: Digits, w: string, f: string)
    requires CommasStay(ds)
    ensures Plain(ds, w + "." + f) == Plain(ds, w) + "." + Plain(ds, f)
  {
  }

  /** A written whole number in some script has the digits of that script. */
  lemma WrittenWorth(ds: Digits, w: string)
    requires CommasStay(ds) && WholeNumber(Plain(ds, w)) && forall c :: '0' <= c <= '9' ==> ds.IsDigit(c)
    ensures (forall i :: 0 <= i < |NoCommas(w)| ==> ds.IsDigit(NoCommas(w)[i]))
    ensures NoCommas(Plain(ds, w)) == Plain(ds, NoCommas(w))
    ensures AllAscii(NoCommas(Plain(ds, w))) && Number(ASCII, NoCommas(Plain(ds, w))) == Value(ds, w)
  {
    hide WholeNumber, NoCommas, Number, Plain, KeyOf, Decimal;
    WrittenDigits(ds, w);
    WholeWorth(Plain(ds, w));
    PlainNoCommas(ds, w);
    PlainNumber(ds, NoCommas(w));
  }

  /**
   Two numbers with a fraction, each in any script, with leading zeros and with correct separators or
   none: their keys are the same exactly when the values before the dot are, and the digits behind it.
   No number with a fraction has the key of a whole number.
   */
  lemma DecimalsAgree(ds: Digits, w: string, f: string, v: string, g: string)
    requires CommasStay(ds) && forall c :: '0' <= c <= '9' ==> ds.IsDigit(c)
    requires WholeNumber(Plain(ds, w)) && WholeNumber(Plain(ds, f)) && WholeNumber(Plain(ds, v)) && WholeNumber(Plain(ds, g))
    ensures (forall i :: 0 <= i < |NoCommas(w)| ==> ds.IsDigit(NoCommas(w)[i]))
    ensures (forall i :: 0 <= i < |NoCommas(v)| ==> ds.IsDigit(NoCommas(v)[i]))
    ensures KeyOf(Plain(ds, w + "." + f)) == KeyOf(Plain(ds, v + "." + g))
            <==> Value(ds, w) == Value(ds, v) && Plain(ds, NoCommas(f)) == Plain(ds, NoCommas(g))
    ensures KeyOf(Plain(ds, w + "." + f)) != KeyOf(Plain(ds, v))
  {
    hide WholeNumber, NoCommas, Number, Plain, KeyOf, WorthOf, Run;
    PlainDecimal(ds, w, f);
    PlainDecimal(ds, v, g);
    WrittenWorth(ds, w);
    WrittenWorth(ds, f);
    WrittenWorth(ds, v);
    WrittenWorth(ds, g);
    var a, b := Plain(ds, NoCommas(f)), Plain(ds, NoCommas(g));
    DecimalWorth(Plain(ds, w), Plain(ds, f));
    DecimalWorth(Plain(ds, v), Plain(ds, g));
    WholeWorth(Plain(ds, v));
    KeysAreWorths(Plain(ds, w + "." + f), Plain(ds, v + "." + g));
    KeysAreWorths(Plain(ds, w + "." + f), Plain(ds, v));
    assert ("." + a)[1..] == a && ("." + b)[1..] == b;
  }

  // ---- texts ----

  lemma RunEndStep(s: string)
    ensures var n := DigitCount(s);
            RunEnd(s) == if n + 1 < |s| && s[n] in ".," && ASCII.IsDigit(s[n + 1]) then n + 1 + RunEnd(s[n + 1..]) else n
  {
    hide DigitCount;
  }

  lemma StartsInDigit(s: string)
    requires s != "" && ASCII.IsDigit(s[0])
    ensures DigitCount(s) > 0
  {
  }

  lemma DigitsAreRun(s: string)
    requires s != "" && DigitCount(s) == |s|
    ensures Run(s)
  {
  }

  lemma RunGoesOn(s: string, n: nat)
    requires 0 < n < |s| && (forall i :: 0 <= i < n ==> ASCII.IsDigit(s[i])) && !ASCII.IsDigit(s[n])
    requires s[n] in ".," && Run(s[n + 1..])
    ensures Run(s)
  {
    CountIs(s, n);
    hide DigitCount;
  }

  lemma {:induction false} RunEndIsRun(s: string)
    requires DigitCount(s) > 0
    ensures Run(s[..RunEnd(s)])
    ensures RunEnd(s) < |s| ==> !ASCII.IsDigit(s[RunEnd(s)])
    ensures RunEnd(s) + 1 < |s| && s[RunEnd(s)] in ".," ==> !ASCII.IsDigit(s[RunEnd(s) + 1])
    decreases |s|
  {
    hide Run, RunEnd, DigitCount;
    var n := DigitCount(s);
    FirstDigits(s);
    RunEndStep(s);
    if n + 1 < |s| && s[n] in ".," && ASCII.IsDigit(s[n + 1]) {
      var rest := s[n + 1..];
      StartsInDigit(rest);
      RunEndIsRun(rest);
      var e := RunEnd(rest);
      assert s[..n + 1 + e][n + 1..] == rest[..e];
      RunGoesOn(s[..n + 1 + e], n);
      if e < |rest| { assert rest[e] == s[n + 1 + e]; }
      if e + 1 < |rest| { assert rest[e + 1] == s[n + 2 + e]; }
    } else {
      CountIs(s[..n], n);
      DigitsAreRun(s[..n]);
    }
  }

  ghost predicate AllRuns(runs: seq<string>) {
    forall i :: 0 <= i < |runs| ==> Run(runs[i])
  }

  lemma {:induction false} RunsAreRuns(s: string, glued: bool)
    ensures AllRuns(Runs(s, glued))
    decreases |s|
  {
    if s != "" {
      hide Run;
      if !glued && ASCII.IsDigit(s[0]) {
        RunEndIsRun(s);
        RunsAreRuns(s[RunEnd(s)..], true);
      } else {
        RunsAreRuns(s[1..], Glues(s[0]));
      }
    }
  }

  /** What numbers are worth, each as often as it is written. */
  function AllWorths(runs: seq<string>): multiset<Worth> {
    if runs == [] then multiset{} else AllWorths(runs[..|runs| - 1]) + multiset{WorthOf(runs[|runs| - 1])}
  }

  /** What the numbers of a text are worth. */
  function WorthsIn(ds: Digits, text: string): multiset<Worth> {
    AllWorths(RunsOf(ds, text))
  }

  /** A worth occurs as often as its key. */
  lemma {:induction false} KeysCount(runs: seq<string>, w: Worth)
    requires AllRuns(runs) && Proper(w)
    ensures Keys(runs)[Shown(w)] == AllWorths(runs)[w]
  {
    hide Shown, KeyOf, WorthOf, Run;
    if runs != [] {
      var init, run := runs[..|runs| - 1], runs[|runs| - 1];
      KeysCount(init, w);
      KeyIsShown(run);
      ShownOnce(w, WorthOf(run));
    }
  }

  /** There are no other keys, and no other worths. */
  lemma {:induction false} KeyHasWorth(runs: seq<string>, key: string) returns (w: Worth)
    requires AllRuns(runs) && key in Keys(runs)
    ensures key == Shown(w) && Proper(w)
  {
    hide Shown, KeyOf, WorthOf, Run;
    var init, run := runs[..|runs| - 1], runs[|runs| - 1];
    KeyIsShown(run);
    if key == KeyOf(run) { w := WorthOf(run); } else { w := KeyHasWorth(init, key); }
  }

  lemma {:induction false} WorthsProper(runs: seq<string>, w: Worth)
    requires AllRuns(runs) && w in AllWorths(runs)
    ensures Proper(w)
  {
    hide KeyOf, WorthOf, Run;
    var init, run := runs[..|runs| - 1], runs[|runs| - 1];
    KeyIsShown(run);
    if w != WorthOf(run) { WorthsProper(init, w); }
  }

  /**
   Texts in any script, times on the hour counted as their hour, have the same numbers by key if and
   only if their numbers are worth the same, each as often; and one has all numbers of the other by
   key if and only if it has them by worth.
   */
  lemma TextsAgreeByWorth(ds: Digits, a: string, b: string)
    ensures Numbers(ds, a) == Numbers(ds, b) <==> WorthsIn(ds, a) == WorthsIn(ds, b)
    ensures Numbers(ds, a) <= Numbers(ds, b) <==> WorthsIn(ds, a) <= WorthsIn(ds, b)
  {
    TextRuns(ds, a);
    TextRuns(ds, b);
    RunsWithin(RunsOf(ds, a), RunsOf(ds, b));
    RunsWithin(RunsOf(ds, b), RunsOf(ds, a));
    Antisymmetric(Numbers(ds, a), Numbers(ds, b));
    Antisymmetric(WorthsIn(ds, a), WorthsIn(ds, b));
  }

  lemma Antisymmetric<T>(a: multiset<T>, b: multiset<T>)
    ensures a == b <==> a <= b && b <= a
  {
    if a <= b && b <= a {
      forall x ensures a[x] == b[x] {}
    }
  }

  lemma TextRuns(ds: Digits, text: string)
    ensures AllRuns(RunsOf(ds, text))
  {
    RunsAreRuns(OnTheHour(Plain(ds, text), false), false);
  }

  lemma RunsWithin(x: seq<string>, y: seq<string>)
    requires AllRuns(x) && AllRuns(y)
    ensures Keys(x) <= Keys(y) <==> AllWorths(x) <= AllWorths(y)
  {
    hide Keys, AllWorths, Shown, Proper, Run;
    if AllWorths(x) <= AllWorths(y) {
      forall key ensures Keys(x)[key] <= Keys(y)[key] {
        if key in Keys(x) {
          var w := KeyHasWorth(x, key);
          KeysCount(x, w);
          KeysCount(y, w);
        }
      }
    }
    if Keys(x) <= Keys(y) {
      forall w ensures AllWorths(x)[w] <= AllWorths(y)[w] {
        if w in AllWorths(x) {
          WorthsProper(x, w);
          KeysCount(x, w);
          KeysCount(y, w);
        }
      }
    }
  }
}
