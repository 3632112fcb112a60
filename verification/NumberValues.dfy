/** Numbers compared by value: the key two spellings of a number share, whatever the script. */
module NumberValues {
  import opened Wrappers
  import opened Patterns
  import opened Wire

  /** Every decimal digit as its ASCII digit. */
  function Plain(ds: Digits, text: string): (r: string)
    ensures |r| == |text|
    ensures forall i :: 0 <= i < |text| ==> r[i] == if ds.IsDigit(text[i]) then DigitChar(ds.value(text[i])) else text[i]
  {
    seq(|text|, i requires 0 <= i < |text| => if ds.IsDigit(text[i]) then DigitChar(ds.value(text[i])) else text[i])
  }

  /** A numeric character that is no decimal digit, a fraction say, has no comparable value. */
  predicate Comparable(ds: Digits, numeric: char -> bool, text: string) {
    forall i :: 0 <= i < |text| ==> ds.IsDigit(text[i]) || !numeric(text[i])
  }

  method ToPlain(ds: Digits, numeric: char -> bool, text: string) returns (r: Result<string, char>)
    ensures r.Ok? <==> Comparable(ds, numeric, text)
    ensures r.Ok? ==> r.value == Plain(ds, text)
    ensures r.Err? ==> r.error in text && numeric(r.error) && !ds.IsDigit(r.error)
  {
    var plain := "";
    for i := 0 to |text|
      invariant Comparable(ds, numeric, text[..i]) && plain == Plain(ds, text[..i])
    {
      var ch := text[i];
      if ds.IsDigit(ch) {
        plain := plain + [DigitChar(ds.value(ch))];
      } else if numeric(ch) {
        return Err(ch);
      } else {
        plain := plain + [ch];
      }
      assert text[..i + 1] == text[..i] + [ch];
    }
    assert text[..|text|] == text;
    r := Ok(plain);
  }

  function DigitCount(s: string): nat {
    PrefixCount((c: char) => ASCII.IsDigit(c), s)
  }

  /** Thousands separators dropped: a comma goes when exactly three digits follow it. */
  function DropCommas(s: string): string {
    if s == "" then ""
    else (if s[0] == ',' && DigitCount(s[1..]) == 3 then "" else [s[0]]) + DropCommas(s[1..])
  }

  /** The part before the first dot. */
  function Whole(s: string): string {
    if s == "" || s[0] == '.' then "" else [s[0]] + Whole(s[1..])
  }

  function StripZeros(s: string): string {
    if s != "" && s[0] == '0' then StripZeros(s[1..]) else s
  }

  /** The key of one number, in ASCII digits: no separators, no leading zeros, the fraction as it is. */
  function KeyOf(number: string): string {
    var run := DropCommas(number);
    var whole := Whole(run);
    var digits := StripZeros(whole);
    (if digits == "" then "0" else digits) + (if |whole| + 1 < |run| then run[|whole|..] else "")
  }

  // ---- whole numbers ----

  /** Groups of three digits, each behind a comma. */
  predicate Groups(s: string) {
    s == "" || (|s| >= 4 && s[0] == ',' && ASCII.IsDigit(s[1]) && ASCII.IsDigit(s[2]) && ASCII.IsDigit(s[3]) && Groups(s[4..]))
  }

  /** Digits, leading zeros allowed, with correct thousands separators or none. */
  predicate WholeNumber(s: string) {
    var n := DigitCount(s); n > 0 && Groups(s[n..])
  }

  function NoCommas(s: string): string {
    if s == "" then "" else (if s[0] == ',' then "" else [s[0]]) + NoCommas(s[1..])
  }

  /** Separators are the only commas, and each is dropped. */
  lemma {:induction false} GroupsDrop(s: string)
    requires Groups(s)
    ensures DropCommas(s) == NoCommas(s) && forall i :: 0 <= i < |NoCommas(s)| ==> ASCII.IsDigit(NoCommas(s)[i])
  {
    if s != "" {
      GroupsDrop(s[4..]);
      ThreeDigits(s);
      assert s[1..][1..] == s[2..] && s[2..][1..] == s[3..] && s[3..][1..] == s[4..];
      DropDigit(s[1..]);
      DropDigit(s[2..]);
      DropDigit(s[3..]);
      hide DigitCount;
      assert DropCommas(s) == "" + DropCommas(s[1..]) && NoCommas(s) == "" + NoCommas(s[1..]);
    }
  }

  lemma ThreeDigits(s: string)
    requires s != "" && Groups(s)
    ensures DigitCount(s[1..]) == 3
  {
    assert s[1..][1..] == s[2..] && s[2..][1..] == s[3..] && s[3..][1..] == s[4..];
    assert DigitCount(s[4..]) == 0;
    assert DigitCount(s[3..]) == 1;
    assert DigitCount(s[2..]) == 2;
  }

  lemma DropDigit(s: string)
    requires s != "" && ASCII.IsDigit(s[0])
    ensures DropCommas(s) == [s[0]] + DropCommas(s[1..]) && NoCommas(s) == [s[0]] + NoCommas(s[1..])
  {
  }

  lemma {:induction false} WholeDrops(s: string, n: nat)
    requires n <= |s| && Groups(s[n..]) && forall i :: 0 <= i < n ==> ASCII.IsDigit(s[i])
    ensures DropCommas(s) == NoCommas(s) && |NoCommas(s)| >= n
    ensures forall i :: 0 <= i < |NoCommas(s)| ==> ASCII.IsDigit(NoCommas(s)[i])
  {
    hide DropCommas, NoCommas, Groups, DigitCount;
    if n == 0 {
      assert s[0..] == s;
      GroupsDrop(s);
    } else {
      assert s[1..][n - 1..] == s[n..];
      WholeDrops(s[1..], n - 1);
      DropDigit(s);
    }
  }

  lemma {:induction false} WholeOfDigits(s: string)
    requires forall i :: 0 <= i < |s| ==> ASCII.IsDigit(s[i])
    ensures Whole(s) == s
  {
    if s != "" { WholeOfDigits(s[1..]); }
  }

  lemma {:induction false} NumberDropsZero(s: string)
    requires s != "" && s[0] == '0' && forall i :: 0 <= i < |s| ==> ASCII.IsDigit(s[i])
    ensures Number(ASCII, s) == Number(ASCII, s[1..])
  {
    var n := |s| - 1;
    if n == 0 {
      assert s[..0] == "" && s[1..] == "" && ASCII.value('0') == 0;
    } else {
      NumberDropsZero(s[..n]);
      assert s[..n][1..] == s[1..][..n - 1] && s[1..][n - 1] == s[n];
    }
  }

  /** Stripping leading zeros gives the canonical digits of the same number, or nothing for nought. */
  lemma {:induction false} StripZerosIs(s: string)
    requires forall i :: 0 <= i < |s| ==> ASCII.IsDigit(s[i])
    ensures var d := StripZeros(s);
            && (forall i :: 0 <= i < |d| ==> ASCII.IsDigit(d[i])) && Number(ASCII, d) == Number(ASCII, s)
            && (d != "" ==> d[0] != '0')
  {
    if s != "" && s[0] == '0' {
      NumberDropsZero(s);
      StripZerosIs(s[1..]);
    }
  }

  lemma AsciiDigit(c: char)
    ensures ASCII.IsDigit(c) <==> '0' <= c <= '9'
  {
  }

  /** The key of a whole number is its value in plain decimal. */
  lemma KeyIsValue(s: string)
    requires WholeNumber(s)
    ensures forall i :: 0 <= i < |NoCommas(s)| ==> ASCII.IsDigit(NoCommas(s)[i])
    ensures KeyOf(s) == Decimal(Number(ASCII, NoCommas(s)))
  {
    hide Number, Decimal;
    var run := NoCommas(s);
    WholeDrops(s, DigitCount(s));
    WholeOfDigits(run);
    StripZerosIs(run);
    var d := StripZeros(run);
    forall i | 0 <= i < |d| ensures '0' <= d[i] <= '9' { AsciiDigit(d[i]); }
    AsciiIsLawful();
    if d == "" {
      Nought();
    } else {
      CanonicalIsPrinted(ASCII, d);
    }
    assert KeyOf(s) == (if d == "" then "0" else d) + "";
  }

  lemma Nought()
    ensures Number(ASCII, "") == 0 && Decimal(0) == "0"
  {
  }

  // ---- any script ----

  lemma {:induction false} PlainNumber(ds: Digits, s: string)
    requires forall i :: 0 <= i < |s| ==> ds.IsDigit(s[i])
    ensures forall i :: 0 <= i < |Plain(ds, s)| ==> ASCII.IsDigit(Plain(ds, s)[i])
    ensures Number(ASCII, Plain(ds, s)) == Number(ds, s)
  {
    forall i | 0 <= i < |s| ensures ASCII.value(Plain(ds, s)[i]) == ds.value(s[i]) {
      assert ds.IsDigit(s[i]);
    }
    if s != "" {
      var n := |s| - 1;
      PlainNumber(ds, s[..n]);
      assert Plain(ds, s)[..n] == Plain(ds, s[..n]);
    }
  }

  /** Commas and dots are no digits, so they stay as they are. */
  ghost predicate CommasStay(ds: Digits) {
    !ds.IsDigit(',') && !ds.IsDigit('.')
  }

  lemma PlainConcat(ds: Digits, a: string, b: string)
    ensures Plain(ds, a + b) == Plain(ds, a) + Plain(ds, b)
  {
  }

  lemma PlainOne(ds: Digits, c: char)
    requires CommasStay(ds)
    ensures |Plain(ds, [c])| == 1 && (Plain(ds, [c])[0] == ',' <==> c == ',')
  {
  }

  lemma {:induction false} PlainNoCommas(ds: Digits, s: string)
    requires CommasStay(ds)
    ensures NoCommas(Plain(ds, s)) == Plain(ds, NoCommas(s))
  {
    if s != "" {
      assert s == [s[0]] + s[1..];
      PlainConcat(ds, [s[0]], s[1..]);
      PlainOne(ds, s[0]);
      PlainNoCommas(ds, s[1..]);
      hide Plain;
      var first := Plain(ds, [s[0]]);
      assert Plain(ds, s)[0] == first[0] && Plain(ds, s)[1..] == Plain(ds, s[1..]);
      assert [first[0]] == first;
      if s[0] != ',' { PlainConcat(ds, [s[0]], NoCommas(s[1..])); }
    }
  }

  /** The value of a written number: its digits, in their script, read as one number. */
  function Value(ds: Digits, s: string): nat
    requires forall i :: 0 <= i < |NoCommas(s)| ==> ds.IsDigit(NoCommas(s)[i])
  {
    Number(ds, NoCommas(s))
  }

  lemma {:induction false} WrittenDigits(ds: Digits, s: string)
    requires CommasStay(ds) && WholeNumber(Plain(ds, s)) && forall c :: '0' <= c <= '9' ==> ds.IsDigit(c)
    ensures forall i :: 0 <= i < |NoCommas(s)| ==> ds.IsDigit(NoCommas(s)[i])
    ensures KeyOf(Plain(ds, s)) == Decimal(Value(ds, s))
  {
    hide KeyOf, Number, Decimal, WholeNumber, NoCommas;
    var d := NoCommas(s);
    KeyIsValue(Plain(ds, s));
    PlainNoCommas(ds, s);
    forall i | 0 <= i < |d| ensures ds.IsDigit(d[i]) {
      assert ASCII.IsDigit(Plain(ds, d)[i]);
      AsciiDigit(Plain(ds, d)[i]);
    }
    PlainNumber(ds, d);
  }

  /**
   Two whole numbers, each in any script, with any leading zeros and with thousands separators or
   without, have the same key exactly when they have the same value.
   */
  lemma KeysAreValues(ds: Digits, a: string, b: string)
    requires CommasStay(ds) && forall c :: '0' <= c <= '9' ==> ds.IsDigit(c)
    requires WholeNumber(Plain(ds, a)) && WholeNumber(Plain(ds, b))
    ensures forall i :: 0 <= i < |NoCommas(a)| ==> ds.IsDigit(NoCommas(a)[i])
    ensures forall i :: 0 <= i < |NoCommas(b)| ==> ds.IsDigit(NoCommas(b)[i])
    ensures KeyOf(Plain(ds, a)) == KeyOf(Plain(ds, b)) <==> Value(ds, a) == Value(ds, b)
  {
    hide KeyOf, Number, Decimal, WholeNumber, NoCommas;
    WrittenDigits(ds, a);
    WrittenDigits(ds, b);
    AsciiIsLawful();
    NumberOfDecimal(ASCII, Value(ds, a));
    NumberOfDecimal(ASCII, Value(ds, b));
  }

  // ---- the numbers of a text ----

  /** A time on the hour counts as its hour: how many digits stand before ":00" here, nought for none. */
  function HourLength(s: string): (n: nat)
    ensures n > 0 ==> n + 3 <= |s|
  {
    var n := DigitCount(s);
    if 1 <= n <= 2 && n + 3 <= |s| && s[n..n + 3] == ":00"
       && (n + 3 < |s| ==> !ASCII.IsDigit(s[n + 3]) && s[n + 3] != ':')
    then n else 0
  }

  function OnTheHour(s: string, glued: bool): string
    decreases |s|
  {
    if s == "" then ""
    else if !glued && HourLength(s) > 0 then s[..HourLength(s)] + OnTheHour(s[HourLength(s) + 3..], true)
    else [s[0]] + OnTheHour(s[1..], ASCII.IsDigit(s[0]) || s[0] == ':')
  }

  /** Where a number that starts here ends: digits, and separators with digits behind them. */
  function RunEnd(s: string): (n: nat)
    ensures DigitCount(s) <= n <= |s|
    decreases |s|
  {
    var n := DigitCount(s);
    if n + 1 < |s| && s[n] in ".," && ASCII.IsDigit(s[n + 1]) then n + 1 + RunEnd(s[n + 1..]) else n
  }

  predicate Glues(c: char) {
    AsciiUpper(c) || AsciiLower(c) || ASCII.IsDigit(c)
  }

  /** The numbers written in a text: a digit behind a Latin letter is part of a name. */
  function Runs(s: string, glued: bool): seq<string>
    decreases |s|
  {
    if s == "" then []
    else if !glued && ASCII.IsDigit(s[0]) then
      assert DigitCount(s) > 0;
      [s[..RunEnd(s)]] + Runs(s[RunEnd(s)..], true)
    else Runs(s[1..], Glues(s[0]))
  }

  function Keys(runs: seq<string>): multiset<string> {
    if runs == [] then multiset{} else Keys(runs[..|runs| - 1]) + multiset{KeyOf(runs[|runs| - 1])}
  }

  function RunsOf(ds: Digits, text: string): seq<string> {
    Runs(OnTheHour(Plain(ds, text), false), false)
  }

  /** The numbers of a text, by key. */
  function Numbers(ds: Digits, text: string): multiset<string> {
    Keys(RunsOf(ds, text))
  }

  method CountNumbers(ds: Digits, numeric: char -> bool, text: string) returns (r: Result<multiset<string>, char>)
    ensures r.Ok? <==> Comparable(ds, numeric, text)
    ensures r.Ok? ==> r.value == Numbers(ds, text)
    ensures r.Err? ==> r.error in text && numeric(r.error) && !ds.IsDigit(r.error)
  {
    var plain := ToPlain(ds, numeric, text);
    if plain.Err? {
      return Err(plain.error);
    }
    var runs := Runs(OnTheHour(plain.value, false), false);
    var values: multiset<string> := multiset{};
    for i := 0 to |runs|
      invariant values == Keys(runs[..i])
    {
      assert runs[..i + 1][..i] == runs[..i];
      values := values + multiset{KeyOf(runs[i])};
    }
    assert runs[..|runs|] == runs;
    r := Ok(values);
  }

  // ---- texts without digits ----

  ghost predicate DigitFree(s: string) {
    forall i :: 0 <= i < |s| ==> !ASCII.IsDigit(s[i])
  }

  lemma {:induction false} HourNeedsDigit(s: string, glued: bool)
    requires DigitFree(s)
    ensures OnTheHour(s, glued) == s
  {
    if s != "" { HourNeedsDigit(s[1..], s[0] == ':'); }
  }

  lemma {:induction false} RunNeedsDigit(s: string, glued: bool)
    requires DigitFree(s)
    ensures Runs(s, glued) == []
  {
    if s != "" { RunNeedsDigit(s[1..], Glues(s[0])); }
  }

  /** A text without a numeric character has no numbers. */
  lemma NoNumbers(ds: Digits, text: string)
    requires forall i :: 0 <= i < |text| ==> !ds.IsDigit(text[i])
    requires forall c :: '0' <= c <= '9' ==> ds.IsDigit(c)
    ensures Numbers(ds, text) == multiset{}
  {
    assert Plain(ds, text) == text;
    forall i | 0 <= i < |text| ensures !ASCII.IsDigit(text[i]) { AsciiDigit(text[i]); }
    HourNeedsDigit(text, false);
    RunNeedsDigit(text, false);
  }
}
