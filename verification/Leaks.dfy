/** The leak scan: an answer's own text must have the numbers of its source, by value, and no address. */
module Leaks {
  import opened Wire
  import opened NumberValues
  import opened Worths
  import opened NumberPlaces

  /** A scan lets model text pass, objects to it, or fails on a source it cannot compare. */
  datatype Scan = Passes | Objects | Fails

  /** The verdict on model text, given the source's text. */
  type LeakScan = (string, string) -> Scan

  /** What the scan takes from Unicode and from regular expressions. */
  datatype Tables = Tables(ds: Digits, numeric: char -> bool, address: string -> bool, months: string -> multiset<string>)
  {
    /** Every decimal digit is a numeric character, and ASCII digits are decimal. */
    ghost predicate Lawful() {
      (forall c :: ds.IsDigit(c) ==> numeric(c)) && forall c :: '0' <= c <= '9' ==> ds.IsDigit(c)
    }
  }

  predicate HasNumeral(tb: Tables, text: string) {
    exists i :: 0 <= i < |text| && tb.numeric(text[i])
  }

  /** Lost numbers, new ones that are no month of the source's dates, or an address. */
  method NumberLeak(tb: Tables, output: string, source: string) returns (r: Scan)
    ensures r == Scanned(tb)(output, source)
  {
    hide Numbers, Comparable;
    var allowed := CountNumbers(tb.ds, tb.numeric, source);
    if allowed.Err? {
      return Fails;
    }
    if allowed.value == multiset{} {
      return if HasNumeral(tb, output) || tb.address(output) then Objects else Passes;
    }
    var got := CountNumbers(tb.ds, tb.numeric, output);
    if got.Err? {
      return Objects;
    }
    var lost := allowed.value - got.value;
    var extra := got.value - allowed.value - tb.months(source);
    NothingOver(allowed.value, got.value);
    NothingOver(got.value, allowed.value + tb.months(source));
    TakenTwice(got.value, allowed.value, tb.months(source));
    r := if lost != multiset{} || extra != multiset{} || tb.address(output) then Objects else Passes;
  }

  lemma NothingOver(a: multiset<string>, b: multiset<string>)
    ensures a - b == multiset{} <==> a <= b
  {
    if a - b == multiset{} {
      forall x ensures a[x] <= b[x] { assert (a - b)[x] == 0; }
    }
  }

  lemma TakenTwice(a: multiset<string>, b: multiset<string>, c: multiset<string>)
    ensures a - b - c == a - (b + c)
  {
  }

  function Scanned(tb: Tables): LeakScan {
    (output: string, source: string) =>
      if !Comparable(tb.ds, tb.numeric, source) then Fails
      else if tb.address(output) then Objects
      else if Numbers(tb.ds, source) == multiset{} then (if HasNumeral(tb, output) then Objects else Passes)
      else if Comparable(tb.ds, tb.numeric, output)
              && Numbers(tb.ds, source) <= Numbers(tb.ds, output) <= Numbers(tb.ds, source) + tb.months(source)
      then Passes else Objects
  }

  /** Without a number in the source, text that passes has no numeral at all. */
  lemma NothingLetThrough(tb: Tables, output: string)
    requires tb.Lawful() && !HasNumeral(tb, output)
    ensures Comparable(tb.ds, tb.numeric, output) && Numbers(tb.ds, output) == multiset{}
  {
    NoNumbers(tb.ds, output);
  }

  /**
   Text that passes has each of the source's numbers, by value, at least as often as the source, and
   no other but, possibly, numbers of months in the source's dates.  It has no address.
   */
  lemma PassedCarriesItsNumbers(tb: Tables, output: string, source: string)
    requires tb.Lawful() && Scanned(tb)(output, source) == Passes
    ensures Comparable(tb.ds, tb.numeric, source) && Comparable(tb.ds, tb.numeric, output) && !tb.address(output)
    ensures Numbers(tb.ds, source) <= Numbers(tb.ds, output) <= Numbers(tb.ds, source) + tb.months(source)
    ensures Numbers(tb.ds, source) == multiset{} || tb.months(source) == multiset{}
            ==> Numbers(tb.ds, output) == Numbers(tb.ds, source)
  {
    if Numbers(tb.ds, source) == multiset{} {
      NothingLetThrough(tb, output);
    }
  }

  /** The source's own text passes if and only if its numerals can be compared, are numbers, and it has no address. */
  lemma OwnTextPasses(tb: Tables, text: string)
    ensures Scanned(tb)(text, text) == Passes
            <==> Comparable(tb.ds, tb.numeric, text) && !tb.address(text)
                 && (Numbers(tb.ds, text) == multiset{} ==> !HasNumeral(tb, text))
    ensures Scanned(tb)(text, text) == Fails <==> !Comparable(tb.ds, tb.numeric, text)
  {
  }

  lemma NoWorths(ds: Digits, text: string)
    ensures Numbers(ds, text) == multiset{} <==> WorthsIn(ds, text) == multiset{}
  {
    hide KeyOf, WorthOf;
    var runs := RunsOf(ds, text);
    if runs != [] {
      assert KeyOf(runs[|runs| - 1]) in Keys(runs) && WorthOf(runs[|runs| - 1]) in AllWorths(runs);
    }
  }

  /** Beyond the numbers of the source, an answer has numbers of months only. */
  ghost predicate OnlyMonthsAdded(tb: Tables, output: string, source: string) {
    forall w :: w in WorthsIn(tb.ds, output) ==>
      WorthsIn(tb.ds, output)[w] <= WorthsIn(tb.ds, source)[w] + tb.months(source)[Shown(w)]
  }

  lemma MonthsByWorth(tb: Tables, output: string, source: string)
    ensures Numbers(tb.ds, output) <= Numbers(tb.ds, source) + tb.months(source) <==> OnlyMonthsAdded(tb, output, source)
  {
    hide Keys, AllWorths, Shown, Proper, Run, RunsOf;
    var x, y := RunsOf(tb.ds, output), RunsOf(tb.ds, source);
    TextRuns(tb.ds, output);
    TextRuns(tb.ds, source);
    if OnlyMonthsAdded(tb, output, source) {
      forall key ensures Keys(x)[key] <= Keys(y)[key] + tb.months(source)[key] {
        if key in Keys(x) {
          var w := KeyHasWorth(x, key);
          KeysCount(x, w);
          KeysCount(y, w);
        }
      }
    }
    if Keys(x) <= Keys(y) + tb.months(source) {
      forall w | w in AllWorths(x) ensures AllWorths(x)[w] <= AllWorths(y)[w] + tb.months(source)[Shown(w)] {
        WorthsProper(x, w);
        KeysCount(x, w);
        KeysCount(y, w);
      }
    }
  }

  /** When text passes, in what its numbers are worth. */
  lemma PassesIff(tb: Tables, output: string, source: string)
    ensures var shown, said := WorthsIn(tb.ds, source), WorthsIn(tb.ds, output);
            Scanned(tb)(output, source) == Passes
            <==> Comparable(tb.ds, tb.numeric, source) && !tb.address(output)
                 && if shown == multiset{} then !HasNumeral(tb, output)
                    else Comparable(tb.ds, tb.numeric, output) && shown <= said && OnlyMonthsAdded(tb, output, source)
    ensures Scanned(tb)(output, source) == Fails <==> !Comparable(tb.ds, tb.numeric, source)
  {
    hide Numbers, WorthsIn, Comparable, HasNumeral, OnlyMonthsAdded;
    NoWorths(tb.ds, source);
    MonthsByWorth(tb, output, source);
    TextsAgreeByWorth(tb.ds, source, output);
  }

  /** Text that passes has each of the source's numbers, in what they are worth, and no others but months. */
  lemma PassedIsWorthTheSame(tb: Tables, output: string, source: string)
    requires tb.Lawful() && Scanned(tb)(output, source) == Passes
    ensures WorthsIn(tb.ds, source) <= WorthsIn(tb.ds, output) && OnlyMonthsAdded(tb, output, source)
    ensures WorthsIn(tb.ds, source) == multiset{} || tb.months(source) == multiset{}
            ==> WorthsIn(tb.ds, output) == WorthsIn(tb.ds, source)
  {
    hide Numbers, WorthsIn, OnlyMonthsAdded, Comparable, HasNumeral;
    PassedCarriesItsNumbers(tb, output, source);
    NoWorths(tb.ds, source);
    MonthsByWorth(tb, output, source);
    TextsAgreeByWorth(tb.ds, source, output);
    TextsAgreeByWorth(tb.ds, output, source);
  }

  /** Where source and answer are one number each, the answer passes exactly when it is worth the same. */
  lemma LoneNumberPasses(tb: Tables, output: string, source: string)
    requires Run(Plain(tb.ds, source)) && Run(Plain(tb.ds, output))
    requires tb.months(source) == multiset{} && !tb.address(output)
    requires Comparable(tb.ds, tb.numeric, source) && Comparable(tb.ds, tb.numeric, output)
    ensures Scanned(tb)(output, source) == Passes <==> WorthOf(Plain(tb.ds, output)) == WorthOf(Plain(tb.ds, source))
  {
    hide Run, KeyOf, WorthOf, Comparable, HasNumeral, RunsOf, Plain;
    var a, b := Plain(tb.ds, source), Plain(tb.ds, output);
    LoneNumber(tb.ds, source);
    LoneNumber(tb.ds, output);
    assert [a][..0] == [] && [b][..0] == [];
    assert Keys([a]) == Keys([]) + multiset{KeyOf(a)} && Keys([b]) == Keys([]) + multiset{KeyOf(b)};
    assert Numbers(tb.ds, source)[KeyOf(a)] == 1 && Numbers(tb.ds, output)[KeyOf(b)] == 1;
    KeysAreWorths(a, b);
  }

  /** A fraction that is lost is not let through. */
  lemma LostFractionIsRefused(tb: Tables)
    requires tb.Lawful() && tb.ds.Lawful() && CommasStay(tb.ds) && !tb.numeric('.')
    requires tb.months("12.5") == multiset{} && !tb.address("12")
    ensures Scanned(tb)("12", "12.5") == Objects
  {
    assert DigitChar(1) == '1' && DigitChar(2) == '2' && DigitChar(5) == '5';
    assert Plain(tb.ds, "12") == "12" && Plain(tb.ds, "12.5") == "12.5";
    assert Comparable(tb.ds, tb.numeric, "12.5") && Comparable(tb.ds, tb.numeric, "12");
    TwelveAndAHalf();
    hide Run, WorthOf, Plain, Comparable, Numbers, HasNumeral;
    LoneNumberPasses(tb, "12", "12.5");
  }

  lemma TwelveAndAHalf()
    ensures Run("12") && Run("12.5") && WorthOf("12") != WorthOf("12.5")
  {
    CountIs("12", 2);
    CountIs("5", 1);
    assert WholeNumber("12") && WholeNumber("5");
    hide WholeNumber, Run, WorthOf, NoCommas, Unseparated;
    assert "12" + "." + "5" == "12.5";
    WholeWorth("12");
    DecimalWorth("12", "5");
  }

  /** A digit in a name is no number, so where there are no others the scan objects to it. */
  lemma NamedDigitIsRefused(tb: Tables)
    requires tb.Lawful() && tb.ds.Lawful() && !tb.numeric('G') && !tb.numeric('C') && !tb.address("G2C")
    ensures Scanned(tb)("G2C", "G2C") == Objects
  {
    hide RunsOf;
    var text := "G2C";
    PlainName(tb);
    assert Keys([]) == multiset{};
    NamedDigit();
    SamePlain(tb.ds, ASCII, text);
    assert Numbers(tb.ds, text) == multiset{};
    assert text[1] == '2' && tb.ds.IsDigit('2');
    assert HasNumeral(tb, text) && Comparable(tb.ds, tb.numeric, text);
    hide HasNumeral, Comparable, Numbers;
    OwnTextPasses(tb, text);
  }

  /** The numbers of a text depend on its plain form only. */
  lemma SamePlain(ds: Digits, other: Digits, text: string)
    requires Plain(ds, text) == Plain(other, text)
    ensures RunsOf(ds, text) == RunsOf(other, text)
  {
  }

  lemma PlainName(tb: Tables)
    requires tb.Lawful() && tb.ds.Lawful() && !tb.numeric('G') && !tb.numeric('C')
    ensures Plain(tb.ds, "G2C") == "G2C" == Plain(ASCII, "G2C")
  {
    assert DigitChar(2) == '2';
    assert tb.ds.value(DigitChar(2)) == 2;
    var text := "G2C";
    assert text[0] == 'G' && text[1] == '2' && text[2] == 'C';
  }

  lemma NamedDigit()
    ensures RunsOf(ASCII, "G2C") == []
  {
    hide OnTheHour, RunEnd, DigitCount;
    assert Plain(ASCII, "G2C") == "G2C";
    NoColonNoHour("G2C", false);
    assert "G2C"[1..] == "2C" && "2C"[1..] == "C" && "C"[1..] == "";
    assert Runs("C", true) == Runs("", true) == [];
    assert Runs("2C", true) == Runs("C", true);
    assert Runs("G2C", false) == Runs("2C", true);
  }
}
