/** Where the numbers of a text stand and where its full hours do: by position, in the whole text. */
module NumberPlaces {
  import opened Segments
  import opened Wire
  import opened NumberValues
  import opened Worths

  predicate Letter(c: char) {
    'A' <= c <= 'Z' || 'a' <= c <= 'z'
  }

  predicate DigitAt(s: string, i: int) {
    0 <= i < |s| && ASCII.IsDigit(s[i])
  }

  // ---- numbers ----

  /** The digits that end before `j` are the digits of a name: a Latin letter stands before the first. */
  ghost predicate Named(s: string, j: nat) {
    exists a :: 0 < a < j <= |s| && NamedFrom(s, a, j)
  }

  ghost predicate NamedFrom(s: string, a: int, j: nat)
    requires 0 < a < j <= |s|
  {
    Letter(s[a - 1]) && forall k :: a <= k < j ==> ASCII.IsDigit(s[k])
  }

  /** A dot or comma behind a digit stands before `i`. */
  predicate Behind(s: string, i: nat)
    requires i <= |s|
  {
    i >= 2 && s[i - 1] in ".," && ASCII.IsDigit(s[i - 2])
  }

  /**
   A number starts at a digit with no letter and no digit before it, unless it goes on behind a dot
   or comma; behind the digits of a name it does not go on but starts.
   */
  ghost predicate Starts(s: string, i: nat) {
    && DigitAt(s, i) && (i > 0 ==> !Letter(s[i - 1]) && !ASCII.IsDigit(s[i - 1]))
    && (Behind(s, i) ==> Named(s, i - 1))
  }

  /** The numbers that start at `i` or later, each as far as it goes. */
  ghost function NumbersFrom(s: string, i: nat): seq<string>
    requires i <= |s|
    decreases |s| - i
  {
    if i == |s| then []
    else (if Starts(s, i) then [s[i..i + RunEnd(s[i..])]] else []) + NumbersFrom(s, i + 1)
  }

  /** Nothing that was passed goes on into a number at `i` or behind it. */
  ghost predicate Closed(s: string, i: nat)
    requires i <= |s|
  {
    !DigitAt(s, i) && (i < |s| && s[i] in ".," ==> !DigitAt(s, i + 1))
  }

  ghost predicate Passed(s: string, i: nat)
    requires i <= |s|
  {
    && (DigitAt(s, i - 1) ==> Closed(s, i) || Named(s, i))
    && (DigitAt(s, i) && Behind(s, i) ==> Named(s, i - 1))
  }

  lemma NamedNext(s: string, i: nat)
    requires DigitAt(s, i) && i > 0 && (Letter(s[i - 1]) || Named(s, i))
    ensures Named(s, i + 1)
  {
    if Letter(s[i - 1]) {
      assert NamedFrom(s, i, i + 1);
    } else {
      var a :| 0 < a < i <= |s| && NamedFrom(s, a, i);
      assert NamedFrom(s, a, i + 1);
    }
  }

  lemma PassOne(s: string, i: nat)
    requires i < |s| && Passed(s, i) && (DigitAt(s, i) ==> i > 0 && Glues(s[i - 1]))
    ensures Passed(s, i + 1) && !Starts(s, i)
  {
    AsciiDigit(s[i]);
    if i > 0 { AsciiDigit(s[i - 1]); }
    if DigitAt(s, i) { NamedNext(s, i); }
  }

  /** In a run every digit but the first follows a digit, or a dot or comma behind one. */
  lemma {:induction false} RunInside(s: string, j: nat)
    requires Run(s) && 0 < j < |s| && ASCII.IsDigit(s[j])
    ensures ASCII.IsDigit(s[j - 1]) || (j >= 2 && s[j - 1] in ".," && ASCII.IsDigit(s[j - 2]))
    decreases |s|
  {
    var n := DigitCount(s);
    if j > n + 1 {
      assert s[n + 1..][j - n - 1] == s[j];
      RunInside(s[n + 1..], j - n - 1);
    }
  }

  lemma {:induction false} RunChars(s: string)
    requires Run(s)
    ensures forall k :: 0 <= k < |s| ==> ASCII.IsDigit(s[k]) || s[k] in ".,"
    decreases |s|
  {
    var n := DigitCount(s);
    if n < |s| {
      RunChars(s[n + 1..]);
      forall k | n < k < |s| ensures ASCII.IsDigit(s[k]) || s[k] in ".," { assert s[n + 1..][k - n - 1] == s[k]; }
    }
  }

  /** No number starts inside another. */
  lemma InsideStartsNone(s: string, i: nat, e: nat, j: nat)
    requires i < j < e <= |s| && Run(s[i..e]) && (i > 0 ==> !Letter(s[i - 1]) && !ASCII.IsDigit(s[i - 1]))
    ensures !Starts(s, j)
  {
    hide Run;
    var r := s[i..e];
    RunChars(r);
    forall k | i <= k < e ensures !Letter(s[k]) { assert s[k] == r[k - i]; AsciiDigit(s[k]); }
    if DigitAt(s, j) && !ASCII.IsDigit(s[j - 1]) {
      assert r[j - i] == s[j] && r[j - i - 1] == s[j - 1];
      RunInside(r, j - i);
      assert r[j - i - 2] == s[j - 2];
      NotNamed(s, i, j - 1);
    }
  }

  /** Digits of a run are not the digits of a name. */
  lemma NotNamed(s: string, i: nat, j: nat)
    requires i < j <= |s| && (i > 0 ==> !Letter(s[i - 1]) && !ASCII.IsDigit(s[i - 1]))
    requires forall k :: i <= k < j ==> !Letter(s[k])
    ensures !Named(s, j)
  {
  }

  lemma {:induction false} SkipRun(s: string, i: nat, e: nat)
    requires i <= e <= |s| && forall j :: i <= j < e ==> !Starts(s, j)
    ensures NumbersFrom(s, i) == NumbersFrom(s, e)
    decreases e - i
  {
    hide Starts, RunEnd;
    if i < e {
      SkipRun(s, i + 1, e);
      assert !Starts(s, i);
    }
  }

  lemma TakeOne(h: string)
    requires h != "" && ASCII.IsDigit(h[0])
    ensures var n := RunEnd(h); Runs(h, false) == [h[..n]] + Runs(h[n..], true)
  {
    hide RunEnd, Glues, DigitCount;
  }

  lemma PassOver(h: string, glued: bool)
    requires h != "" && (glued || !ASCII.IsDigit(h[0]))
    ensures Runs(h, glued) == Runs(h[1..], Glues(h[0]))
  {
    hide RunEnd, Glues, DigitCount;
  }

  lemma ReadOne(s: string, i: nat)
    requires i < |s|
    ensures NumbersFrom(s, i) == (if Starts(s, i) then [s[i..i + RunEnd(s[i..])]] else []) + NumbersFrom(s, i + 1)
  {
    hide RunEnd, Starts;
  }

  lemma NothingThere(s: string, glued: bool)
    ensures Runs(s[|s|..], glued) == NumbersFrom(s, |s|) == []
  {
  }

  lemma TailOf(s: string, i: nat, n: nat)
    requires i + n <= |s|
    ensures s[i..][n..] == s[i + n..] && s[i..][..n] == s[i..i + n]
  {
  }

  lemma {:induction false} RunsFromHere(s: string, i: nat)
    requires i <= |s| && Passed(s, i)
    ensures Runs(s[i..], i > 0 && Glues(s[i - 1])) == NumbersFrom(s, i)
    decreases |s| - i
  {
    hide Run, RunEnd, Starts, Passed, Glues, DigitCount, Runs, NumbersFrom;
    var here, glued := s[i..], i > 0 && Glues(s[i - 1]);
    if i == |s| {
      NothingThere(s, glued);
    } else if DigitAt(s, i) && !glued {
      var n := RunEnd(here);
      var e := i + n;
      RunOpens(s, i);
      forall j | i < j < e ensures !Starts(s, j) { InsideStartsNone(s, i, e, j); }
      SkipRun(s, i + 1, e);
      RunsFromHere(s, e);
      ReadOne(s, i);
      TakeOne(here);
      TailOf(s, i, n);
    } else {
      PassOne(s, i);
      RunsFromHere(s, i + 1);
      ReadOne(s, i);
      PassOver(here, glued);
      TailOf(s, i, 1);
      var none: seq<string> := [];
      assert none + NumbersFrom(s, i + 1) == NumbersFrom(s, i + 1);
    }
  }

  lemma RunCloses(s: string, i: nat)
    requires DigitAt(s, i)
    ensures var e := i + RunEnd(s[i..]);
            i < e <= |s| && Run(s[i..e]) && DigitAt(s, e - 1) && Closed(s, e)
  {
    hide Run;
    var here := s[i..];
    assert DigitCount(here) > 0;
    hide RunEnd, DigitCount;
    var n := RunEnd(here);
    var e := i + n;
    RunEndIsRun(here);
    assert s[i..e] == here[..n];
    RunEndsInDigit(s[i..e]);
    assert s[i..e][n - 1] == s[e - 1];
    if e < |s| { assert here[n] == s[e]; }
    if e + 1 < |s| { assert here[n + 1] == s[e + 1]; }
  }

  lemma RunOpens(s: string, i: nat)
    requires DigitAt(s, i) && Passed(s, i) && !(i > 0 && Glues(s[i - 1]))
    ensures var e := i + RunEnd(s[i..]);
            && i < e <= |s| && Run(s[i..e]) && Starts(s, i) && Passed(s, e) && Glues(s[e - 1])
            && (i > 0 ==> !Letter(s[i - 1]) && !ASCII.IsDigit(s[i - 1]))
  {
    hide Run, RunEnd, DigitCount;
    RunCloses(s, i);
    AsciiDigit(s[i]);
    if i > 0 { AsciiDigit(s[i - 1]); }
  }

  /** The numbers of a text are the ones that start somewhere in it, in order. */
  lemma RunsAreNumbers(s: string)
    ensures Runs(s, false) == NumbersFrom(s, 0)
  {
    assert s[0..] == s;
    RunsFromHere(s, 0);
  }

  // ---- times on the hour ----

  /** Nothing before `i` that would make its digits part of more. */
  predicate Fresh(s: string, i: nat)
    requires i <= |s|
  {
    i > 0 ==> !ASCII.IsDigit(s[i - 1]) && s[i - 1] != ':'
  }

  /** `:00` at `j`, and neither a digit nor a colon behind it. */
  predicate Minutes(s: string, j: nat) {
    j + 3 <= |s| && s[j] == ':' && s[j + 1] == '0' && s[j + 2] == '0' && (j + 3 < |s| ==> !ASCII.IsDigit(s[j + 3]) && s[j + 3] != ':')
  }

  /** One or two digits from `p`, then `:00`: a time on the hour. */
  predicate HourAt(s: string, p: int, j: nat) {
    && 0 <= p < j <= |s| && j - p <= 2 && Fresh(s, p) && Minutes(s, j)
    && ASCII.IsDigit(s[p]) && ASCII.IsDigit(s[j - 1])
  }

  predicate OnHour(s: string, j: nat) {
    HourAt(s, j - 1, j) || HourAt(s, j - 2, j)
  }

  /** The text from `i` on without the `:00` of its times on the hour. */
  function WithoutMinutes(s: string, i: nat): string
    requires i <= |s|
    decreases |s| - i
  {
    if i == |s| then ""
    else if OnHour(s, i) then WithoutMinutes(s, i + 3)
    else [s[i]] + WithoutMinutes(s, i + 1)
  }

  ghost predicate NoneUnderWay(s: string, i: nat) {
    forall p, j :: p < i <= j ==> !HourAt(s, p, j)
  }

  lemma HourLengthIs(s: string, i: nat)
    requires i <= |s|
    ensures var n := HourLength(s[i..]);
            if n > 0 && Fresh(s, i) then HourAt(s, i, i + n) && n <= 2 else !Fresh(s, i) || forall j :: !HourAt(s, i, j)
  {
    var here := s[i..];
    var n := DigitCount(here);
    FirstDigits(here);
    hide DigitCount;
    if n + 3 <= |here| { assert here[n..n + 3] == [s[i + n], s[i + n + 1], s[i + n + 2]]; }
    if j: nat :| HourAt(s, i, j) {
      assert here[0] == s[i] && here[j - i - 1] == s[j - 1] && here[j - i] == s[j];
      AsciiDigit(':');
      assert n == j - i;
    }
  }

  lemma HourPassed(s: string, i: nat)
    requires i < |s| && NoneUnderWay(s, i) && forall j :: !HourAt(s, i, j)
    ensures NoneUnderWay(s, i + 1) && !OnHour(s, i)
  {
  }

  /** One step of the substitution, and of its description. */
  lemma HourStep(s: string, i: nat, glued: bool)
    requires i <= |s|
    ensures i == |s| ==> OnTheHour(s[i..], glued) == WithoutMinutes(s, i) == ""
    ensures i < |s| ==>
              var n := HourLength(s[i..]);
              OnTheHour(s[i..], glued) ==
                if !glued && n > 0 then s[i..i + n] + OnTheHour(s[i + n + 3..], true)
                else [s[i]] + OnTheHour(s[i + 1..], ASCII.IsDigit(s[i]) || s[i] == ':')
    ensures i < |s| && !OnHour(s, i) ==> WithoutMinutes(s, i) == [s[i]] + WithoutMinutes(s, i + 1)
  {
    hide HourLength, OnHour;
    if i < |s| {
      var here := s[i..];
      var n := HourLength(here);
      assert here[0] == s[i] && here[1..] == s[i + 1..] && here[..n] == s[i..i + n];
      if n > 0 { assert here[n + 3..] == s[i + n + 3..]; }
    }
  }

  lemma StillFresh(s: string, i: nat)
    requires i < |s|
    ensures !Fresh(s, i + 1) <==> ASCII.IsDigit(s[i]) || s[i] == ':'
    ensures !Fresh(s, i) ==> forall j :: !HourAt(s, i, j)
  {
  }

  lemma MinutesGone(s: string, j: nat)
    requires j <= |s| && OnHour(s, j)
    ensures j + 3 <= |s| && WithoutMinutes(s, j) == WithoutMinutes(s, j + 3)
  {
  }

  /** Inside the hour nothing is dropped, and at its end the minutes are. */
  lemma HourOnce(s: string, p: nat, i: nat, j: nat)
    requires p <= i <= j && HourAt(s, p, j)
    ensures j + 3 <= |s| && (OnHour(s, i) <==> i == j)
  {
    AsciiDigit(':');
    if i < j { assert ASCII.IsDigit(s[i]); }
  }

  lemma {:induction false} HourRead(s: string, p: nat, i: nat, j: nat)
    requires p <= i <= j && HourAt(s, p, j)
    ensures j + 3 <= |s| && WithoutMinutes(s, i) == s[i..j] + WithoutMinutes(s, j + 3)
    decreases j - i
  {
    hide OnHour, HourAt, WithoutMinutes, OnTheHour, HourLength;
    HourOnce(s, p, i, j);
    if i == j {
      MinutesGone(s, j);
      assert s[j..j] == "";
    } else {
      HourRead(s, p, i + 1, j);
      HourStep(s, i, false);
      Assoc([s[i]], s[i + 1..j], WithoutMinutes(s, j + 3));
      assert s[i..j] == [s[i]] + s[i + 1..j];
    }
  }

  lemma NextIsOpen(s: string, p: nat, j: nat)
    requires HourAt(s, p, j)
    ensures j + 3 <= |s| && NoneUnderWay(s, j + 3) && !Fresh(s, j + 3)
  {
    AsciiDigit('0');
  }

  lemma {:induction false} OnTheHourHere(s: string, i: nat)
    requires i <= |s| && NoneUnderWay(s, i)
    ensures OnTheHour(s[i..], !Fresh(s, i)) == WithoutMinutes(s, i)
    decreases |s| - i
  {
    hide HourLength, Fresh, HourAt, NoneUnderWay, OnTheHour, WithoutMinutes, OnHour;
    HourStep(s, i, !Fresh(s, i));
    if i < |s| {
      HourLengthIs(s, i);
      var n := HourLength(s[i..]);
      if Fresh(s, i) && n > 0 {
        NextIsOpen(s, i, i + n);
        HourRead(s, i, i, i + n);
        OnTheHourHere(s, i + n + 3);
      } else {
        StillFresh(s, i);
        HourPassed(s, i);
        OnTheHourHere(s, i + 1);
      }
    }
  }

  /** Of a time on the hour only its hour is read, and nothing else changes. */
  lemma OnTheHourIs(s: string)
    ensures OnTheHour(s, false) == WithoutMinutes(s, 0)
  {
    assert s[0..] == s;
    OnTheHourHere(s, 0);
  }

  /** The numbers of a text, by key, said by position. */
  lemma NumbersByPlace(ds: Digits, text: string)
    ensures RunsOf(ds, text) == NumbersFrom(WithoutMinutes(Plain(ds, text), 0), 0)
  {
    OnTheHourIs(Plain(ds, text));
    RunsAreNumbers(WithoutMinutes(Plain(ds, text), 0));
  }

  // ---- a text that is one number ----

  lemma {:induction false} NoColonNoHour(s: string, glued: bool)
    requires ':' !in s
    ensures OnTheHour(s, glued) == s
  {
    if s != "" {
      var n := DigitCount(s);
      if n + 3 <= |s| { assert s[n..n + 3][0] == s[n]; }
      assert HourLength(s) == 0;
      NoColonNoHour(s[1..], ASCII.IsDigit(s[0]) || s[0] == ':');
    }
  }

  lemma {:induction false} RunEndOfRun(s: string)
    requires Run(s)
    ensures RunEnd(s) == |s|
    decreases |s|
  {
    hide RunEnd, DigitCount;
    var n := DigitCount(s);
    FirstDigits(s);
    RunEndStep(s);
    if n < |s| {
      RunStarts(s[n + 1..]);
      assert s[n + 1..][0] == s[n + 1];
      RunEndOfRun(s[n + 1..]);
    }
  }

  /** A text that is one number has that number and no other. */
  lemma LoneNumber(ds: Digits, text: string)
    requires Run(Plain(ds, text))
    ensures RunsOf(ds, text) == [Plain(ds, text)]
  {
    hide Run, RunEnd;
    var s := Plain(ds, text);
    RunChars(s);
    AsciiDigit(':');
    NoColonNoHour(s, false);
    RunEndOfRun(s);
    RunStarts(s);
    assert s[|s|..] == "" && s[..|s|] == s;
    assert Runs(s, false) == [s[..RunEnd(s)]] + Runs(s[RunEnd(s)..], true);
  }

  lemma RunStarts(s: string)
    requires Run(s)
    ensures s != "" && ASCII.IsDigit(s[0])
  {
  }
}
