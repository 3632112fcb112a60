/**
 Glossary terms in text: which termbases load, which matches are found, and what substituting
 them leaves behind.
 */
module Glossary {
  import opened Wrappers
  import opened Segments

  datatype Term = Term(id: string, version: nat, source: string, target: string, caseSensitive: bool)

  /** Letter case and word characters, character by character. */
  datatype Letters = Letters(lower: char -> char, isWord: char -> bool)
  {
    /** Lowercasing keeps word characters word characters. */
    ghost predicate Lawful() {
      forall c :: isWord(lower(c)) == isWord(c)
    }

    function Lower(s: string): (r: string)
      ensures |r| == |s| && forall i :: 0 <= i < |s| ==> r[i] == lower(s[i])
    {
      seq(|s|, i requires 0 <= i < |s| => lower(s[i]))
    }
  }

  // ---- the termbase ----

  /** Some text would be matched by either entry. */
  predicate Ambiguous(lt: Letters, a: Term, b: Term) {
    && lt.Lower(a.source) == lt.Lower(b.source)
    && (!(a.caseSensitive && b.caseSensitive) || a.source == b.source)
  }

  /** A termbase that loads: no empty source, no id twice, no two entries for one text. */
  ghost predicate Loadable(lt: Letters, terms: seq<Term>) {
    && (forall i :: 0 <= i < |terms| ==> terms[i].source != "")
    && (forall i, j :: 0 <= i < j < |terms| ==> terms[i].id != terms[j].id && !Ambiguous(lt, terms[i], terms[j]))
  }

  /** What an entry of the file may hold; a field of the wrong type is none. */
  datatype Entry =
    | NotAnObject
    | Entry(retired: bool, id: Option<string>, version: Option<int>, source: Option<string>, target: Option<string>,
            caseSensitive: Option<bool>)

  datatype TermbaseError =
    | BadEntry | BadId | BadVersion | BadSource | BadTarget | BadCase | HasNumeral | HasDelimiter | HasArtefact
    | DuplicateId | DuplicateSource

  /** White space, numerals of any kind and zero-width characters. */
  datatype Classes = Classes(isSpace: char -> bool, numeric: char -> bool, artefact: char -> bool)

  predicate Has(s: string, p: char -> bool) {
    exists i :: 0 <= i < |s| && p(s[i])
  }

  predicate Trimmed(cs: Classes, s: string) {
    s != "" && !cs.isSpace(s[0]) && !cs.isSpace(s[|s| - 1])
  }

  /** Every field is there and of its type, and neither side has what could never match or be shown. */
  predicate Admissible(cs: Classes, e: Entry) {
    && e.Entry? && e.id.Some? && e.id.value != "" && e.version.Some? && e.version.value >= 1
    && e.source.Some? && e.target.Some? && e.caseSensitive.Some?
    && e.source.value != "" && !cs.isSpace(e.source.value[0]) && !cs.isSpace(e.source.value[|e.source.value| - 1])
    && (exists i :: 0 <= i < |e.target.value| && !cs.isSpace(e.target.value[i]))
    && (forall i :: 0 <= i < |e.source.value| ==> !cs.numeric(e.source.value[i]) && e.source.value[i] !in [OPEN, CLOSE])
    && forall i :: 0 <= i < |e.target.value| ==> !cs.artefact(e.target.value[i]) && e.target.value[i] !in [OPEN, CLOSE]
  }

  function ParseTerm(cs: Classes, e: Entry): (r: Result<Term, TermbaseError>)
    ensures r.Ok? <==> Admissible(cs, e)
    ensures r.Ok? ==> r.value == Term(e.id.value, e.version.value, e.source.value, e.target.value, e.caseSensitive.value)
    ensures r.Ok? ==> r.value.id != "" && r.value.version >= 1 && Trimmed(cs, r.value.source) && r.value.target != ""
    ensures r.Ok? ==> !Has(r.value.source, cs.numeric) && !Has(r.value.target, cs.artefact)
    ensures r.Ok? ==> OPEN !in r.value.source + r.value.target && CLOSE !in r.value.source + r.value.target
  {
    if e.NotAnObject? then Err(BadEntry)
    else if e.id.None? || e.id.value == "" then Err(BadId)
    else if e.version.None? || e.version.value < 1 then Err(BadVersion)
    else if e.source.None? || !Trimmed(cs, e.source.value) then Err(BadSource)
    else if e.target.None? || !Has(e.target.value, (c: char) => !cs.isSpace(c)) then Err(BadTarget)
    else if e.caseSensitive.None? then Err(BadCase)
    else if Has(e.source.value, cs.numeric) then Err(HasNumeral)
    else if OPEN in e.source.value || CLOSE in e.source.value || OPEN in e.target.value || CLOSE in e.target.value then
      Err(HasDelimiter)
    else if Has(e.target.value, cs.artefact) then Err(HasArtefact)
    else Ok(Term(e.id.value, e.version.value, e.source.value, e.target.value, e.caseSensitive.value))
  }

  /** Retired entries are skipped before anything of them is looked at. */
  predicate IsActive(e: Entry) {
    e.Entry? ==> !e.retired
  }

  ghost predicate AllParse(cs: Classes, entries: seq<Entry>) {
    forall i :: 0 <= i < |entries| && IsActive(entries[i]) ==> ParseTerm(cs, entries[i]).Ok?
  }

  function Terms(cs: Classes, entries: seq<Entry>): seq<Term>
    requires AllParse(cs, entries)
  {
    if entries == [] then []
    else
      var n := |entries| - 1;
      Terms(cs, entries[..n]) + if IsActive(entries[n]) then [ParseTerm(cs, entries[n]).value] else []
  }

  /** A term clashes with an earlier one as the error says, and with none before that. */
  ghost predicate Clashes(lt: Letters, terms: seq<Term>, t: Term, e: TermbaseError) {
    exists j :: 0 <= j < |terms|
      && (forall k :: 0 <= k < j ==> terms[k].id != t.id && !Ambiguous(lt, terms[k], t))
      && (if terms[j].id == t.id then e == DuplicateId else e == DuplicateSource && Ambiguous(lt, terms[j], t))
  }

  /** The entries before `i` load, and `i` is refused for the reason given. */
  ghost predicate FirstRefused(lt: Letters, cs: Classes, entries: seq<Entry>, i: nat, e: TermbaseError) {
    && i < |entries| && IsActive(entries[i]) && AllParse(cs, entries[..i]) && Loadable(lt, Terms(cs, entries[..i]))
    && var term := ParseTerm(cs, entries[i]);
       if term.Err? then e == term.error else Clashes(lt, Terms(cs, entries[..i]), term.value, e)
  }

  /** The termbase of a file's entries loads. */
  ghost predicate Loads(lt: Letters, cs: Classes, entries: seq<Entry>) {
    AllParse(cs, entries) && Loadable(lt, Terms(cs, entries))
  }

  /** Whatever is refused early keeps the whole file from loading. */
  lemma {:induction false} RefusedForGood(lt: Letters, cs: Classes, entries: seq<Entry>, i: nat, e: TermbaseError)
    requires FirstRefused(lt, cs, entries, i, e)
    ensures !Loads(lt, cs, entries)
    decreases |entries|
  {
    if Loads(lt, cs, entries) {
      var n := |entries| - 1;
      var init := entries[..n];
      assert Terms(cs, entries)[..|Terms(cs, init)|] == Terms(cs, init);
      if i < n {
        assert init[..i] == entries[..i];
        LoadablePrefix(lt, Terms(cs, entries), |Terms(cs, init)|);
        RefusedForGood(lt, cs, init, i, e);
      } else {
        ClashIsNotLoadable(lt, Terms(cs, init), ParseTerm(cs, entries[i]).value, e);
      }
    }
  }

  lemma LoadablePrefix(lt: Letters, terms: seq<Term>, n: nat)
    requires Loadable(lt, terms) && n <= |terms|
    ensures Loadable(lt, terms[..n])
  {
  }

  lemma ClashIsNotLoadable(lt: Letters, terms: seq<Term>, t: Term, e: TermbaseError)
    requires Clashes(lt, terms, t, e)
    ensures !Loadable(lt, terms + [t])
  {
    var j :| 0 <= j < |terms| && if terms[j].id == t.id then e == DuplicateId else e == DuplicateSource && Ambiguous(lt, terms[j], t);
    var all := terms + [t];
    assert all[j] == terms[j] && all[|terms|] == t;
  }

  /** A term that clashes with none before it joins a termbase that loads. */
  lemma LoadableSnoc(lt: Letters, terms: seq<Term>, t: Term)
    requires Loadable(lt, terms) && t.source != ""
    requires forall k :: 0 <= k < |terms| ==> terms[k].id != t.id && !Ambiguous(lt, terms[k], t)
    ensures Loadable(lt, terms + [t])
  {
  }

  /** One term against those already read. */
  method FirstClash(lt: Letters, terms: seq<Term>, term: Term) returns (r: Option<TermbaseError>)
    ensures r.Some? ==> Clashes(lt, terms, term, r.value)
    ensures r.None? ==> forall k :: 0 <= k < |terms| ==> terms[k].id != term.id && !Ambiguous(lt, terms[k], term)
  {
    hide Ambiguous;
    for j := 0 to |terms|
      invariant forall k :: 0 <= k < j ==> terms[k].id != term.id && !Ambiguous(lt, terms[k], term)
    {
      if terms[j].id == term.id {
        assert Clashes(lt, terms, term, DuplicateId);
        return Some(DuplicateId);
      }
      if Ambiguous(lt, terms[j], term) {
        assert Clashes(lt, terms, term, DuplicateSource);
        return Some(DuplicateSource);
      }
    }
    r := None;
  }

  /** Reading the entries one by one, each against those already read. */
  method FromEntries(lt: Letters, cs: Classes, entries: seq<Entry>) returns (r: Result<seq<Term>, TermbaseError>)
    ensures r.Ok? <==> Loads(lt, cs, entries)
    ensures r.Ok? ==> r.value == Terms(cs, entries)
    ensures r.Err? ==> exists i :: FirstRefused(lt, cs, entries, i, r.error)
  {
    hide ParseTerm, Clashes, Ambiguous;
    var terms: seq<Term> := [];
    for i := 0 to |entries|
      invariant Loads(lt, cs, entries[..i]) && terms == Terms(cs, entries[..i])
    {
      assert entries[..i + 1][..i] == entries[..i];
      if !IsActive(entries[i]) {
        continue;
      }
      var term := ParseTerm(cs, entries[i]);
      if term.Err? {
        assert FirstRefused(lt, cs, entries, i, term.error);
        return Err(term.error);
      }
      var clash := FirstClash(lt, terms, term.value);
      if clash.Some? {
        assert FirstRefused(lt, cs, entries, i, clash.value);
        RefusedForGood(lt, cs, entries, i, clash.value);
        return Err(clash.value);
      }
      LoadableSnoc(lt, terms, term.value);
      terms := terms + [term.value];
    }
    assert entries[..|entries|] == entries;
    r := Ok(terms);
  }

  // ---- matching ----

  /** Text from `i` on is the term's source, in the case the term asks for. */
  predicate Spells(lt: Letters, text: string, i: nat, t: Term) {
    && i + |t.source| <= |text|
    && var piece := text[i..i + |t.source|];
       if t.caseSensitive then piece == t.source else lt.Lower(piece) == lt.Lower(t.source)
  }

  /** The whole-word test at both ends. */
  predicate WholeWord(lt: Letters, text: string, i: nat, t: Term)
    requires t.source != "" && i + |t.source| <= |text|
  {
    var end := i + |t.source|;
    && !(lt.isWord(t.source[0]) && 0 < i && lt.isWord(text[i - 1]))
    && !(lt.isWord(t.source[|t.source| - 1]) && end < |text| && lt.isWord(text[end]))
  }

  predicate MatchesAt(lt: Letters, text: string, i: nat, t: Term) {
    t.source != "" && Spells(lt, text, i, t) && WholeWord(lt, text, i, t)
  }

  /** Terms that start with a character, longest first; equal lengths stay in termbase order. */
  function Insert(t: Term, sorted: seq<Term>): seq<Term> {
    if sorted == [] || |sorted[0].source| <= |t.source| then [t] + sorted
    else [sorted[0]] + Insert(t, sorted[1..])
  }

  function LongestFirst(terms: seq<Term>): seq<Term> {
    if terms == [] then [] else Insert(terms[0], LongestFirst(terms[1..]))
  }

  predicate StartsWith(lt: Letters, t: Term, c: char) {
    t.source != "" && lt.lower(t.source[0]) == lt.lower(c)
  }

  function Starting(lt: Letters, terms: seq<Term>, c: char): seq<Term> {
    if terms == [] then []
    else (if StartsWith(lt, terms[0], c) then [terms[0]] else []) + Starting(lt, terms[1..], c)
  }

  function Candidates(lt: Letters, terms: seq<Term>, c: char): seq<Term> {
    LongestFirst(Starting(lt, terms, c))
  }

  function FirstMatch(lt: Letters, text: string, i: nat, cands: seq<Term>): Option<Term> {
    if cands == [] then None
    else if MatchesAt(lt, text, i, cands[0]) then Some(cands[0])
    else FirstMatch(lt, text, i, cands[1..])
  }

  datatype Match = Match(start: nat, end: nat, term: Term)

  /** Left to right from `i`; the longest candidate first at each place. */
  function FindFrom(lt: Letters, terms: seq<Term>, text: string, i: nat): seq<Match>
    decreases |text| - i
  {
    if i >= |text| then []
    else
      var m := FirstMatch(lt, text, i, Candidates(lt, terms, text[i]));
      if m.Some? && m.value.source != "" then
        [Match(i, i + |m.value.source|, m.value)] + FindFrom(lt, terms, text, i + |m.value.source|)
      else FindFrom(lt, terms, text, i + 1)
  }

  function FindTerms(lt: Letters, terms: seq<Term>, text: string): seq<Match> {
    FindFrom(lt, terms, text, 0)
  }

  /** The inner loop: the first candidate that matches. */
  method FirstMatchLoop(lt: Letters, text: string, i: nat, cands: seq<Term>) returns (r: Option<Term>)
    ensures r == FirstMatch(lt, text, i, cands)
  {
    hide MatchesAt;
    for k := 0 to |cands|
      invariant FirstMatch(lt, text, i, cands) == FirstMatch(lt, text, i, cands[k..])
    {
      assert cands[k..][1..] == cands[k + 1..];
      if MatchesAt(lt, text, i, cands[k]) {
        return Some(cands[k]);
      }
    }
    r := None;
  }

  method FindTermsLoop(lt: Letters, terms: seq<Term>, text: string) returns (found: seq<Match>)
    ensures found == FindTerms(lt, terms, text)
  {
    hide MatchesAt, FirstMatch, Candidates;
    found := [];
    var i := 0;
    while i < |text|
      invariant 0 <= i
      invariant found + FindFrom(lt, terms, text, i) == FindTerms(lt, terms, text)
      decreases |text| - i
    {
      var term := FirstMatchLoop(lt, text, i, Candidates(lt, terms, text[i]));
      if term.Some? && term.value.source != "" {
        var m := Match(i, i + |term.value.source|, term.value);
        assert found + ([m] + FindFrom(lt, terms, text, m.end)) == (found + [m]) + FindFrom(lt, terms, text, m.end);
        found := found + [m];
        i := m.end;
      } else {
        i := i + 1;
      }
    }
  }

  // ---- the first match is the one longest match ----

  lemma {:induction false} InsertMembers(t: Term, sorted: seq<Term>, x: Term)
    ensures x in Insert(t, sorted) <==> x == t || x in sorted
  {
    if sorted != [] {
      InsertMembers(t, sorted[1..], x);
      assert sorted == [sorted[0]] + sorted[1..];
    }
  }

  ghost predicate Descending(s: seq<Term>) {
    forall i, j :: 0 <= i < j < |s| ==> |s[i].source| >= |s[j].source|
  }

  lemma {:induction false} InsertDescending(t: Term, sorted: seq<Term>)
    requires Descending(sorted)
    ensures Descending(Insert(t, sorted))
  {
    if sorted != [] && |sorted[0].source| > |t.source| {
      var rest := Insert(t, sorted[1..]);
      InsertDescending(t, sorted[1..]);
      forall x | x in rest ensures |sorted[0].source| >= |x.source| {
        InsertMembers(t, sorted[1..], x);
      }
      forall j | 0 <= j < |rest| ensures |sorted[0].source| >= |rest[j].source| {
        assert rest[j] in rest;
      }
    }
  }

  lemma {:induction false} LongestFirstIs(terms: seq<Term>)
    ensures Descending(LongestFirst(terms))
    ensures forall x :: x in LongestFirst(terms) <==> x in terms
  {
    if terms != [] {
      LongestFirstIs(terms[1..]);
      InsertDescending(terms[0], LongestFirst(terms[1..]));
      forall x ensures x in LongestFirst(terms) <==> x in terms {
        InsertMembers(terms[0], LongestFirst(terms[1..]), x);
        assert terms == [terms[0]] + terms[1..];
      }
    }
  }

  lemma StartingIs(lt: Letters, terms: seq<Term>, c: char, x: Term)
    ensures x in Starting(lt, terms, c) <==> x in terms && StartsWith(lt, x, c)
  {
    if terms != [] {
      StartingIs(lt, terms[1..], c, x);
      assert terms == [terms[0]] + terms[1..];
    }
  }

  lemma {:induction false} FirstMatchIs(lt: Letters, text: string, i: nat, cands: seq<Term>)
    requires Descending(cands)
    ensures var r := FirstMatch(lt, text, i, cands);
            && (r.None? ==> forall x :: x in cands ==> !MatchesAt(lt, text, i, x))
            && (r.Some? ==> r.value in cands && MatchesAt(lt, text, i, r.value)
                            && forall x :: x in cands && MatchesAt(lt, text, i, x) ==> |x.source| <= |r.value.source|)
  {
    if cands != [] {
      assert cands == [cands[0]] + cands[1..];
      forall x | x in cands ensures |x.source| <= |cands[0].source| {
        var k :| 0 <= k < |cands| && cands[k] == x;
      }
      FirstMatchIs(lt, text, i, cands[1..]);
    }
  }

  /** A longest match at a place. */
  ghost predicate Longest(lt: Letters, terms: seq<Term>, text: string, i: nat, t: Term) {
    && t in terms && MatchesAt(lt, text, i, t)
    && forall x :: x in terms && MatchesAt(lt, text, i, x) ==> |x.source| <= |t.source|
  }

  /** What is tried at a place is a longest match of the whole termbase there, if it has any. */
  lemma TriedIsLongest(lt: Letters, terms: seq<Term>, text: string, i: nat)
    requires i < |text|
    ensures var r := FirstMatch(lt, text, i, Candidates(lt, terms, text[i]));
            && (r.None? <==> forall x :: x in terms ==> !MatchesAt(lt, text, i, x))
            && (r.Some? ==> Longest(lt, terms, text, i, r.value))
  {
    var cands := Candidates(lt, terms, text[i]);
    LongestFirstIs(Starting(lt, terms, text[i]));
    FirstMatchIs(lt, text, i, cands);
    forall x ensures x in cands <==> x in terms && StartsWith(lt, x, text[i]) {
      StartingIs(lt, terms, text[i], x);
    }
    forall x | x in terms && MatchesAt(lt, text, i, x) ensures StartsWith(lt, x, text[i]) {
      MatchStarts(lt, text, i, x);
    }
  }

  lemma MatchStarts(lt: Letters, text: string, i: nat, t: Term)
    requires i < |text| && MatchesAt(lt, text, i, t)
    ensures StartsWith(lt, t, text[i])
  {
    var piece := text[i..i + |t.source|];
    assert piece[0] == text[i];
    assert !t.caseSensitive ==> lt.Lower(piece)[0] == lt.Lower(t.source)[0];
  }

  /** Two entries that match the same place with the same length are ambiguous. */
  lemma SameLengthIsAmbiguous(lt: Letters, text: string, i: nat, a: Term, b: Term)
    requires Spells(lt, text, i, a) && Spells(lt, text, i, b) && |a.source| == |b.source|
    ensures Ambiguous(lt, a, b)
  {
  }

  lemma LongestIsUnique(lt: Letters, terms: seq<Term>, text: string, i: nat, a: Term, b: Term)
    requires Loadable(lt, terms) && Longest(lt, terms, text, i, a) && Longest(lt, terms, text, i, b)
    ensures a == b
  {
    SameLengthIsAmbiguous(lt, text, i, a, b);
    SameLengthIsAmbiguous(lt, text, i, b, a);
    var x :| 0 <= x < |terms| && terms[x] == a;
    var y :| 0 <= y < |terms| && terms[y] == b;
  }

  lemma LoadableOfSet(lt: Letters, a: seq<Term>, b: seq<Term>, text: string, i: nat, t: Term)
    requires forall x :: x in a <==> x in b
    ensures Longest(lt, a, text, i, t) <==> Longest(lt, b, text, i, t)
  {
  }

  lemma LongestIsNotEmpty(lt: Letters, terms: seq<Term>, text: string, i: nat)
    ensures forall t :: Longest(lt, terms, text, i, t) ==> t.source != ""
  {
  }

  /** The matches depend on which terms there are, not on the order they are listed in. */
  lemma {:induction false} OrderDoesNotMatter(lt: Letters, a: seq<Term>, b: seq<Term>, text: string, i: nat)
    requires Loadable(lt, a) && multiset(a) == multiset(b)
    ensures FindFrom(lt, a, text, i) == FindFrom(lt, b, text, i)
    decreases |text| - i
  {
    hide Loadable, Longest, MatchesAt, FirstMatch, Candidates;
    if i < |text| {
      forall x ensures x in a <==> x in b {
        assert x in a <==> x in multiset(a);
        assert x in b <==> x in multiset(b);
      }
      TriedIsLongest(lt, a, text, i);
      TriedIsLongest(lt, b, text, i);
      assert forall x :: x in a <==> x in b;
      LongestIsNotEmpty(lt, a, text, i);
      var p := FirstMatch(lt, text, i, Candidates(lt, a, text[i]));
      var q := FirstMatch(lt, text, i, Candidates(lt, b, text[i]));
      if p.Some? {
        LoadableOfSet(lt, a, b, text, i, q.value);
        LongestIsUnique(lt, a, text, i, p.value, q.value);
        OrderDoesNotMatter(lt, a, b, text, i + |p.value.source|);
      } else {
        OrderDoesNotMatter(lt, a, b, text, i + 1);
      }
    }
  }
}
