/**
 The browser widget's decoder for wire text, and the server's grammar: on every text whose marker
 digits are all ASCII the two agree, up to what the widget never writes.
 */
module Widget {
  import opened Wrappers
  import opened Segments
  import opened Patterns
  import opened Wire

  // ---- the decoder ----

  datatype Decoded = Decoded(slots: seq<string>, markers: seq<string>)

  /** The decoder's variables. */
  datatype Reading = Reading(current: string, open: seq<nat>, slots: seq<string>, markers: seq<string>)
  {
    function Say(text: string): Reading {
      this.(current := current + text)
    }

    function Mark(name: string, now: seq<nat>): Reading {
      Reading("", now, slots + [current], markers + [name])
    }
  }

  function DigitRun(s: string): (d: string)
    ensures d <= s && forall i :: 0 <= i < |d| ==> ASCII.IsDigit(d[i])
    ensures |d| < |s| ==> !ASCII.IsDigit(s[|d|])
  {
    s[..PrefixCount((c: char) => ASCII.IsDigit(c), s)]
  }

  /** A delimiter, a prefix, digits, a suffix and the other delimiter, at the start of `s`: the digits. */
  function MarkAt(s: string, prefix: string, suffix: string): (r: Option<string>)
    ensures r.Some? ==> AllDigits(ASCII, r.value) && |prefix| + |r.value| + |suffix| + 2 <= |s|
  {
    if !([OPEN] + prefix <= s) then None
    else
      var rest := s[1 + |prefix|..];
      var d := DigitRun(rest);
      if d != "" && suffix + [CLOSE] <= rest[|d|..] then Some(d) else None
  }

  function DecodeFrom(s: string, r: Reading): Option<Decoded>
    decreases |s|
  {
    if s == "" then
      if r.open != [] then None else Some(Decoded(r.slots + [r.current], r.markers))
    else if [OPEN, OPEN] <= s then DecodeFrom(s[2..], r.Say([OPEN]))
    else if [CLOSE, CLOSE] <= s then DecodeFrom(s[2..], r.Say([CLOSE]))
    else if s[0] == OPEN then
      var v, c, o := MarkAt(s, "v", "/"), MarkAt(s, "/", ""), MarkAt(s, "", "");
      if v.Some? then DecodeFrom(s[|v.value| + 4..], r.Mark("v" + v.value, r.open))
      else if c.Some? then
        var n := Number(ASCII, c.value);
        if r.open == [] || r.open[|r.open| - 1] != n then None
        else DecodeFrom(s[|c.value| + 3..], r.Mark("c" + Decimal(n), r.open[..|r.open| - 1]))
      else if o.Some? then
        var n := Number(ASCII, o.value);
        if r.open != [] then None else DecodeFrom(s[|o.value| + 2..], r.Mark("o" + Decimal(n), [n]))
      else None
    else if s[0] == CLOSE then None
    else DecodeFrom(s[1..], r.Say([s[0]]))
  }

  const START := Reading("", [], [], [])

  /** Text up to the next delimiter. */
  function Plain(s: string): (n: nat)
    ensures n <= |s| && (n < |s| ==> IsDelimiter(s[n])) && forall i :: 0 <= i < n ==> !IsDelimiter(s[i])
  {
    if s == "" || IsDelimiter(s[0]) then 0 else 1 + Plain(s[1..])
  }

  lemma PlainOne(s: string, r: Reading)
    requires s != "" && !IsDelimiter(s[0])
    ensures DecodeFrom(s, r) == DecodeFrom(s[1..], r.Say([s[0]]))
  {
    hide MarkAt;
  }

  lemma {:induction false} PlainAtOnce(s: string, r: Reading, n: nat)
    requires n <= |s| && forall i :: 0 <= i < n ==> !IsDelimiter(s[i])
    ensures DecodeFrom(s, r) == DecodeFrom(s[n..], r.Say(s[..n]))
  {
    hide DecodeFrom;
    if n == 0 {
      assert s[0..] == s && r.Say(s[..0]) == r;
    } else {
      PlainOne(s, r);
      PlainAtOnce(s[1..], r.Say([s[0]]), n - 1);
      assert s[1..][n - 1..] == s[n..];
      assert s[..n] == [s[0]] + s[1..][..n - 1];
      Assoc(r.current, [s[0]], s[1..][..n - 1]);
    }
  }

  method DecodeWire(text: string) returns (result: Option<Decoded>)
    ensures result == DecodeFrom(text, START)
  {
    var r, rest := START, text;
    while rest != ""
      invariant DecodeFrom(text, START) == DecodeFrom(rest, r)
      decreases |rest|
    {
      if [OPEN, OPEN] <= rest {
        r, rest := r.Say([OPEN]), rest[2..];
        continue;
      }
      if [CLOSE, CLOSE] <= rest {
        r, rest := r.Say([CLOSE]), rest[2..];
        continue;
      }
      if rest[0] == OPEN {
        var v := MarkAt(rest, "v", "/");
        if v.Some? {
          r, rest := r.Mark("v" + v.value, r.open), rest[|v.value| + 4..];
          continue;
        }
        var c := MarkAt(rest, "/", "");
        if c.Some? {
          var n := Number(ASCII, c.value);
          if r.open == [] || r.open[|r.open| - 1] != n {
            return None;
          }
          r, rest := r.Mark("c" + Decimal(n), r.open[..|r.open| - 1]), rest[|c.value| + 3..];
          continue;
        }
        var o := MarkAt(rest, "", "");
        if o.Some? {
          var n := Number(ASCII, o.value);
          if r.open != [] {
            return None;
          }
          r, rest := r.Mark("o" + Decimal(n), [n]), rest[|o.value| + 2..];
          continue;
        }
        return None;
      }
      if rest[0] == CLOSE {
        return None;
      }
      var n := Plain(rest);
      PlainAtOnce(rest, r, n);
      r, rest := r.Say(rest[..n]), rest[n..];
    }
    result := if r.open != [] then None else Some(Decoded(r.slots + [r.current], r.markers));
  }

  // ---- what the server's grammar makes of a text ----

  /** Text between markers; `current` is the text of the slot being filled. */
  function SlotsFrom(current: string, ts: seq<Token>): seq<string>
    decreases |ts|
  {
    if ts == [] then [current]
    else if ts[0].Text? then SlotsFrom(current + ts[0].value, ts[1..])
    else [current] + SlotsFrom("", ts[1..])
  }

  function Slots(ts: seq<Token>): seq<string> {
    SlotsFrom("", ts)
  }

  /** Pairs balanced and never nested, no placeholders; `open` is the pair being read, if any. */
  predicate Flat(ts: seq<Token>, open: seq<nat>) {
    if ts == [] then open == []
    else match ts[0]
      case Text(_) => Flat(ts[1..], open)
      case Void(_) => Flat(ts[1..], open)
      case Open(id) => open == [] && Flat(ts[1..], [id])
      case Close(id) => open != [] && open[|open| - 1] == id && Flat(ts[1..], open[..|open| - 1])
      case Entity(_, _) => false
  }

  function Name(t: Token): string
    requires !t.Text?
  {
    match t
    case Open(id) => "o" + Decimal(id)
    case Close(id) => "c" + Decimal(id)
    case Void(id) => "v" + Decimal(id)
    case Entity(kind, id) => "e" + Decimal(id)
  }

  function Names(ts: seq<Token>): seq<string> {
    if ts == [] then [] else (if ts[0].Text? then [] else [Name(ts[0])]) + Names(ts[1..])
  }

  /** As a marker is written: a void keeps the digits it came with. */
  function RawName(m: Token, body: string): string
    requires !m.Text?
  {
    if m.Void? && |body| >= 2 then "v" + body[1..|body| - 1] else Name(m)
  }

  /** The names of the markers of some readable wire text, as they are written. */
  function NamesIn(ds: Digits, s: string): seq<string>
    decreases |s|
  {
    if s == "" then []
    else match Next(ds, s, 0, false)
      case Bad(_) => []
      case Character(_, n) => NamesIn(ds, s[n..])
      case Marker(m, n) => [RawName(m, s[1..n - 1])] + NamesIn(ds, s[n..])
  }

  // ---- one marker ----

  lemma DigitRunIs(d: string, rest: string)
    requires forall i :: 0 <= i < |d| ==> ASCII.IsDigit(d[i])
    requires rest != "" ==> !ASCII.IsDigit(rest[0])
    ensures DigitRun(d + rest) == d
  {
    var s := d + rest;
    var r := DigitRun(s);
    assert forall i :: 0 <= i < |d| ==> s[i] == d[i];
    assert forall i :: 0 <= i < |rest| ==> s[|d| + i] == rest[i];
    assert forall i :: 0 <= i < |r| ==> s[i] == r[i];
    assert |r| == |d|;
    assert r == s[..|d|];
  }

  lemma MarkIs(s: string, prefix: string, d: string, suffix: string, tail: string)
    requires s == [OPEN] + prefix + (d + (suffix + [CLOSE] + tail))
    requires AllDigits(ASCII, d) && (suffix == "" || suffix == "/")
    ensures MarkAt(s, prefix, suffix) == Some(d)
  {
    var rest := d + (suffix + [CLOSE] + tail);
    assert [OPEN] + prefix <= s && s[1 + |prefix|..] == rest;
    DigitRunIs(d, suffix + [CLOSE] + tail);
    assert rest[|d|..] == suffix + [CLOSE] + tail;
  }

  /** What a mark found says of the text. */
  lemma MarkSays(s: string, prefix: string, suffix: string)
    requires MarkAt(s, prefix, suffix).Some?
    ensures var d := MarkAt(s, prefix, suffix).value;
            s == [OPEN] + (prefix + d + suffix) + [CLOSE] + s[|prefix| + |d| + |suffix| + 2..]
  {
    hide AllDigits;
    var d := MarkAt(s, prefix, suffix).value;
    var a := 1 + |prefix|;
    var rest := s[a..];
    var after := rest[|d|..];
    var tail := after[|suffix| + 1..];
    PrefixRest([OPEN] + prefix, s);
    PrefixRest(d, rest);
    PrefixRest(suffix + [CLOSE], after);
    assert tail == s[a + |d| + |suffix| + 1..];
    SixPieces(s, prefix, d, suffix, rest, tail);
  }

  lemma PrefixRest(p: string, s: string)
    requires p <= s
    ensures s == p + s[|p|..]
  {
  }

  lemma SixPieces(s: string, prefix: string, d: string, suffix: string, rest: string, tail: string)
    requires s == [OPEN] + prefix + rest && rest == d + (suffix + [CLOSE] + tail)
    ensures s == [OPEN] + (prefix + d + suffix) + [CLOSE] + tail
  {
    Assoc(d, suffix + [CLOSE], tail);
    Assoc(d, suffix, [CLOSE]);
    Assoc([OPEN], prefix, rest);
    Assoc(prefix, d + suffix + [CLOSE], tail);
    Assoc(prefix, d + suffix, [CLOSE]);
    Assoc(prefix, d, suffix);
    Assoc([OPEN], prefix + d + suffix + [CLOSE], tail);
    Assoc([OPEN], prefix + d + suffix, [CLOSE]);
  }

  /** A body without delimiters between delimiters is the next marker. */
  lemma NextBody(s: string, body: string, tail: string)
    requires s == [OPEN] + body + [CLOSE] + tail && body != ""
    requires forall i :: 0 <= i < |body| ==> !IsDelimiter(body[i])
    ensures Next(ASCII, s, 0, false) ==
            var m := ReadMarker(ASCII, body, false);
            if m.Err? then Bad(m.error) else Marker(m.value, |body| + 2)
    ensures s[1..|body| + 1] == body
  {
    assert s[|body| + 1] == CLOSE && s[1] == body[0];
    assert forall i :: 1 <= i < |body| + 1 ==> s[i] == body[i - 1];
    FindIs(s, CLOSE, 1, |body| + 1);
    assert s[1..|body| + 1] == body;
  }

  /** The widget's three patterns find a marker exactly where there is one in ASCII digits, and the same one. */
  lemma AsciiMarkIsNext(s: string)
    requires s != "" && s[0] == OPEN && !([OPEN, OPEN] <= s)
    ensures var v, c, o, next := MarkAt(s, "v", "/"), MarkAt(s, "/", ""), MarkAt(s, "", ""), Next(ASCII, s, 0, false);
            if v.Some? then next == Marker(Void(Number(ASCII, v.value)), |v.value| + 4) && s[1..next.n - 1] == "v" + v.value + "/"
            else if c.Some? then next == Marker(Close(Number(ASCII, c.value)), |c.value| + 3)
            else if o.Some? then next == Marker(Open(Number(ASCII, o.value)), |o.value| + 2)
            else next.Bad?
  {
    var v, c, o := MarkAt(s, "v", "/"), MarkAt(s, "/", ""), MarkAt(s, "", "");
    if v.Some? {
      MarkFound(s, "v", "/");
    } else if c.Some? {
      MarkFound(s, "/", "");
    } else if o.Some? {
      MarkFound(s, "", "");
    } else {
      NoMark(s);
    }
  }

  lemma ReadBody(d: string)
    requires AllDigits(ASCII, d)
    ensures ReadMarker(ASCII, "v" + d + "/", false) == Ok(Void(Number(ASCII, d)))
    ensures ReadMarker(ASCII, "/" + d + "", false) == Ok(Close(Number(ASCII, d)))
    ensures ReadMarker(ASCII, "" + d + "", false) == Ok(Open(Number(ASCII, d)))
  {
    hide Number, AllDigits, ReadMarker;
    ReadVoid(d);
    ReadClose(d);
    ReadOpen(d);
  }

  lemma ReadOpen(d: string)
    requires AllDigits(ASCII, d)
    ensures ReadMarker(ASCII, "" + d + "", false) == Ok(Open(Number(ASCII, d)))
  {
    assert "" + d + "" == d;
    hide Number, AllDigits;
  }

  lemma ReadVoid(d: string)
    requires AllDigits(ASCII, d)
    ensures ReadMarker(ASCII, "v" + d + "/", false) == Ok(Void(Number(ASCII, d)))
  {
    var v := "v" + d + "/";
    assert v[0] == 'v' && v[|v| - 1] == '/' && v[1..|v| - 1] == d;
    assert !ASCII.IsDigit(v[0]) && !AllDigits(ASCII, v);
    hide Number, AllDigits;
  }

  lemma ReadClose(d: string)
    requires AllDigits(ASCII, d)
    ensures ReadMarker(ASCII, "/" + d + "", false) == Ok(Close(Number(ASCII, d)))
  {
    var c := "/" + d + "";
    assert c[0] == '/' && c[1..] == d;
    assert !ASCII.IsDigit(c[0]) && !AllDigits(ASCII, c);
    hide Number, AllDigits;
  }

  lemma MarkFound(s: string, prefix: string, suffix: string)
    requires (prefix, suffix) in {("v", "/"), ("/", ""), ("", "")} && MarkAt(s, prefix, suffix).Some?
    ensures var d := MarkAt(s, prefix, suffix).value;
            var body := prefix + d + suffix;
            Next(ASCII, s, 0, false) == Marker(ReadMarker(ASCII, body, false).value, |body| + 2) && s[1..|body| + 1] == body
            && ReadMarker(ASCII, body, false) == Ok(if prefix == "v" then Void(Number(ASCII, d))
                                                     else if prefix == "/" then Close(Number(ASCII, d)) else Open(Number(ASCII, d)))
  {
    hide MarkAt, ReadMarker, Next;
    var d := MarkAt(s, prefix, suffix).value;
    var body := prefix + d + suffix;
    MarkSays(s, prefix, suffix);
    ReadBody(d);
    assert forall i :: 0 <= i < |d| ==> ASCII.IsDigit(d[i]);
    NextBody(s, body, s[|body| + 2..]);
  }

  /** Where no pattern matches, the server reads no marker either. */
  lemma NoMark(s: string)
    requires s != "" && s[0] == OPEN && !([OPEN, OPEN] <= s)
    requires MarkAt(s, "v", "/").None? && MarkAt(s, "/", "").None? && MarkAt(s, "", "").None?
    ensures Next(ASCII, s, 0, false).Bad?
  {
    hide MarkAt, Next, ReadMarker;
    LoneDelimiter(ASCII, s);
    var next := Next(ASCII, s, 0, false);
    if next.Marker? {
      MarkerWireIs(ASCII, s, false);
      BodyMatches(s, s[1..next.n - 1], s[next.n..]);
    }
  }

  lemma LoneDelimiter(ds: Digits, s: string)
    requires s != "" && s[0] == OPEN && !([OPEN, OPEN] <= s)
    ensures !Next(ds, s, 0, false).Character?
  {
    hide ReadMarker, Find;
    assert |s| > 1 && s[1] == OPEN ==> [OPEN, OPEN] <= s;
  }

  /** A body the server reads as a marker matches one of the widget's patterns. */
  lemma BodyMatches(s: string, body: string, tail: string)
    requires s == [OPEN] + body + [CLOSE] + tail && ReadMarker(ASCII, body, false).Ok?
    ensures MarkAt(s, "v", "/").Some? || MarkAt(s, "/", "").Some? || MarkAt(s, "", "").Some?
  {
    hide MarkAt, DigitRun, Number;
    if AllDigits(ASCII, body) {
      assert s == [OPEN] + "" + (body + ("" + [CLOSE] + tail));
      MarkIs(s, "", body, "", tail);
    } else if body[0] == '/' && AllDigits(ASCII, body[1..]) {
      SlashBody(s, body, tail);
      MarkIs(s, "/", body[1..], "", tail);
    } else {
      VoidBody(s, body, tail);
      MarkIs(s, "v", body[1..|body| - 1], "/", tail);
    }
  }

  lemma SlashBody(s: string, body: string, tail: string)
    requires s == [OPEN] + body + [CLOSE] + tail && body != "" && body[0] == '/'
    ensures s == [OPEN] + "/" + (body[1..] + ("" + [CLOSE] + tail))
  {
    assert body == "/" + body[1..];
  }

  lemma VoidBody(s: string, body: string, tail: string)
    requires s == [OPEN] + body + [CLOSE] + tail && |body| > 2 && body[0] == 'v' && body[|body| - 1] == '/'
    ensures s == [OPEN] + "v" + (body[1..|body| - 1] + ("/" + [CLOSE] + tail))
  {
    var d := body[1..|body| - 1];
    assert body == "v" + d + "/";
    Assoc("v" + d, "/", [CLOSE]);
    Assoc("v", d, "/" + [CLOSE]);
  }

  // ---- agreement ----

  /** What the server's reading says the widget should answer, from some point on. */
  function Expected(ds: Digits, s: string, r: Reading): Option<Decoded> {
    var read := Scan(ds, s, r.current, false);
    if read.Ok? && Flat(read.value, r.open)
    then Some(Decoded(r.slots + SlotsFrom("", read.value), r.markers + NamesIn(ds, s)))
    else None
  }

  lemma FlushedSlots(buf: string, m: Token, more: seq<Token>, open: seq<nat>)
    requires !m.Text?
    ensures SlotsFrom("", Flushed(buf) + [m] + more) == [buf] + SlotsFrom("", more)
    ensures Flat(Flushed(buf) + [m] + more, open) == Flat([m] + more, open)
  {
    var ts := Flushed(buf) + [m] + more;
    if buf == "" {
      assert ts == [m] + more && ts[1..] == more;
    } else {
      assert ts[1..] == [m] + more && ts[1..][1..] == more;
      assert "" + buf == buf;
    }
  }

  lemma ExpectedEnd(r: Reading)
    ensures Expected(ASCII, "", r) == if r.open != [] then None else Some(Decoded(r.slots + [r.current], r.markers))
  {
    if r.current != "" {
      assert Flushed(r.current)[1..] == [] && "" + r.current == r.current;
      assert Flat(Flushed(r.current), r.open) == Flat([], r.open);
      assert SlotsFrom("", Flushed(r.current)) == SlotsFrom(r.current, []);
    }
    assert r.markers + [] == r.markers && NamesIn(ASCII, "") == [];
  }

  lemma ExpectedCharacter(s: string, r: Reading)
    requires s != "" && Next(ASCII, s, 0, false).Character?
    ensures var next := Next(ASCII, s, 0, false); Expected(ASCII, s, r) == Expected(ASCII, s[next.n..], r.Say([next.c]))
  {
  }

  /** What is expected behind a marker. */
  function PastMarker(rest: string, r: Reading, m: Token, name: string): Option<Decoded> {
    match m
    case Void(_) => Expected(ASCII, rest, r.Mark(name, r.open))
    case Open(id) => if r.open != [] then None else Expected(ASCII, rest, r.Mark(name, [id]))
    case Close(id) =>
      if r.open == [] || r.open[|r.open| - 1] != id then None
      else Expected(ASCII, rest, r.Mark(name, r.open[..|r.open| - 1]))
    case Entity(_, _) => None
    case Text(_) => None
  }

  lemma ExpectedMarker(s: string, r: Reading)
    requires s != "" && Next(ASCII, s, 0, false).Marker?
    ensures var next := Next(ASCII, s, 0, false);
            var name := RawName(next.m, s[1..next.n - 1]);
            Expected(ASCII, s, r) == PastMarker(s[next.n..], r, next.m, name)
  {
    hide Next, RawName;
    MarkerWireIs(ASCII, s, false);
    var next := Next(ASCII, s, 0, false);
    var name := RawName(next.m, s[1..next.n - 1]);
    var read := Scan(ASCII, s[next.n..], "", false);
    if read.Ok? {
      var more := read.value;
      FlushedSlots(r.current, next.m, more, r.open);
      assert ([next.m] + more)[1..] == more;
      Assoc(r.slots, [r.current], SlotsFrom("", more));
      Assoc(r.markers, [name], NamesIn(ASCII, s[next.n..]));
    }
  }

  /** The widget reads the server's grammar as it would be with ASCII digits only. */
  lemma {:induction false} ReadsAscii(s: string, r: Reading)
    ensures DecodeFrom(s, r) == Expected(ASCII, s, r)
    decreases |s|
  {
    hide MarkAt, Expected;
    if s == "" {
      ExpectedEnd(r);
    } else {
      var next := Next(ASCII, s, 0, false);
      if next.Character? {
        ExpectedCharacter(s, r);
        ReadsAscii(s[next.n..], r.Say([next.c]));
      } else if next.Marker? {
        AsciiMarkIsNext(s);
        ExpectedMarker(s, r);
        assert s[0] == OPEN && !([OPEN, OPEN] <= s);
        MarkerStep(s, r);
      } else {
        if s[0] == OPEN { AsciiMarkIsNext(s); }
        ExpectedBad(s, r);
      }
    }
  }

  lemma ExpectedBad(s: string, r: Reading)
    requires s != "" && Next(ASCII, s, 0, false).Bad?
    ensures Expected(ASCII, s, r) == None
  {
  }

  lemma {:induction false} MarkerStep(s: string, r: Reading)
    requires s != "" && Next(ASCII, s, 0, false).Marker? && s[0] == OPEN && !([OPEN, OPEN] <= s)
    ensures DecodeFrom(s, r) == Expected(ASCII, s, r)
    decreases |s|, 0
  {
    hide MarkAt, Expected, Next;
    var next := Next(ASCII, s, 0, false);
    MarkerWireIs(ASCII, s, false);
    AsciiMarkIsNext(s);
    ExpectedMarker(s, r);
    var name := RawName(next.m, s[1..next.n - 1]);
    if next.m.Void? {
      ReadsAscii(s[next.n..], r.Mark(name, r.open));
    } else if next.m.Open? {
      ReadsAscii(s[next.n..], r.Mark(name, [next.m.id]));
    } else if next.m.Close? && r.open != [] {
      ReadsAscii(s[next.n..], r.Mark(name, r.open[..|r.open| - 1]));
    }
  }

  // ---- digits of other scripts ----

  /** Every digit in the body of a marker is an ASCII digit. */
  ghost predicate AsciiBody(ds: Digits, body: string) {
    forall i :: 0 <= i < |body| && ds.IsDigit(body[i]) ==> ASCII.IsDigit(body[i])
  }

  /** Every marker, as far as the text can be read, is written in ASCII digits. */
  ghost predicate AsciiWire(ds: Digits, s: string)
    decreases |s|
  {
    if s == "" then true
    else match Next(ds, s, 0, false)
      case Bad(_) => true
      case Character(_, n) => AsciiWire(ds, s[n..])
      case Marker(_, n) => AsciiBody(ds, s[1..n - 1]) && AsciiWire(ds, s[n..])
  }

  lemma AsciiIsDigit(ds: Digits, c: char)
    requires ds.Lawful() && ASCII.IsDigit(c)
    ensures ds.IsDigit(c) && ds.value(c) == ASCII.value(c)
  {
    assert DigitChar(c as int - '0' as int) == c;
  }

  lemma {:induction false} AsciiNumber(ds: Digits, d: string)
    requires ds.Lawful() && forall i :: 0 <= i < |d| ==> ASCII.IsDigit(d[i])
    ensures (forall i :: 0 <= i < |d| ==> ds.IsDigit(d[i])) && Number(ds, d) == Number(ASCII, d)
  {
    forall i | 0 <= i < |d| ensures ds.IsDigit(d[i]) { AsciiIsDigit(ds, d[i]); }
    if d != "" {
      AsciiNumber(ds, d[..|d| - 1]);
      AsciiIsDigit(ds, d[|d| - 1]);
    }
  }

  lemma AsciiAllDigits(ds: Digits, d: string)
    requires ds.Lawful()
    ensures AllDigits(ASCII, d) <==> AllDigits(ds, d) && AsciiBody(ds, d)
    ensures AllDigits(ASCII, d) ==> Number(ds, d) == Number(ASCII, d)
  {
    hide Number;
    if AllDigits(ASCII, d) { AsciiNumber(ds, d); }
  }

  /** The three bodies, cut up. */
  lemma BodyParts(ds: Digits, body: string)
    requires ds.Lawful() && body != ""
    ensures body[0] == '/' ==> !ds.IsDigit(body[0]) && (AsciiBody(ds, body) <==> AsciiBody(ds, body[1..]))
    ensures |body| > 2 && body[0] == 'v' && body[|body| - 1] == '/' ==>
            !ds.IsDigit(body[0]) && (AsciiBody(ds, body) <==> AsciiBody(ds, body[1..|body| - 1]))
  {
    if body[0] == '/' {
      assert body == ['/'] + body[1..];
    } else if |body| > 2 && body[0] == 'v' && body[|body| - 1] == '/' {
      assert body == ['v'] + body[1..|body| - 1] + ['/'];
    }
  }

  /** A body read as a marker is read alike with ASCII digits only, if those are its digits, and otherwise not at all. */
  lemma ReadAscii(ds: Digits, body: string)
    requires ds.Lawful()
    ensures var all, ascii := ReadMarker(ds, body, false), ReadMarker(ASCII, body, false);
            if all.Ok? && AsciiBody(ds, body) then ascii == all else ascii.Err?
  {
    hide Number, AllDigits, AsciiBody, KindLength;
    AsciiIsLawful();
    AsciiAllDigits(ds, body);
    if body != "" {
      BodyParts(ds, body);
      if body[0] == '/' {
        AsciiAllDigits(ds, body[1..]);
        NotAllDigits(ds, body);
        NotAllDigits(ASCII, body);
      } else if |body| > 2 && body[0] == 'v' && body[|body| - 1] == '/' {
        AsciiAllDigits(ds, body[1..|body| - 1]);
        NotAllDigits(ds, body);
        NotAllDigits(ASCII, body);
      }
    }
  }

  lemma NotAllDigits(ds: Digits, body: string)
    requires ds.Lawful() && body != "" && (body[0] == '/' || body[0] == 'v')
    ensures !AllDigits(ds, body)
  {
  }

  /** Where the two grammars' next steps part: at a marker with a digit of another script. */
  lemma NextAscii(ds: Digits, s: string)
    requires ds.Lawful() && s != ""
    ensures var all, ascii := Next(ds, s, 0, false), Next(ASCII, s, 0, false);
            if all.Bad? || (all.Marker? && !AsciiBody(ds, s[1..all.n - 1])) then ascii.Bad? else ascii == all
  {
    hide ReadMarker, AsciiBody, Find;
    var end := Find(s, CLOSE, 1);
    if end != -1 { ReadAscii(ds, s[1..end]); }
  }

  /** The server reads the text alike with ASCII digits only, if its markers are in them, and otherwise not at all. */
  lemma {:induction false} ScanAscii(ds: Digits, s: string, buf: string)
    requires ds.Lawful()
    ensures var all, ascii := Scan(ds, s, buf, false), Scan(ASCII, s, buf, false);
            if all.Ok? && AsciiWire(ds, s) then ascii == all && NamesIn(ASCII, s) == NamesIn(ds, s) else ascii.Err?
    decreases |s|
  {
    hide Next, AsciiBody, RawName;
    if s != "" {
      NextAscii(ds, s);
      var next := Next(ds, s, 0, false);
      if next.Character? {
        ScanAscii(ds, s[next.n..], buf + [next.c]);
      } else if next.Marker? {
        ScanAscii(ds, s[next.n..], "");
      }
    }
  }

  /**
   The widget's three patterns match exactly where the server reads a marker that is no placeholder
   and has ASCII digits only, and the same one.
   */
  lemma MarkIsNext(ds: Digits, s: string)
    requires ds.Lawful() && s != "" && s[0] == OPEN && !([OPEN, OPEN] <= s)
    ensures var v, c, o, next := MarkAt(s, "v", "/"), MarkAt(s, "/", ""), MarkAt(s, "", ""), Next(ds, s, 0, false);
            && (v.Some? || c.Some? || o.Some? <==> next.Marker? && AsciiBody(ds, s[1..next.n - 1]))
            && (v.Some? ==> AllDigits(ds, v.value) && next == Marker(Void(Number(ds, v.value)), |v.value| + 4))
            && (!v.Some? && c.Some? ==> AllDigits(ds, c.value) && next == Marker(Close(Number(ds, c.value)), |c.value| + 3))
            && (!v.Some? && !c.Some? && o.Some? ==> AllDigits(ds, o.value) && next == Marker(Open(Number(ds, o.value)), |o.value| + 2))
  {
    hide Next, AsciiBody, Number, AllDigits;
    AsciiMarkIsNext(s);
    NextAscii(ds, s);
    LoneDelimiter(ds, s);
    var v, c, o := MarkAt(s, "v", "/"), MarkAt(s, "/", ""), MarkAt(s, "", "");
    if v.Some? { AsciiAllDigits(ds, v.value); }
    if c.Some? { AsciiAllDigits(ds, c.value); }
    if o.Some? { AsciiAllDigits(ds, o.value); }
  }

  /**
   On every text whose marker digits are all ASCII the widget decodes exactly what the server reads
   as flat wire text without placeholders, with the same slots, and refuses everything else.  A text
   with a marker digit of another script it refuses, so there the two agree only where the server
   refuses too.
   */
  lemma WidgetReadsTheGrammar(ds: Digits, s: string, r: Reading)
    requires ds.Lawful()
    ensures DecodeFrom(s, r) == if AsciiWire(ds, s) then Expected(ds, s, r) else None
    ensures DecodeFrom(s, r) == Expected(ds, s, r) <==> AsciiWire(ds, s) || Expected(ds, s, r).None?
  {
    hide DecodeFrom, Scan, AsciiWire, NamesIn, SlotsFrom, Flat;
    ReadsAscii(s, r);
    ScanAscii(ds, s, r.current);
  }

  lemma ArabicOne(ds: Digits)
    requires ds.Lawful() && ds.value('\U{0661}') == 1
    ensures ReadMarker(ds, ['v', '\U{0661}', '/'], false) == Ok(Void(1)) && !AsciiBody(ds, ['v', '\U{0661}', '/'])
  {
    var d: string := ['\U{0661}'];
    var body := ['v', '\U{0661}', '/'];
    assert body[1..|body| - 1] == d && d[..0] == "";
    assert Number(ds, d) == 10 * Number(ds, d[..0]) + 1;
    NotAllDigits(ds, body);
    assert ds.IsDigit(body[1]) && !ASCII.IsDigit(body[1]);
  }

  lemma ArabicNext(ds: Digits)
    requires ds.Lawful() && ds.value('\U{0661}') == 1
    ensures Next(ds, [OPEN, 'v', '\U{0661}', '/', CLOSE], 0, false) == Marker(Void(1), 5)
  {
    hide ReadMarker, AsciiBody;
    var s := [OPEN, 'v', '\U{0661}', '/', CLOSE];
    ArabicOne(ds);
    FindIs(s, CLOSE, 1, 4);
    assert s[1..4] == ['v', '\U{0661}', '/'];
    assert forall i :: 1 <= i < 5 ==> s[i] != OPEN;
  }

  /** A void numbered with an Arabic-Indic one: the server reads it, the widget refuses it. */
  lemma ArabicDigitIsRefused(ds: Digits)
    requires ds.Lawful() && ds.value('\U{0661}') == 1
    ensures var s := [OPEN, 'v', '\U{0661}', '/', CLOSE];
            && Scan(ds, s, "", false) == Ok([Void(1)]) && Flat([Void(1)], [])
            && DecodeFrom(s, START) == None
  {
    var s := [OPEN, 'v', '\U{0661}', '/', CLOSE];
    ArabicNext(ds);
    ArabicOne(ds);
    hide Next, ReadMarker, AsciiBody;
    var body: string := ['v', '\U{0661}', '/'];
    assert |s| == 5 && s[5..] == "";
    assert s[1..4] == body;
    var none: seq<Token> := [];
    assert Scan(ds, s[5..], "", false) == Ok(none);
    assert Flushed("") + [Void(1)] + none == [Void(1)];
    assert Scan(ds, s, "", false) == Prepend(Flushed("") + [Void(1)], Ok(none));
    assert !AsciiWire(ds, s);
    assert Flat([Void(1)], []) == Flat([Void(1)][1..], []);
    hide *;
    WidgetReadsTheGrammar(ds, s, START);
  }

  // ---- the server's wire text ----

  lemma {:induction false} NamesWhenCanonical(s: string, buf: string)
    requires Scan(ASCII, s, buf, false).Ok? && CanonicalWire(ASCII, s, false)
    ensures NamesIn(ASCII, s) == Names(Scan(ASCII, s, buf, false).value)
    decreases |s|
  {
    hide Next, ReadMarker, CanonicalBody;
    if s != "" {
      var next := Next(ASCII, s, 0, false);
      if next.Character? {
        NamesWhenCanonical(s[next.n..], buf + [next.c]);
      } else {
        MarkerWireIs(ASCII, s, false);
        NamesWhenCanonical(s[next.n..], "");
        RawNameWhenCanonical(next.m, s[1..next.n - 1]);
        var more := Scan(ASCII, s[next.n..], "", false).value;
        FlushedNames(buf, next.m, more);
      }
    } else {
      FlushedNames(buf, Void(0), []);
    }
  }

  lemma FlushedNames(buf: string, m: Token, more: seq<Token>)
    requires !m.Text?
    ensures Names(Flushed(buf) + [m] + more) == [Name(m)] + Names(more)
    ensures Names(Flushed(buf)) == []
  {
    var ts := Flushed(buf) + [m] + more;
    if buf == "" {
      assert ts == [m] + more && ts[1..] == more;
    } else {
      assert ts[1..] == [m] + more && ts[1..][1..] == more && Flushed(buf)[1..] == [];
    }
  }

  lemma RawNameWhenCanonical(m: Token, body: string)
    requires ReadMarker(ASCII, body, false) == Ok(m) && CanonicalBody(ASCII, body)
    ensures !m.Text? && RawName(m, body) == Name(m)
  {
    hide Number, Decimal, CanonicalDigits;
    if m.Void? {
      DecimalOfNumber(ASCII, body[1..|body| - 1]);
    }
  }

  /** From the server's wire text the widget reads the segment's own slots and markers. */
  lemma WidgetReadsServer(ts: seq<Token>)
    requires Merged(ts) && !HasEntity(ts)
    ensures DecodeFrom(ToWire(ts), START) == if Flat(ts, []) then Some(Decoded(Slots(ts), Names(ts))) else None
  {
    hide DecodeFrom, Scan, CanonicalWire, NamesIn, Names, SlotsFrom, Flat;
    AsciiIsLawful();
    ReadsAscii(ToWire(ts), START);
    PrintThenParse(ASCII, ts, false);
    ParseThenPrint(ASCII, ToWire(ts), false);
    NamesWhenCanonical(ToWire(ts), "");
    assert [] + SlotsFrom("", ts) == SlotsFrom("", ts) && [] + NamesIn(ASCII, ToWire(ts)) == NamesIn(ASCII, ToWire(ts));
  }

  // ---- the same markers ----

  predicate SameMarkers(a: Decoded, b: Decoded) {
    |a.markers| == |b.markers| && forall i :: 0 <= i < |a.markers| ==> a.markers[i] == b.markers[i]
  }

  lemma NameIsUnique(a: Token, b: Token)
    requires IsTag(a) && IsTag(b) && Name(a) == Name(b)
    ensures a == b
  {
    assert Name(a)[0] == Name(b)[0];
    assert Name(a)[1..] == Decimal(a.id) && Name(b)[1..] == Decimal(b.id);
    AsciiIsLawful();
    NumberOfDecimal(ASCII, a.id);
    NumberOfDecimal(ASCII, b.id);
  }

  lemma {:induction false} NamesAreTags(a: seq<Token>, b: seq<Token>)
    requires !HasEntity(a) && !HasEntity(b)
    ensures Names(a) == Names(b) <==> TagStructure(a) == TagStructure(b)
  {
    hide Name, Names, TagStructure;
    FirstMarker(a);
    FirstMarker(b);
    if a != [] && a[0].Text? {
      NamesAreTags(a[1..], b);
    } else if b != [] && b[0].Text? {
      NamesAreTags(a, b[1..]);
    } else if a != [] && b != [] {
      assert IsTag(a[0]) && IsTag(b[0]);
      NamesAreTags(a[1..], b[1..]);
      if Name(a[0]) == Name(b[0]) { NameIsUnique(a[0], b[0]); }
      SameHeads(Name(a[0]), Names(a[1..]), Name(b[0]), Names(b[1..]));
      SameHeads(a[0], TagStructure(a[1..]), b[0], TagStructure(b[1..]));
    }
  }

  lemma SameHeads<T>(x: T, xs: seq<T>, y: T, ys: seq<T>)
    ensures [x] + xs == [y] + ys <==> x == y && xs == ys
  {
    assert ([x] + xs)[0] == x && ([x] + xs)[1..] == xs && ([y] + ys)[0] == y && ([y] + ys)[1..] == ys;
  }

  lemma FirstMarker(a: seq<Token>)
    ensures a == [] ==> Names(a) == [] && TagStructure(a) == []
    ensures a != [] && a[0].Text? ==> Names(a) == Names(a[1..]) && TagStructure(a) == TagStructure(a[1..])
    ensures a != [] && IsTag(a[0]) ==> Names(a) == [Name(a[0])] + Names(a[1..]) && TagStructure(a) == [a[0]] + TagStructure(a[1..])
  {
  }

  /** The widget accepts a translation for its block exactly when the server's tag check would. */
  lemma SameMarkersIsSameTags(a: seq<Token>, b: seq<Token>)
    requires Merged(a) && Merged(b) && !HasEntity(a) && !HasEntity(b) && Flat(a, []) && Flat(b, [])
    ensures var x, y := DecodeFrom(ToWire(a), START), DecodeFrom(ToWire(b), START);
            x.Some? && y.Some? && (SameMarkers(x.value, y.value) <==> TagStructure(a) == TagStructure(b))
  {
    hide DecodeFrom, Names, SlotsFrom, Flat, TagStructure, ToWire;
    WidgetReadsServer(a);
    WidgetReadsServer(b);
    NamesAreTags(a, b);
  }

  // ---- the encoder ----

  /** What the extractor meets in a block: a text node, an opaque element, an inline element's texts. */
  datatype Item = TextNode(value: string) | Opaque | Inline(values: seq<string>)

  function Texts(values: seq<string>): seq<Token> {
    if values == [] then [] else Texts(values[..|values| - 1]) + [Text(values[|values| - 1])]
  }

  function AddItem(ts: seq<Token>, n: nat, item: Item): (seq<Token>, nat) {
    match item
    case TextNode(v) => (ts + [Text(v)], n)
    case Opaque => (ts + [Void(n + 1)], n + 1)
    case Inline(vs) => (ts + ([Open(n + 1)] + Texts(vs) + [Close(n + 1)]), n + 1)
  }

  /** The segment a block stands for, and the number of markers in it. */
  function Encoded(items: seq<Item>): (r: (seq<Token>, nat)) {
    if items == [] then ([], 0)
    else
      var (ts, n) := Encoded(items[..|items| - 1]);
      AddItem(ts, n, items[|items| - 1])
  }

  function Joined(values: seq<string>): string {
    if values == [] then "" else Joined(values[..|values| - 1]) + values[|values| - 1]
  }

  function Read(slots: seq<seq<string>>): seq<string> {
    seq(|slots|, i requires 0 <= i < |slots| => Joined(slots[i]))
  }

  class Encoder {
    var parts: seq<string>
    var slots: seq<seq<string>>
    var counter: nat
    ghost var items: seq<Item>

    /** The parts spell the segment of the items met so far, and the slots hold its texts. */
    ghost predicate Valid()
      reads this
    {
      && counter == Encoded(items).1 && slots != []
      && Joined(parts) == ToWire(Encoded(items).0)
      && Read(slots) == Slots(Encoded(items).0)
    }

    constructor ()
      ensures Valid() && items == []
    {
      parts, slots, counter, items := [], [[]], 0, [];
      new;
      assert Read([[]]) == [""];
    }

    method AddText(value: string)
      requires Valid()
      modifies this
      ensures Valid() && items == old(items) + [TextNode(value)]
    {
      hide Read, Joined, SlotsFrom, Encoded, ToWire, Escape;
      ghost var ts := Encoded(items).0;
      ItemsSnoc(items, TextNode(value));
      ToWireSnoc(ts, Text(value));
      SlotsText(ts, value);
      ReadText(slots, value);
      JoinedSnoc(parts, Escape(value));
      slots := slots[|slots| - 1 := slots[|slots| - 1] + [value]];
      parts := parts + [Escape(value)];
      items := items + [TextNode(value)];
    }

    method AddVoid()
      requires Valid()
      modifies this
      ensures Valid() && items == old(items) + [Opaque]
    {
      hide Read, Joined, SlotsFrom, Encoded, ToWire, Decimal;
      ghost var ts := Encoded(items).0;
      ItemsSnoc(items, Opaque);
      ToWireSnoc(ts, Void(counter + 1));
      SlotsMark(ts, Void(counter + 1));
      ReadPush(slots, []);
      counter := counter + 1;
      JoinedSnoc(parts, [OPEN] + ("v" + Decimal(counter) + "/") + [CLOSE]);
      parts := parts + [[OPEN] + ("v" + Decimal(counter) + "/") + [CLOSE]];
      slots := slots + [[]];
      items := items + [Opaque];
    }

    method AddInline(values: seq<string>)
      requires Valid()
      modifies this
      ensures Valid() && items == old(items) + [Inline(values)]
    {
      hide Read, Joined, SlotsFrom, Encoded, ToWire;
      ghost var ts := Encoded(items).0;
      ghost var was := slots;
      ItemsSnoc(items, Inline(values));
      counter := counter + 1;
      var n := counter;
      ghost var opening := ts + [Open(n)];
      ToWireSnoc(ts, Open(n));
      JoinedSnoc(parts, [OPEN] + Decimal(n) + [CLOSE]);
      parts := parts + [[OPEN] + Decimal(n) + [CLOSE]];
      slots := slots + [values];
      assert opening + Texts(values[..0]) == opening;
      for i := 0 to |values|
        invariant slots == was + [values] && counter == n
        invariant items == old(items)
        invariant Joined(parts) == ToWire(opening + Texts(values[..i]))
      {
        TextsStep(values, i, opening);
        ToWireSnoc(opening + Texts(values[..i]), Text(values[i]));
        JoinedSnoc(parts, Escape(values[i]));
        parts := parts + [Escape(values[i])];
      }
      assert values[..|values|] == values;
      ToWireSnoc(opening + Texts(values), Close(n));
      JoinedSnoc(parts, [OPEN] + ("/" + Decimal(n)) + [CLOSE]);
      parts := parts + [[OPEN] + ("/" + Decimal(n)) + [CLOSE]];
      slots := slots + [[]];
      items := items + [Inline(values)];
      SlotsInline(ts, n, values);
      ReadPush(was, values);
      ReadPush(was + [values], []);
      InlineTogether(ts, n, values);
    }

    /** The wire text and the texts of its slots, or nothing when there is nothing to translate. */
    method Finish(hasLetter: string -> bool) returns (r: Option<(string, seq<string>)>)
      requires Valid()
      ensures r == if hasLetter(Joined(Slots(Encoded(items).0)))
                   then Some((ToWire(Encoded(items).0), Slots(Encoded(items).0))) else None
    {
      var read := Read(slots);
      if !hasLetter(Joined(read)) {
        return None;
      }
      r := Some((Joined(parts), read));
    }
  }

  lemma ItemsSnoc(items: seq<Item>, item: Item)
    ensures var (ts, n) := Encoded(items); Encoded(items + [item]) == AddItem(ts, n, item)
  {
    assert (items + [item])[..|items|] == items;
  }

  lemma ToWireSnoc(ts: seq<Token>, t: Token)
    ensures ToWire(ts + [t]) == ToWire(ts) + TokenWire(t)
  {
    ToWireConcat(ts, [t]);
    assert [t][1..] == [] && ToWire([t]) == TokenWire(t) + "";
  }

  lemma JoinedSnoc(parts: seq<string>, p: string)
    ensures Joined(parts + [p]) == Joined(parts) + p
  {
    assert (parts + [p])[..|parts|] == parts;
  }

  lemma TextsStep(values: seq<string>, i: nat, front: seq<Token>)
    requires i < |values|
    ensures front + Texts(values[..i + 1]) == front + Texts(values[..i]) + [Text(values[i])]
  {
    assert values[..i + 1][..i] == values[..i];
    Assoc(front, Texts(values[..i]), [Text(values[i])]);
  }

  lemma InlineTogether(ts: seq<Token>, n: nat, values: seq<string>)
    ensures ts + ([Open(n)] + Texts(values) + [Close(n)]) == ts + [Open(n)] + Texts(values) + [Close(n)]
  {
    Assoc(ts, [Open(n)] + Texts(values), [Close(n)]);
    Assoc(ts, [Open(n)], Texts(values));
  }

  lemma {:induction false} SlotsFromNonempty(current: string, ts: seq<Token>)
    ensures SlotsFrom(current, ts) != []
    decreases |ts|
  {
    if ts != [] && ts[0].Text? { SlotsFromNonempty(current + ts[0].value, ts[1..]); }
  }

  lemma {:induction false} SlotsFromText(current: string, ts: seq<Token>, v: string)
    ensures SlotsFrom(current, ts) != []
    ensures var s := SlotsFrom(current, ts); SlotsFrom(current, ts + [Text(v)]) == s[|s| - 1 := s[|s| - 1] + v]
    decreases |ts|
  {
    SlotsFromNonempty(current, ts);
    if ts == [] {
      assert [Text(v)][1..] == [];
    } else {
      assert (ts + [Text(v)])[1..] == ts[1..] + [Text(v)];
      SlotsFromText(if ts[0].Text? then current + ts[0].value else "", ts[1..], v);
    }
  }

  lemma SlotsText(ts: seq<Token>, v: string)
    ensures Slots(ts) != [] && var s := Slots(ts); Slots(ts + [Text(v)]) == s[|s| - 1 := s[|s| - 1] + v]
  {
    SlotsFromText("", ts, v);
  }

  lemma {:induction false} SlotsFromMark(current: string, ts: seq<Token>, m: Token)
    requires !m.Text?
    ensures SlotsFrom(current, ts + [m]) == SlotsFrom(current, ts) + [""]
    decreases |ts|
  {
    if ts == [] {
      assert [m][1..] == [] && [] + [m] == [m];
    } else {
      assert (ts + [m])[1..] == ts[1..] + [m];
      SlotsFromMark(if ts[0].Text? then current + ts[0].value else "", ts[1..], m);
    }
  }

  lemma SlotsMark(ts: seq<Token>, m: Token)
    requires !m.Text?
    ensures Slots(ts + [m]) == Slots(ts) + [""]
  {
    SlotsFromMark("", ts, m);
  }

  lemma {:induction false} SlotsTexts(ts: seq<Token>, front: seq<string>, values: seq<string>)
    requires Slots(ts) == front + [""]
    ensures Slots(ts + Texts(values)) == front + [Joined(values)]
  {
    hide SlotsFrom;
    if values == [] {
      assert ts + Texts(values) == ts;
    } else {
      var init, v := values[..|values| - 1], values[|values| - 1];
      SlotsTexts(ts, front, init);
      SlotsText(ts + Texts(init), v);
      Assoc(ts, Texts(init), [Text(v)]);
    }
  }

  lemma SlotsInline(ts: seq<Token>, n: nat, values: seq<string>)
    ensures Slots(ts + [Open(n)] + Texts(values) + [Close(n)]) == Slots(ts) + [Joined(values)] + [""]
  {
    hide SlotsFrom;
    SlotsMark(ts, Open(n));
    SlotsTexts(ts + [Open(n)], Slots(ts), values);
    SlotsMark(ts + [Open(n)] + Texts(values), Close(n));
  }

  lemma ReadText(slots: seq<seq<string>>, v: string)
    requires slots != []
    ensures var r := Read(slots);
            Read(slots[|slots| - 1 := slots[|slots| - 1] + [v]]) == r[|r| - 1 := r[|r| - 1] + v]
  {
    JoinedSnoc(slots[|slots| - 1], v);
  }

  lemma ReadPush(slots: seq<seq<string>>, values: seq<string>)
    ensures Read(slots + [values]) == Read(slots) + [Joined(values)] && Joined([]) == ""
  {
  }

  // ---- the encoder's text is read back ----

  /** Wire text is decided by the atoms, so joining neighbouring texts does not change it. */
  function AtomsWire(atoms: seq<Atom>): string {
    if atoms == [] then "" else AtomWire(atoms[0]) + AtomsWire(atoms[1..])
  }

  function AtomWire(a: Atom): string {
    if a.Ch? then EscapeEach([a.c]) else if a.m.Text? then "" else TokenWire(a.m)
  }

  lemma {:induction false} AtomsWireConcat(a: seq<Atom>, b: seq<Atom>)
    ensures AtomsWire(a + b) == AtomsWire(a) + AtomsWire(b)
  {
    hide AtomWire;
    if a == [] {
      assert a + b == b;
    } else {
      assert (a + b)[1..] == a[1..] + b;
      AtomsWireConcat(a[1..], b);
      Assoc(AtomWire(a[0]), AtomsWire(a[1..]), AtomsWire(b));
    }
  }

  lemma {:induction false} CharsWire(v: string)
    ensures AtomsWire(Chars(v)) == EscapeEach(v)
  {
    if v != "" {
      assert Chars(v)[1..] == Chars(v[1..]);
      CharsWire(v[1..]);
      EscapeEachConcat([v[0]], v[1..]);
      assert [v[0]] + v[1..] == v;
    }
  }

  lemma {:induction false} WireOfAtoms(ts: seq<Token>)
    ensures ToWire(ts) == AtomsWire(Atoms(ts))
  {
    if ts != [] {
      WireOfAtoms(ts[1..]);
      AtomsWireConcat(TokenAtoms(ts[0]), Atoms(ts[1..]));
      if ts[0].Text? {
        CharsWire(ts[0].value);
        EscapeIsOnePass(ts[0].value);
      } else {
        assert [Mark(ts[0])][1..] == [];
      }
    }
  }

  function AtomSlots(current: string, atoms: seq<Atom>): seq<string>
    decreases |atoms|
  {
    if atoms == [] then [current]
    else if atoms[0].Ch? then AtomSlots(current + [atoms[0].c], atoms[1..])
    else [current] + AtomSlots("", atoms[1..])
  }

  lemma {:induction false} AtomSlotsChars(current: string, v: string, rest: seq<Atom>)
    ensures AtomSlots(current, Chars(v) + rest) == AtomSlots(current + v, rest)
    decreases |v|
  {
    if v == "" {
      assert Chars(v) + rest == rest && current + v == current;
    } else {
      assert (Chars(v) + rest)[1..] == Chars(v[1..]) + rest;
      AtomSlotsChars(current + [v[0]], v[1..], rest);
      Assoc(current, [v[0]], v[1..]);
      assert [v[0]] + v[1..] == v;
    }
  }

  lemma {:induction false} SlotsOfAtoms(current: string, ts: seq<Token>)
    ensures SlotsFrom(current, ts) == AtomSlots(current, Atoms(ts))
    decreases |ts|
  {
    if ts != [] {
      if ts[0].Text? {
        AtomSlotsChars(current, ts[0].value, Atoms(ts[1..]));
        SlotsOfAtoms(current + ts[0].value, ts[1..]);
      } else {
        assert (TokenAtoms(ts[0]) + Atoms(ts[1..]))[1..] == Atoms(ts[1..]);
        SlotsOfAtoms("", ts[1..]);
      }
    }
  }

  lemma {:induction false} NamesOfStructure(ts: seq<Token>)
    ensures Names(Structure(ts)) == Names(ts)
  {
    if ts != [] {
      NamesOfStructure(ts[1..]);
      if !ts[0].Text? { assert Structure(ts)[1..] == Structure(ts[1..]); } else { assert Structure(ts) == Structure(ts[1..]); }
    }
  }

  lemma {:induction false} FlatOfStructure(ts: seq<Token>, open: seq<nat>)
    ensures Flat(Structure(ts), open) == Flat(ts, open)
    decreases |ts|
  {
    if ts != [] {
      if ts[0].Text? {
        assert Structure(ts) == Structure(ts[1..]);
        FlatOfStructure(ts[1..], open);
      } else {
        assert Structure(ts)[1..] == Structure(ts[1..]);
        match ts[0]
        case Void(_) => FlatOfStructure(ts[1..], open);
        case Open(id) => FlatOfStructure(ts[1..], [id]);
        case Close(id) => if open != [] { FlatOfStructure(ts[1..], open[..|open| - 1]); }
        case Entity(_, _) =>
      }
    }
  }

  lemma {:induction false} FlatConcat(a: seq<Token>, b: seq<Token>, open: seq<nat>)
    requires Flat(a, open)
    ensures Flat(a + b, open) == Flat(b, [])
    decreases |a|
  {
    if a == [] {
      assert a + b == b;
    } else {
      assert (a + b)[1..] == a[1..] + b;
      FlatConcat(a[1..], b, match a[0]
        case Open(id) => [id]
        case Close(_) => open[..|open| - 1]
        case _ => open);
    }
  }

  lemma {:induction false} TextsFlat(values: seq<string>, rest: seq<Token>, open: seq<nat>)
    ensures Flat(Texts(values) + rest, open) == Flat(rest, open)
  {
    if values == [] {
      assert Texts(values) + rest == rest;
    } else {
      var init, t := Texts(values[..|values| - 1]), Text(values[|values| - 1]);
      Assoc(init, [t], rest);
      TextsFlat(values[..|values| - 1], [t] + rest, open);
      assert ([t] + rest)[1..] == rest;
    }
  }

  /** What the encoder writes is flat. */
  lemma {:induction false} EncodedIsFlat(items: seq<Item>)
    ensures Flat(Encoded(items).0, [])
  {
    if items != [] {
      var init := items[..|items| - 1];
      var (ts, n) := Encoded(init);
      EncodedIsFlat(init);
      match items[|items| - 1]
      case TextNode(v) =>
        FlatConcat(ts, [Text(v)], []);
      case Opaque =>
        FlatConcat(ts, [Void(n + 1)], []);
      case Inline(vs) =>
        var tail := Texts(vs) + [Close(n + 1)];
        FlatConcat(ts, [Open(n + 1)] + Texts(vs) + [Close(n + 1)], []);
        Assoc([Open(n + 1)], Texts(vs), [Close(n + 1)]);
        assert ([Open(n + 1)] + tail)[1..] == tail;
        TextsFlat(vs, [Close(n + 1)], [n + 1]);
    }
  }

  lemma FlatIsEntityFree(ts: seq<Token>, open: seq<nat>)
    requires Flat(ts, open)
    ensures !HasEntity(ts)
    decreases |ts|
  {
    if ts != [] {
      FlatIsEntityFree(ts[1..], match ts[0]
        case Open(id) => [id]
        case Close(_) => open[..|open| - 1]
        case _ => open);
      assert ts == [ts[0]] + ts[1..];
    }
  }

  /** From its own encoder's text the widget reads back the slots it read the block with, and its markers. */
  lemma WidgetReadsItself(items: seq<Item>)
    ensures var ts := Encoded(items).0; DecodeFrom(ToWire(ts), START) == Some(Decoded(Slots(ts), Names(ts)))
  {
    hide DecodeFrom, ToWire, Encoded, Flat, Names, SlotsFrom, Atoms, Merge;
    var ts := Encoded(items).0;
    var merged := Merge(ts);
    EncodedIsFlat(items);
    MergeKeeps(ts);
    StructureOfAtoms(merged, ts);
    FlatOfStructure(ts, []);
    FlatOfStructure(merged, []);
    NamesOfStructure(ts);
    NamesOfStructure(merged);
    SlotsOfAtoms("", ts);
    SlotsOfAtoms("", merged);
    WireOfAtoms(ts);
    WireOfAtoms(merged);
    FlatIsEntityFree(merged, []);
    WidgetReadsServer(merged);
  }
}
